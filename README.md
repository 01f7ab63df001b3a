# GsWhatsAppAdapter in Dafny

GsWhatsAppAdapter bridges WhatsApp users, reached through the GupShup
gateway, to a Bot Framework bot reached over Direct Line. This project
models its core and proves properties of the model.

## What is modelled

**The conversation relay** (`GsWhatsAppAdapter`, WaConnector.cs) is modelled
as a class in `wa_connector.dfy`:
- its fields are the sender session table, the speech-turn flag, the
  test-mode flag, and a trace of every effect on the outside world, in order;
- its methods follow the source methods step by step;
- each method is proved to leave the object exactly as a specification
  function says (`relay_spec.dfy`, `relay_turn.dfy`);
- the properties of the relay are lemmas about those functions.

The relay's effects are:
- start, post and read on the bot's Direct Line;
- text and media sends to the gateway;
- voice-note and audio fetches;
- recognitions and syntheses;
- pauses.

**What the collaborators return is an input** (`RelayTurn.Collaborators`).
This covers starting a conversation, a post's outcome, each read (per
conversation, watermark and attempt), fetches, recognition results and
synthesis results. An exception is an outcome: `ThrewHttp(message)` or
`ThrewOther`. An exception that reaches `ProcessPost` becomes one of its two
catch-block replies.

**The other parts of the core:**
- the hero-card renderer and the attachment builders, including the inline
  voice note;
- a verified base64 codec (section 4 of RFC 4648) and the `data:` URL of
  section 3 of RFC 2397;
- the gateway's request bodies (GsWhatsAppClient.cs);
- the speech result normalisation (SpeechClient.cs);
- the payload helpers (WhatsAppHelper.cs);
- the bot adapter's outbound loop (WhatsAppAdapter.cs);
- the options validation of the client wrapper (WhatsAppClientWrapper.cs).

`strings.dfy` gives the .NET string operations the source relies on, with
System.String's semantics. `schema.dfy` holds the shared records:
Activity, Attachment, CardAction, HeroCard and CardImage.

**Loops in the source are loops in the model, each proved against a
function:**
- the dispatcher's loops over activities and over attachments;
- the suggested-action loop;
- the character filter of SendVoice;
- the hero-card appends;
- `QueryStringToDictionary`;
- `GetMessageAttachments`;
- `SendActivitiesAsync`.

## Model

| member | source | states |
|---|---|---|
| WaConnector.GsWhatsAppAdapter.constructor | WaConnector.cs:40-61 | A new relay has an empty session table, both flags off (`testing` starts false) and has done nothing. |
| WaConnector.GsWhatsAppAdapter.ProcessPost | WaConnector.cs:64-246 | The object's new state and the reply are exactly `RelayTurn.ProcessSpec` of the old state and the request. This covers the dispatch on the message type, the GET test path and both catch blocks. |
| WaConnector.GsWhatsAppAdapter.Hear | WaConnector.cs:116-133 | After recognition the state and reply are `RelayTurn.Listen`. An accepted transcript sets the speech-turn flag and goes to the bot as "text"; otherwise the note's stream goes to the bot as recognition left it, read to its end. Either way the reply is null. |
| WaConnector.GsWhatsAppAdapter.Reply | WaConnector.cs:101-245 | A failed turn gets a catch block's reply: the connection apology exactly for an HttpException, else the system apology. A successful turn replies with its ChatResponse exactly when the branch returns it (text/image/test), and with null otherwise. |
| WaConnector.GsWhatsAppAdapter.TalkToTheBot | WaConnector.cs:249-394 | Trace, session table and result are exactly `RelayTurn.TalkSpec`; both flags are unchanged. |
| WaConnector.GsWhatsAppAdapter.PostAndReadAsync | WaConnector.cs:313-345 | From the post on, trace, sessions and result are `RelayTurn.PostAndRead`. A non-HTTP exception from the post ends the turn after the post alone. |
| WaConnector.GsWhatsAppAdapter.ReadRepliesAsync | WaConnector.cs:344-364 | Given the two reads, trace, sessions and result are `RelayTurn.Replies`. |
| WaConnector.GsWhatsAppAdapter.SaveSession | WaConnector.cs:367-392 | The sessions and the Chat are `RelayTurn.Finish`, and the trace is unchanged. |
| WaConnector.GsWhatsAppAdapter.ReadBotMessagesAsync | WaConnector.cs:397-533 | Trace and Chat (or exception) are exactly `RelaySpec.ReadSpec` of the read's outcome; the session table and flags are unchanged. |
| WaConnector.GsWhatsAppAdapter.DispatchActivities | WaConnector.cs:410-526 | The loop over the bot's activities leaves the trace, reply and exception of `RelaySpec.ReadFold`. |
| WaConnector.GsWhatsAppAdapter.DispatchActivity | WaConnector.cs:418-525 | One activity does its text, its attachments and its pause, as `RelaySpec.ActivityStep`. |
| WaConnector.GsWhatsAppAdapter.DispatchText | WaConnector.cs:421-454 | A text is spoken first on a speech turn, then delivered with its suggested actions, as `RelaySpec.TextStep`. |
| WaConnector.GsWhatsAppAdapter.DeliverText | WaConnector.cs:442-512 | In test mode the reply gains the text, joined by "\n"; otherwise one SendText is added to the trace. This is `RelaySpec.Deliver`. |
| WaConnector.GsWhatsAppAdapter.DispatchAttachments | WaConnector.cs:457-518 | The attachments of an activity are dispatched as `RelaySpec.AttachmentsFold`. |
| WaConnector.GsWhatsAppAdapter.DispatchAttachmentList | WaConnector.cs:460-517 | The attachment loop stops at the first exception and matches `RelaySpec.AttachmentsFold`. |
| WaConnector.GsWhatsAppAdapter.DispatchAttachment | WaConnector.cs:463-516 | One attachment is handled by its content type, as `RelaySpec.AttachmentStep`. |
| WaConnector.GsWhatsAppAdapter.SendVoice | WaConnector.cs:604-631 | The trace gains exactly `RelaySpec.VoiceEffects`; flags and sessions are unchanged. |
| WaConnector.GsWhatsAppAdapter.SendVoiceFromHeroText | WaConnector.cs:634-645 | The trace gains exactly `RelaySpec.VoiceFromCard`: the card's text is spoken when the card is present and its text is not empty. |
| RelayTurn.ProcessWithoutBot | WaConnector.cs:64-246 | None of these changes anything but clearing the speech-turn flag, and each gets its fixed reply: a GET without both text and sender ("Callback deve ser chamado via POST"), a missing messageobj ("Msg Obj Missing"), an undecodable one (the system apology), an "event" ("true"), and any type outside text/image/voice/audio/event (the fixed apology). |
| RelayTurn.ProcessSpeechTurn | WaConnector.cs:64-164 | After a request the speech-turn flag is set iff it was a voice note or audio file whose recognised transcript is accepted. |
| RelayTurn.ProcessTesting | WaConnector.cs:194-210 | Test mode holds after a request iff it held before or the request is a query-string message with both text and sender; it is never reset. |
| RelayTurn.ProcessSpeechReplies | WaConnector.cs:107-245 | Voice notes and audio files get a null reply, or a catch block's reply when the turn throws. |
| RelayTurn.ProcessFrame | WaConnector.cs:64-389 | A request only appends to the trace, and changes the session table at most at the request's sender. |
| RelayTurn.TalkSessionResolution | WaConnector.cs:258-280 | A known sender starts nothing, and every read uses the stored conversation and watermark. An unknown sender's turn begins with exactly one start. A null conversation ends the turn with "Ocorreu um ERRO ao estabelecer a conexão com o Bot", an empty watermark and nothing posted. |
| RelayTurn.TalkSessionWrite | WaConnector.cs:367-389 | Sessions change only when the Chat's watermark is non-empty, and then only at the sender: it gets that watermark, and a known sender keeps its conversation. A thrown or watermark-less turn leaves the table alone. |
| RelayTurn.BuildActivity | WaConnector.cs:283-311 | The activity is from the sender, on channel "whatsapp", with the timestamp as id. It throws iff an image has no URL. |
| RelayTurn.BuildActivitySpec | WaConnector.cs:283-563 | "text" carries the text. "image" carries exactly one image/png attachment named after the URL's last segment. "voice" carries one `<voiceid>.ogg` attachment whose URL is `data:audio/ogg;base64,` + base64 of the stream's remaining octets. "event" becomes an Event. Any other type ("audio" included) is a bare Message. |
| RelayTurn.TalkPostsBuilt | WaConnector.cs:258-321 | The activity a turn posts is the one built from its message: first of all for a known sender, right after the start for a new one. |
| RelayTurn.ProcessVoiceFallbackAsWritten | WaConnector.cs:107-133 | As written, a voice note whose transcript is not accepted is posted, right after the fetch and the recognition, as `InlineVoiceAsWritten`: "data:audio/ogg;base64," whatever was fetched (see Findings). |
| RelayTurn.ExchangeReads | WaConnector.cs:313-364 | A turn makes at most two reads, all from the original conversation and watermark, and starts nothing after the post. There are two reads iff the post timed out and the first read returned an empty reply. Outside test mode, a timed-out post whose first read succeeds is always read twice. |
| RelayTurn.PostAndReadReads | WaConnector.cs:316-362 | The same read count and read origin for a built activity. Outside test mode a successful read's reply is empty. |
| RelayTurn.SettleReads | WaConnector.cs:322-362 | Given reads that each make one GetActivities, the post's outcome makes one or two reads, and two iff it timed out and the first reply was empty. |
| RelayTurn.SettleReplies | WaConnector.cs:338-389 | When no watermark comes back, the reply is one of three. After a non-timeout HttpException from the post it is the maintenance message. After a timeout with two empty reads it is the connection-failure message. After a post that returned, or a timeout whose first read was not empty, it is "", because msgerro overwrites the reply. |
| RelayTurn.SettleWrite | WaConnector.cs:367-389 | With a non-empty watermark the table becomes `sessions[user := (conversation, watermark)]`; otherwise it is unchanged. |
| RelayTurn.ExchangeWrite | WaConnector.cs:313-389 | The same session write for the whole post-and-read of a known conversation. |
| RelayTurn.PostAndReadThrew | WaConnector.cs:226-321 | A post that throws a non-HTTP exception ends the turn with just the post, a system fault, and the table unchanged. |
| RelayTurn.PostAndReadAfterPost | WaConnector.cs:322-364 | Otherwise the post is followed by the wait notice and a 5000 ms pause iff it timed out, then by `Replies`. |
| RelayTurn.FaultReply | WaConnector.cs:226-245 | The reply is "Desculpe, ocorreu uma falha na conexão." exactly for an HttpException. |
| RelaySpec.ReadSpecShape | WaConnector.cs:404-532 | A read is exactly one GetActivities from the given watermark, followed only by the dispatcher's own effects. A read that does not throw returns the activity set's watermark. Outside test mode its reply is empty. |
| RelaySpec.FromBotSpec | WaConnector.cs:410-413 | Only activities sent by the bot id are kept, and in backend order. |
| RelaySpec.ReadFoldPacing | WaConnector.cs:418-526 | A read that does not throw pauses exactly n - 1 times for n bot activities. Only sends, pauses and syntheses happen. |
| RelaySpec.ReadFoldFresh | WaConnector.cs:417-525 | The "file sent" mark is clear before each activity. |
| RelaySpec.ActivityStepCounts | WaConnector.cs:519-525 | An activity pauses once, unless it is the last, and the pause clears the file mark. |
| RelaySpec.ActivityStepPause | WaConnector.cs:463-525 | The pause after an activity is 2000 ms when it has a media attachment, else 1000 ms. Hero cards do not count as media. |
| RelaySpec.AttachmentsFoldQuiet | WaConnector.cs:460-518 | Attachments only send, speak and deliver. Afterwards a file is marked as sent iff one was already marked or some attachment has a media content type. |
| RelaySpec.ReadFoldDelivery | WaConnector.cs:442-512 | Outside test mode the reply stays empty; in test mode nothing is sent as a text message. |
| RelaySpec.PlainTextActivity | WaConnector.cs:421-525 | Outside test mode and speech turns, a text activity without attachments is exactly one SendText of the text plus its suggestion lines, then a 1000 ms pause unless it is last. |
| RelaySpec.SpokenTextActivity | WaConnector.cs:427-450 | On a speech turn the voice effects of the text come before its delivery. |
| RelaySpec.VoiceEffectsSpec | WaConnector.cs:604-631 | Synthesis of the text cleaned to codes ≤ 255, under the id without '|', comes first. Text that cleans to "" does nothing. At most one audio message follows, and only after a synthesis. |
| RelaySpec.VoiceFromCardSpec | WaConnector.cs:634-645 | A hero card is spoken only when it is present and its text cleans to something; then the synthesis of that cleaned text comes first. |
| RelayCodecs.CreateAttachment | WaConnector.cs:536-545 | The URL is the content and the content type is kept. The name is a '/'-free suffix of the URL, preceded by a '/' unless it is the whole URL. |
| RelayCodecs.CreateInlineAttachment | WaConnector.cs:548-563 | The content type is kept, and the name starts with the voice id and a dot. |
| RelayCodecs.InlineAttachmentRoundTrip | WaConnector.cs:548-563 | The inline URL parses back to the content type and exactly the copied octets. |
| RelayCodecs.InlineVoiceNote | WaConnector.cs:303-563 | A voice note is named `<voiceid>.ogg`, and its URL is `data:audio/ogg;base64,` + base64 of the note, which parses back to the note. |
| RelayCodecs.InlineVoiceAsWrittenIsEmpty | WaConnector.cs:548-569 | As written, the inline voice note carries no octets: any non-empty note is lost (see Findings). |
| RelayCodecs.InlineVoiceAsWrittenExample | WaConnector.cs:548-569 | The note [1, 2, 3] (base64 "AQID") is attached, as written, as "data:audio/ogg;base64,". |
| RelayCodecs.AppendSuggestions | WaConnector.cs:432-439 | The loop leaves `ReplyText`. |
| RelayCodecs.ReplyTextLayout | WaConnector.cs:432-439 | The reply is the bot's text followed, for each suggested action in order, by a newline, five spaces and the action's title between triple backticks. |
| RelayCodecs.MediaKindOfSpec | WaConnector.cs:463-495 | PNG/JPG/JPEG go as image, PDF as file, MPEG as video, OGG and MP3 as audio (each iff), and nothing else goes as media. |
| RelayCodecs.HeroCardIsNotMedia | WaConnector.cs:497-514 | The hero-card type is rendered as text, never sent as media. |
| RelayCodecs.CleanText | WaConnector.cs:609-618 | The filter leaves `AnsiOnly(text)`. |
| RelayCodecs.AnsiOnlyBounds | WaConnector.cs:609-618 | The cleaned text holds only codes ≤ 255, and text that already does is unchanged. |
| RelayCodecs.TextId | WaConnector.cs:607 | The synthesis id has no '|' and is no longer than the activity id. |
| RelayCodecs.VoiceFileNameStem | WaConnector.cs:624-629 | When ".wav" does not occur in the media directory and the id, the audio is sent under the wav path without its ".wav". |
| HeroCards.ConvertHeroCardToWhatsApp | WaConnector.cs:572-597 | The appending loops leave `RenderCard(card)`. |
| HeroCards.BoldFirstDigitChainAgrees | WaConnector.cs:598-601 | The source's Replace("1", "*1*") … Replace("9", "*9*") chain on the first character equals: a leading 1-9 wrapped in asterisks, anything else unchanged. An empty line throws. |
| HeroCards.ButtonLinesFailIff | WaConnector.cs:588-601 | The button lines fail iff some button title is empty. |
| HeroCards.RenderCardFailsIff | WaConnector.cs:572-597 | Rendering a card throws iff some button title is empty. |
| HeroCards.RenderCardHeading | WaConnector.cs:577-586 | A null card renders as "". A card's text starts with its heading, which is empty iff both the title and the text are empty. |
| HeroCards.RenderMenuCard | WaConnector.cs:572-601 | A "Menu" card with buttons "1 Option A" and "2 Option B" renders as "\*Menu\*\n\n\*1\* Option A\n\*2\* Option B\n". |
| Base64.DecodeEncode | WaConnector.cs:554 | Decoding `Convert.ToBase64String`'s output (section 4 of RFC 4648) gives back the octets. |
| Base64.EncodeDecode | WaConnector.cs:554 | Every text the canonical decoder accepts is the encoding of what it decodes to. |
| DataUrl.ParseBuild | WaConnector.cs:556-561 | A `data:<type>;base64,<data>` URL (section 3 of RFC 2397) parses back to its type and octets. |
| Speech.WrittenNroToDigit | SpeechClient.cs:126-135 | The result is all decimal digits (char.IsDigit, Unicode category Nd) or the input itself, and keeps a '.' only when unchanged. |
| Speech.WrittenNroToDigitIdempotent | SpeechClient.cs:126-135 | Normalising twice equals normalising once. |
| Speech.WrittenNroToDigitExamples | SpeechClient.cs:128-132 | "Um." becomes "1", "1.234." becomes "1234", the Arabic-Indic "٣." becomes "٣", "Oi." keeps its dot, and "" stays "". |
| Speech.TranscriptOf | SpeechClient.cs:107-121 | NoMatch gives "NOMATCH"; Canceled gives a string starting "CANCELED: Reason="; any other reason gives "". |
| Speech.AcceptedOnlyFromSpeech | SpeechClient.cs:107-121 | Only recognised speech yields a transcript the relay accepts (WaConnector.cs:120), and then it is the normalised text. |
| Speech.SpeechSynthesized | SpeechClient.cs:138-192 | TTS succeeds iff the text is non-empty and the synthesiser reports SynthesizingAudioCompleted. |
| Speech.WavPathExtension | SpeechClient.cs:40-48 | When ".ogg" does not occur in the media directory and the id, the wav file is the ogg file with its extension changed. |
| Speech.RecognitionStepsOrder | SpeechClient.cs:40-59 | The note is saved first and recognised last, after the conversion. A stale wav is deleted iff one exists, and before the conversion. |
| GsClient.SendMedia | GsWhatsAppClient.cs:45-99 | A null content URI fails with ArgumentException iff it is null; otherwise the result is the gateway's id for the body, or "". |
| GsClient.MediaBodyLayout | GsWhatsAppClient.cs:61-75 | The body starts with the routing fields and the type. A filename field follows iff the kind is not audio. An image ends with originalUrl holding the content URI, then previewUrl (the thumbnail, else the content URI); other kinds end with one url field. The body always ends with '}'. |
| GsClient.TextBodyLayout | GsWhatsAppClient.cs:112 | The text body starts with the routing fields and ends with "&message=" and the unescaped text. |
| GsClient.SentId | GsWhatsAppClient.cs:87-136 | A failed send yields "". |
| GsClient.Fetched | GsWhatsAppClient.cs:154-192 | A failed fetch yields an empty stream; otherwise the fetched octets. |
| WhatsAppHelper.QueryStringToDictionary | WhatsAppHelper.cs:162-182 | The loop leaves `QueryDictionary`. A null or white-space query gives an empty dictionary. |
| WhatsAppHelper.AddPiecesSucceedsIff | WhatsAppHelper.cs:172-179 | The loop succeeds iff every piece has an '=' and the keys are distinct. |
| WhatsAppHelper.AddPiecesContents | WhatsAppHelper.cs:172-179 | On success the keys are exactly the pieces' keys, each mapped to its unescaped value. |
| WhatsAppHelper.PieceLayout | WhatsAppHelper.cs:174-176 | The key is the text before the first '=', and the value is the text up to the next '=' or the end. |
| WhatsAppHelper.GetMessageAttachments | WhatsAppHelper.cs:137-155 | The loop leaves `MessageAttachments`. |
| WhatsAppHelper.MessageAttachmentsSpec | WhatsAppHelper.cs:139-154 | The attachments are those of the media indices, in order: at most numMedia, and none when numMedia ≤ 0. |
| WhatsAppHelper.MediaIndicesOrdered | WhatsAppHelper.cs:140-143 | The media indices increase, are below numMedia, and each has both keys. |
| WhatsAppHelper.MediaIndicesMembers | WhatsAppHelper.cs:140-143 | An index is included iff it is below numMedia and both `MediaContentType{i}` and `MediaUrl{i}` are present. |
| WhatsAppHelper.TryParseInt32 | WhatsAppHelper.cs:127 | A parsed count is within the 32-bit range. |
| WhatsAppHelper.TryParseNatToString | WhatsAppHelper.cs:127 | A count written in decimal parses back to itself. |
| WhatsAppHelper.PayloadToActivity | WhatsAppHelper.cs:98-103 | Conversion throws iff the payload is null. |
| WhatsAppHelper.PayloadToActivityFields | WhatsAppHelper.cs:107-128 | The result is a Message whose sender and conversation are From (else Author), whose recipient is To and whose text is Body. It has attachments iff NumMedia parses to a positive count, and then at most that many. |
| WhatsAppHelper.UriOf | WhatsAppHelper.cs:45 | `new Uri(url)` succeeds iff the URL is not null and is an absolute URI, and then keeps it; a null URL throws ArgumentNullException. |
| WhatsAppHelper.MediaUrlsSpec | WhatsAppHelper.cs:42-46 | The media URLs are taken iff every attachment's URL is an absolute URI, and then they are those URLs in order. Otherwise the exception is that of the first attachment whose URI fails. |
| WhatsAppHelper.MediaUrlsRejectsRelative | WhatsAppHelper.cs:45 | An empty URL throws UriFormatException. |
| WhatsAppHelper.ActivityToGsWhatsApp | WhatsAppHelper.cs:30-40 | A null activity, then a null/white-space number, throws ArgumentNullException. |
| WhatsAppHelper.ActivityToGsWhatsAppFields | WhatsAppHelper.cs:42-56 | On success the options carry the number, the text, the conversation id and one media URL per attachment, in order. |
| WhatsAppAdapter.SendActivitiesAsync | WhatsAppAdapter.cs:67-101 | A null batch throws ArgumentException with no steps. Otherwise the result is the responses and the steps taken, as `ResponsesOf` and `StepsOf`. |
| WhatsAppAdapter.ResponsesFollowMessages | WhatsAppAdapter.cs:77-90 | There is one response per Message activity, in input order, each the id its send returned. |
| WhatsAppAdapter.PacingOf | WhatsAppAdapter.cs:77-98 | The sends are exactly the Message activities, in order. A batch of n > 0 pauses n - 1 times, skipped activities included, and every pause is 2000 ms. |
| WhatsAppAdapter.StepsForCounts | WhatsAppAdapter.cs:79-97 | Each activity gives at most one send, only if it is a Message, and one pause unless it is last. |
| WhatsAppAdapter.UpdateActivityAsync | WhatsAppAdapter.cs:157-160 | Updating an activity always fails with NotSupported. |
| WhatsAppAdapter.DeleteActivityAsync | WhatsAppAdapter.cs:173-176 | Deleting an activity always fails with NotSupported. |
| ClientWrapper.ValidateIsFirstFailure | WhatsAppClientWrapper.cs:21-42 | Null options throw ArgumentNullException. Otherwise the first failing check, in the order number, key, API URI, media URI, decides the ArgumentException. |
| ClientWrapper.FirstFailureSpec | WhatsAppClientWrapper.cs:25-42 | Validation passes iff no check fails; otherwise it reports the error of a failing check with none failing before it. |
| ClientWrapper.NewWrapper | WhatsAppClientWrapper.cs:21-47 | Construction fails iff validation fails, with that error. On success `Options` is exactly the object passed in. |
| Strings.SplitJoin | WaConnector.cs:541-559 | Joining the pieces of `Split` gives back the string, and no piece holds the separator. |

## Left out

- HTTP, JSON and Direct Line transport are not modelled. That covers the
  HttpClient calls, headers, Newtonsoft (de)serialisation and the form and
  query access. Their results are the inputs in `Collaborators`.
- `WhatsAppHelper.WriteAsync` is not part of this model; it is transport.
- The Azure Speech SDK, the Opus/Ogg-to-WAV conversion and the MP3
  conversion are foreign code. Recognition and synthesis reasons are inputs.
  The Ogg-to-WAV conversion appears as a file step of recognition. The MP3
  conversion (`Mp3Converter.WaveToMP3`) is not modelled: `SendVoice` goes
  from the synthesis straight to the audio send.
- RelaySpec.VoiceEffects: the synthesiser and the MP3 conversion are taken
  never to throw. In the source nothing catches their exceptions, which
  would reach ProcessPost's non-HTTP catch; only the recogniser's exception
  is modelled.
- `Thread.Sleep` and `Task.Delay` are recorded as `Sleep(ms)` effects. No
  clock is modelled. The timestamps `DateTime.Now` and `DateTime.UtcNow` are
  inputs or left out.
- Concurrency is not modelled: turns run one at a time, and races on the
  shared session table are not captured. The session's `Lastdatetime`
  field is not modelled.
- Logging is not modelled.
- `Uri.UnescapeDataString` is a function parameter (`unescape`), and so is
  the `Uri` constructor's test for an absolute URI (`isAbsoluteUri`).
  `Uri.ToString()` is identity on a URI's text.
- Strings.IsDecimalDigit follows the Nd blocks of the Basic Multilingual
  Plane; a .NET version with a different Unicode table may differ.
- ProcessAsync, ContinueConversationAsync and RunPipelineAsync belong to
  the Bot Framework pipeline, and `WhatsAppClientWrapper.SendMessage` calls
  a foreign client; none is part of this model. `SendActivityToWhatsApp`
  is the parameter `send`, and `GsWhatsAppClient.Init` is not part of this
  model.
- .NET strings are UTF-16. `char` here is a Unicode scalar, so the
  code-point filter is stated on `char` codes.
- C# `null` is modelled as `None` where the source tests it, and as the
  empty string where it is only concatenated, as C# concatenation treats it.
  A null that the source dereferences without a test is not represented,
  although in the source each throws NullReferenceException into
  ProcessPost's non-HTTP catch:
  - a bot activity with a null Id (`textid.Replace` in SendVoice): the
    model's id is a string, so RelayCodecs.TextId goes on with it;
  - a hero-card attachment with a null Content (`Content.ToString()` in
    ConvertHeroCardToWhatsApp and SendVoiceFromHeroText): the model's
    `card: Option<HeroCard>` stands for Content that deserialises to a
    card or to null, and None renders as "";
  - a bot activity with a null From (`activity.From.Id` in the bot filter):
    the model's sender id is a string.
- WhatsAppHelper.TryParseInt32 accepts optional white space, one ASCII
  sign and ASCII digits. It does not model Int32.TryParse's tolerance of
  trailing '\0' characters, nor a culture's own sign symbols.
- RelayTurn.Collaborators: a read's result depends on the conversation,
  watermark and attempt number, not on wall-clock time. Both reads are
  inputs, and the second read's effects appear only when it happens.
- WaConnector.GsWhatsAppAdapter.DispatchActivities,
  WaConnector.GsWhatsAppAdapter.DispatchActivity,
  WaConnector.GsWhatsAppAdapter.DispatchText,
  WaConnector.GsWhatsAppAdapter.DeliverText,
  WaConnector.GsWhatsAppAdapter.DispatchAttachments,
  WaConnector.GsWhatsAppAdapter.DispatchAttachment and
  WaConnector.GsWhatsAppAdapter.DispatchAttachmentList are parts of the one
  loop of `ReadBotMessagesAsync`, split into methods so each can be proved
  on its own.
- WaConnector.GsWhatsAppAdapter.PostAndReadAsync,
  WaConnector.GsWhatsAppAdapter.ReadRepliesAsync,
  WaConnector.GsWhatsAppAdapter.SaveSession,
  WaConnector.GsWhatsAppAdapter.Hear and WaConnector.GsWhatsAppAdapter.Reply
  are parts of `TalkToTheBot` and `ProcessPost`. They are not separate
  methods in the source.
- WaConnector.GsWhatsAppAdapter.constructor starts from an empty session
  table. The source receives a Hashtable shared with the application.
- An exception's kind matters only for the catch blocks (HttpException or
  any other). A missing Voice object, an image without a URL, a media
  attachment without a URL and an empty button title are modelled as the
  non-HTTP exception they raise.
- Base64.DecodeEncode and Base64.EncodeDecode use a canonical decoder
  written for the proof; the source only encodes.

Behaviours of the code a reader may not expect, which the model keeps:
- After an HttpException from the post other than a timeout, the
  maintenance message replaces the reply only when the read returned no
  watermark.
- An "audio" message whose recognition fails is posted with no inline
  attachment: the activity builder only inlines "voice". It also needs the
  message's Voice object, which would otherwise throw.
- Only the post's timeout triggers the retry; an exception from a read
  reaches the catch blocks.
- A media attachment without a content URL throws out of the turn,
  because SendMedia rejects a null URI before its own catch.

## Findings

| source | as written | input that shows it | evidently intended | confidence | as-written member | corrected member |
|---|---|---|---|---|---|---|
| WaConnector.cs:117, 130, 548-569 with SpeechClient.cs:43 | The stream passed to `CreateInlineAttachment` after a failed recognition is the one `RecognizeOggStream` already copied to its file. `stream.CopyTo` reads from the current position, at the end, so the data URL carries no bytes. | A voice note [1, 2, 3] that the recogniser reports as NoMatch is attached as "data:audio/ogg;base64," instead of "data:audio/ogg;base64,AQID". | The inline attachment carries the whole note, with the stream rewound before the copy. The relay model keeps the code as written. | not executed | RelayTurn.ProcessVoiceFallbackAsWritten, RelayCodecs.InlineVoiceAsWrittenIsEmpty, RelayCodecs.InlineVoiceAsWrittenExample | RelayCodecs.InlineVoiceNote |
