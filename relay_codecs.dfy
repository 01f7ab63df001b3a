/**
 * The relay's pure helpers (WaConnector.cs): the two attachment builders,
 * the suggested-action suffix of a reply, the attachment content types the
 * relay forwards and the kind each is sent as, and the text and file name
 * clean-up around speech synthesis.
 */
module RelayCodecs {

  import opened Wrappers
  import opened Schema
  import Strings
  import Base64
  import DataUrl
  import GsClient

  // ---------------------------------------------------------------- attachments

  /** CreateAttachment: the URL as content, named after its last '/'-separated segment. */
  function CreateAttachment(url: string, contentType: string): (a: Attachment)
    ensures a.contentType == contentType && a.contentUrl == Some(url)
    ensures Strings.EndsWith(url, a.name) && '/' !in a.name
    ensures |a.name| < |url| ==> url[|url| - |a.name| - 1] == '/'
  {
    Strings.SplitLastSuffix(url, '/');
    Attachment(contentType, Some(url), Strings.Last(Strings.Split(url, '/')), None, None)
  }

  /**
   * CreateInlineAttachment, given the octets it copies: a data URL with the
   * base64 of those octets, named after the voice id and the media subtype.
   */
  function CreateInlineAttachment(voiceId: string, contentType: string, data: seq<Base64.byte>): (a: Attachment)
    ensures a.contentType == contentType && a.contentUrl.Some?
    ensures Strings.StartsWith(a.name, voiceId + ".")
  {
    var name := voiceId + "." + Strings.Last(Strings.Split(contentType, '/'));
    assert name[..|voiceId + "."|] == voiceId + ".";
    Attachment(contentType, Some(DataUrl.Build(contentType, data)),
               voiceId + "." + Strings.Last(Strings.Split(contentType, '/')), None, None)
  }

  /** The inline content URL reads back as the content type and exactly the octets copied. */
  lemma InlineAttachmentRoundTrip(voiceId: string, contentType: string, data: seq<Base64.byte>)
    requires ';' !in contentType
    ensures DataUrl.Parse(CreateInlineAttachment(voiceId, contentType, data).contentUrl.value) == Some((contentType, data))
  {
    DataUrl.ParseBuild(contentType, data);
  }

  const VoiceContentType := "audio/ogg"

  /** A voice note goes inline as "<voiceid>.ogg", "data:audio/ogg;base64," followed by the base64 of the note. */
  lemma InlineVoiceNote(voiceId: string, data: seq<Base64.byte>)
    ensures var a := CreateInlineAttachment(voiceId, VoiceContentType, data);
      && a.name == voiceId + ".ogg"
      && a.contentUrl == Some("data:audio/ogg;base64," + Base64.Encode(data))
      && DataUrl.Parse(a.contentUrl.value) == Some((VoiceContentType, data))
  {
    VoiceName(voiceId, data);
    VoiceDataUrl(data);
    InlineAttachmentRoundTrip(voiceId, VoiceContentType, data);
  }

  lemma VoiceName(voiceId: string, data: seq<Base64.byte>)
    ensures CreateInlineAttachment(voiceId, VoiceContentType, data).name == voiceId + ".ogg"
  {
    InlineName(voiceId, VoiceContentType, data);
    OggExtension();
    DotOgg();
    NameAssoc(voiceId, ".", "ogg");
  }

  /** The inline attachment's name is the voice id, a dot and the content type's last segment. */
  lemma InlineName(voiceId: string, contentType: string, data: seq<Base64.byte>)
    ensures CreateInlineAttachment(voiceId, contentType, data).name
      == voiceId + "." + Strings.Last(Strings.Split(contentType, '/'))
  {
  }

  lemma DotOgg()
    ensures "." + "ogg" == ".ogg"
  {
  }

  lemma NameAssoc(a: string, b: string, c: string)
    ensures a + b + c == a + (b + c)
  {
  }

  lemma OggExtension()
    ensures Strings.Last(Strings.Split(VoiceContentType, '/')) == "ogg"
  {
    var major, minor := "audio", "ogg";
    assert VoiceContentType == major + ['/'] + minor;
    SplitTwo(major, minor, '/');
  }

  lemma VoiceDataUrl(data: seq<Base64.byte>)
    ensures DataUrl.Build(VoiceContentType, data) == "data:audio/ogg;base64," + Base64.Encode(data)
  {
  }

  /** Splitting text without the separator gives the text itself. */
  lemma {:induction false} SplitNone(b: string, sep: char)
    requires sep !in b
    ensures Strings.Split(b, sep) == [b]
  {
    if b != [] {
      SplitNone(b[1..], sep);
      assert b == [b[0]] + b[1..];
    }
  }

  /** Splitting "a<sep>b", where neither part holds the separator, gives the two parts. */
  lemma {:induction false} SplitTwo(a: string, b: string, sep: char)
    requires sep !in a && sep !in b
    ensures Strings.Split(a + [sep] + b, sep) == [a, b]
  {
    var s := a + [sep] + b;
    if a == [] {
      assert s == [sep] + b && s[1..] == b;
      SplitNone(b, sep);
    } else {
      assert s[1..] == a[1..] + [sep] + b;
      SplitTwo(a[1..], b, sep);
      assert a == [a[0]] + a[1..];
    }
  }

  // ---------------------------------------------------------------- streams

  /** A readable stream: its octets and the read position. */
  datatype Stream = Stream(data: seq<Base64.byte>, position: nat)

  /** What a copy from the stream yields: the octets from the position on. */
  function Remaining(s: Stream): seq<Base64.byte>
  {
    if s.position <= |s.data| then s.data[s.position..] else []
  }

  /** Stream.CopyTo: the remaining octets are copied and the position moves to the end. */
  function CopyTo(s: Stream): (r: (seq<Base64.byte>, Stream))
    ensures r.0 == Remaining(s) && Remaining(r.1) == [] && r.1.data == s.data
  {
    (Remaining(s), Stream(s.data, |s.data|))
  }

  /** TalkToTheBot's stream when none is passed (a null stream): only a "voice" message reads it, and that always passes one. */
  const NoStream := Stream([], 0)

  /**
   * RecognizeOggStream's first step: the fetched stream, at its start,
   * is copied whole to the .ogg file, which leaves it at its end.
   */
  function SaveNote(fetched: seq<Base64.byte>): (r: (seq<Base64.byte>, Stream))
    ensures r.0 == fetched && r.1.data == fetched && Remaining(r.1) == []
  {
    assert fetched[0..] == fetched;
    CopyTo(Stream(fetched, 0))
  }

  /**
   * The voice note as the relay attaches it after a failed recognition, as
   * written: ConverteStreamToByteArray copies from the stream that
   * RecognizeOggStream has already copied to its file.
   */
  function InlineVoiceAsWritten(voiceId: string, fetched: seq<Base64.byte>): Attachment
  {
    CreateInlineAttachment(voiceId, VoiceContentType, CopyTo(SaveNote(fetched).1).0)
  }

  /**
   * As written, the inline voice note carries no octets at all: its data
   * URL reads back as empty whatever was fetched, so a non-empty note is lost.
   */
  lemma InlineVoiceAsWrittenIsEmpty(voiceId: string, fetched: seq<Base64.byte>)
    ensures InlineVoiceAsWritten(voiceId, fetched) == CreateInlineAttachment(voiceId, VoiceContentType, [])
    ensures InlineVoiceAsWritten(voiceId, fetched).contentUrl == Some("data:audio/ogg;base64,")
    ensures fetched != [] ==>
      InlineVoiceAsWritten(voiceId, fetched).contentUrl != CreateInlineAttachment(voiceId, VoiceContentType, fetched).contentUrl
  {
    assert CopyTo(SaveNote(fetched).1).0 == [];
    EmptyVoiceUrl();
    var ct := VoiceContentType;
    if fetched != [] {
      assert |Base64.Encode(fetched)| > 0 == |Base64.Encode([])|;
      assert |DataUrl.Build(ct, fetched)| != |DataUrl.Build(ct, [])|;
    }
  }

  lemma EmptyVoiceUrl()
    ensures DataUrl.Build(VoiceContentType, []) == "data:audio/ogg;base64,"
  {
    var none: seq<Base64.byte> := [];
    var prefix := "data:audio/ogg;base64,";
    VoiceDataUrl(none);
    assert Base64.Encode(none) == "";
    assert prefix + Base64.Encode(none) == prefix;
  }

  /** The three-octet note [1, 2, 3], whose base64 is "AQID", is attached, as written, as "data:audio/ogg;base64,". */
  lemma InlineVoiceAsWrittenExample(fetched: seq<Base64.byte>)
    requires fetched == [1, 2, 3]
    ensures InlineVoiceAsWritten("v", fetched).contentUrl == Some("data:audio/ogg;base64,")
    ensures Base64.Encode(fetched) == "AQID"
  {
    InlineVoiceAsWrittenIsEmpty("v", fetched);
    Base64AQID(fetched);
  }

  lemma Base64AQID(data: seq<Base64.byte>)
    requires data == [1, 2, 3]
    ensures Base64.Encode(data) == "AQID"
  {
    assert data[3..] == [];
    assert Base64.Encode(data) == Base64.EncodeGroup(1, 2, 3) + Base64.Encode(data[3..]);
    assert Base64.IndexChar(0) == 'A' && Base64.IndexChar(16) == 'Q';
    assert Base64.IndexChar(8) == 'I' && Base64.IndexChar(3) == 'D';
  }

  // ---------------------------------------------------------------- replies

  /** The suffix one suggested action adds to a reply. */
  function SuggestionLine(action: CardAction): string
  {
    "\n     ```" + action.title + "```"
  }

  /** The reply after appending the suggested actions one by one, as the source's loop does. */
  function ReplyText(text: string, actions: seq<CardAction>): string
  {
    if actions == [] then text
    else ReplyText(text, actions[..|actions| - 1]) + SuggestionLine(actions[|actions| - 1])
  }

  /** All the suggestion lines, first action first. */
  function SuggestionLines(actions: seq<CardAction>): string
  {
    if actions == [] then "" else SuggestionLine(actions[0]) + SuggestionLines(actions[1..])
  }

  lemma {:induction false} SuggestionLinesSnoc(init: seq<CardAction>, a: CardAction)
    ensures SuggestionLines(init + [a]) == SuggestionLines(init) + SuggestionLine(a)
  {
    if init != [] {
      assert (init + [a])[1..] == init[1..] + [a];
      SuggestionLinesSnoc(init[1..], a);
    } else {
      assert [a][1..] == [];
    }
  }

  /** The reply is the bot's text followed by one suggestion line per action, in order. */
  lemma {:induction false} ReplyTextLayout(text: string, actions: seq<CardAction>)
    ensures ReplyText(text, actions) == text + SuggestionLines(actions)
  {
    if actions != [] {
      var init, last := actions[..|actions| - 1], actions[|actions| - 1];
      ReplyTextLayout(text, init);
      assert actions == init + [last];
      SuggestionLinesSnoc(init, last);
    }
  }

  /** The reply loop: appends each suggested action's line to the bot's text. */
  method AppendSuggestions(text: string, actions: seq<CardAction>) returns (reply: string)
    ensures reply == ReplyText(text, actions)
  {
    reply := text;
    var i := 0;
    while i < |actions|
      invariant 0 <= i <= |actions|
      invariant reply == ReplyText(text, actions[..i])
    {
      assert actions[..i + 1][..i] == actions[..i];
      reply := reply + SuggestionLine(actions[i]);
      i := i + 1;
    }
    assert actions[..i] == actions;
  }

  // ---------------------------------------------------------------- media kinds

  const HeroCardContentType := "application/vnd.microsoft.card.hero"

  /** The media kind an attachment of this content type is forwarded as; None for the rest. */
  function MediaKindOf(contentType: string): Option<GsClient.MediaType>
  {
    if contentType == "image/png" || contentType == "image/jpg" || contentType == "image/jpeg" then Some(GsClient.Image)
    else if contentType == "application/pdf" then Some(GsClient.File)
    else if contentType == "video/mpeg" then Some(GsClient.Video)
    else if contentType == "audio/ogg" || contentType == "audio/mp3" then Some(GsClient.Audio)
    else None
  }

  /**
   * The switch on content types: PNG, JPG and JPEG images go as images,
   * PDF as a file, MPEG as a video, OGG and MP3 as audio, and nothing else
   * is forwarded as media.
   */
  lemma MediaKindOfSpec(contentType: string)
    ensures MediaKindOf(contentType) == Some(GsClient.Image) <==> contentType in {"image/png", "image/jpg", "image/jpeg"}
    ensures MediaKindOf(contentType) == Some(GsClient.File) <==> contentType == "application/pdf"
    ensures MediaKindOf(contentType) == Some(GsClient.Video) <==> contentType == "video/mpeg"
    ensures MediaKindOf(contentType) == Some(GsClient.Audio) <==> contentType in {"audio/ogg", "audio/mp3"}
    ensures MediaKindOf(contentType).None? <==>
      contentType !in {"image/png", "image/jpg", "image/jpeg", "application/pdf", "video/mpeg", "audio/ogg", "audio/mp3"}
  {
  }

  /** Hero cards are rendered as text, never forwarded as media. */
  lemma HeroCardIsNotMedia()
    ensures MediaKindOf(HeroCardContentType).None?
  {
    assert HeroCardContentType[0] == 'a' && HeroCardContentType[1] == 'p' && HeroCardContentType[12] == 'v';
  }

  // ---------------------------------------------------------------- speech output

  const MaxAnsiCode := 255

  /** The text with every character above code 255 dropped, in the order of the loop that builds it. */
  function AnsiOnly(text: string): string
  {
    if text == [] then []
    else AnsiOnly(text[..|text| - 1]) + (if text[|text| - 1] as int <= MaxAnsiCode then [text[|text| - 1]] else [])
  }

  /** Dropping distributes over concatenation. */
  lemma {:induction false} AnsiOnlyAppend(a: string, b: string)
    ensures AnsiOnly(a + b) == AnsiOnly(a) + AnsiOnly(b)
  {
    if b != [] {
      var init := b[..|b| - 1];
      AnsiOnlyAppend(a, init);
      assert (a + b)[..|a + b| - 1] == a + init;
    } else {
      assert a + b == a;
    }
  }

  /** A character is kept exactly when its code is at most 255. */
  lemma AnsiOnlyChar(c: char)
    ensures AnsiOnly([c]) == if c as int <= MaxAnsiCode then [c] else []
  {
    assert [c][..0] == [];
  }

  /** The cleaned text only holds codes up to 255, and text that already does is kept as it is. */
  lemma {:induction false} AnsiOnlyBounds(text: string)
    ensures forall i :: 0 <= i < |AnsiOnly(text)| ==> AnsiOnly(text)[i] as int <= MaxAnsiCode
    ensures (forall i :: 0 <= i < |text| ==> text[i] as int <= MaxAnsiCode) ==> AnsiOnly(text) == text
  {
    AnsiOnlyBelow(text);
    if forall i :: 0 <= i < |text| ==> text[i] as int <= MaxAnsiCode {
      AnsiOnlyKeeps(text);
    }
  }

  lemma {:induction false} AnsiOnlyBelow(text: string)
    ensures forall i :: 0 <= i < |AnsiOnly(text)| ==> AnsiOnly(text)[i] as int <= MaxAnsiCode
  {
    if text != [] {
      var init, c := text[..|text| - 1], text[|text| - 1];
      AnsiOnlyBelow(init);
      var item := if c as int <= MaxAnsiCode then [c] else [];
      var r := AnsiOnly(text);
      assert r == AnsiOnly(init) + item;
      forall i | 0 <= i < |r|
        ensures r[i] as int <= MaxAnsiCode
      {
        if i < |AnsiOnly(init)| {
          assert r[i] == AnsiOnly(init)[i];
        }
      }
    }
  }

  lemma {:induction false} AnsiOnlyKeeps(text: string)
    requires forall i :: 0 <= i < |text| ==> text[i] as int <= MaxAnsiCode
    ensures AnsiOnly(text) == text
  {
    if text != [] {
      var init := text[..|text| - 1];
      assert forall i :: 0 <= i < |init| ==> init[i] == text[i];
      AnsiOnlyKeeps(init);
      assert text == init + [text[|text| - 1]];
    }
  }

  /** SendVoice's clean-up: only when some character is above code 255 is the text rebuilt without them. */
  method CleanText(text: string) returns (r: string)
    ensures r == AnsiOnly(text)
  {
    if exists i :: 0 <= i < |text| && text[i] as int > MaxAnsiCode {
      var cleantext := "";
      var x := 0;
      while x < |text|
        invariant 0 <= x <= |text|
        invariant cleantext == AnsiOnly(text[..x])
      {
        assert text[..x + 1][..x] == text[..x];
        if text[x] as int <= MaxAnsiCode {
          cleantext := cleantext + [text[x]];
        }
        x := x + 1;
      }
      assert text[..x] == text;
      r := cleantext;
    } else {
      AnsiOnlyBounds(text);
      r := text;
    }
  }

  /** The synthesis id: the activity id without its '|' characters. */
  function TextId(activityId: string): (r: string)
    ensures r == Strings.RemoveChar(activityId, '|')
    ensures '|' !in r && |r| <= |activityId|
  {
    Strings.ReplaceCharByEmpty(activityId, '|');
    Strings.Replace(activityId, "|", "")
  }

  /** The file name the synthesised audio is sent under: the wav path with every ".wav" removed. */
  function VoiceFileName(mediaDir: string, textId: string): string
  {
    Strings.Replace(mediaDir + "Audio_" + textId + ".wav", ".wav", "")
  }

  /** Where the gateway fetches the synthesised audio: the media home URL, "media/Audio_", the id, ".mp3". */
  function VoiceMediaUrl(mediaHomeUrl: string, textId: string): string
  {
    mediaHomeUrl + "media/Audio_" + textId + ".mp3"
  }

  /** When ".wav" does not occur in the directory and the id, the file name is the wav path without its extension. */
  lemma VoiceFileNameStem(mediaDir: string, textId: string)
    requires !Strings.Contains(mediaDir + "Audio_" + textId, ".wav")
    ensures VoiceFileName(mediaDir, textId) == mediaDir + "Audio_" + textId
  {
    var stem := mediaDir + "Audio_" + textId;
    assert ".wav"[1..] == "wav";
    Strings.ReplaceBeforeSuffix(stem, ".wav", "");
  }
}
