/**
 * One turn of the relay (WaConnector.cs), as functions: TalkToTheBot's
 * session lookup, activity construction, post, read-and-retry policy and
 * session write, and ProcessPost's dispatch on the inbound message type
 * with its two catch-all replies. Every collaborator result is an input.
 */
module RelayTurn {

  import opened Wrappers
  import opened Schema
  import Strings
  import Base64
  import Speech
  import GsClient
  import RelayCodecs
  import opened RelaySpec

  /** FromSession: the conversation of a sender and the last watermark read in it. */
  datatype FromSession = FromSession(conversationId: string, watermark: string)

  const WaitNotice := "Oi! Por favor, aguarde um instante ... estou inicializando a minha conexão ..."
  const AlmostThere := "Só mais um pouquinho ..."
  const ConnectionFailed := "Desculpe, ocorreu uma falha na minha conexão. Tente novamente mais tarde."
  const Maintenance := "Desculpe, estou em manutenção. Por favor, tente mais tarde."
  const StartFailed := "Ocorreu um ERRO ao estabelecer a conexão com o Bot"
  const TimedOut := "timed out"
  const NoticePauseMs := 5000

  const Unsupported := "Desculpe, por enquanto só consigo lidar com texto, imagem ou voz."
  const MsgObjMissing := "Msg Obj Missing"
  const MustPost := "Callback deve ser chamado via POST"
  const EventReply := "true"
  const HttpFaultReply := "Desculpe, ocorreu uma falha na conexão."
  const SystemFaultReply := "Desculpe, ocorreu uma falha no sistema."

  /**
   * What the collaborators yield: starting a conversation (None for a null
   * conversation), posting, reading (per conversation, watermark and
   * attempt), fetching a voice note or an audio file (None when the fetch
   * fails), recognising a saved note (None when it throws), and synthesis.
   */
  datatype Collaborators = Collaborators(
    start: Outcome<Option<string>>,
    post: (string, Activity) -> Outcome<()>,
    read: (string, Option<string>, nat) -> Outcome<Option<ActivitySet>>,
    voice: (string, string) -> Option<seq<Base64.byte>>,
    audio: Option<string> -> Option<seq<Base64.byte>>,
    recognize: (seq<Base64.byte>, string) -> Option<Speech.Recognition>,
    synthesis: (string, string) -> Speech.Synthesis)

  /** TalkToTheBot's message arguments: type, text, timestamp, URL, voice id and the voice note's stream. */
  datatype Inbound = Inbound(kind: string, text: Option<string>, timestamp: string, url: Option<string>,
                             voiceId: string, stream: RelayCodecs.Stream)

  /** The activity TalkToTheBot posts; an image without a URL throws. */
  function BuildActivity(user: string, m: Inbound): (r: Result<Activity, Fault>)
    ensures r.Failure? <==> m.kind == "image" && m.url.None?
    ensures r.Success? ==> r.value.fromId == user && r.value.channelId == "whatsapp" && r.value.id == m.timestamp
  {
    var base := Activity(Message, m.timestamp, "whatsapp", user, "", "", None, None, []);
    if m.kind == "text" then Success(base.(text := m.text))
    else if m.kind == "image" then
      if m.url.None? then Failure(SystemFault)
      else Success(base.(attachments := Some([RelayCodecs.CreateAttachment(m.url.value, "image/png")])))
    else if m.kind == "voice" then
      Success(base.(attachments := Some([RelayCodecs.CreateInlineAttachment(m.voiceId, RelayCodecs.VoiceContentType, RelayCodecs.CopyTo(m.stream).0)])))
    else if m.kind == "event" then Success(base.(kind := Event))
    else Success(base)
  }

  /**
   * "text" carries the text; "image" exactly one image/png attachment named
   * after the URL's last segment; "voice" exactly one inline audio/ogg
   * attachment carrying what is left to read of the note's stream; "event" is an Event; any other
   * type, "audio" included, is a bare Message.
   */
  lemma BuildActivitySpec(user: string, m: Inbound)
    ensures var r := BuildActivity(user, m);
      && (m.kind == "text" ==> r.Success? && r.value.text == m.text && r.value.attachments.None? && r.value.kind == Message)
      && (m.kind == "image" && m.url.Some? ==>
            r.Success? && r.value.text.None? && r.value.attachments.Some? && |r.value.attachments.value| == 1
            && r.value.attachments.value[0].contentType == "image/png"
            && r.value.attachments.value[0].contentUrl == m.url
            && Strings.EndsWith(m.url.value, r.value.attachments.value[0].name) && '/' !in r.value.attachments.value[0].name)
      && (m.kind == "voice" ==>
            r.Success? && r.value.attachments.Some? && |r.value.attachments.value| == 1
            && r.value.attachments.value[0].name == m.voiceId + ".ogg"
            && r.value.attachments.value[0].contentUrl == Some("data:audio/ogg;base64," + Base64.Encode(RelayCodecs.Remaining(m.stream))))
      && (m.kind == "event" ==> r.Success? && r.value.kind == Event && r.value.text.None? && r.value.attachments.None?)
      && (m.kind !in {"text", "image", "voice", "event"} ==>
            r.Success? && r.value.kind == Message && r.value.text.None? && r.value.attachments.None?)
  {
    RelayCodecs.InlineVoiceNote(m.voiceId, RelayCodecs.Remaining(m.stream));
  }

  /** What TalkToTheBot did: its effects, the session table after it, and its Chat or exception. */
  datatype TalkRun = TalkRun(effects: seq<Effect>, sessions: map<string, FromSession>, result: Result<Chat, Fault>)

  /** The session write: the sender's entry is set when the read's watermark is not empty; otherwise the reply becomes msgerro. */
  function Finish(effects: seq<Effect>, sessions: map<string, FromSession>, user: string, conversationId: string,
                  chat: Chat, msgerro: string): TalkRun
  {
    if chat.watermark.Some? && chat.watermark.value != "" then
      TalkRun(effects, sessions[user := FromSession(conversationId, chat.watermark.value)], Success(chat))
    else TalkRun(effects, sessions, Success(chat.(response := msgerro)))
  }

  /** Whether a post failure was a timeout: an HttpException whose message contains "timed out". */
  predicate IsTimeout(post: Outcome<()>)
  {
    post.ThrewHttp? && Strings.Contains(post.message, TimedOut)
  }

  /**
   * Posting the activity to a known conversation and reading the reply:
   * a timed-out post is announced and waited on, and an empty reply after
   * it is announced, waited on and read once more from the same
   * watermark; any other HttpException from the post means maintenance.
   */
  function Exchange(cfg: Config, c: Collaborators, speechTurn: bool, testing: bool, sessions: map<string, FromSession>,
                    user: string, conversationId: string, watermark: Option<string>, m: Inbound): TalkRun
  {
    match BuildActivity(user, m)
    case Failure(f) => TalkRun([], sessions, Failure(f))
    case Success(activity) => PostAndRead(cfg, c, speechTurn, testing, sessions, user, conversationId, watermark, activity)
  }

  /** The post of a built activity and the read or reads that follow it, attempt 0 first and attempt 1 on retry. */
  function PostAndRead(cfg: Config, c: Collaborators, speechTurn: bool, testing: bool, sessions: map<string, FromSession>,
                       user: string, conversationId: string, watermark: Option<string>, activity: Activity): TalkRun
  {
    var t := Turn(cfg, speechTurn, testing, user, c.synthesis);
    Settle(sessions, user, conversationId, activity, c.post(conversationId, activity),
           ReadSpec(t, conversationId, watermark, c.read(conversationId, watermark, 0)),
           ReadSpec(t, conversationId, watermark, c.read(conversationId, watermark, 1)))
  }

  /** PostAndRead when the post throws anything but an HTTP exception: the post alone, and a system fault. */
  lemma PostAndReadThrew(cfg: Config, c: Collaborators, speechTurn: bool, testing: bool,
                         sessions: map<string, FromSession>, user: string, conversationId: string,
                         watermark: Option<string>, activity: Activity)
    requires c.post(conversationId, activity).ThrewOther?
    ensures PostAndRead(cfg, c, speechTurn, testing, sessions, user, conversationId, watermark, activity)
      == TalkRun([PostActivity(conversationId, activity)], sessions, Failure(SystemFault))
  {
  }

  /** PostAndRead once the post did not throw a non-HTTP exception: the post and any timeout notice, then Replies. */
  lemma PostAndReadAfterPost(cfg: Config, c: Collaborators, speechTurn: bool, testing: bool,
                             sessions: map<string, FromSession>, user: string, conversationId: string,
                             watermark: Option<string>, activity: Activity, timeout: bool, otherError: bool)
    requires !c.post(conversationId, activity).ThrewOther?
    requires timeout == IsTimeout(c.post(conversationId, activity))
    requires otherError == (c.post(conversationId, activity).ThrewHttp? && !timeout)
    ensures var t := Turn(cfg, speechTurn, testing, user, c.synthesis);
      var run := Replies(sessions, user, conversationId, timeout, otherError,
                         ReadSpec(t, conversationId, watermark, c.read(conversationId, watermark, 0)),
                         ReadSpec(t, conversationId, watermark, c.read(conversationId, watermark, 1)));
      var before := [PostActivity(conversationId, activity)]
        + (if timeout then [SendText(user, WaitNotice), Sleep(NoticePauseMs)] else []);
      PostAndRead(cfg, c, speechTurn, testing, sessions, user, conversationId, watermark, activity)
        == TalkRun(before + run.effects, run.sessions, run.result)
  {
  }

  /** The post's outcome: a non-HTTP exception ends the turn; a timeout is announced and waited on. */
  function Settle(sessions: map<string, FromSession>, user: string, conversationId: string, activity: Activity,
                  post: Outcome<()>, first: Run<Chat>, second: Run<Chat>): TalkRun
  {
    if post.ThrewOther? then TalkRun([PostActivity(conversationId, activity)], sessions, Failure(SystemFault))
    else
      var timeout := IsTimeout(post);
      var before := [PostActivity(conversationId, activity)]
        + (if timeout then [SendText(user, WaitNotice), Sleep(NoticePauseMs)] else []);
      var r := Replies(sessions, user, conversationId, timeout, post.ThrewHttp? && !timeout, first, second);
      r.(effects := before + r.effects)
  }

  /**
   * The reads after the post, given what the first and the second read
   * would do: an empty reply after a timeout is announced, waited on and
   * read again (the second read's effects appear only then); the reply
   * that leaves no watermark is replaced by the failure message.
   */
  function Replies(sessions: map<string, FromSession>, user: string, conversationId: string,
                   timeout: bool, otherError: bool, first: Run<Chat>, second: Run<Chat>): TalkRun
  {
    if first.result.Failure? then TalkRun(first.effects, sessions, first.result)
    else if timeout && first.result.value.response == "" then
      var effects := (first.effects + [SendText(user, AlmostThere), Sleep(NoticePauseMs)]) + second.effects;
      if second.result.Failure? then TalkRun(effects, sessions, second.result)
      else Finish(effects, sessions, user, conversationId, second.result.value,
                  if second.result.value.response == "" then ConnectionFailed else "")
    else Finish(first.effects, sessions, user, conversationId, first.result.value, if otherError then Maintenance else "")
  }

  /** TalkToTheBot: a known sender's session is reused; otherwise a conversation is started first. */
  function TalkSpec(cfg: Config, c: Collaborators, speechTurn: bool, testing: bool, sessions: map<string, FromSession>,
                    from: Option<string>, m: Inbound): TalkRun
  {
    if from.None? then TalkRun([], sessions, Failure(SystemFault))
    else if from.value in sessions then
      var session := sessions[from.value];
      Exchange(cfg, c, speechTurn, testing, sessions, from.value, session.conversationId, Some(session.watermark), m)
    else
      match c.start
      case ThrewHttp(_) => TalkRun([StartConversation], sessions, Failure(HttpFault))
      case ThrewOther => TalkRun([StartConversation], sessions, Failure(SystemFault))
      case Returned(None) => TalkRun([StartConversation], sessions, Success(Chat(StartFailed, Some(""))))
      case Returned(Some(conversationId)) =>
        var r := Exchange(cfg, c, speechTurn, testing, sessions, from.value, conversationId, None, m);
        r.(effects := [StartConversation] + r.effects)
  }

  /**
   * The activity a turn posts is the one built from its message: a known
   * sender's turn begins with that post to the stored conversation, and a
   * new sender's turn posts it right after starting the conversation.
   */
  lemma TalkPostsBuilt(cfg: Config, c: Collaborators, speechTurn: bool, testing: bool,
                       sessions: map<string, FromSession>, user: string, m: Inbound)
    requires BuildActivity(user, m).Success?
    ensures var r := TalkSpec(cfg, c, speechTurn, testing, sessions, Some(user), m);
      var activity := BuildActivity(user, m).value;
      && (user in sessions ==>
            |r.effects| >= 1 && r.effects[0] == PostActivity(sessions[user].conversationId, activity))
      && (user !in sessions && c.start.Returned? && c.start.value.Some? ==>
            |r.effects| >= 2 && r.effects[1] == PostActivity(c.start.value.value, activity))
  {
  }

  // ---------------------------------------------------------------- counting

  function CountReads(es: seq<Effect>): nat
  {
    if es == [] then 0 else CountReads(es[..|es| - 1]) + (if es[|es| - 1].GetActivities? then 1 else 0)
  }

  function CountStarts(es: seq<Effect>): nat
  {
    if es == [] then 0 else CountStarts(es[..|es| - 1]) + (if es[|es| - 1].StartConversation? then 1 else 0)
  }

  lemma {:induction false} TurnCountsAppend(a: seq<Effect>, b: seq<Effect>)
    ensures CountReads(a + b) == CountReads(a) + CountReads(b)
    ensures CountStarts(a + b) == CountStarts(a) + CountStarts(b)
  {
    if b == [] {
      assert a + b == a;
    } else {
      TurnCountsAppend(a, b[..|b| - 1]);
      assert (a + b)[..|a + b| - 1] == a + b[..|b| - 1];
    }
  }

  lemma {:induction false} OutboundCounts(es: seq<Effect>)
    requires AllOutbound(es)
    ensures CountReads(es) == 0 && CountStarts(es) == 0
  {
    if es != [] {
      OutboundCounts(es[..|es| - 1]);
    }
  }

  /** Every read in es is from this conversation and watermark. */
  predicate ReadsFrom(es: seq<Effect>, conversationId: string, watermark: Option<string>)
  {
    forall i :: 0 <= i < |es| && es[i].GetActivities? ==> es[i] == GetActivities(conversationId, watermark)
  }

  lemma ReadsFromAppend(a: seq<Effect>, b: seq<Effect>, conversationId: string, watermark: Option<string>)
    requires ReadsFrom(a, conversationId, watermark) && ReadsFrom(b, conversationId, watermark)
    ensures ReadsFrom(a + b, conversationId, watermark)
  {
    assert forall i :: 0 <= i < |a + b| ==> (a + b)[i] == if i < |a| then a[i] else b[i - |a|];
  }

  /** A read is one GetActivities from its watermark and nothing that starts, posts or reads. */
  lemma ReadCounts(t: Turn, conversationId: string, watermark: Option<string>, outcome: Outcome<Option<ActivitySet>>)
    ensures var r := ReadSpec(t, conversationId, watermark, outcome);
      CountReads(r.effects) == 1 && CountStarts(r.effects) == 0 && ReadsFrom(r.effects, conversationId, watermark)
  {
    var r := ReadSpec(t, conversationId, watermark, outcome);
    ReadSpecShape(t, conversationId, watermark, outcome);
    var rest := r.effects[1..];
    OutboundCounts(rest);
    assert r.effects == [r.effects[0]] + rest;
    TurnCountsAppend([r.effects[0]], rest);
    assert CountReads([r.effects[0]]) == 1 && CountStarts([r.effects[0]]) == 0 by {
      assert [r.effects[0]][..0] == [];
    }
  }

  // ---------------------------------------------------------------- properties of a turn

  /** The counting facts of Settle, for reads that each make one GetActivities from one place. */
  lemma SettleReads(sessions: map<string, FromSession>, user: string, conversationId: string, watermark: Option<string>,
                    activity: Activity, post: Outcome<()>, first: Run<Chat>, second: Run<Chat>)
    requires CountReads(first.effects) == 1 && CountStarts(first.effects) == 0 && ReadsFrom(first.effects, conversationId, watermark)
    requires CountReads(second.effects) == 1 && CountStarts(second.effects) == 0 && ReadsFrom(second.effects, conversationId, watermark)
    ensures var r := Settle(sessions, user, conversationId, activity, post, first, second);
      && CountReads(r.effects) <= 2 && CountStarts(r.effects) == 0
      && ReadsFrom(r.effects, conversationId, watermark)
      && (CountReads(r.effects) == 2 <==> IsTimeout(post) && first.result.Success? && first.result.value.response == "")
  {
    var r := Settle(sessions, user, conversationId, activity, post, first, second);
    if !post.ThrewOther? {
      var timeout := IsTimeout(post);
      var notice := if timeout then [SendText(user, WaitNotice), Sleep(NoticePauseMs)] else [];
      var before := [PostActivity(conversationId, activity)] + notice;
      ExchangeBefore(conversationId, activity, notice);
      if first.result.Success? && timeout && first.result.value.response == "" {
        var again := [SendText(user, AlmostThere), Sleep(NoticePauseMs)];
        ExchangeAgain(user, conversationId, watermark);
        assert r.effects == before + ((first.effects + again) + second.effects);
        ChainTwice(before, first.effects, again, second.effects, conversationId, watermark);
      } else {
        assert r.effects == before + first.effects;
        ChainOnce(before, first.effects, conversationId, watermark);
      }
    } else {
      ExchangeBefore(conversationId, activity, []);
      assert r.effects == [PostActivity(conversationId, activity)] + [];
    }
  }

  lemma ChainOnce(before: seq<Effect>, first: seq<Effect>, conversationId: string, watermark: Option<string>)
    requires CountReads(before) == 0 && CountStarts(before) == 0 && ReadsFrom(before, conversationId, watermark)
    requires CountReads(first) == 1 && CountStarts(first) == 0 && ReadsFrom(first, conversationId, watermark)
    ensures CountReads(before + first) == 1 && CountStarts(before + first) == 0
    ensures ReadsFrom(before + first, conversationId, watermark)
  {
    TurnCountsAppend(before, first);
    ReadsFromAppend(before, first, conversationId, watermark);
  }

  lemma ChainTwice(before: seq<Effect>, first: seq<Effect>, again: seq<Effect>, second: seq<Effect>,
                   conversationId: string, watermark: Option<string>)
    requires CountReads(before) == 0 && CountStarts(before) == 0 && ReadsFrom(before, conversationId, watermark)
    requires CountReads(first) == 1 && CountStarts(first) == 0 && ReadsFrom(first, conversationId, watermark)
    requires CountReads(again) == 0 && CountStarts(again) == 0 && ReadsFrom(again, conversationId, watermark)
    requires CountReads(second) == 1 && CountStarts(second) == 0 && ReadsFrom(second, conversationId, watermark)
    ensures CountReads(before + ((first + again) + second)) == 2 && CountStarts(before + ((first + again) + second)) == 0
    ensures ReadsFrom(before + ((first + again) + second), conversationId, watermark)
  {
    TurnCountsAppend(first, again);
    ReadsFromAppend(first, again, conversationId, watermark);
    TurnCountsAppend(first + again, second);
    ReadsFromAppend(first + again, second, conversationId, watermark);
    TurnCountsAppend(before, (first + again) + second);
    ReadsFromAppend(before, (first + again) + second, conversationId, watermark);
  }

  lemma PostAndReadReads(cfg: Config, c: Collaborators, speechTurn: bool, testing: bool, sessions: map<string, FromSession>,
                         user: string, conversationId: string, watermark: Option<string>, activity: Activity)
    ensures var r := PostAndRead(cfg, c, speechTurn, testing, sessions, user, conversationId, watermark, activity);
      var first := ReadSpec(Turn(cfg, speechTurn, testing, user, c.synthesis), conversationId, watermark,
                            c.read(conversationId, watermark, 0));
      && CountReads(r.effects) <= 2 && CountStarts(r.effects) == 0
      && ReadsFrom(r.effects, conversationId, watermark)
      && (CountReads(r.effects) == 2 <==>
            IsTimeout(c.post(conversationId, activity)) && first.result.Success? && first.result.value.response == "")
      && (!testing && first.result.Success? ==> first.result.value.response == "")
  {
    var t := Turn(cfg, speechTurn, testing, user, c.synthesis);
    ReadCounts(t, conversationId, watermark, c.read(conversationId, watermark, 0));
    ReadCounts(t, conversationId, watermark, c.read(conversationId, watermark, 1));
    ReadSpecShape(t, conversationId, watermark, c.read(conversationId, watermark, 0));
    SettleReads(sessions, user, conversationId, watermark, activity, c.post(conversationId, activity),
                ReadSpec(t, conversationId, watermark, c.read(conversationId, watermark, 0)),
                ReadSpec(t, conversationId, watermark, c.read(conversationId, watermark, 1)));
  }

  /**
   * The read policy: one or two reads, all from the conversation and
   * watermark the turn started with; a second read only after a timed-out
   * post, and outside test mode (where the reply is always empty) a
   * timed-out post whose first read succeeds is always read twice. Nothing
   * starts a conversation after the post.
   */
  lemma ExchangeReads(cfg: Config, c: Collaborators, speechTurn: bool, testing: bool, sessions: map<string, FromSession>,
                      user: string, conversationId: string, watermark: Option<string>, m: Inbound)
    ensures var r := Exchange(cfg, c, speechTurn, testing, sessions, user, conversationId, watermark, m);
      var first := ReadSpec(Turn(cfg, speechTurn, testing, user, c.synthesis), conversationId, watermark,
                            c.read(conversationId, watermark, 0));
      && CountReads(r.effects) <= 2 && CountStarts(r.effects) == 0
      && ReadsFrom(r.effects, conversationId, watermark)
      && (CountReads(r.effects) == 2 <==>
            BuildActivity(user, m).Success? && IsTimeout(c.post(conversationId, BuildActivity(user, m).value))
            && first.result.Success? && first.result.value.response == "")
      && (BuildActivity(user, m).Success? && IsTimeout(c.post(conversationId, BuildActivity(user, m).value))
          && !testing && first.result.Success?
          ==> CountReads(r.effects) == 2)
  {
    var built := BuildActivity(user, m);
    if built.Success? {
      PostAndReadReads(cfg, c, speechTurn, testing, sessions, user, conversationId, watermark, built.value);
    } else {
      assert CountReads([]) == 0;
    }
  }

  lemma ExchangeBefore(conversationId: string, activity: Activity, notice: seq<Effect>)
    requires forall i :: 0 <= i < |notice| ==> notice[i].SendText? || notice[i].Sleep?
    ensures var before := [PostActivity(conversationId, activity)] + notice;
      CountReads(before) == 0 && CountStarts(before) == 0
      && forall w :: ReadsFrom(before, conversationId, w)
  {
    var before := [PostActivity(conversationId, activity)] + notice;
    assert AllOutbound(notice);
    OutboundCounts(notice);
    TurnCountsAppend([PostActivity(conversationId, activity)], notice);
    assert [PostActivity(conversationId, activity)][..0] == [];
  }

  lemma ExchangeAgain(user: string, conversationId: string, watermark: Option<string>)
    ensures var again := [SendText(user, AlmostThere), Sleep(NoticePauseMs)];
      CountReads(again) == 0 && CountStarts(again) == 0 && ReadsFrom(again, conversationId, watermark)
  {
    OutboundCounts([SendText(user, AlmostThere), Sleep(NoticePauseMs)]);
  }

  /**
   * Session resolution: a known sender reuses the stored conversation and
   * watermark and starts nothing; an unknown one starts exactly one
   * conversation, first, and a null conversation ends the turn with the
   * start-failure reply, an empty watermark and nothing posted.
   */
  lemma TalkSessionResolution(cfg: Config, c: Collaborators, speechTurn: bool, testing: bool,
                              sessions: map<string, FromSession>, user: string, m: Inbound)
    ensures var r := TalkSpec(cfg, c, speechTurn, testing, sessions, Some(user), m);
      && (user in sessions ==>
            CountStarts(r.effects) == 0
            && ReadsFrom(r.effects, sessions[user].conversationId, Some(sessions[user].watermark)))
      && (user !in sessions ==> |r.effects| >= 1 && r.effects[0] == StartConversation && CountStarts(r.effects) == 1)
      && (user !in sessions && c.start == Returned(None) ==>
            r == TalkRun([StartConversation], sessions, Success(Chat(StartFailed, Some("")))))
  {
    if user in sessions {
      var s := sessions[user];
      ExchangeReads(cfg, c, speechTurn, testing, sessions, user, s.conversationId, Some(s.watermark), m);
    } else if c.start.Returned? && c.start.value.Some? {
      var e := Exchange(cfg, c, speechTurn, testing, sessions, user, c.start.value.value, None, m);
      ExchangeReads(cfg, c, speechTurn, testing, sessions, user, c.start.value.value, None, m);
      TurnCountsAppend([StartConversation], e.effects);
      assert [StartConversation][..0] == [];
    } else {
      assert [StartConversation][..0] == [];
    }
  }

  /** Settle writes at most the sender's entry, with the conversation it used, and only for a Chat with a watermark. */
  lemma SettleWrite(sessions: map<string, FromSession>, user: string, conversationId: string, activity: Activity,
                    post: Outcome<()>, first: Run<Chat>, second: Run<Chat>)
    ensures var r := Settle(sessions, user, conversationId, activity, post, first, second);
      && (r.result.Failure? ==> r.sessions == sessions)
      && (r.result.Success? && r.result.value.watermark.Some? && r.result.value.watermark.value != "" ==>
            r.sessions == sessions[user := FromSession(conversationId, r.result.value.watermark.value)])
      && (r.result.Success? && !(r.result.value.watermark.Some? && r.result.value.watermark.value != "") ==>
            r.sessions == sessions)
  {
  }

  lemma ExchangeWrite(cfg: Config, c: Collaborators, speechTurn: bool, testing: bool, sessions: map<string, FromSession>,
                      user: string, conversationId: string, watermark: Option<string>, m: Inbound)
    ensures var r := Exchange(cfg, c, speechTurn, testing, sessions, user, conversationId, watermark, m);
      && (r.result.Failure? ==> r.sessions == sessions)
      && (r.result.Success? && r.result.value.watermark.Some? && r.result.value.watermark.value != "" ==>
            r.sessions == sessions[user := FromSession(conversationId, r.result.value.watermark.value)])
      && (r.result.Success? && !(r.result.value.watermark.Some? && r.result.value.watermark.value != "") ==>
            r.sessions == sessions)
  {
    var built := BuildActivity(user, m);
    if built.Success? {
      var t := Turn(cfg, speechTurn, testing, user, c.synthesis);
      SettleWrite(sessions, user, conversationId, built.value, c.post(conversationId, built.value),
                  ReadSpec(t, conversationId, watermark, c.read(conversationId, watermark, 0)),
                  ReadSpec(t, conversationId, watermark, c.read(conversationId, watermark, 1)));
    }
  }

  /**
   * The session write: the table changes only on a turn that returns a
   * Chat whose watermark is not empty, and then only at the sender, who
   * gets that watermark with the conversation the turn used (a known
   * sender keeps the stored one); a turn that throws, or returns no
   * watermark, leaves the table alone.
   */
  lemma TalkSessionWrite(cfg: Config, c: Collaborators, speechTurn: bool, testing: bool,
                         sessions: map<string, FromSession>, user: string, m: Inbound)
    ensures var r := TalkSpec(cfg, c, speechTurn, testing, sessions, Some(user), m);
      && (r.result.Failure? ==> r.sessions == sessions)
      && (r.result.Success? && !(r.result.value.watermark.Some? && r.result.value.watermark.value != "") ==>
            r.sessions == sessions)
      && (r.result.Success? && r.result.value.watermark.Some? && r.result.value.watermark.value != "" ==>
            user in r.sessions && r.sessions == sessions[user := r.sessions[user]]
            && r.sessions[user].watermark == r.result.value.watermark.value
            && (user in sessions ==> r.sessions[user].conversationId == sessions[user].conversationId))
  {
    if user in sessions {
      var s := sessions[user];
      ExchangeWrite(cfg, c, speechTurn, testing, sessions, user, s.conversationId, Some(s.watermark), m);
    } else if c.start.Returned? && c.start.value.Some? {
      ExchangeWrite(cfg, c, speechTurn, testing, sessions, user, c.start.value.value, None, m);
    }
  }

  /**
   * The replies of a turn that read but left no watermark: the maintenance
   * message after an HttpException from the post other than a timeout, the
   * connection-failure message after a timeout followed by two empty
   * reads, and otherwise "" (msgerro replaces the reply).
   */
  lemma SettleReplies(sessions: map<string, FromSession>, user: string, conversationId: string, activity: Activity,
                      post: Outcome<()>, first: Run<Chat>, second: Run<Chat>)
    ensures var r := Settle(sessions, user, conversationId, activity, post, first, second);
      r.result.Success? && !(r.result.value.watermark.Some? && r.result.value.watermark.value != "") ==>
        && (post.ThrewHttp? && !IsTimeout(post) ==> r.result.value.response == Maintenance)
        && (post.Returned? ==> r.result.value.response == "")
        && (IsTimeout(post) && first.result.value.response == "" ==>
              r.result.value.response == if second.result.value.response == "" then ConnectionFailed else "")
        && (IsTimeout(post) && first.result.value.response != "" ==> r.result.value.response == "")
  {
  }

  // ---------------------------------------------------------------- ProcessPost

  /** The decoded messageobj; a null Voice is None. */
  datatype GsMessage = GsMessage(from: Option<string>, id: string, text: Option<string>, timestamp: string,
                                 kind: string, url: Option<string>, voiceId: Option<string>)

  /** The messageobj form field: absent, decoded to null (or not decodable), or decoded. */
  datatype MessageObj = Missing | Undecodable | Decoded(message: GsMessage)

  /** A callback: a form post, or a query-string request (test mode) with the clock's reading. */
  datatype Request =
    | FormPost(botName: string, messageObj: MessageObj)
    | QueryGet(text: Option<string>, from: Option<string>, now: string)

  /** The connector's fields: the sender sessions, the speech-turn and test flags, and what it has done so far. */
  datatype State = State(sessions: map<string, FromSession>, speechTurn: bool, testing: bool, trace: seq<Effect>)

  /** ProcessPost's two catch blocks. */
  function FaultReply(f: Fault): (r: string)
    ensures r == HttpFaultReply <==> f.HttpFault?
  {
    match f
    case HttpFault => HttpFaultReply
    case SystemFault => SystemFaultReply
  }

  /** A turn's effects and sessions folded into the state; the reply is the Chat's response when answered, else null. */
  function Conclude(st: State, run: TalkRun, answer: bool): (State, Option<string>)
  {
    (st.(sessions := run.sessions, trace := st.trace + run.effects), ReplyOf(run.result, answer))
  }

  /** ProcessPost's reply after a turn: the catch block's reply for an exception, else the Chat's response or null. */
  function ReplyOf(result: Result<Chat, Fault>, answer: bool): Option<string>
  {
    if result.Failure? then Some(FaultReply(result.error))
    else if answer then Some(result.value.response) else None
  }

  /** Whether recognition yields a transcript the relay accepts; a recogniser that throws yields none. */
  predicate Heard(recognition: Option<Speech.Recognition>)
  {
    recognition.Some? && Speech.IsAccepted(Speech.TranscriptOf(recognition.value))
  }

  /**
   * After a voice note or audio file was fetched and recognised: an
   * accepted transcript is sent as text in a speech turn; otherwise the
   * note's stream, as recognition left it, is sent, which needs its Voice
   * object.
   */
  function Listen(cfg: Config, c: Collaborators, st: State, m: GsMessage, stream: RelayCodecs.Stream,
                  recognition: Option<Speech.Recognition>): (State, Option<string>)
  {
    if recognition.None? then (st, Some(SystemFaultReply))
    else if Heard(recognition) then
      var heard := st.(speechTurn := true);
      var transcript := Speech.TranscriptOf(recognition.value);
      Conclude(heard, TalkSpec(cfg, c, true, heard.testing, heard.sessions, m.from,
                               Inbound("text", Some(transcript), m.timestamp, None, "", RelayCodecs.NoStream)), false)
    else if m.voiceId.None? then (st, Some(SystemFaultReply))
    else Conclude(st, TalkSpec(cfg, c, st.speechTurn, st.testing, st.sessions, m.from,
                               Inbound(m.kind, m.text, m.timestamp, None, m.voiceId.value, stream)), false)
  }

  /** The dispatch on the decoded message's type. */
  function Dispatch(cfg: Config, c: Collaborators, st: State, botName: string, m: GsMessage): (State, Option<string>)
  {
    if m.kind == "text" || m.kind == "image" then
      Conclude(st, TalkSpec(cfg, c, st.speechTurn, st.testing, st.sessions, m.from,
                            Inbound(m.kind, m.text, m.timestamp, m.url, "", RelayCodecs.NoStream)), true)
    else if m.kind == "voice" then
      if m.voiceId.None? then (st, Some(SystemFaultReply))
      else
        var id := m.voiceId.value;
        var data := GsClient.Fetched(c.voice(botName, id));
        Listen(cfg, c, st.(trace := st.trace + [FetchVoice(botName, id), Recognize(id)]), m,
               RelayCodecs.SaveNote(data).1, c.recognize(data, id))
    else if m.kind == "audio" then
      var data := GsClient.Fetched(c.audio(m.url));
      Listen(cfg, c, st.(trace := st.trace + [FetchAudio(m.url), Recognize(m.id)]), m,
             RelayCodecs.SaveNote(data).1, c.recognize(data, m.id))
    else if m.kind == "event" then (st, Some(EventReply))
    else (st, Some(Unsupported))
  }

  /** ProcessPost: the new state and the reply (None for a null reply). */
  function ProcessSpec(cfg: Config, c: Collaborators, st: State, req: Request): (State, Option<string>)
  {
    var st0 := st.(speechTurn := false);
    match req
    case QueryGet(text, from, now) =>
      if text.Some? && text.value != "" && from.Some? && from.value != "" then
        var st1 := st0.(testing := true);
        Conclude(st1, TalkSpec(cfg, c, false, true, st1.sessions, from, Inbound("text", text, now, Some(""), "", RelayCodecs.NoStream)), true)
      else (st0, Some(MustPost))
    case FormPost(botName, obj) =>
      match obj
      case Missing => (st0, Some(MsgObjMissing))
      case Undecodable => (st0, Some(SystemFaultReply))
      case Decoded(m) => Dispatch(cfg, c, st0, botName, m)
  }

  /** Whether the request is a query-string test message. */
  predicate IsTestRequest(req: Request)
  {
    req.QueryGet? && req.text.Some? && req.text.value != "" && req.from.Some? && req.from.value != ""
  }

  /** The sender a request talks for, if it talks to the bot at all. */
  function Sender(req: Request): Option<string>
  {
    match req
    case QueryGet(_, from, _) => from
    case FormPost(_, obj) => if obj.Decoded? then obj.message.from else None
  }

  /** Whether a decoded voice note or audio file is recognised with a transcript the relay accepts. */
  predicate HeardRequest(c: Collaborators, req: Request)
  {
    && req.FormPost? && req.messageObj.Decoded?
    && var m := req.messageObj.message;
       || (m.kind == "voice" && m.voiceId.Some?
           && Heard(c.recognize(GsClient.Fetched(c.voice(req.botName, m.voiceId.value)), m.voiceId.value)))
       || (m.kind == "audio" && Heard(c.recognize(GsClient.Fetched(c.audio(m.url)), m.id)))
  }

  /**
   * Requests that never reach the bot: a missing or null messageobj, an
   * event, an unsupported type, and a query without both text and sender
   * change nothing but the speech-turn flag, and get their fixed replies.
   */
  lemma ProcessWithoutBot(cfg: Config, c: Collaborators, st: State, req: Request)
    ensures var (st', reply) := ProcessSpec(cfg, c, st, req);
      && (req.QueryGet? && !IsTestRequest(req) ==> st' == st.(speechTurn := false) && reply == Some(MustPost))
      && (req.FormPost? && req.messageObj.Missing? ==> st' == st.(speechTurn := false) && reply == Some(MsgObjMissing))
      && (req.FormPost? && req.messageObj.Undecodable? ==> st' == st.(speechTurn := false) && reply == Some(SystemFaultReply))
      && (req.FormPost? && req.messageObj.Decoded? && req.messageObj.message.kind == "event" ==>
            st' == st.(speechTurn := false) && reply == Some(EventReply))
      && (req.FormPost? && req.messageObj.Decoded? && req.messageObj.message.kind !in {"text", "image", "voice", "audio", "event"} ==>
            st' == st.(speechTurn := false) && reply == Some(Unsupported))
  {
  }

  lemma ListenSpeechTurn(cfg: Config, c: Collaborators, st: State, m: GsMessage, stream: RelayCodecs.Stream,
                         recognition: Option<Speech.Recognition>)
    ensures Listen(cfg, c, st, m, stream, recognition).0.speechTurn <==> st.speechTurn || Heard(recognition)
  {
  }

  lemma DispatchSpeechTurn(cfg: Config, c: Collaborators, st: State, botName: string, m: GsMessage)
    requires !st.speechTurn
    ensures Dispatch(cfg, c, st, botName, m).0.speechTurn <==> HeardRequest(c, FormPost(botName, Decoded(m)))
  {
    if m.kind == "voice" && m.voiceId.Some? {
      var id := m.voiceId.value;
      var data := GsClient.Fetched(c.voice(botName, id));
      ListenSpeechTurn(cfg, c, st.(trace := st.trace + [FetchVoice(botName, id), Recognize(id)]), m,
                       RelayCodecs.SaveNote(data).1, c.recognize(data, id));
    } else if m.kind == "audio" {
      var data := GsClient.Fetched(c.audio(m.url));
      ListenSpeechTurn(cfg, c, st.(trace := st.trace + [FetchAudio(m.url), Recognize(m.id)]), m,
                       RelayCodecs.SaveNote(data).1, c.recognize(data, m.id));
    }
  }

  /** The speech-turn flag is set exactly for a voice note or audio file recognised with an accepted transcript. */
  lemma ProcessSpeechTurn(cfg: Config, c: Collaborators, st: State, req: Request)
    ensures ProcessSpec(cfg, c, st, req).0.speechTurn <==> HeardRequest(c, req)
  {
    if req.FormPost? && req.messageObj.Decoded? {
      DispatchSpeechTurn(cfg, c, st.(speechTurn := false), req.botName, req.messageObj.message);
    }
  }

  /**
   * As written, a voice note whose transcript is not accepted reaches the
   * bot with no octets: after the fetch and the recognition, the turn posts
   * InlineVoiceAsWritten, whose content URL is "data:audio/ogg;base64,"
   * whatever was fetched.
   */
  lemma ProcessVoiceFallbackAsWritten(cfg: Config, c: Collaborators, st: State, botName: string, m: GsMessage)
    requires m.kind == "voice" && m.voiceId.Some? && m.from.Some?
    requires var rec := c.recognize(GsClient.Fetched(c.voice(botName, m.voiceId.value)), m.voiceId.value);
      rec.Some? && !Heard(rec)
    ensures var data := GsClient.Fetched(c.voice(botName, m.voiceId.value));
      var trace := ProcessSpec(cfg, c, st, FormPost(botName, Decoded(m))).0.trace;
      var at := |st.trace| + 2 + (if m.from.value in st.sessions then 0 else 1);
      (m.from.value in st.sessions || (c.start.Returned? && c.start.value.Some?)) ==>
        && |trace| > at && trace[at].PostActivity?
        && trace[at].activity.attachments == Some([RelayCodecs.InlineVoiceAsWritten(m.voiceId.value, data)])
        && trace[at].activity.attachments.value[0].contentUrl == Some("data:audio/ogg;base64,")
  {
    var id := m.voiceId.value;
    var data := GsClient.Fetched(c.voice(botName, id));
    var st1 := st.(speechTurn := false, trace := st.trace + [FetchVoice(botName, id), Recognize(id)]);
    assert ProcessSpec(cfg, c, st, FormPost(botName, Decoded(m))).0
        == Listen(cfg, c, st1, m, RelayCodecs.SaveNote(data).1, c.recognize(data, id)).0 by {
      ProcessVoice(cfg, c, st, botName, m);
    }
    assert st1.sessions == st.sessions && |st1.trace| == |st.trace| + 2;
    ListenFallbackPosts(cfg, c, st1, m, data, c.recognize(data, id));
  }

  lemma ProcessVoice(cfg: Config, c: Collaborators, st: State, botName: string, m: GsMessage)
    requires m.kind == "voice" && m.voiceId.Some?
    ensures var id := m.voiceId.value;
      var data := GsClient.Fetched(c.voice(botName, id));
      ProcessSpec(cfg, c, st, FormPost(botName, Decoded(m)))
        == Listen(cfg, c, st.(speechTurn := false, trace := st.trace + [FetchVoice(botName, id), Recognize(id)]), m,
                  RelayCodecs.SaveNote(data).1, c.recognize(data, id))
  {
    var st0 := st.(speechTurn := false);
    assert ProcessSpec(cfg, c, st, FormPost(botName, Decoded(m))) == Dispatch(cfg, c, st0, botName, m);
    DispatchVoice(cfg, c, st0, botName, m);
  }

  /** Listen's fallback posts the note as written, first or right after the start. */
  lemma ListenFallbackPosts(cfg: Config, c: Collaborators, st: State, m: GsMessage, fetched: seq<Base64.byte>,
                            recognition: Option<Speech.Recognition>)
    requires m.kind == "voice" && m.voiceId.Some? && m.from.Some?
    requires recognition.Some? && !Heard(recognition)
    ensures var trace := Listen(cfg, c, st, m, RelayCodecs.SaveNote(fetched).1, recognition).0.trace;
      var at := |st.trace| + (if m.from.value in st.sessions then 0 else 1);
      (m.from.value in st.sessions || (c.start.Returned? && c.start.value.Some?)) ==>
        && |trace| > at && trace[at].PostActivity?
        && trace[at].activity.attachments == Some([RelayCodecs.InlineVoiceAsWritten(m.voiceId.value, fetched)])
        && trace[at].activity.attachments.value[0].contentUrl == Some("data:audio/ogg;base64,")
  {
    var id := m.voiceId.value;
    var user := m.from.value;
    var stream := RelayCodecs.SaveNote(fetched).1;
    var inbound := Inbound(m.kind, m.text, m.timestamp, None, id, stream);
    var run := TalkSpec(cfg, c, st.speechTurn, st.testing, st.sessions, Some(user), inbound);
    var trace := Listen(cfg, c, st, m, stream, recognition).0.trace;
    assert trace == st.trace + run.effects by {
      ListenFallback(cfg, c, st, m, stream, recognition);
    }
    var attachment := RelayCodecs.InlineVoiceAsWritten(id, fetched);
    assert BuildActivity(user, inbound).Success? && BuildActivity(user, inbound).value.attachments == Some([attachment]) by {
      VoiceActivityAsWritten(user, inbound, fetched);
    }
    assert attachment.contentUrl == Some("data:audio/ogg;base64,") by {
      RelayCodecs.InlineVoiceAsWrittenIsEmpty(id, fetched);
    }
    var activity := BuildActivity(user, inbound).value;
    var k := if user in st.sessions then 0 else 1;
    if user in st.sessions || (c.start.Returned? && c.start.value.Some?) {
      assert |run.effects| > k && run.effects[k].PostActivity? && run.effects[k].activity == activity by {
        TalkPostsBuilt(cfg, c, st.speechTurn, st.testing, st.sessions, user, inbound);
      }
      assert trace[|st.trace| + k] == run.effects[k];
    }
  }

  lemma DispatchVoice(cfg: Config, c: Collaborators, st: State, botName: string, m: GsMessage)
    requires m.kind == "voice" && m.voiceId.Some?
    ensures var id := m.voiceId.value;
      var data := GsClient.Fetched(c.voice(botName, id));
      Dispatch(cfg, c, st, botName, m)
        == Listen(cfg, c, st.(trace := st.trace + [FetchVoice(botName, id), Recognize(id)]), m,
                  RelayCodecs.SaveNote(data).1, c.recognize(data, id))
  {
  }

  /** After a recognition whose transcript is not accepted, the note's stream goes to the bot as the message's own type. */
  lemma ListenFallback(cfg: Config, c: Collaborators, st: State, m: GsMessage, stream: RelayCodecs.Stream,
                       recognition: Option<Speech.Recognition>)
    requires recognition.Some? && !Heard(recognition) && m.voiceId.Some?
    ensures Listen(cfg, c, st, m, stream, recognition).0.trace
      == st.trace + TalkSpec(cfg, c, st.speechTurn, st.testing, st.sessions, m.from,
                             Inbound(m.kind, m.text, m.timestamp, None, m.voiceId.value, stream)).effects
  {
  }

  /** A "voice" activity built from the stream recognition left behind carries InlineVoiceAsWritten. */
  lemma VoiceActivityAsWritten(user: string, m: Inbound, fetched: seq<Base64.byte>)
    requires m.kind == "voice" && m.stream == RelayCodecs.SaveNote(fetched).1
    ensures BuildActivity(user, m).Success?
    ensures BuildActivity(user, m).value.attachments == Some([RelayCodecs.InlineVoiceAsWritten(m.voiceId, fetched)])
  {
  }

  /** Test mode is entered by a query-string message and never left. */
  lemma ProcessTesting(cfg: Config, c: Collaborators, st: State, req: Request)
    ensures ProcessSpec(cfg, c, st, req).0.testing <==> st.testing || IsTestRequest(req)
  {
  }

  /** Voice notes and audio files get a null reply, unless the turn throws and gets a catch block's reply. */
  lemma ProcessSpeechReplies(cfg: Config, c: Collaborators, st: State, req: Request)
    requires req.FormPost? && req.messageObj.Decoded? && req.messageObj.message.kind in {"voice", "audio"}
    ensures ProcessSpec(cfg, c, st, req).1 in {None, Some(HttpFaultReply), Some(SystemFaultReply)}
  {
  }

  /** Whether sessions' differs from sessions at most at the given sender. */
  ghost predicate OnlyAt(sessions: map<string, FromSession>, sessions': map<string, FromSession>, sender: Option<string>)
  {
    forall u :: sender != Some(u) ==>
      (u in sessions' <==> u in sessions) && (u in sessions ==> sessions'[u] == sessions[u])
  }

  lemma TalkFrame(cfg: Config, c: Collaborators, speechTurn: bool, testing: bool, sessions: map<string, FromSession>,
                  from: Option<string>, m: Inbound)
    ensures OnlyAt(sessions, TalkSpec(cfg, c, speechTurn, testing, sessions, from, m).sessions, from)
  {
    if from.Some? {
      TalkSessionWrite(cfg, c, speechTurn, testing, sessions, from.value, m);
    }
  }

  lemma ListenFrame(cfg: Config, c: Collaborators, st: State, m: GsMessage, stream: RelayCodecs.Stream,
                    recognition: Option<Speech.Recognition>)
    ensures var st' := Listen(cfg, c, st, m, stream, recognition).0;
      st.trace <= st'.trace && OnlyAt(st.sessions, st'.sessions, m.from)
  {
    if Heard(recognition) {
      var transcript := Speech.TranscriptOf(recognition.value);
      TalkFrame(cfg, c, true, st.testing, st.sessions, m.from, Inbound("text", Some(transcript), m.timestamp, None, "", RelayCodecs.NoStream));
    } else if recognition.Some? && m.voiceId.Some? {
      TalkFrame(cfg, c, st.speechTurn, st.testing, st.sessions, m.from,
                Inbound(m.kind, m.text, m.timestamp, None, m.voiceId.value, stream));
    }
  }

  lemma DispatchFrame(cfg: Config, c: Collaborators, st: State, botName: string, m: GsMessage)
    ensures var st' := Dispatch(cfg, c, st, botName, m).0;
      st.trace <= st'.trace && OnlyAt(st.sessions, st'.sessions, m.from)
  {
    if m.kind == "text" || m.kind == "image" {
      TalkFrame(cfg, c, st.speechTurn, st.testing, st.sessions, m.from, Inbound(m.kind, m.text, m.timestamp, m.url, "", RelayCodecs.NoStream));
    } else if m.kind == "voice" && m.voiceId.Some? {
      var id := m.voiceId.value;
      var data := GsClient.Fetched(c.voice(botName, id));
      ListenFrame(cfg, c, st.(trace := st.trace + [FetchVoice(botName, id), Recognize(id)]), m,
                  RelayCodecs.SaveNote(data).1, c.recognize(data, id));
    } else if m.kind == "audio" {
      var data := GsClient.Fetched(c.audio(m.url));
      ListenFrame(cfg, c, st.(trace := st.trace + [FetchAudio(m.url), Recognize(m.id)]), m,
                  RelayCodecs.SaveNote(data).1, c.recognize(data, m.id));
    }
  }

  /** The trace only grows, and the session table changes at most at the request's sender. */
  lemma ProcessFrame(cfg: Config, c: Collaborators, st: State, req: Request)
    ensures var st' := ProcessSpec(cfg, c, st, req).0;
      st.trace <= st'.trace && OnlyAt(st.sessions, st'.sessions, Sender(req))
  {
    if IsTestRequest(req) {
      TalkFrame(cfg, c, false, true, st.sessions, req.from, Inbound("text", req.text, req.now, Some(""), "", RelayCodecs.NoStream));
    } else if req.FormPost? && req.messageObj.Decoded? {
      DispatchFrame(cfg, c, st.(speechTurn := false), req.botName, req.messageObj.message);
    }
  }
}
