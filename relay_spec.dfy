/**
 * What the relay's outbound dispatcher (ReadBotMessagesAsync and the
 * SendVoice calls it makes, WaConnector.cs) does, as functions: the
 * effects it has on the outside world, in order, the reply it accumulates
 * in test mode, and the exception that ends it early, if any.
 */
module RelaySpec {

  import opened Wrappers
  import opened Schema
  import Speech
  import HeroCards
  import GsClient
  import RelayCodecs

  /** Something the relay does to the outside world. */
  datatype Effect =
    | StartConversation
    | PostActivity(conversationId: string, activity: Activity)
    | GetActivities(conversationId: string, watermark: Option<string>)
    | SendText(to: string, text: string)
    | SendMedia(to: string, kind: GsClient.MediaType, filename: string, url: string, thumbnail: Option<string>)
    | Sleep(ms: nat)
    | FetchVoice(appName: string, voiceId: string)
    | FetchAudio(location: Option<string>)
    | Recognize(voiceId: string)
    | Synthesize(text: string, textId: string)

  /** An exception that reaches ProcessPost: an HttpException, or any other. */
  datatype Fault = HttpFault | SystemFault

  /** A call into a collaborator: the value it returns, or the exception it throws. */
  datatype Outcome<T> = Returned(value: T) | ThrewHttp(message: string) | ThrewOther

  /** The bot settings the relay is built with, and the directory its audio files live in. */
  datatype Config = Config(botId: string, mediaHomeUrl: string, mediaDir: string)

  /** What a read runs with: the settings, the two instance flags, the user, and what the synthesiser reports. */
  datatype Turn = Turn(cfg: Config, speechTurn: bool, testing: bool, user: string,
                       synthesis: (string, string) -> Speech.Synthesis)

  /** A Direct Line activity set; its watermark may be null. */
  datatype ActivitySet = ActivitySet(activities: seq<Activity>, watermark: Option<string>)

  /** The Chat record: the accumulated reply and the watermark of the read. */
  datatype Chat = Chat(response: string, watermark: Option<string>)

  /** What a call did: its effects and its result or the exception it ended with. */
  datatype Run<T> = Run(effects: seq<Effect>, result: Result<T, Fault>)

  /** The effects the dispatcher may have: sends, pauses and syntheses. */
  predicate Outbound(e: Effect)
  {
    e.SendText? || e.SendMedia? || e.Sleep? || e.Synthesize?
  }

  /** Outbound effects other than pauses. */
  predicate Quiet(es: seq<Effect>)
  {
    forall i :: 0 <= i < |es| ==> Outbound(es[i]) && !es[i].Sleep?
  }

  predicate AllOutbound(es: seq<Effect>)
  {
    forall i :: 0 <= i < |es| ==> Outbound(es[i])
  }

  function CountSleeps(es: seq<Effect>): nat
  {
    if es == [] then 0 else CountSleeps(es[..|es| - 1]) + (if es[|es| - 1].Sleep? then 1 else 0)
  }

  function CountSendTexts(es: seq<Effect>): nat
  {
    if es == [] then 0 else CountSendTexts(es[..|es| - 1]) + (if es[|es| - 1].SendText? then 1 else 0)
  }

  lemma {:induction false} CountsAppend(a: seq<Effect>, b: seq<Effect>)
    ensures CountSleeps(a + b) == CountSleeps(a) + CountSleeps(b)
    ensures CountSendTexts(a + b) == CountSendTexts(a) + CountSendTexts(b)
  {
    if b == [] {
      assert a + b == a;
    } else {
      CountsAppend(a, b[..|b| - 1]);
      assert (a + b)[..|a + b| - 1] == a + b[..|b| - 1];
    }
  }

  lemma {:induction false} QuietCounts(es: seq<Effect>)
    requires Quiet(es)
    ensures CountSleeps(es) == 0
  {
    if es != [] {
      QuietCounts(es[..|es| - 1]);
    }
  }

  lemma {:induction false} NoSendTextCounts(es: seq<Effect>)
    requires forall i :: 0 <= i < |es| ==> !es[i].SendText?
    ensures CountSendTexts(es) == 0
  {
    if es != [] {
      NoSendTextCounts(es[..|es| - 1]);
    }
  }

  // ---------------------------------------------------------------- SendVoice

  /**
   * SendVoice: the text without characters above code 255 is synthesised
   * under the activity id without '|', unless it is empty; when the
   * synthesis succeeds the audio file is sent as an audio message.
   */
  function VoiceEffects(t: Turn, text: string, activityId: string): seq<Effect>
  {
    var id := RelayCodecs.TextId(activityId);
    var clean := RelayCodecs.AnsiOnly(text);
    (if Speech.Synthesizes(clean) then [Synthesize(clean, id)] else [])
    + (if Speech.SpeechSynthesized(clean, t.synthesis(clean, id))
       then [SendMedia(t.user, GsClient.Audio, RelayCodecs.VoiceFileName(t.cfg.mediaDir, id),
                       RelayCodecs.VoiceMediaUrl(t.cfg.mediaHomeUrl, id), None)]
       else [])
  }

  /**
   * A voice reply synthesises the cleaned text (only codes up to 255, id
   * without '|') before anything else, sends at most one audio message and
   * only after a synthesis, and does nothing for text that cleans to "".
   */
  lemma VoiceEffectsSpec(t: Turn, text: string, activityId: string)
    ensures var r := VoiceEffects(t, text, activityId);
      && Quiet(r) && |r| <= 2
      && (RelayCodecs.AnsiOnly(text) == "" <==> r == [])
      && (r != [] ==> r[0] == Synthesize(RelayCodecs.AnsiOnly(text), RelayCodecs.TextId(activityId)))
      && (forall i :: 0 <= i < |r| && r[i].Synthesize? ==> forall j :: 0 <= j < |r[i].text| ==> r[i].text[j] as int <= RelayCodecs.MaxAnsiCode)
      && (forall i :: 0 <= i < |r| && r[i].SendMedia? ==> i == 1 && r[i].kind == GsClient.Audio)
  {
    RelayCodecs.AnsiOnlyBounds(text);
  }

  /** SendVoiceFromHeroText: the card's text is spoken when the card is there and its text is not empty. */
  function VoiceFromCard(t: Turn, card: Option<HeroCard>, activityId: string): seq<Effect>
  {
    if card.Some? && card.value.text != "" then VoiceEffects(t, card.value.text, activityId) else []
  }

  /**
   * A hero card is spoken only when it is there and its text cleans to
   * something: then its effects start with the synthesis of that cleaned
   * text, and otherwise there are none.
   */
  lemma VoiceFromCardSpec(t: Turn, card: Option<HeroCard>, activityId: string)
    ensures var r := VoiceFromCard(t, card, activityId);
      && |r| <= 2
      && (r != [] <==> card.Some? && RelayCodecs.AnsiOnly(card.value.text) != "")
      && (r != [] ==> r[0] == Synthesize(RelayCodecs.AnsiOnly(card.value.text), RelayCodecs.TextId(activityId)))
  {
    if card.Some? && card.value.text != "" {
      VoiceEffectsSpec(t, card.value.text, activityId);
    }
  }

  // ---------------------------------------------------------------- the dispatcher

  /** What a part of the dispatch did: its effects, the reply and the media flag it leaves, and the exception that ended it. */
  datatype Progress = Progress(effects: seq<Effect>, response: string, fileSent: bool, fault: Option<Fault>)

  /** p, then q if p did not end in an exception. */
  function Extend(p: Progress, q: Progress): Progress
  {
    if p.fault.Some? then p else Progress(p.effects + q.effects, q.response, q.fileSent, q.fault)
  }

  /** The test-mode reply with one more text: joined to a non-empty reply by "\n". */
  function Appended(response: string, text: string): string
  {
    (if response != "" then response + "\n" else response) + text
  }

  /** A text for the user: appended to the reply in test mode, sent as a WhatsApp text otherwise. */
  function Deliver(t: Turn, response: string, fileSent: bool, text: string): Progress
  {
    if t.testing then Progress([], Appended(response, text), fileSent, None)
    else Progress([SendText(t.user, text)], response, fileSent, None)
  }

  /** An activity's text: spoken first on a speech turn, then delivered with its suggested actions. */
  function TextStep(t: Turn, act: Activity, response: string, fileSent: bool): Progress
  {
    match act.text
    case None => Progress([], response, fileSent, None)
    case Some(text) =>
      var voice := if t.speechTurn then VoiceEffects(t, text, act.id) else [];
      var d := Deliver(t, response, fileSent, RelayCodecs.ReplyText(text, act.suggestedActions));
      d.(effects := voice + d.effects)
  }

  /**
   * One attachment: media content types are forwarded as their kind (an
   * image with its thumbnail) and mark a file as sent; a hero card is
   * spoken on a speech turn and then delivered as text; the rest is ignored.
   */
  function AttachmentStep(t: Turn, activityId: string, att: Attachment, response: string, fileSent: bool): Progress
  {
    match RelayCodecs.MediaKindOf(att.contentType)
    case Some(kind) =>
      if att.contentUrl.None? then Progress([], response, fileSent, Some(SystemFault))
      else
        var thumbnail := if kind == GsClient.Image then att.thumbnailUrl else None;
        Progress([SendMedia(t.user, kind, att.name, att.contentUrl.value, thumbnail)], response, true, None)
    case None =>
      if att.contentType != RelayCodecs.HeroCardContentType then Progress([], response, fileSent, None)
      else
        var voice := if t.speechTurn then VoiceFromCard(t, att.card, activityId) else [];
        match HeroCards.RenderCard(att.card)
        case None => Progress(voice, response, fileSent, Some(SystemFault))
        case Some(card) =>
          var d := Deliver(t, response, fileSent, card);
          d.(effects := voice + d.effects)
  }

  /** The attachments of an activity, in order. */
  function AttachmentsFold(t: Turn, activityId: string, atts: seq<Attachment>, response: string, fileSent: bool): Progress
  {
    if atts == [] then Progress([], response, fileSent, None)
    else
      var p := AttachmentsFold(t, activityId, atts[..|atts| - 1], response, fileSent);
      Extend(p, AttachmentStep(t, activityId, atts[|atts| - 1], p.response, p.fileSent))
  }

  function AttachmentsOf(act: Activity): seq<Attachment>
  {
    if act.attachments.Some? then act.attachments.value else []
  }

  /** The pause after activity k of n: none after the last, else 2000 ms after a file and 1000 ms otherwise. */
  function Pace(k: nat, n: nat, response: string, fileSent: bool): Progress
  {
    if k + 1 < n then Progress([Sleep(if fileSent then 2000 else 1000)], response, false, None)
    else Progress([], response, fileSent, None)
  }

  /** Activity k of n: its text, its attachments, then the pause. */
  function ActivityStep(t: Turn, act: Activity, k: nat, n: nat, response: string, fileSent: bool): Progress
  {
    var p1 := TextStep(t, act, response, fileSent);
    var p2 := Extend(p1, AttachmentsFold(t, act.id, AttachmentsOf(act), p1.response, p1.fileSent));
    Extend(p2, Pace(k, n, p2.response, p2.fileSent))
  }

  /** The first |acts| of the n bot activities, dispatched in order from an empty reply. */
  function ReadFold(t: Turn, acts: seq<Activity>, n: nat): Progress
  {
    if acts == [] then Progress([], "", false, None)
    else
      var p := ReadFold(t, acts[..|acts| - 1], n);
      Extend(p, ActivityStep(t, acts[|acts| - 1], |acts| - 1, n, p.response, p.fileSent))
  }

  /** The activities sent by the bot, in the order the backend returned them. */
  function FromBot(acts: seq<Activity>, botId: string): seq<Activity>
  {
    if acts == [] then []
    else (if acts[0].fromId == botId then [acts[0]] else []) + FromBot(acts[1..], botId)
  }

  /**
   * ReadBotMessagesAsync, given what GetActivitiesAsync yields: an
   * exception, a null set (dereferenced, so it throws), or the set whose
   * bot activities are dispatched; the Chat carries the set's watermark.
   */
  function ReadSpec(t: Turn, conversationId: string, watermark: Option<string>,
                    outcome: Outcome<Option<ActivitySet>>): Run<Chat>
  {
    var get := [GetActivities(conversationId, watermark)];
    match outcome
    case ThrewHttp(_) => Run(get, Failure(HttpFault))
    case ThrewOther => Run(get, Failure(SystemFault))
    case Returned(None) => Run(get, Failure(SystemFault))
    case Returned(Some(activitySet)) =>
      var acts := FromBot(activitySet.activities, t.cfg.botId);
      var p := ReadFold(t, acts, |acts|);
      Run(get + p.effects, if p.fault.Some? then Failure(p.fault.value) else Success(Chat(p.response, activitySet.watermark)))
  }

  // ---------------------------------------------------------------- properties

  /** The bot's activities are exactly those whose sender is the bot, in backend order. */
  lemma {:induction false} FromBotSpec(acts: seq<Activity>, more: seq<Activity>, botId: string)
    ensures forall a :: a in FromBot(acts, botId) <==> a in acts && a.fromId == botId
    ensures FromBot(acts + more, botId) == FromBot(acts, botId) + FromBot(more, botId)
  {
    if acts != [] {
      FromBotSpec(acts[1..], more, botId);
      assert (acts + more)[1..] == acts[1..] + more;
      assert acts == [acts[0]] + acts[1..];
    } else {
      assert acts + more == more;
    }
  }

  lemma QuietAppend(a: seq<Effect>, b: seq<Effect>)
    requires Quiet(a) && Quiet(b)
    ensures Quiet(a + b)
  {
    assert forall i :: 0 <= i < |a + b| ==> (a + b)[i] == if i < |a| then a[i] else b[i - |a|];
  }

  lemma TextStepQuiet(t: Turn, act: Activity, response: string, fileSent: bool)
    ensures var p := TextStep(t, act, response, fileSent);
      Quiet(p.effects) && p.fault.None? && p.fileSent == fileSent
  {
    if act.text.Some? {
      VoiceEffectsSpec(t, act.text.value, act.id);
      var voice := if t.speechTurn then VoiceEffects(t, act.text.value, act.id) else [];
      var d := Deliver(t, response, fileSent, RelayCodecs.ReplyText(act.text.value, act.suggestedActions));
      QuietAppend(voice, d.effects);
    }
  }

  lemma AttachmentStepQuiet(t: Turn, activityId: string, att: Attachment, response: string, fileSent: bool)
    ensures var p := AttachmentStep(t, activityId, att, response, fileSent);
      && Quiet(p.effects)
      && (p.fault.None? ==> (p.fileSent <==> fileSent || RelayCodecs.MediaKindOf(att.contentType).Some?))
  {
    if RelayCodecs.MediaKindOf(att.contentType).None? && att.contentType == RelayCodecs.HeroCardContentType {
      var card := att.card;
      if card.Some? && card.value.text != "" {
        VoiceEffectsSpec(t, card.value.text, activityId);
      }
      var voice := if t.speechTurn then VoiceFromCard(t, card, activityId) else [];
      if HeroCards.RenderCard(card).Some? {
        var d := Deliver(t, response, fileSent, HeroCards.RenderCard(card).value);
        QuietAppend(voice, d.effects);
      }
    }
  }

  /**
   * The attachments of an activity only send, speak and deliver, and,
   * when none throws, leave a file marked as sent exactly when one was
   * already marked or some attachment has a media content type.
   */
  lemma {:induction false} AttachmentsFoldQuiet(t: Turn, activityId: string, atts: seq<Attachment>, response: string, fileSent: bool)
    ensures var p := AttachmentsFold(t, activityId, atts, response, fileSent);
      && Quiet(p.effects)
      && (p.fault.None? ==>
            (p.fileSent <==> fileSent || exists j :: 0 <= j < |atts| && RelayCodecs.MediaKindOf(atts[j].contentType).Some?))
  {
    if atts != [] {
      var init := atts[..|atts| - 1];
      var p := AttachmentsFold(t, activityId, init, response, fileSent);
      AttachmentsFoldQuiet(t, activityId, init, response, fileSent);
      if p.fault.None? {
        var last := atts[|atts| - 1];
        var q := AttachmentStep(t, activityId, last, p.response, p.fileSent);
        AttachmentStepQuiet(t, activityId, last, p.response, p.fileSent);
        QuietAppend(p.effects, q.effects);
        if q.fault.None? {
          assert forall j :: 0 <= j < |init| ==> init[j] == atts[j];
        }
      }
    }
  }

  /** The pause is the only pause of an activity, and it clears the file mark. */
  lemma ActivityStepCounts(t: Turn, act: Activity, k: nat, n: nat, response: string)
    ensures var p := ActivityStep(t, act, k, n, response, false);
      && AllOutbound(p.effects)
      && (p.fault.None? ==> !p.fileSent || k + 1 >= n)
      && (p.fault.None? ==> CountSleeps(p.effects) == if k + 1 < n then 1 else 0)
  {
    var p1 := TextStep(t, act, response, false);
    TextStepQuiet(t, act, response, false);
    var f := AttachmentsFold(t, act.id, AttachmentsOf(act), p1.response, p1.fileSent);
    AttachmentsFoldQuiet(t, act.id, AttachmentsOf(act), p1.response, p1.fileSent);
    var p2 := Extend(p1, f);
    QuietAppend(p1.effects, f.effects);
    assert Quiet(p2.effects);
    QuietCounts(p2.effects);
    var pace := Pace(k, n, p2.response, p2.fileSent);
    var p := Extend(p2, pace);
    CountsAppend(p2.effects, pace.effects);
    if k + 1 < n {
      assert CountSleeps(pace.effects) == 1 by {
        assert pace.effects[..0] == [];
      }
    }
    assert p.fault.None? ==> p.effects == p2.effects + pace.effects;
  }

  /** After a file an activity pauses 2000 ms, otherwise 1000 ms, unless it is the last. */
  lemma ActivityStepPause(t: Turn, act: Activity, k: nat, n: nat, response: string)
    ensures var p := ActivityStep(t, act, k, n, response, false);
      p.fault.None? && k + 1 < n ==>
        p.effects[|p.effects| - 1]
          == Sleep(if exists j :: 0 <= j < |AttachmentsOf(act)| && RelayCodecs.MediaKindOf(AttachmentsOf(act)[j].contentType).Some?
                   then 2000 else 1000)
  {
    var p1 := TextStep(t, act, response, false);
    TextStepQuiet(t, act, response, false);
    AttachmentsFoldQuiet(t, act.id, AttachmentsOf(act), p1.response, p1.fileSent);
  }

  lemma EffectsAssoc(a: seq<Effect>, b: seq<Effect>, c: seq<Effect>)
    ensures (a + b) + c == a + (b + c)
  {
  }

  lemma EffectsAssoc4(a: seq<Effect>, b: seq<Effect>, c: seq<Effect>, d: seq<Effect>)
    ensures ((a + b) + c) + d == a + ((b + c) + d)
  {
  }

  /** An activity's step in its three parts: text, attachments (which may throw), pause. */
  lemma ActivityStepParts(t: Turn, act: Activity, k: nat, n: nat, response: string, fileSent: bool,
                          p1: Progress, p2: Progress, p3: Progress)
    requires p1 == TextStep(t, act, response, fileSent)
    requires p2 == AttachmentsFold(t, act.id, AttachmentsOf(act), p1.response, p1.fileSent)
    requires p3 == Pace(k, n, p2.response, p2.fileSent)
    ensures p1.fault.None? && p1.fileSent == fileSent
    ensures ActivityStep(t, act, k, n, response, fileSent)
      == if p2.fault.Some? then Progress(p1.effects + p2.effects, p2.response, p2.fileSent, p2.fault)
         else Progress((p1.effects + p2.effects) + p3.effects, p3.response, p3.fileSent, None)
  {
  }

  /** One more attachment of the fold. */
  lemma AttachmentsFoldStep(t: Turn, activityId: string, atts: seq<Attachment>, i: nat, response: string, fileSent: bool,
                            p: Progress, q: Progress)
    requires i < |atts|
    requires p == AttachmentsFold(t, activityId, atts[..i], response, fileSent) && p.fault.None?
    requires q == AttachmentStep(t, activityId, atts[i], p.response, p.fileSent)
    ensures AttachmentsFold(t, activityId, atts[..i + 1], response, fileSent)
      == Progress(p.effects + q.effects, q.response, q.fileSent, q.fault)
  {
    assert atts[..i + 1][..i] == atts[..i];
  }

  /** One more activity of the read. */
  lemma ReadFoldStep(t: Turn, acts: seq<Activity>, i: nat, n: nat, p: Progress, r: Progress)
    requires i < |acts|
    requires p == ReadFold(t, acts[..i], n) && p.fault.None?
    requires r == ActivityStep(t, acts[i], i, n, p.response, p.fileSent)
    ensures ReadFold(t, acts[..i + 1], n) == Progress(p.effects + r.effects, r.response, r.fileSent, r.fault)
  {
    assert acts[..i + 1][..i] == acts[..i];
  }

  /** Once an attachment throws, the rest of the activity's attachments are not dispatched. */
  lemma {:induction false} AttachmentsFoldSticks(t: Turn, activityId: string, atts: seq<Attachment>, k: nat,
                                                 response: string, fileSent: bool)
    requires k <= |atts|
    requires AttachmentsFold(t, activityId, atts[..k], response, fileSent).fault.Some?
    ensures AttachmentsFold(t, activityId, atts, response, fileSent) == AttachmentsFold(t, activityId, atts[..k], response, fileSent)
    decreases |atts|
  {
    if k == |atts| {
      assert atts[..k] == atts;
    } else {
      var init := atts[..|atts| - 1];
      assert init[..k] == atts[..k];
      AttachmentsFoldSticks(t, activityId, init, k, response, fileSent);
    }
  }

  /** Once an activity throws, the rest of the read is not dispatched. */
  lemma {:induction false} ReadFoldSticks(t: Turn, acts: seq<Activity>, k: nat, n: nat)
    requires k <= |acts|
    requires ReadFold(t, acts[..k], n).fault.Some?
    ensures ReadFold(t, acts, n) == ReadFold(t, acts[..k], n)
    decreases |acts|
  {
    if k == |acts| {
      assert acts[..k] == acts;
    } else {
      var init := acts[..|acts| - 1];
      assert init[..k] == acts[..k];
      ReadFoldSticks(t, init, k, n);
    }
  }

  /** Before each activity of a read that has not thrown, no file is marked as sent. */
  lemma {:induction false} ReadFoldFresh(t: Turn, acts: seq<Activity>, n: nat)
    requires |acts| < n
    ensures ReadFold(t, acts, n).fault.None? ==> !ReadFold(t, acts, n).fileSent
  {
    if acts != [] {
      ReadFoldFresh(t, acts[..|acts| - 1], n);
      var p := ReadFold(t, acts[..|acts| - 1], n);
      ActivityStepCounts(t, acts[|acts| - 1], |acts| - 1, n, p.response);
    }
  }

  /**
   * Pacing: a read that does not throw pauses exactly once after every bot
   * activity but the last, so n activities pause n - 1 times, and only the
   * dispatcher's own sends, pauses and syntheses happen.
   */
  lemma {:induction false} ReadFoldPacing(t: Turn, acts: seq<Activity>, n: nat)
    requires |acts| <= n
    ensures AllOutbound(ReadFold(t, acts, n).effects)
    ensures ReadFold(t, acts, n).fault.None? ==>
      CountSleeps(ReadFold(t, acts, n).effects) == if |acts| == n && n > 0 then n - 1 else |acts|
  {
    if acts != [] {
      var init := acts[..|acts| - 1];
      ReadFoldPacing(t, init, n);
      ReadFoldFresh(t, init, n);
      var p := ReadFold(t, init, n);
      if p.fault.None? {
        var q := ActivityStep(t, acts[|acts| - 1], |acts| - 1, n, p.response, false);
        ActivityStepCounts(t, acts[|acts| - 1], |acts| - 1, n, p.response);
        CountsAppend(p.effects, q.effects);
        AllOutboundAppend(p.effects, q.effects);
        assert ReadFold(t, acts, n) == Extend(p, q);
      }
    }
  }

  lemma AllOutboundAppend(a: seq<Effect>, b: seq<Effect>)
    requires AllOutbound(a) && AllOutbound(b)
    ensures AllOutbound(a + b)
  {
    assert forall i :: 0 <= i < |a + b| ==> (a + b)[i] == if i < |a| then a[i] else b[i - |a|];
  }

  /** Delivery keeps the reply empty outside test mode and sends nothing as text in test mode. */
  predicate DeliveryMode(t: Turn, p: Progress)
  {
    && (!t.testing ==> p.response == "")
    && (t.testing ==> forall i :: 0 <= i < |p.effects| ==> !p.effects[i].SendText?)
  }

  lemma NoSendTextAppend(a: seq<Effect>, b: seq<Effect>)
    requires forall i :: 0 <= i < |a| ==> !a[i].SendText?
    requires forall i :: 0 <= i < |b| ==> !b[i].SendText?
    ensures forall i :: 0 <= i < |a + b| ==> !(a + b)[i].SendText?
  {
    assert forall i :: 0 <= i < |a + b| ==> (a + b)[i] == if i < |a| then a[i] else b[i - |a|];
  }

  lemma VoiceNoText(t: Turn, text: string, activityId: string)
    ensures forall i :: 0 <= i < |VoiceEffects(t, text, activityId)| ==> !VoiceEffects(t, text, activityId)[i].SendText?
  {
    VoiceEffectsSpec(t, text, activityId);
  }

  lemma AttachmentStepDelivery(t: Turn, activityId: string, att: Attachment, response: string, fileSent: bool)
    requires !t.testing ==> response == ""
    ensures DeliveryMode(t, AttachmentStep(t, activityId, att, response, fileSent))
  {
    var card := att.card;
    if RelayCodecs.MediaKindOf(att.contentType).None? && att.contentType == RelayCodecs.HeroCardContentType
       && t.speechTurn && card.Some? && card.value.text != "" {
      VoiceNoText(t, card.value.text, activityId);
      if t.testing && HeroCards.RenderCard(card).Some? {
        NoSendTextAppend(VoiceFromCard(t, card, activityId), []);
      }
    }
  }

  lemma {:induction false} AttachmentsFoldDelivery(t: Turn, activityId: string, atts: seq<Attachment>, response: string, fileSent: bool)
    requires !t.testing ==> response == ""
    ensures DeliveryMode(t, AttachmentsFold(t, activityId, atts, response, fileSent))
  {
    if atts != [] {
      var init := atts[..|atts| - 1];
      AttachmentsFoldDelivery(t, activityId, init, response, fileSent);
      var p := AttachmentsFold(t, activityId, init, response, fileSent);
      if p.fault.None? {
        var q := AttachmentStep(t, activityId, atts[|atts| - 1], p.response, p.fileSent);
        AttachmentStepDelivery(t, activityId, atts[|atts| - 1], p.response, p.fileSent);
        if t.testing {
          NoSendTextAppend(p.effects, q.effects);
        }
      }
    }
  }

  lemma ActivityStepDelivery(t: Turn, act: Activity, k: nat, n: nat, response: string, fileSent: bool)
    requires !t.testing ==> response == ""
    ensures DeliveryMode(t, ActivityStep(t, act, k, n, response, fileSent))
  {
    var p1 := TextStep(t, act, response, fileSent);
    if act.text.Some? && t.speechTurn {
      VoiceNoText(t, act.text.value, act.id);
      if t.testing {
        NoSendTextAppend(VoiceEffects(t, act.text.value, act.id), []);
      }
    }
    assert DeliveryMode(t, p1);
    var f := AttachmentsFold(t, act.id, AttachmentsOf(act), p1.response, p1.fileSent);
    AttachmentsFoldDelivery(t, act.id, AttachmentsOf(act), p1.response, p1.fileSent);
    var p2 := Extend(p1, f);
    if t.testing {
      NoSendTextAppend(p1.effects, f.effects);
    }
    assert DeliveryMode(t, p2);
    var pace := Pace(k, n, p2.response, p2.fileSent);
    if t.testing {
      NoSendTextAppend(p2.effects, pace.effects);
    }
  }

  /**
   * Outside test mode the reply stays empty (every text goes out as a
   * WhatsApp message); in test mode nothing is sent as a text message.
   */
  lemma {:induction false} ReadFoldDelivery(t: Turn, acts: seq<Activity>, n: nat)
    ensures DeliveryMode(t, ReadFold(t, acts, n))
  {
    if acts != [] {
      var init := acts[..|acts| - 1];
      ReadFoldDelivery(t, init, n);
      var p := ReadFold(t, init, n);
      if p.fault.None? {
        var q := ActivityStep(t, acts[|acts| - 1], |acts| - 1, n, p.response, p.fileSent);
        ActivityStepDelivery(t, acts[|acts| - 1], |acts| - 1, n, p.response, p.fileSent);
        if t.testing {
          NoSendTextAppend(p.effects, q.effects);
        }
      }
    }
  }

  /**
   * A text activity without attachments, outside test mode and speech
   * turns, is exactly one WhatsApp text (the bot's text followed by its
   * suggested actions) and, unless it is the last, a 1000 ms pause.
   */
  lemma PlainTextActivity(t: Turn, act: Activity, k: nat, n: nat, response: string, text: string)
    requires act.text == Some(text) && AttachmentsOf(act) == []
    requires !t.testing && !t.speechTurn
    ensures ActivityStep(t, act, k, n, response, false).effects
      == [SendText(t.user, text + RelayCodecs.SuggestionLines(act.suggestedActions))]
         + (if k + 1 < n then [Sleep(1000)] else [])
  {
    RelayCodecs.ReplyTextLayout(text, act.suggestedActions);
  }

  /** On a speech turn the spoken version of a text comes before its delivery. */
  lemma SpokenTextActivity(t: Turn, act: Activity, response: string, fileSent: bool, text: string)
    requires act.text == Some(text) && t.speechTurn && !t.testing
    ensures TextStep(t, act, response, fileSent).effects
      == VoiceEffects(t, text, act.id) + [SendText(t.user, RelayCodecs.ReplyText(text, act.suggestedActions))]
  {
  }

  /**
   * A read starts with exactly one GetActivities from the given watermark,
   * after which only the dispatcher's own effects happen; a read that does
   * not throw returns the set's watermark, and its reply is empty outside
   * test mode.
   */
  lemma ReadSpecShape(t: Turn, conversationId: string, watermark: Option<string>, outcome: Outcome<Option<ActivitySet>>)
    ensures var r := ReadSpec(t, conversationId, watermark, outcome);
      && |r.effects| >= 1 && r.effects[0] == GetActivities(conversationId, watermark)
      && AllOutbound(r.effects[1..])
      && (r.result.Success? ==> outcome.Returned? && outcome.value.Some? && r.result.value.watermark == outcome.value.value.watermark)
      && (r.result.Success? && !t.testing ==> r.result.value.response == "")
  {
    if outcome.Returned? && outcome.value.Some? {
      var acts := FromBot(outcome.value.value.activities, t.cfg.botId);
      ReadFoldPacing(t, acts, |acts|);
      ReadFoldDelivery(t, acts, |acts|);
      var r := ReadSpec(t, conversationId, watermark, outcome);
      assert r.effects[1..] == ReadFold(t, acts, |acts|).effects;
    }
  }
}
