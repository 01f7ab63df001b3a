/**
 * The relay itself (WaConnector.cs): the GsWhatsAppAdapter object with
 * its session table, its speech-turn and test flags, and the record of
 * what it has done to the outside world. Each method does what the
 * source method does, step by step, and is proved to leave the object
 * and the record as the matching function of RelaySpec or RelayTurn says.
 */
module WaConnector {

  import opened Wrappers
  import opened Schema
  import Strings
  import Base64
  import Speech
  import GsClient
  import HeroCards
  import RelayCodecs
  import opened RelaySpec
  import opened RelayTurn

  class GsWhatsAppAdapter {

    const cfg: Config
    /** The sender table: sender number to conversation and watermark. */
    var sessions: map<string, FromSession>
    var isSpeechTurn: bool
    var testing: bool
    /** What the relay has done to the outside world, in order. */
    var trace: seq<Effect>

    constructor(cfg: Config)
      ensures this.cfg == cfg && sessions == map[] && !isSpeechTurn && !testing && trace == []
    {
      this.cfg := cfg;
      sessions := map[];
      isSpeechTurn := false;
      testing := false;
      trace := [];
    }

    /** The object's state as a RelayTurn.State. */
    function Snapshot(): State
      reads this
    {
      State(sessions, isSpeechTurn, testing, trace)
    }

    /** The fields a dispatch leaves alone. */
    function Flags(): (map<string, FromSession>, bool, bool)
      reads this
    {
      (sessions, isSpeechTurn, testing)
    }

    /** Whether t describes this object's settings and flags. */
    predicate Current(t: Turn)
      reads this
    {
      t.cfg == cfg && t.speechTurn == isSpeechTurn && t.testing == testing
    }

    /** SendVoice: clean the text, synthesise it, and send the audio file when the synthesis succeeded. */
    method SendVoice(t: Turn, text: string, activityId: string)
      requires Current(t)
      modifies this
      ensures trace == old(trace) + VoiceEffects(t, text, activityId)
      ensures Flags() == old(Flags())
    {
      var textId := RelayCodecs.TextId(activityId);
      var clean := RelayCodecs.CleanText(text);
      if Speech.Synthesizes(clean) {
        trace := trace + [Synthesize(clean, textId)];
      }
      if Speech.SpeechSynthesized(clean, t.synthesis(clean, textId)) {
        var fileName := RelayCodecs.VoiceFileName(cfg.mediaDir, textId);
        var mediaUrl := RelayCodecs.VoiceMediaUrl(cfg.mediaHomeUrl, textId);
        trace := trace + [SendMedia(t.user, GsClient.Audio, fileName, mediaUrl, None)];
      }
    }

    /** SendVoiceFromHeroText: speak the card's text, if the card has one. */
    method SendVoiceFromHeroText(t: Turn, card: Option<HeroCard>, activityId: string)
      requires Current(t)
      modifies this
      ensures trace == old(trace) + VoiceFromCard(t, card, activityId)
      ensures Flags() == old(Flags())
    {
      if card.Some? && card.value.text != "" {
        SendVoice(t, card.value.text, activityId);
      }
    }

    /** A text for the user: appended to the reply in test mode, sent through the gateway otherwise. */
    method DeliverText(t: Turn, response: string, fileSent: bool, text: string) returns (response': string)
      requires Current(t)
      modifies this
      ensures trace == old(trace) + Deliver(t, response, fileSent, text).effects
      ensures response' == Deliver(t, response, fileSent, text).response
      ensures Flags() == old(Flags())
    {
      if testing {
        response' := response;
        if response' != "" {
          response' := response' + "\n";
        }
        response' := response' + text;
      } else {
        response' := response;
        trace := trace + [SendText(t.user, text)];
      }
    }

    /** An activity's text: spoken on a speech turn, then delivered with its suggested actions. */
    method DispatchText(t: Turn, act: Activity, response: string, fileSent: bool) returns (response': string)
      requires Current(t)
      modifies this
      ensures trace == old(trace) + TextStep(t, act, response, fileSent).effects
      ensures response' == TextStep(t, act, response, fileSent).response
      ensures Flags() == old(Flags())
    {
      response' := response;
      if act.text.Some? {
        var reply := act.text.value;
        if isSpeechTurn {
          SendVoice(t, reply, act.id);
        }
        reply := RelayCodecs.AppendSuggestions(reply, act.suggestedActions);
        response' := DeliverText(t, response, fileSent, reply);
      }
    }

    /** One attachment, by content type. */
    method DispatchAttachment(t: Turn, activityId: string, att: Attachment, response: string, fileSent: bool)
      returns (response': string, fileSent': bool, fault: Option<Fault>)
      requires Current(t)
      modifies this
      ensures var p := AttachmentStep(t, activityId, att, response, fileSent);
        trace == old(trace) + p.effects && response' == p.response && fileSent' == p.fileSent && fault == p.fault
      ensures Flags() == old(Flags())
    {
      response', fileSent', fault := response, fileSent, None;
      var kind := RelayCodecs.MediaKindOf(att.contentType);
      if kind.Some? {
        if att.contentUrl.None? {
          return response, fileSent, Some(SystemFault);
        }
        var thumbnail := if kind.value == GsClient.Image then att.thumbnailUrl else None;
        trace := trace + [SendMedia(t.user, kind.value, att.name, att.contentUrl.value, thumbnail)];
        fileSent' := true;
      } else if att.contentType == RelayCodecs.HeroCardContentType {
        if isSpeechTurn {
          SendVoiceFromHeroText(t, att.card, activityId);
        }
        var card := HeroCards.ConvertHeroCardToWhatsApp(att.card);
        if card.None? {
          return response, fileSent, Some(SystemFault);
        }
        response' := DeliverText(t, response, fileSent, card.value);
      }
    }

    /** The attachments of an activity, in order, until one throws. */
    method DispatchAttachments(t: Turn, act: Activity, response: string, fileSent: bool)
      returns (response': string, fileSent': bool, fault: Option<Fault>)
      requires Current(t)
      modifies this
      ensures var p := AttachmentsFold(t, act.id, AttachmentsOf(act), response, fileSent);
        trace == old(trace) + p.effects && response' == p.response && fileSent' == p.fileSent && fault == p.fault
      ensures Flags() == old(Flags())
    {
      if act.attachments.None? {
        assert trace == old(trace) + [];
        return response, fileSent, None;
      }
      response', fileSent', fault := DispatchAttachmentList(t, act.id, act.attachments.value, response, fileSent);
    }

    /** The loop over an activity's attachments, stopping at the first that throws. */
    method DispatchAttachmentList(t: Turn, activityId: string, atts: seq<Attachment>, response: string, fileSent: bool)
      returns (response': string, fileSent': bool, fault: Option<Fault>)
      requires Current(t)
      modifies this
      ensures var p := AttachmentsFold(t, activityId, atts, response, fileSent);
        trace == old(trace) + p.effects && response' == p.response && fileSent' == p.fileSent && fault == p.fault
      ensures Flags() == old(Flags())
    {
      response', fileSent', fault := response, fileSent, None;
      var i := 0;
      while i < |atts|
        invariant 0 <= i <= |atts|
        invariant Flags() == old(Flags())
        invariant var p := AttachmentsFold(t, activityId, atts[..i], response, fileSent);
          p.fault.None? && trace == old(trace) + p.effects && response' == p.response && fileSent' == p.fileSent
      {
        ghost var p := AttachmentsFold(t, activityId, atts[..i], response, fileSent);
        ghost var q := AttachmentStep(t, activityId, atts[i], p.response, p.fileSent);
        AttachmentsFoldStep(t, activityId, atts, i, response, fileSent, p, q);
        var f;
        response', fileSent', f := DispatchAttachment(t, activityId, atts[i], response', fileSent');
        EffectsAssoc(old(trace), p.effects, q.effects);
        if f.Some? {
          AttachmentsFoldSticks(t, activityId, atts, i + 1, response, fileSent);
          return response', fileSent', f;
        }
        i := i + 1;
      }
      assert atts[..i] == atts;
    }

    /**
     * Activity k of the n the bot sent: its text, its attachments, and the
     * pause before the next one (longer after a file), unless it threw.
     */
    method DispatchActivity(t: Turn, act: Activity, k: nat, n: nat, response: string, fileSent: bool)
      returns (response': string, fileSent': bool, fault: Option<Fault>)
      requires Current(t)
      modifies this
      ensures var r := ActivityStep(t, act, k, n, response, fileSent);
        trace == old(trace) + r.effects && response' == r.response && fileSent' == r.fileSent && fault == r.fault
      ensures Flags() == old(Flags())
    {
      ghost var p1 := TextStep(t, act, response, fileSent);
      response' := DispatchText(t, act, response, fileSent);
      ghost var p2 := AttachmentsFold(t, act.id, AttachmentsOf(act), p1.response, p1.fileSent);
      response', fileSent', fault := DispatchAttachments(t, act, response', fileSent);
      ghost var p3 := Pace(k, n, p2.response, p2.fileSent);
      ActivityStepParts(t, act, k, n, response, fileSent, p1, p2, p3);
      if fault.Some? {
        EffectsAssoc(old(trace), p1.effects, p2.effects);
        return;
      }
      if n > k + 1 {
        trace := trace + [Sleep(if fileSent' then 2000 else 1000)];
        fileSent' := false;
      }
      EffectsAssoc4(old(trace), p1.effects, p2.effects, p3.effects);
    }

    /** The bot's activities of a read, in order, pausing between them, until one throws. */
    method DispatchActivities(t: Turn, activities: seq<Activity>) returns (response: string, fault: Option<Fault>)
      requires Current(t)
      modifies this
      ensures var p := ReadFold(t, activities, |activities|);
        trace == old(trace) + p.effects && response == p.response && fault == p.fault
      ensures Flags() == old(Flags())
    {
      response := "";
      fault := None;
      var fileSent := false;
      var loopcount := 0;
      while loopcount < |activities|
        invariant 0 <= loopcount <= |activities|
        invariant Flags() == old(Flags()) && fault.None?
        invariant var p := ReadFold(t, activities[..loopcount], |activities|);
          p.fault.None? && trace == old(trace) + p.effects && response == p.response && fileSent == p.fileSent
      {
        ghost var p := ReadFold(t, activities[..loopcount], |activities|);
        ghost var r := ActivityStep(t, activities[loopcount], loopcount, |activities|, p.response, p.fileSent);
        ReadFoldStep(t, activities, loopcount, |activities|, p, r);
        response, fileSent, fault := DispatchActivity(t, activities[loopcount], loopcount, |activities|, response, fileSent);
        EffectsAssoc(old(trace), p.effects, r.effects);
        if fault.Some? {
          ReadFoldSticks(t, activities, loopcount + 1, |activities|);
          return;
        }
        loopcount := loopcount + 1;
      }
      assert activities[..loopcount] == activities;
    }

    /**
     * ReadBotMessagesAsync: read the activity set, then dispatch the bot's
     * activities; the Chat carries the set's watermark.
     */
    method ReadBotMessagesAsync(t: Turn, conversationId: string, watermark: Option<string>,
                                outcome: Outcome<Option<ActivitySet>>) returns (r: Result<Chat, Fault>)
      requires Current(t)
      modifies this
      ensures trace == old(trace) + ReadSpec(t, conversationId, watermark, outcome).effects
      ensures r == ReadSpec(t, conversationId, watermark, outcome).result
      ensures Flags() == old(Flags())
    {
      trace := trace + [GetActivities(conversationId, watermark)];
      match outcome
      case ThrewHttp(_) => return Failure(HttpFault);
      case ThrewOther => return Failure(SystemFault);
      case Returned(reply) =>
        if reply.None? {
          return Failure(SystemFault);
        }
        var activitySet := reply.value;
        var activities := FromBot(activitySet.activities, cfg.botId);
        ghost var before := trace;
        var response, fault := DispatchActivities(t, activities);
        EffectsAssoc(old(trace), [GetActivities(conversationId, watermark)], ReadFold(t, activities, |activities|).effects);
        if fault.Some? {
          return Failure(fault.value);
        }
        return Success(Chat(response, activitySet.watermark));
    }

    /**
     * TalkToTheBot: find or start the sender's conversation, post the
     * message, read the reply (once more after a timed-out post that got
     * no reply), and record the sender's watermark.
     */
    method TalkToTheBot(c: Collaborators, from: Option<string>, m: Inbound) returns (r: Result<Chat, Fault>)
      modifies this
      ensures var run := TalkSpec(cfg, c, old(isSpeechTurn), old(testing), old(sessions), from, m);
        trace == old(trace) + run.effects && sessions == run.sessions && r == run.result
      ensures isSpeechTurn == old(isSpeechTurn) && testing == old(testing)
    {
      if from.None? {
        return Failure(SystemFault);
      }
      var user := from.value;
      var conversationId: string;
      var watermark: Option<string>;
      if user in sessions {
        var session := sessions[user];
        conversationId := session.conversationId;
        watermark := Some(session.watermark);
      } else {
        trace := trace + [StartConversation];
        match c.start
        case ThrewHttp(_) => return Failure(HttpFault);
        case ThrewOther => return Failure(SystemFault);
        case Returned(conversation) =>
          if conversation.None? {
            return Success(Chat(StartFailed, Some("")));
          }
          conversationId := conversation.value;
          watermark := None;
      }
      var built := BuildActivity(user, m);
      if built.Failure? {
        return Failure(built.error);
      }
      var activity := built.value;
      ghost var before := trace;
      r := PostAndReadAsync(c, user, conversationId, watermark, activity);
      if user !in old(sessions) {
        EffectsAssoc(old(trace), [StartConversation],
                     PostAndRead(cfg, c, isSpeechTurn, testing, old(sessions), user, conversationId, watermark, activity).effects);
      }
    }

    /** TalkToTheBot from the post on: post, announce a timeout, then read the reply. */
    method PostAndReadAsync(c: Collaborators, user: string, conversationId: string, watermark: Option<string>,
                            activity: Activity) returns (r: Result<Chat, Fault>)
      modifies this
      ensures var run := PostAndRead(cfg, c, isSpeechTurn, testing, old(sessions), user, conversationId, watermark, activity);
        trace == old(trace) + run.effects && sessions == run.sessions && r == run.result
      ensures isSpeechTurn == old(isSpeechTurn) && testing == old(testing)
    {
      var post := c.post(conversationId, activity);
      trace := trace + [PostActivity(conversationId, activity)];
      if post.ThrewOther? {
        PostAndReadThrew(cfg, c, isSpeechTurn, testing, old(sessions), user, conversationId, watermark, activity);
        return Failure(SystemFault);
      }
      var timeout := false;
      var otherError := false;
      ghost var before := [PostActivity(conversationId, activity)];
      if post.ThrewHttp? {
        if Strings.Contains(post.message, TimedOut) {
          trace := trace + [SendText(user, WaitNotice), Sleep(NoticePauseMs)];
          EffectsAssoc(old(trace), before, [SendText(user, WaitNotice), Sleep(NoticePauseMs)]);
          before := before + [SendText(user, WaitNotice), Sleep(NoticePauseMs)];
          timeout := true;
        } else {
          otherError := true;
        }
      }
      assert before == [PostActivity(conversationId, activity)]
        + (if timeout then [SendText(user, WaitNotice), Sleep(NoticePauseMs)] else []);
      assert trace == old(trace) + before;
      PostAndReadAfterPost(cfg, c, isSpeechTurn, testing, old(sessions), user, conversationId, watermark, activity,
                           timeout, otherError);
      ghost var t := Turn(cfg, isSpeechTurn, testing, user, c.synthesis);
      ghost var first := ReadSpec(t, conversationId, watermark, c.read(conversationId, watermark, 0));
      ghost var second := ReadSpec(t, conversationId, watermark, c.read(conversationId, watermark, 1));
      r := ReadRepliesAsync(c, user, conversationId, watermark, timeout, otherError, first, second);
      EffectsAssoc(old(trace), before,
                   Replies(old(sessions), user, conversationId, timeout, otherError, first, second).effects);
    }

    /** The reads of TalkToTheBot and the session write. */
    method ReadRepliesAsync(c: Collaborators, user: string, conversationId: string, watermark: Option<string>,
                            timeout: bool, otherError: bool, ghost first: Run<Chat>, ghost second: Run<Chat>)
      returns (r: Result<Chat, Fault>)
      requires first == ReadSpec(Turn(cfg, isSpeechTurn, testing, user, c.synthesis), conversationId, watermark,
                                 c.read(conversationId, watermark, 0))
      requires second == ReadSpec(Turn(cfg, isSpeechTurn, testing, user, c.synthesis), conversationId, watermark,
                                  c.read(conversationId, watermark, 1))
      modifies this
      ensures var run := Replies(old(sessions), user, conversationId, timeout, otherError, first, second);
        trace == old(trace) + run.effects && sessions == run.sessions && r == run.result
      ensures isSpeechTurn == old(isSpeechTurn) && testing == old(testing)
    {
      var t := Turn(cfg, isSpeechTurn, testing, user, c.synthesis);
      var msgerro := "";
      var chat := ReadBotMessagesAsync(t, conversationId, watermark, c.read(conversationId, watermark, 0));
      if chat.Failure? {
        return chat;
      }
      var objChat := chat.value;
      ghost var effects := first.effects;
      if timeout && objChat.response == "" {
        trace := trace + [SendText(user, AlmostThere), Sleep(NoticePauseMs)];
        chat := ReadBotMessagesAsync(t, conversationId, watermark, c.read(conversationId, watermark, 1));
        EffectsAssoc4(old(trace), first.effects, [SendText(user, AlmostThere), Sleep(NoticePauseMs)], second.effects);
        effects := (first.effects + [SendText(user, AlmostThere), Sleep(NoticePauseMs)]) + second.effects;
        if chat.Failure? {
          return chat;
        }
        objChat := chat.value;
        if objChat.response == "" {
          msgerro := ConnectionFailed;
        }
      } else if otherError {
        msgerro := Maintenance;
      }
      r := SaveSession(effects, user, conversationId, objChat, msgerro);
    }

    /** The session write: keep the sender's conversation and watermark, or answer with msgerro when there is no watermark. */
    method SaveSession(ghost effects: seq<Effect>, user: string, conversationId: string, objChat: Chat, msgerro: string)
      returns (r: Result<Chat, Fault>)
      modifies this
      ensures var run := Finish(effects, old(sessions), user, conversationId, objChat, msgerro);
        trace == old(trace) && sessions == run.sessions && r == run.result
      ensures isSpeechTurn == old(isSpeechTurn) && testing == old(testing)
    {
      if objChat.watermark.Some? && objChat.watermark.value != "" {
        sessions := sessions[user := FromSession(conversationId, objChat.watermark.value)];
        r := Success(objChat);
      } else {
        r := Success(objChat.(response := msgerro));
      }
    }

    /** A catch block's reply for a failed turn, else the Chat's response when the request is answered, else null. */
    method Reply(chat: Result<Chat, Fault>, answer: bool) returns (reply: Option<string>)
      ensures reply == ReplyOf(chat, answer)
      ensures chat.Failure? ==> reply.Some? && (reply.value == HttpFaultReply <==> chat.error.HttpFault?)
      ensures chat.Success? ==> (reply.Some? <==> answer)
    {
      if chat.Failure? {
        reply := Some(FaultReply(chat.error));
      } else if answer {
        reply := Some(chat.value.response);
      } else {
        reply := None;
      }
    }

    /**
     * ProcessPost after a voice note or audio file was fetched and
     * recognised: an accepted transcript goes to the bot as text in a
     * speech turn, anything else sends the note's stream as recognition
     * left it.
     */
    method Hear(c: Collaborators, m: GsMessage, stream: RelayCodecs.Stream, recognition: Option<Speech.Recognition>)
      returns (reply: Option<string>)
      modifies this
      ensures (Snapshot(), reply) == Listen(cfg, c, old(Snapshot()), m, stream, recognition)
    {
      if recognition.None? {
        return Some(SystemFaultReply);
      }
      var speechtotext := Speech.TranscriptOf(recognition.value);
      var chat: Result<Chat, Fault>;
      if Speech.IsAccepted(speechtotext) {
        isSpeechTurn := true;
        chat := TalkToTheBot(c, m.from, Inbound("text", Some(speechtotext), m.timestamp, None, "", RelayCodecs.NoStream));
      } else if m.voiceId.None? {
        return Some(SystemFaultReply);
      } else {
        chat := TalkToTheBot(c, m.from, Inbound(m.kind, m.text, m.timestamp, None, m.voiceId.value, stream));
      }
      reply := Reply(chat, false);
    }

    /** ProcessPost: one callback from the gateway, or a query-string test message. */
    method ProcessPost(c: Collaborators, req: Request) returns (reply: Option<string>)
      modifies this
      ensures (Snapshot(), reply) == ProcessSpec(cfg, c, old(Snapshot()), req)
    {
      isSpeechTurn := false;
      if req.QueryGet? {
        if req.text.Some? && req.text.value != "" && req.from.Some? && req.from.value != "" {
          testing := true;
          var chat := TalkToTheBot(c, req.from, Inbound("text", req.text, req.now, Some(""), "", RelayCodecs.NoStream));
          reply := Reply(chat, true);
        } else {
          reply := Some(MustPost);
        }
        return;
      }
      if req.messageObj.Missing? {
        return Some(MsgObjMissing);
      } else if req.messageObj.Undecodable? {
        return Some(SystemFaultReply);
      }
      var m := req.messageObj.message;
      if m.kind == "text" || m.kind == "image" {
        var chat := TalkToTheBot(c, m.from, Inbound(m.kind, m.text, m.timestamp, m.url, "", RelayCodecs.NoStream));
        reply := Reply(chat, true);
      } else if m.kind == "voice" {
        if m.voiceId.None? {
          return Some(SystemFaultReply);
        }
        var id := m.voiceId.value;
        var saved := RelayCodecs.SaveNote(GsClient.Fetched(c.voice(req.botName, id)));
        trace := trace + [FetchVoice(req.botName, id), Recognize(id)];
        reply := Hear(c, m, saved.1, c.recognize(saved.0, id));
      } else if m.kind == "audio" {
        var saved := RelayCodecs.SaveNote(GsClient.Fetched(c.audio(m.url)));
        trace := trace + [FetchAudio(m.url), Recognize(m.id)];
        reply := Hear(c, m, saved.1, c.recognize(saved.0, m.id));
      } else if m.kind == "event" {
        reply := Some(EventReply);
      } else {
        reply := Some(Unsupported);
      }
    }
  }
}
