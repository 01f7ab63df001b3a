/**
 * The bot adapter's outbound side (WhatsAppAdapter.cs): SendActivitiesAsync
 * sends the Message activities of a batch in order, pausing 2000 ms
 * between consecutive activities, and the update and delete operations,
 * which WhatsApp does not support. The send itself is an input: a
 * function from an activity to the id the gateway returns for it.
 */
module WhatsAppAdapter {

  import opened Wrappers
  import opened Schema

  datatype AdapterError = InvalidArgument(parameter: string) | NotSupported(message: string)

  /** What SendActivitiesAsync does, in order. */
  datatype Step = Send(activity: Activity) | Delay(ms: nat)

  const PauseMs := 2000

  /** The steps for activity k of a batch of n: its send if it is a Message, then a pause unless it is the last. */
  function StepsFor(a: Activity, k: nat, n: nat): seq<Step>
  {
    (if a.kind == Message then [Send(a)] else []) + (if k + 1 < n then [Delay(PauseMs)] else [])
  }

  /** The steps for the first |done| activities of a batch of n. */
  function StepsOf(done: seq<Activity>, n: nat): seq<Step>
  {
    if done == [] then []
    else StepsOf(done[..|done| - 1], n) + StepsFor(done[|done| - 1], |done| - 1, n)
  }

  /** The responses for the activities seen so far: the send's id for each Message. */
  function ResponsesOf(done: seq<Activity>, send: Activity -> string): seq<string>
  {
    if done == [] then []
    else
      var last := done[|done| - 1];
      ResponsesOf(done[..|done| - 1], send) + (if last.kind == Message then [send(last)] else [])
  }

  /** SendActivitiesAsync: the responses, or ArgumentException for a null batch; and the steps taken. */
  method SendActivitiesAsync(activities: Option<seq<Activity>>, send: Activity -> string)
    returns (r: Result<seq<string>, AdapterError>, steps: seq<Step>)
    ensures activities.None? ==> r == Failure(InvalidArgument("activities")) && steps == []
    ensures activities.Some? ==>
      r == Success(ResponsesOf(activities.value, send)) && steps == StepsOf(activities.value, |activities.value|)
  {
    steps := [];
    if activities.None? {
      return Failure(InvalidArgument("activities")), steps;
    }
    var batch := activities.value;
    var responses: seq<string> := [];
    var loopcount := 0;
    while loopcount < |batch|
      invariant 0 <= loopcount <= |batch|
      invariant responses == ResponsesOf(batch[..loopcount], send)
      invariant steps == StepsOf(batch[..loopcount], |batch|)
    {
      var activity := batch[loopcount];
      assert batch[..loopcount + 1][..loopcount] == batch[..loopcount];
      if activity.kind == Message {
        var res := send(activity);
        responses := responses + [res];
        steps := steps + [Send(activity)];
      }
      loopcount := loopcount + 1;
      if |batch| > loopcount {
        steps := steps + [Delay(PauseMs)];
      }
    }
    assert batch[..loopcount] == batch;
    r := Success(responses);
  }

  /** The Message activities of a batch, in order. */
  function Messages(batch: seq<Activity>): seq<Activity>
  {
    if batch == [] then []
    else if batch[0].kind == Message then [batch[0]] + Messages(batch[1..])
    else Messages(batch[1..])
  }

  lemma {:induction false} MessagesSnoc(init: seq<Activity>, a: Activity)
    ensures Messages(init + [a]) == Messages(init) + (if a.kind == Message then [a] else [])
  {
    if init != [] {
      assert (init + [a])[1..] == init[1..] + [a];
      MessagesSnoc(init[1..], a);
    } else {
      assert [a][1..] == [];
    }
  }

  /** One response per Message activity, in input order, each the id the send returned for it. */
  lemma {:induction false} ResponsesFollowMessages(batch: seq<Activity>, send: Activity -> string)
    ensures |ResponsesOf(batch, send)| == |Messages(batch)|
    ensures forall j :: 0 <= j < |Messages(batch)| ==> ResponsesOf(batch, send)[j] == send(Messages(batch)[j])
  {
    if batch != [] {
      var init, last := batch[..|batch| - 1], batch[|batch| - 1];
      ResponsesFollowMessages(init, send);
      assert batch == init + [last];
      MessagesSnoc(init, last);
    }
  }

  function CountDelays(steps: seq<Step>): nat
  {
    if steps == [] then 0 else (if steps[0].Delay? then 1 else 0) + CountDelays(steps[1..])
  }

  /** The activities sent, in the order of the steps. */
  function SentActivities(steps: seq<Step>): seq<Activity>
  {
    if steps == [] then [] else (if steps[0].Send? then [steps[0].activity] else []) + SentActivities(steps[1..])
  }

  lemma {:induction false} StepsAppend(s: seq<Step>, t: seq<Step>)
    ensures CountDelays(s + t) == CountDelays(s) + CountDelays(t)
    ensures SentActivities(s + t) == SentActivities(s) + SentActivities(t)
  {
    if s != [] {
      assert (s + t)[1..] == s[1..] + t;
      StepsAppend(s[1..], t);
    } else {
      assert s + t == t;
    }
  }

  /** The steps of one activity: at most one send, at most one pause. */
  lemma StepsForCounts(a: Activity, k: nat, n: nat)
    ensures CountDelays(StepsFor(a, k, n)) == if k + 1 < n then 1 else 0
    ensures SentActivities(StepsFor(a, k, n)) == if a.kind == Message then [a] else []
  {
    var mine := StepsFor(a, k, n);
    if a.kind == Message && k + 1 < n {
      assert mine == [Send(a), Delay(PauseMs)];
      assert mine[1..] == [Delay(PauseMs)];
      assert mine[1..][1..] == [];
      assert CountDelays(mine[1..]) == 1 && SentActivities(mine[1..]) == [];
    } else if a.kind == Message {
      assert mine == [Send(a)];
      assert mine[1..] == [];
    } else if k + 1 < n {
      assert mine == [Delay(PauseMs)];
      assert mine[1..] == [];
    } else {
      assert mine == [];
    }
  }

  /**
   * The sends are exactly the Message activities, in input order; one
   * pause follows each activity but the last, skipped ones included, so a
   * whole batch of n > 0 activities pauses n - 1 times; every pause is 2000 ms.
   */
  lemma {:induction false} PacingOf(done: seq<Activity>, n: nat)
    requires |done| <= n
    ensures SentActivities(StepsOf(done, n)) == Messages(done)
    ensures CountDelays(StepsOf(done, n)) == if |done| == n && n > 0 then n - 1 else |done|
    ensures forall k :: 0 <= k < |StepsOf(done, n)| && StepsOf(done, n)[k].Delay? ==> StepsOf(done, n)[k].ms == PauseMs
  {
    if done != [] {
      var init, last := done[..|done| - 1], done[|done| - 1];
      PacingOf(init, n);
      var mine := StepsFor(last, |done| - 1, n);
      StepsAppend(StepsOf(init, n), mine);
      StepsForCounts(last, |done| - 1, n);
      assert done == init + [last];
      MessagesSnoc(init, last);
      var all := StepsOf(done, n);
      assert all == StepsOf(init, n) + mine;
      forall k | 0 <= k < |all| && all[k].Delay?
        ensures all[k].ms == PauseMs
      {
        if k >= |StepsOf(init, n)| {
          assert all[k] == mine[k - |StepsOf(init, n)|];
        } else {
          assert all[k] == StepsOf(init, n)[k];
        }
      }
    }
  }

  /** UpdateActivityAsync always faults. */
  function UpdateActivityAsync(activity: Activity): (r: Result<string, AdapterError>)
    ensures r.Failure? && r.error.NotSupported?
  {
    Failure(NotSupported("WhatsApp does not support updating activities."))
  }

  /** DeleteActivityAsync always faults. */
  function DeleteActivityAsync(conversationId: string, activityId: string): (r: Result<(), AdapterError>)
    ensures r.Failure? && r.error.NotSupported?
  {
    Failure(NotSupported("WhatsApp does not support deleting activities."))
  }
}
