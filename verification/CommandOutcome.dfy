/**
  What a command's promise is called with, told from the events alone: what ended the
  command first, whether a signal came before, and how the closing of its log went.
*/
module CommandOutcome {
  import opened Collections
  import opened SignalForwarding

  /** The command is over: its child closed or failed, or it was given up on after its timeout. */
  predicate Ends(e: Event, i: nat)
  {
    || (e.Close? && e.child == i)
    || (e.Error? && e.child == i)
    || (e.KillWaitFires? && e.child == i)
  }

  /** The k-th event is the first that ends the command. */
  ghost predicate EndsAt(events: seq<Event>, i: nat, k: nat)
  {
    k < |events| && Ends(events[k], i) && forall j :: 0 <= j < k ==> !Ends(events[j], i)
  }

  ghost predicate TimesOut(events: seq<Event>, i: nat)
  {
    TimeoutFires(i) in events
  }

  /** What the promise of a command that ended at this event is called with, once its log is closed. */
  ghost predicate Due(events: seq<Event>, i: nat, check: bool, k: nat, failed: bool, calls: seq<Delivery>)
    requires k < |events|
  {
    if failed then calls == [Rejected]
    else if !events[k].Close? then calls == [Rejected]
    else if !NoSignal(events[..k]) then calls == []
    else
      var status := if events[k].code.Some? then events[k].code.value else 1;
      if TimesOut(events, i) || (check && status != 0) then calls == [Rejected]
      else calls == [Resolved(status)]
  }

  /** The callback a command waits with for its log to be closed. */
  ghost predicate Waits(events: seq<Event>, k: nat, callback: Callback)
    requires k < |events|
  {
    match events[k]
    case Close(_, code) =>
      callback == if !NoSignal(events[..k]) then ExitWhenDone
                  else DeliverResult(if code.Some? then code.value else 1)
    case Error(_) => callback == DeliverError
    case _ => callback == DeliverUncleanTimeout
  }

  ghost predicate LogIsClosed(events: seq<Event>, i: nat)
  {
    LogClosed(i, false) in events || LogClosed(i, true) in events
  }

  /** What the variables of a command know of the history. */
  ghost predicate Knows(events: seq<Event>, i: nat, c: Child)
    requires c.kind.Command?
  {
    && (c.timedOut <==> TimesOut(events, i))
    && (c.settled <==> exists k: nat :: EndsAt(events, i, k))
    && (c.callback.Some? ==> !LogIsClosed(events, i))
    && (!c.settled ==> c.callback.None? && c.delivered == [] && !LogIsClosed(events, i))
    && forall k: nat :: EndsAt(events, i, k) ==> FollowsEnd(events, i, c, k)
  }

  /** The command waits as it should after this end, or its promise was called with what is due. */
  ghost predicate FollowsEnd(events: seq<Event>, i: nat, c: Child, k: nat)
    requires c.kind.Command? && k < |events|
  {
    if c.callback.Some? then c.delivered == [] && Waits(events, k, c.callback.value)
    else exists failed :: LogClosed(i, failed) in events && !(LogClosed(i, !failed) in events)
                          && Due(events, i, c.kind.check, k, failed, c.delivered)
  }

  lemma {:induction false} HistorySnoc(events: seq<Event>, e: Event, i: nat)
    ensures TimesOut(events + [e], i) <==> TimesOut(events, i) || e == TimeoutFires(i)
    ensures forall failed :: LogClosed(i, failed) in events + [e] <==>
              LogClosed(i, failed) in events || e == LogClosed(i, failed)
    ensures forall k: nat :: k < |events| ==> (events + [e])[k] == events[k] && (events + [e])[..k] == events[..k]
    ensures forall k: nat :: k < |events| ==> (EndsAt(events + [e], i, k) <==> EndsAt(events, i, k))
    ensures EndsAt(events + [e], i, |events|) <==> Ends(e, i) && forall k: nat :: !EndsAt(events, i, k)
  {
    var longer := events + [e];
    assert forall j :: 0 <= j < |events| ==> longer[j] == events[j];
    forall j | 0 <= j < |events| && Ends(events[j], i) ensures exists k: nat :: EndsAt(events, i, k) {
      var k := FirstEnd(events, i, j);
    }
  }

  lemma {:induction false} FirstEnd(events: seq<Event>, i: nat, j: nat) returns (k: nat)
    requires j < |events| && Ends(events[j], i)
    ensures EndsAt(events, i, k)
  {
    k := 0;
    while !Ends(events[k], i)
      invariant k <= j && forall l :: 0 <= l < k ==> !Ends(events[l], i)
      decreases j - k
    {
      k := k + 1;
    }
  }

  /** The fields the history is told by. */
  predicate SameRecord(before: Child, after: Child)
  {
    && after.kind == before.kind && after.timedOut == before.timedOut && after.settled == before.settled
    && after.callback == before.callback && after.delivered == before.delivered
  }

  predicate Concerns(e: Event, i: nat)
  {
    Ends(e, i) || e == TimeoutFires(i) || (e.LogClosed? && e.child == i)
  }

  lemma OthersKeepRecord(w: World, e: Event, i: nat)
    requires WorldInv(w) && Enabled(w, e) && i < |w.children| && !Concerns(e, i)
    ensures i < |Step(w, e).children| && SameRecord(w.children[i], Step(w, e).children[i])
  {
  }

  /** Another event, or a further end of a command that is over already. */
  lemma KnowsStays(events: seq<Event>, e: Event, i: nat, before: Child, after: Child)
    requires before.kind.Command? && Knows(events, i, before) && SameRecord(before, after)
    requires Concerns(e, i) ==> Ends(e, i) && before.settled
    ensures Knows(events + [e], i, after)
  {
    HistorySnoc(events, e, i);
    EndsStay(events, e, i);
    assert before.settled <==> exists k: nat :: EndsAt(events + [e], i, k);
    forall k: nat | EndsAt(events + [e], i, k) ensures FollowsEnd(events + [e], i, after, k) {
      EndStaysFollowed(events, e, i, before, after, k);
    }
  }

  lemma EndStaysFollowed(events: seq<Event>, e: Event, i: nat, before: Child, after: Child, k: nat)
    requires before.kind.Command? && SameRecord(before, after) && k < |events|
    requires FollowsEnd(events, i, before, k) && (Concerns(e, i) ==> Ends(e, i))
    ensures FollowsEnd(events + [e], i, after, k)
  {
    HistorySnoc(events, e, i);
    if before.callback.None? {
      var failed :| LogClosed(i, failed) in events && !(LogClosed(i, !failed) in events)
                    && Due(events, i, before.kind.check, k, failed, before.delivered);
      assert LogClosed(i, failed) in events + [e] && !(LogClosed(i, !failed) in events + [e]);
    }
  }

  /** A further end, or an event of another kind, does not change which end was the first. */
  lemma EndsStay(events: seq<Event>, e: Event, i: nat)
    requires Ends(e, i) ==> exists k: nat :: EndsAt(events, i, k)
    ensures forall k: nat :: EndsAt(events + [e], i, k) <==> EndsAt(events, i, k)
  {
    HistorySnoc(events, e, i);
    forall k: nat | EndsAt(events + [e], i, k) ensures EndsAt(events, i, k) {
      assert k <= |events|;
    }
  }

  lemma TimeoutIsKnown(events: seq<Event>, i: nat, c: Child)
    requires c.kind.Command? && ChildInv(c) && Knows(events, i, c) && c.timerArmed
    ensures Knows(events + [TimeoutFires(i)], i, OnTimeout(c))
  {
    HistorySnoc(events, TimeoutFires(i), i);
    forall k: nat | EndsAt(events + [TimeoutFires(i)], i, k) ensures EndsAt(events, i, k) {
      assert k <= |events|;
    }
  }

  /** The first end: from now on the command waits for its log. */
  lemma EndIsKnown(events: seq<Event>, e: Event, i: nat, c: Child, after: Child, callback: Callback)
    requires c.kind.Command? && ChildInv(c) && Knows(events, i, c) && !c.settled && Ends(e, i)
    requires after.kind == c.kind && after.timedOut == c.timedOut && after.settled
    requires after.callback == Some(callback) && after.delivered == c.delivered
    requires Waits(events + [e], |events|, callback)
    ensures Knows(events + [e], i, after)
  {
    HistorySnoc(events, e, i);
    assert EndsAt(events + [e], i, |events|);
    forall k: nat | EndsAt(events + [e], i, k) ensures k == |events| {
      assert k <= |events|;
    }
  }

  lemma LogIsKnown(events: seq<Event>, i: nat, c: Child, failed: bool)
    requires c.kind.Command? && ChildInv(c) && Knows(events, i, c) && c.callback.Some?
    ensures Knows(events + [LogClosed(i, failed)], i, OnLogClosed(c, failed))
  {
    var e, after := LogClosed(i, failed), OnLogClosed(c, failed);
    HistorySnoc(events, e, i);
    assert c.settled;
    var k: nat :| EndsAt(events, i, k);
    assert EndsAt(events + [e], i, k);
    forall k: nat | EndsAt(events + [e], i, k)
      ensures Due(events + [e], i, c.kind.check, k, failed, after.delivered)
    {
      assert k <= |events|;
      assert EndsAt(events, i, k) && Waits(events, k, c.callback.value);
    }
  }

  /** A new command, whose child no event has spoken of. */
  ghost predicate Untold(events: seq<Event>, i: nat)
  {
    && !TimesOut(events, i) && !LogIsClosed(events, i) && forall e :: e in events ==> !Ends(e, i)
  }

  lemma {:induction false} NotStartedIsUntold(events: seq<Event>, i: nat)
    requires Exec(events).Some? && i >= |Exec(events).value.children|
    ensures Untold(events, i)
  {
    if events != [] {
      var front, last := events[..|events| - 1], events[|events| - 1];
      assert events == front + [last];
      assert |Exec(front).value.children| <= |Exec(events).value.children|;
      NotStartedIsUntold(front, i);
    }
  }

  lemma {:induction false} StepIsKnown(events: seq<Event>, e: Event, i: nat)
    requires Exec(events).Some? && Enabled(Exec(events).value, e) && i < |Exec(events).value.children|
    requires Exec(events).value.children[i].kind.Command? && Knows(events, i, Exec(events).value.children[i])
    requires WorldInv(Exec(events).value)
    ensures i < |Step(Exec(events).value, e).children|
    ensures Step(Exec(events).value, e).children[i].kind == Exec(events).value.children[i].kind
    ensures Knows(events + [e], i, Step(Exec(events).value, e).children[i])
  {
    var w := Exec(events).value;
    var before, after := w.children[i], Step(w, e).children[i];
    SignalIsRecorded(events);
    KindStays(w, e, i);
    if !Concerns(e, i) {
      OthersKeepRecord(w, e, i);
      KnowsStays(events, e, i, before, after);
    } else if Ends(e, i) {
      EndStepIsKnown(events, e, i, w);
    } else {
      TouchedChild(w, e);
      if e == TimeoutFires(i) {
        TimeoutIsKnown(events, i, before);
      } else {
        LogIsKnown(events, i, before, e.failed);
      }
    }
  }

  lemma TouchedChild(w: World, e: Event)
    requires WorldInv(w) && Enabled(w, e) && (e.TimeoutFires? || e.LogClosed?)
    ensures ChildInv(w.children[e.child])
    ensures Step(w, e).children[e.child] ==
            if e.LogClosed? then OnLogClosed(w.children[e.child], e.failed) else OnTimeout(w.children[e.child])
  {
  }

  lemma EndStepIsKnown(events: seq<Event>, e: Event, i: nat, w: World)
    requires WorldInv(w) && Enabled(w, e) && Ends(e, i)
    requires w.children[i].kind.Command? && Knows(events, i, w.children[i])
    requires w.exitCode.Some? <==> !NoSignal(events)
    ensures Knows(events + [e], i, Step(w, e).children[i])
  {
    var before, after := w.children[i], Step(w, e).children[i];
    assert (events + [e])[..|events|] == events;
    if before.settled {
      KnowsStays(events, e, i, before, after);
    } else {
      EndIsKnown(events, e, i, before, after, after.callback.value);
    }
  }

  lemma {:induction false} CommandsKnow(events: seq<Event>, i: nat)
    requires Exec(events).Some? && i < |Exec(events).value.children|
    requires Exec(events).value.children[i].kind.Command?
    ensures Knows(events, i, Exec(events).value.children[i])
  {
    var front, last := events[..|events| - 1], events[|events| - 1];
    var w := Exec(front).value;
    assert events == front + [last];
    ReachableInv(front);
    if i < |w.children| {
      KindStays(w, last, i);
      CommandsKnow(front, i);
      StepIsKnown(front, last, i);
    } else {
      NotStartedIsUntold(front, i);
    }
  }

  lemma KindStays(w: World, e: Event, i: nat)
    requires WorldInv(w) && Enabled(w, e) && i < |w.children|
    ensures i < |Step(w, e).children| && Step(w, e).children[i].kind == w.children[i].kind
  {
  }

  /**
    A command's promise is called over what ended the command first, and with what is due
    for that; it is not called before, and with a forwarded signal it may never be.
  */
  lemma CalledAsDue(events: seq<Event>, i: nat)
    requires Exec(events).Some? && i < |Exec(events).value.children|
    requires Exec(events).value.children[i].kind.Command?
    ensures var c := Exec(events).value.children[i];
      && (!LogIsClosed(events, i) ==> c.delivered == [])
      && (LogIsClosed(events, i) ==> exists k: nat, failed ::
           EndsAt(events, i, k) && LogClosed(i, failed) in events && !(LogClosed(i, !failed) in events)
           && Due(events, i, c.kind.check, k, failed, c.delivered))
  {
    CommandsKnow(events, i);
    ReachableInv(events);
    var c := Exec(events).value.children[i];
    if c.settled {
      var k: nat :| EndsAt(events, i, k);
    }
  }

  /** While a command runs, the timer of its time limit is set until it fires, and the last wait from then on. */
  ghost predicate TimersRun(c: Child)
  {
    c.kind.Command? ==>
      && (c.timerArmed <==> c.kind.hasTimeout && !c.timedOut && !c.settled)
      && (c.killWaitArmed <==> c.timedOut && !c.settled)
  }

  lemma {:induction false} TimersAlwaysRun(events: seq<Event>, i: nat)
    requires Exec(events).Some? && i < |Exec(events).value.children|
    ensures TimersRun(Exec(events).value.children[i])
  {
    var front, last := events[..|events| - 1], events[|events| - 1];
    ReachableInv(front);
    if i < |Exec(front).value.children| {
      TimersAlwaysRun(front, i);
      StepKeepsTimers(Exec(front).value, last, i);
    }
  }

  lemma StepKeepsTimers(w: World, e: Event, i: nat)
    requires WorldInv(w) && Enabled(w, e) && i < |w.children| && TimersRun(w.children[i])
    ensures i < |Step(w, e).children| && TimersRun(Step(w, e).children[i])
  {
  }

  // ----- who is sent SIGKILL -----

  predicate LeavesAt(events: seq<Event>, i: nat, k: nat)
  {
    && k < |events|
    && ((events[k].Close? && events[k].child == i) || (events[k].Error? && events[k].child == i))
    && !NoSignal(events[..k])
  }

  /** The command's child closed or failed after a signal. */
  ghost predicate LeavesLate(events: seq<Event>, i: nat)
  {
    exists k: nat :: LeavesAt(events, i, k)
  }

  lemma {:induction false} LeavesLateSnoc(events: seq<Event>, e: Event, i: nat)
    ensures LeavesLate(events + [e], i) <==>
            LeavesLate(events, i)
            || (((e.Close? && e.child == i) || (e.Error? && e.child == i)) && !NoSignal(events))
  {
    var longer := events + [e];
    assert longer[..|events|] == events;
    forall k: nat | k < |events| ensures LeavesAt(longer, i, k) <==> LeavesAt(events, i, k) {
      assert longer[..k] == events[..k];
    }
    if LeavesLate(longer, i) {
      var k: nat :| LeavesAt(longer, i, k);
      assert k <= |events|;
    }
    if ((e.Close? && e.child == i) || (e.Error? && e.child == i)) && !NoSignal(events) {
      assert LeavesAt(longer, i, |events|);
    }
    if LeavesLate(events, i) {
      var k: nat :| LeavesAt(events, i, k);
      assert LeavesAt(longer, i, k);
    }
  }

  ghost predicate ForcedOut(events: seq<Event>, i: nat)
    requires Exec(events).Some?
  {
    ForceTimerFires in events && i in Exec(events).value.firstTrees
  }

  lemma {:induction false} ForceEndsAll(events: seq<Event>)
    requires Exec(events).Some? && Exec(events).value.exit.None?
    ensures ForceTimerFires !in events
  {
    if events != [] {
      var front, last := events[..|events| - 1], events[|events| - 1];
      assert events == front + [last];
      ReachableInv(front);
      ForceEndsAll(front);
    }
  }

  /**
    A command's group has been sent SIGKILL exactly if it timed out, closed or failed after
    a signal, or was registered at the first signal when the force timer fired.
  */
  lemma {:induction false} KilledExactlyWhen(events: seq<Event>, i: nat)
    requires Exec(events).Some? && i < |Exec(events).value.children|
    requires Exec(events).value.children[i].kind.Command?
    ensures Exec(events).value.children[i].killed <==>
            TimesOut(events, i) || LeavesLate(events, i) || ForcedOut(events, i)
  {
    var front, last := events[..|events| - 1], events[|events| - 1];
    var w := Exec(front).value;
    assert events == front + [last];
    ReachableInv(front);
    ForceEndsAll(front);
    HistorySnoc(front, last, i);
    LeavesLateSnoc(front, last, i);
    SignalIsRecorded(front);
    if i < |w.children| {
      KindStays(w, last, i);
      KilledExactlyWhen(front, i);
      FirstSignalDecides(w, last);
      KilledStep(w, last, i);
    } else {
      NotStartedIsUntold(front, i);
      UntoldNeverLeft(front, i);
    }
  }

  lemma UntoldNeverLeft(events: seq<Event>, i: nat)
    requires Untold(events, i)
    ensures !LeavesLate(events, i)
  {
    if LeavesLate(events, i) {
      var k: nat :| LeavesAt(events, i, k);
      assert events[k] in events && Ends(events[k], i);
      assert false;
    }
  }

  lemma KilledStep(w: World, e: Event, i: nat)
    requires WorldInv(w) && Enabled(w, e) && i < |w.children| && w.children[i].kind.Command?
    ensures i < |Step(w, e).children|
    ensures Step(w, e).children[i].killed <==>
            || w.children[i].killed || e == TimeoutFires(i) || (e.ForceTimerFires? && i in w.firstTrees)
            || (((e.Close? && e.child == i) || (e.Error? && e.child == i)) && w.firstSignal.Some?)
  {
  }
}
