/**
  How a run's promise is settled, told from the events alone: which close it had, with
  which code, whether its deadline passed before, and what it had written until then.
*/
module RunOutcome {
  import opened Collections
  import opened OutputCapture
  import opened ProcessSupervision

  /** The child of this run closed with this code; without one it was ended by a signal. */
  ghost predicate ClosedWith(events: seq<Event>, i: nat, code: Option<int>)
  {
    exists k :: 0 <= k < |events| && IsClose(events[k], i, code)
  }

  predicate IsClose(e: Event, i: nat, code: Option<int>)
  {
    e.Close? && e.run == i && e.code == code
  }

  ghost predicate TimesOut(events: seq<Event>, i: nat)
  {
    TimeoutFires(i) in events
  }

  /** Everything the child wrote. */
  function Written(events: seq<Event>, i: nat): string
  {
    if events == [] then ""
    else
      var front, last := Written(events[..|events| - 1], i), events[|events| - 1];
      if last.Data? && last.run == i then front + last.chunk else front
  }

  /** What a close with this code is worth. */
  ghost predicate Due(events: seq<Event>, i: nat, options: Options, code: Option<int>, outcome: Outcome)
  {
    var status := if code.Some? then code.value else 1;
    var (output, limit) := (Written(events, i), OutputLimit(options.maxOutputChars));
    match outcome
    case TimedOut => TimesOut(events, i)
    case Failed => !TimesOut(events, i) && status != 0 && options.rejectOnFailure
    case TooMuchOutput => !TimesOut(events, i) && status == 0 && |output| > limit
    case Resolved(c, text) =>
      && !TimesOut(events, i) && c == status && text == Tail(output, limit)
      && (status == 0 ==> |output| <= limit) && (status != 0 ==> !options.rejectOnFailure)
    case ChildError => false
  }

  /** The outcome has its cause in the history: the child's error, or its close and what that is worth. */
  ghost predicate Caused(events: seq<Event>, i: nat, options: Options, outcome: Outcome)
  {
    if outcome.ChildError? then Error(i) in events
    else exists code :: ClosedWith(events, i, code) && Due(events, i, options, code, outcome)
  }

  /** What the variables of a run know of the history. */
  ghost predicate Knows(events: seq<Event>, i: nat, run: Run)
  {
    && (run.closeSeen <==> exists code :: ClosedWith(events, i, code))
    && (run.closedResult.Some? ==> ClosedWith(events, i, run.closedResult.value))
    && (run.timedOut <==> TimesOut(events, i))
    && Concat(run.chunks) == Written(events, i)
    && forall outcome :: outcome in run.outcomes ==> Caused(events, i, run.options, outcome)
  }

  /** An event of another run, or of the parent, changes nothing that is told of a run. */
  predicate Concerns(e: Event, i: nat)
  {
    !e.Start? && !e.ParentSignal? && e.run == i
  }

  lemma {:induction false} HistorySnoc(events: seq<Event>, e: Event, i: nat)
    ensures forall code :: ClosedWith(events + [e], i, code) <==> ClosedWith(events, i, code) || IsClose(e, i, code)
    ensures TimesOut(events + [e], i) <==> TimesOut(events, i) || e == TimeoutFires(i)
    ensures Written(events + [e], i) ==
            if e.Data? && e.run == i then Written(events, i) + e.chunk else Written(events, i)
  {
    var longer := events + [e];
    assert longer[..|longer| - 1] == events;
    forall code ensures ClosedWith(longer, i, code) <==> ClosedWith(events, i, code) || IsClose(e, i, code) {
      if ClosedWith(events, i, code) {
        var k :| 0 <= k < |events| && IsClose(events[k], i, code);
        assert IsClose(longer[k], i, code);
      }
      if IsClose(e, i, code) {
        assert longer[|events|] == e;
      }
    }
  }

  /** The fields the history is told by. */
  predicate SameRecord(before: Run, after: Run)
  {
    && after.options == before.options && after.timedOut == before.timedOut
    && after.closeSeen == before.closeSeen && after.closedResult == before.closedResult
    && after.chunks == before.chunks && after.outcomes == before.outcomes
  }

  lemma RelayStepKeepsRecords(w: World, signal: Signal, i: nat, alive: bool)
    requires i < |w.runs|
    ensures var next := Change(w, i, OnParentSignal(w.runs[i], signal, alive), SignalAttempt(signal, alive));
      |next.runs| == |w.runs| && forall k :: 0 <= k < |w.runs| ==> SameRecord(w.runs[k], next.runs[k])
  {
  }

  lemma {:induction false} RelayKeepsRecords(w: World, signal: Signal, groupsAlive: set<nat>, i: nat)
    requires i <= |w.runs|
    ensures |Relay(w, signal, groupsAlive, i).runs| == |w.runs|
    ensures forall k :: 0 <= k < |w.runs| ==> SameRecord(w.runs[k], Relay(w, signal, groupsAlive, i).runs[k])
    decreases |w.runs| - i
  {
    if i < |w.runs| {
      if w.runs[i].handlersOn {
        var alive := Alive(w.runs[i], i in groupsAlive);
        var next := Change(w, i, OnParentSignal(w.runs[i], signal, alive), SignalAttempt(signal, alive));
        RelayStepKeepsRecords(w, signal, i, alive);
        RelayKeepsRecords(next, signal, groupsAlive, i + 1);
      } else {
        RelayKeepsRecords(w, signal, groupsAlive, i + 1);
      }
    }
  }

  /** What does not concern a run leaves its record alone. */
  lemma OthersKeepRecord(w: World, e: Event, i: nat)
    requires Enabled(w, e) && i < |w.runs| && !Concerns(e, i)
    ensures i < |Step(w, e).runs| && SameRecord(w.runs[i], Step(w, e).runs[i])
  {
    if e.ParentSignal? {
      RelayKeepsRecords(w, e.signal, e.groupsAlive, 0);
    } else if !e.Start? {
      StepTouchesOneRun(w, e);
    }
  }

  /** What was caused stays caused while the child is closed and cannot time out any more. */
  lemma CausedStays(events: seq<Event>, e: Event, i: nat, options: Options, outcome: Outcome)
    requires Caused(events, i, options, outcome)
    requires outcome.ChildError? || !(e.Data? && e.run == i)
    requires outcome.ChildError? || outcome.TimedOut? || e != TimeoutFires(i)
    ensures Caused(events + [e], i, options, outcome)
  {
    HistorySnoc(events, e, i);
    if !outcome.ChildError? {
      var code :| ClosedWith(events, i, code) && Due(events, i, options, code, outcome);
      assert ClosedWith(events + [e], i, code) && Due(events + [e], i, options, code, outcome);
    }
  }

  lemma KnowsStays(events: seq<Event>, e: Event, i: nat, before: Run, after: Run)
    requires Knows(events, i, before) && SameRecord(before, after)
    requires !e.Close? || e.run != i
    requires !e.Data? || e.run != i
    requires e != TimeoutFires(i)
    ensures Knows(events + [e], i, after)
  {
    HistorySnoc(events, e, i);
    assert forall code :: ClosedWith(events + [e], i, code) <==> ClosedWith(events, i, code);
    forall outcome | outcome in after.outcomes ensures Caused(events + [e], i, after.options, outcome) {
      CausedStays(events, e, i, before.options, outcome);
    }
  }

  /** A close that settles the run gives it what is due. */
  lemma FinishCloseIsDue(events: seq<Event>, i: nat, run: Run, code: Option<int>)
    requires RunInv(run) && !run.settled && ClosedWith(events, i, code)
    requires run.timedOut <==> TimesOut(events, i)
    requires Concat(run.chunks) == Written(events, i)
    ensures forall outcome :: outcome in FinishClose(run, code).outcomes ==> Caused(events, i, run.options, outcome)
  {
    CaptureIsTail(run.chunks, MaxChars(run));
    CompleteCapture(run.chunks, MaxChars(run));
    var outcomes := FinishClose(run, code).outcomes;
    assert |outcomes| == 1 && Due(events, i, run.options, code, outcomes[0]);
  }

  lemma DataIsKnown(events: seq<Event>, i: nat, run: Run, chunk: string)
    requires Knows(events, i, run) && !run.closeSeen
    ensures Knows(events + [Data(i, chunk)], i, OnData(run, chunk))
  {
    HistorySnoc(events, Data(i, chunk), i);
    ConcatSnoc(run.chunks, chunk);
    assert forall code :: ClosedWith(events + [Data(i, chunk)], i, code) <==> ClosedWith(events, i, code);
    forall outcome | outcome in run.outcomes ensures Caused(events + [Data(i, chunk)], i, run.options, outcome) {
      CausedStays(events, Data(i, chunk), i, run.options, outcome);
    }
  }

  lemma TimeoutIsKnown(events: seq<Event>, i: nat, run: Run)
    requires RunInv(run) && Knows(events, i, run) && run.deadlineArmed
    ensures Knows(events + [TimeoutFires(i)], i, OnTimeout(run))
  {
    HistorySnoc(events, TimeoutFires(i), i);
    assert forall code :: ClosedWith(events + [TimeoutFires(i)], i, code) <==> ClosedWith(events, i, code);
  }

  lemma ErrorIsKnown(events: seq<Event>, i: nat, run: Run)
    requires RunInv(run) && Knows(events, i, run)
    ensures Knows(events + [Error(i)], i, OnError(run))
  {
    KnowsStays(events, Error(i), i, run, run);
    assert Caused(events + [Error(i)], i, run.options, ChildError);
  }

  lemma KillGraceIsKnown(events: seq<Event>, i: nat, run: Run)
    requires RunInv(run) && Knows(events, i, run) && run.killTimer != NoTimer
    ensures Knows(events + [KillGraceFires(i)], i, OnKillGrace(run))
  {
    var killed := run.(waitingForKillGrace := false, killTimer := NoTimer, sigkillSent := true);
    KnowsStays(events, KillGraceFires(i), i, run, killed);
    if run.killTimer == KillTimer && run.closedResult.Some? && !run.settled {
      FinishCloseIsDue(events + [KillGraceFires(i)], i, killed, run.closedResult.value);
    }
  }

  lemma CloseIsRecorded(events: seq<Event>, e: Event, i: nat, before: Run, after: Run)
    requires Knows(events, i, before) && e.Close? && e.run == i
    requires after.closeSeen && (after.closedResult == before.closedResult || after.closedResult == Some(e.code))
    requires after.timedOut == before.timedOut && after.chunks == before.chunks && after.options == before.options
    requires forall outcome :: outcome in after.outcomes ==> Caused(events + [e], i, after.options, outcome)
    ensures Knows(events + [e], i, after)
  {
    HistorySnoc(events, e, i);
    assert IsClose(e, i, e.code) && ClosedWith(events + [e], i, e.code);
  }

  lemma CloseCauses(events: seq<Event>, e: Event, i: nat, run: Run, groupAlive: bool)
    requires RunInv(run) && Knows(events, i, run) && e.Close? && e.run == i
    ensures forall outcome :: outcome in OnClose(run, e.code, groupAlive).outcomes ==>
              Caused(events + [e], i, run.options, outcome)
  {
    var after := OnClose(run, e.code, groupAlive);
    HistorySnoc(events, e, i);
    assert IsClose(e, i, e.code) && ClosedWith(events + [e], i, e.code);
    if after.outcomes == run.outcomes {
      forall outcome | outcome in run.outcomes ensures Caused(events + [e], i, run.options, outcome) {
        CausedStays(events, e, i, run.options, outcome);
      }
    } else {
      FinishCloseIsDue(events + [e], i, SeenClose(run, run.waitingForKillGrace), e.code);
    }
  }

  lemma CloseIsKnown(events: seq<Event>, e: Event, i: nat, run: Run, groupAlive: bool)
    requires RunInv(run) && Knows(events, i, run) && e.Close? && e.run == i
    ensures Knows(events + [e], i, OnClose(run, e.code, groupAlive))
  {
    CloseCauses(events, e, i, run, groupAlive);
    CloseIsRecorded(events, e, i, run, OnClose(run, e.code, groupAlive));
  }

  /** A run that has not been started is not spoken of. */
  ghost predicate Untold(events: seq<Event>, i: nat)
  {
    && (forall code :: !ClosedWith(events, i, code)) && !TimesOut(events, i) && Written(events, i) == ""
  }

  lemma {:induction false} NotStartedIsUntold(events: seq<Event>, i: nat)
    requires Exec(events).Some? && i >= |Exec(events).value.runs|
    ensures Untold(events, i)
  {
    if events != [] {
      var front, last := events[..|events| - 1], events[|events| - 1];
      assert events == front + [last];
      if last.ParentSignal? {
        RelayKeepsRecords(Exec(front).value, last.signal, last.groupsAlive, 0);
      } else if !last.Start? {
        StepTouchesOneRun(Exec(front).value, last);
      }
      NotStartedIsUntold(front, i);
      HistorySnoc(front, last, i);
    }
  }

  lemma {:induction false} StepIsKnown(events: seq<Event>, e: Event, i: nat)
    requires Exec(events).Some? && Enabled(Exec(events).value, e) && i < |Exec(events).value.runs|
    requires Knows(events, i, Exec(events).value.runs[i])
    ensures i < |Step(Exec(events).value, e).runs|
    ensures Knows(events + [e], i, Step(Exec(events).value, e).runs[i])
  {
    var w := Exec(events).value;
    ReachableInv(events);
    if !Concerns(e, i) {
      OthersKeepRecord(w, e, i);
      KnowsStays(events, e, i, w.runs[i], Step(w, e).runs[i]);
    } else {
      StepTouchesOneRun(w, e);
      match e
      case Data(_, chunk) => DataIsKnown(events, i, w.runs[i], chunk);
      case TimeoutFires(_) => TimeoutIsKnown(events, i, w.runs[i]);
      case KillGraceFires(_) => KillGraceIsKnown(events, i, w.runs[i]);
      case Close(_, code, groupAlive) => CloseIsKnown(events, e, i, w.runs[i], Alive(w.runs[i], groupAlive));
      case Error(_) => ErrorIsKnown(events, i, w.runs[i]);
    }
  }

  lemma {:induction false} RunsKnow(events: seq<Event>, i: nat)
    requires Exec(events).Some? && i < |Exec(events).value.runs|
    ensures Knows(events, i, Exec(events).value.runs[i])
  {
    var front, last := events[..|events| - 1], events[|events| - 1];
    assert events == front + [last];
    if i < |Exec(front).value.runs| {
      RunsKnow(front, i);
      StepIsKnown(front, last, i);
    } else {
      if last.ParentSignal? {
        RelayKeepsRecords(Exec(front).value, last.signal, last.groupsAlive, 0);
      } else if !last.Start? {
        StepTouchesOneRun(Exec(front).value, last);
      }
      NotStartedIsUntold(front, i);
      HistorySnoc(front, last, i);
    }
  }

  /** A child closes at most once. */
  lemma {:induction false} ClosesOnce(events: seq<Event>, i: nat, code1: Option<int>, code2: Option<int>)
    requires Exec(events).Some? && ClosedWith(events, i, code1) && ClosedWith(events, i, code2)
    ensures code1 == code2
  {
    var front, last := events[..|events| - 1], events[|events| - 1];
    assert events == front + [last];
    HistorySnoc(front, last, i);
    if last.Close? && last.run == i {
      RunsKnow(front, i);
    } else {
      ClosesOnce(front, i, code1, code2);
    }
  }

  /**
    A promise that was not rejected over the child's error was settled over its only close,
    and with what is due for it: late if the deadline passed, else by its code - a missing
    one counts as 1 - and by what the child had written.
  */
  lemma SettledAsDue(events: seq<Event>, i: nat, outcome: Outcome)
    requires Exec(events).Some? && i < |Exec(events).value.runs|
    requires outcome in Exec(events).value.runs[i].outcomes && outcome != ChildError
    ensures exists code :: ClosedWith(events, i, code)
    ensures forall code :: ClosedWith(events, i, code) ==>
              Due(events, i, Exec(events).value.runs[i].options, code, outcome)
  {
    RunsKnow(events, i);
    forall code1, code2 | ClosedWith(events, i, code1) && ClosedWith(events, i, code2) ensures code1 == code2 {
      ClosesOnce(events, i, code1, code2);
    }
  }

  /** Of the outcomes a close can have, exactly one is due. */
  lemma OneIsDue(events: seq<Event>, i: nat, options: Options, code: Option<int>) returns (due: Outcome)
    ensures Due(events, i, options, code, due)
    ensures forall outcome :: Due(events, i, options, code, outcome) ==> outcome == due
  {
    var status := if code.Some? then code.value else 1;
    var output, limit := Written(events, i), OutputLimit(options.maxOutputChars);
    due := if TimesOut(events, i) then TimedOut
           else if status != 0 && options.rejectOnFailure then Failed
           else if status == 0 && |output| > limit then TooMuchOutput
           else Resolved(status, Tail(output, limit));
  }

  /** No close is lost: unless a signal was relayed, it settles the run, or the kill timer will. */
  lemma {:induction false} NoCloseIsLost(events: seq<Event>, i: nat)
    requires Exec(events).Some? && i < |Exec(events).value.runs|
    requires (exists code :: ClosedWith(events, i, code)) && Exec(events).value.runs[i].signal.None?
    ensures var w := Exec(events).value;
      w.runs[i].settled || (Enabled(w, KillGraceFires(i)) && Step(w, KillGraceFires(i)).runs[i].settled)
  {
    RunsKnow(events, i);
    HeldCloseWaits(events, i);
  }

  /** A close that has not settled its run waits for the kill timer. */
  lemma {:induction false} HeldCloseWaits(events: seq<Event>, i: nat)
    requires Exec(events).Some? && i < |Exec(events).value.runs|
    ensures var run := Exec(events).value.runs[i];
      && (run.closeSeen && run.signal.None? && !run.settled ==> run.closedResult.Some? && run.killTimer == KillTimer)
      && (run.signal.None? && run.waitingForKillGrace && !run.settled ==> run.killTimer == KillTimer)
  {
    var front, last := events[..|events| - 1], events[|events| - 1];
    var w := Exec(front).value;
    ReachableInv(front);
    if i < |w.runs| {
      HeldCloseWaits(front, i);
      if last.ParentSignal? {
        RelayGivesSignal(w, last.signal, last.groupsAlive, 0, i);
      } else if !last.Start? {
        StepTouchesOneRun(w, last);
      }
    } else if last.ParentSignal? {
      RelayKeepsRecords(w, last.signal, last.groupsAlive, 0);
    } else if !last.Start? {
      StepTouchesOneRun(w, last);
    }
  }

  /** A relay leaves a run alone or gives it a signal. */
  lemma {:induction false} RelayGivesSignal(w: World, signal: Signal, groupsAlive: set<nat>, from: nat, i: nat)
    requires from <= |w.runs| && i < |w.runs|
    ensures |Relay(w, signal, groupsAlive, from).runs| == |w.runs|
    ensures var after := Relay(w, signal, groupsAlive, from).runs[i];
      after == w.runs[i] || after.signal.Some?
    decreases |w.runs| - from
  {
    if from < |w.runs| {
      if w.runs[from].handlersOn {
        var alive := Alive(w.runs[from], from in groupsAlive);
        var next := Change(w, from, OnParentSignal(w.runs[from], signal, alive), SignalAttempt(signal, alive));
        RelayGivesSignal(next, signal, groupsAlive, from + 1, i);
      } else {
        RelayGivesSignal(w, signal, groupsAlive, from + 1, i);
      }
    }
  }

  /**
    A run without a process group counts its group as dead: no close of its child is held
    back, and no timer is set on behalf of a relayed signal.
  */
  lemma {:induction false} WithoutGroup(events: seq<Event>, i: nat)
    requires Exec(events).Some? && i < |Exec(events).value.runs|
    requires !Exec(events).value.runs[i].options.useProcessGroup
    ensures var run := Exec(events).value.runs[i];
      && run.closedResult.None? && !run.killTimer.KillAndReraiseTimer?
      && (run.closeSeen && run.signal.None? ==> run.settled)
      && (run.signal.Some? ==> run.done)
  {
    HeldCloseWaits(events, i);
    NothingIsHeld(events, i);
    ReachableInv(events);
    assert RunInv(Exec(events).value.runs[i]);
  }

  predicate HoldsNothing(run: Run)
  {
    !run.options.useProcessGroup ==> run.closedResult.None? && !run.killTimer.KillAndReraiseTimer?
  }

  lemma {:induction false} NothingIsHeld(events: seq<Event>, i: nat)
    requires Exec(events).Some? && i < |Exec(events).value.runs|
    ensures HoldsNothing(Exec(events).value.runs[i])
  {
    var front, last := events[..|events| - 1], events[|events| - 1];
    var w := Exec(front).value;
    if i < |w.runs| {
      NothingIsHeld(front, i);
    }
    StepHoldsNothing(w, last, i);
  }

  lemma StepHoldsNothing(w: World, e: Event, i: nat)
    requires Enabled(w, e) && i < |Step(w, e).runs| && (i < |w.runs| ==> HoldsNothing(w.runs[i]))
    ensures HoldsNothing(Step(w, e).runs[i])
  {
    if e.ParentSignal? {
      RelayHoldsNothing(w, e.signal, e.groupsAlive, 0, i);
    } else if !e.Start? {
      StepTouchesOneRun(w, e);
      if e.run == i {
        TouchHoldsNothing(w, e);
      }
    }
  }

  lemma {:induction false} SettleHoldsNothing(run: Run, outcome: Outcome)
    requires HoldsNothing(run)
    ensures HoldsNothing(Settle(run, outcome))
  {
  }

  lemma {:induction false} CloseHoldsNothing(run: Run, code: Option<int>, groupAlive: bool)
    requires HoldsNothing(run) && (groupAlive ==> run.options.useProcessGroup)
    ensures HoldsNothing(OnClose(run, code, groupAlive))
  {
    if run.signal.None? && !(run.waitingForKillGrace && groupAlive) {
      var seen := SeenClose(run, run.waitingForKillGrace);
      SettleHoldsNothing(seen, ExitOutcome(seen, code));
    } else {
      HeldHoldsNothing(run, code, groupAlive);
    }
  }

  lemma {:induction false} HeldHoldsNothing(run: Run, code: Option<int>, groupAlive: bool)
    requires HoldsNothing(run) && (groupAlive ==> run.options.useProcessGroup)
    requires run.signal.Some? || (run.waitingForKillGrace && groupAlive)
    ensures HoldsNothing(OnClose(run, code, groupAlive))
  {
  }

  lemma {:induction false} KillGraceHoldsNothing(run: Run)
    requires HoldsNothing(run) && run.killTimer != NoTimer
    ensures HoldsNothing(OnKillGrace(run))
  {
    var killed := run.(waitingForKillGrace := false, killTimer := NoTimer, sigkillSent := true);
    if run.closedResult.Some? {
      SettleHoldsNothing(killed, ExitOutcome(killed, run.closedResult.value));
    }
  }

  lemma {:induction false} TouchHoldsNothing(w: World, e: Event)
    requires Enabled(w, e) && !e.Start? && !e.ParentSignal? && HoldsNothing(w.runs[e.run])
    ensures HoldsNothing(Touched(w, e))
  {
    match e
    case Data(i, chunk) =>
    case TimeoutFires(i) =>
    case KillGraceFires(i) => KillGraceHoldsNothing(w.runs[i]);
    case Close(i, code, groupAlive) => CloseHoldsNothing(w.runs[i], code, Alive(w.runs[i], groupAlive));
    case Error(i) =>
  }

  lemma {:induction false} RelayHoldsNothing(w: World, signal: Signal, groupsAlive: set<nat>, from: nat, i: nat)
    requires from <= |w.runs| && (i < |w.runs| ==> HoldsNothing(w.runs[i]))
    ensures var after := Relay(w, signal, groupsAlive, from);
      |after.runs| == |w.runs| && (i < |w.runs| ==> HoldsNothing(after.runs[i]))
    decreases |w.runs| - from
  {
    if from < |w.runs| {
      if w.runs[from].handlersOn {
        var alive := Alive(w.runs[from], from in groupsAlive);
        RelayHoldsNothing(Change(w, from, OnParentSignal(w.runs[from], signal, alive), SignalAttempt(signal, alive)),
                          signal, groupsAlive, from + 1, i);
      } else {
        RelayHoldsNothing(w, signal, groupsAlive, from + 1, i);
      }
    }
  }

  /** The deadline of a run is set until it passes or the run is settled. */
  lemma {:induction false} DeadlineStands(events: seq<Event>, i: nat)
    requires Exec(events).Some? && i < |Exec(events).value.runs|
    ensures var run := Exec(events).value.runs[i];
      run.deadlineArmed <==> !run.settled && !TimesOut(events, i)
  {
    RunsKnow(events, i);
    DeadlineFollows(events, i);
  }

  lemma {:induction false} DeadlineFollows(events: seq<Event>, i: nat)
    requires Exec(events).Some? && i < |Exec(events).value.runs|
    ensures var run := Exec(events).value.runs[i];
      run.deadlineArmed <==> !run.settled && !run.timedOut
  {
    var front, last := events[..|events| - 1], events[|events| - 1];
    var w := Exec(front).value;
    ReachableInv(front);
    if i < |w.runs| {
      DeadlineFollows(front, i);
    }
    DeadlineStep(w, last, i);
  }

  lemma DeadlineStep(w: World, e: Event, i: nat)
    requires WorldInv(w) && Enabled(w, e) && i < |Step(w, e).runs|
    requires i < |w.runs| ==> (w.runs[i].deadlineArmed <==> !w.runs[i].settled && !w.runs[i].timedOut)
    ensures var run := Step(w, e).runs[i];
      run.deadlineArmed <==> !run.settled && !run.timedOut
  {
    if e.ParentSignal? {
      RelayKeepsDeadlines(w, e.signal, e.groupsAlive, 0);
    } else if !e.Start? {
      StepTouchesOneRun(w, e);
      if e.run == i && (e.Close? || e.KillGraceFires?) {
        assert RunInv(w.runs[i]);
      }
    }
  }

  lemma {:induction false} RelayKeepsDeadlines(w: World, signal: Signal, groupsAlive: set<nat>, i: nat)
    requires i <= |w.runs|
    ensures var after := Relay(w, signal, groupsAlive, i);
      && |after.runs| == |w.runs|
      && forall k :: 0 <= k < |w.runs| ==>
           && after.runs[k].deadlineArmed == w.runs[k].deadlineArmed
           && after.runs[k].settled == w.runs[k].settled && after.runs[k].timedOut == w.runs[k].timedOut
    decreases |w.runs| - i
  {
    if i < |w.runs| {
      if w.runs[i].handlersOn {
        var alive := Alive(w.runs[i], i in groupsAlive);
        RelayKeepsDeadlines(Change(w, i, OnParentSignal(w.runs[i], signal, alive), SignalAttempt(signal, alive)),
                            signal, groupsAlive, i + 1);
      } else {
        RelayKeepsDeadlines(w, signal, groupsAlive, i + 1);
      }
    }
  }
}
