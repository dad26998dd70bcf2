/**
  Whether the parent dies of the signal it relayed. The registered runs attempt to raise
  it again as they end; when the last attempt comes too early the parent survives.
*/
module SignalReraise {
  import opened Collections
  import opened ProcessSupervision

  predicate AnyRegistered(w: World)
  {
    exists i :: 0 <= i < |w.runs| && w.runs[i].registered
  }

  /** The run waits for the parent to die and will not attempt to raise the signal any more. */
  predicate Spent(run: Run)
  {
    run.registered ==> run.signal.Some? && run.done && run.closeSeen && !run.killTimer.KillAndReraiseTimer?
  }

  /** Some run waits for the parent to die, nobody has raised the signal, and no attempt is left. */
  predicate Stranded(w: World)
  {
    AnyRegistered(w) && w.reraised == [] && forall i :: 0 <= i < |w.runs| ==> Spent(w.runs[i])
  }

  /** An event of the runs already started: neither a new run nor another signal. */
  predicate Quiet(e: Event)
  {
    !e.Start? && !e.ParentSignal?
  }

  // ----- the events that strand the parent -----

  /** The event settles run i, which never saw a signal, and so takes it out of the registry. */
  predicate Leaves(w: World, e: Event, i: nat)
    requires Enabled(w, e) && i < |w.runs|
  {
    && w.runs[i].registered && w.runs[i].signal.None?
    && match e
       case Error(k) => k == i
       case KillGraceFires(k) => k == i && w.runs[i].killTimer == KillTimer && w.runs[i].closedResult.Some?
       case Close(k, _, groupAlive) => k == i && !(w.runs[i].waitingForKillGrace && Alive(w.runs[i], groupAlive))
       case _ => false
  }

  predicate OtherRegistered(w: World, i: nat)
  {
    exists k :: 0 <= k < |w.runs| && k != i && w.runs[k].registered
  }

  predicate OthersSpent(w: World, i: nat)
  {
    forall k :: 0 <= k < |w.runs| && k != i ==> Spent(w.runs[k])
  }

  /** The child of a run that is done closes, but its group still answers: no attempt is made. */
  predicate ClosesAlive(w: World, e: Event, i: nat)
    requires i < |w.runs|
  {
    && e.Close? && e.run == i && Alive(w.runs[i], e.groupAlive)
    && w.runs[i].signal.Some? && w.runs[i].done && !w.runs[i].killTimer.KillAndReraiseTimer?
  }

  /** Run i was the last one to matter, and this event is its last. */
  predicate Strands(w: World, e: Event, i: nat)
    requires Enabled(w, e) && i < |w.runs|
  {
    OthersSpent(w, i) && ((Leaves(w, e, i) && OtherRegistered(w, i)) || ClosesAlive(w, e, i))
  }

  /** All registered runs wait for the parent to die, there are some, and nobody has raised the signal. */
  predicate AllWait(w: World)
  {
    AnyRegistered(w) && AllReady(w) && w.reraised == []
  }

  lemma {:induction false} RelayKeepsSomeoneBusy(w: World, signal: Signal, groupsAlive: set<nat>, i: nat)
    requires WorldInv(w) && i <= |w.runs| && !AllWait(w)
    ensures !AllWait(Relay(w, signal, groupsAlive, i))
    decreases |w.runs| - i
  {
    if i < |w.runs| {
      if w.runs[i].handlersOn {
        var alive := Alive(w.runs[i], i in groupsAlive);
        var next := Change(w, i, OnParentSignal(w.runs[i], signal, alive), SignalAttempt(signal, alive));
        SignalKeepsInv(w.runs[i], signal, alive);
        if alive {
          assert !ReadyToDie(next.runs[i]);
        }
        RelayKeepsSomeoneBusy(next, signal, groupsAlive, i + 1);
      } else {
        RelayKeepsSomeoneBusy(w, signal, groupsAlive, i + 1);
      }
    }
  }

  lemma RelayDoesNotStrand(w: World, signal: Signal, groupsAlive: set<nat>)
    requires WorldInv(w) && !Stranded(w)
    ensures !Stranded(Relay(w, signal, groupsAlive, 0))
  {
    if AllReady(w) {
      RelayWithoutHandlers(w, signal, groupsAlive, 0);
    } else {
      RelayKeepsSomeoneBusy(w, signal, groupsAlive, 0);
    }
  }

  /** The signal an event's handler attempts to raise, if it does. */
  function AttemptOf(w: World, e: Event): Option<Signal>
    requires Enabled(w, e) && Quiet(e)
  {
    match e
    case KillGraceFires(i) => KillGraceAttempt(w.runs[i])
    case Close(i, _, groupAlive) => CloseAttempt(w.runs[i], Alive(w.runs[i], groupAlive))
    case _ => None
  }

  lemma BecomesSpent(w: World, e: Event)
    requires Enabled(w, e) && Quiet(e) && RunInv(w.runs[e.run])
    requires !Spent(w.runs[e.run]) && Spent(Touched(w, e))
    ensures Leaves(w, e, e.run) || ClosesAlive(w, e, e.run) || AttemptOf(w, e).Some?
  {
    TouchContinues(w, e);
  }

  lemma StrandingRun(w: World, e: Event)
    requires WorldInv(w) && Enabled(w, e) && Quiet(e) && !Stranded(w) && Stranded(Step(w, e))
    ensures w.reraised == [] && Strands(w, e, e.run)
  {
    var after := Step(w, e);
    StepTouchesOneRun(w, e);
    TouchContinues(w, e);
    forall k | 0 <= k < |w.runs| && k != e.run ensures Spent(w.runs[k]) {
      assert Spent(after.runs[k]);
    }
    assert Spent(after.runs[e.run]);
    var other :| 0 <= other < |after.runs| && after.runs[other].registered;
    assert w.runs[other].registered;
    assert AllReady(after);
    BecomesSpent(w, e);
  }

  lemma StrandsStrand(w: World, e: Event, i: nat)
    requires WorldInv(w) && Enabled(w, e) && w.reraised == [] && i < |w.runs| && Strands(w, e, i)
    ensures Stranded(Step(w, e))
  {
    var after := Step(w, e);
    StepTouchesOneRun(w, e);
    assert RunInv(w.runs[i]);
    if Leaves(w, e, i) {
      var k :| 0 <= k < |w.runs| && k != i && w.runs[k].registered;
      assert after.runs[k].registered;
    } else {
      assert after.runs[i].registered;
    }
  }

  /**
    The events that strand the parent: the last run that never saw the signal leaves the
    registry, or the child of the last run to matter closes while its group is alive.
  */
  lemma StrandsExactlyWhen(w: World, e: Event)
    requires WorldInv(w) && Enabled(w, e) && !Stranded(w)
    ensures Stranded(Step(w, e)) <==> w.reraised == [] && exists i :: 0 <= i < |w.runs| && Strands(w, e, i)
  {
    if e.ParentSignal? {
      RelayDoesNotStrand(w, e.signal, e.groupsAlive);
    } else if e.Start? {
      assert !Spent(Step(w, e).runs[|w.runs|]);
    } else if Stranded(Step(w, e)) {
      StrandingRun(w, e);
    } else if w.reraised == [] && exists i :: 0 <= i < |w.runs| && Strands(w, e, i) {
      var i :| 0 <= i < |w.runs| && Strands(w, e, i);
      StrandsStrand(w, e, i);
    }
  }

  // ----- whether the signal can still be raised -----

  /** The run has an attempt left: a timer to fire or a close to come. */
  predicate CanAttempt(run: Run)
  {
    run.signal.Some? && (!run.closeSeen || run.killTimer.KillAndReraiseTimer?)
  }

  predicate AnyAttemptLeft(w: World)
  {
    exists i :: 0 <= i < |w.runs| && CanAttempt(w.runs[i])
  }

  ghost predicate Continuation(events: seq<Event>, more: seq<Event>)
  {
    Exec(events + more).Some? && forall i :: 0 <= i < |more| ==> Quiet(more[i])
  }

  ghost predicate RaisedBy(events: seq<Event>, more: seq<Event>)
  {
    Continuation(events, more) && Exec(events + more).value.reraised != []
  }

  /** Without a new run or another signal, attempts are used up and never come back. */
  lemma NoAttemptComesBack(w: World, e: Event)
    requires WorldInv(w) && Enabled(w, e) && Quiet(e) && w.reraised == [] && !AnyAttemptLeft(w)
    ensures Step(w, e).reraised == [] && !AnyAttemptLeft(Step(w, e))
  {
    StepTouchesOneRun(w, e);
    TouchContinues(w, e);
    assert !CanAttempt(w.runs[e.run]) && RunInv(w.runs[e.run]);
    forall i | 0 <= i < |w.runs| ensures !CanAttempt(Step(w, e).runs[i]) {
      assert !CanAttempt(w.runs[i]);
    }
  }

  lemma {:induction false} NoAttemptNoRaise(events: seq<Event>, more: seq<Event>)
    requires Exec(events).Some? && Continuation(events, more)
    requires Exec(events).value.reraised == [] && !AnyAttemptLeft(Exec(events).value)
    ensures Exec(events + more).value.reraised == [] && !AnyAttemptLeft(Exec(events + more).value)
  {
    if more == [] {
      assert events + more == events;
    } else {
      var front := more[..|more| - 1];
      assert (events + more)[..|events + more| - 1] == events + front;
      ReachableInv(events + front);
      NoAttemptNoRaise(events, front);
      NoAttemptComesBack(Exec(events + front).value, more[|more| - 1]);
    }
  }

  /** A run other than i keeps the parent from dying of its signal. */
  function Unready(w: World, i: nat): set<nat>
  {
    set k: nat | k < |w.runs| && k != i && !ReadyToDie(w.runs[k])
  }

  /** What makes a run ready at once. */
  function Readying(w: World, k: nat): Event
    requires k < |w.runs|
  {
    if w.runs[k].signal.None? then Error(k) else KillGraceFires(k)
  }

  lemma ReadyingWorks(w: World, i: nat, k: nat)
    requires WorldInv(w) && k in Unready(w, i)
    ensures Enabled(w, Readying(w, k)) && Unready(Step(w, Readying(w, k)), i) < Unready(w, i)
    ensures |Step(w, Readying(w, k)).runs| == |w.runs|
    ensures i < |w.runs| ==> Step(w, Readying(w, k)).runs[i] == w.runs[i]
  {
    var e := Readying(w, k);
    assert RunInv(w.runs[k]);
    StepTouchesOneRun(w, e);
    assert k !in Unready(Step(w, e), i);
  }

  lemma LastAttempt(w: World, i: nat) returns (e: Event)
    requires WorldInv(w) && i < |w.runs| && CanAttempt(w.runs[i]) && Unready(w, i) == {}
    ensures Enabled(w, e) && Quiet(e) && Step(w, e).reraised != []
  {
    e := if w.runs[i].killTimer.KillAndReraiseTimer? then KillGraceFires(i) else Close(i, None, false);
    StepTouchesOneRun(w, e);
    forall k | 0 <= k < |w.runs| && k != i ensures ReadyToDie(w.runs[k]) {
      assert k !in Unready(w, i);
    }
    assert AllReady(Update(w, i, Touched(w, e)));
  }

  /** As long as an attempt is left, there is a way for the runs to end that raises the signal. */
  lemma {:induction false} AttemptCanRaise(events: seq<Event>, i: nat) returns (more: seq<Event>)
    requires Exec(events).Some? && i < |Exec(events).value.runs| && CanAttempt(Exec(events).value.runs[i])
    ensures RaisedBy(events, more)
    decreases Unready(Exec(events).value, i)
  {
    var w := Exec(events).value;
    ReachableInv(events);
    var e;
    if Unready(w, i) == {} {
      e := LastAttempt(w, i);
    } else {
      var k :| k in Unready(w, i);
      e := Readying(w, k);
      ReadyingWorks(w, i, k);
    }
    Happens(events, e);
    var longer := events + [e];
    if Unready(w, i) == {} {
      more := [e];
    } else {
      var rest := AttemptCanRaise(longer, i);
      more := [e] + rest;
      assert events + more == longer + rest;
    }
  }

  /**
    Whether the signal can still be raised, without another signal and without new runs:
    exactly when it already was or some signalled run has an attempt left.
  */
  lemma RaisePossibleExactlyWhen(events: seq<Event>)
    requires Exec(events).Some?
    ensures (exists more :: RaisedBy(events, more)) <==>
            Exec(events).value.reraised != [] || AnyAttemptLeft(Exec(events).value)
  {
    var w := Exec(events).value;
    if w.reraised != [] {
      assert events + [] == events;
      assert RaisedBy(events, []);
    } else if AnyAttemptLeft(w) {
      var i :| 0 <= i < |w.runs| && CanAttempt(w.runs[i]);
      var more := AttemptCanRaise(events, i);
    } else {
      forall more | Continuation(events, more) ensures !RaisedBy(events, more) {
        NoAttemptNoRaise(events, more);
      }
    }
  }

  /** A stranded parent stays stranded, whatever its runs still do. */
  lemma {:induction false} StrandedForGood(events: seq<Event>, more: seq<Event>)
    requires Exec(events).Some? && Stranded(Exec(events).value) && Continuation(events, more)
    ensures Stranded(Exec(events + more).value)
  {
    if more == [] {
      assert events + more == events;
    } else {
      var front := more[..|more| - 1];
      assert (events + more)[..|events + more| - 1] == events + front;
      ReachableInv(events + front);
      StrandedForGood(events, front);
      StrandedStays(Exec(events + front).value, more[|more| - 1]);
    }
  }

  lemma StrandedStays(w: World, e: Event)
    requires WorldInv(w) && Enabled(w, e) && Quiet(e) && Stranded(w)
    ensures Stranded(Step(w, e))
  {
    var after := Step(w, e);
    StepTouchesOneRun(w, e);
    TouchContinues(w, e);
    var run := w.runs[e.run];
    assert RunInv(run) && Spent(run);
    var i :| 0 <= i < |w.runs| && w.runs[i].registered;
    assert after.runs[i].registered;
    forall k | 0 <= k < |w.runs| ensures Spent(after.runs[k]) {
      assert Spent(w.runs[k]);
    }
  }

  // ----- runs started before the signal -----

  ghost predicate SignalCame(events: seq<Event>)
  {
    exists i :: 0 <= i < |events| && events[i].ParentSignal?
  }

  /** A run was started after a parent signal had been relayed. */
  ghost predicate LateStart(events: seq<Event>)
  {
    exists i, j :: 0 <= i < j < |events| && events[i].ParentSignal? && events[j].Start?
  }

  ghost predicate AllSignalled(w: World)
  {
    forall i :: 0 <= i < |w.runs| && w.runs[i].registered ==> w.runs[i].signal.Some?
  }

  ghost predicate NoneSignalled(w: World)
  {
    forall i :: 0 <= i < |w.runs| ==> w.runs[i].signal.None?
  }

  /** A run that is still to be told about a signal has its handlers installed. */
  predicate Catches(run: Run)
  {
    run.registered && run.signal.None? ==> run.handlersOn
  }

  lemma {:induction false} RelayReachesAll(w: World, signal: Signal, groupsAlive: set<nat>, i: nat)
    requires i <= |w.runs|
    requires forall k :: 0 <= k < |w.runs| ==> Catches(w.runs[k])
    requires forall k :: 0 <= k < i && w.runs[k].registered ==> w.runs[k].signal.Some?
    ensures AllSignalled(Relay(w, signal, groupsAlive, i))
    decreases |w.runs| - i
  {
    if i < |w.runs| {
      var next := w;
      assert Catches(w.runs[i]);
      if w.runs[i].handlersOn {
        var alive := Alive(w.runs[i], i in groupsAlive);
        next := Change(w, i, OnParentSignal(w.runs[i], signal, alive), SignalAttempt(signal, alive));
        assert next.runs == w.runs[i := OnParentSignal(w.runs[i], signal, alive)];
      }
      RelayReachesAll(next, signal, groupsAlive, i + 1);
    }
  }

  lemma StepKeepsAllSignalled(w: World, e: Event)
    requires WorldInv(w) && Enabled(w, e) && !e.Start?
    requires AllSignalled(w) || e.ParentSignal?
    ensures AllSignalled(Step(w, e))
  {
    if e.ParentSignal? {
      forall k | 0 <= k < |w.runs| ensures Catches(w.runs[k]) {
        assert RunInv(w.runs[k]);
      }
      RelayReachesAll(w, e.signal, e.groupsAlive, 0);
    } else {
      StepTouchesOneRun(w, e);
      TouchContinues(w, e);
    }
  }

  lemma {:induction false} StepKeepsNoneSignalled(w: World, e: Event)
    requires NoneSignalled(w) && Enabled(w, e) && !e.ParentSignal?
    ensures NoneSignalled(Step(w, e))
  {
    if !e.Start? {
      StepTouchesOneRun(w, e);
      TouchContinues(w, e);
    }
  }

  /** When every registered run has seen the signal, the last one to be done raises it. */
  lemma LastDoneRaises(w: World, e: Event)
    requires WorldInv(w) && Enabled(w, e) && Quiet(e) && AllSignalled(w) && !AllWait(w)
    ensures AnyRegistered(Step(w, e)) && AllReady(Step(w, e)) ==> Step(w, e).reraised != []
  {
    var after := Step(w, e);
    StepTouchesOneRun(w, e);
    TouchContinues(w, e);
    if AnyRegistered(after) && AllReady(after) && w.reraised == [] {
      var i :| 0 <= i < |after.runs| && after.runs[i].registered;
      assert w.runs[i].registered;
      forall k | 0 <= k < |w.runs| && k != e.run ensures ReadyToDie(w.runs[k]) {
        assert ReadyToDie(after.runs[k]);
      }
      assert ReadyToDie(after.runs[e.run]);
    }
  }

  lemma {:induction false} NoLateStart(events: seq<Event>)
    requires Exec(events).Some? && !LateStart(events)
    ensures !AllWait(Exec(events).value)
    ensures if SignalCame(events) then AllSignalled(Exec(events).value) else NoneSignalled(Exec(events).value)
  {
    if events != [] {
      var front, last := events[..|events| - 1], events[|events| - 1];
      assert events == front + [last];
      assert forall i :: 0 <= i < |front| ==> events[i] == front[i];
      ReachableInv(front);
      NoLateStart(front);
      var w := Exec(front).value;
      assert SignalCame(events) <==> SignalCame(front) || last.ParentSignal?;
      if SignalCame(events) {
        StepKeepsAllSignalled(w, last);
        if last.ParentSignal? {
          RelayKeepsSomeoneBusy(w, last.signal, last.groupsAlive, 0);
        } else {
          LastDoneRaises(w, last);
        }
      } else {
        StepKeepsNoneSignalled(w, last);
      }
    }
  }

  /**
    If no run starts after a relayed signal, then at any time from the signal on it has
    been raised again, or no run is registered, or an armed timer is still to attempt it.
  */
  lemma NoLateStartNoLoss(events: seq<Event>)
    requires Exec(events).Some? && !LateStart(events) && SignalCame(events)
    ensures var w := Exec(events).value;
      || w.reraised != []
      || !AnyRegistered(w)
      || exists i :: 0 <= i < |w.runs| && Enabled(w, KillGraceFires(i)) && KillGraceAttempt(w.runs[i]).Some?
  {
    var w := Exec(events).value;
    ReachableInv(events);
    NoLateStart(events);
    if w.reraised == [] && AnyRegistered(w) {
      var i :| 0 <= i < |w.runs| && !ReadyToDie(w.runs[i]);
      assert RunInv(w.runs[i]);
      assert Enabled(w, KillGraceFires(i)) && KillGraceAttempt(w.runs[i]).Some?;
    }
  }

  /** A run started after the relay can strand the parent: the signalled run ends before it, and attempts too early. */
  lemma LateStartStrands() returns (events: seq<Event>)
    ensures LateStart(events) && Exec(events).Some? && Stranded(Exec(events).value)
  {
    var options := Options(true, false, None);
    var run := NewRun(options);
    var waiting, settled := OnParentSignal(run, SIGINT, true), OnClose(run, Some(0), false);
    var over := OnClose(waiting, None, false);
    events := [];
    Happens(events, Start(options));
    events := events + [Start(options)];
    assert [] + [run] == [run];
    assert Exec(events) == Some(World([run], []));
    Happens(events, ParentSignal(SIGINT, {0}));
    events := events + [ParentSignal(SIGINT, {0})];
    assert Relay(World([run], []), SIGINT, {0}, 0) == Relay(World([waiting], []), SIGINT, {0}, 1);
    assert Exec(events) == Some(World([waiting], []));
    Happens(events, Start(options));
    events := events + [Start(options)];
    assert [waiting] + [run] == [waiting, run];
    assert Exec(events) == Some(World([waiting, run], []));
    Happens(events, Close(0, None, false));
    events := events + [Close(0, None, false)];
    assert !ReadyToDie(World([over, run], []).runs[1]);
    assert [waiting, run][0 := over] == [over, run];
    assert Exec(events) == Some(World([over, run], []));
    Happens(events, Close(1, Some(0), false));
    events := events + [Close(1, Some(0), false)];
    assert [over, run][1 := settled] == [over, settled];
    assert Exec(events) == Some(World([over, settled], []));
    assert events[1].ParentSignal? && events[2].Start?;
    assert Exec(events).value.runs[0].registered;
  }
}
