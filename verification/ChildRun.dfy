/** One supervised child as the object its event handlers update, proved to follow ProcessSupervision. */
module ChildRun {
  import opened Collections
  import opened OutputCapture
  import opened ProcessSupervision

  class Child {
    const options: Options
    var stdout: Capture
    var timedOut: bool
    var settled: bool
    var waitingForKillGrace: bool
    var closedResult: Option<Option<int>>
    var killTimer: Timer
    var deadlineArmed: bool
    var handlersOn: bool
    var signal: Option<Signal>
    var done: bool
    var registered: bool
    // what happened
    ghost var closeSeen: bool
    ghost var outcomes: seq<Outcome>
    ghost var chunks: seq<string>
    ghost var sigkillSent: bool
    ghost var groupSeenDead: bool

    ghost function State(): Run
      reads this
    {
      Run(options, stdout, timedOut, settled, waitingForKillGrace, closedResult, killTimer, deadlineArmed,
          handlersOn, signal, done, registered, closeSeen, outcomes, chunks, sigkillSent, groupSeenDead)
    }

    constructor (options: Options)
      ensures State() == NewRun(options)
    {
      this.options := options;
      stdout := Capture("", 0);
      timedOut, settled, waitingForKillGrace := false, false, false;
      closedResult, killTimer := None, NoTimer;
      deadlineArmed, handlersOn := true, true;
      signal, done, registered := None, false, true;
      closeSeen, outcomes, chunks, sigkillSent, groupSeenDead := false, [], [], false, false;
    }

    /** The promise is called on the first settlement only; a relayed signal keeps timer and registration. */
    method Settle(outcome: Outcome) returns (called: Option<Outcome>)
      modifies this
      ensures State() == ProcessSupervision.Settle(old(State()), outcome)
      ensures called == if old(settled) then None else Some(outcome)
    {
      if settled {
        return None;
      }
      settled := true;
      deadlineArmed := false;
      if signal.None? {
        Deregister();
      }
      handlersOn := false;
      outcomes := outcomes + [outcome];
      called := Some(outcome);
    }

    method Deregister()
      modifies this`killTimer, this`registered
      ensures State() == old(State()).(killTimer := NoTimer, registered := false)
    {
      killTimer := NoTimer;
      registered := false;
    }

    method FinishClose(code: Option<int>) returns (called: Option<Outcome>)
      modifies this
      ensures State() == ProcessSupervision.FinishClose(old(State()), code)
      ensures called == if old(settled) then None else Some(ExitOutcome(old(State()), code))
    {
      var status := 1;
      if code.Some? {
        status := code.value;
      }
      if timedOut {
        called := Settle(TimedOut);
      } else if status != 0 && options.rejectOnFailure {
        called := Settle(Failed);
      } else if status == 0 && stdout.truncatedChars > 0 {
        called := Settle(TooMuchOutput);
      } else {
        called := Settle(Resolved(status, stdout.text));
      }
    }

    method OnData(chunk: string)
      modifies this
      ensures State() == ProcessSupervision.OnData(old(State()), chunk)
    {
      stdout := AppendBounded(stdout, chunk, OutputLimit(options.maxOutputChars));
      chunks := chunks + [chunk];
    }

    /** The deadline: SIGTERM now, SIGKILL after the grace period unless one is already running. */
    method OnTimeout()
      modifies this
      ensures State() == ProcessSupervision.OnTimeout(old(State()))
    {
      deadlineArmed := false;
      timedOut := true;
      if !waitingForKillGrace {
        waitingForKillGrace := true;
        killTimer := KillTimer;
      }
    }

    /** The kill timer fires; `attempt` is the signal to try to die of. */
    method OnKillGrace() returns (attempt: Option<Signal>)
      requires killTimer != NoTimer
      modifies this
      ensures State() == ProcessSupervision.OnKillGrace(old(State()))
      ensures attempt == KillGraceAttempt(old(State()))
    {
      var timer := killTimer;
      attempt := None;
      waitingForKillGrace := false;
      killTimer := NoTimer;
      sigkillSent := true;
      match timer {
        case KillAndReraiseTimer(relayed) =>
          done := true;
          attempt := Some(relayed);
        case KillTimer =>
          if closedResult.Some? {
            var called := FinishClose(closedResult.value);
          }
      }
    }

    ghost method SeeClose(groupDead: bool)
      modifies this`closeSeen, this`groupSeenDead
      ensures State() == SeenClose(old(State()), groupDead)
    {
      closeSeen := true;
      groupSeenDead := groupSeenDead || groupDead;
    }

    method OnClose(code: Option<int>, groupAlive: bool) returns (attempt: Option<Signal>)
      modifies this
      ensures State() == ProcessSupervision.OnClose(old(State()), code, groupAlive)
      ensures attempt == CloseAttempt(old(State()), groupAlive)
    {
      attempt := None;
      if signal.Some? {
        attempt := CloseAfterSignal(code, groupAlive);
      } else if waitingForKillGrace && groupAlive {
        SeeClose(false);
        closedResult := Some(code);
      } else {
        SeeClose(waitingForKillGrace);
        var called := FinishClose(code);
      }
    }

    method CloseAfterSignal(code: Option<int>, groupAlive: bool) returns (attempt: Option<Signal>)
      requires signal.Some?
      modifies this
      ensures State() == ProcessSupervision.OnClose(old(State()), code, groupAlive)
      ensures attempt == CloseAttempt(old(State()), groupAlive)
    {
      SeeClose(!groupAlive);
      if groupAlive {
        closedResult := Some(code);
        return None;
      }
      killTimer := NoTimer;
      done := true;
      attempt := signal;
    }

    method OnError()
      modifies this
      ensures State() == ProcessSupervision.OnError(old(State()))
    {
      var called := Settle(ChildError);
    }

    method Note(relayed: Signal)
      modifies this`signal, this`handlersOn
      ensures State() == old(State()).(signal := Some(relayed), handlersOn := false)
    {
      signal := Some(relayed);
      handlersOn := false;
    }

    method OnParentSignal(relayed: Signal, groupAlive: bool) returns (attempt: Option<Signal>)
      modifies this
      ensures State() == ProcessSupervision.OnParentSignal(old(State()), relayed, groupAlive)
      ensures attempt == SignalAttempt(relayed, groupAlive)
    {
      Note(relayed);
      attempt := None;
      if groupAlive {
        waitingForKillGrace := true;
        killTimer := KillAndReraiseTimer(relayed);
      } else {
        groupSeenDead := true;
        done := true;
        attempt := Some(relayed);
      }
    }
  }

  /**
    The parent process: its runs, in the order they were started, and the signals it raised
    against itself. The events handled so far are a history of ProcessSupervision.
  */
  class Parent {
    var children: seq<Child>
    var reraised: seq<Signal>
    ghost var events: seq<Event>

    ghost predicate Distinct()
      reads this
    {
      forall i, j :: 0 <= i < j < |children| ==> children[i] != children[j]
    }

    ghost predicate Valid()
      reads this, children
    {
      Distinct() && Exec(events) == Some(State())
    }

    /** No handler is left to catch a signal, and every registered run is done with its own. */
    ghost predicate SafeToDie()
      reads this, children
    {
      forall run :: run in States() ==>
        !run.handlersOn && (run.registered ==> run.signal.Some? && run.done && GroupStopped(run))
    }

    ghost function States(): (runs: seq<Run>)
      reads this`children, children
      ensures |runs| == |children|
    {
      var all := children;
      seq(|all|, i requires 0 <= i < |all| reads all => all[i].State())
    }

    ghost function State(): World
      reads this`children, this`reraised, children
    {
      World(States(), reraised)
    }

    constructor ()
      ensures Valid() && children == [] && events == []
    {
      children, reraised, events := [], [], [];
    }

    ghost method Record(before: World, e: Event)
      requires Exec(events) == Some(before) && Enabled(before, e) && State() == Step(before, e)
      modifies this`events
      ensures events == old(events) + [e] && Exec(events) == Some(State())
      ensures reraised != before.reraised ==> SafeToDie()
    {
      if reraised != before.reraised {
        ReraiseIsSafe(events, e);
      }
      Happens(events, e);
      events := events + [e];
    }

    /** The parent dies of the signal once every registered run has recorded one and is done. */
    method MaybeReraise(signal: Signal)
      requires Distinct()
      modifies this`reraised
      ensures State() == ProcessSupervision.MaybeReraise(old(State()), signal)
    {
      for i := 0 to |children|
        invariant forall k :: 0 <= k < i ==> ReadyToDie(States()[k])
      {
        assert States()[i] == children[i].State();
        if children[i].registered && (children[i].signal.None? || !children[i].done) {
          return;
        }
      }
      reraised := reraised + [signal];
    }

    method Start(options: Options)
      requires Valid()
      modifies this
      ensures Valid() && events == old(events) + [Event.Start(options)]
      ensures children[..|children| - 1] == old(children) && fresh(children[|children| - 1])
    {
      ghost var before := State();
      var child := new Child(options);
      children := children + [child];
      assert States() == before.runs + [NewRun(options)];
      Record(before, Event.Start(options));
    }

    method Data(i: nat, chunk: string)
      requires Valid() && Enabled(State(), Event.Data(i, chunk))
      modifies this`events, children[i]
      ensures Valid() && children == old(children) && events == old(events) + [Event.Data(i, chunk)]
    {
      ghost var before := State();
      children[i].OnData(chunk);
      assert States() == before.runs[i := children[i].State()];
      Record(before, Event.Data(i, chunk));
    }

    method TimeoutFires(i: nat)
      requires Valid() && Enabled(State(), Event.TimeoutFires(i))
      modifies this`events, children[i]
      ensures Valid() && children == old(children) && events == old(events) + [Event.TimeoutFires(i)]
    {
      ghost var before := State();
      children[i].OnTimeout();
      assert States() == before.runs[i := children[i].State()];
      Record(before, Event.TimeoutFires(i));
    }

    method KillGraceFires(i: nat)
      requires Valid() && Enabled(State(), Event.KillGraceFires(i))
      modifies this`reraised, this`events, children[i]
      ensures Valid() && children == old(children) && events == old(events) + [Event.KillGraceFires(i)]
      ensures reraised != old(reraised) ==> SafeToDie()
    {
      ghost var before := State();
      var attempt := children[i].OnKillGrace();
      assert States() == before.runs[i := children[i].State()];
      Attempt(attempt);
      Record(before, Event.KillGraceFires(i));
    }

    method Close(i: nat, code: Option<int>, groupAlive: bool)
      requires Valid() && Enabled(State(), Event.Close(i, code, groupAlive))
      modifies this`reraised, this`events, children[i]
      ensures Valid() && children == old(children) && events == old(events) + [Event.Close(i, code, groupAlive)]
      ensures reraised != old(reraised) ==> SafeToDie()
    {
      ghost var before := State();
      var alive := children[i].options.useProcessGroup && groupAlive;
      var attempt := children[i].OnClose(code, alive);
      assert States() == before.runs[i := children[i].State()];
      Attempt(attempt);
      Record(before, Event.Close(i, code, groupAlive));
    }

    method Error(i: nat)
      requires Valid() && Enabled(State(), Event.Error(i))
      modifies this`events, children[i]
      ensures Valid() && children == old(children) && events == old(events) + [Event.Error(i)]
    {
      ghost var before := State();
      children[i].OnError();
      assert States() == before.runs[i := children[i].State()];
      Record(before, Event.Error(i));
    }

    method Attempt(attempt: Option<Signal>)
      requires Distinct()
      modifies this`reraised
      ensures State() == if attempt.Some? then ProcessSupervision.MaybeReraise(old(State()), attempt.value)
                         else old(State())
    {
      if attempt.Some? {
        MaybeReraise(attempt.value);
      }
    }

    /** A signal reaches the parent: every handler still installed relays it, in order. */
    method ParentSignal(signal: Signal, groupsAlive: set<nat>)
      requires Valid()
      modifies this`reraised, this`events, children
      ensures Valid() && children == old(children)
      ensures events == old(events) + [Event.ParentSignal(signal, groupsAlive)]
      ensures reraised != old(reraised) ==> SafeToDie()
    {
      ghost var start := State();
      for i := 0 to |children|
        invariant Distinct() && children == old(children) && events == old(events)
        invariant Relay(State(), signal, groupsAlive, i) == Relay(start, signal, groupsAlive, 0)
      {
        ghost var before := State();
        RelayTo(i, signal, i in groupsAlive);
        assert Relay(before, signal, groupsAlive, i) == Relay(State(), signal, groupsAlive, i + 1);
      }
      Record(start, Event.ParentSignal(signal, groupsAlive));
    }

    method RelayTo(i: nat, signal: Signal, groupAlive: bool)
      requires Distinct() && i < |children|
      modifies this`reraised, children[i]
      ensures Distinct() && children == old(children)
      ensures var run := old(State()).runs[i];
        var alive := Alive(run, groupAlive);
        State() == if run.handlersOn
                   then Change(old(State()), i, ProcessSupervision.OnParentSignal(run, signal, alive),
                               SignalAttempt(signal, alive))
                   else old(State())
    {
      ghost var before := States();
      assert before[i] == children[i].State();
      if children[i].handlersOn {
        var alive := children[i].options.useProcessGroup && groupAlive;
        var attempt := children[i].OnParentSignal(signal, alive);
        assert States() == before[i := children[i].State()];
        Attempt(attempt);
      }
    }
  }
}
