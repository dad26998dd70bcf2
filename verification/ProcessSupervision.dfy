/**
  Supervising child processes with a timeout, a kill grace period and relayed parent
  signals. Each run is a state machine over its events; all runs share one registry
  that decides when the parent may be killed by the signal it relayed.
*/
module ProcessSupervision {
  import opened Collections
  import opened OutputCapture

  datatype Signal = SIGINT | SIGTERM | SIGHUP

  datatype Options = Options(useProcessGroup: bool, rejectOnFailure: bool, maxOutputChars: Option<real>)

  datatype Timer = NoTimer | KillTimer | KillAndReraiseTimer(signal: Signal)

  datatype Outcome =
    | Resolved(code: int, stdout: string)
    | TimedOut
    | Failed
    | TooMuchOutput
    | ChildError

  /**
    The variables of one run. The last group records what happened: the promise calls
    made, the output received, whether SIGKILL was sent and whether the process group
    was found dead.
  */
  datatype Run = Run(
    options: Options, stdout: Capture, timedOut: bool, settled: bool, waitingForKillGrace: bool,
    closedResult: Option<Option<int>>, killTimer: Timer, deadlineArmed: bool, handlersOn: bool,
    signal: Option<Signal>, done: bool, registered: bool, closeSeen: bool,
    outcomes: seq<Outcome>, chunks: seq<string>, sigkillSent: bool, groupSeenDead: bool)

  function NewRun(options: Options): Run
  {
    Run(options, Capture("", 0), false, false, false, None, NoTimer, true, true, None, false, true, false,
        [], [], false, false)
  }

  function MaxChars(run: Run): (max: nat)
    ensures max >= 1
  {
    OutputLimit(run.options.maxOutputChars)
  }

  // ----- one run -----

  function Settle(run: Run, outcome: Outcome): Run
  {
    if run.settled then run
    else run.(
      settled := true,
      deadlineArmed := false,
      killTimer := if run.signal.None? then NoTimer else run.killTimer,
      registered := run.registered && run.signal.Some?,
      handlersOn := false,
      outcomes := run.outcomes + [outcome])
  }

  function ExitOutcome(run: Run, code: Option<int>): Outcome
  {
    var status := match code case Some(c) => c case None => 1;
    if run.timedOut then TimedOut
    else if status != 0 && run.options.rejectOnFailure then Failed
    else if status == 0 && run.stdout.truncatedChars > 0 then TooMuchOutput
    else Resolved(status, run.stdout.text)
  }

  function FinishClose(run: Run, code: Option<int>): Run
  {
    Settle(run, ExitOutcome(run, code))
  }

  function OnData(run: Run, chunk: string): Run
  {
    run.(stdout := AppendBounded(run.stdout, chunk, MaxChars(run)), chunks := run.chunks + [chunk])
  }

  function OnTimeout(run: Run): Run
  {
    var late := run.(deadlineArmed := false, timedOut := true);
    if late.waitingForKillGrace then late else late.(waitingForKillGrace := true, killTimer := KillTimer)
  }

  function OnKillGrace(run: Run): Run
    requires run.killTimer != NoTimer
  {
    var killed := run.(waitingForKillGrace := false, killTimer := NoTimer, sigkillSent := true);
    match run.killTimer
    case KillAndReraiseTimer(_) => killed.(done := true)
    case KillTimer => if run.closedResult.Some? then FinishClose(killed, run.closedResult.value) else killed
  }

  function SeenClose(run: Run, groupDead: bool): Run
  {
    run.(closeSeen := true, groupSeenDead := run.groupSeenDead || groupDead)
  }

  function OnClose(run: Run, code: Option<int>, groupAlive: bool): Run
  {
    if run.signal.Some? then
      if groupAlive then SeenClose(run, false).(closedResult := Some(code))
      else SeenClose(run, true).(killTimer := NoTimer, done := true)
    else if run.waitingForKillGrace && groupAlive then SeenClose(run, false).(closedResult := Some(code))
    else FinishClose(SeenClose(run, run.waitingForKillGrace), code)
  }

  function OnError(run: Run): Run
  {
    Settle(run, ChildError)
  }

  function OnParentSignal(run: Run, signal: Signal, groupAlive: bool): Run
  {
    var relayed := run.(signal := Some(signal), handlersOn := false);
    if groupAlive then relayed.(waitingForKillGrace := true, killTimer := KillAndReraiseTimer(signal))
    else relayed.(done := true, groupSeenDead := true)
  }

  /** The group was found dead, or it has been sent SIGKILL. */
  predicate GroupStopped(run: Run)
  {
    run.groupSeenDead || run.sigkillSent
  }

  ghost predicate RunInv(run: Run)
  {
    && |run.outcomes| == (if run.settled then 1 else 0)
    && (run.settled ==> !run.deadlineArmed && !run.handlersOn)
    && (run.settled && run.signal.None? ==> run.killTimer == NoTimer)
    && (run.killTimer != NoTimer ==> run.waitingForKillGrace)
    && (run.killTimer.KillAndReraiseTimer? ==> run.signal == Some(run.killTimer.signal))
    && (run.signal.Some? ==> run.registered && !run.handlersOn)
    && (run.signal.None? ==> run.registered == run.handlersOn == !run.settled)
    && (run.done ==> run.signal.Some? && GroupStopped(run))
    && (run.signal.Some? && !run.done ==> run.killTimer.KillAndReraiseTimer?)
    && (run.timedOut && !run.waitingForKillGrace ==> run.sigkillSent)
    && (run.closedResult.Some? ==> run.closeSeen)
    && run.stdout == CaptureAll(run.chunks, MaxChars(run))
    && (forall outcome :: outcome in run.outcomes ==> OutcomeInv(run, outcome))
  }

  /** What every promise call is worth, for the rest of the run. */
  ghost predicate OutcomeInv(run: Run, outcome: Outcome)
  {
    match outcome
    case Resolved(code, stdout) => !run.timedOut && run.closeSeen && (code == 0 ==> stdout == Concat(run.chunks))
    case TimedOut => run.timedOut && run.closeSeen && GroupStopped(run)
    case Failed => !run.timedOut && run.options.rejectOnFailure
    case TooMuchOutput => !run.timedOut && |Concat(run.chunks)| > MaxChars(run)
    case ChildError => true
  }

  lemma FinishCloseKeepsInv(run: Run, code: Option<int>)
    requires RunInv(run) && run.closeSeen
    requires run.timedOut ==> GroupStopped(run)
    ensures RunInv(FinishClose(run, code))
  {
    CaptureIsTail(run.chunks, MaxChars(run));
    CompleteCapture(run.chunks, MaxChars(run));
  }

  // ----- all runs and the registry -----

  /** Every run started so far, in order, and the signals the parent raised against itself. */
  datatype World = World(runs: seq<Run>, reraised: seq<Signal>)

  datatype Event =
    | Start(options: Options)
    | Data(run: nat, chunk: string)
    | TimeoutFires(run: nat)
    | KillGraceFires(run: nat)
    | Close(run: nat, code: Option<int>, groupAlive: bool)
    | Error(run: nat)
    | ParentSignal(signal: Signal, groupsAlive: set<nat>)

  /** Timers fire only while armed, a child closes once and sends nothing afterwards. */
  predicate Enabled(w: World, e: Event)
  {
    match e
    case Start(_) => true
    case Data(i, _) => i < |w.runs| && !w.runs[i].closeSeen
    case TimeoutFires(i) => i < |w.runs| && w.runs[i].deadlineArmed
    case KillGraceFires(i) => i < |w.runs| && w.runs[i].killTimer != NoTimer
    case Close(i, _, _) => i < |w.runs| && !w.runs[i].closeSeen
    case Error(i) => i < |w.runs|
    case ParentSignal(_, _) => true
  }

  predicate ReadyToDie(run: Run)
  {
    run.registered ==> run.signal.Some? && run.done
  }

  predicate AllReady(w: World)
  {
    forall i :: 0 <= i < |w.runs| ==> ReadyToDie(w.runs[i])
  }

  /** `maybeReraiseRunProcessParentSignal`: only when every registered run is done with its signal. */
  function MaybeReraise(w: World, signal: Signal): World
  {
    if AllReady(w) then w.(reraised := w.reraised + [signal]) else w
  }

  function Update(w: World, i: nat, run: Run): World
    requires i < |w.runs|
  {
    w.(runs := w.runs[i := run])
  }

  /** A changed run, followed by the re-raise attempt its handler makes, if it makes one. */
  function Change(w: World, i: nat, run: Run, attempt: Option<Signal>): World
    requires i < |w.runs|
  {
    var changed := Update(w, i, run);
    if attempt.Some? then MaybeReraise(changed, attempt.value) else changed
  }

  function KillGraceAttempt(run: Run): Option<Signal>
  {
    match run.killTimer
    case KillAndReraiseTimer(signal) => Some(signal)
    case _ => None
  }

  function CloseAttempt(run: Run, groupAlive: bool): Option<Signal>
  {
    if groupAlive then None else run.signal
  }

  function SignalAttempt(signal: Signal, groupAlive: bool): Option<Signal>
  {
    if groupAlive then None else Some(signal)
  }

  /** Whether the group of run i answers the liveness probe; without process groups none does. */
  predicate Alive(run: Run, groupAlive: bool)
  {
    run.options.useProcessGroup && groupAlive
  }

  /** The signal handlers of the runs from `i` on, in the order they were installed. */
  function Relay(w: World, signal: Signal, groupsAlive: set<nat>, i: nat): World
    requires i <= |w.runs|
    decreases |w.runs| - i
  {
    if i == |w.runs| then w
    else if !w.runs[i].handlersOn then Relay(w, signal, groupsAlive, i + 1)
    else
      var alive := Alive(w.runs[i], i in groupsAlive);
      Relay(Change(w, i, OnParentSignal(w.runs[i], signal, alive), SignalAttempt(signal, alive)),
            signal, groupsAlive, i + 1)
  }

  function Step(w: World, e: Event): World
    requires Enabled(w, e)
  {
    match e
    case Start(options) => w.(runs := w.runs + [NewRun(options)])
    case Data(i, chunk) => Update(w, i, OnData(w.runs[i], chunk))
    case TimeoutFires(i) => Update(w, i, OnTimeout(w.runs[i]))
    case KillGraceFires(i) => Change(w, i, OnKillGrace(w.runs[i]), KillGraceAttempt(w.runs[i]))
    case Close(i, code, groupAlive) =>
      var alive := Alive(w.runs[i], groupAlive);
      Change(w, i, OnClose(w.runs[i], code, alive), CloseAttempt(w.runs[i], alive))
    case Error(i) => Update(w, i, OnError(w.runs[i]))
    case ParentSignal(signal, groupsAlive) => Relay(w, signal, groupsAlive, 0)
  }

  /** The state after a history of events, if it is possible. */
  function Exec(events: seq<Event>): Option<World>
  {
    if events == [] then Some(World([], []))
    else
      match Exec(events[..|events| - 1])
      case Some(w) => if Enabled(w, events[|events| - 1]) then Some(Step(w, events[|events| - 1])) else None
      case None => None
  }

  // ----- safety of each run -----

  ghost predicate WorldInv(w: World)
  {
    forall i :: 0 <= i < |w.runs| ==> RunInv(w.runs[i])
  }

  lemma NewRunInv(options: Options)
    ensures RunInv(NewRun(options))
  {
  }

  lemma DataKeepsInv(run: Run, chunk: string)
    requires RunInv(run) && !run.closeSeen
    ensures RunInv(OnData(run, chunk))
  {
    var chunks := run.chunks + [chunk];
    assert chunks[..|chunks| - 1] == run.chunks;
    ConcatSnoc(run.chunks, chunk);
  }

  lemma TimeoutKeepsInv(run: Run)
    requires RunInv(run) && run.deadlineArmed
    ensures RunInv(OnTimeout(run))
  {
  }

  lemma KillGraceKeepsInv(run: Run)
    requires RunInv(run) && run.killTimer != NoTimer
    ensures RunInv(OnKillGrace(run))
  {
    var killed := run.(waitingForKillGrace := false, killTimer := NoTimer, sigkillSent := true);
    if run.killTimer == KillTimer && run.closedResult.Some? {
      FinishCloseKeepsInv(killed, run.closedResult.value);
    }
  }

  lemma CloseKeepsInv(run: Run, code: Option<int>, groupAlive: bool)
    requires RunInv(run) && !run.closeSeen
    ensures RunInv(OnClose(run, code, groupAlive))
  {
    if run.signal.None? && !(run.waitingForKillGrace && groupAlive) {
      FinishCloseKeepsInv(SeenClose(run, run.waitingForKillGrace), code);
    }
  }

  lemma SignalKeepsInv(run: Run, signal: Signal, groupAlive: bool)
    requires RunInv(run) && run.handlersOn
    ensures RunInv(OnParentSignal(run, signal, groupAlive))
  {
  }

  /** What relaying a signal does to each run, seen over the whole relay. */
  ghost predicate Relayed(before: World, after: World)
  {
    && |after.runs| == |before.runs|
    && before.reraised <= after.reraised
    && forall i :: 0 <= i < |before.runs| ==>
         after.runs[i].outcomes == before.runs[i].outcomes && after.runs[i].registered == before.runs[i].registered
  }

  lemma RelayedTransitive(a: World, b: World, c: World)
    requires Relayed(a, b) && Relayed(b, c)
    ensures Relayed(a, c)
  {
  }

  /** A change of one run that keeps its invariant, its promise calls and its registration keeps all of them. */
  lemma ChangeIsRelayed(w: World, i: nat, run: Run, attempt: Option<Signal>)
    requires WorldInv(w) && i < |w.runs| && RunInv(run)
    requires run.outcomes == w.runs[i].outcomes && run.registered == w.runs[i].registered
    ensures WorldInv(Change(w, i, run, attempt)) && Relayed(w, Change(w, i, run, attempt))
  {
    assert Change(w, i, run, attempt).runs == w.runs[i := run];
  }

  /** One handler keeps every run's promise calls and registration. */
  lemma RelayStep(w: World, signal: Signal, i: nat, alive: bool)
    requires WorldInv(w) && i < |w.runs| && w.runs[i].handlersOn
    ensures var next := Change(w, i, OnParentSignal(w.runs[i], signal, alive), SignalAttempt(signal, alive));
      WorldInv(next) && Relayed(w, next)
  {
    SignalKeepsInv(w.runs[i], signal, alive);
    ChangeIsRelayed(w, i, OnParentSignal(w.runs[i], signal, alive), SignalAttempt(signal, alive));
  }

  lemma {:induction false} RelayKeepsInv(w: World, signal: Signal, groupsAlive: set<nat>, i: nat)
    requires WorldInv(w) && i <= |w.runs|
    ensures WorldInv(Relay(w, signal, groupsAlive, i)) && Relayed(w, Relay(w, signal, groupsAlive, i))
    decreases |w.runs| - i
  {
    if i < |w.runs| {
      if w.runs[i].handlersOn {
        var alive := Alive(w.runs[i], i in groupsAlive);
        var next := Change(w, i, OnParentSignal(w.runs[i], signal, alive), SignalAttempt(signal, alive));
        RelayStep(w, signal, i, alive);
        RelayKeepsInv(next, signal, groupsAlive, i + 1);
        RelayedTransitive(w, next, Relay(next, signal, groupsAlive, i + 1));
      } else {
        RelayKeepsInv(w, signal, groupsAlive, i + 1);
      }
    }
  }

  lemma StepKeepsInv(w: World, e: Event)
    requires WorldInv(w) && Enabled(w, e)
    ensures WorldInv(Step(w, e))
  {
    match e
    case Start(options) => NewRunInv(options);
    case Data(i, chunk) => DataKeepsInv(w.runs[i], chunk);
    case TimeoutFires(i) => TimeoutKeepsInv(w.runs[i]);
    case KillGraceFires(i) => KillGraceKeepsInv(w.runs[i]);
    case Close(i, code, groupAlive) => CloseKeepsInv(w.runs[i], code, Alive(w.runs[i], groupAlive));
    case Error(i) =>
    case ParentSignal(signal, groupsAlive) => RelayKeepsInv(w, signal, groupsAlive, 0);
  }

  lemma {:induction false} ReachableInv(events: seq<Event>)
    requires Exec(events).Some?
    ensures WorldInv(Exec(events).value)
  {
    if events != [] {
      ReachableInv(events[..|events| - 1]);
      StepKeepsInv(Exec(events[..|events| - 1]).value, events[|events| - 1]);
    }
  }

  /**
    Over every history: a run's promise is called at most once; it never resolves once the
    run has timed out; a late run is not settled by its close before its group was found
    dead or sent SIGKILL; a run that resolves with code 0 delivers its whole output; and a
    settled run without a relayed signal has no timer, no handler and no registration left.
  */
  lemma RunSafety(events: seq<Event>, i: nat)
    requires Exec(events).Some? && i < |Exec(events).value.runs|
    ensures var run := Exec(events).value.runs[i];
      && |run.outcomes| <= 1
      && (forall outcome :: outcome in run.outcomes ==>
            && (outcome.Resolved? ==> !run.timedOut)
            && (run.timedOut && outcome != ChildError ==> GroupStopped(run))
            && (outcome.Resolved? && outcome.code == 0 ==> outcome.stdout == Concat(run.chunks)))
      && (run.outcomes != [] && run.signal.None? ==>
            run.killTimer == NoTimer && !run.deadlineArmed && !run.handlersOn && !run.registered)
  {
    ReachableInv(events);
    assert RunInv(Exec(events).value.runs[i]);
  }

  // ----- safety of the re-raise -----
  lemma {:induction false} RelayWithoutHandlers(w: World, signal: Signal, groupsAlive: set<nat>, i: nat)
    requires i <= |w.runs| && forall k :: 0 <= k < |w.runs| ==> !w.runs[k].handlersOn
    ensures Relay(w, signal, groupsAlive, i) == w
    decreases |w.runs| - i
  {
    if i < |w.runs| {
      RelayWithoutHandlers(w, signal, groupsAlive, i + 1);
    }
  }

  lemma {:induction false} RelayReraisesWhenReady(w: World, signal: Signal, groupsAlive: set<nat>, i: nat)
    requires WorldInv(w) && i <= |w.runs|
    ensures var after := Relay(w, signal, groupsAlive, i);
      after.reraised != w.reraised ==> AllReady(after)
    decreases |w.runs| - i
  {
    if i < |w.runs| {
      if w.runs[i].handlersOn {
        var alive := Alive(w.runs[i], i in groupsAlive);
        var next := Change(w, i, OnParentSignal(w.runs[i], signal, alive), SignalAttempt(signal, alive));
        SignalKeepsInv(w.runs[i], signal, alive);
        if AllReady(next) {
          RelayWithoutHandlers(next, signal, groupsAlive, i + 1);
        }
        RelayReraisesWhenReady(next, signal, groupsAlive, i + 1);
      } else {
        RelayReraisesWhenReady(w, signal, groupsAlive, i + 1);
      }
    }
  }

  /**
    When the parent raises a signal against itself, every registered run has recorded a
    signal, is done, and its group was found dead or sent SIGKILL; and no run of any kind
    still has a handler that would catch the signal.
  */
  lemma ReraiseIsSafe(events: seq<Event>, e: Event)
    requires Exec(events).Some? && Enabled(Exec(events).value, e)
    requires Step(Exec(events).value, e).reraised != Exec(events).value.reraised
    ensures forall run :: run in Step(Exec(events).value, e).runs ==>
              && !run.handlersOn
              && (run.registered ==> run.signal.Some? && run.done && GroupStopped(run))
  {
    var w := Exec(events).value;
    ReachableInv(events);
    StepKeepsInv(w, e);
    if e.ParentSignal? {
      RelayReraisesWhenReady(w, e.signal, e.groupsAlive, 0);
    }
    forall run | run in Step(w, e).runs
      ensures run.registered ==> run.signal.Some? && run.done && GroupStopped(run)
    {
      assert RunInv(run) && ReadyToDie(run);
    }
  }

  // ----- what one event changes -----

  /** What an event that concerns one run makes of that run. */
  function Touched(w: World, e: Event): Run
    requires Enabled(w, e) && !e.Start? && !e.ParentSignal?
  {
    match e
    case Data(i, chunk) => OnData(w.runs[i], chunk)
    case TimeoutFires(i) => OnTimeout(w.runs[i])
    case KillGraceFires(i) => OnKillGrace(w.runs[i])
    case Close(i, code, groupAlive) => OnClose(w.runs[i], code, Alive(w.runs[i], groupAlive))
    case Error(i) => OnError(w.runs[i])
  }

  lemma StepTouchesOneRun(w: World, e: Event)
    requires Enabled(w, e) && !e.Start? && !e.ParentSignal?
    ensures Step(w, e).runs == w.runs[e.run := Touched(w, e)]
  {
  }

  /** The run keeps its signal and its promise calls, and is not put back into the registry. */
  predicate Continues(before: Run, after: Run)
  {
    && after.signal == before.signal
    && (after.registered ==> before.registered)
    && before.outcomes <= after.outcomes
  }

  lemma KillGraceContinues(run: Run)
    requires run.killTimer != NoTimer
    ensures Continues(run, OnKillGrace(run))
  {
  }

  /** A close that does not settle the run. */
  lemma HeldCloseContinues(run: Run, code: Option<int>, groupAlive: bool)
    requires run.signal.Some? || (run.waitingForKillGrace && groupAlive)
    ensures Continues(run, OnClose(run, code, groupAlive))
  {
  }

  lemma {:induction false} CloseContinues(run: Run, code: Option<int>, groupAlive: bool)
    ensures Continues(run, OnClose(run, code, groupAlive))
  {
    if run.signal.Some? || (run.waitingForKillGrace && groupAlive) {
      HeldCloseContinues(run, code, groupAlive);
    }
  }

  lemma {:induction false} TouchContinues(w: World, e: Event)
    requires Enabled(w, e) && !e.Start? && !e.ParentSignal?
    ensures Continues(w.runs[e.run], Touched(w, e))
  {
    match e
    case Data(i, chunk) =>
    case TimeoutFires(i) =>
    case KillGraceFires(i) => KillGraceContinues(w.runs[i]);
    case Close(i, code, groupAlive) => CloseContinues(w.runs[i], code, Alive(w.runs[i], groupAlive));
    case Error(i) =>
  }

  /** A promise call, once made, stays as it was. */
  lemma OutcomesAreFinal(w: World, e: Event, i: nat)
    requires WorldInv(w) && Enabled(w, e) && i < |w.runs|
    ensures i < |Step(w, e).runs| && w.runs[i].outcomes <= Step(w, e).runs[i].outcomes
  {
    if e.ParentSignal? {
      RelayKeepsInv(w, e.signal, e.groupsAlive, 0);
    } else if !e.Start? {
      StepTouchesOneRun(w, e);
      TouchContinues(w, e);
    }
  }

  lemma {:induction false} Happens(events: seq<Event>, e: Event)
    requires Exec(events).Some? && Enabled(Exec(events).value, e)
    ensures Exec(events + [e]) == Some(Step(Exec(events).value, e))
  {
    assert (events + [e])[..|events + [e]| - 1] == events;
  }
}
