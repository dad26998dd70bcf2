/**
  Forwarding a signal to every child process tree and leaving once they are gone, or by
  force when they take too long. Commands report through a log file that is closed
  first; a gateway's tree only registers and unregisters itself. The main routine awaits
  the commands and ends the process with a failure of its own when one is rejected.
*/
module SignalForwarding {
  import opened Collections

  datatype Signal = SIGHUP | SIGINT | SIGTERM

  function ExitCode(signal: Signal): int
  {
    match signal case SIGHUP => 129 case SIGINT => 130 case SIGTERM => 143
  }

  datatype Kind = Command(check: bool, hasTimeout: bool) | Gateway

  /** What a command does once its log is closed. */
  datatype Callback = DeliverResult(code: int) | DeliverError | DeliverUncleanTimeout | ExitWhenDone

  datatype Delivery = Resolved(code: int) | Rejected

  /** One child tree; `killed` records that it was sent SIGKILL, `lateClose` a close after a forwarded signal. */
  datatype Child = Child(
    kind: Kind, registered: bool, settled: bool, timedOut: bool, timerArmed: bool, killWaitArmed: bool,
    callback: Option<Callback>, delivered: seq<Delivery>, closed: bool, lateClose: bool, killed: bool)

  /** Left with all trees gone, by force, or by the main routine. */
  datatype Exit = Drained(code: int) | Forced(code: int) | ByMain(code: int)

  const MAIN_FAILURE := 1

  /**
    The registry with the module's variables. The force timer keeps the trees it will
    kill; the last two fields record the first signal and the trees registered then.
  */
  datatype World = World(
    children: seq<Child>, exitCode: Option<int>, forceTimer: Option<set<nat>>, exit: Option<Exit>,
    firstSignal: Option<Signal>, firstTrees: set<nat>, firstCount: nat)

  const Initial := World([], None, None, None, None, {}, 0)

  datatype Event =
    | Spawn(kind: Kind)
    | SignalArrives(signal: Signal)
    | ForceTimerFires
    | Close(child: nat, code: Option<int>)
    | Error(child: nat)
    | TimeoutFires(child: nat)
    | KillWaitFires(child: nat)
    | LogClosed(child: nat, failed: bool)
    | MainFails(cause: Option<nat>)

  function Registered(children: seq<Child>): set<nat>
  {
    set i: nat | i < |children| && children[i].registered
  }

  /**
    Nothing happens after the exit; timers fire while armed; a child closes once. The main
    routine may fail over a command whose promise was rejected, or for a reason of its own.
  */
  predicate Enabled(w: World, e: Event)
  {
    && w.exit.None?
    && match e
       case Spawn(_) => true
       case SignalArrives(_) => true
       case ForceTimerFires => w.forceTimer.Some?
       case Close(i, _) => i < |w.children| && !w.children[i].closed
       case Error(i) => i < |w.children|
       case TimeoutFires(i) => i < |w.children| && w.children[i].timerArmed
       case KillWaitFires(i) => i < |w.children| && w.children[i].killWaitArmed
       case LogClosed(i, _) => i < |w.children| && w.children[i].callback.Some?
       case MainFails(Some(i)) => i < |w.children| && Rejected in w.children[i].delivered
       case MainFails(None) => true
  }

  // ----- one child -----

  function NewChild(kind: Kind): Child
  {
    Child(kind, true, false, false, kind.Command? && kind.hasTimeout, false, None, [], false, false, false)
  }

  function Finalize(c: Child, callback: Callback): Child
  {
    if c.settled then c
    else c.(settled := true, timerArmed := false, killWaitArmed := false, callback := Some(callback))
  }

  /** A child leaves the registry; after a forwarded signal its whole group is killed first. */
  function Leave(c: Child, forwarded: bool): Child
  {
    c.(registered := false, killed := c.killed || (forwarded && c.kind.Command?))
  }

  function OnClose(c: Child, code: Option<int>, forwarded: bool): Child
  {
    var left := Leave(c, forwarded).(closed := true, lateClose := forwarded);
    if c.kind.Gateway? then left
    else if forwarded then Finalize(left, ExitWhenDone)
    else Finalize(left, DeliverResult(match code case Some(status) => status case None => 1))
  }

  function OnError(c: Child, forwarded: bool): Child
  {
    if c.kind.Gateway? then Leave(c, forwarded) else Finalize(Leave(c, forwarded), DeliverError)
  }

  function OnTimeout(c: Child): Child
  {
    c.(timedOut := true, timerArmed := false, killWaitArmed := true, killed := true)
  }

  function OnKillWait(c: Child): Child
  {
    Finalize(c.(killWaitArmed := false), DeliverUncleanTimeout)
  }

  function ResultOf(c: Child, code: int): Delivery
  {
    if c.timedOut || (c.kind.Command? && c.kind.check && code != 0) then Rejected else Resolved(code)
  }

  /** What the promise is called with, unless the callback is the one that may end the process. */
  function CallOf(c: Child, failed: bool): Option<Delivery>
    requires c.callback.Some?
  {
    if failed then Some(Rejected)
    else
      match c.callback.value
      case DeliverResult(code) => Some(ResultOf(c, code))
      case ExitWhenDone => None
      case _ => Some(Rejected)
  }

  function OnLogClosed(c: Child, failed: bool): Child
    requires c.callback.Some?
  {
    var call := CallOf(c, failed);
    c.(callback := None, delivered := c.delivered + (if call.Some? then [call.value] else []))
  }

  // ----- the registry -----

  function Put(w: World, i: nat, c: Child): World
    requires i < |w.children|
  {
    w.(children := w.children[i := c])
  }

  function OnSignal(w: World, signal: Signal): World
  {
    var code := if w.exitCode.Some? then w.exitCode.value else ExitCode(signal);
    var trees := Registered(w.children);
    var noted := if w.exitCode.Some? then w
                 else w.(exitCode := Some(code), firstSignal := Some(signal), firstTrees := trees,
                         firstCount := |w.children|);
    if trees == {} then noted.(exit := Some(Drained(code)))
    else if w.forceTimer.Some? then noted
    else noted.(forceTimer := Some(trees))
  }

  function OnForceTimer(w: World): World
    requires w.forceTimer.Some? && w.exitCode.Some?
  {
    var killed := seq(|w.children|, i requires 0 <= i < |w.children| =>
      if i in w.forceTimer.value then w.children[i].(killed := true) else w.children[i]);
    w.(children := killed, exit := Some(Forced(w.exitCode.value)))
  }

  /** `exitForwardedSignalWhenChildTreesDone`. */
  function ExitIfDone(w: World): World
  {
    if w.exitCode.None? || Registered(w.children) != {} then w
    else w.(forceTimer := None, exit := Some(Drained(w.exitCode.value)))
  }

  function Step(w: World, e: Event): World
    requires Enabled(w, e) && (w.forceTimer.Some? ==> w.exitCode.Some?)
  {
    var forwarded := w.exitCode.Some?;
    match e
    case Spawn(kind) => w.(children := w.children + [NewChild(kind)])
    case SignalArrives(signal) => OnSignal(w, signal)
    case ForceTimerFires => OnForceTimer(w)
    case Close(i, code) => Put(w, i, OnClose(w.children[i], code, forwarded))
    case Error(i) => Put(w, i, OnError(w.children[i], forwarded))
    case TimeoutFires(i) => Put(w, i, OnTimeout(w.children[i]))
    case KillWaitFires(i) => Put(w, i, OnKillWait(w.children[i]))
    case LogClosed(i, failed) =>
      var called := Put(w, i, OnLogClosed(w.children[i], failed));
      if !failed && w.children[i].callback.value == ExitWhenDone then ExitIfDone(called) else called
    case MainFails(_) => w.(exit := Some(ByMain(MAIN_FAILURE)))
  }

  // ----- invariants -----

  ghost predicate ChildInv(c: Child)
  {
    && |c.delivered| + (if c.callback.Some? then 1 else 0) <= (if c.settled then 1 else 0)
    && (c.settled ==> !c.timerArmed && !c.killWaitArmed)
    && (c.kind.Gateway? ==> !c.settled && !c.timerArmed && !c.killWaitArmed)
    && (c.lateClose ==> c.closed && forall d :: d in c.delivered ==> d == Rejected)
    && (c.lateClose ==> c.callback.None? || !c.callback.value.DeliverResult?)
    && (c.callback.Some? && c.callback.value.DeliverResult? ==> c.closed)
    && (c.callback == Some(ExitWhenDone) ==> c.lateClose)
    && (forall d :: d in c.delivered && d.Resolved? ==> c.closed && !c.timedOut)
    && (c.closed ==> !c.registered)
    && (c.kind.Command? && !c.registered ==> c.settled)
    && (c.kind.Command? && c.registered && c.settled ==> MayReject(c))
    && (c.kind.Gateway? ==> c.callback.None? && c.delivered == [])
  }

  /** The promise was rejected or can still be: it is not called yet. */
  predicate MayReject(c: Child)
  {
    c.kind.Command? && (!c.settled || c.callback.Some? || Rejected in c.delivered)
  }

  ghost predicate WorldInv(w: World)
  {
    && (forall i :: 0 <= i < |w.children| ==> ChildInv(w.children[i]))
    && (w.exitCode.Some? <==> w.firstSignal.Some?)
    && (w.exitCode.Some? ==> w.exitCode.value == ExitCode(w.firstSignal.value))
    && (w.exit.None? ==> w.forceTimer == if w.exitCode.Some? then Some(w.firstTrees) else None)
    && w.firstCount <= |w.children|
    && (forall i :: i in w.firstTrees ==> i < w.firstCount)
    && (w.exitCode.Some? ==> forall i :: 0 <= i < w.firstCount && w.children[i].registered ==> i in w.firstTrees)
    && (w.exitCode.None? ==> w.exit.None? || w.exit.value.ByMain?)
    && (forall i :: 0 <= i < |w.children| && w.children[i].lateClose ==> w.exitCode.Some?)
    && (w.exit.Some? ==> ExitInv(w, w.exit.value))
  }

  /** What each way of leaving guarantees. */
  ghost predicate ExitInv(w: World, exit: Exit)
  {
    match exit
    case Drained(code) =>
      w.firstSignal.Some? && code == ExitCode(w.firstSignal.value) && Registered(w.children) == {}
    case Forced(code) =>
      && w.firstSignal.Some? && code == ExitCode(w.firstSignal.value)
      && forall i :: i in w.firstTrees ==> i < |w.children| && w.children[i].killed
    case ByMain(code) => code == MAIN_FAILURE
  }

  lemma SignalKeepsInv(w: World, signal: Signal)
    requires WorldInv(w) && w.exit.None?
    ensures WorldInv(OnSignal(w, signal))
  {
    var trees := Registered(w.children);
    assert forall i :: i in trees <==> 0 <= i < |w.children| && w.children[i].registered;
  }

  lemma ForceTimerKeepsInv(w: World)
    requires WorldInv(w) && w.exit.None? && w.forceTimer.Some?
    ensures WorldInv(OnForceTimer(w))
  {
    var after := OnForceTimer(w);
    forall i | 0 <= i < |after.children| ensures ChildInv(after.children[i]) {
      assert ChildInv(w.children[i]);
    }
  }

  lemma SpawnKeepsInv(w: World, kind: Kind)
    requires WorldInv(w) && w.exit.None?
    ensures WorldInv(w.(children := w.children + [NewChild(kind)]))
  {
  }

  lemma LogKeepsInv(w: World, i: nat, failed: bool)
    requires WorldInv(w) && w.exit.None? && i < |w.children| && w.children[i].callback.Some?
    ensures WorldInv(Put(w, i, OnLogClosed(w.children[i], failed)))
    ensures WorldInv(ExitIfDone(Put(w, i, OnLogClosed(w.children[i], failed))))
  {
  }

  lemma StepKeepsInv(w: World, e: Event)
    requires WorldInv(w) && Enabled(w, e)
    ensures WorldInv(Step(w, e))
  {
    match e
    case Spawn(kind) => SpawnKeepsInv(w, kind);
    case SignalArrives(signal) => SignalKeepsInv(w, signal);
    case ForceTimerFires => ForceTimerKeepsInv(w);
    case Close(i, code) =>
    case Error(i) =>
    case TimeoutFires(i) =>
    case KillWaitFires(i) =>
    case LogClosed(i, failed) => LogKeepsInv(w, i, failed);
    case MainFails(_) =>
  }

  function Exec(events: seq<Event>): Option<World>
  {
    if events == [] then Some(Initial)
    else
      match Exec(events[..|events| - 1])
      case None => None
      case Some(w) =>
        var e := events[|events| - 1];
        if Enabled(w, e) && (w.forceTimer.Some? ==> w.exitCode.Some?) then Some(Step(w, e)) else None
  }

  lemma {:induction false} ReachableInv(events: seq<Event>)
    requires Exec(events).Some?
    ensures WorldInv(Exec(events).value)
  {
    if events != [] {
      ReachableInv(events[..|events| - 1]);
      StepKeepsInv(Exec(events[..|events| - 1]).value, events[|events| - 1]);
    }
  }

  // ----- the first signal -----

  /** The i-th event is a signal, and the first one. */
  predicate IsFirstSignal(events: seq<Event>, i: nat)
  {
    i < |events| && events[i].SignalArrives? && NoSignal(events[..i])
  }

  /** The exit code is that of the first signal. */
  ghost predicate FirstSignalCode(events: seq<Event>, code: int)
  {
    exists i: nat :: IsFirstSignal(events, i) &&
      code == match events[i].signal case SIGHUP => 129 case SIGINT => 130 case SIGTERM => 143
  }

  predicate NoSignal(events: seq<Event>)
  {
    forall e :: e in events ==> !e.SignalArrives?
  }

  /** The first signal is recorded, with the trees registered then, and nothing later changes the record. */
  lemma FirstSignalDecides(w: World, e: Event)
    requires WorldInv(w) && Enabled(w, e)
    ensures if w.firstSignal.Some? then
              && Step(w, e).firstSignal == w.firstSignal
              && Step(w, e).firstTrees == w.firstTrees && Step(w, e).firstCount == w.firstCount
            else if e.SignalArrives? then
              && Step(w, e).firstSignal == Some(e.signal)
              && Step(w, e).firstTrees == Registered(w.children) && Step(w, e).firstCount == |w.children|
            else Step(w, e).firstSignal.None?
  {
  }

  /** Before a signal nothing is recorded. */
  lemma {:induction false} NoSignalNoRecord(events: seq<Event>)
    requires Exec(events).Some? && NoSignal(events)
    ensures Exec(events).value.firstSignal.None?
  {
    if events != [] {
      var front, last := events[..|events| - 1], events[|events| - 1];
      assert last in events && forall e :: e in front ==> e in events;
      ReachableInv(front);
      NoSignalNoRecord(front);
      FirstSignalDecides(Exec(front).value, last);
    }
  }

  /** The record is that of the first signal in the history. */
  lemma {:induction false} RecordIsOfFirstSignal(events: seq<Event>, i: nat)
    requires Exec(events).Some? && IsFirstSignal(events, i)
    ensures Exec(events[..i]).Some?
    ensures var (w, past) := (Exec(events).value, Exec(events[..i]).value);
      && w.firstSignal == Some(events[i].signal)
      && w.firstTrees == Registered(past.children) && w.firstCount == |past.children|
  {
    var front, last := events[..|events| - 1], events[|events| - 1];
    ReachableInv(front);
    if i == |front| {
      NoSignalNoRecord(front);
    } else {
      assert front[..i] == events[..i];
      RecordIsOfFirstSignal(front, i);
    }
    FirstSignalDecides(Exec(front).value, last);
  }

  lemma {:induction false} SignalHasFirst(events: seq<Event>) returns (i: nat)
    requires !NoSignal(events)
    ensures IsFirstSignal(events, i)
  {
    if NoSignal(events[..|events| - 1]) {
      i := |events| - 1;
      assert events == events[..i] + [events[i]];
    } else {
      i := SignalHasFirst(events[..|events| - 1]);
      assert events[..|events| - 1][..i] == events[..i];
    }
  }

  lemma SignalIsRecorded(events: seq<Event>)
    requires Exec(events).Some?
    ensures Exec(events).value.firstSignal.Some? <==> !NoSignal(events)
  {
    if NoSignal(events) {
      NoSignalNoRecord(events);
    } else {
      var i := SignalHasFirst(events);
      RecordIsOfFirstSignal(events, i);
    }
  }

  lemma RecordedCode(events: seq<Event>)
    requires Exec(events).Some?
    ensures if Exec(events).value.exitCode.Some? then FirstSignalCode(events, Exec(events).value.exitCode.value)
            else NoSignal(events)
  {
    ReachableInv(events);
    SignalIsRecorded(events);
    if !NoSignal(events) {
      var i := SignalHasFirst(events);
      RecordIsOfFirstSignal(events, i);
    }
  }

  /** Every tree registered when the first signal arrived has been sent SIGKILL. */
  ghost predicate CapturedAreKilled(events: seq<Event>, killed: set<nat>)
  {
    forall first: nat :: IsFirstSignal(events, first) ==>
      Exec(events[..first]).Some? && Registered(Exec(events[..first]).value.children) <= killed
  }

  lemma CapturedByRecord(events: seq<Event>, killed: set<nat>)
    requires Exec(events).Some? && Exec(events).value.firstTrees <= killed
    ensures CapturedAreKilled(events, killed)
  {
    forall first: nat | IsFirstSignal(events, first)
      ensures Exec(events[..first]).Some? && Registered(Exec(events[..first]).value.children) <= killed
    {
      RecordIsOfFirstSignal(events, first);
    }
  }

  // ----- the claims -----

  /**
    Drained and forced exits come after a signal and with the first one's code, a drained
    one only when no tree is registered. Every other exit is a failure of the main routine.
  */
  lemma ExitIsRight(events: seq<Event>)
    requires Exec(events).Some? && Exec(events).value.exit.Some?
    ensures var w := Exec(events).value;
      && (if w.exit.value.ByMain? then w.exit.value.code == MAIN_FAILURE
          else FirstSignalCode(events, w.exit.value.code))
      && (w.exit.value.Drained? ==> forall c :: c in w.children ==> !c.registered)
  {
    ReachableInv(events);
    var w := Exec(events).value;
    if !w.exit.value.ByMain? {
      RecordedCode(events);
      if w.exit.value.Drained? {
        forall k | 0 <= k < |w.children| ensures !w.children[k].registered {
          assert k !in Registered(w.children);
        }
      }
    }
  }

  /** A child closes late exactly when a signal had been forwarded before, and what it has done stays done. */
  lemma CloseIsLate(w: World, e: Event, i: nat)
    requires WorldInv(w) && Enabled(w, e) && i < |w.children|
    ensures i < |Step(w, e).children|
    ensures Step(w, e).children[i].lateClose <==>
            w.children[i].lateClose || (e.Close? && e.child == i && w.firstSignal.Some?)
  {
    assert ChildInv(w.children[i]);
  }

  /** The child's close comes after a signal in the history. */
  ghost predicate ClosesLate(events: seq<Event>, child: nat)
  {
    exists k :: 0 <= k < |events| && events[k].Close? && events[k].child == child && !NoSignal(events[..k])
  }

  /** `lateClose` means what it says of the history. */
  lemma {:induction false} LateCloseMeaning(events: seq<Event>, child: nat)
    requires Exec(events).Some? && child < |Exec(events).value.children|
    ensures Exec(events).value.children[child].lateClose <==> ClosesLate(events, child)
  {
    var front, last := events[..|events| - 1], events[|events| - 1];
    var w := Exec(front).value;
    ReachableInv(front);
    LateCloseSnoc(front, last, child);
    assert events == front + [last];
    if child < |w.children| {
      LateCloseMeaning(front, child);
      CloseIsLate(w, last, child);
      SignalIsRecorded(front);
    } else {
      NotYetClosed(front, child);
    }
  }

  lemma LateCloseSnoc(front: seq<Event>, last: Event, child: nat)
    ensures ClosesLate(front + [last], child) <==>
            ClosesLate(front, child) || (last.Close? && last.child == child && !NoSignal(front))
  {
    var events := front + [last];
    assert forall k :: 0 <= k <= |front| ==> events[..k] == front[..k];
    assert front[..|front|] == front;
    if ClosesLate(front, child) {
      var k :| 0 <= k < |front| && front[k].Close? && front[k].child == child && !NoSignal(front[..k]);
      assert events[k] == front[k];
    }
    if last.Close? && last.child == child && !NoSignal(front) {
      assert events[|front|] == last;
    }
  }

  /** No event concerns a child that is not there yet. */
  lemma {:induction false} NotYetClosed(events: seq<Event>, child: nat)
    requires Exec(events).Some? && child >= |Exec(events).value.children|
    ensures !ClosesLate(events, child)
  {
    if events != [] {
      var front, last := events[..|events| - 1], events[|events| - 1];
      assert events == front + [last];
      assert |Exec(front).value.children| <= |Exec(events).value.children|;
      NotYetClosed(front, child);
      LateCloseSnoc(front, last, child);
    }
  }

  /** A child's promise is called at most once, and never with a result when it closed after a signal or timed out. */
  lemma {:induction false} LateCommandHasNoResult(events: seq<Event>, i: nat)
    requires Exec(events).Some? && i < |Exec(events).value.children|
    ensures var c := Exec(events).value.children[i];
      && |c.delivered| <= 1
      && (ClosesLate(events, i) || c.timedOut ==> forall d :: d in c.delivered ==> d == Rejected)
  {
    ReachableInv(events);
    LateCloseMeaning(events, i);
    assert ChildInv(Exec(events).value.children[i]);
  }

  /**
    A forced exit sends SIGKILL to every tree registered when the first signal arrived. Of
    the trees still registered it reaches exactly those that had been spawned by then.
  */
  lemma ForcedExitKills(events: seq<Event>, first: nat)
    requires Exec(events).Some? && Enabled(Exec(events).value, ForceTimerFires) && IsFirstSignal(events, first)
    ensures Exec(events[..first]).Some?
    ensures var (w, past) := (Exec(events).value, Exec(events[..first]).value);
      && w.exitCode.Some?
      && var after := OnForceTimer(w);
         && after.exit == Some(Forced(ExitCode(events[first].signal)))
         && |after.children| == |w.children|
         && (forall i :: i in Registered(past.children) ==> i < |after.children| && after.children[i].killed)
         && (forall i :: 0 <= i < |w.children| && w.children[i].registered ==>
               (after.children[i].killed <==> w.children[i].killed || i < |past.children|))
  {
    ReachableInv(events);
    RecordIsOfFirstSignal(events, first);
  }

  /** A forced exit leaves a tree alone that was started after the signal. */
  lemma ForcedExitMisses() returns (events: seq<Event>)
    ensures events == [Spawn(Gateway), SignalArrives(SIGTERM), Spawn(Gateway), ForceTimerFires]
    ensures Exec(events).Some? && Exec(events).value.exit == Some(Forced(ExitCode(SIGTERM)))
    ensures exists c :: c in Exec(events).value.children && c.registered && !c.killed
  {
    var tree := NewChild(Gateway);
    events := StartAndSignal(Gateway);
    Happens(events, Spawn(Gateway));
    events := events + [Spawn(Gateway)];
    var w := Exec(events).value;
    assert w.children == [tree, tree];
    Happens(events, ForceTimerFires);
    events := events + [ForceTimerFires];
    assert Exec(events).value.children[1] == tree;
  }

  /** One tree and a signal. */
  lemma StartAndSignal(kind: Kind) returns (events: seq<Event>)
    ensures events == [Spawn(kind), SignalArrives(SIGTERM)] && Exec(events).Some?
    ensures var w := Exec(events).value;
      && w.children == [NewChild(kind)] && w.exit.None? && w.exitCode == Some(ExitCode(SIGTERM))
      && w.forceTimer.Some? && w.forceTimer.value == {0}
  {
    var tree := NewChild(kind);
    Happens([], Spawn(kind));
    events := [Spawn(kind)];
    assert [] + events == events;
    assert [] + [tree] == [tree];
    assert 0 in Registered([tree]);
    Happens(events, SignalArrives(SIGTERM));
    events := events + [SignalArrives(SIGTERM)];
  }

  // ----- when the last tree is gone -----

  /** A signal came and no tree is left, yet nothing has ended the process. */
  predicate Waiting(w: World)
  {
    w.exitCode.Some? && w.exit.None? && Registered(w.children) == {}
  }

  /** A command that closed after the signal will end the process when its log is closed. */
  predicate WillExit(c: Child)
  {
    c.callback == Some(ExitWhenDone)
  }

  predicate AnyWillExit(w: World)
  {
    exists i :: 0 <= i < |w.children| && WillExit(w.children[i])
  }

  /** The process waits, and no log is left whose end would end it. */
  predicate Stranded(w: World)
  {
    Waiting(w) && !AnyWillExit(w)
  }

  /** The last registered tree is that of this event's child, and no earlier departure has arranged for the exit. */
  predicate LastTree(w: World, i: nat)
  {
    Registered(w.children) == {i} && !AnyWillExit(w)
  }

  /** The last tree goes by the end or the error of a gateway. */
  predicate GatewayGoesLast(w: World, e: Event)
    requires Enabled(w, e)
  {
    (e.Close? || e.Error?) && w.children[e.child].kind.Gateway? && LastTree(w, e.child)
  }

  /** The last tree goes by a command's error, or by the close of a command that had been given up on. */
  predicate FailureGoesLast(w: World, e: Event)
    requires Enabled(w, e)
  {
    && (e.Error? || (e.Close? && w.children[e.child].settled))
    && w.children[e.child].kind.Command? && LastTree(w, e.child)
  }

  /** The last log whose end would end the process fails instead. */
  predicate LastLogFails(w: World, e: Event)
    requires Enabled(w, e)
  {
    && e.LogClosed? && e.failed && Registered(w.children) == {} && WillExit(w.children[e.child])
    && forall i :: 0 <= i < |w.children| && i != e.child ==> !WillExit(w.children[i])
  }

  /**
    The events after which no tree is left and the registry will not end the process: the
    last tree goes by the end of a gateway, by a command's error or the close of a command
    given up on, or the last log to end it fails. All but the gateway's end leave a promise
    that was rejected or can still be, over which the main routine may fail.
  */
  lemma StrandsExactlyWhen(w: World, e: Event)
    requires WorldInv(w) && Enabled(w, e) && !Stranded(w)
    ensures Stranded(Step(w, e)) <==>
            w.exitCode.Some? && (GatewayGoesLast(w, e) || FailureGoesLast(w, e) || LastLogFails(w, e))
    ensures FailureGoesLast(w, e) || LastLogFails(w, e) ==> MayReject(Step(w, e).children[e.child])
  {
    match e {
      case Spawn(kind) => assert |w.children| in Registered(w.children + [NewChild(kind)]);
      case SignalArrives(_) =>
      case ForceTimerFires =>
      case Close(i, code) => DepartureStrands(w, e, OnClose(w.children[i], code, w.exitCode.Some?));
      case Error(i) => DepartureStrands(w, e, OnError(w.children[i], w.exitCode.Some?));
      case TimeoutFires(i) => TimerChangesNothing(w, i, OnTimeout(w.children[i]));
      case KillWaitFires(i) => TimerChangesNothing(w, i, OnKillWait(w.children[i]));
      case LogClosed(i, failed) => LogStrands(w, i, failed);
      case MainFails(_) =>
    }
  }

  lemma DepartureStrands(w: World, e: Event, c: Child)
    requires WorldInv(w) && Enabled(w, e) && (e.Close? || e.Error?) && !Stranded(w)
    requires c == if e.Close? then OnClose(w.children[e.child], e.code, w.exitCode.Some?)
                  else OnError(w.children[e.child], w.exitCode.Some?)
    ensures Stranded(Put(w, e.child, c)) <==> w.exitCode.Some? && (GatewayGoesLast(w, e) || FailureGoesLast(w, e))
    ensures FailureGoesLast(w, e) ==> MayReject(c)
  {
    var before, after := w.children[e.child], Put(w, e.child, c);
    assert ChildInv(before) && !c.registered;
    DepartureUnregisters(w, e.child, c);
    assert forall i :: 0 <= i < |w.children| && i != e.child ==> after.children[i] == w.children[i];
    assert WillExit(before) ==> WillExit(c) && !before.registered;
    if AnyWillExit(w) {
      var i :| 0 <= i < |w.children| && WillExit(w.children[i]);
      assert WillExit(after.children[i]);
    }
    assert WillExit(c) ==> WillExit(after.children[e.child]);
  }

  lemma DepartureUnregisters(w: World, i: nat, c: Child)
    requires i < |w.children| && !c.registered
    ensures Registered(Put(w, i, c).children) == Registered(w.children) - {i}
  {
  }

  lemma TimerChangesNothing(w: World, i: nat, c: Child)
    requires i < |w.children| && ChildInv(w.children[i]) && !Stranded(w)
    requires c.registered == w.children[i].registered && WillExit(c) == WillExit(w.children[i])
    ensures !Stranded(Put(w, i, c))
  {
    SameRegistered(w, Put(w, i, c));
    if AnyWillExit(w) {
      var k :| 0 <= k < |w.children| && WillExit(w.children[k]);
      assert WillExit(Put(w, i, c).children[k]);
    }
  }

  lemma LogStrands(w: World, i: nat, failed: bool)
    requires WorldInv(w) && Enabled(w, LogClosed(i, failed)) && !Stranded(w)
    ensures Stranded(Step(w, LogClosed(i, failed))) <==> LastLogFails(w, LogClosed(i, failed))
  {
    var called := Put(w, i, OnLogClosed(w.children[i], failed));
    assert ChildInv(w.children[i]);
    SameRegistered(w, called);
    assert forall k :: 0 <= k < |w.children| && k != i ==> called.children[k] == w.children[k];
    assert !WillExit(called.children[i]);
    if AnyWillExit(w) && !WillExit(w.children[i]) {
      var k :| 0 <= k < |w.children| && WillExit(w.children[k]);
      assert WillExit(called.children[k]);
    }
  }

  /**
    In such a state the force timer is armed; the process ends only by it, by another signal
    or by the main routine; and only a new tree changes the state.
  */
  lemma StrandedStays(w: World, e: Event)
    requires WorldInv(w) && Enabled(w, e) && Stranded(w) && !e.Spawn?
    ensures Enabled(w, ForceTimerFires)
    ensures Step(w, e).exit.Some? <==> e.ForceTimerFires? || e.SignalArrives? || e.MainFails?
    ensures Step(w, e).exit.None? ==> Stranded(Step(w, e))
  {
    if !e.ForceTimerFires? && !e.SignalArrives? && !e.MainFails? {
      var i := e.child;
      assert ChildInv(w.children[i]) && !WillExit(w.children[i]) && i !in Registered(w.children);
      assert !w.children[i].registered;
      SameRegistered(w, Step(w, e));
      forall k | 0 <= k < |w.children| ensures !WillExit(Step(w, e).children[k]) {
        assert !WillExit(w.children[k]);
      }
    }
  }

  /** A process that waits without being stranded has a log whose end makes it leave with the first signal's code. */
  lemma WaitingCanDrain(w: World) returns (e: Event)
    requires WorldInv(w) && Waiting(w) && !Stranded(w)
    ensures e.LogClosed? && Enabled(w, e)
    ensures Step(w, e).exit == Some(Drained(ExitCode(w.firstSignal.value))) && Step(w, e).forceTimer.None?
  {
    var i :| 0 <= i < |w.children| && WillExit(w.children[i]);
    e := LogClosed(i, false);
    SameRegistered(w, Put(w, i, OnLogClosed(w.children[i], false)));
  }

  lemma SameRegistered(w: World, after: World)
    requires |after.children| == |w.children|
    requires forall i :: 0 <= i < |w.children| ==> after.children[i].registered == w.children[i].registered
    ensures Registered(after.children) == Registered(w.children)
  {
  }

  // ----- leaving with the main routine's code -----

  predicate AnyMayReject(w: World)
  {
    exists i :: 0 <= i < |w.children| && MayReject(w.children[i])
  }

  /** An event of the children already there: no new tree, no signal, no failure of main's own. */
  predicate OfChildren(e: Event)
  {
    !e.Spawn? && !e.SignalArrives? && e != MainFails(None)
  }

  ghost predicate Continuation(events: seq<Event>, more: seq<Event>)
  {
    Exec(events + more).Some? && forall i :: 0 <= i < |more| ==> OfChildren(more[i])
  }

  /** The children may go on so that the main routine ends the process over one of them. */
  ghost predicate FailsBy(events: seq<Event>, more: seq<Event>)
  {
    Continuation(events, more) && Exec(events + more).value.exit == Some(ByMain(MAIN_FAILURE))
  }

  lemma SettledStaysHarmless(w: World, e: Event)
    requires WorldInv(w) && w.exit.None? && Enabled(w, e) && OfChildren(e) && !AnyMayReject(w)
    ensures !AnyMayReject(Step(w, e)) && Step(w, e).exit != Some(ByMain(MAIN_FAILURE))
  {
    forall i | 0 <= i < |w.children| ensures !MayReject(Step(w, e).children[i]) {
      assert !MayReject(w.children[i]) && ChildInv(w.children[i]);
    }
  }

  lemma {:induction false} HarmlessNeverFails(events: seq<Event>, more: seq<Event>)
    requires Exec(events).Some? && Exec(events).value.exit.None? && !AnyMayReject(Exec(events).value)
    requires Continuation(events, more)
    ensures !AnyMayReject(Exec(events + more).value) && Exec(events + more).value.exit != Some(ByMain(MAIN_FAILURE))
  {
    if more == [] {
      assert events + more == events;
    } else {
      var front := more[..|more| - 1];
      assert (events + more)[..|events + more| - 1] == events + front;
      ReachableInv(events + front);
      HarmlessNeverFails(events, front);
      SettledStaysHarmless(Exec(events + front).value, more[|more| - 1]);
    }
  }

  /** A rejected promise reaches the main routine. */
  lemma RejectedFails(events: seq<Event>, i: nat)
    requires Exec(events).Some? && Exec(events).value.exit.None? && i < |Exec(events).value.children|
    requires Rejected in Exec(events).value.children[i].delivered
    ensures FailsBy(events, [MainFails(Some(i))])
  {
    Happens(events, MainFails(Some(i)));
  }

  /** A pending log may fail, and the promise is rejected then. */
  lemma PendingFails(events: seq<Event>, i: nat)
    requires Exec(events).Some? && Exec(events).value.exit.None? && i < |Exec(events).value.children|
    requires Exec(events).value.children[i].callback.Some?
    ensures FailsBy(events, [LogClosed(i, true), MainFails(Some(i))])
  {
    var longer := events + [LogClosed(i, true)];
    Happens(events, LogClosed(i, true));
    RejectedFails(longer, i);
    assert events + [LogClosed(i, true), MainFails(Some(i))] == longer + [MainFails(Some(i))];
  }

  lemma MayRejectFails(events: seq<Event>, i: nat) returns (more: seq<Event>)
    requires Exec(events).Some? && Exec(events).value.exit.None? && i < |Exec(events).value.children|
    requires MayReject(Exec(events).value.children[i])
    ensures FailsBy(events, more)
  {
    var c := Exec(events).value.children[i];
    ReachableInv(events);
    if Rejected in c.delivered {
      more := [MainFails(Some(i))];
      RejectedFails(events, i);
    } else if c.callback.Some? {
      more := [LogClosed(i, true), MainFails(Some(i))];
      PendingFails(events, i);
    } else {
      var longer, rest := events + [Error(i)], [LogClosed(i, true), MainFails(Some(i))];
      Happens(events, Error(i));
      PendingFails(longer, i);
      more := [Error(i)] + rest;
      assert events + more == longer + rest;
    }
  }

  /**
    Whether the process can end with the main routine's code over its commands - after a
    signal instead of the signal's - without a new tree, another signal or another failure:
    exactly as long as some command's promise was rejected or is not called yet.
  */
  lemma FailurePossibleExactlyWhen(events: seq<Event>)
    requires Exec(events).Some? && Exec(events).value.exit.None?
    ensures (exists more :: FailsBy(events, more)) <==> AnyMayReject(Exec(events).value)
  {
    var w := Exec(events).value;
    if AnyMayReject(w) {
      var i :| 0 <= i < |w.children| && MayReject(w.children[i]);
      var more := MayRejectFails(events, i);
    } else {
      forall more | Continuation(events, more) ensures !FailsBy(events, more) {
        HarmlessNeverFails(events, more);
      }
    }
  }

  /** No tree, no log and no command is left that could end the process. */
  predicate Stuck(w: World)
  {
    Stranded(w) && !AnyMayReject(w)
  }

  /** The log that delivers the last open result, and the result is good. */
  predicate LastResultIsGood(w: World, e: Event)
    requires Enabled(w, e)
  {
    && e.LogClosed? && MayReject(w.children[e.child]) && CallOf(w.children[e.child], e.failed).Some?
    && CallOf(w.children[e.child], e.failed).value.Resolved?
    && forall i :: 0 <= i < |w.children| && i != e.child ==> !MayReject(w.children[i])
  }

  /**
    The events after which nothing the children still do ends the process: the end of a
    gateway, the last tree, when every command has delivered a result or closed late; or,
    with no tree left, the delivery of the last result.
  */
  lemma StuckExactlyWhen(w: World, e: Event)
    requires WorldInv(w) && Enabled(w, e) && !Stuck(w)
    ensures Stuck(Step(w, e)) <==>
            || (w.exitCode.Some? && GatewayGoesLast(w, e) && !AnyMayReject(w))
            || (Stranded(w) && LastResultIsGood(w, e))
  {
    var after := Step(w, e);
    if e.Spawn? {
      assert |w.children| in Registered(after.children);
    } else if !e.SignalArrives? && !e.ForceTimerFires? && !e.MainFails? {
      assert forall i :: 0 <= i < |w.children| && i != e.child ==> after.children[i] == w.children[i];
      assert ChildInv(w.children[e.child]);
      OthersMayReject(w, after, e.child);
      if Stranded(w) {
        StrandedStays(w, e);
        StrandedChild(w, e.child);
      } else {
        StrandsExactlyWhen(w, e);
      }
    }
  }

  /** Only this child's part in the question changes. */
  lemma OthersMayReject(w: World, after: World, i: nat)
    requires i < |w.children| == |after.children|
    requires forall k :: 0 <= k < |w.children| && k != i ==> after.children[k] == w.children[k]
    ensures AnyMayReject(w) <==> MayReject(w.children[i]) || OtherMayReject(w, i)
    ensures AnyMayReject(after) <==> MayReject(after.children[i]) || OtherMayReject(w, i)
  {
    if OtherMayReject(w, i) {
      var k :| 0 <= k < |w.children| && k != i && MayReject(w.children[k]);
      assert MayReject(after.children[k]);
    }
    if AnyMayReject(after) {
      var k :| 0 <= k < |after.children| && MayReject(after.children[k]);
      assert k != i ==> MayReject(w.children[k]);
    }
  }

  predicate OtherMayReject(w: World, i: nat)
  {
    exists k :: 0 <= k < |w.children| && k != i && MayReject(w.children[k])
  }

  lemma StrandedChild(w: World, i: nat)
    requires WorldInv(w) && Stranded(w) && i < |w.children|
    ensures !w.children[i].registered && !WillExit(w.children[i])
    ensures w.children[i].kind.Command? ==> w.children[i].settled
  {
    assert ChildInv(w.children[i]) && i !in Registered(w.children);
  }

  /** The end of a gateway alone leaves the process stuck. */
  lemma GatewayStrands() returns (events: seq<Event>)
    ensures events == [Spawn(Gateway), SignalArrives(SIGTERM), Close(0, None)]
    ensures Exec(events).Some? && Stuck(Exec(events).value)
  {
    events := StartAndSignal(Gateway);
    Happens(events, Close(0, None));
    events := events + [Close(0, None)];
    assert Exec(events).value.children == [OnClose(NewChild(Gateway), None, true)];
  }

  /** A command that fails after the signal: the process leaves with the main routine's code, not the signal's. */
  lemma FailedCommandLeavesByMain() returns (events: seq<Event>)
    ensures Exec(events).Some? && Exec(events).value.exit == Some(ByMain(MAIN_FAILURE))
    ensures |events| > 1 && events[1] == SignalArrives(SIGTERM)
  {
    events := StartAndSignal(Command(true, false));
    var more := MayRejectFails(events, 0);
    events := events + more;
  }

  lemma {:induction false} Happens(events: seq<Event>, e: Event)
    requires Exec(events).Some? && Enabled(Exec(events).value, e)
    ensures Exec(events + [e]) == Some(Step(Exec(events).value, e))
  {
    assert (events + [e])[..|events + [e]| - 1] == events;
    ReachableInv(events);
  }
}
