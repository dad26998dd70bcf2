/**
  The script's own variables, updated by its handlers: the module's registry, exit code
  and force timer, and the variables every command keeps for itself. The events handled
  so far are a history of SignalForwarding, so its theorems hold of these objects.
*/
module SignalForwarder {
  import opened Collections
  import opened SignalForwarding

  /** What a command or gateway keeps for its child, and what it has done: kills and promise calls. */
  class ChildTree {
    const kind: Kind
    var settled: bool
    var timedOut: bool
    var timerArmed: bool
    var killWaitArmed: bool
    var callback: Option<Callback>
    var killed: bool
    var calls: seq<Delivery>

    ghost predicate Matches(c: Child)
      reads this
    {
      && c.kind == kind && c.settled == settled && c.timedOut == timedOut && c.timerArmed == timerArmed
      && c.killWaitArmed == killWaitArmed && c.callback == callback && c.killed == killed && c.delivered == calls
    }

    constructor (kind: Kind)
      ensures Matches(NewChild(kind))
    {
      this.kind := kind;
      settled, timedOut, killWaitArmed, killed := false, false, false, false;
      timerArmed := match kind case Command(_, hasTimeout) => hasTimeout case Gateway => false;
      callback, calls := None, [];
    }

    /** The first settlement stops the timers and closes the log; later ones do nothing. */
    method Finalize(whenLogClosed: Callback, ghost c: Child)
      requires Matches(c)
      modifies this`settled, this`timerArmed, this`killWaitArmed, this`callback
      ensures Matches(SignalForwarding.Finalize(c, whenLogClosed))
    {
      if settled {
        return;
      }
      settled := true;
      timerArmed, killWaitArmed := false, false;
      callback := Some(whenLogClosed);
    }

    /** What the promise is called with once the log is closed, if it is. */
    method Answer(logFailed: bool, ghost c: Child) returns (call: Option<Delivery>)
      requires Matches(c) && callback.Some?
      ensures call == CallOf(c, logFailed)
    {
      if logFailed {
        return Some(Rejected);
      }
      match callback.value {
        case DeliverResult(code) =>
          var failed := timedOut || (kind.Command? && kind.check && code != 0);
          call := Some(if failed then Rejected else Resolved(code));
        case DeliverError =>
          call := Some(Rejected);
        case DeliverUncleanTimeout =>
          call := Some(Rejected);
        case ExitWhenDone =>
          call := None;
      }
    }

    /** The closed log calls the promise, or else the process may end. */
    method CallBack(logFailed: bool, ghost c: Child) returns (exitWhenDone: bool)
      requires Matches(c) && callback.Some?
      modifies this`callback, this`calls
      ensures Matches(SignalForwarding.OnLogClosed(c, logFailed))
      ensures exitWhenDone <==> CallOf(c, logFailed).None?
    {
      var call := Answer(logFailed, c);
      callback := None;
      calls := calls + (if call.Some? then [call.value] else []);
      exitWhenDone := call.None?;
    }

    /** The time limit: SIGKILL at once, and a last wait for the command to close. */
    method TimeOut(ghost c: Child)
      requires Matches(c)
      modifies this`timedOut, this`timerArmed, this`killed, this`killWaitArmed
      ensures Matches(SignalForwarding.OnTimeout(c))
    {
      timedOut := true;
      timerArmed := false;
      killed := true;
      killWaitArmed := true;
    }

    method GiveUp(ghost c: Child)
      requires Matches(c)
      modifies this`settled, this`timerArmed, this`killWaitArmed, this`callback
      ensures Matches(SignalForwarding.OnKillWait(c))
    {
      killWaitArmed := false;
      Finalize(DeliverUncleanTimeout, c.(killWaitArmed := false));
    }

    /** A command has failed: it is settled, after a signal not without SIGKILL. */
    method Fail(forwarded: bool, ghost c: Child)
      requires Matches(c) && kind.Command?
      modifies this`killed, this`settled, this`timerArmed, this`killWaitArmed, this`callback
      ensures Matches(SignalForwarding.OnError(c, forwarded))
      ensures forwarded ==> killed
    {
      killed := killed || forwarded;
      Finalize(DeliverError, Leave(c, forwarded));
    }

    /** A command has closed in time: its exit code is the result to deliver. */
    method Close(code: Option<int>, ghost c: Child)
      requires Matches(c) && kind.Command?
      modifies this`settled, this`timerArmed, this`killWaitArmed, this`callback
      ensures Matches(SignalForwarding.OnClose(c, code, false))
    {
      var exitCode := 1;
      if code.Some? {
        exitCode := code.value;
      }
      Finalize(DeliverResult(exitCode), Leave(c, false).(closed := true, lateClose := false));
    }

    /** A command has closed after a signal: its group is killed, and no result will be delivered. */
    method CloseLate(code: Option<int>, ghost c: Child)
      requires Matches(c) && kind.Command?
      modifies this`killed, this`settled, this`timerArmed, this`killWaitArmed, this`callback
      ensures Matches(SignalForwarding.OnClose(c, code, true))
      ensures killed
    {
      killed := true;
      Finalize(ExitWhenDone, Leave(c, true).(closed := true, lateClose := true));
    }
  }

  class Forwarder {
    var trees: seq<ChildTree>
    var active: set<nat>
    var exitCode: Option<int>
    var forceTimer: Option<set<nat>>
    var exit: Option<Exit>
    ghost var events: seq<Event>

    /** The world the events handled so far lead to. */
    ghost function Past(): World
      requires Exec(events).Some?
      reads this`events
    {
      Exec(events).value
    }

    /** The objects hold what that world says. */
    ghost predicate Follows(w: World)
      reads this, trees
    {
      && exitCode == w.exitCode && forceTimer == w.forceTimer && exit == w.exit
      && |trees| == |w.children| && active == Registered(w.children)
      && forall i :: 0 <= i < |trees| ==> trees[i].Matches(w.children[i])
    }

    ghost predicate Valid()
      reads this, trees
    {
      && (forall i, j :: 0 <= i < j < |trees| ==> trees[i] != trees[j])
      && Exec(events).Some? && Follows(Past())
    }

    /** What may happen next. */
    ghost predicate CanHappen(e: Event)
      requires Exec(events).Some?
      reads this`events
    {
      Enabled(Past(), e)
    }

    constructor ()
      ensures Valid() && events == []
    {
      trees, active, exitCode, forceTimer, exit := [], {}, None, None, None;
      events := [];
    }

    ghost method Record(e: Event)
      requires Exec(events).Some? && CanHappen(e)
      modifies this`events
      ensures events == old(events) + [e] && Exec(events) == Some(Step(old(Past()), e))
    {
      Happens(events, e);
      events := events + [e];
    }

    /** The trees that were sent SIGKILL. */
    ghost function Killed(): set<nat>
      reads this`trees, trees
    {
      set i: nat | i < |trees| && trees[i].killed
    }

    /** What the theorems say of these objects. */
    lemma WhatIsKnown()
      requires Valid()
      ensures exitCode.Some? ==> FirstSignalCode(events, exitCode.value)
      ensures exit.None? && forceTimer.Some? ==> exitCode.Some? && forceTimer == Some(Past().firstTrees)
      ensures exit.Some? ==>
                if exit.value.ByMain? then exit.value.code == MAIN_FAILURE else exitCode == Some(exit.value.code)
      ensures exit.Some? && exit.value.Drained? ==> active == {}
      ensures exit.Some? && exit.value.Forced? ==> CapturedAreKilled(events, Killed())
    {
      ReachableInv(events);
      RecordedCode(events);
      if exit.Some? && exit.value.Forced? {
        forall i | i in Past().firstTrees ensures i in Killed() {
          assert trees[i].Matches(Past().children[i]);
        }
        CapturedByRecord(events, Killed());
      }
    }

    method Register(kind: Kind) returns (id: nat)
      requires Valid() && exit.None?
      modifies this
      ensures Valid() && events == old(events) + [Spawn(kind)]
      ensures id == |old(trees)| && trees[..id] == old(trees) && active == old(active) + {id}
    {
      id := |trees|;
      var tree := new ChildTree(kind);
      Record(Spawn(kind));
      trees := trees + [tree];
      active := active + {id};
    }

    /** A signal ends the process at once only when no tree is registered, with the first signal's code. */
    method OnSignal(signal: Signal)
      requires Valid() && exit.None?
      modifies this
      ensures Valid() && events == old(events) + [SignalArrives(signal)] && trees == old(trees)
      ensures exitCode.Some? && FirstSignalCode(events, exitCode.value)
      ensures active == old(active) && exit == if active == {} then Some(Drained(exitCode.value)) else None
    {
      Record(SignalArrives(signal));
      if exitCode.None? {
        exitCode := Some(match signal case SIGHUP => 129 case SIGINT => 130 case SIGTERM => 143);
      }
      if active == {} {
        exit := Some(Drained(exitCode.value));
      } else if forceTimer.None? {
        forceTimer := Some(active);
      }
      WhatIsKnown();
    }

    /** The process ends by force only after every tree registered at the first signal was sent SIGKILL. */
    method OnForceTimer()
      requires Valid() && exit.None? && forceTimer.Some?
      modifies this`exit, this`events, trees
      ensures Valid() && events == old(events) + [ForceTimerFires]
      ensures exit.Some? && exit.value.Forced? && FirstSignalCode(events, exit.value.code)
      ensures CapturedAreKilled(events, Killed())
    {
      ghost var before := Past();
      WhatIsKnown();
      Record(ForceTimerFires);
      KillAll(forceTimer.value, before.children);
      exit := Some(Forced(exitCode.value));
      WhatIsKnown();
    }

    method KillAll(captured: set<nat>, ghost before: seq<Child>)
      requires forall i, j :: 0 <= i < j < |trees| ==> trees[i] != trees[j]
      requires |before| == |trees| && forall i :: 0 <= i < |trees| ==> trees[i].Matches(before[i])
      modifies trees
      ensures forall i :: 0 <= i < |trees| ==>
                trees[i].Matches(if i in captured then before[i].(killed := true) else before[i])
    {
      for i := 0 to |trees|
        invariant forall k :: 0 <= k < i ==>
                    trees[k].Matches(if k in captured then before[k].(killed := true) else before[k])
        invariant forall k :: i <= k < |trees| ==> trees[k].Matches(before[k])
      {
        if i in captured {
          trees[i].killed := true;
        }
      }
    }

    /** Nothing but a last tree gone after a signal ends the process here. */
    method ExitWhenChildTreesDone(ghost w: World)
      requires Follows(w)
      modifies this`forceTimer, this`exit
      ensures Follows(ExitIfDone(w))
      ensures exit != old(exit) ==> active == {} && exitCode.Some? && exit == Some(Drained(exitCode.value))
    {
      if exitCode.None? || active != {} {
        return;
      }
      forceTimer := None;
      exit := Some(Drained(exitCode.value));
    }

    /** A tree leaves the registry as its child closes; a command closed after a signal was killed before. */
    method OnClose(id: nat, code: Option<int>)
      requires Valid() && CanHappen(Event.Close(id, code))
      modifies this`active, this`events, trees[id]
      ensures Valid() && events == old(events) + [Event.Close(id, code)]
      ensures active == old(active) - {id}
      ensures exitCode.Some? && trees[id].kind.Command? ==> trees[id].killed
    {
      ghost var before := Past();
      Record(Event.Close(id, code));
      if trees[id].kind.Command? {
        if exitCode.Some? {
          trees[id].CloseLate(code, before.children[id]);
        } else {
          trees[id].Close(code, before.children[id]);
        }
      }
      active := active - {id};
      DepartureUnregisters(before, id, Past().children[id]);
    }

    /** A tree leaves the registry as its child fails; a command failed after a signal was killed before. */
    method OnError(id: nat)
      requires Valid() && CanHappen(Error(id))
      modifies this`active, this`events, trees[id]
      ensures Valid() && events == old(events) + [Error(id)]
      ensures active == old(active) - {id}
      ensures exitCode.Some? && trees[id].kind.Command? ==> trees[id].killed
    {
      ghost var before := Past();
      Record(Error(id));
      if trees[id].kind.Command? {
        trees[id].Fail(exitCode.Some?, before.children[id]);
      }
      active := active - {id};
      DepartureUnregisters(before, id, Past().children[id]);
    }

    method OnTimeout(id: nat)
      requires Valid() && CanHappen(TimeoutFires(id))
      modifies this`events, trees[id]
      ensures Valid() && events == old(events) + [TimeoutFires(id)]
      ensures trees[id].killed && trees[id].killWaitArmed
    {
      ghost var before := Past();
      Record(TimeoutFires(id));
      trees[id].TimeOut(before.children[id]);
    }

    method OnKillWait(id: nat)
      requires Valid() && CanHappen(KillWaitFires(id))
      modifies this`events, trees[id]
      ensures Valid() && events == old(events) + [KillWaitFires(id)]
      ensures trees[id].settled
    {
      ghost var before := Past();
      Record(KillWaitFires(id));
      trees[id].GiveUp(before.children[id]);
    }

    /**
      The log of a command is closed. Its promise has then been called at most once, never
      with a result after a late close or a timeout; the process may end, but only with no
      tree left and with the first signal's code.
    */
    method OnLogClosed(id: nat, failed: bool)
      requires Valid() && CanHappen(LogClosed(id, failed))
      modifies this`forceTimer, this`exit, this`events, trees[id]
      ensures Valid() && events == old(events) + [LogClosed(id, failed)]
      ensures id < |trees| && CalledRightly(id)
      ensures exit.Some? ==> exit.value.Drained? && active == {} && FirstSignalCode(events, exit.value.code)
    {
      ghost var before := Past();
      Record(LogClosed(id, failed));
      var exitWhenDone := trees[id].CallBack(failed, before.children[id]);
      ghost var called := Put(before, id, SignalForwarding.OnLogClosed(before.children[id], failed));
      SameRegistered(before, called);
      if exitWhenDone {
        ExitWhenChildTreesDone(called);
      }
      WhatWasCalled(id);
      WhatIsKnown();
    }

    /** The promise was called at most once, and not with a result when it must not. */
    ghost predicate CalledRightly(id: nat)
      requires id < |trees|
      reads this, trees
    {
      && |trees[id].calls| <= 1
      && (ClosesLate(events, id) || trees[id].timedOut ==> forall call :: call in trees[id].calls ==> call == Rejected)
    }

    lemma WhatWasCalled(id: nat)
      requires Valid() && id < |trees|
      ensures CalledRightly(id)
    {
      LateCommandHasNoResult(events, id);
      assert trees[id].Matches(Past().children[id]);
    }

    lemma WhatRejected(cause: Option<nat>)
      requires Valid() && CanHappen(MainFails(cause))
      ensures cause.Some? ==> cause.value < |trees| && Rejected in trees[cause.value].calls
    {
      if cause.Some? {
        assert trees[cause.value].Matches(Past().children[cause.value]);
      }
    }

    /** The main routine ends the process: over a command whose promise was rejected, or for a reason of its own. */
    method OnMainFailure(cause: Option<nat>)
      requires Valid() && CanHappen(MainFails(cause))
      modifies this`exit, this`events
      ensures Valid() && events == old(events) + [MainFails(cause)] && exit == Some(ByMain(MAIN_FAILURE))
      ensures cause.Some? ==> cause.value < |trees| && Rejected in trees[cause.value].calls
    {
      WhatRejected(cause);
      LeaveByMain(Past());
      Record(MainFails(cause));
    }

    method LeaveByMain(ghost w: World)
      requires Follows(w)
      modifies this`exit
      ensures Follows(w.(exit := Some(ByMain(MAIN_FAILURE)))) && exit == Some(ByMain(MAIN_FAILURE))
    {
      exit := Some(ByMain(1));
    }
  }
}
