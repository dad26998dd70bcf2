/**
  Watching an endpoint through a restart: probes until the endpoint has been seen down
  and up again, until it is known that it never went down, or until time is up.
*/
module RestartProbe {
  import opened Collections

  /** One probe: when it came back, measured from the restart signal, and what it saw. */
  datatype Attempt = Attempt(ms: real, status: Option<int>, errorKind: Option<string>)

  /** A turn of the loop: whether the caller was done before it, and its probe. */
  datatype Round = Round(callerDone: bool, attempt: Attempt)

  datatype Transition = Transition(ms: real, status: Option<int>, errorKind: Option<string>)

  datatype ProbeResult = ProbeResult(
    downtimeMs: Option<real>, firstErrorKind: Option<string>, firstRecoveryMs: Option<real>, ms: Option<real>,
    status: Option<int>, transitions: seq<Transition>, unavailableMs: Option<real>)

  predicate Up(a: Attempt) { a.status == Some(200) }

  function Kind(a: Attempt): Option<string>
  {
    if a.errorKind == Some("") then None else a.errorKind
  }

  /** What makes two probes look alike. */
  function StateKey(a: Attempt): (Option<int>, string)
  {
    (a.status, match a.errorKind case Some(kind) => kind case None => "ok")
  }

  /** The first attempt of each stretch of attempts that look alike. */
  function Collapse(history: seq<Attempt>): seq<Transition>
  {
    if history == [] then []
    else
      var front, last := history[..|history| - 1], history[|history| - 1];
      if front != [] && StateKey(front[|front| - 1]) == StateKey(last) then Collapse(front)
      else Collapse(front) + [Transition(last.ms, last.status, Kind(last))]
  }

  function FirstDown(history: seq<Attempt>): Option<real>
  {
    if history == [] then None else if !Up(history[0]) then Some(history[0].ms) else FirstDown(history[1..])
  }

  function FirstKind(history: seq<Attempt>): Option<string>
  {
    if history == [] then None else if Kind(history[0]).Some? then Kind(history[0]) else FirstKind(history[1..])
  }

  /** The latest attempt is the first success after an outage. */
  predicate Recovers(history: seq<Attempt>)
  {
    history != [] && Up(history[|history| - 1]) && FirstDown(history).Some?
  }

  function Attempts(rounds: seq<Round>): (history: seq<Attempt>)
    ensures |history| == |rounds|
  {
    seq(|rounds|, i requires 0 <= i < |rounds| => rounds[i].attempt)
  }

  /** The loop stops before round i: time is up, or the caller is done and nothing but successes were seen. */
  predicate StopsBefore(rounds: seq<Round>, i: nat)
    requires i <= |rounds|
  {
    i == |rounds| || (rounds[i].callerDone && i > 0 && FirstDown(Attempts(rounds[..i])).None?)
  }

  /** What is reported about the attempts made. */
  function Report(history: seq<Attempt>): ProbeResult
  {
    var down := FirstDown(history);
    var last := if history == [] then None else Some(history[|history| - 1]);
    var status := if last.Some? then last.value.status else None;
    if Recovers(history) then
      var now := last.value.ms;
      ProbeResult(Some(now - down.value), FirstKind(history), Some(now), Some(now), status, Collapse(history), down)
    else
      ProbeResult(None, FirstKind(history), None,
                  if down.None? && last.Some? then Some(last.value.ms) else None, status, Collapse(history), down)
  }

  lemma {:induction false} FirstDownSnoc(history: seq<Attempt>, last: Attempt)
    ensures FirstDown(history + [last]) ==
            if FirstDown(history).Some? then FirstDown(history) else if Up(last) then None else Some(last.ms)
    ensures FirstKind(history + [last]) == if FirstKind(history).Some? then FirstKind(history) else Kind(last)
  {
    var all := history + [last];
    if history != [] {
      assert all[1..] == history[1..] + [last];
      FirstDownSnoc(history[1..], last);
    } else {
      assert all[1..] == [];
    }
  }

  /** The variables of the loop. */
  datatype Watch = Watch(
    firstErrorKind: Option<string>, lastStatus: Option<int>, lastStateKey: Option<(Option<int>, string)>,
    lastSuccessMs: Option<real>, unavailableMs: Option<real>, transitions: seq<Transition>)

  const Fresh := Watch(None, None, None, None, None, [])

  function Observe(w: Watch, a: Attempt): Watch
  {
    Watch(
      if Kind(a).Some? && w.firstErrorKind.None? then Kind(a) else w.firstErrorKind,
      a.status,
      Some(StateKey(a)),
      if Up(a) then Some(a.ms) else w.lastSuccessMs,
      if !Up(a) && w.unavailableMs.None? then Some(a.ms) else w.unavailableMs,
      if Some(StateKey(a)) != w.lastStateKey then w.transitions + [Transition(a.ms, a.status, Kind(a))]
      else w.transitions)
  }

  /** The variables hold what they should after these attempts. */
  predicate Tracks(w: Watch, history: seq<Attempt>)
  {
    && w.firstErrorKind == FirstKind(history)
    && w.unavailableMs == FirstDown(history)
    && w.transitions == Collapse(history)
    && (if history == [] then w.lastStatus.None? && w.lastStateKey.None? && w.lastSuccessMs.None?
        else w.lastStatus == history[|history| - 1].status && w.lastStateKey == Some(StateKey(history[|history| - 1])))
    && (w.unavailableMs.None? && history != [] ==>
          Up(history[|history| - 1]) && w.lastSuccessMs == Some(history[|history| - 1].ms))
  }

  lemma ObserveTracks(w: Watch, history: seq<Attempt>, a: Attempt)
    requires Tracks(w, history)
    ensures Tracks(Observe(w, a), history + [a])
  {
    FirstDownSnoc(history, a);
  }

  lemma AttemptsSnoc(rounds: seq<Round>, i: nat)
    requires i < |rounds|
    ensures Attempts(rounds[..i + 1]) == Attempts(rounds[..i]) + [rounds[i].attempt]
  {
  }

  /** Which endpoint is probed in which iteration, and how long after the sample's start the signal was sent. */
  datatype Probe = Probe(iteration: int, path: string, lead: real)

  datatype BenchmarkEvent = BenchmarkEvent(
    iteration: int, ms: real, status: Option<int>, eventType: string, errorKind: Option<string>)

  function EventOf(probe: Probe, t: Transition): BenchmarkEvent
  {
    BenchmarkEvent(probe.iteration, t.ms + probe.lead, t.status, probe.path + ":transition", t.errorKind)
  }

  function EventsOf(probe: Probe, transitions: seq<Transition>): (events: seq<BenchmarkEvent>)
    ensures |events| == |transitions|
  {
    seq(|transitions|, i requires 0 <= i < |transitions| => EventOf(probe, transitions[i]))
  }

  /** Each transition's event: the probe's iteration and path, and its time from the start of the sample. */
  lemma EventsMeaning(probe: Probe, transitions: seq<Transition>, k: nat)
    requires k < |transitions|
    ensures var (e, t) := (EventsOf(probe, transitions)[k], transitions[k]);
      && e.iteration == probe.iteration && e.eventType == probe.path + ":transition"
      && e.ms - probe.lead == t.ms && e.status == t.status && e.errorKind == t.errorKind
  {
  }

  function NewEvents(probe: Probe, w: Watch, a: Attempt): seq<BenchmarkEvent>
  {
    if Some(StateKey(a)) != w.lastStateKey then [EventOf(probe, Transition(a.ms, a.status, Kind(a)))] else []
  }

  /** One probe, noted in the loop's variables. */
  method Note(attempt: Attempt, probe: Probe, w: Watch, events0: seq<BenchmarkEvent>)
      returns (next: Watch, events: seq<BenchmarkEvent>)
    ensures next == Observe(w, attempt)
    ensures events == events0 + NewEvents(probe, w, attempt)
  {
    var firstErrorKind, transitions := w.firstErrorKind, w.transitions;
    var lastSuccessMs, unavailableMs, lastStateKey := w.lastSuccessMs, w.unavailableMs, w.lastStateKey;
    events := events0;
    if Some(StateKey(attempt)) != lastStateKey {
      transitions := transitions + [Transition(attempt.ms, attempt.status, Kind(attempt))];
      events := events + [BenchmarkEvent(probe.iteration, attempt.ms + probe.lead, attempt.status,
                                         probe.path + ":transition", Kind(attempt))];
      lastStateKey := Some(StateKey(attempt));
    }
    if Kind(attempt).Some? && firstErrorKind == None {
      firstErrorKind := Kind(attempt);
    }
    if !Up(attempt) && unavailableMs == None {
      unavailableMs := Some(attempt.ms);
    }
    if Up(attempt) {
      lastSuccessMs := Some(attempt.ms);
    }
    next := Watch(firstErrorKind, attempt.status, lastStateKey, lastSuccessMs, unavailableMs, transitions);
  }

  /** No reason to stop so far. */
  ghost predicate GoesOn(rounds: seq<Round>, used: nat)
    requires used <= |rounds|
  {
    forall i :: 0 <= i < used ==> !Stops(rounds, i)
  }

  /** The loop ends after i rounds: the endpoint has recovered, or there is no further round for it. */
  ghost predicate Stops(rounds: seq<Round>, i: nat)
    requires i <= |rounds|
  {
    Recovers(Attempts(rounds[..i])) || StopsBefore(rounds, i)
  }

  /**
    The probe loop. It stops at the first success after an outage, else where time is up
    or the caller has seen enough, and reports exactly the attempts made until then; the
    benchmark's event list has grown by the transitions, timed from the sample's start.
  */
  method WaitForRestartProbe(rounds: seq<Round>, probe: Probe, events0: seq<BenchmarkEvent>)
      returns (result: ProbeResult, used: nat, events: seq<BenchmarkEvent>)
    ensures used <= |rounds| && Stops(rounds, used) && GoesOn(rounds, used)
    ensures result == Report(Attempts(rounds[..used]))
    ensures events == events0 + EventsOf(probe, result.transitions)
  {
    var w := Fresh;
    used, events := 0, events0;
    assert EventsOf(probe, []) == [];
    while used < |rounds|
      invariant used <= |rounds| && Tracks(w, Attempts(rounds[..used]))
      invariant events == events0 + EventsOf(probe, w.transitions)
      invariant !Recovers(Attempts(rounds[..used])) && GoesOn(rounds, used)
    {
      if rounds[used].callerDone && w.unavailableMs == None && w.lastSuccessMs != None {
        result := ProbeResult(None, w.firstErrorKind, None, w.lastSuccessMs, Some(200), w.transitions, None);
        return;
      }
      assert !Stops(rounds, used);
      var attempt := rounds[used].attempt;
      ghost var before := w;
      w, events := Note(attempt, probe, w, events);
      Observed(before, w, rounds, used, probe);
      used := used + 1;
      if Up(attempt) && w.unavailableMs != None {
        result := ProbeResult(Some(attempt.ms - w.unavailableMs.value), w.firstErrorKind, Some(attempt.ms),
                              Some(attempt.ms), attempt.status, w.transitions, w.unavailableMs);
        return;
      }
    }
    result := ProbeResult(None, w.firstErrorKind, None, if w.unavailableMs == None then w.lastSuccessMs else None,
                          w.lastStatus, w.transitions, w.unavailableMs);
  }

  /** After one more round the variables and the events follow one more attempt. */
  lemma Observed(before: Watch, w: Watch, rounds: seq<Round>, used: nat, probe: Probe)
    requires used < |rounds| && Tracks(before, Attempts(rounds[..used])) && w == Observe(before, rounds[used].attempt)
    ensures Tracks(w, Attempts(rounds[..used + 1]))
    ensures EventsOf(probe, w.transitions) ==
            EventsOf(probe, before.transitions) + NewEvents(probe, before, rounds[used].attempt)
    ensures Attempts(rounds[..used + 1])[used] == rounds[used].attempt
    ensures Recovers(Attempts(rounds[..used + 1])) <==> Up(rounds[used].attempt) && w.unavailableMs != None
  {
    ObserveTracks(before, Attempts(rounds[..used]), rounds[used].attempt);
    AttemptsSnoc(rounds, used);
  }

  // ----- what the report means -----

  ghost predicate InOrder(history: seq<Attempt>)
  {
    forall i, j :: 0 <= i < j < |history| ==> history[i].ms <= history[j].ms
  }

  /** The endpoint answered this attempt with status 200. */
  predicate Answered(a: Attempt) { a.status == Some(200) }

  /** This attempt names the error it met. */
  predicate Names(a: Attempt, kind: string) { a.errorKind == Some(kind) && kind != "" }

  lemma {:induction false} FirstDownMeaning(history: seq<Attempt>)
    ensures FirstDown(history).None? <==> forall i :: 0 <= i < |history| ==> Answered(history[i])
    ensures FirstDown(history).Some? ==>
      exists i :: 0 <= i < |history| && !Answered(history[i]) && FirstDown(history).value == history[i].ms
                  && forall k :: 0 <= k < i ==> Answered(history[k])
  {
    if history != [] {
      FirstDownMeaning(history[1..]);
      if Answered(history[0]) && FirstDown(history).Some? {
        var i :| 0 <= i < |history[1..]| && !Answered(history[1..][i])
                 && FirstDown(history).value == history[1..][i].ms
                 && forall k :: 0 <= k < i ==> Answered(history[1..][k]);
        assert history[i + 1] == history[1..][i];
        assert forall k :: 0 < k < i + 1 ==> history[k] == history[1..][k - 1];
      }
      assert forall k :: 0 < k < |history| ==> history[k] == history[1..][k - 1];
    }
  }

  /** The first error named is that of the first attempt that names one. */
  lemma {:induction false} FirstKindMeaning(history: seq<Attempt>)
    ensures FirstKind(history).None? <==> forall i, kind :: 0 <= i < |history| ==> !Names(history[i], kind)
    ensures FirstKind(history).Some? ==>
      exists i :: 0 <= i < |history| && Names(history[i], FirstKind(history).value)
                  && forall k, kind :: 0 <= k < i ==> !Names(history[k], kind)
  {
    if history != [] {
      FirstKindMeaning(history[1..]);
      assert forall k :: 0 < k < |history| ==> history[k] == history[1..][k - 1];
      if Kind(history[0]).Some? {
        assert Names(history[0], Kind(history[0]).value);
      } else if FirstKind(history).Some? {
        var i :| 0 <= i < |history[1..]| && Names(history[1..][i], FirstKind(history).value)
                 && forall k, kind :: 0 <= k < i ==> !Names(history[1..][k], kind);
        assert history[i + 1] == history[1..][i];
        assert forall k :: 0 < k < i + 1 ==> history[k] == history[1..][k - 1];
      }
    }
  }

  /** Some attempt failed, and the last one was answered. */
  ghost predicate IsOver(history: seq<Attempt>)
  {
    && history != [] && Answered(history[|history| - 1])
    && exists i :: 0 <= i < |history| && !Answered(history[i])
  }

  /**
    The report: the last status; an outage from its first failure to its first success,
    measured only once it is over, and with probes in order never negative; without an
    outage the time of the last success.
  */
  lemma ReportMeaning(history: seq<Attempt>)
    ensures var r := Report(history);
      && r.status == (if history == [] then None else history[|history| - 1].status)
      && (r.unavailableMs.None? <==> forall i :: 0 <= i < |history| ==> Answered(history[i]))
      && (if IsOver(history) then
            var now := history[|history| - 1].ms;
            r.unavailableMs.Some? && r.ms == r.firstRecoveryMs == Some(now)
            && r.downtimeMs == Some(now - r.unavailableMs.value)
          else r.downtimeMs.None? && r.firstRecoveryMs.None?
               && r.ms == if history == [] || r.unavailableMs.Some? then None else Some(history[|history| - 1].ms))
    ensures InOrder(history) && Report(history).downtimeMs.Some? ==> Report(history).downtimeMs.value >= 0.0
  {
    FirstDownMeaning(history);
  }

  /**
    The loop ends after so many rounds when the endpoint has just answered after a failure,
    when there is no further round, or when the caller is done and every attempt so far, of
    at least one, was answered.
  */
  lemma StopsMeaning(rounds: seq<Round>, i: nat)
    requires i <= |rounds|
    ensures Stops(rounds, i) <==>
      || i == |rounds|
      || IsOver(Attempts(rounds[..i]))
      || (rounds[i].callerDone && i > 0 && forall k :: 0 <= k < i ==> Answered(rounds[k].attempt))
  {
    var history := Attempts(rounds[..i]);
    FirstDownMeaning(history);
    assert forall k :: 0 <= k < i ==> history[k] == rounds[k].attempt;
  }

  /** The two attempts have the same status and name the same error, or none. */
  predicate LookAlike(a: Attempt, b: Attempt)
  {
    && a.status == b.status
    && (if a.errorKind.Some? then a.errorKind.value else "ok") ==
       (if b.errorKind.Some? then b.errorKind.value else "ok")
  }

  /** The attempt looks different from the one before it. */
  predicate Changes(history: seq<Attempt>, i: int)
  {
    0 <= i < |history| && (i == 0 || !LookAlike(history[i], history[i - 1]))
  }

  /** These are the attempts at which the state changes, in order. */
  ghost predicate MarksChanges(history: seq<Attempt>, at: seq<int>)
  {
    && (forall j, k :: 0 <= j < k < |at| ==> at[j] < at[k])
    && (forall i :: i in at <==> Changes(history, i))
  }

  /** The transitions are those of these attempts. */
  ghost predicate TransitionsAt(history: seq<Attempt>, at: seq<int>)
  {
    && |at| == |Collapse(history)|
    && forall j :: 0 <= j < |at| ==>
         && 0 <= at[j] < |history|
         && IsTransitionTo(Collapse(history)[j], history[at[j]])
  }

  /** The time and status of the attempt and the error it names. */
  predicate IsTransitionTo(t: Transition, a: Attempt)
  {
    && t.ms == a.ms && t.status == a.status
    && t.errorKind == if a.errorKind == Some("") then None else a.errorKind
  }

  lemma MarksNext(history: seq<Attempt>, last: Attempt, at: seq<int>)
    requires MarksChanges(history, at)
    ensures MarksChanges(history + [last], if Changes(history + [last], |history|) then at + [|history|] else at)
  {
    var all, n := history + [last], |history|;
    forall i | i != n ensures Changes(all, i) <==> Changes(history, i) {
    }
    assert forall j :: 0 <= j < |at| ==> at[j] in at;
  }

  lemma {:induction false} CollapseSnoc(history: seq<Attempt>, last: Attempt)
    ensures Collapse(history + [last]) ==
            Collapse(history) +
            if Changes(history + [last], |history|) then [Transition(last.ms, last.status, Kind(last))] else []
  {
    var n := |history|;
    assert (history + [last])[..n] == history;
    assert n > 0 ==> (StateKey(history[n - 1]) == StateKey(last) <==> LookAlike(last, history[n - 1]));
  }

  lemma {:induction false} TransitionsNext(history: seq<Attempt>, last: Attempt, at: seq<int>)
    requires TransitionsAt(history, at)
    ensures TransitionsAt(history + [last], if Changes(history + [last], |history|) then at + [|history|] else at)
  {
    var all := history + [last];
    CollapseSnoc(history, last);
    forall j | 0 <= j < |at| ensures all[at[j]] == history[at[j]] && IsTransitionTo(Collapse(all)[j], all[at[j]]) {
      assert Collapse(all)[j] == Collapse(history)[j];
    }
    assert IsTransitionTo(Transition(last.ms, last.status, Kind(last)), last);
  }

  /** The transitions are the attempts at which the state changes, all of them, once each and in order. */
  lemma {:induction false} CollapseMeaning(history: seq<Attempt>) returns (at: seq<int>)
    ensures MarksChanges(history, at) && TransitionsAt(history, at)
  {
    at := [];
    if history != [] {
      var front, last := history[..|history| - 1], history[|history| - 1];
      SplitLast(history);
      at := CollapseMeaning(front);
      MarksNext(front, last, at);
      TransitionsNext(front, last, at);
      at := if Changes(front + [last], |front|) then at + [|front|] else at;
    }
  }
}
