/**
 The shared breaker and the clock, seen through what becomes of the calls: every admission request,
 success and exhaustion is reported to the breaker when it happens, and calls wait as they should.
 */
module SharedHistory {
  import opened Graphs
  import opened Resilience
  import opened SharedBreaker
  import opened Breaker

  // ----- the log of a run, read off its calls

  /** Between the two states the call to `n` has asked the breaker. */
  ghost predicate Asked(c: SharedBreaker.State, c': SharedBreaker.State, n: NodeId) {
    n in c.calls && n in c'.calls && c.calls[n].Queued? && (c'.calls[n].Attempting? || c'.calls[n].Refused?)
  }

  ghost predicate Won(c: SharedBreaker.State, c': SharedBreaker.State, n: NodeId) {
    n in c.calls && n in c'.calls && c.calls[n].Attempting? && c'.calls[n].Succeeded?
  }

  ghost predicate Lost(c: SharedBreaker.State, c': SharedBreaker.State, n: NodeId) {
    n in c.calls && n in c'.calls && c.calls[n].Attempting? && c'.calls[n].Exhausted?
  }

  /** What the breaker should have been told between the two states. */
  ghost function Observed(c: SharedBreaker.State, c': SharedBreaker.State): seq<Op> {
    if exists n :: Asked(c, c', n) then [Op(AllowCall, c.now)]
    else if exists n :: Won(c, c', n) then [Op(SuccessReport, c.now)]
    else if exists n :: Lost(c, c', n) then [Op(FailureReport, c.now)]
    else []
  }

  ghost function Log(run: seq<SharedBreaker.State>): seq<Op> {
    if |run| < 2 then []
    else Log(run[..|run| - 1]) + Observed(run[|run| - 2], run[|run| - 1])
  }

  /** Without a step of a call no call moves and the breaker is left alone. */
  lemma OthersStay(y: System, c: SharedBreaker.State, c': SharedBreaker.State)
    requires CallsExplained(y, c) && Next(y, c, c') && !SomeCallStep(y, c, c')
    ensures forall n | n in c.calls && n in c'.calls :: c'.calls[n] == c.calls[n]
    ensures c'.breaker == c.breaker && c.now <= c'.now
  {
    if StartWave(y, c, c') {
      assert c.calls.Keys == c.sched.inflight.Keys;
    }
  }

  /** Only its own step changes a call. */
  lemma WhoMoved(y: System, c: SharedBreaker.State, c': SharedBreaker.State, n: NodeId)
    requires CallsExplained(y, c) && Next(y, c, c')
    requires n in c.calls && n in c'.calls && c'.calls[n] != c.calls[n]
    ensures CallStep(y, c, n, c')
  {
    if !SomeCallStep(y, c, c') {
      OthersStay(y, c, c');
    }
  }

  lemma NothingObserved(c: SharedBreaker.State, c': SharedBreaker.State)
    requires forall n | n in c.calls && n in c'.calls :: c'.calls[n] == c.calls[n]
    ensures Observed(c, c') == []
  {
    assert forall n :: !Asked(c, c', n) && !Won(c, c', n) && !Lost(c, c', n);
  }

  lemma CallStepLogged(y: System, c: SharedBreaker.State, n: NodeId, c': SharedBreaker.State)
    requires CallStep(y, c, n, c')
    ensures c'.breaker == After(c.breaker, Observed(c, c')) && c'.now == c.now
  {
    assert forall m | m in c'.calls && m != n :: c'.calls[m] == c.calls[m];
    if Gate(y, c, n, c') {
      assert Asked(c, c', n);
      AfterOne(c.breaker, Op(AllowCall, c.now));
    } else if Try(y, c, n, c') && c'.calls[n].Succeeded? {
      assert Won(c, c', n);
      AfterOne(c.breaker, Op(SuccessReport, c.now));
    } else if Try(y, c, n, c') && c'.calls[n].Exhausted? {
      assert Lost(c, c', n);
      AfterOne(c.breaker, Op(FailureReport, c.now));
    }
  }

  lemma AfterOne(b: Breaker.State, op: Op)
    ensures After(b, [op]) == Apply(b, op)
  {
    assert [op][..0] == [];
  }

  lemma StepLogged(y: System, c: SharedBreaker.State, c': SharedBreaker.State)
    requires CallsExplained(y, c) && Next(y, c, c')
    ensures c'.breaker == After(c.breaker, Observed(c, c')) && c.now <= c'.now
    ensures forall i | 0 <= i < |Observed(c, c')| :: Observed(c, c')[i].at == c.now
  {
    if n :| CallStep(y, c, n, c') {
      CallStepLogged(y, c, n, c');
    } else {
      OthersStay(y, c, c');
      NothingObserved(c, c');
    }
  }

  /**
   In every run the breaker is what its operations make of one admission request for each call that
   asked, one success report for each call that succeeded and one failure report for each call that
   exhausted its attempts, each at its time and in their order; and there were no other operations.
   */
  lemma {:induction false} BreakerFollowsLog(y: System, run: seq<SharedBreaker.State>)
    requires IsRun(y, run)
    ensures run[|run| - 1].breaker == After(New(y.cfg.threshold, y.cfg.cooldown), Log(run))
    ensures Monotone(Log(run)) && forall i | 0 <= i < |Log(run)| :: Log(run)[i].at <= run[|run| - 1].now
  {
    var k := |run| - 1;
    if k > 0 {
      assert IsRun(y, run[..k]);
      BreakerFollowsLog(y, run[..k]);
      RunProjects(y, run[..k]);
      var c, c' := run[k - 1], run[k];
      assert run[..k][k - 1] == c;
      StepLogged(y, c, c');
      AfterConcat(New(y.cfg.threshold, y.cfg.cooldown), Log(run[..k]), Observed(c, c'));
      MonotoneConcat(Log(run[..k]), Observed(c, c'), c.now);
    }
  }

  lemma MonotoneConcat(log: seq<Op>, more: seq<Op>, now: nat)
    requires Monotone(log) && forall i | 0 <= i < |log| :: log[i].at <= now
    requires forall i | 0 <= i < |more| :: more[i].at == now
    ensures Monotone(log + more) && forall i | 0 <= i < |log + more| :: (log + more)[i].at <= now
  {
  }

  // ----- exactly when the breaker refuses

  /** Report `i` of the log has opened the breaker, and at the end of the run its cooldown is not over. */
  ghost predicate OpenedBy(y: System, run: seq<SharedBreaker.State>, i: nat)
    requires run != []
  {
    Opens(y.cfg.threshold, y.cfg.cooldown, Log(run), i) && run[|run| - 1].now < Log(run)[i].at + y.cfg.cooldown
  }

  /**
   A call that asks the breaker is refused exactly within the cooldown of a report, in the log of the
   run so far, that opened it; otherwise its first attempt is due at once.
   */
  lemma AskedIsRefusedIff(y: System, run: seq<SharedBreaker.State>, c': SharedBreaker.State, n: NodeId)
    requires IsRun(y, run) && Next(y, run[|run| - 1], c') && Asked(run[|run| - 1], c', n)
    ensures c'.calls[n].Refused? <==> exists i: nat :: OpenedBy(y, run, i)
    ensures !c'.calls[n].Refused? ==> c'.calls[n] == Attempting([], y.cfg.initialBackoff, run[|run| - 1].now)
  {
    var c := run[|run| - 1];
    RunProjects(y, run);
    WhoMoved(y, c, c', n);
    BreakerFollowsLog(y, run);
    var log := Log(run);
    var asked := Op(AllowCall, c.now);
    MonotoneConcat(log, [asked], c.now);
    RefusedIff(y.cfg.threshold, y.cfg.cooldown, log, c.now);
    assert c'.calls[n].Refused? <==> !Admits(c.breaker, c.now);
    if i: nat :| Opens(y.cfg.threshold, y.cfg.cooldown, log, i) && c.now < log[i].at + y.cfg.cooldown {
      assert OpenedBy(y, run, i);
    }
  }

  /**
   So a refusal takes a streak of at least `max(1, threshold)` exhausted calls between which no call
   succeeded.
   */
  lemma RefusedNeedsStreak(y: System, run: seq<SharedBreaker.State>, c': SharedBreaker.State, n: NodeId)
    returns (j: nat, i: nat)
    requires IsRun(y, run) && Next(y, run[|run| - 1], c') && Asked(run[|run| - 1], c', n) && c'.calls[n].Refused?
    ensures j <= i < |Log(run)| && Failures(Log(run)[j..i + 1]) >= Needed(y.cfg)
    ensures forall x | j <= x <= i :: Log(run)[x].kind != SuccessReport
    ensures run[|run| - 1].now < Log(run)[i].at + y.cfg.cooldown
  {
    AskedIsRefusedIff(y, run, c', n);
    i :| OpenedBy(y, run, i);
    j := OpensEndsStreak(y.cfg.threshold, y.cfg.cooldown, Log(run), i);
  }

  // ----- calls wait between their attempts

  /** An attempt is not made before it is due, and the next one is due after the delay that is logged. */
  lemma AttemptsWait(y: System, c: SharedBreaker.State, c': SharedBreaker.State, n: NodeId)
    requires CallsExplained(y, c) && Next(y, c, c')
    requires n in c.calls && n in c'.calls && c.calls[n].Attempting? && c'.calls[n] != c.calls[n]
    ensures c.now >= c.calls[n].wake && c'.now == c.now
    ensures match c'.calls[n]
            case Attempting(delays, _, wake) =>
              delays == c.calls[n].delays + [Delay(y.cfg, |c.calls[n].delays|)] &&
              wake == c.now + Delay(y.cfg, |c.calls[n].delays|)
            case Succeeded(_, delays) => delays == c.calls[n].delays
            case Exhausted(_, delays) => delays == c.calls[n].delays
            case _ => false
  {
    WhoMoved(y, c, c', n);
    assert CallExplained(y, n, c.sched.inflight[n], c.calls[n]);
  }

  ghost function Waited(call: Call): nat {
    match call
    case Attempting(delays, _, _) => Sum(delays)
    case Exhausted(_, delays) => Sum(delays)
    case Succeeded(_, delays) => Sum(delays)
    case _ => 0
  }

  /** When the call made, or will make, its latest attempt, at the earliest. */
  ghost function Due(c: SharedBreaker.State, call: Call): nat {
    if call.Attempting? then call.wake else c.now
  }

  lemma WaitStep(y: System, c: SharedBreaker.State, c': SharedBreaker.State, n: NodeId, start: nat)
    requires CallsExplained(y, c) && Next(y, c, c') && n in c.calls && n in c'.calls
    requires start + Waited(c.calls[n]) <= Due(c, c.calls[n]) && start <= c.now
    ensures start + Waited(c'.calls[n]) <= Due(c', c'.calls[n]) && start <= c'.now
  {
    StepLogged(y, c, c');
    if c'.calls[n] != c.calls[n] {
      WhoMoved(y, c, c', n);
      if c.calls[n].Attempting? {
        AttemptsWait(y, c, c', n);
        var d := Delay(y.cfg, |c.calls[n].delays|);
        SumSnoc(c.calls[n].delays, d);
      }
    }
  }

  lemma SumSnoc(s: seq<nat>, d: nat)
    ensures Sum(s + [d]) == Sum(s) + d
  {
    assert (s + [d])[..|s|] == s;
  }

  /**
   A call takes at least as long as the delays between its attempts: from when it was still queued,
   whatever else happens in between.
   */
  lemma {:induction false} CallTakesItsDelays(y: System, steps: seq<SharedBreaker.State>, n: NodeId)
    requires Steps(y, steps) && CallsExplained(y, steps[0])
    requires (forall k | 0 <= k < |steps| :: n in steps[k].calls) && steps[0].calls[n].Queued?
    ensures var c := steps[|steps| - 1];
            CallsExplained(y, c) && steps[0].now <= c.now &&
            steps[0].now + Waited(c.calls[n]) <= Due(c, c.calls[n])
  {
    var k := |steps| - 1;
    if k > 0 {
      var prev := steps[..k];
      assert Steps(y, prev) && prev[0] == steps[0];
      CallTakesItsDelays(y, prev, n);
      StepExplained(y, steps[k - 1], steps[k]);
      WaitStep(y, steps[k - 1], steps[k], n, steps[0].now);
    }
  }
}
