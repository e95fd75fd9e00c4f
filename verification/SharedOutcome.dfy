/** What the shared executor does to whole runs: nothing to their outcome, and exactly when it refuses. */
module SharedOutcome {
  import opened KeyOrder
  import opened Graphs
  import opened Errors
  import opened Json
  import opened NodeIo
  import opened Resilience
  import opened SharedBreaker
  import Th = SchedulerTheorems
  import Run = SchedulerRun

  // ----- confluence of the scheduler with its real executor

  lemma IdealDeterministic(y: System)
    ensures S.Deterministic(Ideal(y))
  {
    forall n, m, r, r' | RetriesTo(y, n, m, r) && RetriesTo(y, n, m, r') ensures r == r' {
      var k: nat, delays :| Retried(y.cfg, Answers(y, n, m), k, r, delays);
      var k': nat, delays' :| Retried(y.cfg, Answers(y, n, m), k', r', delays');
      RetriedUnique(y.cfg, Answers(y, n, m), k, r, delays, k', r', delays');
    }
  }

  /**
   As long as no node call has failed the scheduler is where it would be with ideal executors; and it
   fails only for a call that was rate limited or in a doomed workflow.
   */
  ghost predicate OnTrack(y: System, s: S.State) {
    if s.status.NodeFailed? then (y.limits && s.status.error == RateLimited) || Th.Doomed(Ideal(y))
    else S.Reachable(Ideal(y), s)
  }

  /** A call in flight that has exhausted its attempts dooms the workflow. */
  lemma ExhaustedDooms(y: System, c: State, n: NodeId)
    requires CallsExplained(y, c) && n in c.calls && c.calls[n].Exhausted? && S.Reachable(Ideal(y), c.sched)
    ensures Th.Doomed(Ideal(y))
  {
    var w, m := Ideal(y), c.sched.inflight[n];
    AnswerAllowed(y, c, n);
    InputSupplied(w, c.sched, n);
    assert w.may(n, m, Err(c.calls[n].error));
    assert Th.ErrsOn(w, n, m);
  }

  lemma InputSupplied(w: S.Workflow, s: S.State, n: NodeId)
    requires S.Reachable(w, s) && n in s.inflight
    ensures Th.Supplied(w, n, s.inflight[n])
  {
    Inv.CoreReachable(w, s);
    Th.InflightSupported(w.g, s, n);
    forall p | p in s.inflight[n] ensures Th.Means(w, p, s.inflight[n][p]) {
      Th.OutputMeans(w, s, p);
    }
  }

  /** A run gives up on a rate-limited call, or when the workflow was doomed anyway. */
  lemma GiveUpDooms(y: System, c: State, n: NodeId, c': State)
    requires CallsExplained(y, c) && BreakerExplained(y.cfg, c)
    requires GiveUp(c, n, c') && S.Reachable(Ideal(y), c.sched)
    ensures OnTrack(y, c'.sched)
  {
    AnswerAllowed(y, c, n);
    if c.calls[n].Refused? {
      assert |ExhaustedCalls(c.calls)| >= 1;
      var x :| x in ExhaustedCalls(c.calls);
      ExhaustedDooms(y, c, x);
    } else if c.calls[n].Exhausted? {
      ExhaustedDooms(y, c, n);
    }
  }

  lemma StepOnTrack(y: System, c: State, c': State)
    requires CallsExplained(y, c) && BreakerExplained(y.cfg, c)
    requires Next(y, c, c') && OnTrack(y, c.sched)
    ensures OnTrack(y, c'.sched)
  {
    if SomeDelivery(y, c, c') {
      if n, indeg, added :| Receive(y, c, n, indeg, added, c') {
        ReceiveProjects(y, Ideal(y), c, n, indeg, added, c');
        S.ReachableNext(Ideal(y), c.sched, c'.sched);
      } else {
        var n :| GiveUp(c, n, c');
        GiveUpDooms(y, c, n, c');
      }
    } else if StartWave(y, c, c') || Finish(y, c, c') {
      S.ReachableNext(Ideal(y), c.sched, c'.sched);
    }
  }

  lemma {:induction false} RunOnTrack(y: System, run: seq<State>)
    requires IsRun(y, run)
    ensures OnTrack(y, run[|run| - 1].sched)
  {
    var k := |run| - 1;
    if k == 0 {
      S.ReachableInit(Ideal(y), run[0].sched);
    } else {
      assert IsRun(y, run[..k]);
      RunOnTrack(y, run[..k]);
      RunKeeps(y, run[..k]);
      RunProjects(y, run[..k]);
      StepOnTrack(y, run[k - 1], run[k]);
    }
  }

  /**
   Confluence with the real executor. A finished run that did not fail has the outputs that the
   workflow means and the verdict on them as its result, and no node, retried on its own, errs on the
   input that the workflow gives it. A run fails on a rate-limited call, or because some node so errs;
   if the limiter never refuses, exactly then. So neither the completion order nor the timing nor the
   breaker can change the outcome.
   */
  lemma SharedConfluence(y: System, c: State)
    requires Reachable(y, c) && c.sched.status != S.Running
    ensures c.sched.status.NodeFailed? ==>
              (y.limits && c.sched.status.error == RateLimited) || Th.Doomed(Ideal(y))
    ensures !y.limits ==> (c.sched.status.NodeFailed? <==> Th.Doomed(Ideal(y)))
    ensures !c.sched.status.NodeFailed? ==>
              !Th.Doomed(Ideal(y)) && Run.Solves(Ideal(y), c.sched.outputs) &&
              S.ResultOf(c.sched.status) == Run.Verdict(Ideal(y), c.sched.outputs)
  {
    var run :| IsRun(y, run) && run[|run| - 1] == c;
    RunOnTrack(y, run);
    IdealDeterministic(y);
    if !c.sched.status.NodeFailed? {
      Th.FailsIffDoomed(Ideal(y), c.sched);
      Run.VerdictOfRun(Ideal(y), c.sched);
      forall n, v ensures n in c.sched.outputs && c.sched.outputs[n] == v <==> Th.Means(Ideal(y), n, v) {
        Th.OutputsAreMeaning(Ideal(y), c.sched, n, v);
      }
    }
  }

  // ----- exactly when a call can be refused

  /** The other nodes of the current wave whose retried call errs. */
  ghost function FailingOthers(y: System, s: S.State, n: NodeId): set<NodeId>
    requires s.waves != []
  {
    set m | m in s.waves[|s.waves| - 1].started && m != n && Fails(y, m, S.ParentsOf(y.g, m, s.outputs))
  }

  lemma RefusedNeedsFailing(y: System, c: State, n: NodeId)
    requires Reachable(y, c) && n in c.calls && c.calls[n].Refused?
    ensures c.sched.waves != [] && y.cfg.cooldown > 0 && |FailingOthers(y, c.sched, n)| >= Needed(y.cfg)
  {
    RefusedNeedsFailedWave(y, c, n);
    ReachableExplained(y, c);
    forall m | m in ExhaustedCalls(c.calls) ensures m in FailingOthers(y, c.sched, n) {
      AnswerAllowed(y, c, m);
      CallInLastWave(Actual(y), c.sched, m);
    }
    SubsetSize(ExhaustedCalls(c.calls), FailingOthers(y, c.sched, n));
  }

  /** All attempts of a failing call err. */
  lemma FailingAttempts(y: System, n: NodeId, m: Parents, i: nat)
    requires Fails(y, n, m) && i < MaxAttempts(y.cfg)
    ensures Outcome(y.cfg, y.attempt(n, m, i)).Err?
  {
    var err :| RetriesTo(y, n, m, Err(err));
    var k: nat, delays :| Retried(y.cfg, Answers(y, n, m), k, Err(err), delays);
    assert Outcome(y.cfg, Answers(y, n, m)(i)).Err?;
  }

  /** The breaker at the end of `c'` is that of `c` after one failure report. */
  ghost predicate OneFailed(c: State, n: NodeId, c': State) {
    n in c'.calls && c'.calls[n].Exhausted? && c'.sched == c.sched && c'.calls == c.calls[n := c'.calls[n]] &&
    c'.breaker == Breaker.Apply(c.breaker, Breaker.Op(Breaker.FailureReport, c'.now))
  }

  lemma {:induction false} AttemptsRunOut(y: System, c0: State, c: State, n: NodeId) returns (c': State)
    requires Leads(y, c0, c) && n in c.calls && c.calls[n].Attempting? && n in c.sched.inflight
    requires Fails(y, n, c.sched.inflight[n]) && |c.calls[n].delays| < MaxAttempts(y.cfg)
    ensures Leads(y, c0, c') && OneFailed(c, n, c')
    decreases MaxAttempts(y.cfg) - |c.calls[n].delays|
  {
    var k := |c.calls[n].delays|;
    var d := Wait(y, c0, c, c.calls[n].wake);
    FailingAttempts(y, n, c.sched.inflight[n], k);
    c' := Tried(y, d, n);
    assert Try(y, d, n, c') && CallStep(y, d, n, c');
    LeadsNext(y, c0, d, c');
    if k + 1 < y.cfg.maxRetries as nat {
      c' := AttemptsRunOut(y, c0, c', n);
    }
  }

  lemma ExhaustOne(y: System, c0: State, c: State, n: NodeId) returns (c': State)
    requires Leads(y, c0, c) && n in c.calls && c.calls[n] == Queued && n in c.sched.inflight
    requires c.breaker.openUntil.None? && Fails(y, n, c.sched.inflight[n])
    ensures Leads(y, c0, c') && OneFailed(c, n, c')
  {
    var d := Moved(c, n, Gated(y, c), Reported(c, Breaker.AllowCall));
    assert Gate(y, c, n, d) && CallStep(y, c, n, d);
    LeadsNext(y, c0, c, d);
    c' := AttemptsRunOut(y, c0, d, n);
    assert c'.calls == c.calls[n := c'.calls[n]];
  }

  /** All calls of the wave are queued and the breaker is as new. */
  ghost predicate Fresh(y: System, c: State) {
    c.breaker == Breaker.New(y.cfg.threshold, y.cfg.cooldown) && c.calls.Keys == c.sched.inflight.Keys &&
    forall m | m in c.calls :: c.calls[m] == Queued
  }

  /** From a fresh wave, the calls `f` have exhausted their attempts one after the other. */
  ghost predicate HaveFailed(y: System, c: State, f: set<NodeId>, c': State) {
    c'.sched == c.sched && c'.calls.Keys == c.calls.Keys && (forall m | m in c.calls && m !in f :: c'.calls[m] == Queued) &&
    c'.breaker.threshold == y.cfg.threshold && c'.breaker.cooldown == y.cfg.cooldown &&
    c'.breaker.failures as nat == |f| &&
    c'.breaker.openUntil == if |f| < Needed(y.cfg) then None else Some(c'.now + y.cfg.cooldown)
  }

  lemma HaveFailedStep(y: System, c: State, f: set<NodeId>, x: NodeId, d: State, c': State)
    requires x in f && x in c.calls && |f| <= Needed(y.cfg)
    requires HaveFailed(y, c, f - {x}, d) && OneFailed(d, x, c')
    ensures HaveFailed(y, c, f, c')
  {
    assert |f - {x}| == |f| - 1;
    assert forall m | m in c.calls && m !in f :: m !in f - {x};
  }

  lemma {:induction false} ExhaustAll(y: System, c: State, f: set<NodeId>) returns (c': State)
    requires Fresh(y, c) && |f| <= Needed(y.cfg)
    requires forall m | m in f :: m in c.calls && Fails(y, m, c.sched.inflight[m])
    ensures Leads(y, c, c') && HaveFailed(y, c, f, c')
    decreases |f|
  {
    if f == {} {
      c' := c;
      LeadsSelf(y, c);
    } else {
      var x :| x in f;
      assert |f - {x}| == |f| - 1;
      var d := ExhaustAll(y, c, f - {x});
      assert d.calls[x] == Queued && d.sched == c.sched && d.breaker.openUntil.None?;
      c' := ExhaustOne(y, c, d, x);
      HaveFailedStep(y, c, f, x, d, c');
    }
  }

  lemma {:induction false} SubsetOfSize<T>(s: set<T>, k: nat) returns (t: set<T>)
    requires k <= |s|
    ensures t <= s && |t| == k
  {
    if k == 0 {
      t := {};
    } else {
      var x :| x in s;
      t := SubsetOfSize(s - {x}, k - 1);
      t := t + {x};
    }
  }

  lemma FreshWave(y: System, c: State)
    requires Reachable(y, c) && forall m | m in c.calls :: c.calls[m] == Queued
    ensures Fresh(y, c)
  {
    ReachableExplained(y, c);
    assert ExhaustedCalls(c.calls) == {};
  }

  /** In a wave that has just been started, let `f` fail and then ask the breaker about `n`. */
  lemma RefusedAfter(y: System, c: State, n: NodeId, f: set<NodeId>) returns (c': State)
    requires Fresh(y, c) && n in c.calls && n !in f
    requires |f| == Needed(y.cfg) && y.cfg.cooldown > 0
    requires forall m | m in f :: m in c.calls && Fails(y, m, c.sched.inflight[m])
    ensures RefusedFrom(y, c, n, c')
  {
    var d := ExhaustAll(y, c, f);
    c' := Moved(d, n, Gated(y, d), Reported(d, Breaker.AllowCall));
    assert Gate(y, d, n, c') && CallStep(y, d, n, c');
    LeadsNext(y, c, d, c');
  }

  /** `c` leads to `c'`, where the scheduler has not moved but the call to `n` has been refused. */
  ghost predicate RefusedFrom(y: System, c: State, n: NodeId, c': State) {
    Leads(y, c, c') && c'.sched == c.sched && n in c'.calls && c'.calls[n].Refused?
  }

  lemma WaveJustStarted(y: System, c0: State, c: State)
    requires Reachable(y, c0) && StartWave(y, c0, c)
    ensures Reachable(y, c) && Fresh(y, c) && c.sched.waves != []
    ensures Elems(c.sched.waves[|c.sched.waves| - 1].started) == c.calls.Keys
    ensures forall m | m in c.calls :: c.sched.inflight[m] == S.ParentsOf(y.g, m, c.sched.outputs)
  {
    ReachableNext(y, c0, c);
    FreshWave(y, c);
  }

  /**
   Once a wave has been started, the call to `n` can come to be refused before any answer is taken
   exactly if the cooldown is positive and at least `max(1, threshold)` other nodes of the wave fail
   when retried.
   */
  lemma RefusalPossibleIff(y: System, c0: State, c: State, n: NodeId)
    requires Reachable(y, c0) && StartWave(y, c0, c) && n in c.calls && c.sched.waves != []
    ensures (exists c' :: RefusedFrom(y, c, n, c')) <==>
            y.cfg.cooldown > 0 && |FailingOthers(y, c.sched, n)| >= Needed(y.cfg)
  {
    ReachableNext(y, c0, c);
    forall c' | RefusedFrom(y, c, n, c')
      ensures y.cfg.cooldown > 0 && |FailingOthers(y, c.sched, n)| >= Needed(y.cfg)
    {
      LeadsReachable(y, c, c');
      RefusedNeedsFailing(y, c', n);
    }
    if y.cfg.cooldown > 0 && |FailingOthers(y, c.sched, n)| >= Needed(y.cfg) {
      WaveJustStarted(y, c0, c);
      var f := SubsetOfSize(FailingOthers(y, c.sched, n), Needed(y.cfg));
      var wave := c.sched.waves[|c.sched.waves| - 1].started;
      assert forall m | m in wave :: m in Elems(wave);
      var c' := RefusedAfter(y, c, n, f);
    }
  }

  lemma AllOthersFail(y: System, s: S.State, n: NodeId, nodes: set<NodeId>)
    requires s.waves != [] && Elems(s.waves[|s.waves| - 1].started) == nodes && n in nodes
    requires forall m | m in nodes :: Fails(y, m, S.ParentsOf(y.g, m, s.outputs))
    ensures |FailingOthers(y, s, n)| == |nodes| - 1
  {
    var wave := s.waves[|s.waves| - 1].started;
    assert forall m :: m in wave <==> m in Elems(wave);
    assert FailingOthers(y, s, n) == nodes - {n};
  }

  /** If every node of a wave fails, any of its calls can be refused exactly when the wave is wide enough. */
  lemma FailingWaveRefusesIff(y: System, c0: State, c: State, n: NodeId)
    requires Reachable(y, c0) && StartWave(y, c0, c) && n in c.calls
    requires forall m | m in c.calls :: Fails(y, m, c.sched.inflight[m])
    ensures (exists c' :: RefusedFrom(y, c, n, c')) <==> y.cfg.cooldown > 0 && |c.calls| > Needed(y.cfg)
  {
    WaveJustStarted(y, c0, c);
    AllOthersFail(y, c.sched, n, c.calls.Keys);
    RefusalPossibleIff(y, c0, c, n);
  }
}
