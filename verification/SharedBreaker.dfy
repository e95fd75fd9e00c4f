/**
 The scheduler together with the executor that all node actors of a run share. Each node call goes
 through the actor's mailbox, the rate limiter, the circuit breaker and the retry loop; the calls of
 a wave interleave freely. What an attempt answers is a function of the node, its input and the
 number of the attempt. The breaker is created with the run.
 */
module SharedBreaker {
  import opened KeyOrder
  import opened Graphs
  import opened Errors
  import opened Json
  import opened NodeIo
  import opened Resilience
  import S = Scheduler
  import Inv = SchedulerInvariants

  /** `limits` says whether the rate limiter may refuse calls at all. */
  datatype System = System(
    g: Graph,
    digest: Value -> string,
    cfg: Config,
    attempt: (NodeId, Parents, nat) -> Attempt<NodeOutput>,
    limits: bool
  )

  /** The successive answers of `n` on input `m`. */
  ghost function Answers(y: System, n: NodeId, m: Parents): nat -> Attempt<NodeOutput> {
    (k: nat) => y.attempt(n, m, k)
  }

  /** `r` is what the retry loop makes of those answers. */
  ghost predicate RetriesTo(y: System, n: NodeId, m: Parents, r: Result<NodeOutput>) {
    exists k: nat, delays :: Retried(y.cfg, Answers(y, n, m), k, r, delays)
  }

  ghost predicate Fails(y: System, n: NodeId, m: Parents) {
    exists err :: RetriesTo(y, n, m, Err(err))
  }

  /** The workflow as if every call had an executor of its own. */
  ghost function Ideal(y: System): S.Workflow {
    S.Workflow(y.g, (n: NodeId, m: Parents, r: Result<NodeOutput>) => RetriesTo(y, n, m, r), y.digest)
  }

  /** The workflow as the shared executor lets it be: calls may also be turned away. */
  ghost function Actual(y: System): S.Workflow {
    S.Workflow(y.g,
               (n: NodeId, m: Parents, r: Result<NodeOutput>) =>
                 RetriesTo(y, n, m, r) || r == Err(CircuitOpen) || (y.limits && r == Err(RateLimited)),
               y.digest)
  }

  /**
   Where a node call stands. While it is being attempted it has slept `delays` and will sleep
   `backoff` next, and its next attempt is due at `wake`.
   */
  datatype Call =
    | Queued
    | Attempting(delays: seq<nat>, backoff: nat, wake: nat)
    | Limited
    | Refused
    | Exhausted(error: KernelError, delays: seq<nat>)
    | Succeeded(out: NodeOutput, delays: seq<nat>)

  datatype State = State(sched: S.State, breaker: Breaker.State, now: nat, calls: map<NodeId, Call>)

  ghost predicate Init(y: System, c: State) {
    S.Init(Ideal(y), c.sched) && c.breaker == Breaker.New(y.cfg.threshold, y.cfg.cooldown) && c.calls == map[]
  }

  /** The breaker after an operation at the current time. */
  function Reported(c: State, kind: Breaker.Kind): Breaker.State {
    Breaker.Apply(c.breaker, Breaker.Op(kind, c.now))
  }

  /** The state once the call to `n` has come to stand at `call`. */
  function Moved(c: State, n: NodeId, call: Call, breaker: Breaker.State): State {
    c.(calls := c.calls[n := call], breaker := breaker)
  }

  // ----- steps of one call

  ghost predicate Limit(y: System, c: State, n: NodeId, c': State) {
    y.limits && n in c.calls && c.calls[n] == Queued && c' == Moved(c, n, Limited, c.breaker)
  }

  function Gated(y: System, c: State): Call {
    if Breaker.Admits(c.breaker, c.now) then Attempting([], y.cfg.initialBackoff, c.now) else Refused
  }

  ghost predicate Gate(y: System, c: State, n: NodeId, c': State) {
    n in c.calls && c.calls[n] == Queued && c' == Moved(c, n, Gated(y, c), Reported(c, Breaker.AllowCall))
  }

  /** One attempt, and what follows from its outcome. */
  function Tried(y: System, c: State, n: NodeId): State
    requires n in c.calls && c.calls[n].Attempting? && n in c.sched.inflight
  {
    var Attempting(delays, backoff, _) := c.calls[n];
    match Outcome(y.cfg, y.attempt(n, c.sched.inflight[n], |delays|))
    case Ok(out) => Moved(c, n, Succeeded(out, delays), Reported(c, Breaker.SuccessReport))
    case Err(err) =>
      if |delays| + 1 >= y.cfg.maxRetries as nat
      then Moved(c, n, Exhausted(err, delays), Reported(c, Breaker.FailureReport))
      else Moved(c, n, Attempting(delays + [backoff], Min(backoff * 2, y.cfg.maxBackoff), c.now + backoff), c.breaker)
  }

  ghost predicate Try(y: System, c: State, n: NodeId, c': State) {
    n in c.calls && c.calls[n].Attempting? && n in c.sched.inflight && c.now >= c.calls[n].wake &&
    c' == Tried(y, c, n)
  }

  ghost predicate CallStep(y: System, c: State, n: NodeId, c': State) {
    Limit(y, c, n, c') || Gate(y, c, n, c') || Try(y, c, n, c')
  }

  ghost predicate SomeCallStep(y: System, c: State, c': State) {
    exists n :: CallStep(y, c, n, c')
  }

  // ----- steps of the scheduler

  ghost predicate StartWave(y: System, c: State, c': State) {
    S.StartWave(Ideal(y), c.sched, c'.sched) &&
    c' == c.(sched := c'.sched, calls := map n | n in c'.sched.inflight :: Queued)
  }

  function ErrorOf(call: Call): Option<KernelError> {
    match call
    case Limited => Some(RateLimited)
    case Refused => Some(CircuitOpen)
    case Exhausted(err, _) => Some(err)
    case _ => None
  }

  /** The scheduler receives the answer of `n`: it records the output, or gives up. */
  ghost predicate Receive(y: System, c: State, n: NodeId, indeg: map<NodeId, nat>, added: seq<NodeId>, c': State) {
    n in c.calls && c.calls[n].Succeeded? &&
    S.Released(y.g, c.sched, S.FiredBy(y.g, n, c.calls[n].out.value), indeg, added) &&
    c' == c.(sched := S.NodeDone(Ideal(y), c.sched, n, c.calls[n].out, indeg, added), calls := c.calls - {n})
  }

  ghost predicate GiveUp(c: State, n: NodeId, c': State) {
    n in c.calls && ErrorOf(c.calls[n]).Some? &&
    var err := ErrorOf(c.calls[n]).value;
    c' == c.(sched := c.sched.(events := c.sched.events + [S.WorkflowFailed(err)], status := S.NodeFailed(n, err)))
  }

  ghost predicate SomeDelivery(y: System, c: State, c': State) {
    c.sched.status == S.Running &&
    ((exists n, indeg, added :: Receive(y, c, n, indeg, added, c')) || exists n :: GiveUp(c, n, c'))
  }

  ghost predicate Finish(y: System, c: State, c': State) {
    S.Finish(Ideal(y), c.sched, c'.sched) && c' == c.(sched := c'.sched)
  }

  ghost predicate Tick(c: State, c': State) {
    c.now <= c'.now && c' == c.(now := c'.now)
  }

  ghost predicate Next(y: System, c: State, c': State) {
    StartWave(y, c, c') || SomeCallStep(y, c, c') || SomeDelivery(y, c, c') || Finish(y, c, c') || Tick(c, c')
  }

  ghost predicate Steps(y: System, steps: seq<State>) {
    |steps| > 0 && forall i | 0 < i < |steps| :: Next(y, steps[i - 1], steps[i])
  }

  ghost predicate IsRun(y: System, run: seq<State>) {
    Steps(y, run) && Init(y, run[0])
  }

  ghost predicate Reachable(y: System, c: State) {
    exists run :: IsRun(y, run) && run[|run| - 1] == c
  }

  lemma ReachableNext(y: System, c: State, c': State)
    requires Reachable(y, c) && Next(y, c, c')
    ensures Reachable(y, c')
  {
    var run :| IsRun(y, run) && run[|run| - 1] == c;
    StepsAppend(y, run, c');
    assert IsRun(y, run + [c']);
  }

  /** From `c` the steps of the system can lead to `d`. */
  ghost predicate Leads(y: System, c: State, d: State) {
    exists steps :: Steps(y, steps) && steps[0] == c && steps[|steps| - 1] == d
  }

  lemma LeadsSelf(y: System, c: State)
    ensures Leads(y, c, c)
  {
    assert Steps(y, [c]);
  }

  lemma LeadsNext(y: System, c: State, d: State, e: State)
    requires Leads(y, c, d) && Next(y, d, e)
    ensures Leads(y, c, e)
  {
    var steps :| Steps(y, steps) && steps[0] == c && steps[|steps| - 1] == d;
    StepsAppend(y, steps, e);
    assert (steps + [e])[0] == c;
  }

  lemma StepsAppend(y: System, steps: seq<State>, e: State)
    requires Steps(y, steps) && Next(y, steps[|steps| - 1], e)
    ensures Steps(y, steps + [e])
  {
    var steps' := steps + [e];
    forall i | 0 < i < |steps'| ensures Next(y, steps'[i - 1], steps'[i]) {
      assert steps'[i - 1] == steps[i - 1];
      if i < |steps| { assert steps'[i] == steps[i]; }
    }
  }

  /** Let time pass until `t`. */
  lemma Wait(y: System, c0: State, c: State, t: nat) returns (c': State)
    requires Leads(y, c0, c)
    ensures Leads(y, c0, c') && c' == c.(now := c'.now) && c'.now >= t
  {
    c' := c.(now := if t <= c.now then c.now else t);
    assert Tick(c, c');
    LeadsNext(y, c0, c, c');
  }

  lemma LeadsReachable(y: System, c: State, d: State)
    requires Reachable(y, c) && Leads(y, c, d)
    ensures Reachable(y, d)
  {
    var steps :| Steps(y, steps) && steps[0] == c && steps[|steps| - 1] == d;
    StepsReachable(y, steps);
  }

  lemma {:induction false} StepsReachable(y: System, steps: seq<State>)
    requires Steps(y, steps) && Reachable(y, steps[0])
    ensures Reachable(y, steps[|steps| - 1])
  {
    var k := |steps| - 1;
    if k > 0 {
      assert Steps(y, steps[..k]);
      StepsReachable(y, steps[..k]);
      ReachableNext(y, steps[k - 1], steps[k]);
    }
  }

  // ----- every call runs the retry loop

  /** How a call got where it is, in terms of the answers to its own attempts. */
  ghost predicate CallExplained(y: System, n: NodeId, m: Parents, call: Call) {
    match call
    case Attempting(delays, backoff, _) => Underway(y.cfg, Answers(y, n, m), delays, backoff)
    case Exhausted(err, delays) => Retried(y.cfg, Answers(y, n, m), |delays| + 1, Err(err), delays)
    case Succeeded(out, delays) => Retried(y.cfg, Answers(y, n, m), |delays| + 1, Ok(out), delays)
    case Limited => y.limits
    case _ => true
  }

  /** The retry loop before its next attempt. */
  ghost predicate Underway(cfg: Config, attempt: nat -> Attempt<NodeOutput>, delays: seq<nat>, backoff: nat) {
    |delays| < MaxAttempts(cfg) && (forall i: nat | i < |delays| :: Outcome(cfg, attempt(i)).Err?) &&
    (forall k | 0 <= k < |delays| :: delays[k] == Delay(cfg, k)) && backoff == Delay(cfg, |delays|)
  }

  ghost predicate CallsExplained(y: System, c: State) {
    c.calls.Keys == c.sched.inflight.Keys &&
    forall n | n in c.calls :: CallExplained(y, n, c.sched.inflight[n], c.calls[n])
  }

  lemma TryExplained(y: System, c: State, n: NodeId)
    requires n in c.calls && c.calls[n].Attempting? && n in c.sched.inflight
    requires CallExplained(y, n, c.sched.inflight[n], c.calls[n])
    ensures CallExplained(y, n, c.sched.inflight[n], Tried(y, c, n).calls[n])
  {
    var m := c.sched.inflight[n];
    var delays := c.calls[n].delays;
    assert Answers(y, n, m)(|delays|) == y.attempt(n, m, |delays|);
    DelayStep(y.cfg, |delays|);
  }

  lemma CallStepExplained(y: System, c: State, n: NodeId, c': State)
    requires CallsExplained(y, c) && CallStep(y, c, n, c')
    ensures CallsExplained(y, c')
  {
    if Try(y, c, n, c') {
      TryExplained(y, c, n);
    }
    assert CallExplained(y, n, c.sched.inflight[n], c'.calls[n]);
  }

  lemma StepExplained(y: System, c: State, c': State)
    requires CallsExplained(y, c) && Next(y, c, c')
    ensures CallsExplained(y, c')
  {
    if SomeCallStep(y, c, c') {
      var n :| CallStep(y, c, n, c');
      CallStepExplained(y, c, n, c');
    } else if SomeDelivery(y, c, c') {
      DeliveryExplained(y, c, c');
    } else if StartWave(y, c, c') {
      StartExplained(y, c, c');
    } else {
      assert c'.calls == c.calls && c'.sched.inflight == c.sched.inflight;
    }
  }

  lemma StartExplained(y: System, c: State, c': State)
    requires StartWave(y, c, c')
    ensures CallsExplained(y, c')
  {
    assert c'.calls.Keys == c'.sched.inflight.Keys;
    assert forall n | n in c'.calls :: c'.calls[n] == Queued;
  }

  lemma DeliveryExplained(y: System, c: State, c': State)
    requires CallsExplained(y, c) && SomeDelivery(y, c, c')
    ensures CallsExplained(y, c')
  {
    if n, indeg, added :| Receive(y, c, n, indeg, added, c') {
      assert c'.sched.inflight == c.sched.inflight - {n};
    } else {
      assert c'.calls == c.calls && c'.sched.inflight == c.sched.inflight;
    }
  }

  // ----- every run of the whole is a run of the scheduler

  lemma AnswerAllowed(y: System, c: State, n: NodeId)
    requires CallsExplained(y, c) && n in c.calls
    ensures c.calls[n].Succeeded? ==> RetriesTo(y, n, c.sched.inflight[n], Ok(c.calls[n].out))
    ensures c.calls[n].Exhausted? ==> RetriesTo(y, n, c.sched.inflight[n], Err(c.calls[n].error))
    ensures c.calls[n].Limited? ==> y.limits
  {
    assert CallExplained(y, n, c.sched.inflight[n], c.calls[n]);
  }

  lemma ReceiveProjects(y: System, w: S.Workflow, c: State, n: NodeId, indeg: map<NodeId, nat>,
                        added: seq<NodeId>, c': State)
    requires w == Ideal(y) || w == Actual(y)
    requires CallsExplained(y, c) && c.sched.status == S.Running && Receive(y, c, n, indeg, added, c')
    ensures S.Next(w, c.sched, c'.sched)
  {
    AnswerAllowed(y, c, n);
    assert S.Complete(w, c.sched, n, c.calls[n].out, indeg, added, c'.sched);
    assert S.SomeComplete(w, c.sched, c'.sched);
  }

  lemma GiveUpProjects(y: System, w: S.Workflow, c: State, n: NodeId, c': State)
    requires CallsExplained(y, c) && c.sched.status == S.Running && GiveUp(c, n, c')
    requires w == Actual(y) || (w == Ideal(y) && c.calls[n].Exhausted?)
    ensures S.Next(w, c.sched, c'.sched)
  {
    AnswerAllowed(y, c, n);
    assert S.Fail(w, c.sched, n, ErrorOf(c.calls[n]).value, c'.sched);
    assert S.SomeFail(w, c.sched, c'.sched);
  }

  lemma StepProjects(y: System, c: State, c': State)
    requires CallsExplained(y, c) && Next(y, c, c')
    ensures c'.sched == c.sched || S.Next(Actual(y), c.sched, c'.sched)
  {
    if SomeDelivery(y, c, c') {
      if n, indeg, added :| Receive(y, c, n, indeg, added, c') {
        ReceiveProjects(y, Actual(y), c, n, indeg, added, c');
      } else {
        var n :| GiveUp(c, n, c');
        GiveUpProjects(y, Actual(y), c, n, c');
      }
    }
  }

  lemma {:induction false} RunProjects(y: System, run: seq<State>)
    requires IsRun(y, run)
    ensures CallsExplained(y, run[|run| - 1]) && S.Reachable(Actual(y), run[|run| - 1].sched)
  {
    var k := |run| - 1;
    if k == 0 {
      S.ReachableInit(Actual(y), run[0].sched);
    } else {
      assert IsRun(y, run[..k]);
      RunProjects(y, run[..k]);
      StepExplained(y, run[k - 1], run[k]);
      StepProjects(y, run[k - 1], run[k]);
      if run[k].sched != run[k - 1].sched {
        S.ReachableNext(Actual(y), run[k - 1].sched, run[k].sched);
      }
    }
  }

  /** The call has made its attempts as the retry loop would on these answers: the first success or the last error. */
  ghost predicate RetriesAlone(y: System, answers: nat -> Attempt<NodeOutput>, call: Call) {
    match call
    case Attempting(delays, _, _) => |delays| < MaxAttempts(y.cfg)
    case Exhausted(err, delays) => RetryEnds(y.cfg, answers, Err(err), delays)
    case Succeeded(out, delays) => RetryEnds(y.cfg, answers, Ok(out), delays)
    case Limited => y.limits
    case _ => true
  }

  ghost predicate RetryEnds(cfg: Config, answers: nat -> Attempt<NodeOutput>, res: Result<NodeOutput>, delays: seq<nat>) {
    Retried(cfg, answers, |delays| + 1, res, delays) &&
    FirstOkOrLast(cfg, answers, |delays| + 1, res) && Doubling(cfg, delays)
  }

  /**
   Whatever has been answered is what the retry loop makes of the node's attempts on exactly its
   input: at most `max(1, max_retries)` of them, delays as prescribed, whatever other calls did to the
   breaker meanwhile. And the whole only does what the scheduler alone could do.
   */
  lemma CallsRetry(y: System, c: State, n: NodeId)
    requires Reachable(y, c) && n in c.calls
    ensures S.Reachable(Actual(y), c.sched) && n in c.sched.inflight
    ensures RetriesAlone(y, Answers(y, n, c.sched.inflight[n]), c.calls[n])
  {
    var run :| IsRun(y, run) && run[|run| - 1] == c;
    RunProjects(y, run);
    assert CallExplained(y, n, c.sched.inflight[n], c.calls[n]);
    var answers := Answers(y, n, c.sched.inflight[n]);
    if c.calls[n].Exhausted? {
      RetriedIff(y.cfg, answers, |c.calls[n].delays| + 1, Err(c.calls[n].error), c.calls[n].delays);
    } else if c.calls[n].Succeeded? {
      RetriedIff(y.cfg, answers, |c.calls[n].delays| + 1, Ok(c.calls[n].out), c.calls[n].delays);
    }
  }

  // ----- the breaker within a wave

  ghost function ExhaustedCalls(calls: map<NodeId, Call>): set<NodeId> {
    set n | n in calls && calls[n].Exhausted?
  }

  /** How many calls must have exhausted their attempts before the breaker can open. */
  function Needed(cfg: Config): nat {
    if cfg.threshold == 0 then 1 else cfg.threshold as nat
  }

  ghost predicate BreakerExplained(cfg: Config, c: State) {
    var x := |ExhaustedCalls(c.calls)|;
    c.breaker.threshold == cfg.threshold && c.breaker.cooldown == cfg.cooldown &&
    c.breaker.failures as nat <= x &&
    (c.breaker.openUntil.Some? ==> x >= Needed(cfg) && c.breaker.openUntil.value <= c.now + cfg.cooldown) &&
    ((exists n :: n in c.calls && c.calls[n].Refused?) ==> x >= Needed(cfg) && cfg.cooldown > 0)
  }

  lemma UpdatedCalls(calls: map<NodeId, Call>, n: NodeId, call: Call)
    requires n in calls && !calls[n].Exhausted?
    ensures |ExhaustedCalls(calls[n := call])| == |ExhaustedCalls(calls)| + if call.Exhausted? then 1 else 0
  {
    var x, y := ExhaustedCalls(calls), ExhaustedCalls(calls[n := call]);
    if call.Exhausted? {
      assert y == x + {n};
    } else {
      assert y == x;
    }
  }

  lemma CallStepKeeps(y: System, c: State, n: NodeId, c': State)
    requires BreakerExplained(y.cfg, c) && CallStep(y, c, n, c')
    ensures BreakerExplained(y.cfg, c')
  {
    UpdatedCalls(c.calls, n, c'.calls[n]);
    if m :| m in c'.calls && c'.calls[m].Refused? {
      if m != n { assert c.calls[m].Refused?; }
    }
  }

  lemma ReceiveKeeps(y: System, c: State, n: NodeId, indeg: map<NodeId, nat>, added: seq<NodeId>, c': State)
    requires BreakerExplained(y.cfg, c) && Receive(y, c, n, indeg, added, c')
    ensures BreakerExplained(y.cfg, c')
  {
    assert ExhaustedCalls(c'.calls) == ExhaustedCalls(c.calls);
  }

  lemma StartKeeps(y: System, c: State, c': State)
    requires BreakerExplained(y.cfg, c) && c.calls.Keys == c.sched.inflight.Keys && StartWave(y, c, c')
    ensures BreakerExplained(y.cfg, c')
  {
    assert ExhaustedCalls(c.calls) == {};
    assert ExhaustedCalls(c'.calls) == {};
  }

  lemma StepKeeps(y: System, c: State, c': State)
    requires BreakerExplained(y.cfg, c) && c.calls.Keys == c.sched.inflight.Keys && Next(y, c, c')
    ensures BreakerExplained(y.cfg, c')
  {
    if SomeCallStep(y, c, c') {
      var n :| CallStep(y, c, n, c');
      CallStepKeeps(y, c, n, c');
    } else if SomeDelivery(y, c, c') {
      if n, indeg, added :| Receive(y, c, n, indeg, added, c') {
        ReceiveKeeps(y, c, n, indeg, added, c');
      } else {
        assert c'.calls == c.calls && c'.breaker == c.breaker;
      }
    } else if StartWave(y, c, c') {
      StartKeeps(y, c, c');
    } else {
      assert c'.calls == c.calls && c'.breaker == c.breaker;
    }
  }

  lemma {:induction false} RunKeeps(y: System, run: seq<State>)
    requires IsRun(y, run)
    ensures BreakerExplained(y.cfg, run[|run| - 1])
  {
    var k := |run| - 1;
    if k == 0 {
      assert ExhaustedCalls(run[0].calls) == {};
    } else {
      assert IsRun(y, run[..k]);
      RunKeeps(y, run[..k]);
      RunProjects(y, run[..k]);
      StepKeeps(y, run[k - 1], run[k]);
    }
  }

  lemma ReachableExplained(y: System, c: State)
    requires Reachable(y, c)
    ensures BreakerExplained(y.cfg, c) && CallsExplained(y, c) && S.Reachable(Actual(y), c.sched)
  {
    var run :| IsRun(y, run) && run[|run| - 1] == c;
    RunKeeps(y, run);
    RunProjects(y, run);
  }

  /** Whenever no call is in flight, so at the start of every wave, the shared breaker is as new. */
  lemma WaveStartsClosed(y: System, c: State)
    requires Reachable(y, c) && c.sched.inflight == map[]
    ensures c.breaker == Breaker.New(y.cfg.threshold, y.cfg.cooldown)
  {
    ReachableExplained(y, c);
    assert ExhaustedCalls(c.calls) == {};
  }

  lemma CallInLastWave(w: S.Workflow, s: S.State, m: NodeId)
    requires S.Reachable(w, s) && m in s.inflight
    ensures s.waves != [] && m in s.waves[|s.waves| - 1].started
    ensures s.inflight[m] == S.ParentsOf(w.g, m, s.outputs)
  {
    Inv.CoreReachable(w, s);
    Inv.TraceReachable(w, s);
    assert Inv.Started(s, m);
    assert Inv.WaveLogged(s, |s.waves| - 1);
  }

  /**
   A node call can be refused by the open breaker only if the cooldown is positive and at least
   `max(1, threshold)` other nodes of the same wave have exhausted their attempts.
   */
  lemma RefusedNeedsFailedWave(y: System, c: State, n: NodeId)
    requires Reachable(y, c) && n in c.calls && c.calls[n].Refused?
    ensures c.sched.waves != [] && y.cfg.cooldown > 0
    ensures var wave := c.sched.waves[|c.sched.waves| - 1].started;
            n in wave && n !in ExhaustedCalls(c.calls) && |ExhaustedCalls(c.calls)| >= Needed(y.cfg) &&
            forall m | m in ExhaustedCalls(c.calls) :: m in wave
  {
    ReachableExplained(y, c);
    forall m | m in c.calls ensures c.sched.waves != [] && m in c.sched.waves[|c.sched.waves| - 1].started {
      CallInLastWave(Actual(y), c.sched, m);
    }
  }

  /** In a wave no wider than the threshold the breaker never refuses a call. */
  lemma NarrowWavesNeverRefused(y: System, c: State, n: NodeId)
    requires Reachable(y, c) && c.sched.waves != [] && n in c.calls
    requires |c.sched.waves[|c.sched.waves| - 1].started| <= Needed(y.cfg)
    ensures !c.calls[n].Refused?
  {
    if c.calls[n].Refused? {
      RefusedNeedsFailedWave(y, c, n);
      var wave := c.sched.waves[|c.sched.waves| - 1].started;
      var x := ExhaustedCalls(c.calls);
      SubsetSize(x + {n}, Elems(wave));
      ElemsSize(wave);
    }
  }

  lemma {:induction false} ElemsSize<T>(s: seq<T>)
    ensures |Elems(s)| <= |s|
  {
    if s != [] {
      var k := |s| - 1;
      ElemsSize(s[..k]);
      assert s == s[..k] + [s[k]];
      assert Elems(s) == Elems(s[..k]) + {s[k]};
    }
  }
}
