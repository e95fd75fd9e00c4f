/** Main results about scheduler runs. */
module SchedulerTheorems {
  import opened KeyOrder
  import opened Json
  import opened Pointer
  import opened Graphs
  import opened Errors
  import opened NodeIo
  import opened Scheduler
  import opened SchedulerInvariants

  // ----- what a node is called with

  /**
   A running node has seen every incoming edge fire, its input holds exactly its predecessors'
   outputs, and its counter is the number of its edges that have not fired: zero.
   */
  lemma NodeInput(w: Workflow, s: State, n: NodeId)
    requires Reachable(w, s) && n in s.inflight
    ensures n in w.g.nodes && n !in s.outputs && n in s.indeg && s.indeg[n] == 0
    ensures forall e | e in w.g.edges && e.to == n :: EdgeFired(e, s.outputs)
    ensures s.inflight[n].Keys == Preds(w.g, n)
    ensures forall p | p in Preds(w.g, n) :: p in s.outputs && s.inflight[n][p] == s.outputs[p]
  {
    CoreReachable(w, s);
    assert Started(s, n);
    UnlockedMeansFired(w.g, s, n);
  }

  /** In every reachable state each counter equals the number of incoming edges not yet fired. */
  lemma CountersAreUnfiredEdges(w: Workflow, s: State)
    requires Reachable(w, s)
    ensures s.indeg.Keys == w.g.nodes
    ensures forall m | m in s.indeg :: s.indeg[m] == Count(w.g.edges, m, Pending(w.g, s.outputs))
  {
    CoreReachable(w, s);
  }

  /** The counters and the newly ready nodes after `n` has completed. */
  lemma Releasable(w: Workflow, s: State, n: NodeId, v: Value) returns (indeg: map<NodeId, nat>, added: seq<NodeId>)
    requires Reachable(w, s) && n in s.inflight
    ensures forall m | m in s.indeg :: Count(w.g.edges, m, FiredBy(w.g, n, v)) <= s.indeg[m]
    ensures Released(w.g, s, FiredBy(w.g, n, v), indeg, added)
  {
    CoreReachable(w, s);
    var d := FiredBy(w.g, n, v);
    FiringWasPending(w.g, s, n, v);
    indeg := map m | m in s.indeg :: s.indeg[m] - Count(w.g.edges, m, d);
    var unlocked := set m | m in s.indeg && Unlocks(w.g.edges, d, s.indeg, m);
    added := InOrder(unlocked);
    InOrderOf(unlocked, added);
    AscendingDistinct(added);
    forall m ensures m in added <==> Unlocks(w.g.edges, d, s.indeg, m) {
      assert m in added <==> m in Elems(added);
    }
  }

  /** No counter underflows and no lookup fails: whatever a running node answers, it can complete. */
  lemma CanComplete(w: Workflow, s: State, n: NodeId, out: NodeOutput)
    requires Reachable(w, s) && s.status == Running && n in s.inflight && w.may(n, s.inflight[n], Ok(out))
    ensures forall m | m in s.indeg :: Count(w.g.edges, m, FiredBy(w.g, n, out.value)) <= s.indeg[m]
    ensures exists s' :: SomeComplete(w, s, s')
  {
    var indeg, added := Releasable(w, s, n, out.value);
    assert Complete(w, s, n, out, indeg, added, NodeDone(w, s, n, out, indeg, added));
    assert SomeComplete(w, s, NodeDone(w, s, n, out, indeg, added));
  }

  /** A running scheduler never gets stuck. */
  lemma Progress(w: Workflow, s: State)
    requires Reachable(w, s) && s.status == Running
    requires forall n | n in s.inflight :: Answered(w, n, s.inflight[n])
    ensures exists s' :: Next(w, s, s')
  {
    if s.inflight != map[] {
      var n :| n in s.inflight;
      assert Answered(w, n, s.inflight[n]);
      var r :| w.may(n, s.inflight[n], r);
      match r {
        case Ok(out) =>
          CanComplete(w, s, n, out);
          var s' :| SomeComplete(w, s, s');
          assert Next(w, s, s');
        case Err(err) =>
          var s' := s.(events := s.events + [WorkflowFailed(err)], status := NodeFailed(n, err));
          assert Fail(w, s, n, err, s');
          assert SomeFail(w, s, s');
          assert Next(w, s, s');
      }
    } else if s.ready != [] {
      assert StartWave(w, s, WaveStarted(w.g, s));
      assert Next(w, s, WaveStarted(w.g, s));
    } else {
      assert Finish(w, s, Ended(w, s));
      assert Next(w, s, Ended(w, s));
    }
  }

  // ----- termination

  ghost function Unstarted(g: Graph, s: State): set<NodeId> {
    set n | n in g.nodes && !Started(s, n)
  }

  ghost function Measure(g: Graph, s: State): nat {
    2 * |Unstarted(g, s)| + |s.inflight.Keys| + if s.status == Running then 1 else 0
  }

  lemma StartDecreases(w: Workflow, s: State, s': State)
    requires Frontier(w.g, s) && StartWave(w, s, s')
    ensures Measure(w.g, s') < Measure(w.g, s)
  {
    var r, u := Elems(s.ready), Unstarted(w.g, s);
    DistinctSize(s.ready);
    assert s'.inflight.Keys == r;
    UnstartedShrinks(w.g, s, s');
    assert |u - r| == |u| - |r|;
  }

  lemma UnstartedShrinks(g: Graph, s: State, s': State)
    requires forall n | n in s.ready :: n in g.nodes && !Started(s, n)
    requires s.inflight == map[] && s'.outputs == s.outputs && s'.inflight.Keys == Elems(s.ready)
    ensures Elems(s.ready) <= Unstarted(g, s)
    ensures Unstarted(g, s') == Unstarted(g, s) - Elems(s.ready)
  {
    assert forall n :: n in s'.inflight <==> n in s'.inflight.Keys;
  }

  lemma CompleteDecreases(w: Workflow, s: State, n: NodeId, out: NodeOutput,
                          indeg: map<NodeId, nat>, added: seq<NodeId>, s': State)
    requires Complete(w, s, n, out, indeg, added, s')
    ensures Measure(w.g, s') < Measure(w.g, s)
  {
    assert Unstarted(w.g, s') == Unstarted(w.g, s);
    assert s'.inflight.Keys == s.inflight.Keys - {n};
  }

  lemma EndDecreases(w: Workflow, s: State, s': State)
    requires s.status == Running && (SomeFail(w, s, s') || Finish(w, s, s'))
    ensures Measure(w.g, s') < Measure(w.g, s)
  {
    EndSteps(w, s, s');
    assert Unstarted(w.g, s') == Unstarted(w.g, s);
  }

  lemma NextDecreases(w: Workflow, s: State, s': State)
    requires Frontier(w.g, s) && Next(w, s, s')
    ensures Measure(w.g, s') < Measure(w.g, s)
  {
    if StartWave(w, s, s') {
      StartDecreases(w, s, s');
    } else if SomeComplete(w, s, s') {
      var n, out, indeg, added :| Complete(w, s, n, out, indeg, added, s');
      CompleteDecreases(w, s, n, out, indeg, added, s');
    } else {
      EndDecreases(w, s, s');
    }
  }

  lemma {:induction false} RunMeasure(w: Workflow, run: seq<State>)
    requires IsRun(w, run)
    ensures Measure(w.g, run[|run| - 1]) + |run| <= 2 * |w.g.nodes| + 2
  {
    if |run| == 1 {
      assert Unstarted(w.g, run[0]) == w.g.nodes;
    } else {
      var k := |run| - 1;
      assert IsRun(w, run[..k]);
      RunMeasure(w, run[..k]);
      InvRun(w, run[..k]);
      NextDecreases(w, run[k - 1], run[k]);
    }
  }

  /** Every run ends: it has at most two steps per node and one more. */
  lemma RunsTerminate(w: Workflow, run: seq<State>)
    requires IsRun(w, run)
    ensures |run| <= 2 * |w.g.nodes| + 2
  {
    RunMeasure(w, run);
  }

  // ----- waves are the levels of the graph

  /**
   Of the nodes that a run has started, wave `k` holds exactly those whose longest incoming path has
   `k` edges; so each starts in one wave only, and once.
   */
  lemma WaveIsLevel(w: Workflow, s: State, n: NodeId, k: nat)
    requires Reachable(w, s) && Started(s, n)
    ensures k < |s.waves| && n in s.waves[k].started <==> Level(w.g, n, k)
    ensures k < |s.waves| ==> Distinct(s.waves[k].started)
  {
    CoreReachable(w, s);
    TraceReachable(w, s);
    LayeringIsLevel(w.g, s.rank, n);
    if Level(w.g, n, k) {
      LevelUnique(w.g, n, k, s.rank[n]);
    }
    if k < |s.waves| {
      assert WaveLogged(s, k);
    }
  }

  /** The number of waves of a successful run is the number of nodes on the longest path. */
  lemma WavesAreCriticalPath(w: Workflow, s: State)
    requires Reachable(w, s) && s.status.Completed?
    ensures forall p | IsPath(w.g, p) && p[|p| - 1] in w.g.nodes :: |p| <= |s.waves|
    ensures s.waves != [] ==> exists p :: IsPath(w.g, p) && p[|p| - 1] in w.g.nodes && |p| == |s.waves|
  {
    CoreReachable(w, s);
    TraceReachable(w, s);
    AllNodesDone(w, s);
    forall p | IsPath(w.g, p) && p[|p| - 1] in w.g.nodes ensures |p| <= |s.waves| {
      assert Started(s, p[|p| - 1]);
      PathClimbs(w.g, s.rank, p);
    }
    if s.waves != [] {
      var k := |s.waves| - 1;
      assert WaveLogged(s, k);
      var n := s.waves[k].started[0];
      assert n in s.waves[k].started;
      var p := DescendingPath(w.g, s.rank, n);
      assert Started(s, n);
    }
  }

  lemma AllNodesDone(w: Workflow, s: State)
    requires Core(w, s) && |s.outputs| == |w.g.nodes|
    ensures s.outputs.Keys == w.g.nodes
  {
    assert s.outputs.Keys <= w.g.nodes by {
      forall n | n in s.outputs ensures n in w.g.nodes { assert Started(s, n); }
    }
    SubsetSize(s.outputs.Keys, w.g.nodes);
  }

  // ----- the meaning of a workflow

  /**
   `n` yields `v` by a derivation of height at most `d`: its predecessors yield the values in `m`,
   every incoming edge fires on them, and `n` answers `v` on input `m`. This does not mention the
   scheduler.
   */
  ghost predicate Derives(w: Workflow, n: NodeId, v: Value, d: nat)
    decreases d, 1
  {
    n in w.g.nodes && exists m :: Supports(w, n, v, m, d)
  }

  ghost predicate Supports(w: Workflow, n: NodeId, v: Value, m: Parents, d: nat)
    decreases d, 0
  {
    m.Keys == Preds(w.g, n) &&
    (forall p | p in m :: d > 0 && Derives(w, p, m[p], d - 1)) &&
    (forall e | e in w.g.edges && e.to == n :: e.from in m && Evaluate(e.condition, m[e.from])) &&
    Produced(w, n, m, v)
  }

  lemma {:induction false} DerivesMonotone(w: Workflow, n: NodeId, v: Value, d: nat, d': nat)
    requires Derives(w, n, v, d) && d <= d'
    ensures Derives(w, n, v, d')
    decreases d
  {
    var m :| Supports(w, n, v, m, d);
    forall p | p in m ensures d' > 0 && Derives(w, p, m[p], d' - 1) {
      DerivesMonotone(w, p, m[p], d - 1, d' - 1);
    }
    assert Supports(w, n, v, m, d');
  }

  /** Soundness: whatever the scheduler has computed, in any state, is derivable. */
  lemma {:induction false} OutputsDerive(w: Workflow, s: State, n: NodeId)
    requires Core(w, s) && n in s.outputs
    ensures n in s.rank && Derives(w, n, s.outputs[n], s.rank[n])
    decreases if n in s.rank then s.rank[n] else 0
  {
    assert Started(s, n);
    UnlockedMeansFired(w.g, s, n);
    var m := ParentsOf(w.g, n, s.outputs);
    forall p | p in m ensures s.rank[n] > 0 && Derives(w, p, m[p], s.rank[n] - 1) {
      assert p in s.rank && s.rank[p] < s.rank[n];
      OutputsDerive(w, s, p);
      DerivesMonotone(w, p, m[p], s.rank[p], s.rank[n] - 1);
    }
    assert Supports(w, n, s.outputs[n], m, s.rank[n]);
  }

  /** Completeness: a run that ends without a node error has computed everything derivable. */
  lemma {:induction false} DerivedIsOutput(w: Workflow, s: State, n: NodeId, v: Value, d: nat)
    requires Deterministic(w) && CountersExact(w.g, s) && ValuesExplained(w, s)
    requires Quiescent(s) && Derives(w, n, v, d)
    ensures n in s.outputs && s.outputs[n] == v
    decreases d
  {
    var m :| Supports(w, n, v, m, d);
    forall p | p in m ensures p in s.outputs && s.outputs[p] == m[p] {
      DerivedIsOutput(w, s, p, m[p], d - 1);
    }
    SupportedIsOutput(w, s, n, m);
    SameInputSameOutput(w, n, m, v, s.outputs[n]);
  }

  lemma SupportedIsOutput(w: Workflow, s: State, n: NodeId, m: Parents)
    requires CountersExact(w.g, s) && ValuesExplained(w, s) && Quiescent(s) && n in w.g.nodes
    requires m.Keys == Preds(w.g, n) && forall p | p in m :: p in s.outputs && s.outputs[p] == m[p]
    requires forall e | e in w.g.edges && e.to == n :: e.from in m && Evaluate(e.condition, m[e.from])
    ensures n in s.outputs && Produced(w, n, m, s.outputs[n])
  {
    AllFiredMeansUnlocked(w.g, s, n);
    assert Started(s, n);
    assert ParentsOf(w.g, n, s.outputs) == m;
  }

  lemma SameInputSameOutput(w: Workflow, n: NodeId, m: Parents, v: Value, v': Value)
    requires Deterministic(w) && Produced(w, n, m, v) && Produced(w, n, m, v')
    ensures v == v'
  {
    var out :| w.may(n, m, Ok(out)) && out.value == v;
    var out' :| w.may(n, m, Ok(out')) && out'.value == v';
    assert Ok(out) == Ok(out');
  }

  ghost predicate Means(w: Workflow, n: NodeId, v: Value) {
    exists d: nat :: Derives(w, n, v, d)
  }

  lemma OutputMeans(w: Workflow, s: State, n: NodeId)
    requires Core(w, s) && n in s.outputs
    ensures Means(w, n, s.outputs[n])
  {
    OutputsDerive(w, s, n);
  }

  lemma MeantIsOutput(w: Workflow, s: State, n: NodeId, v: Value)
    requires Deterministic(w) && CountersExact(w.g, s) && ValuesExplained(w, s)
    requires Quiescent(s) && Means(w, n, v)
    ensures n in s.outputs && s.outputs[n] == v
  {
    var d: nat :| Derives(w, n, v, d);
    DerivedIsOutput(w, s, n, v, d);
  }

  /** The outputs of a run without node errors are exactly the meaning of the workflow. */
  lemma OutputsAreMeaning(w: Workflow, s: State, n: NodeId, v: Value)
    requires Deterministic(w) && Reachable(w, s) && (s.status.Completed? || s.status.Unreached?)
    ensures n in s.outputs && s.outputs[n] == v <==> Means(w, n, v)
  {
    CoreReachable(w, s);
    if n in s.outputs { OutputMeans(w, s, n); }
    if Means(w, n, v) { MeantIsOutput(w, s, n, v); }
  }

  lemma QuiescentContains(w: Workflow, s: State, t: State)
    requires Deterministic(w) && Core(w, s) && Quiescent(t)
    requires CountersExact(w.g, t) && ValuesExplained(w, t)
    ensures forall n | n in s.outputs :: n in t.outputs && t.outputs[n] == s.outputs[n]
  {
    forall n | n in s.outputs ensures n in t.outputs && t.outputs[n] == s.outputs[n] {
      OutputMeans(w, s, n);
      MeantIsOutput(w, t, n, s.outputs[n]);
    }
  }

  /** A node that errs in one run would have erred in every run. */
  lemma FailureIsInevitable(w: Workflow, s: State, t: State)
    requires Deterministic(w) && Core(w, s) && Quiescent(t)
    requires CountersExact(w.g, t) && ValuesExplained(w, t)
    ensures !s.status.NodeFailed?
  {
    if s.status.NodeFailed? {
      var n, m := s.status.id, s.inflight[s.status.id];
      QuiescentContains(w, s, t);
      InflightSupported(w.g, s, n);
      SupportedIsOutput(w, t, n, m);
      OkExcludesErr(w, n, m, t.outputs[n], s.status.error);
    }
  }

  lemma OkExcludesErr(w: Workflow, n: NodeId, m: Parents, v: Value, err: KernelError)
    requires Deterministic(w) && Produced(w, n, m, v)
    ensures !w.may(n, m, Err(err))
  {
    var out :| w.may(n, m, Ok(out)) && out.value == v;
  }

  lemma InflightSupported(g: Graph, s: State, n: NodeId)
    requires CountersExact(g, s) && Frontier(g, s) && n in s.inflight
    ensures n in g.nodes && s.inflight[n].Keys == Preds(g, n)
    ensures forall p | p in s.inflight[n] :: p in s.outputs && s.inflight[n][p] == s.outputs[p]
    ensures forall e | e in g.edges && e.to == n ::
              e.from in s.inflight[n] && Evaluate(e.condition, s.inflight[n][e.from])
  {
    assert Started(s, n);
    UnlockedMeansFired(g, s, n);
  }

  /** The meaning of the workflow calls `n` on input `m`. */
  ghost predicate Supplied(w: Workflow, n: NodeId, m: Parents) {
    n in w.g.nodes && m.Keys == Preds(w.g, n) && (forall p | p in m :: Means(w, p, m[p])) &&
    forall e | e in w.g.edges && e.to == n :: e.from in m && Evaluate(e.condition, m[e.from])
  }

  ghost predicate ErrsOn(w: Workflow, n: NodeId, m: Parents) {
    exists err :: w.may(n, m, Err(err))
  }

  /** Some node errs on the input that the workflow gives it. */
  ghost predicate Doomed(w: Workflow) {
    exists n, m :: Supplied(w, n, m) && ErrsOn(w, n, m)
  }

  lemma FailedIsDoomed(w: Workflow, s: State)
    requires Core(w, s) && s.status.NodeFailed?
    ensures Doomed(w)
  {
    var n, m := s.status.id, s.inflight[s.status.id];
    InflightSupported(w.g, s, n);
    forall p | p in m ensures Means(w, p, m[p]) {
      OutputMeans(w, s, p);
    }
    assert Supplied(w, n, m) && ErrsOn(w, n, m);
  }

  lemma QuiescentNotDoomed(w: Workflow, s: State)
    requires Deterministic(w) && CountersExact(w.g, s) && ValuesExplained(w, s) && Quiescent(s)
    ensures !Doomed(w)
  {
    forall n, m | Supplied(w, n, m) ensures !ErrsOn(w, n, m) {
      forall p | p in m ensures p in s.outputs && s.outputs[p] == m[p] {
        MeantIsOutput(w, s, p, m[p]);
      }
      SupportedIsOutput(w, s, n, m);
      forall err ensures !w.may(n, m, Err(err)) {
        OkExcludesErr(w, n, m, s.outputs[n], err);
      }
    }
  }

  /** A run fails on a node error exactly when some node errs on the input the workflow gives it. */
  lemma FailsIffDoomed(w: Workflow, s: State)
    requires Deterministic(w) && Reachable(w, s) && s.status != Running
    ensures s.status.NodeFailed? <==> Doomed(w)
  {
    CoreReachable(w, s);
    if s.status.NodeFailed? {
      FailedIsDoomed(w, s);
    } else {
      QuiescentNotDoomed(w, s);
    }
  }

  lemma SameOutputs(w: Workflow, s: State, t: State)
    requires Deterministic(w) && Core(w, s) && Core(w, t) && Quiescent(s) && Quiescent(t)
    ensures s.outputs == t.outputs
  {
    QuiescentContains(w, s, t);
    QuiescentContains(w, t, s);
  }

  /**
   Confluence: for nodes that are fixed functions of their input, whether a run fails on a node
   error, and otherwise its outputs, its result and its attestation hash, do not depend on the
   order in which calls complete.
   */
  lemma Confluence(w: Workflow, s: State, t: State)
    requires Deterministic(w) && Reachable(w, s) && Reachable(w, t)
    requires s.status != Running && t.status != Running
    ensures s.status.NodeFailed? <==> t.status.NodeFailed?
    ensures !s.status.NodeFailed? ==> s.outputs == t.outputs && s.status == t.status
  {
    CoreReachable(w, s);
    CoreReachable(w, t);
    if !t.status.NodeFailed? { FailureIsInevitable(w, s, t); }
    if !s.status.NodeFailed? {
      FailureIsInevitable(w, t, s);
      SameOutputs(w, s, t);
    }
  }

  // ----- which nodes complete, and when a run succeeds

  /** `t` contains every node all of whose incoming edges come from `t` and fire on `outputs`. */
  ghost predicate ClosedUnderFiring(g: Graph, outputs: map<NodeId, Value>, t: set<NodeId>) {
    forall n | n in g.nodes && AllFireFrom(g, outputs, t, n) :: n in t
  }

  ghost predicate AllFireFrom(g: Graph, outputs: map<NodeId, Value>, t: set<NodeId>, n: NodeId) {
    forall e | e in g.edges && e.to == n :: e.from in t && EdgeFired(e, outputs)
  }

  lemma {:induction false} CompletedWithin(w: Workflow, s: State, t: set<NodeId>, n: NodeId)
    requires Core(w, s) && ClosedUnderFiring(w.g, s.outputs, t) && n in s.outputs
    ensures n in t
    decreases if n in s.rank then s.rank[n] else 0
  {
    assert Started(s, n);
    UnlockedMeansFired(w.g, s, n);
    forall e | e in w.g.edges && e.to == n ensures e.from in t {
      assert e.from in s.rank && s.rank[e.from] < s.rank[n];
      CompletedWithin(w, s, t, e.from);
    }
    assert AllFireFrom(w.g, s.outputs, t, n);
  }

  /** Without node errors the completed nodes are the least set closed under "all incoming edges fire". */
  lemma CompletedIsLeastClosed(w: Workflow, s: State)
    requires Reachable(w, s) && (s.status.Completed? || s.status.Unreached?)
    ensures ClosedUnderFiring(w.g, s.outputs, s.outputs.Keys)
    ensures forall t | ClosedUnderFiring(w.g, s.outputs, t) :: s.outputs.Keys <= t
  {
    CoreReachable(w, s);
    forall n | n in w.g.nodes && AllFireFrom(w.g, s.outputs, s.outputs.Keys, n) ensures n in s.outputs {
      AllFiredMeansUnlocked(w.g, s, n);
      assert Started(s, n);
    }
    forall t | ClosedUnderFiring(w.g, s.outputs, t) ensures s.outputs.Keys <= t {
      forall n | n in s.outputs ensures n in t { CompletedWithin(w, s, t, n); }
    }
  }

  ghost predicate RanEdgesHold(g: Graph, outputs: map<NodeId, Value>) {
    forall e | e in g.edges && e.from in outputs :: Evaluate(e.condition, outputs[e.from])
  }

  lemma SuccessIsAcyclic(w: Workflow, s: State)
    requires Core(w, s) && TargetsKnown(w.g) && s.outputs.Keys == w.g.nodes
    ensures Acyclic(w.g) && SourcesKnown(w.g) && RanEdgesHold(w.g, s.outputs)
  {
    forall e | e in w.g.edges ensures e.from in s.outputs && EdgeFired(e, s.outputs) && e.to in s.rank {
      assert Started(s, e.to);
      UnlockedMeansFired(w.g, s, e.to);
    }
    LayeringAcyclic(w.g, s.rank);
  }

  lemma BlockingEdge(g: Graph, s: State, n: NodeId) returns (e: Edge)
    requires CountersExact(g, s) && Quiescent(s) && n in g.nodes && n !in s.outputs
    ensures e in g.edges && e.to == n && !EdgeFired(e, s.outputs)
  {
    assert s.indeg[n] != 0 by { assert !Started(s, n); }
    CountZero(g.edges, n, Pending(g, s.outputs));
    e :| e in g.edges && e.to == n && !EdgeFired(e, s.outputs);
  }

  lemma UnreachedNodesCycle(w: Workflow, s: State)
    requires Core(w, s) && Quiescent(s) && SourcesKnown(w.g) && RanEdgesHold(w.g, s.outputs)
    requires s.outputs.Keys != w.g.nodes
    ensures !Acyclic(w.g)
  {
    var missing := w.g.nodes - s.outputs.Keys;
    assert s.outputs.Keys <= w.g.nodes by {
      forall n | n in s.outputs ensures n in w.g.nodes { assert Started(s, n); }
    }
    assert s.outputs.Keys + missing == w.g.nodes;
    forall n | n in missing ensures HasPredIn(w.g, n, missing) {
      var e := BlockingEdge(w.g, s, n);
      assert e.from in Preds(w.g, n) && e.from in missing;
    }
    CycleInSourceless(w.g, missing);
  }

  /**
   A run that has ended succeeded exactly when no node erred, the graph has no cycle and only known
   sources, and every edge leaving a node that ran had its condition met; cyclic graphs included.
   */
  lemma SuccessIff(w: Workflow, s: State)
    requires TargetsKnown(w.g) && Reachable(w, s) && s.status != Running
    ensures s.status.Completed? <==>
            !s.status.NodeFailed? && Acyclic(w.g) && SourcesKnown(w.g) && RanEdgesHold(w.g, s.outputs)
    ensures s.status.Completed? ==> s.outputs.Keys == w.g.nodes
  {
    CoreReachable(w, s);
    if s.status.Completed? {
      AllNodesDone(w, s);
      SuccessIsAcyclic(w, s);
    } else if s.status.Unreached? && SourcesKnown(w.g) && RanEdgesHold(w.g, s.outputs) {
      UnreachedNodesCycle(w, s);
    }
  }
}
