/** What every reachable scheduler state satisfies. */
module SchedulerInvariants {
  import opened KeyOrder
  import opened Json
  import opened Graphs
  import opened Errors
  import opened NodeIo
  import opened Scheduler

  // ----- counters and frontier

  ghost predicate Started(s: State, n: NodeId) {
    n in s.outputs || n in s.inflight
  }

  ghost predicate CountersExact(g: Graph, s: State) {
    s.indeg.Keys == g.nodes &&
    (forall m | m in s.indeg :: s.indeg[m] == Count(g.edges, m, Pending(g, s.outputs))) &&
    (forall m | m in s.indeg :: s.indeg[m] == 0 <==> Started(s, m) || m in s.ready)
  }

  ghost predicate Frontier(g: Graph, s: State) {
    Distinct(s.ready) &&
    (forall n | Started(s, n) || n in s.ready :: n in g.nodes) &&
    (forall n | n in s.ready :: !Started(s, n)) &&
    (forall n | n in s.inflight :: n !in s.outputs && s.inflight[n] == ParentsOf(g, n, s.outputs))
  }

  lemma UnlockedMeansFired(g: Graph, s: State, n: NodeId)
    requires CountersExact(g, s) && (Started(s, n) || n in s.ready) && n in g.nodes
    ensures forall e | e in g.edges && e.to == n :: EdgeFired(e, s.outputs)
    ensures forall p | p in Preds(g, n) :: p in s.outputs
  {
    CountZero(g.edges, n, Pending(g, s.outputs));
  }

  lemma AllFiredMeansUnlocked(g: Graph, s: State, n: NodeId)
    requires CountersExact(g, s) && n in g.nodes
    requires forall e | e in g.edges && e.to == n :: EdgeFired(e, s.outputs)
    ensures Started(s, n) || n in s.ready
  {
    CountZero(g.edges, n, Pending(g, s.outputs));
  }

  lemma FrontierInit(w: Workflow, s: State)
    requires Init(w, s)
    ensures CountersExact(w.g, s) && Frontier(w.g, s)
  {
    assert Pending(w.g, s.outputs) == Elems(w.g.edges);
    var zero := set m | m in s.indeg && s.indeg[m] == 0;
    InOrderOf(zero, s.ready);
    AscendingDistinct(s.ready);
    forall m ensures m in s.ready <==> m in zero {
      assert m in s.ready <==> m in Elems(s.ready);
    }
  }

  lemma FrontierStart(w: Workflow, s: State, s': State)
    requires CountersExact(w.g, s) && Frontier(w.g, s) && StartWave(w, s, s')
    ensures CountersExact(w.g, s') && Frontier(w.g, s')
  {
    forall n ensures Started(s', n) <==> Started(s, n) || n in s.ready {
    }
  }

  /** The firing edges of an in-flight node are all still pending. */
  lemma FiringWasPending(g: Graph, s: State, n: NodeId, v: Value)
    requires CountersExact(g, s) && n !in s.outputs
    ensures FiredBy(g, n, v) <= Pending(g, s.outputs)
    ensures Pending(g, s.outputs[n := v]) == Pending(g, s.outputs) - FiredBy(g, n, v)
    ensures forall m | m in s.indeg :: Count(g.edges, m, FiredBy(g, n, v)) <= s.indeg[m]
  {
    forall m | m in s.indeg ensures Count(g.edges, m, FiredBy(g, n, v)) <= s.indeg[m] {
      CountSplit(g.edges, m, Pending(g, s.outputs), FiredBy(g, n, v));
    }
  }

  lemma CountersComplete(w: Workflow, s: State, n: NodeId, out: NodeOutput,
                         indeg: map<NodeId, nat>, added: seq<NodeId>, s': State)
    requires CountersExact(w.g, s) && Frontier(w.g, s) && Complete(w, s, n, out, indeg, added, s')
    ensures CountersExact(w.g, s')
  {
    var d := FiredBy(w.g, n, out.value);
    FiringWasPending(w.g, s, n, out.value);
    forall m | m in s.indeg
      ensures indeg[m] == Count(w.g.edges, m, Pending(w.g, s'.outputs))
      ensures indeg[m] == 0 <==> Started(s', m) || m in s'.ready
    {
      CountSplit(w.g.edges, m, Pending(w.g, s.outputs), d);
      assert m in added <==> Unlocks(w.g.edges, d, s.indeg, m);
      assert Started(s', m) <==> Started(s, m);
      assert m in s'.ready <==> m in s.ready || m in added;
    }
  }

  lemma FrontierComplete(w: Workflow, s: State, n: NodeId, out: NodeOutput,
                         indeg: map<NodeId, nat>, added: seq<NodeId>, s': State)
    requires CountersExact(w.g, s) && Frontier(w.g, s) && Complete(w, s, n, out, indeg, added, s')
    ensures Frontier(w.g, s')
  {
    var d := FiredBy(w.g, n, out.value);
    forall m | m in added ensures m in w.g.nodes && !Started(s, m) && m !in s.ready {
      assert Unlocks(w.g.edges, d, s.indeg, m);
    }
    DistinctConcat(s.ready, added);
    assert forall m :: Started(s', m) <==> Started(s, m);
    forall x | x in s'.inflight ensures s'.inflight[x] == ParentsOf(w.g, x, s'.outputs) {
      UnlockedMeansFired(w.g, s, x);
    }
  }

  // ----- values

  ghost predicate Produced(w: Workflow, n: NodeId, m: Parents, v: Value) {
    exists out :: w.may(n, m, Ok(out)) && out.value == v
  }

  /** Every output is what its node answered on exactly its predecessors' outputs. */
  ghost predicate ValuesExplained(w: Workflow, s: State) {
    forall n | n in s.outputs ::
      ParentsOf(w.g, n, s.outputs).Keys == Preds(w.g, n) &&
      Produced(w, n, ParentsOf(w.g, n, s.outputs), s.outputs[n])
  }

  lemma ValuesComplete(w: Workflow, s: State, n: NodeId, out: NodeOutput,
                       indeg: map<NodeId, nat>, added: seq<NodeId>, s': State)
    requires CountersExact(w.g, s) && Frontier(w.g, s) && ValuesExplained(w, s)
    requires Complete(w, s, n, out, indeg, added, s')
    ensures ValuesExplained(w, s')
  {
    forall x | x in s'.outputs
      ensures ParentsOf(w.g, x, s'.outputs).Keys == Preds(w.g, x)
      ensures Produced(w, x, ParentsOf(w.g, x, s'.outputs), s'.outputs[x])
    {
      UnlockedMeansFired(w.g, s, x);
      assert ParentsOf(w.g, x, s'.outputs) == ParentsOf(w.g, x, s.outputs);
    }
  }

  // ----- wave numbers

  ghost predicate RanksFit(s: State) {
    (forall n :: n in s.rank <==> Started(s, n)) &&
    (forall n | n in s.rank :: s.rank[n] < |s.waves|) &&
    (forall n | n in s.inflight :: s.rank[n] == |s.waves| - 1)
  }

  ghost predicate ReadyLinked(g: Graph, s: State) {
    forall n | n in s.ready && |s.waves| > 0 :: HasPredAt(g, n, s.rank, |s.waves| - 1)
  }

  ghost predicate WavesLayered(g: Graph, s: State) {
    RanksFit(s) && ReadyLinked(g, s) && Layering(g, s.rank)
  }

  lemma ReadyClimbs(g: Graph, s: State, m: NodeId, p: NodeId)
    requires CountersExact(g, s) && Frontier(g, s) && WavesLayered(g, s)
    requires m in s.ready && p in Preds(g, m)
    ensures p in s.rank && s.rank[p] < |s.waves|
  {
    UnlockedMeansFired(g, s, m);
    assert Started(s, p);
  }

  lemma LayeringStart(g: Graph, s: State)
    requires CountersExact(g, s) && Frontier(g, s) && WavesLayered(g, s)
    ensures Layering(g, Extend(s.rank, s.ready, |s.waves|))
  {
    forall m, p | m in s.ready && p in Preds(g, m) ensures p in s.rank && s.rank[p] < |s.waves| {
      ReadyClimbs(g, s, m, p);
    }
    LayeringExtends(g, s.rank, s.ready, |s.waves|);
  }

  lemma LayersStart(w: Workflow, s: State, s': State)
    requires CountersExact(w.g, s) && Frontier(w.g, s) && WavesLayered(w.g, s) && StartWave(w, s, s')
    ensures WavesLayered(w.g, s')
  {
    LayeringStart(w.g, s);
    RanksAfterStart(w.g, s, s');
  }

  lemma RanksAfterStart(g: Graph, s: State, s': State)
    requires RanksFit(s) && s.inflight == map[] && s' == WaveStarted(g, s)
    requires forall n | n in s.ready :: !Started(s, n)
    ensures RanksFit(s')
  {
    forall n ensures Started(s', n) <==> Started(s, n) || n in s.ready {
    }
  }

  lemma RanksComplete(w: Workflow, s: State, n: NodeId, out: NodeOutput,
                      indeg: map<NodeId, nat>, added: seq<NodeId>, s': State)
    requires RanksFit(s) && Complete(w, s, n, out, indeg, added, s')
    ensures RanksFit(s') && |s'.waves| == |s.waves| > 0 && s.rank[n] == |s.waves| - 1
  {
    assert Started(s, n);
    assert forall m :: Started(s', m) <==> Started(s, m);
  }

  lemma AddedLinked(w: Workflow, s: State, n: NodeId, out: NodeOutput,
                    indeg: map<NodeId, nat>, added: seq<NodeId>, k: nat)
    requires Released(w.g, s, FiredBy(w.g, n, out.value), indeg, added) && n in s.rank && s.rank[n] == k
    ensures forall m | m in added :: HasPredAt(w.g, m, s.rank, k)
  {
    var d := FiredBy(w.g, n, out.value);
    forall m | m in added ensures HasPredAt(w.g, m, s.rank, k) {
      assert Unlocks(w.g.edges, d, s.indeg, m);
      CountZero(w.g.edges, m, d);
      var e :| e in w.g.edges && e.to == m && e in d;
    }
  }

  lemma LayersComplete(w: Workflow, s: State, n: NodeId, out: NodeOutput,
                       indeg: map<NodeId, nat>, added: seq<NodeId>, s': State)
    requires WavesLayered(w.g, s) && Complete(w, s, n, out, indeg, added, s')
    ensures WavesLayered(w.g, s')
  {
    RanksComplete(w, s, n, out, indeg, added, s');
    AddedLinked(w, s, n, out, indeg, added, |s.waves| - 1);
  }

  // ----- the event trace

  function Finished(digest: Value -> string, cs: seq<Completion>): seq<Event> {
    seq(|cs|, i requires 0 <= i < |cs| =>
      NodeCompleted(cs[i].id, HashJson(digest, cs[i].out.value), cs[i].out.gasUsed))
  }

  /** A wave's events: all of its starts, then its completions. */
  function RenderWave(digest: Value -> string, wave: Wave): seq<Event> {
    Starts(wave.started) + Finished(digest, wave.finished)
  }

  function Render(digest: Value -> string, waves: seq<Wave>): seq<Event> {
    if waves == [] then []
    else Render(digest, waves[..|waves| - 1]) + RenderWave(digest, waves[|waves| - 1])
  }

  function FinalEvents(status: Status): seq<Event> {
    match status
    case Running => []
    case NodeFailed(_, err) => [WorkflowFailed(err)]
    case Unreached => []
    case Completed(h) => [WorkflowCompleted(h)]
  }

  ghost predicate EventsRendered(w: Workflow, s: State) {
    s.events == [WorkflowStarted] + Render(w.digest, s.waves) + FinalEvents(s.status)
  }

  function Ids(cs: seq<Completion>): seq<NodeId> {
    seq(|cs|, i requires 0 <= i < |cs| => cs[i].id)
  }

  /** Wave `k` started exactly the nodes of rank `k`, and finished those of them that have returned. */
  ghost predicate WaveLogged(s: State, k: nat)
    requires k < |s.waves|
  {
    var wave := s.waves[k];
    wave.started != [] && Distinct(wave.started) && Distinct(Ids(wave.finished)) &&
    (forall n :: n in wave.started <==> n in s.rank && s.rank[n] == k) &&
    (forall n :: n in Ids(wave.finished) <==> n in s.outputs && n in s.rank && s.rank[n] == k) &&
    (forall i | 0 <= i < |wave.finished| ::
       wave.finished[i].id in s.outputs && s.outputs[wave.finished[i].id] == wave.finished[i].out.value)
  }

  ghost predicate WavesLogged(s: State) {
    forall k: nat | k < |s.waves| :: WaveLogged(s, k)
  }

  lemma EventsStart(w: Workflow, s: State, s': State)
    requires EventsRendered(w, s) && StartWave(w, s, s')
    ensures EventsRendered(w, s')
  {
    assert s'.waves[..|s'.waves| - 1] == s.waves;
    assert Finished(w.digest, []) == [];
    assert RenderWave(w.digest, Wave(s.ready, [])) == Starts(s.ready);
  }

  lemma EventsComplete(w: Workflow, s: State, n: NodeId, out: NodeOutput,
                       indeg: map<NodeId, nat>, added: seq<NodeId>, s': State)
    requires EventsRendered(w, s) && Complete(w, s, n, out, indeg, added, s') && s.waves != []
    ensures EventsRendered(w, s')
  {
    var k := |s.waves| - 1;
    var c := Completion(n, out);
    var last, last' := s.waves[k], s'.waves[k];
    assert s'.waves[..k] == s.waves[..k];
    assert Finished(w.digest, last'.finished) == Finished(w.digest, last.finished) + Finished(w.digest, [c]);
    assert RenderWave(w.digest, last') == RenderWave(w.digest, last) + Finished(w.digest, [c]);
  }

  lemma LogStart(w: Workflow, s: State, s': State)
    requires Frontier(w.g, s) && RanksFit(s) && WavesLogged(s) && StartWave(w, s, s')
    ensures WavesLogged(s')
  {
    forall n | n in s.ready ensures n !in s.rank && n !in s.outputs {
      assert !Started(s, n);
    }
    forall k: nat | k < |s'.waves| ensures WaveLogged(s', k) {
      if k < |s.waves| {
        assert WaveLogged(s, k);
        LogKept(s, s', k);
      } else {
        assert s'.waves[k] == Wave(s.ready, []);
        assert Ids(s'.waves[k].finished) == [];
      }
    }
  }

  lemma LogKept(s: State, s': State, k: nat)
    requires k < |s.waves| && k < |s'.waves| && WaveLogged(s, k) && s'.waves[k] == s.waves[k]
    requires forall n :: n in s.rank && s.rank[n] == k <==> n in s'.rank && s'.rank[n] == k
    requires forall n | n in s'.rank && s'.rank[n] == k :: n in s.outputs <==> n in s'.outputs
    requires forall n | n in s.outputs :: n in s'.outputs && s'.outputs[n] == s.outputs[n]
    ensures WaveLogged(s', k)
  {
  }

  lemma LogComplete(w: Workflow, s: State, n: NodeId, out: NodeOutput,
                    indeg: map<NodeId, nat>, added: seq<NodeId>, s': State)
    requires RanksFit(s) && WavesLogged(s) && n !in s.outputs && Complete(w, s, n, out, indeg, added, s')
    ensures WavesLogged(s')
  {
    RanksComplete(w, s, n, out, indeg, added, s');
    var last := |s.waves| - 1;
    forall k: nat | k < |s'.waves| ensures WaveLogged(s', k) {
      assert WaveLogged(s, k);
      if k == last {
        LogAppended(s, s', last, Completion(n, out));
      } else {
        LogKept(s, s', k);
      }
    }
  }

  lemma LogAppended(s: State, s': State, k: nat, c: Completion)
    requires k < |s.waves| == |s'.waves| && WaveLogged(s, k)
    requires s'.waves[k] == s.waves[k].(finished := s.waves[k].finished + [c])
    requires s'.rank == s.rank && s'.outputs == s.outputs[c.id := c.out.value]
    requires c.id in s.rank && s.rank[c.id] == k && c.id !in s.outputs
    ensures WaveLogged(s', k)
  {
    var cs := s.waves[k].finished;
    assert Ids(cs + [c]) == Ids(cs) + [c.id];
    assert c.id !in Ids(cs);
    DistinctConcat(Ids(cs), [c.id]);
    forall i | 0 <= i < |cs| ensures cs[i].id != c.id {
      assert Ids(cs)[i] == cs[i].id;
    }
  }

  // ----- how a run ended

  ghost predicate Quiescent(s: State) {
    s.inflight == map[] && s.ready == []
  }

  ghost predicate StatusExplained(w: Workflow, s: State) {
    match s.status
    case Running => true
    case NodeFailed(n, err) => n in s.inflight && w.may(n, s.inflight[n], Err(err))
    case Unreached => Quiescent(s) && |s.outputs| != |w.g.nodes|
    case Completed(h) =>
      Quiescent(s) && |s.outputs| == |w.g.nodes| && h == HashJson(w.digest, AsObject(s.outputs))
  }

  lemma StatusNext(w: Workflow, s: State, s': State)
    requires Next(w, s, s')
    ensures s.status == Running && StatusExplained(w, s')
  {
  }

  // ----- all invariants together

  ghost predicate Core(w: Workflow, s: State) {
    CountersExact(w.g, s) && Frontier(w.g, s) && ValuesExplained(w, s) && WavesLayered(w.g, s) &&
    StatusExplained(w, s)
  }

  ghost predicate Inv(w: Workflow, s: State) {
    Core(w, s) && EventsRendered(w, s) && WavesLogged(s)
  }

  lemma InvInit(w: Workflow, s: State)
    requires Init(w, s)
    ensures Inv(w, s)
  {
    FrontierInit(w, s);
  }

  lemma InvComplete(w: Workflow, s: State, n: NodeId, out: NodeOutput,
                    indeg: map<NodeId, nat>, added: seq<NodeId>, s': State)
    requires Inv(w, s) && Complete(w, s, n, out, indeg, added, s')
    ensures Inv(w, s')
  {
    CountersComplete(w, s, n, out, indeg, added, s');
    FrontierComplete(w, s, n, out, indeg, added, s');
    ValuesComplete(w, s, n, out, indeg, added, s');
    LayersComplete(w, s, n, out, indeg, added, s');
    RanksComplete(w, s, n, out, indeg, added, s');
    EventsComplete(w, s, n, out, indeg, added, s');
    LogComplete(w, s, n, out, indeg, added, s');
  }

  lemma InvStart(w: Workflow, s: State, s': State)
    requires Inv(w, s) && StartWave(w, s, s')
    ensures Inv(w, s')
  {
    FrontierStart(w, s, s');
    LayersStart(w, s, s');
    EventsStart(w, s, s');
    LogStart(w, s, s');
  }

  /** A step that ends the run leaves everything but the events and the status alone. */
  lemma InvEnd(w: Workflow, s: State, st: Status)
    requires Inv(w, s) && s.status == Running
    requires StatusExplained(w, s.(events := s.events + FinalEvents(st), status := st))
    ensures Inv(w, s.(events := s.events + FinalEvents(st), status := st))
  {
    var s' := s.(events := s.events + FinalEvents(st), status := st);
    assert forall n :: Started(s', n) <==> Started(s, n);
    forall k: nat | k < |s'.waves| ensures WaveLogged(s', k) {
      assert WaveLogged(s, k);
    }
  }

  lemma EndSteps(w: Workflow, s: State, s': State)
    requires s.status == Running && (SomeFail(w, s, s') || Finish(w, s, s'))
    ensures s' == s.(events := s.events + FinalEvents(s'.status), status := s'.status)
  {
  }

  lemma InvNext(w: Workflow, s: State, s': State)
    requires Inv(w, s) && Next(w, s, s')
    ensures Inv(w, s')
  {
    if StartWave(w, s, s') {
      InvStart(w, s, s');
    } else if SomeComplete(w, s, s') {
      var n, out, indeg, added :| Complete(w, s, n, out, indeg, added, s');
      InvComplete(w, s, n, out, indeg, added, s');
    } else {
      StatusNext(w, s, s');
      EndSteps(w, s, s');
      InvEnd(w, s, s'.status);
    }
  }

  lemma {:induction false} InvRun(w: Workflow, run: seq<State>)
    requires IsRun(w, run)
    ensures Inv(w, run[|run| - 1])
  {
    if |run| == 1 {
      InvInit(w, run[0]);
    } else {
      var k := |run| - 1;
      assert IsRun(w, run[..k]);
      InvRun(w, run[..k]);
      InvNext(w, run[k - 1], run[k]);
    }
  }

  lemma InvReachable(w: Workflow, s: State)
    requires Reachable(w, s)
    ensures Inv(w, s)
  {
    var run :| IsRun(w, run) && run[|run| - 1] == s;
    InvRun(w, run);
  }

  lemma CoreReachable(w: Workflow, s: State)
    requires Reachable(w, s)
    ensures Core(w, s)
  {
    InvReachable(w, s);
  }

  lemma TraceReachable(w: Workflow, s: State)
    requires Reachable(w, s)
    ensures EventsRendered(w, s) && WavesLogged(s)
  {
    InvReachable(w, s);
  }
}
