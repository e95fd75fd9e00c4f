/** The grammar of the event trace, and how waves relate to the topological order. */
module SchedulerTrace {
  import opened KeyOrder
  import opened Json
  import opened Graphs
  import opened Errors
  import opened Scheduler
  import opened SchedulerInvariants
  import opened SchedulerTheorems
  import TopoSort

  lemma DistinctSameMultiset<T>(a: seq<T>, b: seq<T>)
    requires Distinct(a) && Distinct(b) && forall x :: x in a <==> x in b
    ensures multiset(a) == multiset(b)
  {
    forall x ensures multiset(a)[x] == multiset(b)[x] {
      DistinctMultiplicity(a, x);
      DistinctMultiplicity(b, x);
    }
  }

  lemma {:induction false} DistinctMultiplicity<T>(a: seq<T>, x: T)
    requires Distinct(a)
    ensures multiset(a)[x] == if x in a then 1 else 0
  {
    if a != [] {
      var k := |a| - 1;
      DistinctMultiplicity(a[..k], x);
      assert a == a[..k] + [a[k]];
    }
  }

  /** Every node that the wave started has completed, once. */
  ghost predicate WaveFull(wave: Wave) {
    Distinct(wave.started) && multiset(Ids(wave.finished)) == multiset(wave.started)
  }

  /**
   The trace is `WorkflowStarted`, then wave after wave (all starts, then completions), then the
   terminal event if there is one. All waves but the last are full; the last is too unless the run
   is still going or a node erred.
   */
  lemma TraceGrammar(w: Workflow, s: State)
    requires Reachable(w, s)
    ensures s.events == [WorkflowStarted] + Render(w.digest, s.waves) + FinalEvents(s.status)
    ensures forall k: nat | k < |s.waves| :: s.waves[k].started != []
    ensures forall k: nat | k + 1 < |s.waves| :: WaveFull(s.waves[k])
    ensures s.status.Completed? || s.status.Unreached? ==> forall k: nat | k < |s.waves| :: WaveFull(s.waves[k])
    ensures forall k: nat | k < |s.waves| :: multiset(Ids(s.waves[k].finished)) <= multiset(s.waves[k].started)
  {
    RanksReachable(w, s);
    TraceReachable(w, s);
    forall k: nat | k < |s.waves|
      ensures s.waves[k].started != []
      ensures multiset(Ids(s.waves[k].finished)) <= multiset(s.waves[k].started)
      ensures k + 1 < |s.waves| || s.status.Completed? || s.status.Unreached? ==> WaveFull(s.waves[k])
    {
      assert WaveLogged(s, k);
      WaveContents(s, k);
    }
  }

  lemma RanksReachable(w: Workflow, s: State)
    requires Reachable(w, s)
    ensures RanksFit(s) && (s.status.Completed? || s.status.Unreached? ==> s.inflight == map[])
  {
    CoreReachable(w, s);
  }

  lemma WaveContents(s: State, k: nat)
    requires RanksFit(s) && k < |s.waves| && WaveLogged(s, k)
    ensures multiset(Ids(s.waves[k].finished)) <= multiset(s.waves[k].started)
    ensures k + 1 < |s.waves| || s.inflight == map[] ==> WaveFull(s.waves[k])
  {
    var started, done := s.waves[k].started, Ids(s.waves[k].finished);
    forall x ensures multiset(done)[x] <= multiset(started)[x] {
      DistinctMultiplicity(done, x);
      DistinctMultiplicity(started, x);
    }
    if k + 1 < |s.waves| || s.inflight == map[] {
      forall n ensures n in started <==> n in done {
        assert n in s.rank <==> Started(s, n);
      }
      DistinctSameMultiset(done, started);
    }
  }

  // ----- terminal events

  lemma {:induction false} RenderKinds(digest: Value -> string, waves: seq<Wave>)
    ensures forall e | e in Render(digest, waves) :: e.NodeStarted? || e.NodeCompleted?
  {
    if waves != [] {
      RenderKinds(digest, waves[..|waves| - 1]);
    }
  }

  /**
   `WorkflowStarted` is the first event and no other; `WorkflowCompleted` is the last event exactly
   when the run returned its hash, `WorkflowFailed` exactly when a node erred, and neither occurs
   anywhere else: a run that did not reach all nodes ends without a terminal event.
   */
  lemma TerminalEvents(w: Workflow, s: State, i: nat)
    requires Reachable(w, s) && i < |s.events|
    ensures s.events[i].WorkflowStarted? <==> i == 0
    ensures s.events[i].WorkflowCompleted? <==> s.status.Completed? && i == |s.events| - 1
    ensures s.events[i].WorkflowFailed? <==> s.status.NodeFailed? && i == |s.events| - 1
    ensures s.status.Completed? ==> s.events[|s.events| - 1] == WorkflowCompleted(s.status.hash)
    ensures s.status.NodeFailed? ==> s.events[|s.events| - 1] == WorkflowFailed(s.status.error)
  {
    TraceReachable(w, s);
    RenderKinds(w.digest, s.waves);
    var body := Render(w.digest, s.waves);
    assert s.events == [WorkflowStarted] + body + FinalEvents(s.status);
    if 0 < i <= |body| {
      assert s.events[i] == body[i - 1] && body[i - 1] in body;
    }
  }

  // ----- starts and completions never overlap across waves

  ghost predicate Numbered(waves: seq<Wave>, rank: map<NodeId, nat>) {
    (forall k, n | 0 <= k < |waves| && n in waves[k].started :: n in rank && rank[n] == k) &&
    (forall k, n | 0 <= k < |waves| && n in Ids(waves[k].finished) :: n in rank && rank[n] == k)
  }

  lemma WavesNumbered(s: State)
    requires WavesLogged(s)
    ensures Numbered(s.waves, s.rank)
  {
    forall k, n | 0 <= k < |s.waves| && (n in s.waves[k].started || n in Ids(s.waves[k].finished))
      ensures n in s.rank && s.rank[n] == k
    {
      assert WaveLogged(s, k);
    }
  }

  lemma NumberedPrefix(waves: seq<Wave>, rank: map<NodeId, nat>, k: nat)
    requires Numbered(waves, rank) && k <= |waves|
    ensures Numbered(waves[..k], rank)
  {
  }

  lemma LastWaveEvents(digest: Value -> string, wave: Wave, i: nat)
    requires i < |RenderWave(digest, wave)|
    ensures var e := RenderWave(digest, wave)[i];
            if i < |wave.started| then e.NodeStarted? && e.id in wave.started
            else e.NodeCompleted? && e.id in Ids(wave.finished)
  {
    if i >= |wave.started| {
      assert Ids(wave.finished)[i - |wave.started|] in Ids(wave.finished);
    }
  }

  lemma {:induction false} RenderRanks(digest: Value -> string, waves: seq<Wave>, rank: map<NodeId, nat>, i: nat)
    requires Numbered(waves, rank) && i < |Render(digest, waves)|
    ensures var e := Render(digest, waves)[i];
            (e.NodeStarted? || e.NodeCompleted?) && e.id in rank && rank[e.id] < |waves|
  {
    var init := waves[..|waves| - 1];
    var split := |Render(digest, init)|;
    if i < split {
      NumberedPrefix(waves, rank, |waves| - 1);
      RenderRanks(digest, init, rank, i);
    } else {
      LastWaveEvents(digest, waves[|waves| - 1], i - split);
    }
  }

  lemma {:induction false} RenderOrder(digest: Value -> string, waves: seq<Wave>, rank: map<NodeId, nat>, i: nat, j: nat)
    requires Numbered(waves, rank) && i < |Render(digest, waves)| && j < |Render(digest, waves)|
    requires Render(digest, waves)[i].NodeCompleted? && Render(digest, waves)[j].NodeStarted?
    ensures var a, b := Render(digest, waves)[i].id, Render(digest, waves)[j].id;
            a in rank && b in rank && (i < j <==> rank[a] < rank[b])
  {
    var k := |waves| - 1;
    var split := |Render(digest, waves[..k])|;
    RenderPlace(digest, waves, rank, i);
    RenderPlace(digest, waves, rank, j);
    if i < split && j < split {
      NumberedPrefix(waves, rank, k);
      RenderOrder(digest, waves[..k], rank, i, j);
    }
  }

  /** Where an event of the trace stands relative to the last wave, and what that says of its rank. */
  lemma RenderPlace(digest: Value -> string, waves: seq<Wave>, rank: map<NodeId, nat>, i: nat)
    requires Numbered(waves, rank) && i < |Render(digest, waves)|
    ensures var k, e := |waves| - 1, Render(digest, waves)[i];
            var split := |Render(digest, waves[..k])|;
            (e.NodeStarted? || e.NodeCompleted?) && e.id in rank &&
            (if i < split then rank[e.id] < k && e == Render(digest, waves[..k])[i] else rank[e.id] == k) &&
            (i >= split ==> (e.NodeStarted? <==> i < split + |waves[k].started|))
  {
    var k := |waves| - 1;
    var split := |Render(digest, waves[..k])|;
    if i < split {
      NumberedPrefix(waves, rank, k);
      RenderRanks(digest, waves[..k], rank, i);
    } else {
      LastWaveEvents(digest, waves[k], i - split);
    }
  }

  /** A completion comes before a start exactly when it belongs to an earlier wave. */
  lemma CompletionsBeforeLaterStarts(w: Workflow, s: State, i: nat, j: nat)
    requires Reachable(w, s) && i < |s.events| && j < |s.events|
    requires s.events[i].NodeCompleted? && s.events[j].NodeStarted?
    ensures s.events[i].id in s.rank && s.events[j].id in s.rank
    ensures i < j <==> s.rank[s.events[i].id] < s.rank[s.events[j].id]
  {
    TraceReachable(w, s);
    NodeEventPlace(w, s, i);
    NodeEventPlace(w, s, j);
    WavesNumbered(s);
    RenderOrder(w.digest, s.waves, s.rank, i - 1, j - 1);
  }

  lemma NodeEventPlace(w: Workflow, s: State, i: nat)
    requires EventsRendered(w, s) && i < |s.events| && (s.events[i].NodeStarted? || s.events[i].NodeCompleted?)
    ensures 0 < i <= |Render(w.digest, s.waves)| && s.events[i] == Render(w.digest, s.waves)[i - 1]
  {
  }

  // ----- the topological order is the concatenation of the waves

  ghost function Block(order: seq<NodeId>, rank: map<NodeId, nat>, k: nat): seq<NodeId> {
    if order == [] then []
    else
      var x := order[|order| - 1];
      Block(order[..|order| - 1], rank, k) + if x in rank && rank[x] == k then [x] else []
  }

  ghost function Blocks(order: seq<NodeId>, rank: map<NodeId, nat>, c: nat): seq<NodeId> {
    if c == 0 then [] else Blocks(order, rank, c - 1) + Block(order, rank, c - 1)
  }

  lemma {:induction false} BlockElems(order: seq<NodeId>, rank: map<NodeId, nat>, k: nat)
    ensures forall x :: x in Block(order, rank, k) <==> x in order && x in rank && rank[x] == k
  {
    if order != [] {
      var i := |order| - 1;
      BlockElems(order[..i], rank, k);
      assert order == order[..i] + [order[i]];
    }
  }

  lemma {:induction false} BlockAbove(order: seq<NodeId>, rank: map<NodeId, nat>, k: nat)
    requires forall y | y in order :: y in rank && rank[y] < k
    ensures Block(order, rank, k) == []
  {
    if order != [] {
      BlockAbove(order[..|order| - 1], rank, k);
    }
  }

  lemma {:induction false} BlocksSnoc(order: seq<NodeId>, x: NodeId, rank: map<NodeId, nat>, c: nat)
    requires x in rank && forall y | y in order :: y in rank && rank[y] <= rank[x]
    ensures Blocks(order + [x], rank, c) == Blocks(order, rank, c) + if rank[x] < c then [x] else []
  {
    if c > 0 {
      assert (order + [x])[..|order|] == order;
      BlocksSnoc(order, x, rank, c - 1);
      if rank[x] < c - 1 {
        BlockAbove(order, rank, c - 1);
      }
    }
  }

  lemma {:induction false} BlocksOfSorted(order: seq<NodeId>, rank: map<NodeId, nat>, c: nat)
    requires forall n | n in order :: n in rank && rank[n] < c
    requires TopoSort.NonDecreasing(rank, order)
    ensures Blocks(order, rank, c) == order
  {
    if order == [] {
      EmptyBlocks(rank, c);
    } else {
      var i := |order| - 1;
      BlocksOfSorted(order[..i], rank, c);
      assert order == order[..i] + [order[i]];
      BlocksSnoc(order[..i], order[i], rank, c);
    }
  }

  lemma {:induction false} EmptyBlocks(rank: map<NodeId, nat>, c: nat)
    ensures Blocks([], rank, c) == []
  {
    if c > 0 { EmptyBlocks(rank, c - 1); }
  }

  /** A layering of all nodes can only be the wave numbers of the run. */
  lemma LayeringIsWaves(w: Workflow, s: State, rank: map<NodeId, nat>)
    requires Core(w, s) && s.outputs.Keys == w.g.nodes
    requires Layering(w.g, rank) && rank.Keys == w.g.nodes
    ensures rank == s.rank
  {
    forall n | n in w.g.nodes ensures n in s.rank && s.rank[n] == rank[n] {
      assert Started(s, n);
      LayeringIsLevel(w.g, s.rank, n);
      LayeringIsLevel(w.g, rank, n);
      LevelUnique(w.g, n, s.rank[n], rank[n]);
    }
    forall n | n in s.rank ensures n in w.g.nodes {
      assert Started(s, n);
    }
  }

  /**
   In a successful run, what the topological sort outputs is wave 0, then wave 1, and so on: block
   `k` of the order holds exactly the nodes that the scheduler starts in wave `k`.
   */
  lemma TopoOrderIsWaves(w: Workflow, s: State, order: seq<NodeId>, rank: map<NodeId, nat>)
    requires Reachable(w, s) && s.status.Completed?
    requires Layering(w.g, rank) && rank.Keys == Elems(order) == w.g.nodes && TopoSort.NonDecreasing(rank, order)
    ensures rank == s.rank && order == Blocks(order, rank, |s.waves|)
    ensures forall k: nat | k < |s.waves| :: Elems(Block(order, rank, k)) == Elems(s.waves[k].started)
  {
    CoreReachable(w, s);
    TraceReachable(w, s);
    AllNodesDone(w, s);
    LayeringIsWaves(w, s, rank);
    BlocksAreWaves(s, order, rank, w.g.nodes);
  }

  /** After a successful run, sorting the graph succeeds and lists that run's waves one after the other. */
  method SortedAsRun(g: Graph, ghost w: Workflow, ghost s: State) returns (r: Result<seq<NodeId>>)
    requires w.g == g && TargetsKnown(g) && Reachable(w, s) && s.status.Completed?
    ensures r.Ok? && r.value == Blocks(r.value, s.rank, |s.waves|)
    ensures forall k: nat | k < |s.waves| :: Elems(Block(r.value, s.rank, k)) == Elems(s.waves[k].started)
  {
    ghost var order, rank;
    r, order, rank := TopoSort.Sort(g);
    SuccessIff(w, s);
    TopoOrderIsWaves(w, s, order, rank);
  }

  lemma BlocksAreWaves(s: State, order: seq<NodeId>, rank: map<NodeId, nat>, nodes: set<NodeId>)
    requires WavesLogged(s) && RanksFit(s) && rank.Keys == Elems(order) == nodes
    requires forall n | n in nodes :: n in s.rank && s.rank[n] == rank[n]
    requires forall n | n in s.rank :: n in nodes
    requires TopoSort.NonDecreasing(rank, order)
    ensures order == Blocks(order, rank, |s.waves|)
    ensures forall k: nat | k < |s.waves| :: Elems(Block(order, rank, k)) == Elems(s.waves[k].started)
  {
    assert forall n | n in order :: n in Elems(order);
    BlocksOfSorted(order, rank, |s.waves|);
    forall k: nat | k < |s.waves| ensures Elems(Block(order, rank, k)) == Elems(s.waves[k].started) {
      assert WaveLogged(s, k);
      BlockElems(order, rank, k);
      forall x ensures x in Block(order, rank, k) <==> x in s.waves[k].started {
        assert x in rank ==> x in Elems(order);
      }
    }
  }
}
