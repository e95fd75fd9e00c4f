/**
 Finite directed graphs given by an edge list (parallel edges and self-loops allowed): paths,
 cycles, longest-path levels, and the counting of incoming edges.
 */
module Graphs {
  import opened KeyOrder
  import opened Pointer

  type NodeId = string

  datatype Edge = Edge(from: NodeId, to: NodeId, condition: EdgeCondition)

  datatype Graph = Graph(nodes: set<NodeId>, edges: seq<Edge>)

  predicate SourcesKnown(g: Graph) {
    forall e | e in g.edges :: e.from in g.nodes
  }

  predicate TargetsKnown(g: Graph) {
    forall e | e in g.edges :: e.to in g.nodes
  }

  predicate ValidRefs(g: Graph) {
    SourcesKnown(g) && TargetsKnown(g)
  }

  function Preds(g: Graph, n: NodeId): set<NodeId> {
    set e | e in g.edges && e.to == n :: e.from
  }

  // ----- paths, cycles and levels

  ghost predicate IsPath(g: Graph, p: seq<NodeId>) {
    |p| > 0 && forall i | 0 < i < |p| :: p[i - 1] in Preds(g, p[i])
  }

  ghost predicate PathTo(g: Graph, p: seq<NodeId>, n: NodeId) {
    IsPath(g, p) && p[|p| - 1] == n
  }

  ghost predicate IsCycle(g: Graph, p: seq<NodeId>) {
    |p| >= 2 && PathTo(g, p, p[0])
  }

  ghost predicate Acyclic(g: Graph) {
    !exists p :: IsCycle(g, p)
  }

  /** The longest path ending in `n` has exactly `k` edges. */
  ghost predicate Level(g: Graph, n: NodeId, k: nat) {
    (exists p :: PathTo(g, p, n) && |p| == k + 1) &&
    forall p | PathTo(g, p, n) :: |p| <= k + 1
  }

  lemma LevelUnique(g: Graph, n: NodeId, j: nat, k: nat)
    requires Level(g, n, j) && Level(g, n, k)
    ensures j == k
  {
    var p :| PathTo(g, p, n) && |p| == j + 1;
    var q :| PathTo(g, q, n) && |q| == k + 1;
  }

  /**
   A ranking of a predecessor-closed set of nodes in which every edge climbs and every node of
   positive rank has a predecessor exactly one rank below.
   */
  ghost predicate Layering(g: Graph, rank: map<NodeId, nat>) {
    (forall e | e in g.edges && e.to in rank :: e.from in rank && rank[e.from] < rank[e.to]) &&
    (forall n | n in rank && rank[n] > 0 :: HasPredAt(g, n, rank, rank[n] - 1))
  }

  ghost predicate HasPredAt(g: Graph, n: NodeId, rank: map<NodeId, nat>, k: nat) {
    exists e :: e in g.edges && e.to == n && e.from in rank && rank[e.from] == k
  }

  lemma {:induction false} PathClimbs(g: Graph, rank: map<NodeId, nat>, p: seq<NodeId>)
    requires Layering(g, rank) && IsPath(g, p) && p[|p| - 1] in rank
    ensures p[0] in rank && rank[p[0]] + |p| - 1 <= rank[p[|p| - 1]]
  {
    if |p| > 1 {
      var q := p[..|p| - 1];
      assert p[|p| - 2] in Preds(g, p[|p| - 1]);
      assert IsPath(g, q);
      PathClimbs(g, rank, q);
    }
  }

  lemma {:induction false} DescendingPath(g: Graph, rank: map<NodeId, nat>, n: NodeId) returns (p: seq<NodeId>)
    requires Layering(g, rank) && n in rank
    ensures PathTo(g, p, n) && |p| == rank[n] + 1
    decreases rank[n]
  {
    if rank[n] == 0 {
      p := [n];
    } else {
      assert HasPredAt(g, n, rank, rank[n] - 1);
      var e :| e in g.edges && e.to == n && e.from in rank && rank[e.from] == rank[n] - 1;
      var q := DescendingPath(g, rank, e.from);
      p := q + [n];
      assert e.from in Preds(g, n);
      forall i | 0 < i < |p| ensures p[i - 1] in Preds(g, p[i]) {
        if i < |q| { assert p[i - 1] == q[i - 1] && p[i] == q[i]; }
      }
    }
  }

  /** A layering assigns to each of its nodes the length of the longest path ending there. */
  lemma LayeringIsLevel(g: Graph, rank: map<NodeId, nat>, n: NodeId)
    requires Layering(g, rank) && n in rank
    ensures Level(g, n, rank[n])
  {
    var p := DescendingPath(g, rank, n);
    forall q | PathTo(g, q, n) ensures |q| <= rank[n] + 1 {
      PathClimbs(g, rank, q);
    }
  }

  lemma LayeringAcyclic(g: Graph, rank: map<NodeId, nat>)
    requires Layering(g, rank) && forall e | e in g.edges :: e.to in rank
    ensures Acyclic(g)
  {
    forall p | IsCycle(g, p) ensures false {
      assert p[0] in Preds(g, p[1]);
      var k := |p| - 1;
      assert p[k - 1] in Preds(g, p[k]);
      PathClimbs(g, rank, p);
    }
  }

  ghost function Extend(rank: map<NodeId, nat>, added: seq<NodeId>, c: nat): map<NodeId, nat> {
    rank + map m | m in added :: c
  }

  /** Adding a layer on top of a layering. */
  lemma LayeringExtends(g: Graph, rank: map<NodeId, nat>, added: seq<NodeId>, c: nat)
    requires Layering(g, rank)
    requires forall m | m in added :: m !in rank && (c > 0 ==> HasPredAt(g, m, rank, c - 1))
    requires forall m, p | m in added && p in Preds(g, m) :: p in rank && rank[p] < c
    ensures Layering(g, Extend(rank, added, c))
  {
    var rank' := Extend(rank, added, c);
    forall e | e in g.edges && e.to in rank' ensures e.from in rank' && rank'[e.from] < rank'[e.to] {
      if e.to !in rank {
        assert e.to in added && e.from in Preds(g, e.to);
      }
    }
    forall m | m in rank' && rank'[m] > 0 ensures HasPredAt(g, m, rank', rank'[m] - 1) {
      assert HasPredAt(g, m, rank, rank'[m] - 1);
      var e :| e in g.edges && e.to == m && e.from in rank && rank[e.from] == rank'[m] - 1;
      assert e.from in rank' && rank'[e.from] == rank'[m] - 1;
    }
  }

  // ----- a set of nodes that each have a predecessor in the set contains a cycle

  lemma {:induction false} Pigeonhole<T>(s: set<T>, p: seq<T>)
    requires |p| > |s| && forall x | x in p :: x in s
    ensures !Distinct(p)
  {
    var k := |p| - 1;
    var q, x := p[..k], p[k];
    if x in q {
      var i :| 0 <= i < k && q[i] == x;
      assert p[i] == p[k];
    } else {
      assert forall y | y in q :: y in s - {x};
      Pigeonhole(s - {x}, q);
      var i, j :| 0 <= i < j < k && q[i] == q[j];
      assert p[i] == p[j];
    }
  }

  ghost predicate HasPredIn(g: Graph, n: NodeId, s: set<NodeId>) {
    exists p :: p in Preds(g, n) && p in s
  }

  lemma {:induction false} BackwardPath(g: Graph, s: set<NodeId>, len: nat) returns (p: seq<NodeId>)
    requires len > 0 && s != {}
    requires forall n | n in s :: HasPredIn(g, n, s)
    ensures |p| == len && IsPath(g, p) && forall x | x in p :: x in s
  {
    if len == 1 {
      var n :| n in s;
      p := [n];
    } else {
      var q := BackwardPath(g, s, len - 1);
      assert HasPredIn(g, q[0], s);
      var m :| m in Preds(g, q[0]) && m in s;
      p := [m] + q;
      forall i | 0 < i < |p| ensures p[i - 1] in Preds(g, p[i]) {
        if i > 1 { assert p[i - 1] == q[i - 2] && p[i] == q[i - 1]; }
      }
    }
  }

  lemma CycleInSourceless(g: Graph, s: set<NodeId>)
    requires s != {} && forall n | n in s :: HasPredIn(g, n, s)
    ensures !Acyclic(g)
  {
    var p := BackwardPath(g, s, |s| + 1);
    Pigeonhole(s, p);
    var i, j :| 0 <= i < j < |p| && p[i] == p[j];
    var c := p[i..j + 1];
    forall k | 0 < k < |c| ensures c[k - 1] in Preds(g, c[k]) {
      assert c[k - 1] == p[i + k - 1] && c[k] == p[i + k];
    }
    assert IsCycle(g, c);
  }

  // ----- counting incoming edges

  /** How many of `edges` lead to `m` and belong to `d`, parallel edges counted separately. */
  ghost function Count(edges: seq<Edge>, m: NodeId, d: set<Edge>): nat {
    if edges == [] then 0
    else
      var k := |edges| - 1;
      Count(edges[..k], m, d) + if edges[k].to == m && edges[k] in d then 1 else 0
  }

  /** The positions that `Count` counts. */
  ghost function Positions(edges: seq<Edge>, m: NodeId, d: set<Edge>): set<int> {
    set i | 0 <= i < |edges| && edges[i].to == m && edges[i] in d
  }

  lemma {:induction false} CountIsPositions(edges: seq<Edge>, m: NodeId, d: set<Edge>)
    ensures Count(edges, m, d) == |Positions(edges, m, d)|
  {
    if edges == [] {
      assert Positions(edges, m, d) == {};
    } else {
      var k := |edges| - 1;
      CountIsPositions(edges[..k], m, d);
      var here := if edges[k].to == m && edges[k] in d then {k} else {};
      assert Positions(edges, m, d) == Positions(edges[..k], m, d) + here;
    }
  }

  lemma {:induction false} CountZero(edges: seq<Edge>, m: NodeId, d: set<Edge>)
    ensures Count(edges, m, d) == 0 <==> forall e | e in edges && e.to == m :: e !in d
  {
    if edges != [] {
      var k := |edges| - 1;
      CountZero(edges[..k], m, d);
      assert edges == edges[..k] + [edges[k]];
    }
  }

  lemma {:induction false} CountSplit(edges: seq<Edge>, m: NodeId, p: set<Edge>, d: set<Edge>)
    requires d <= p
    ensures Count(edges, m, p) == Count(edges, m, p - d) + Count(edges, m, d)
  {
    if edges != [] {
      CountSplit(edges[..|edges| - 1], m, p, d);
    }
  }

  lemma {:induction false} CountPrefix(edges: seq<Edge>, i: nat, m: NodeId, d: set<Edge>)
    requires i <= |edges|
    ensures Count(edges[..i], m, d) <= Count(edges, m, d)
    ensures i < |edges| ==>
              Count(edges[..i + 1], m, d) ==
              Count(edges[..i], m, d) + if edges[i].to == m && edges[i] in d then 1 else 0
    ensures i < |edges| && edges[i].to == m && edges[i] in d ==>
              Count(edges[..i], m, d) < Count(edges, m, d)
    decreases |edges| - i
  {
    if i < |edges| {
      assert edges[..i + 1][..i] == edges[..i];
      CountPrefix(edges, i + 1, m, d);
    } else {
      assert edges[..i] == edges;
    }
  }

  /** The in-degree table over `keys`, before anything has run. */
  method InDegrees(keys: set<NodeId>, edges: seq<Edge>) returns (indeg: map<NodeId, nat>)
    requires forall e | e in edges :: e.to in keys
    ensures indeg.Keys == keys
    ensures forall m | m in keys :: indeg[m] == Count(edges, m, Elems(edges))
  {
    indeg := map k | k in keys :: 0;
    for i := 0 to |edges|
      invariant indeg.Keys == keys
      invariant forall m | m in keys :: indeg[m] == Count(edges[..i], m, Elems(edges))
    {
      forall m | m in keys
        ensures Count(edges[..i + 1], m, Elems(edges)) ==
                Count(edges[..i], m, Elems(edges)) + if edges[i].to == m then 1 else 0
      {
        CountPrefix(edges, i, m, Elems(edges));
      }
      indeg := indeg[edges[i].to := indeg[edges[i].to] + 1];
    }
    assert edges[..|edges|] == edges;
  }

  ghost function Fired(edges: seq<Edge>, fires: Edge -> bool): set<Edge> {
    set e | e in edges && fires(e)
  }

  /** Which targets reach zero when the edges `d` are taken off the counters. */
  ghost predicate Unlocks(edges: seq<Edge>, d: set<Edge>, indeg: map<NodeId, nat>, m: NodeId) {
    m in indeg && Count(edges, m, d) > 0 && indeg[m] == Count(edges, m, d)
  }

  /** The position of the last edge of `d` into `m`, or -1. */
  ghost function LastFiring(edges: seq<Edge>, d: set<Edge>, m: NodeId): int {
    if edges == [] then -1
    else
      var k := |edges| - 1;
      if edges[k].to == m && edges[k] in d then k else LastFiring(edges[..k], d, m)
  }

  lemma {:induction false} LastFiringAt(edges: seq<Edge>, d: set<Edge>, m: NodeId, p: nat)
    ensures -1 <= LastFiring(edges, d, m) < |edges|
    ensures p < |edges| && edges[p].to == m && edges[p] in d ==> p <= LastFiring(edges, d, m)
    ensures LastFiring(edges, d, m) == p ==> p < |edges| && edges[p].to == m && edges[p] in d
  {
    if edges != [] {
      LastFiringAt(edges[..|edges| - 1], d, m, p);
    }
  }

  /** Targets are queued in the order in which their last edge fires. */
  ghost predicate InFiringOrder(edges: seq<Edge>, d: set<Edge>, added: seq<NodeId>) {
    forall i, j | 0 <= i < j < |added| :: LastFiring(edges, d, added[i]) < LastFiring(edges, d, added[j])
  }

  lemma FiringOrderNext(edges: seq<Edge>, i: nat, d: set<Edge>, added: seq<NodeId>)
    requires i < |edges| && InFiringOrder(edges[..i], d, added)
    requires edges[i] in d ==> edges[i].to !in added
    ensures InFiringOrder(edges[..i + 1], d, added)
    ensures edges[i] in d ==> InFiringOrder(edges[..i + 1], d, added + [edges[i].to])
  {
    var next := edges[..i + 1];
    assert next[..i] == edges[..i];
    forall m | m in added ensures LastFiring(next, d, m) == LastFiring(edges[..i], d, m) < i {
      LastFiringAt(edges[..i], d, m, 0);
    }
  }

  /** One more edge unlocks its target exactly if it takes the last unit off the counter. */
  lemma UnlocksNext(edges: seq<Edge>, i: nat, d: set<Edge>, indeg: map<NodeId, nat>, m: NodeId)
    requires i < |edges| && (m in indeg ==> Count(edges, m, d) <= indeg[m])
    ensures edges[i].to == m && edges[i] in d && m in indeg ==>
              !Unlocks(edges[..i], d, indeg, m) &&
              (Unlocks(edges[..i + 1], d, indeg, m) <==> indeg[m] - Count(edges[..i], m, d) == 1)
    ensures !(edges[i].to == m && edges[i] in d) ==>
              (Unlocks(edges[..i + 1], d, indeg, m) <==> Unlocks(edges[..i], d, indeg, m))
  {
    CountPrefix(edges, i, m, d);
    CountPrefix(edges, i + 1, m, d);
  }

  /** Where the loop below stands after `i` edges. */
  ghost predicate FiredUpTo(edges: seq<Edge>, i: nat, d: set<Edge>, indeg0: map<NodeId, nat>,
                            indeg: map<NodeId, nat>, added: seq<NodeId>)
    requires i <= |edges|
  {
    indeg.Keys == indeg0.Keys && (forall m | m in indeg :: indeg[m] == indeg0[m] - Count(edges[..i], m, d)) &&
    Distinct(added) && (forall m :: m in added <==> Unlocks(edges[..i], d, indeg0, m)) &&
    InFiringOrder(edges[..i], d, added)
  }

  lemma SkipStep(edges: seq<Edge>, i: nat, d: set<Edge>, indeg0: map<NodeId, nat>,
                 indeg: map<NodeId, nat>, added: seq<NodeId>)
    requires i < |edges| && edges[i] !in d && FiredUpTo(edges, i, d, indeg0, indeg, added)
    requires forall m | m in indeg0 :: Count(edges, m, d) <= indeg0[m]
    ensures FiredUpTo(edges, i + 1, d, indeg0, indeg, added)
  {
    forall m ensures Count(edges[..i + 1], m, d) == Count(edges[..i], m, d) {
      CountPrefix(edges, i, m, d);
    }
    forall m ensures Unlocks(edges[..i + 1], d, indeg0, m) <==> Unlocks(edges[..i], d, indeg0, m) {
      UnlocksNext(edges, i, d, indeg0, m);
    }
    FiringOrderNext(edges, i, d, added);
  }

  lemma FireStep(edges: seq<Edge>, i: nat, d: set<Edge>, indeg0: map<NodeId, nat>,
                 indeg: map<NodeId, nat>, added: seq<NodeId>)
    requires i < |edges| && edges[i] in d && edges[i].to in indeg0 && FiredUpTo(edges, i, d, indeg0, indeg, added)
    requires forall m | m in indeg0 :: Count(edges, m, d) <= indeg0[m]
    ensures indeg[edges[i].to] > 0
    ensures var to := edges[i].to;
            var left := indeg[to] - 1;
            FiredUpTo(edges, i + 1, d, indeg0, indeg[to := left], if left == 0 then added + [to] else added)
  {
    var to := edges[i].to;
    CountPrefix(edges, i, to, d);
    UnlocksNext(edges, i, d, indeg0, to);
    forall m ensures Count(edges[..i + 1], m, d) == Count(edges[..i], m, d) + if m == to then 1 else 0 {
      CountPrefix(edges, i, m, d);
    }
    forall m | m != to ensures Unlocks(edges[..i + 1], d, indeg0, m) <==> Unlocks(edges[..i], d, indeg0, m) {
      UnlocksNext(edges, i, d, indeg0, m);
    }
    FiringOrderNext(edges, i, d, added);
  }

  /**
   The loop that both Kahn's algorithm and the scheduler run over the edges leaving a node: each
   edge that fires takes one off its target's counter, and a target whose counter reaches zero is
   queued. The counters being large enough is what keeps `*d -= 1` from underflowing.
   */
  method FireEdges(edges: seq<Edge>, fires: Edge -> bool, indeg0: map<NodeId, nat>, queue0: seq<NodeId>)
    returns (indeg: map<NodeId, nat>, queue: seq<NodeId>, ghost added: seq<NodeId>)
    requires forall e | e in edges && fires(e) :: e.to in indeg0
    requires forall m | m in indeg0 :: Count(edges, m, Fired(edges, fires)) <= indeg0[m]
    ensures indeg.Keys == indeg0.Keys
    ensures forall m | m in indeg :: indeg[m] == indeg0[m] - Count(edges, m, Fired(edges, fires))
    ensures queue == queue0 + added && Distinct(added)
    ensures forall m :: m in added <==> Unlocks(edges, Fired(edges, fires), indeg0, m)
    ensures InFiringOrder(edges, Fired(edges, fires), added)
  {
    ghost var d := Fired(edges, fires);
    indeg, queue, added := indeg0, queue0, [];
    for i := 0 to |edges|
      invariant queue == queue0 + added && FiredUpTo(edges, i, d, indeg0, indeg, added)
    {
      var e := edges[i];
      assert fires(e) <==> e in d;
      if fires(e) {
        FireStep(edges, i, d, indeg0, indeg, added);
        indeg := indeg[e.to := indeg[e.to] - 1];
        if indeg[e.to] == 0 {
          queue := queue + [e.to];
          added := added + [e.to];
        }
      } else {
        SkipStep(edges, i, d, indeg0, indeg, added);
      }
    }
    assert edges[..|edges|] == edges;
  }
}
