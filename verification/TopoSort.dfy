/** Kahn's algorithm. */
module TopoSort {
  import opened KeyOrder
  import opened Graphs
  import opened Errors

  /** The keys of the in-degree table: the nodes, and every edge target even when it is unknown. */
  function Vertices(g: Graph): set<NodeId> {
    g.nodes + set e | e in g.edges :: e.to
  }

  ghost function PendingAfter(g: Graph, done: set<NodeId>): set<Edge> {
    set e | e in g.edges && e.from !in done
  }

  /** Each vertex occurs once, after all of its predecessors. */
  ghost predicate PredsFirst(g: Graph, order: seq<NodeId>) {
    Distinct(order) && (forall n | n in order :: n in Vertices(g)) &&
    forall i, p | 0 <= i < |order| && p in Preds(g, order[i]) :: Before(order, i, p)
  }

  ghost predicate Before(s: seq<NodeId>, i: int, p: NodeId) {
    exists j :: 0 <= j < i && j < |s| && s[j] == p
  }

  /** No further vertex has all of its predecessors in `order`. */
  ghost predicate Exhausted(g: Graph, order: seq<NodeId>) {
    forall n | n in Vertices(g) && Eligible(g, n, order) :: n in order
  }

  ghost predicate Eligible(g: Graph, n: NodeId, order: seq<NodeId>) {
    forall p | p in Preds(g, n) :: p in order
  }

  ghost predicate NonDecreasing(rank: map<NodeId, nat>, s: seq<NodeId>)
    requires forall n | n in s :: n in rank
  {
    forall i, j | 0 <= i < j < |s| :: rank[s[i]] <= rank[s[j]]
  }

  /**
   The loop state: `all[..k]` has been output, `all[k..]` is the queue, and `rank` records at
   which distance from the sources each of them was queued.
   */
  ghost predicate KahnCounts(g: Graph, all: seq<NodeId>, k: nat, indeg: map<NodeId, nat>) {
    k <= |all| && indeg.Keys == Vertices(g) && Distinct(all) &&
    (forall m | m in indeg :: indeg[m] == Count(g.edges, m, PendingAfter(g, Elems(all[..k])))) &&
    (forall m | m in indeg :: indeg[m] == 0 <==> m in all) &&
    (forall n | n in all :: n in Vertices(g))
  }

  ghost predicate KahnRanks(g: Graph, all: seq<NodeId>, k: nat, rank: map<NodeId, nat>) {
    k <= |all| && rank.Keys == Elems(all) && Layering(g, rank) && NonDecreasing(rank, all) &&
    (k < |all| ==> forall n | n in all :: rank[n] <= rank[all[k]] + 1)
  }

  ghost predicate KahnPreds(g: Graph, all: seq<NodeId>, k: nat) {
    forall i, p | 0 <= i < |all| && p in Preds(g, all[i]) :: Before(all, i, p) && Before(all, k, p)
  }

  lemma KahnInit(g: Graph, all: seq<NodeId>, indeg: map<NodeId, nat>)
    requires indeg.Keys == Vertices(g)
    requires forall m | m in indeg :: indeg[m] == Count(g.edges, m, Elems(g.edges))
    requires Ascending(all) && Elems(all) == set m | m in indeg && indeg[m] == 0
    ensures KahnCounts(g, all, 0, indeg)
    ensures KahnRanks(g, all, 0, map n | n in all :: 0)
    ensures KahnPreds(g, all, 0)
  {
    assert PendingAfter(g, Elems(all[..0])) == Elems(g.edges);
    AscendingDistinct(all);
    forall m ensures m in all <==> m in indeg && indeg[m] == 0 {
      assert m in all <==> m in Elems(all);
    }
    forall n | n in all ensures Preds(g, n) == {} {
      CountZero(g.edges, n, Elems(g.edges));
    }
    assert forall e | e in g.edges && e.to in all :: e.from in Preds(g, e.to);
  }

  lemma FiredArePending(g: Graph, all: seq<NodeId>, k: nat, indeg: map<NodeId, nat>)
    requires KahnCounts(g, all, k, indeg) && k < |all|
    ensures var d := set e | e in g.edges && e.from == all[k];
            d <= PendingAfter(g, Elems(all[..k])) &&
            PendingAfter(g, Elems(all[..k + 1])) == PendingAfter(g, Elems(all[..k])) - d &&
            forall m | m in indeg :: Count(g.edges, m, d) <= indeg[m]
  {
    var d := set e | e in g.edges && e.from == all[k];
    var p := PendingAfter(g, Elems(all[..k]));
    assert all[..k + 1] == all[..k] + [all[k]];
    assert d <= p;
    forall m | m in indeg ensures Count(g.edges, m, d) <= indeg[m] {
      CountSplit(g.edges, m, p, d);
    }
  }

  lemma KahnCountsStep(g: Graph, all: seq<NodeId>, k: nat, indeg: map<NodeId, nat>, d: set<Edge>,
                       indeg': map<NodeId, nat>, added: seq<NodeId>)
    requires KahnCounts(g, all, k, indeg) && k < |all|
    requires d == set e | e in g.edges && e.from == all[k]
    requires indeg'.Keys == indeg.Keys
    requires forall m | m in indeg :: indeg'[m] == indeg[m] - Count(g.edges, m, d)
    requires Distinct(added) && forall m :: m in added <==> Unlocks(g.edges, d, indeg, m)
    ensures KahnCounts(g, all + added, k + 1, indeg')
  {
    FiredArePending(g, all, k, indeg);
    var p := PendingAfter(g, Elems(all[..k]));
    var all' := all + added;
    assert all'[..k + 1] == all[..k + 1];
    forall n | n in added ensures n !in all && n in Vertices(g) {
      assert Unlocks(g.edges, d, indeg, n);
    }
    DistinctConcat(all, added);
    forall m | m in indeg ensures indeg'[m] == Count(g.edges, m, p - d) {
      CountSplit(g.edges, m, p, d);
    }
    forall m | m in indeg ensures indeg'[m] == 0 <==> m in all' {
      assert m in added <==> Unlocks(g.edges, d, indeg, m);
      assert m in all' <==> m in all || m in added;
    }
  }

  lemma AddedPreds(g: Graph, all: seq<NodeId>, k: nat, indeg: map<NodeId, nat>, m: NodeId)
    requires KahnCounts(g, all, k, indeg) && m in all
    ensures forall p | p in Preds(g, m) :: Before(all, k, p)
  {
    CountZero(g.edges, m, PendingAfter(g, Elems(all[..k])));
    forall p | p in Preds(g, m) ensures Before(all, k, p) {
      assert p in all[..k];
      var j :| 0 <= j < k && all[..k][j] == p;
      assert all[j] == p;
    }
  }

  lemma AddedNodes(g: Graph, all: seq<NodeId>, k: nat, indeg: map<NodeId, nat>, d: set<Edge>,
                   indeg': map<NodeId, nat>, added: seq<NodeId>)
    requires KahnCounts(g, all, k, indeg) && k < |all| && KahnCounts(g, all + added, k + 1, indeg')
    requires d == set e | e in g.edges && e.from == all[k]
    requires forall m | m in added :: Unlocks(g.edges, d, indeg, m)
    ensures forall m | m in added :: m !in all && all[k] in Preds(g, m)
    ensures forall m, p | m in added && p in Preds(g, m) :: Before(all, k + 1, p)
  {
    forall m | m in added
      ensures m !in all && all[k] in Preds(g, m) && forall p | p in Preds(g, m) :: Before(all, k + 1, p)
    {
      assert Unlocks(g.edges, d, indeg, m);
      CountZero(g.edges, m, d);
      AddedPreds(g, all + added, k + 1, indeg', m);
      forall p | p in Preds(g, m) ensures Before(all, k + 1, p) {
        assert Before(all + added, k + 1, p);
      }
    }
  }

  lemma KahnRanksStep(g: Graph, all: seq<NodeId>, k: nat, rank: map<NodeId, nat>, added: seq<NodeId>)
    requires KahnRanks(g, all, k, rank) && k < |all|
    requires forall m | m in added :: m !in all && all[k] in Preds(g, m)
    requires forall m, p | m in added && p in Preds(g, m) :: Before(all, k + 1, p)
    ensures KahnRanks(g, all + added, k + 1, Extend(rank, added, rank[all[k]] + 1))
  {
    KahnLayering(g, all, k, rank, added);
    RanksExtend(all, k, rank, added);
    RanksStayOrdered(all, k, rank, added, Extend(rank, added, rank[all[k]] + 1));
  }

  lemma RanksExtend(all: seq<NodeId>, k: nat, rank: map<NodeId, nat>, added: seq<NodeId>)
    requires k < |all| && rank.Keys == Elems(all) && forall m | m in added :: m !in all
    ensures var rank' := Extend(rank, added, rank[all[k]] + 1);
            rank'.Keys == Elems(all + added) &&
            (forall n | n in all :: n in rank && n in rank' && rank'[n] == rank[n]) &&
            forall m | m in added :: m in rank' && rank'[m] == rank[all[k]] + 1
  {
    assert forall m :: m in all <==> m in rank.Keys;
  }

  lemma KahnLayering(g: Graph, all: seq<NodeId>, k: nat, rank: map<NodeId, nat>, added: seq<NodeId>)
    requires KahnRanks(g, all, k, rank) && k < |all|
    requires forall m | m in added :: m !in all && all[k] in Preds(g, m)
    requires forall m, p | m in added && p in Preds(g, m) :: Before(all, k + 1, p)
    ensures Layering(g, Extend(rank, added, rank[all[k]] + 1))
  {
    var n := all[k];
    forall m, p | m in added && p in Preds(g, m) ensures p in rank && rank[p] <= rank[n] {
      assert Before(all, k + 1, p);
      var i :| 0 <= i < k + 1 && i < |all| && all[i] == p;
      assert p in Elems(all);
    }
    forall m | m in added ensures m !in rank && HasPredAt(g, m, rank, rank[n]) {
      assert m !in Elems(all);
      var e :| e in g.edges && e.to == m && e.from == n;
    }
    LayeringExtends(g, rank, added, rank[n] + 1);
  }

  lemma RanksStayOrdered(all: seq<NodeId>, k: nat, rank: map<NodeId, nat>, added: seq<NodeId>, rank': map<NodeId, nat>)
    requires k < |all| && rank.Keys == Elems(all) && rank'.Keys == Elems(all + added)
    requires forall n | n in all :: n in rank && n in rank' && rank'[n] == rank[n] <= rank[all[k]] + 1
    requires forall m | m in added :: m in rank' && rank'[m] == rank[all[k]] + 1
    requires NonDecreasing(rank, all)
    ensures NonDecreasing(rank', all + added)
    ensures k + 1 < |all + added| ==> forall n | n in all + added :: rank'[n] <= rank'[(all + added)[k + 1]] + 1
  {
    var all' := all + added;
    forall i, j | 0 <= i < j < |all'| ensures rank'[all'[i]] <= rank'[all'[j]] {
      if j < |all| {
        assert rank[all[i]] <= rank[all[j]];
      } else {
        assert all'[j] in added;
        assert all'[i] in all || all'[i] in added;
      }
    }
    if k + 1 < |all'| {
      assert rank'[all'[k]] <= rank'[all'[k + 1]];
    }
  }

  lemma KahnPredsStep(g: Graph, all: seq<NodeId>, k: nat, added: seq<NodeId>)
    requires k < |all| && KahnPreds(g, all, k)
    requires forall m, p | m in added && p in Preds(g, m) :: Before(all, k + 1, p)
    ensures KahnPreds(g, all + added, k + 1)
  {
    var all' := all + added;
    forall i, p | 0 <= i < |all'| && p in Preds(g, all'[i]) ensures Before(all', i, p) && Before(all', k + 1, p) {
      if i < |all| {
        assert all'[i] == all[i];
        assert Before(all, i, p) && Before(all, k, p);
        BeforeExtends(all, added, i, i, p);
        BeforeExtends(all, added, k, k + 1, p);
      } else {
        assert all'[i] in added;
        BeforeExtends(all, added, k + 1, k + 1, p);
        BeforeExtends(all, added, k + 1, i, p);
      }
    }
  }

  lemma BeforeExtends(all: seq<NodeId>, added: seq<NodeId>, i: nat, j: nat, p: NodeId)
    requires Before(all, i, p) && i <= j
    ensures Before(all + added, j, p)
  {
    var x :| 0 <= x < i && x < |all| && all[x] == p;
    assert (all + added)[x] == p;
  }

  /** Which vertices a finished Kahn order contains does not depend on the order. */
  lemma KahnOrdersAgree(g: Graph, a: seq<NodeId>, b: seq<NodeId>)
    requires PredsFirst(g, a) && Exhausted(g, a) && PredsFirst(g, b) && Exhausted(g, b)
    ensures Elems(a) == Elems(b) && |a| == |b|
  {
    forall i | 0 <= i < |a| ensures a[i] in b { KahnOrderWithin(g, a, b, i); }
    forall i | 0 <= i < |b| ensures b[i] in a { KahnOrderWithin(g, b, a, i); }
    DistinctSize(a);
    DistinctSize(b);
    assert Elems(a) == Elems(b);
  }

  lemma {:induction false} KahnOrderWithin(g: Graph, a: seq<NodeId>, b: seq<NodeId>, i: nat)
    requires PredsFirst(g, a) && Exhausted(g, b) && i < |a|
    ensures a[i] in b
  {
    forall p | p in Preds(g, a[i]) ensures p in b {
      assert Before(a, i, p);
      var j :| 0 <= j < i && j < |a| && a[j] == p;
      KahnOrderWithin(g, a, b, j);
    }
    assert Eligible(g, a[i], b);
  }

  // ----- exactly which vertices come out, and exactly when the sort accepts

  /** Every path into the vertex `n` stays within the vertices and repeats none of them. */
  ghost predicate Grounded(g: Graph, n: NodeId) {
    n in Vertices(g) && forall p | PathTo(g, p, n) :: Simple(g, p)
  }

  ghost predicate Simple(g: Graph, p: seq<NodeId>) {
    Distinct(p) && forall x | x in p :: x in Vertices(g)
  }

  ghost function GroundedUnknown(g: Graph): set<NodeId> {
    set n | n in Vertices(g) && n !in g.nodes && Grounded(g, n)
  }

  ghost function UngroundedNodes(g: Graph): set<NodeId> {
    set n | n in g.nodes && !Grounded(g, n)
  }

  /** A path into `order[i]` runs through earlier and earlier positions. */
  lemma {:induction false} PathInOrder(g: Graph, order: seq<NodeId>, i: nat, p: seq<NodeId>)
    requires PredsFirst(g, order) && i < |order| && PathTo(g, p, order[i])
    ensures Distinct(p) && forall x | x in p :: Before(order, i + 1, x)
  {
    var k := |p| - 1;
    if k == 0 {
      assert p == [order[i]];
    } else {
      var q := p[..k];
      assert q[k - 1] in Preds(g, p[k]);
      assert Before(order, i, q[k - 1]);
      var j :| 0 <= j < i && j < |order| && order[j] == q[k - 1];
      PathInOrder(g, order, j, q);
      LaterIsNew(order, i, j, q);
      DistinctConcat(q, [order[i]]);
      assert p == q + [order[i]];
    }
  }

  lemma LaterIsNew(order: seq<NodeId>, i: nat, j: nat, q: seq<NodeId>)
    requires Distinct(order) && j < i < |order| && forall x | x in q :: Before(order, j + 1, x)
    ensures order[i] !in q && forall x | x in q :: Before(order, i + 1, x)
  {
    forall x | x in q ensures x != order[i] && Before(order, i + 1, x) {
      var m :| 0 <= m < j + 1 && m < |order| && order[m] == x;
    }
  }

  /** From a vertex that did not come out, go back along such vertices, or off the vertices. */
  lemma {:induction false} PathOutsideOrder(g: Graph, order: seq<NodeId>, n: NodeId, len: nat) returns (p: seq<NodeId>)
    requires Exhausted(g, order) && n in Vertices(g) && n !in order && len > 0
    ensures PathTo(g, p, n) && (|p| == len || !Simple(g, p))
    decreases len
  {
    if len == 1 {
      p := [n];
    } else {
      assert !Eligible(g, n, order);
      var m :| m in Preds(g, n) && m !in order;
      var q := [m];
      if m in Vertices(g) {
        q := PathOutsideOrder(g, order, m, len - 1);
      }
      p := q + [n];
      ExtendPath(g, q, m, n);
    }
  }

  lemma ExtendPath(g: Graph, q: seq<NodeId>, m: NodeId, n: NodeId)
    requires PathTo(g, q, m) && m in Preds(g, n)
    ensures PathTo(g, q + [n], n) && (!Simple(g, q) ==> !Simple(g, q + [n]))
  {
    var p := q + [n];
    forall i | 0 < i < |p| ensures p[i - 1] in Preds(g, p[i]) {
      if i < |q| { assert p[i - 1] == q[i - 1] && p[i] == q[i]; }
    }
    if Simple(g, p) {
      forall i, j | 0 <= i < j < |q| ensures q[i] != q[j] { assert p[i] != p[j]; }
      assert forall x | x in q :: x in p;
    }
  }

  /** The sort outputs exactly the grounded vertices, whatever the edge list. */
  lemma OutputIffGrounded(g: Graph, order: seq<NodeId>, n: NodeId)
    requires PredsFirst(g, order) && Exhausted(g, order)
    ensures n in order <==> Grounded(g, n)
  {
    if n in order {
      var i :| 0 <= i < |order| && order[i] == n;
      forall p | PathTo(g, p, n) ensures Simple(g, p) {
        PathInOrder(g, order, i, p);
        forall x | x in p ensures x in Vertices(g) {
          assert Before(order, i + 1, x);
        }
      }
    } else if n in Vertices(g) {
      var p := PathOutsideOrder(g, order, n, |Vertices(g)| + 1);
      if Simple(g, p) { DistinctWithin(p, Vertices(g)); }
    }
  }

  /**
   The length test is passed exactly when as many unknown targets are grounded as nodes are not:
   that many strangers have taken the place of nodes on or behind a cycle or an unknown source.
   */
  lemma AcceptsIff(g: Graph, order: seq<NodeId>)
    requires PredsFirst(g, order) && Exhausted(g, order)
    ensures |order| == |g.nodes| <==> |GroundedUnknown(g)| == |UngroundedNodes(g)|
  {
    DistinctSize(order);
    var out, strangers, lost := Elems(order), GroundedUnknown(g), UngroundedNodes(g);
    forall n ensures n in out <==> Grounded(g, n) {
      OutputIffGrounded(g, order, n);
    }
    var kept := out * g.nodes;
    assert out == kept + strangers;
    assert g.nodes == kept + lost;
    assert |out| == |kept| + |strangers| && |g.nodes| == |kept| + |lost|;
  }

  lemma {:induction false} PathKnown(g: Graph, p: seq<NodeId>)
    requires ValidRefs(g) && IsPath(g, p) && p[|p| - 1] in g.nodes
    ensures forall i | 0 <= i < |p| :: p[i] in g.nodes
  {
    if |p| > 1 {
      var k := |p| - 1;
      assert p[k - 1] in Preds(g, p[k]);
      assert IsPath(g, p[..k]);
      PathKnown(g, p[..k]);
      assert forall i | 0 <= i < k :: p[i] == p[..k][i];
    }
  }

  /** A path that meets a vertex twice contains a cycle. */
  lemma RepeatIsCycle(g: Graph, p: seq<NodeId>, i: nat, j: nat)
    requires IsPath(g, p) && i < j < |p| && p[i] == p[j]
    ensures IsCycle(g, p[i..j + 1])
  {
    var q := p[i..j + 1];
    forall k | 0 < k < |q| ensures q[k - 1] in Preds(g, q[k]) {
      assert q[k - 1] == p[i + k - 1] && q[k] == p[i + k];
    }
  }

  lemma GroundedIfAcyclic(g: Graph, n: NodeId)
    requires ValidRefs(g) && Acyclic(g) && n in g.nodes
    ensures Grounded(g, n)
  {
    forall p | PathTo(g, p, n) ensures Simple(g, p) {
      PathKnown(g, p);
      if i, j :| 0 <= i < j < |p| && p[i] == p[j] {
        RepeatIsCycle(g, p, i, j);
      }
    }
  }

  lemma CycleNotGrounded(g: Graph, p: seq<NodeId>)
    requires TargetsKnown(g) && IsCycle(g, p)
    ensures p[0] in g.nodes && !Grounded(g, p[0])
  {
    assert p[|p| - 2] in Preds(g, p[|p| - 1]);
    assert PathTo(g, p, p[0]) && !Simple(g, p);
  }

  /** With known targets, all nodes are grounded exactly if there is no cycle and no unknown source. */
  lemma GroundedIffAcyclic(g: Graph)
    requires TargetsKnown(g)
    ensures (forall n | n in g.nodes :: Grounded(g, n)) <==> Acyclic(g) && SourcesKnown(g)
  {
    if forall n | n in g.nodes :: Grounded(g, n) {
      forall p ensures !IsCycle(g, p) {
        if IsCycle(g, p) { CycleNotGrounded(g, p); }
      }
      forall e | e in g.edges ensures e.from in g.nodes {
        assert e.from in Preds(g, e.to);
        assert PathTo(g, [e.from, e.to], e.to);
        assert Simple(g, [e.from, e.to]);
        assert [e.from, e.to][0] in Vertices(g);
      }
    } else if SourcesKnown(g) && Acyclic(g) {
      forall n | n in g.nodes ensures Grounded(g, n) {
        GroundedIfAcyclic(g, n);
      }
    }
  }

  /** With known targets no stranger can stand in, so the counts agree only if every node is grounded. */
  lemma KnownTargetsAcceptIff(g: Graph)
    requires TargetsKnown(g)
    ensures |GroundedUnknown(g)| == |UngroundedNodes(g)| <==> forall n | n in g.nodes :: Grounded(g, n)
  {
    assert GroundedUnknown(g) == {};
    if |UngroundedNodes(g)| == 0 {
      forall n | n in g.nodes ensures Grounded(g, n) { assert n !in UngroundedNodes(g); }
    } else {
      var n :| n in UngroundedNodes(g);
    }
  }

  /**
   As long as every target is a node, a finished Kahn order is complete exactly when the graph has
   no cycle and every source is a node too.
   */
  lemma CompleteIffAcyclic(g: Graph, order: seq<NodeId>)
    requires TargetsKnown(g) && PredsFirst(g, order) && Exhausted(g, order)
    ensures |order| == |g.nodes| <==> Acyclic(g) && SourcesKnown(g)
    ensures |order| == |g.nodes| <==> Elems(order) == g.nodes
  {
    AcceptsIff(g, order);
    KnownTargetsAcceptIff(g);
    GroundedIffAcyclic(g);
    DistinctSize(order);
    if |order| == |g.nodes| {
      SubsetSize(Elems(order), g.nodes);
    }
  }

  // ----- the loop

  ghost predicate KahnInv(g: Graph, all: seq<NodeId>, k: nat, indeg: map<NodeId, nat>, rank: map<NodeId, nat>) {
    KahnCounts(g, all, k, indeg) && KahnRanks(g, all, k, rank) && KahnPreds(g, all, k)
  }

  lemma KahnStep(g: Graph, all: seq<NodeId>, k: nat, indeg: map<NodeId, nat>, rank: map<NodeId, nat>,
                 d: set<Edge>, indeg': map<NodeId, nat>, added: seq<NodeId>)
    requires KahnInv(g, all, k, indeg, rank) && k < |all|
    requires d == set e | e in g.edges && e.from == all[k]
    requires indeg'.Keys == indeg.Keys
    requires forall m | m in indeg :: indeg'[m] == indeg[m] - Count(g.edges, m, d)
    requires Distinct(added) && forall m :: m in added <==> Unlocks(g.edges, d, indeg, m)
    ensures KahnInv(g, all + added, k + 1, indeg', Extend(rank, added, rank[all[k]] + 1))
  {
    KahnCountsStep(g, all, k, indeg, d, indeg', added);
    AddedNodes(g, all, k, indeg, d, indeg', added);
    KahnRanksStep(g, all, k, rank, added);
    KahnPredsStep(g, all, k, added);
  }

  /** One turn of the main loop: take the head off the queue and release its targets. */
  method Pop(g: Graph, ghost all: seq<NodeId>, ghost k: nat, q: seq<NodeId>,
             indeg: map<NodeId, nat>, ghost rank: map<NodeId, nat>)
    returns (q': seq<NodeId>, indeg': map<NodeId, nat>, ghost all': seq<NodeId>, ghost rank': map<NodeId, nat>)
    requires KahnInv(g, all, k, indeg, rank) && k < |all| && q == all[k..]
    ensures KahnInv(g, all', k + 1, indeg', rank') && all <= all' && k < |Vertices(g)|
    ensures q' == all'[k + 1..] && all'[..k + 1] == all[..k] + [q[0]] && q[1..] <= q'
    ensures indeg'.Keys == indeg.Keys
    ensures forall m | m in indeg :: indeg'[m] == indeg[m] - Count(g.edges, m, set e | e in g.edges && e.from == q[0])
  {
    var n := q[0];
    var fires := (e: Edge) => e.from == n;
    PopReady(g, all, k, indeg, fires);
    ghost var added;
    indeg', q', added := FireEdges(g.edges, fires, indeg, q[1..]);
    KahnStep(g, all, k, indeg, rank, Fired(g.edges, fires), indeg', added);
    rank' := Extend(rank, added, rank[all[k]] + 1);
    all' := all + added;
    QueueMoves(all, k, added);
  }

  lemma PopReady(g: Graph, all: seq<NodeId>, k: nat, indeg: map<NodeId, nat>, fires: Edge -> bool)
    requires KahnCounts(g, all, k, indeg) && k < |all|
    requires forall e | e in g.edges :: fires(e) <==> e.from == all[k]
    ensures Fired(g.edges, fires) == set e | e in g.edges && e.from == all[k]
    ensures forall e | e in g.edges && fires(e) :: e.to in indeg
    ensures forall m | m in indeg :: Count(g.edges, m, Fired(g.edges, fires)) <= indeg[m]
    ensures k < |Vertices(g)|
  {
    DistinctWithin(all, Vertices(g));
    assert Fired(g.edges, fires) == set e | e in g.edges && e.from == all[k];
    FiredArePending(g, all, k, indeg);
  }

  /** The nodes without incoming edges, in key order. */
  ghost function Sources(g: Graph): seq<NodeId> {
    InOrder(set n | n in Vertices(g) && Preds(g, n) == {})
  }

  /** The in-degree table and the initial queue. */
  method Start(g: Graph) returns (q: seq<NodeId>, indeg: map<NodeId, nat>, ghost rank: map<NodeId, nat>)
    ensures KahnInv(g, q, 0, indeg, rank) && q == Sources(g)
  {
    indeg := InDegrees(Vertices(g), g.edges);
    q := KeysInOrder(set m | m in indeg && indeg[m] == 0);
    InOrderOf((set m | m in indeg && indeg[m] == 0), q);
    rank := map n | n in q :: 0;
    KahnInit(g, q, indeg);
    SourcesHaveNoEdges(g, indeg);
  }

  lemma SourcesHaveNoEdges(g: Graph, indeg: map<NodeId, nat>)
    requires indeg.Keys == Vertices(g)
    requires forall m | m in indeg :: indeg[m] == Count(g.edges, m, Elems(g.edges))
    ensures (set m | m in indeg && indeg[m] == 0) == (set n | n in Vertices(g) && Preds(g, n) == {})
  {
    forall n | n in Vertices(g) ensures Preds(g, n) == {} <==> indeg[n] == 0 {
      CountZero(g.edges, n, Elems(g.edges));
      assert forall e | e in g.edges && e.to == n :: e.from in Preds(g, n);
    }
  }

  /** `Dag::topo_sort`, on any edge list at all. */
  method Sort(g: Graph) returns (r: Result<seq<NodeId>>, ghost order: seq<NodeId>, ghost rank: map<NodeId, nat>)
    ensures r == if |order| == |g.nodes| then Ok(order) else Err(CycleDetected)
    ensures PredsFirst(g, order) && Exhausted(g, order) && Sources(g) <= order
    ensures Layering(g, rank) && rank.Keys == Elems(order) && NonDecreasing(rank, order)
    ensures r.Ok? <==> |GroundedUnknown(g)| == |UngroundedNodes(g)|
    ensures TargetsKnown(g) ==> (r.Ok? <==> Acyclic(g) && SourcesKnown(g))
    ensures TargetsKnown(g) && r.Ok? ==> Elems(r.value) == g.nodes
  {
    var q, indeg;
    q, indeg, rank := Start(g);
    var out: seq<NodeId> := [];
    ghost var all, k := q, 0;
    while q != []
      invariant KahnInv(g, all, k, indeg, rank)
      invariant q == all[k..] && out == all[..k] && Sources(g) <= all
      decreases |Vertices(g)| - k
    {
      out := out + [q[0]];
      q, indeg, all, rank := Pop(g, all, k, q, indeg, rank);
      k := k + 1;
    }
    order := out;
    assert order == all;
    SortFinish(g, order, indeg, rank);
    AcceptsIff(g, order);
    r := if |out| != |g.nodes| then Err(CycleDetected) else Ok(out);
  }

  lemma SortFinish(g: Graph, order: seq<NodeId>, indeg: map<NodeId, nat>, rank: map<NodeId, nat>)
    requires KahnInv(g, order, |order|, indeg, rank)
    ensures PredsFirst(g, order) && Exhausted(g, order)
    ensures TargetsKnown(g) ==> (|order| == |g.nodes| <==> Acyclic(g) && SourcesKnown(g))
    ensures TargetsKnown(g) && |order| == |g.nodes| ==> Elems(order) == g.nodes
  {
    assert order[..|order|] == order;
    forall n | n in Vertices(g) && Eligible(g, n, order) ensures n in order {
      assert forall e | e in g.edges && e.to == n :: e.from in Preds(g, n);
      CountZero(g.edges, n, PendingAfter(g, Elems(order)));
    }
    if TargetsKnown(g) {
      CompleteIffAcyclic(g, order);
    }
  }
}
