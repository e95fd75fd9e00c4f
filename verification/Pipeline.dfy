/**
 The canonical workflow end to end: price nodes feed a median node, the median feeds a threshold
 node, and an edge guarded by the threshold's result leads to an action node. The rest of the graph
 is arbitrary.
 */
module Pipeline {
  import opened Json
  import opened Pointer
  import opened Graphs
  import opened Errors
  import opened NodeIo
  import opened Nodes
  import S = Scheduler
  import Inv = SchedulerInvariants

  ghost predicate IsMedian(w: S.Workflow, n: NodeId) {
    forall m, out | w.may(n, m, Ok(out)) :: MedianResult(m) == Ok(out)
  }

  ghost predicate IsThreshold(w: S.Workflow, n: NodeId, op: Comparison, threshold: real) {
    forall m, out | w.may(n, m, Ok(out)) :: ThresholdResult(op, threshold, m, Null) == Ok(out)
  }

  /** Every edge into `to` comes from `from` under condition `c`, and there is one. */
  ghost predicate OnlyEdge(g: Graph, from: NodeId, to: NodeId, c: EdgeCondition) {
    Edge(from, to, c) in g.edges && forall e | e in g.edges && e.to == to :: e == Edge(from, to, c)
  }

  ghost predicate Wired(w: S.Workflow, mid: NodeId, test: NodeId, act: NodeId, op: Comparison, threshold: real) {
    IsMedian(w, mid) && IsThreshold(w, test, op, threshold) &&
    OnlyEdge(w.g, mid, test, Always) && OnlyEdge(w.g, test, act, JsonEq("/ok", Bool(true))) &&
    test in w.g.nodes && act in w.g.nodes
  }

  /** The prices that the median node saw. */
  function Prices(g: Graph, mid: NodeId, s: S.State): Parents {
    S.ParentsOf(g, mid, s.outputs)
  }

  ghost predicate Over(s: S.State) {
    s.status.Completed? || s.status.Unreached?
  }

  lemma MedianRan(w: S.Workflow, s: S.State, mid: NodeId)
    requires Inv.ValuesExplained(w, s) && IsMedian(w, mid) && mid in s.outputs
    ensures MedianResult(Prices(w.g, mid, s)) == Ok(NodeOutput(s.outputs[mid], 3))
  {
    assert Inv.Produced(w, mid, Prices(w.g, mid, s), s.outputs[mid]);
  }

  /** Every edge into `n` has fired. */
  ghost predicate Fed(g: Graph, n: NodeId, s: S.State) {
    n in g.nodes && forall e | e in g.edges && e.to == n :: S.EdgeFired(e, s.outputs)
  }

  lemma RanIffFed(w: S.Workflow, s: S.State, n: NodeId)
    requires Inv.CountersExact(w.g, s) && Inv.Quiescent(s) && Inv.Frontier(w.g, s)
    ensures n in s.outputs <==> Fed(w.g, n, s)
  {
    if n in s.outputs {
      assert Inv.Started(s, n);
      Inv.UnlockedMeansFired(w.g, s, n);
    }
    if Fed(w.g, n, s) {
      Inv.AllFiredMeansUnlocked(w.g, s, n);
      assert Inv.Started(s, n);
    }
  }

  lemma SuccessorRuns(w: S.Workflow, s: S.State, from: NodeId, to: NodeId, c: EdgeCondition)
    requires Inv.CountersExact(w.g, s) && Inv.Quiescent(s) && Inv.Frontier(w.g, s)
    requires OnlyEdge(w.g, from, to, c) && to in w.g.nodes
    ensures to in s.outputs <==> from in s.outputs && Evaluate(c, s.outputs[from])
  {
    RanIffFed(w, s, to);
    assert Edge(from, to, c) in w.g.edges;
  }

  lemma TestRan(w: S.Workflow, s: S.State, test: NodeId, op: Comparison, threshold: real)
    requires Inv.ValuesExplained(w, s) && IsThreshold(w, test, op, threshold) && test in s.outputs
    ensures ThresholdResult(op, threshold, S.ParentsOf(w.g, test, s.outputs), Null) == Ok(NodeOutput(s.outputs[test], 1))
  {
    assert Inv.Produced(w, test, S.ParentsOf(w.g, test, s.outputs), s.outputs[test]);
  }

  lemma MedianTested(w: S.Workflow, s: S.State, mid: NodeId, test: NodeId, op: Comparison, threshold: real)
    requires Inv.CountersExact(w.g, s) && Inv.Quiescent(s) && Inv.Frontier(w.g, s) && Inv.ValuesExplained(w, s)
    requires IsMedian(w, mid) && IsThreshold(w, test, op, threshold) && OnlyEdge(w.g, mid, test, Always)
    requires test in w.g.nodes && mid in s.outputs
    ensures MedianResult(Prices(w.g, mid, s)) == Ok(NodeOutput(s.outputs[mid], 3)) && test in s.outputs
    ensures s.outputs[test] == ThresholdOutput(op, threshold, Median(Numbers(Prices(w.g, mid, s))))
  {
    MedianRan(w, s, mid);
    SuccessorRuns(w, s, mid, test, Always);
    var m := S.ParentsOf(w.g, test, s.outputs);
    assert Preds(w.g, test) == {mid} by {
      assert Edge(mid, test, Always) in w.g.edges;
    }
    assert m == map[mid := s.outputs[mid]];
    ThresholdOfMedian(Prices(w.g, mid, s), mid);
    TestRan(w, s, test, op, threshold);
  }

  lemma ThresholdRan(w: S.Workflow, s: S.State, mid: NodeId, test: NodeId, op: Comparison, threshold: real)
    requires S.Reachable(w, s) && Over(s)
    requires IsMedian(w, mid) && IsThreshold(w, test, op, threshold) && OnlyEdge(w.g, mid, test, Always)
    requires test in w.g.nodes && mid in s.outputs
    ensures MedianResult(Prices(w.g, mid, s)) == Ok(NodeOutput(s.outputs[mid], 3)) && test in s.outputs
    ensures s.outputs[test] == ThresholdOutput(op, threshold, Median(Numbers(Prices(w.g, mid, s))))
  {
    Inv.CoreReachable(w, s);
    MedianTested(w, s, mid, test, op, threshold);
  }

  /**
   In every run without node errors the action runs exactly when the median node ran, that is when
   all edges from its prices fired, and the median passes the threshold.
   */
  lemma ActsIff(w: S.Workflow, s: S.State, mid: NodeId, test: NodeId, act: NodeId, op: Comparison, threshold: real)
    requires Wired(w, mid, test, act, op, threshold) && S.Reachable(w, s) && Over(s)
    ensures mid in s.outputs <==> Fed(w.g, mid, s)
    ensures mid in s.outputs ==> MedianResult(Prices(w.g, mid, s)).Ok?
    ensures act in s.outputs <==>
            mid in s.outputs && Compare(op, Median(Numbers(Prices(w.g, mid, s))), threshold)
  {
    Inv.CoreReachable(w, s);
    RanIffFed(w, s, mid);
    SuccessorRuns(w, s, mid, test, Always);
    SuccessorRuns(w, s, test, act, JsonEq("/ok", Bool(true)));
    if mid in s.outputs {
      ThresholdRan(w, s, mid, test, op, threshold);
      OkEdge(op, threshold, Median(Numbers(Prices(w.g, mid, s))));
    }
  }

  /**
   So once all edges from the prices have fired, a minority of arbitrary price sources can neither
   cause the action against the others nor prevent it, whatever the order in which the calls of the
   run completed. If some edge has not fired there is no action.
   */
  lemma ActionRobust(w: S.Workflow, s: S.State, mid: NodeId, test: NodeId, act: NodeId, op: Comparison,
                     threshold: real, bad: set<NodeId>, lo: real, hi: real)
    requires Wired(w, mid, test, act, op, threshold) && S.Reachable(w, s) && Over(s)
    requires 2 * |bad| < |Numbers(Prices(w.g, mid, s))|
    requires forall p | p in Preds(w.g, mid) && p in s.outputs && p !in bad && NumberOf(s.outputs[p]).Some? ::
               lo <= NumberOf(s.outputs[p]).value <= hi
    ensures Compare(op, lo, threshold) && Compare(op, hi, threshold) ==> (act in s.outputs <==> Fed(w.g, mid, s))
    ensures !op.Eq? && !Compare(op, lo, threshold) && !Compare(op, hi, threshold) ==> act !in s.outputs
  {
    ActsIff(w, s, mid, test, act, op, threshold);
    OutlierRobust(Prices(w.g, mid, s), bad, lo, hi);
    CompareBetween(op, lo, Median(Numbers(Prices(w.g, mid, s))), hi, threshold);
  }
}
