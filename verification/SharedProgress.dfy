/** Runs of the scheduler with its shared executor: apart from the passing of time they end, and none gets stuck. */
module SharedProgress {
  import opened KeyOrder
  import opened Graphs
  import opened Resilience
  import opened SharedBreaker
  import Th = SchedulerTheorems

  // ----- a budget of steps for every node

  /** The most steps that a call can take before it is answered. */
  ghost function Left(cfg: Config, call: Call): nat {
    match call
    case Queued => MaxAttempts(cfg) + 1
    case Attempting(delays, _, _) => if |delays| < MaxAttempts(cfg) then MaxAttempts(cfg) - |delays| else 0
    case _ => 0
  }

  /** One step to start the node, those of its call, and one to receive the answer. */
  ghost function Budget(y: System, c: State, n: NodeId): nat {
    if n in c.calls then Left(y.cfg, c.calls[n]) + 1
    else if n in c.sched.outputs then 0
    else MaxAttempts(y.cfg) + 3
  }

  ghost function Tokens(y: System, c: State): set<(NodeId, nat)> {
    set n, k: nat | n in y.g.nodes && k < Budget(y, c, n) :: (n, k)
  }

  ghost function Remaining(y: System, c: State): nat {
    |Tokens(y, c)| + if c.sched.status == S.Running then 1 else 0
  }

  lemma TokensShrink(y: System, c: State, c': State, n: NodeId)
    requires n in y.g.nodes && Budget(y, c', n) < Budget(y, c, n)
    requires forall m | m in y.g.nodes :: Budget(y, c', m) <= Budget(y, c, m)
    ensures |Tokens(y, c')| < |Tokens(y, c)|
  {
    assert (n, Budget(y, c', n)) in Tokens(y, c) && (n, Budget(y, c', n)) !in Tokens(y, c');
    assert Tokens(y, c') <= Tokens(y, c);
    SubsetSize(Tokens(y, c'), Tokens(y, c));
  }

  lemma SameTokens(y: System, c: State, c': State)
    requires c'.calls == c.calls && c'.sched.outputs == c.sched.outputs
    ensures Tokens(y, c') == Tokens(y, c)
  {
    assert forall n :: Budget(y, c', n) == Budget(y, c, n);
  }

  // ----- every step but the passing of time uses some of it

  ghost predicate Consistent(y: System, c: State) {
    CallsExplained(y, c) && Inv.Frontier(y.g, c.sched)
  }

  lemma ReachableConsistent(y: System, c: State)
    requires Reachable(y, c)
    ensures Consistent(y, c)
  {
    ReachableExplained(y, c);
    Inv.CoreReachable(Actual(y), c.sched);
  }

  lemma CallStepShrinks(y: System, c: State, n: NodeId, c': State)
    requires Consistent(y, c) && CallStep(y, c, n, c')
    ensures Remaining(y, c') < Remaining(y, c)
  {
    assert CallExplained(y, n, c.sched.inflight[n], c.calls[n]);
    assert Inv.Started(c.sched, n);
    assert Left(y.cfg, c'.calls[n]) < Left(y.cfg, c.calls[n]);
    TokensShrink(y, c, c', n);
  }

  lemma StartShrinks(y: System, c: State, c': State)
    requires Consistent(y, c) && StartWave(y, c, c')
    ensures Remaining(y, c') < Remaining(y, c)
  {
    var n := c.sched.ready[0];
    forall m | m in c.sched.ready ensures m in y.g.nodes && Budget(y, c', m) < Budget(y, c, m) {
      assert !Inv.Started(c.sched, m);
    }
    forall m ensures Budget(y, c', m) <= Budget(y, c, m) {
      assert m in c'.calls <==> m in c.sched.ready;
    }
    TokensShrink(y, c, c', n);
  }

  lemma ReceiveShrinks(y: System, c: State, n: NodeId, indeg: map<NodeId, nat>, added: seq<NodeId>, c': State)
    requires Consistent(y, c) && Receive(y, c, n, indeg, added, c')
    ensures Remaining(y, c') < Remaining(y, c)
  {
    assert Inv.Started(c.sched, n);
    TokensShrink(y, c, c', n);
  }

  lemma EndShrinks(y: System, c: State, c': State)
    requires c.sched.status == S.Running
    requires Finish(y, c, c') || exists n :: GiveUp(c, n, c')
    ensures Remaining(y, c') < Remaining(y, c)
  {
    SameTokens(y, c, c');
  }

  lemma MoveShrinks(y: System, c: State, c': State)
    requires Consistent(y, c) && Next(y, c, c') && !Tick(c, c')
    ensures Remaining(y, c') < Remaining(y, c)
  {
    if StartWave(y, c, c') {
      StartShrinks(y, c, c');
    } else if SomeCallStep(y, c, c') {
      var n :| CallStep(y, c, n, c');
      CallStepShrinks(y, c, n, c');
    } else if n, indeg, added :| SomeDelivery(y, c, c') && Receive(y, c, n, indeg, added, c') {
      ReceiveShrinks(y, c, n, indeg, added, c');
    } else {
      EndShrinks(y, c, c');
    }
  }

  // ----- so there are only so many

  /** How many steps of a run are more than the passing of time. */
  ghost function Moves(steps: seq<State>): nat {
    if |steps| < 2 then 0
    else
      var k := |steps| - 1;
      Moves(steps[..k]) + if Tick(steps[k - 1], steps[k]) then 0 else 1
  }

  ghost function Grid(nodes: set<NodeId>, b: nat): set<(NodeId, nat)> {
    set n, k: nat | n in nodes && k < b :: (n, k)
  }

  lemma {:induction false} ColumnSize(n: NodeId, b: nat)
    ensures |Grid({n}, b)| == b
  {
    if b == 0 {
      assert Grid({n}, b) == {};
    } else {
      ColumnSize(n, b - 1);
      assert Grid({n}, b) == Grid({n}, b - 1) + {(n, b - 1)};
    }
  }

  lemma GridSplit(nodes: set<NodeId>, n: NodeId, b: nat)
    requires n in nodes
    ensures |Grid(nodes, b)| == |Grid(nodes - {n}, b)| + |Grid({n}, b)|
  {
    assert Grid(nodes, b) == Grid(nodes - {n}, b) + Grid({n}, b);
    assert Grid(nodes - {n}, b) !! Grid({n}, b);
  }

  lemma {:induction false} GridSize(nodes: set<NodeId>, b: nat)
    ensures |Grid(nodes, b)| == |nodes| * b
  {
    if nodes == {} {
      assert Grid(nodes, b) == {};
    } else {
      var n :| n in nodes;
      GridSize(nodes - {n}, b);
      ColumnSize(n, b);
      GridSplit(nodes, n, b);
      assert |nodes| * b == (|nodes| - 1) * b + b;
    }
  }

  /** The most steps, other than the passing of time, that any run can take. */
  function Bound(y: System): nat {
    |y.g.nodes| * (MaxAttempts(y.cfg) + 3) + 1
  }

  /**
   Every run ends, but for the passing of time: per node one step to start it, one to pass the gate,
   its attempts, and one to receive its answer; and one step to return.
   */
  lemma {:induction false} MovesBounded(y: System, run: seq<State>)
    requires IsRun(y, run)
    ensures Moves(run) + Remaining(y, run[|run| - 1]) <= Bound(y)
  {
    var k := |run| - 1;
    if k == 0 {
      assert Tokens(y, run[0]) == Grid(y.g.nodes, MaxAttempts(y.cfg) + 3);
      GridSize(y.g.nodes, MaxAttempts(y.cfg) + 3);
    } else {
      assert IsRun(y, run[..k]);
      MovesBounded(y, run[..k]);
      assert Reachable(y, run[..k][k - 1]);
      ReachableConsistent(y, run[k - 1]);
      if Tick(run[k - 1], run[k]) {
        SameTokens(y, run[k - 1], run[k]);
      } else {
        MoveShrinks(y, run[k - 1], run[k]);
      }
    }
  }

  // ----- and there is always one until the scheduler returns

  lemma CallCanMove(y: System, c0: State, c: State, n: NodeId) returns (c': State)
    requires Leads(y, c0, c) && Consistent(y, c) && n in c.calls && (c.calls[n].Queued? || c.calls[n].Attempting?)
    ensures Leads(y, c0, c') && Remaining(y, c') < Remaining(y, c)
  {
    if c.calls[n].Queued? {
      c' := Moved(c, n, Gated(y, c), Reported(c, Breaker.AllowCall));
      assert Gate(y, c, n, c') && CallStep(y, c, n, c');
      LeadsNext(y, c0, c, c');
      CallStepShrinks(y, c, n, c');
    } else {
      var d := Wait(y, c0, c, c.calls[n].wake);
      SameTokens(y, c, d);
      c' := Tried(y, d, n);
      assert Try(y, d, n, c') && CallStep(y, d, n, c');
      LeadsNext(y, c0, d, c');
      CallStepShrinks(y, d, n, c');
    }
  }

  lemma AnswerCanArrive(y: System, c0: State, c: State, n: NodeId) returns (c': State)
    requires Leads(y, c0, c) && Reachable(y, c) && c.sched.status == S.Running
    requires n in c.calls && !c.calls[n].Queued? && !c.calls[n].Attempting?
    ensures Leads(y, c0, c') && Remaining(y, c') < Remaining(y, c)
  {
    ReachableConsistent(y, c);
    if c.calls[n].Succeeded? {
      ReachableExplained(y, c);
      var out := c.calls[n].out;
      var indeg, added := Th.Releasable(Actual(y), c.sched, n, out.value);
      c' := c.(sched := S.NodeDone(Ideal(y), c.sched, n, out, indeg, added), calls := c.calls - {n});
      assert Receive(y, c, n, indeg, added, c') && SomeDelivery(y, c, c');
      LeadsNext(y, c0, c, c');
      ReceiveShrinks(y, c, n, indeg, added, c');
    } else {
      var err := ErrorOf(c.calls[n]).value;
      c' := c.(sched := c.sched.(events := c.sched.events + [S.WorkflowFailed(err)], status := S.NodeFailed(n, err)));
      assert GiveUp(c, n, c') && SomeDelivery(y, c, c');
      LeadsNext(y, c0, c, c');
      EndShrinks(y, c, c');
    }
  }

  lemma IdleCanMove(y: System, c0: State, c: State) returns (c': State)
    requires Leads(y, c0, c) && Consistent(y, c) && c.sched.status == S.Running && c.calls == map[]
    ensures Leads(y, c0, c') && Remaining(y, c') < Remaining(y, c)
  {
    assert c.sched.inflight == map[];
    if c.sched.ready != [] {
      var s' := S.WaveStarted(y.g, c.sched);
      c' := c.(sched := s', calls := map n | n in s'.inflight :: Queued);
      assert StartWave(y, c, c');
      LeadsNext(y, c0, c, c');
      StartShrinks(y, c, c');
    } else {
      c' := c.(sched := S.Ended(Ideal(y), c.sched));
      assert Finish(y, c, c');
      LeadsNext(y, c0, c, c');
      EndShrinks(y, c, c');
    }
  }

  lemma CanMove(y: System, c0: State, c: State) returns (c': State)
    requires Reachable(y, c0) && Leads(y, c0, c) && c.sched.status == S.Running
    ensures Leads(y, c0, c') && Remaining(y, c') < Remaining(y, c)
  {
    LeadsReachable(y, c0, c);
    ReachableConsistent(y, c);
    if c.calls == map[] {
      c' := IdleCanMove(y, c0, c);
    } else {
      var n :| n in c.calls;
      if c.calls[n].Queued? || c.calls[n].Attempting? {
        c' := CallCanMove(y, c0, c, n);
      } else {
        c' := AnswerCanArrive(y, c0, c, n);
      }
    }
  }

  /** `c` leads to `c'`, where the scheduler has returned. */
  ghost predicate FinishesAt(y: System, c: State, c': State) {
    Leads(y, c, c') && c'.sched.status != S.Running
  }

  lemma {:induction false} FinishFrom(y: System, c0: State, c: State)
    requires Reachable(y, c0) && Leads(y, c0, c)
    ensures exists c' :: FinishesAt(y, c0, c')
    decreases Remaining(y, c)
  {
    if c.sched.status == S.Running {
      var d := CanMove(y, c0, c);
      FinishFrom(y, c0, d);
    } else {
      assert FinishesAt(y, c0, c);
    }
  }

  /** Whatever the calls of a run have done so far, the run can still be finished: none gets stuck. */
  lemma CanFinish(y: System, c: State)
    requires Reachable(y, c)
    ensures exists c' :: FinishesAt(y, c, c')
  {
    LeadsSelf(y, c);
    FinishFrom(y, c, c);
  }
}
