/**
 The wave scheduler as a state machine. A wave starts every ready node at once; the calls of a
 wave come back in any order; a call that errs ends the run.

 What a node call may return is a relation, so the machine covers nodes whose answers depend on
 anything (time, network, the circuit breaker); `Deterministic` singles out fixed functions.
 */
module Scheduler {
  import opened KeyOrder
  import opened Json
  import opened Pointer
  import opened Graphs
  import opened Errors
  import opened NodeIo

  datatype Event =
    | WorkflowStarted
    | NodeStarted(id: NodeId, attempt: nat)
    | NodeCompleted(id: NodeId, outputHash: string, gasUsed: nat)
    | WorkflowCompleted(attestationHash: string)
    | WorkflowFailed(error: KernelError)

  datatype Workflow = Workflow(
    g: Graph,
    may: (NodeId, Parents, Result<NodeOutput>) -> bool,
    digest: Value -> string
  )

  ghost predicate Deterministic(w: Workflow) {
    forall n, m, r, r' | w.may(n, m, r) && w.may(n, m, r') :: r == r'
  }

  ghost predicate Answered(w: Workflow, n: NodeId, m: Parents) {
    exists r :: w.may(n, m, r)
  }

  /** The `BTreeMap` of all outputs as a JSON object. */
  ghost function AsObject(outputs: map<NodeId, Value>): Value {
    var ks := InOrder(outputs.Keys);
    InOrderOf(outputs.Keys, ks);
    assert forall i | 0 <= i < |ks| :: ks[i] in Elems(ks);
    Obj(seq(|ks|, i requires 0 <= i < |ks| => Entry(ks[i], outputs[ks[i]])))
  }

  /** The inputs of `n`: the outputs of its predecessors that have run. */
  function ParentsOf(g: Graph, n: NodeId, outputs: map<NodeId, Value>): Parents {
    map p | p in Preds(g, n) && p in outputs :: outputs[p]
  }

  predicate EdgeFired(e: Edge, outputs: map<NodeId, Value>) {
    e.from in outputs && Evaluate(e.condition, outputs[e.from])
  }

  ghost function Pending(g: Graph, outputs: map<NodeId, Value>): set<Edge> {
    set e | e in g.edges && !EdgeFired(e, outputs)
  }

  /** The edges that fire when `n` completes with `v`. */
  ghost function FiredBy(g: Graph, n: NodeId, v: Value): set<Edge> {
    set e | e in g.edges && e.from == n && Evaluate(e.condition, v)
  }

  // ----- states

  datatype Completion = Completion(id: NodeId, out: NodeOutput)

  datatype Wave = Wave(started: seq<NodeId>, finished: seq<Completion>)

  datatype Status =
    | Running
    | NodeFailed(id: NodeId, error: KernelError)
    | Unreached
    | Completed(hash: string)

  function ResultOf(s: Status): Result<string>
    requires !s.Running?
  {
    match s
    case NodeFailed(_, err) => Err(err)
    case Unreached => Err(InvalidInput("not all nodes were reached"))
    case Completed(h) => Ok(h)
  }

  /**
   `indeg`, `outputs`, `ready`, `inflight` and `events` are the scheduler's own variables. `waves`
   and `rank` record history: what each wave started and finished, and each node's wave number.
   */
  datatype State = State(
    indeg: map<NodeId, nat>,
    outputs: map<NodeId, Value>,
    ready: seq<NodeId>,
    inflight: map<NodeId, Parents>,
    events: seq<Event>,
    waves: seq<Wave>,
    rank: map<NodeId, nat>,
    status: Status
  )

  ghost predicate Init(w: Workflow, s: State) {
    s.indeg.Keys == w.g.nodes &&
    (forall m | m in w.g.nodes :: s.indeg[m] == Count(w.g.edges, m, Elems(w.g.edges))) &&
    s.ready == InOrder(set m | m in s.indeg && s.indeg[m] == 0) &&
    s.outputs == map[] && s.inflight == map[] && s.events == [WorkflowStarted] &&
    s.waves == [] && s.rank == map[] && s.status == Running
  }

  function Starts(ids: seq<NodeId>): seq<Event> {
    seq(|ids|, i requires 0 <= i < |ids| => NodeStarted(ids[i], 1))
  }

  ghost function WaveStarted(g: Graph, s: State): State {
    s.(inflight := map n | n in s.ready :: ParentsOf(g, n, s.outputs),
       ready := [],
       events := s.events + Starts(s.ready),
       waves := s.waves + [Wave(s.ready, [])],
       rank := Extend(s.rank, s.ready, |s.waves|))
  }

  ghost predicate StartWave(w: Workflow, s: State, s': State) {
    s.status == Running && s.inflight == map[] && s.ready != [] && s' == WaveStarted(w.g, s)
  }

  function LogCompletion(waves: seq<Wave>, c: Completion): seq<Wave> {
    if waves == [] then []
    else
      var k := |waves| - 1;
      waves[..k] + [waves[k].(finished := waves[k].finished + [c])]
  }

  /** Completing `n` takes its firing edges off the counters and readies whatever reaches zero. */
  ghost predicate Released(g: Graph, s: State, d: set<Edge>, indeg: map<NodeId, nat>, added: seq<NodeId>) {
    indeg.Keys == s.indeg.Keys &&
    (forall m | m in indeg :: indeg[m] == s.indeg[m] - Count(g.edges, m, d)) &&
    Distinct(added) && forall m :: m in added <==> Unlocks(g.edges, d, s.indeg, m)
  }

  ghost function NodeDone(w: Workflow, s: State, n: NodeId, out: NodeOutput,
                          indeg: map<NodeId, nat>, added: seq<NodeId>): State {
    s.(indeg := indeg,
       outputs := s.outputs[n := out.value],
       ready := s.ready + added,
       inflight := s.inflight - {n},
       events := s.events + [NodeCompleted(n, HashJson(w.digest, out.value), out.gasUsed)],
       waves := LogCompletion(s.waves, Completion(n, out)))
  }

  ghost predicate Complete(w: Workflow, s: State, n: NodeId, out: NodeOutput,
                           indeg: map<NodeId, nat>, added: seq<NodeId>, s': State) {
    s.status == Running && n in s.inflight && w.may(n, s.inflight[n], Ok(out)) &&
    Released(w.g, s, FiredBy(w.g, n, out.value), indeg, added) &&
    s' == NodeDone(w, s, n, out, indeg, added)
  }

  ghost predicate Fail(w: Workflow, s: State, n: NodeId, err: KernelError, s': State) {
    s.status == Running && n in s.inflight && w.may(n, s.inflight[n], Err(err)) &&
    s' == s.(events := s.events + [WorkflowFailed(err)], status := NodeFailed(n, err))
  }

  ghost function Ended(w: Workflow, s: State): State {
    if |s.outputs| != |w.g.nodes| then s.(status := Unreached)
    else
      var h := HashJson(w.digest, AsObject(s.outputs));
      s.(events := s.events + [WorkflowCompleted(h)], status := Completed(h))
  }

  ghost predicate Finish(w: Workflow, s: State, s': State) {
    s.status == Running && s.inflight == map[] && s.ready == [] && s' == Ended(w, s)
  }

  ghost predicate SomeComplete(w: Workflow, s: State, s': State) {
    exists n, out, indeg, added :: Complete(w, s, n, out, indeg, added, s')
  }

  ghost predicate SomeFail(w: Workflow, s: State, s': State) {
    exists n, err :: Fail(w, s, n, err, s')
  }

  ghost predicate Next(w: Workflow, s: State, s': State) {
    StartWave(w, s, s') || SomeComplete(w, s, s') || SomeFail(w, s, s') || Finish(w, s, s')
  }

  ghost predicate IsRun(w: Workflow, run: seq<State>) {
    |run| > 0 && Init(w, run[0]) && forall i | 0 < i < |run| :: Next(w, run[i - 1], run[i])
  }

  ghost predicate Reachable(w: Workflow, s: State) {
    exists run :: IsRun(w, run) && run[|run| - 1] == s
  }

  lemma ReachableInit(w: Workflow, s: State)
    requires Init(w, s)
    ensures Reachable(w, s)
  {
    assert IsRun(w, [s]);
  }

  lemma ReachableNext(w: Workflow, s: State, s': State)
    requires Reachable(w, s) && Next(w, s, s')
    ensures Reachable(w, s')
  {
    var run :| IsRun(w, run) && run[|run| - 1] == s;
    var run' := run + [s'];
    forall i | 0 < i < |run'| ensures Next(w, run'[i - 1], run'[i]) {
      assert run'[i - 1] == run[i - 1];
      if i < |run| { assert run'[i] == run[i]; }
    }
    assert IsRun(w, run') && run'[|run'| - 1] == s';
  }
}
