/** `Scheduler::run` as the nested loops of the source, shown to be a run of the state machine. */
module SchedulerRun {
  import opened KeyOrder
  import opened Json
  import opened Pointer
  import opened Graphs
  import opened Errors
  import opened NodeIo
  import opened Scheduler
  import opened SchedulerInvariants
  import opened SchedulerTheorems
  import opened SchedulerTrace
  import opened SchedulerEvents

  type Exec = (NodeId, Parents) -> Result<NodeOutput>

  /**
   The workflow whose node calls answer `exec`. Since a run calls each node at most once, `exec`
   can stand for whatever the calls of one run happened to return.
   */
  ghost function WorkflowOf(g: Graph, exec: Exec, digest: Value -> string): Workflow {
    Workflow(g, (n: NodeId, m: Parents, r: Result<NodeOutput>) => r == exec(n, m), digest)
  }

  /** Drain the ready list: one call and one `NodeStarted` event per node. */
  method StartCalls(g: Graph, ready: seq<NodeId>, outputs: map<NodeId, Value>, events0: seq<Event>)
    returns (inflight: map<NodeId, Parents>, events: seq<Event>)
    ensures inflight == map n | n in ready :: ParentsOf(g, n, outputs)
    ensures events == events0 + Starts(ready)
    ensures |events| == |events0| + |ready| && forall i | 0 <= i < |ready| ::
              events[|events0| + i] == NodeStarted(ready[i], 1)
  {
    inflight, events := map[], events0;
    for i := 0 to |ready|
      invariant inflight == map n | n in ready[..i] :: ParentsOf(g, n, outputs)
      invariant events == events0 + Starts(ready[..i])
    {
      assert ready[..i + 1] == ready[..i] + [ready[i]];
      assert Starts(ready[..i + 1]) == Starts(ready[..i]) + [NodeStarted(ready[i], 1)];
      inflight := inflight[ready[i] := ParentsOf(g, ready[i], outputs)];
      events := events + [NodeStarted(ready[i], 1)];
    }
    assert ready[..|ready|] == ready;
  }

  /** The attestation hash of all outputs. */
  method HashOutputs(digest: Value -> string, outputs: map<NodeId, Value>) returns (h: string)
    ensures h == HashJson(digest, AsObject(outputs))
  {
    var ks := KeysInOrder(outputs.Keys);
    InOrderOf(outputs.Keys, ks);
    assert forall i | 0 <= i < |ks| :: ks[i] in Elems(ks);
    var v := Obj(seq(|ks|, i requires 0 <= i < |ks| => Entry(ks[i], outputs[ks[i]])));
    assert v == AsObject(outputs);
    var c := Canonicalize(v);
    h := digest(c);
  }

  /** A call came back with `out`: record it and unlock the children whose edges fire. */
  method NodeReturned(g: Graph, ghost w: Workflow, ghost s: State, nid: NodeId, out: NodeOutput,
                      indeg0: map<NodeId, nat>, ready0: seq<NodeId>)
    returns (indeg: map<NodeId, nat>, ready: seq<NodeId>, ghost s': State)
    requires w.g == g && TargetsKnown(g) && Reachable(w, s) && s.status == Running
    requires nid in s.inflight && w.may(nid, s.inflight[nid], Ok(out))
    requires indeg0 == s.indeg && ready0 == s.ready
    ensures Reachable(w, s') && Measure(g, s') < Measure(g, s)
    ensures indeg.Keys == indeg0.Keys && ready0 <= ready
    ensures forall m | m in indeg0 :: indeg[m] == indeg0[m] - Count(g.edges, m, FiredBy(g, nid, out.value))
    ensures exists added :: ready == ready0 + added && s' == NodeDone(w, s, nid, out, indeg, added)
  {
    var fires := (e: Edge) => e.from == nid && Evaluate(e.condition, out.value);
    assert Fired(g.edges, fires) == FiredBy(g, nid, out.value);
    CanComplete(w, s, nid, out);
    CountersAreUnfiredEdges(w, s);
    ghost var added;
    indeg, ready, added := FireEdges(g.edges, fires, indeg0, ready0);
    s' := NodeDone(w, s, nid, out, indeg, added);
    assert Complete(w, s, nid, out, indeg, added, s');
    assert SomeComplete(w, s, s');
    ReachableNext(w, s, s');
    CompleteDecreases(w, s, nid, out, indeg, added, s');
  }

  /** The variables of `run` are those of the machine's state. */
  ghost predicate Tracks(s: State, indeg: map<NodeId, nat>, outputs: map<NodeId, Value>, ready: seq<NodeId>,
                         inflight: map<NodeId, Parents>, events: seq<Event>) {
    s.indeg == indeg && s.outputs == outputs && s.ready == ready && s.inflight == inflight &&
    s.events == events && s.status == Running
  }

  /** The in-degree table and the first ready list. */
  method Begin(g: Graph, ghost w: Workflow)
    returns (indeg: map<NodeId, nat>, ready: seq<NodeId>, events: seq<Event>, ghost s: State)
    requires w.g == g && TargetsKnown(g)
    ensures Reachable(w, s) && Tracks(s, indeg, map[], ready, map[], events)
  {
    events := [WorkflowStarted];
    indeg := InDegrees(g.nodes, g.edges);
    ready := KeysInOrder(set m | m in indeg && indeg[m] == 0);
    s := State(indeg, map[], ready, map[], events, [], map[], Running);
    ReachableInit(w, s);
  }

  /** One wave: start everything that is ready, then take the answers as they come. */
  method RunWave(g: Graph, exec: Exec, digest: Value -> string, ghost s0: State, indeg0: map<NodeId, nat>,
                 outputs0: map<NodeId, Value>, ready0: seq<NodeId>, events0: seq<Event>)
    returns (indeg: map<NodeId, nat>, outputs: map<NodeId, Value>, ready: seq<NodeId>, events: seq<Event>,
             failed: Option<KernelError>, ghost s: State)
    requires TargetsKnown(g) && Reachable(WorkflowOf(g, exec, digest), s0) && ready0 != []
    requires Tracks(s0, indeg0, outputs0, ready0, map[], events0)
    ensures Reachable(WorkflowOf(g, exec, digest), s) && Measure(g, s) < Measure(g, s0)
    ensures failed.None? ==> Tracks(s, indeg, outputs, ready, map[], events)
    ensures failed.Some? ==> s.status.NodeFailed? && s.status.error == failed.value && s.events == events
  {
    ghost var w := WorkflowOf(g, exec, digest);
    var inflight;
    inflight, events := StartCalls(g, ready0, outputs0, events0);
    StartStep(w, s0);
    s := WaveStarted(g, s0);
    indeg, outputs, ready, failed := indeg0, outputs0, [], None;
    while inflight != map[]
      invariant Reachable(w, s) && Tracks(s, indeg, outputs, ready, inflight, events)
      invariant Measure(g, s) < Measure(g, s0)
      decreases Measure(g, s)
    {
      var nid :| nid in inflight;
      var r := exec(nid, inflight[nid]);
      match r {
        case Ok(out) =>
          indeg, ready, s := NodeReturned(g, w, s, nid, out, indeg, ready);
          var c := Canonicalize(out.value);
          events := events + [NodeCompleted(nid, digest(c), out.gasUsed)];
          outputs := outputs[nid := out.value];
          inflight := inflight - {nid};
        case Err(err) =>
          FailStep(w, s, nid, err);
          events := events + [WorkflowFailed(err)];
          failed := Some(err);
          s := s.(events := s.events + [WorkflowFailed(err)], status := NodeFailed(nid, err));
          return;
      }
    }
  }

  /** `outputs` holds exactly the values that the workflow means, node by node. */
  ghost predicate Solves(w: Workflow, outputs: map<NodeId, Value>) {
    forall n, v :: n in outputs && outputs[n] == v <==> Means(w, n, v)
  }

  /** What is returned for given outputs: their hash, or the complaint that some node is missing. */
  ghost function Verdict(w: Workflow, outputs: map<NodeId, Value>): Result<string> {
    if outputs.Keys == w.g.nodes then Ok(HashJson(w.digest, AsObject(outputs)))
    else Err(InvalidInput("not all nodes were reached"))
  }

  ghost predicate SolvedWith(w: Workflow, res: Result<string>) {
    exists outputs :: Solves(w, outputs) && res == Verdict(w, outputs)
  }

  ghost predicate SawFailure(events: seq<Event>, res: Result<string>) {
    events != [] && res.Err? && events[|events| - 1] == WorkflowFailed(res.error)
  }

  /** The events are a trace that some run of the machine emits before returning `res`. */
  ghost predicate IsOutcome(w: Workflow, res: Result<string>, events: seq<Event>) {
    exists s :: Reachable(w, s) && s.status != Running && res == ResultOf(s.status) && events == s.events
  }

  lemma OutcomeIsMeaning(w: Workflow, s: State)
    requires Deterministic(w) && Reachable(w, s) && s.status != Running
    ensures SawFailure(s.events, ResultOf(s.status)) <==> Doomed(w)
    ensures !Doomed(w) ==> SolvedWith(w, ResultOf(s.status))
  {
    FailsIffDoomed(w, s);
    LastEvent(w, s);
    if !s.status.NodeFailed? {
      forall n, v ensures n in s.outputs && s.outputs[n] == v <==> Means(w, n, v) {
        OutputsAreMeaning(w, s, n, v);
      }
      VerdictOfRun(w, s);
      assert Solves(w, s.outputs);
    }
  }

  lemma LastEvent(w: Workflow, s: State)
    requires Reachable(w, s) && s.status != Running
    ensures SawFailure(s.events, ResultOf(s.status)) <==> s.status.NodeFailed?
  {
    TraceReachable(w, s);
    assert s.events != [];
    TerminalEvents(w, s, |s.events| - 1);
  }

  lemma VerdictOfRun(w: Workflow, s: State)
    requires Reachable(w, s) && s.status != Running && !s.status.NodeFailed?
    ensures ResultOf(s.status) == Verdict(w, s.outputs)
  {
    CoreReachable(w, s);
    if s.status.Completed? {
      AllNodesDone(w, s);
    }
  }

  /**
   `Scheduler::run`: result and events are those of a run of the state machine. So it ends with a
   failure event exactly when some node errs on what the workflow gives it, and otherwise returns the
   verdict on the outputs that the workflow means, whatever the order in which its calls completed.
   The events announce each start and each completion once.
   */
  method Run(g: Graph, exec: Exec, digest: Value -> string)
    returns (res: Result<string>, events: seq<Event>, ghost s: State)
    requires TargetsKnown(g)
    ensures IsOutcome(WorkflowOf(g, exec, digest), res, events)
    ensures SawFailure(events, res) <==> Doomed(WorkflowOf(g, exec, digest))
    ensures !Doomed(WorkflowOf(g, exec, digest)) ==> SolvedWith(WorkflowOf(g, exec, digest), res)
    ensures Reachable(WorkflowOf(g, exec, digest), s) && s.status != Running
    ensures res == ResultOf(s.status) && events == s.events && Announced(WorkflowOf(g, exec, digest), s)
  {
    ghost var w := WorkflowOf(g, exec, digest);
    res, events, s := RunWaves(g, exec, digest);
    OutcomeIsMeaning(w, s);
    EachAnnouncedOnce(w, s);
  }

  method RunWaves(g: Graph, exec: Exec, digest: Value -> string)
    returns (res: Result<string>, events: seq<Event>, ghost s: State)
    requires TargetsKnown(g)
    ensures Reachable(WorkflowOf(g, exec, digest), s) && s.status != Running
    ensures res == ResultOf(s.status) && events == s.events
  {
    ghost var w := WorkflowOf(g, exec, digest);
    var indeg, ready, outputs := map[], [], map[];
    indeg, ready, events, s := Begin(g, w);
    while ready != []
      invariant Reachable(w, s) && Tracks(s, indeg, outputs, ready, map[], events)
      decreases Measure(g, s)
    {
      var failed;
      indeg, outputs, ready, events, failed, s := RunWave(g, exec, digest, s, indeg, outputs, ready, events);
      if failed.Some? {
        return Err(failed.value), events, s;
      }
    }
    FinishStep(w, s);
    s := Ended(w, s);
    if |outputs| != |g.nodes| {
      return Err(InvalidInput("not all nodes were reached")), events, s;
    }
    var hash := HashOutputs(digest, outputs);
    events := events + [WorkflowCompleted(hash)];
    res := Ok(hash);
  }

  lemma StartStep(w: Workflow, s: State)
    requires Reachable(w, s) && s.status == Running && s.inflight == map[] && s.ready != []
    ensures Reachable(w, WaveStarted(w.g, s))
    ensures Measure(w.g, WaveStarted(w.g, s)) < Measure(w.g, s)
  {
    var s' := WaveStarted(w.g, s);
    assert StartWave(w, s, s');
    ReachableNext(w, s, s');
    CoreReachable(w, s);
    NextDecreases(w, s, s');
  }

  lemma FailStep(w: Workflow, s: State, n: NodeId, err: KernelError)
    requires Reachable(w, s) && s.status == Running && n in s.inflight && w.may(n, s.inflight[n], Err(err))
    ensures var s' := s.(events := s.events + [WorkflowFailed(err)], status := NodeFailed(n, err));
            Reachable(w, s') && Measure(w.g, s') < Measure(w.g, s)
  {
    var s' := s.(events := s.events + [WorkflowFailed(err)], status := NodeFailed(n, err));
    CoreReachable(w, s);
    assert Fail(w, s, n, err, s');
    assert SomeFail(w, s, s');
    NextDecreases(w, s, s');
    ReachableNext(w, s, s');
  }

  lemma FinishStep(w: Workflow, s: State)
    requires Reachable(w, s) && s.status == Running && s.inflight == map[] && s.ready == []
    ensures Reachable(w, Ended(w, s)) && Ended(w, s).status != Running
  {
    assert Finish(w, s, Ended(w, s));
    ReachableNext(w, s, Ended(w, s));
  }

  /**
   Two executions of the same workflow on nodes that are fixed functions return the same attestation
   hash or the same unreached-nodes error, or both end with a failure event.
   */
  lemma RunsAgree(w: Workflow, res: Result<string>, events: seq<Event>, res': Result<string>, events': seq<Event>)
    requires Deterministic(w) && IsOutcome(w, res, events) && IsOutcome(w, res', events')
    ensures SawFailure(events, res) <==> SawFailure(events', res')
    ensures !SawFailure(events, res) ==> res == res'
  {
    var s :| Reachable(w, s) && s.status != Running && res == ResultOf(s.status) && events == s.events;
    var t :| Reachable(w, t) && t.status != Running && res' == ResultOf(t.status) && events' == t.events;
    Confluence(w, s, t);
    LastEvent(w, s);
    LastEvent(w, t);
  }
}
