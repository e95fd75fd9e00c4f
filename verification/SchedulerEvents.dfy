/** Each start and each completion is announced once, and says what happened. */
module SchedulerEvents {
  import opened KeyOrder
  import opened Json
  import opened Graphs
  import opened Errors
  import opened NodeIo
  import opened Scheduler
  import opened SchedulerInvariants
  import opened SchedulerTheorems
  import opened SchedulerTrace

  /** One start event, of attempt one, for every node that was started, and none for the others. */
  ghost predicate StartsAnnounced(s: State) {
    (forall n :: multiset(s.events)[NodeStarted(n, 1)] == if Started(s, n) then 1 else 0) &&
    forall e | e in s.events && e.NodeStarted? :: e.attempt == 1
  }

  /** Node `n` answered `out` on its predecessors' outputs, and the one completion event for it says so. */
  ghost predicate ReportedAs(w: Workflow, s: State, n: NodeId, out: NodeOutput) {
    n in s.outputs && s.outputs[n] == out.value && w.may(n, ParentsOf(w.g, n, s.outputs), Ok(out)) &&
    var report := NodeCompleted(n, w.digest(Canon(out.value)), out.gasUsed);
    multiset(s.events)[report] == 1 &&
    forall e | e in s.events && e.NodeCompleted? && e.id == n :: e == report
  }

  ghost predicate Reported(w: Workflow, s: State, n: NodeId) {
    exists out :: ReportedAs(w, s, n, out)
  }

  /** One completion event for every output, and none for other nodes. */
  ghost predicate CompletionsAnnounced(w: Workflow, s: State) {
    (forall n | n in s.outputs :: Reported(w, s, n)) &&
    forall e | e in s.events && e.NodeCompleted? :: e.id in s.outputs
  }

  ghost predicate Announced(w: Workflow, s: State) {
    StartsAnnounced(s) && CompletionsAnnounced(w, s)
  }

  lemma {:induction false} StartsCount(ids: seq<NodeId>, n: NodeId)
    requires forall i, j | 0 <= i < j < |ids| :: ids[i] != ids[j]
    ensures multiset(Starts(ids))[NodeStarted(n, 1)] == if n in ids then 1 else 0
  {
    if ids != [] {
      var k := |ids| - 1;
      StartsCount(ids[..k], n);
      assert Starts(ids) == Starts(ids[..k]) + [NodeStarted(ids[k], 1)];
      assert ids == ids[..k] + [ids[k]];
    }
  }

  lemma AppendCount(events: seq<Event>, more: seq<Event>, e: Event)
    ensures multiset(events + more)[e] == multiset(events)[e] + multiset(more)[e]
    ensures e !in more ==> multiset(events + more)[e] == multiset(events)[e]
  {
    assert e in more <==> e in multiset(more);
  }

  /** Outputs that stay and events that concern other nodes keep the report of `n`. */
  lemma ReportKept(w: Workflow, s: State, s': State, more: seq<Event>, n: NodeId)
    requires Reported(w, s, n) && s'.events == s.events + more
    requires n in s'.outputs && s'.outputs[n] == s.outputs[n]
    requires ParentsOf(w.g, n, s'.outputs) == ParentsOf(w.g, n, s.outputs)
    requires forall e | e in more && e.NodeCompleted? :: e.id != n
    ensures Reported(w, s', n)
  {
    var out :| ReportedAs(w, s, n, out);
    AppendCount(s.events, more, NodeCompleted(n, w.digest(Canon(out.value)), out.gasUsed));
    assert ReportedAs(w, s', n, out);
  }

  lemma QuietCompletions(w: Workflow, s: State, s': State, more: seq<Event>)
    requires CompletionsAnnounced(w, s) && s'.events == s.events + more && s'.outputs == s.outputs
    requires forall e | e in more :: !e.NodeCompleted?
    ensures CompletionsAnnounced(w, s')
  {
    forall n | n in s'.outputs ensures Reported(w, s', n) {
      ReportKept(w, s, s', more, n);
    }
  }

  lemma QuietStarts(s: State, s': State, more: seq<Event>)
    requires StartsAnnounced(s) && s'.events == s.events + more && forall n :: Started(s', n) <==> Started(s, n)
    requires forall e | e in more :: !e.NodeStarted?
    ensures StartsAnnounced(s')
  {
    forall n ensures multiset(s'.events)[NodeStarted(n, 1)] == if Started(s', n) then 1 else 0 {
      AppendCount(s.events, more, NodeStarted(n, 1));
    }
  }

  lemma StartAnnounces(w: Workflow, s: State, s': State)
    requires Announced(w, s) && Frontier(w.g, s) && StartWave(w, s, s')
    ensures Announced(w, s')
  {
    QuietCompletions(w, s, s', Starts(s.ready));
    forall n ensures multiset(s'.events)[NodeStarted(n, 1)] == if Started(s', n) then 1 else 0 {
      AppendCount(s.events, Starts(s.ready), NodeStarted(n, 1));
      StartsCount(s.ready, n);
      assert Started(s', n) <==> Started(s, n) || n in s.ready;
    }
  }

  lemma OwnReport(w: Workflow, s: State, n: NodeId, out: NodeOutput,
                  indeg: map<NodeId, nat>, added: seq<NodeId>, s': State)
    requires CompletionsAnnounced(w, s) && Complete(w, s, n, out, indeg, added, s') && n !in s.outputs
    requires ParentsOf(w.g, n, s'.outputs) == s.inflight[n]
    ensures Reported(w, s', n)
  {
    var report := NodeCompleted(n, w.digest(Canon(out.value)), out.gasUsed);
    assert s'.events == s.events + [report];
    AppendCount(s.events, [report], report);
    assert report !in s.events;
    assert multiset(s.events)[report] == 0;
    assert ReportedAs(w, s', n, out);
  }

  lemma CompleteAnnounces(w: Workflow, s: State, n: NodeId, out: NodeOutput,
                          indeg: map<NodeId, nat>, added: seq<NodeId>, s': State)
    requires CountersExact(w.g, s) && Frontier(w.g, s) && Announced(w, s)
    requires Complete(w, s, n, out, indeg, added, s')
    ensures Announced(w, s')
  {
    QuietStarts(s, s', [NodeCompleted(n, HashJson(w.digest, out.value), out.gasUsed)]);
    CompletionReported(w, s, n, out, indeg, added, s');
  }

  lemma CompletionReported(w: Workflow, s: State, n: NodeId, out: NodeOutput,
                           indeg: map<NodeId, nat>, added: seq<NodeId>, s': State)
    requires CountersExact(w.g, s) && Frontier(w.g, s) && CompletionsAnnounced(w, s)
    requires Complete(w, s, n, out, indeg, added, s')
    ensures CompletionsAnnounced(w, s')
  {
    var report := NodeCompleted(n, HashJson(w.digest, out.value), out.gasUsed);
    forall x | x in s'.outputs ensures Reported(w, s', x) {
      ParentsStay(w, s, n, out.value, x);
      if x == n {
        OwnReport(w, s, n, out, indeg, added, s');
      } else {
        ReportKept(w, s, s', [report], x);
      }
    }
  }

  /** A completion does not change the input of a node that has already been started. */
  lemma ParentsStay(w: Workflow, s: State, n: NodeId, v: Value, x: NodeId)
    requires CountersExact(w.g, s) && n !in s.outputs && Started(s, x) && x in w.g.nodes
    ensures ParentsOf(w.g, x, s.outputs[n := v]) == ParentsOf(w.g, x, s.outputs)
  {
    UnlockedMeansFired(w.g, s, x);
  }

  lemma EndAnnounces(w: Workflow, s: State, st: Status)
    requires Announced(w, s)
    ensures Announced(w, s.(events := s.events + FinalEvents(st), status := st))
  {
    var s' := s.(events := s.events + FinalEvents(st), status := st);
    assert forall n :: Started(s', n) <==> Started(s, n);
    QuietStarts(s, s', FinalEvents(st));
    QuietCompletions(w, s, s', FinalEvents(st));
  }

  lemma NextAnnounces(w: Workflow, s: State, s': State)
    requires CountersExact(w.g, s) && Frontier(w.g, s) && Announced(w, s) && Next(w, s, s')
    ensures Announced(w, s')
  {
    if StartWave(w, s, s') {
      StartAnnounces(w, s, s');
    } else if n, out, indeg, added :| Complete(w, s, n, out, indeg, added, s') {
      CompleteAnnounces(w, s, n, out, indeg, added, s');
    } else {
      EndSteps(w, s, s');
      EndAnnounces(w, s, s'.status);
    }
  }

  lemma {:induction false} RunAnnounces(w: Workflow, run: seq<State>)
    requires IsRun(w, run)
    ensures Announced(w, run[|run| - 1])
  {
    var k := |run| - 1;
    if k > 0 {
      assert IsRun(w, run[..k]);
      RunAnnounces(w, run[..k]);
      InvRun(w, run[..k]);
      NextAnnounces(w, run[k - 1], run[k]);
    }
  }

  /**
   In every reachable state the trace has exactly one start event for each node that has been
   started, all of attempt one, and exactly one completion event for each output, with the digest of
   its canonical form and the gas that the node's answer reported; and none for any other node.
   */
  lemma EachAnnouncedOnce(w: Workflow, s: State)
    requires Reachable(w, s)
    ensures Announced(w, s)
  {
    var run :| IsRun(w, run) && run[|run| - 1] == s;
    RunAnnounces(w, run);
  }

  // ----- the same events in whatever order the calls complete

  /** How often the trace has the event `e`, in terms of what has happened. */
  ghost function Occurrences(w: Workflow, s: State, e: Event): nat {
    match e
    case WorkflowStarted => 1
    case NodeStarted(n, attempt) => if attempt == 1 && Started(s, n) then 1 else 0
    case NodeCompleted(n, h, gas) => if AnswersAs(w, s, n, h, gas) then 1 else 0
    case WorkflowCompleted(h) => if s.status == Completed(h) then 1 else 0
    case WorkflowFailed(err) => if s.status.NodeFailed? && s.status.error == err then 1 else 0
  }

  ghost predicate AnswersAs(w: Workflow, s: State, n: NodeId, h: string, gas: nat) {
    n in s.outputs && h == w.digest(Canon(s.outputs[n])) &&
    w.may(n, ParentsOf(w.g, n, s.outputs), Ok(NodeOutput(s.outputs[n], gas)))
  }

  lemma CompletionOccurs(w: Workflow, s: State, n: NodeId, h: string, gas: nat)
    requires Deterministic(w) && CompletionsAnnounced(w, s)
    ensures multiset(s.events)[NodeCompleted(n, h, gas)] == Occurrences(w, s, NodeCompleted(n, h, gas))
  {
    var e := NodeCompleted(n, h, gas);
    assert e in s.events <==> e in multiset(s.events);
    if n in s.outputs {
      assert Reported(w, s, n);
      var out :| ReportedAs(w, s, n, out);
      assert out == NodeOutput(s.outputs[n], out.gasUsed);
      if AnswersAs(w, s, n, h, gas) {
        assert Ok(out) == Ok(NodeOutput(s.outputs[n], gas));
      }
    }
  }

  lemma TerminalOccurs(w: Workflow, s: State, e: Event)
    requires EventsRendered(w, s) && !e.NodeStarted? && !e.NodeCompleted?
    ensures multiset(s.events)[e] == Occurrences(w, s, e)
  {
    var body := Render(w.digest, s.waves);
    RenderKinds(w.digest, s.waves);
    AppendCount([WorkflowStarted] + body, FinalEvents(s.status), e);
    AppendCount([WorkflowStarted], body, e);
    FinalOccurs(w, s, e);
  }

  lemma FinalOccurs(w: Workflow, s: State, e: Event)
    requires !e.NodeStarted? && !e.NodeCompleted?
    ensures multiset([WorkflowStarted])[e] + multiset(FinalEvents(s.status))[e] == Occurrences(w, s, e)
  {
  }

  lemma EventOccurs(w: Workflow, s: State, e: Event)
    requires Deterministic(w) && Reachable(w, s)
    ensures multiset(s.events)[e] == Occurrences(w, s, e)
  {
    EachAnnouncedOnce(w, s);
    EventsReachable(w, s);
    match e {
      case NodeStarted(n, attempt) =>
        assert e in s.events <==> e in multiset(s.events);
      case NodeCompleted(n, h, gas) => CompletionOccurs(w, s, n, h, gas);
      case _ => TerminalOccurs(w, s, e);
    }
  }

  /**
   Two runs without node errors, on nodes that are fixed functions, emit the same events, each as
   often as the other, in whatever order their calls complete.
   */
  lemma TracesAgree(w: Workflow, s: State, t: State)
    requires Deterministic(w) && Reachable(w, s) && Reachable(w, t)
    requires s.status != Running && t.status != Running && !s.status.NodeFailed?
    ensures multiset(s.events) == multiset(t.events)
  {
    Confluence(w, s, t);
    RanksReachable(w, s);
    RanksReachable(w, t);
    forall e ensures multiset(s.events)[e] == multiset(t.events)[e] {
      EventOccurs(w, s, e);
      EventOccurs(w, t, e);
    }
  }

  // ----- and in the order of the waves

  ghost function Length(waves: seq<Wave>): nat {
    if waves == [] then 0
    else
      var last := waves[|waves| - 1];
      Length(waves[..|waves| - 1]) + |last.started| + |last.finished|
  }

  /** From position `p` on the trace announces the wave: its starts in order, then its completions in order. */
  ghost predicate WaveAt(digest: Value -> string, events: seq<Event>, p: nat, wave: Wave) {
    var q := p + |wave.started|;
    q + |wave.finished| <= |events| &&
    (forall i | 0 <= i < |wave.started| :: events[p + i] == NodeStarted(wave.started[i], 1)) &&
    forall i | 0 <= i < |wave.finished| ::
      events[q + i] ==
      NodeCompleted(wave.finished[i].id, digest(Canon(wave.finished[i].out.value)), wave.finished[i].out.gasUsed)
  }

  lemma {:induction false} RenderLength(digest: Value -> string, waves: seq<Wave>)
    ensures |Render(digest, waves)| == Length(waves)
  {
    if waves != [] {
      RenderLength(digest, waves[..|waves| - 1]);
    }
  }

  lemma WaveExtends(digest: Value -> string, events: seq<Event>, p: nat, wave: Wave, more: seq<Event>)
    requires WaveAt(digest, events, p, wave)
    ensures WaveAt(digest, events + more, p, wave)
  {
  }

  lemma WaveAtEnd(digest: Value -> string, events: seq<Event>, wave: Wave)
    ensures WaveAt(digest, events + RenderWave(digest, wave), |events|, wave)
  {
    var starts, ends := Starts(wave.started), Finished(digest, wave.finished);
    var all, q := events + (starts + ends), |events| + |starts|;
    forall i | 0 <= i < |starts| ensures all[|events| + i] == starts[i] {
    }
    forall i | 0 <= i < |ends| ensures all[q + i] == ends[i] {
    }
  }

  lemma {:induction false} RenderLayout(digest: Value -> string, waves: seq<Wave>, k: nat)
    requires k < |waves|
    ensures WaveAt(digest, Render(digest, waves), Length(waves[..k]), waves[k])
  {
    var j := |waves| - 1;
    RenderLength(digest, waves[..j]);
    if k < j {
      assert waves[..j][..k] == waves[..k];
      RenderLayout(digest, waves[..j], k);
      WaveExtends(digest, Render(digest, waves[..j]), Length(waves[..k]), waves[k], RenderWave(digest, waves[j]));
    } else {
      WaveAtEnd(digest, Render(digest, waves[..j]), waves[j]);
    }
  }

  /**
   The trace is the start event, the waves one after the other, and the terminal event if there is
   one: this is where wave `k` stands.
   */
  lemma TraceLayout(w: Workflow, s: State, k: nat)
    requires Reachable(w, s)
    ensures s.events != [] && s.events[0] == WorkflowStarted
    ensures |s.events| == 1 + Length(s.waves) + if s.status.Completed? || s.status.NodeFailed? then 1 else 0
    ensures k < |s.waves| ==> WaveAt(w.digest, s.events, 1 + Length(s.waves[..k]), s.waves[k])
  {
    EventsReachable(w, s);
    LayoutLength(w, s);
    if k < |s.waves| {
      LayoutAt(w, s, k);
    }
  }

  lemma EventsReachable(w: Workflow, s: State)
    requires Reachable(w, s)
    ensures EventsRendered(w, s)
  {
    TraceReachable(w, s);
  }

  lemma LayoutLength(w: Workflow, s: State)
    requires EventsRendered(w, s)
    ensures s.events != [] && s.events[0] == WorkflowStarted
    ensures |s.events| == 1 + Length(s.waves) + if s.status.Completed? || s.status.NodeFailed? then 1 else 0
  {
    RenderLength(w.digest, s.waves);
  }

  lemma LayoutAt(w: Workflow, s: State, k: nat)
    requires EventsRendered(w, s) && k < |s.waves|
    ensures WaveAt(w.digest, s.events, 1 + Length(s.waves[..k]), s.waves[k])
  {
    RenderLayout(w.digest, s.waves, k);
    WaveShifted(w.digest, Render(w.digest, s.waves), Length(s.waves[..k]), s.waves[k], FinalEvents(s.status));
  }

  lemma WaveShifted(digest: Value -> string, body: seq<Event>, p: nat, wave: Wave, tail: seq<Event>)
    requires WaveAt(digest, body, p, wave)
    ensures WaveAt(digest, [WorkflowStarted] + body + tail, 1 + p, wave)
  {
    var events := [WorkflowStarted] + body + tail;
    forall i | 0 <= i < |body| ensures events[1 + i] == body[i] {
    }
  }

  // ----- the first wave

  ghost predicate FirstInOrder(s: State) {
    if s.waves == [] then s.inflight == map[] && Ascending(s.ready) else Ascending(s.waves[0].started)
  }

  lemma FirstStays(w: Workflow, s: State, s': State)
    requires FirstInOrder(s) && Next(w, s, s')
    ensures FirstInOrder(s')
  {
    if StartWave(w, s, s') {
      assert s'.waves[0] == if s.waves == [] then Wave(s.ready, []) else s.waves[0];
    } else if n, out, indeg, added :| Complete(w, s, n, out, indeg, added, s') {
      assert s.waves != [] && s'.waves[0].started == s.waves[0].started;
    } else {
      EndSteps(w, s, s');
    }
  }

  lemma {:induction false} FirstInRun(w: Workflow, run: seq<State>)
    requires IsRun(w, run)
    ensures FirstInOrder(run[|run| - 1])
  {
    var k := |run| - 1;
    if k == 0 {
      InOrderOf((set m | m in run[0].indeg && run[0].indeg[m] == 0), run[0].ready);
    } else {
      assert IsRun(w, run[..k]);
      FirstInRun(w, run[..k]);
      FirstStays(w, run[k - 1], run[k]);
    }
  }

  /** The first wave starts the sources in key order. */
  lemma FirstWaveInKeyOrder(w: Workflow, s: State)
    requires Reachable(w, s) && s.waves != []
    ensures Ascending(s.waves[0].started)
  {
    var run :| IsRun(w, run) && run[|run| - 1] == s;
    FirstInRun(w, run);
  }
}
