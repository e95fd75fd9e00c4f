# KernelFlow in Dafny

A Dafny model of KernelFlow's workflow engine and operator matchmaker, with proofs of what they
guarantee over every run. `dafny verify dfyconfig.toml` checks everything.

What is modelled, one module per component:

| module | component |
|---|---|
| `KeyOrder`, `Errors`, `Machine` | `BTreeMap` iteration order, error variants, fixed-width integers |
| `Json`, `Pointer` | JSON values, canonical form and hash, JSON pointers (section 4 of RFC 6901), edge conditions |
| `Graphs`, `TopoSort`, `DagBuilder` | edge-list graphs, Kahn's algorithm, the builder |
| `NodeIo`, `Scheduler`, `SchedulerInvariants`, `SchedulerTheorems`, `SchedulerTrace`, `SchedulerEvents` | what nodes take and return; the wave scheduler as a state machine and its theorems; its trace, event by event |
| `SchedulerRun`, `Attestation` | the scheduler's nested loops as a run of that machine; what its hash means |
| `Breaker`, `Resilience` | circuit breaker, retry loop and executor |
| `SharedBreaker`, `SharedHistory`, `SharedOutcome`, `SharedProgress` | the scheduler and its node calls, each running the retry loop on one shared breaker; what the breaker is told and when it refuses; what that does to the outcome of whole runs, and why they end |
| `Operators`, `Matchmaker` | operator registry, leases, reputation, selection |
| `Sorting`, `Nodes`, `Pipeline` | the in-place sort, median and threshold nodes, and the price-alert workflow end to end |

The scheduler's state machine lets the calls of a wave complete in any order and answer anything
that a relation `may` allows, so it covers nodes whose answers depend on time or network;
`Deterministic` singles out nodes that are fixed functions of their input. A run calls each node at
most once, so one function of (id, parents) describes the answers of any single run; that is what the
imperative `Run` takes. In `SharedBreaker` the answers are no longer given: a function says what each
attempt of a node on an input answers, and every call goes through rate limiter, breaker and retry
loop, step by step and interleaved with the others.

Edges are a list: parallel edges and self-loops are allowed everywhere. The scheduler theorems do not
assume that the graph was built: cyclic graphs and unknown edge sources are covered. An unknown edge
*target* makes the in-degree loop panic, so `Run` requires known targets.

Concurrency is interleaving of atomic steps: the registry and the breaker are each behind one lock.
Clocks, the rate limiter's answer, the random tie-break and the answers of nodes are parameters or
arbitrary choices. Floating point is `real`; durations and time are naturals.

Where code and documentation disagree the model follows the code. The rate limiter and breaker belong
to the executor of a whole run, not to a node. `Reservation` is described as released on drop, but
nothing implements that: releases are explicit, and conservation needs them to match
(`UnmatchedReleaseIff`); `LateReleaseDoubleBooks` is a history in which one lease is promised twice, and
`DoubleBooksIff` says which unmatched releases allow that. Deregistering an operator forgets its
counters but kills no task by itself. `topo_sort` promises to detect cycles, and does so for graphs whose
references are valid; an unknown target can make it accept a cyclic one (`UnknownTargetHidesCycle`), and
`Sort` and `AcceptsIff` give the exact condition under which it accepts. The retry delays are described
as capped by `max_backoff`, but the first one is not (`FirstDelayAboveCap`); `CapConfiguredIff` says
which configurations keep all of them within it, and `CapRespectedIff` which calls do.

## Model

| member | source | states |
|---|---|---|
| KeyOrder.AscendingUnique | crates/kernelflow-core/src/hash.rs:22-27 | a key sequence in `BTreeMap` order is determined by its key set |
| KeyOrder.LessIffSmaller | crates/kernelflow-core/src/hash.rs:22-27 | keys are ordered by the first character in which they differ, a prefix coming first |
| KeyOrder.KeysInOrder | crates/kernelflow-core/src/dag.rs:62-66 | iterating a `BTreeMap` yields the one ascending sequence of its keys, however they were inserted |
| Json.Canonicalize | crates/kernelflow-core/src/hash.rs:18-32 | the recursive method with its insertion loop computes the canonical form, last insertion of a key winning |
| Json.CanonObject | crates/kernelflow-core/src/hash.rs:21-28 | canonicalising an object gives ascending keys, canonical values, and loses or invents no field |
| Json.CanonIdempotent | crates/kernelflow-core/src/hash.rs:18-32 | canonical forms are fixed points |
| Json.CanonIffEquiv | crates/kernelflow-core/src/hash.rs:18-32 | two values have the same canonical form if and only if they are equal up to key order at every depth |
| Json.EquivFields | crates/kernelflow-core/src/dag.rs:25-32 | objects are equal if and only if they have equal values, or none, under every key |
| Json.HashIdentifies | crates/kernelflow-core/src/hash.rs:6-16 | values equal up to key order hash alike under any digest; equal hashes mean such values, unless the digests of these two clash |
| Pointer.RenderReadsBack | crates/kernelflow-core/src/dag.rs:18-22 | escaping, joining, splitting and unescaping a pointer gives back its tokens |
| Pointer.StandardEscapes | crates/kernelflow-core/src/dag.rs:18-22 | `/a~1b` finds the field `a/b`, and `/m~0n` the field `m~n` |
| Pointer.LookupRoot | crates/kernelflow-core/src/dag.rs:25-32 | the empty pointer is the whole value; any other pointer without a leading slash finds nothing |
| Pointer.LookupConcat | crates/kernelflow-core/src/dag.rs:25-32 | following the concatenation of two pointers is following the second from where the first leads |
| Pointer.LookupField | crates/kernelflow-core/src/dag.rs:25-32 | one token finds the field of that name in an object, and nothing in a scalar |
| Pointer.NestedIsFound | crates/kernelflow-core/src/dag.rs:25-32 | a value at the end of a field path of any depth is found by the pointer of that path |
| Pointer.ElementPointer | crates/kernelflow-core/src/dag.rs:25-32 | a pointer whose token is the decimal form of n finds element n of an array |
| Pointer.ElementIff | crates/kernelflow-core/src/dag.rs:25-32 | a token finds an array element if and only if it is the decimal form of its index: no sign, no leading zero |
| Pointer.WalkOfCanon | crates/kernelflow-core/src/dag.rs:25-32 | what a token list leads to in a canonical form is the canonical form of what it leads to (`LookupConcat` and `LookupField` say where it leads) |
| Pointer.EvaluateOnCanon | crates/kernelflow-core/src/dag.rs:25-32 | a condition fires on a value exactly when it fires on the form that is hashed |
| Pointer.EvaluateUpToKeyOrder | crates/kernelflow-core/src/dag.rs:25-32 | outputs equal up to key order fire the same edges |
| Pointer.FieldCondition | crates/kernelflow-core/src/dag.rs:25-32 | an equality condition on a field below a path of any depth fires if and only if the path leads to an object with that field, or an array with that index, equal to the literal |
| Pointer.ResultOk | crates/kernelflow-core/src/dag.rs:16-18 | the documented condition `/result/ok` fires if and only if the nested field is true |
| Graphs.InDegrees | crates/kernelflow-core/src/dag.rs:57-61 | each counter starts as the number of incoming edges, parallel ones counted separately |
| Graphs.CountIsPositions | crates/kernelflow-core/src/dag.rs:57-61 | the count of edges is the number of their positions in the list |
| Graphs.FireEdges | crates/kernelflow-core/src/dag.rs:70-76 | the loop over a node's outgoing edges takes exactly the firing ones off the counters without underflow and queues, once each and in the order of their last firing edge, exactly the targets that reach zero |
| Graphs.CycleInSourceless | crates/kernelflow-core/src/dag.rs:78-80 | a finite non-empty set of nodes that each have a predecessor in the set contains a cycle |
| Graphs.LayeringIsLevel | crates/kernelflow-core/src/dag.rs:67-77 | the round in which a node is released is the number of edges of its longest incoming path |
| TopoSort.Pop | crates/kernelflow-core/src/dag.rs:68-77 | one turn of the main loop keeps exact counters, predecessor order and non-decreasing levels |
| TopoSort.Sort | crates/kernelflow-core/src/dag.rs:56-82 | on any edge list: sources first in key order, each vertex after its predecessors, levels non-decreasing, nothing eligible left out; succeeds if and only if as many unknown targets are grounded as nodes are not; with known targets that is if and only if there is no cycle and every source is known, and then it outputs exactly the nodes |
| TopoSort.OutputIffGrounded | crates/kernelflow-core/src/dag.rs:67-77 | a vertex comes out if and only if every path into it repeats no vertex and starts at no unknown source |
| TopoSort.AcceptsIff | crates/kernelflow-core/src/dag.rs:78-81 | the final length test is passed if and only if the unknown targets that come out are as many as the nodes that do not |
| TopoSort.GroundedIffAcyclic | crates/kernelflow-core/src/dag.rs:78-81 | with known targets, every node is grounded if and only if there is no cycle and every source is known |
| TopoSort.KnownTargetsAcceptIff | crates/kernelflow-core/src/dag.rs:78-81 | with known targets the condition for acceptance is that every node is grounded |
| TopoSort.CompleteIffAcyclic | crates/kernelflow-core/src/dag.rs:78-81 | with known targets the final length test is equivalent to acyclicity with known sources |
| TopoSort.KahnOrdersAgree | crates/kernelflow-core/src/dag.rs:67-77 | which vertices come out does not depend on the order of processing |
| DagBuilder.Builder.Node | crates/kernelflow-core/src/dag.rs:108-111 | adding a node replaces an earlier payload and touches no edge |
| DagBuilder.Builder.Edge | crates/kernelflow-core/src/dag.rs:112-124 | edges are appended in order, duplicates kept |
| DagBuilder.Builder.Build | crates/kernelflow-core/src/dag.rs:125-144 | succeeds if and only if references are valid and the graph is acyclic; otherwise reports the first unknown id (source before target), or the cycle |
| DagBuilder.FirstUnknownIs | crates/kernelflow-core/src/dag.rs:134-141 | of the first edge with an unknown end, the source is reported if it is unknown, otherwise the target |
| DagBuilder.UnknownTargetHidesCycle | crates/kernelflow-core/src/dag.rs:78-81 | the witness: a cyclic graph with an unknown target that meets the exact condition of `TopoSort.AcceptsIff`, so that the sort must accept it |
| SchedulerInvariants.InvNext | crates/kernelflow-scheduler/src/scheduler.rs:95-175 | every step keeps counters, frontier, values, wave numbers, trace and status consistent |
| SchedulerTheorems.CountersAreUnfiredEdges | crates/kernelflow-scheduler/src/scheduler.rs:83-86 | in every reachable state each counter is the number of incoming edges not yet fired |
| SchedulerTheorems.NodeInput | crates/kernelflow-scheduler/src/scheduler.rs:98-109 | a running node has seen all its edges fire and its input holds exactly its predecessors' outputs |
| SchedulerTheorems.CanComplete | crates/kernelflow-scheduler/src/scheduler.rs:138-151 | whatever a running node answers, no counter underflows and the completion goes through |
| SchedulerTheorems.Progress | crates/kernelflow-scheduler/src/scheduler.rs:95-168 | a run that has not returned can always take a step |
| SchedulerTheorems.RunsTerminate | crates/kernelflow-scheduler/src/scheduler.rs:95-162 | every run has at most two states per node and two more |
| SchedulerTheorems.WaveIsLevel | crates/kernelflow-scheduler/src/scheduler.rs:95-162 | a started node is in wave k if and only if its longest incoming path has k edges; it starts once |
| SchedulerTheorems.WavesAreCriticalPath | crates/kernelflow-scheduler/src/scheduler.rs:95-162 | a successful run takes exactly as many waves as the longest path has nodes |
| SchedulerTheorems.OutputsAreMeaning | crates/kernelflow-scheduler/src/scheduler.rs:95-168 | a run without node errors computes exactly the values derivable from the nodes' functions, defined without reference to the scheduler |
| SchedulerTheorems.Confluence | crates/kernelflow-scheduler/src/scheduler.rs:124-175 | failing on a node error, and otherwise outputs, result and hash, do not depend on completion order |
| SchedulerTheorems.FailsIffDoomed | crates/kernelflow-scheduler/src/scheduler.rs:153-160 | a finished run failed on a node error if and only if some node errs on the input that the workflow's meaning gives it |
| SchedulerTheorems.CompletedIsLeastClosed | crates/kernelflow-scheduler/src/scheduler.rs:138-151 | without node errors the completed nodes are the least set closed under "all incoming edges fire" |
| SchedulerTheorems.SuccessIff | crates/kernelflow-scheduler/src/scheduler.rs:153-175 | a finished run succeeded if and only if no node erred, the graph is acyclic with known sources, and every edge of a node that ran was satisfied |
| SchedulerTrace.TraceGrammar | crates/kernelflow-scheduler/src/scheduler.rs:66-175 | the trace is the start event, then per wave all starts followed by its completions, then at most one terminal event; earlier waves are complete |
| SchedulerTrace.TerminalEvents | crates/kernelflow-scheduler/src/scheduler.rs:153-175 | completion and failure events occur only last, exactly when the run returned its hash or a node error; the unreached-nodes exit has none |
| SchedulerTrace.CompletionsBeforeLaterStarts | crates/kernelflow-scheduler/src/scheduler.rs:98-136 | a completion precedes a start in the trace if and only if it belongs to an earlier wave |
| SchedulerEvents.EachAnnouncedOnce | crates/kernelflow-scheduler/src/scheduler.rs:98-136 | in every reachable state: one start event, of attempt one, per started node, and one completion event per output, with the digest of its canonical form and the gas that the answer reported; none for other nodes |
| SchedulerEvents.TraceLayout | crates/kernelflow-scheduler/src/scheduler.rs:66-175 | the position of every wave in the trace: its starts in order, then its completions in order |
| SchedulerEvents.FirstWaveInKeyOrder | crates/kernelflow-scheduler/src/scheduler.rs:88-93 | the first wave starts the sources in key order |
| SchedulerEvents.TracesAgree | crates/kernelflow-scheduler/src/scheduler.rs:124-175 | two runs without node errors on fixed node functions emit the same events, each equally often |
| SchedulerTrace.TopoOrderIsWaves | crates/kernelflow-core/src/dag.rs:67-77 | the topological order is the concatenation of the waves of a successful run |
| SchedulerTrace.SortedAsRun | crates/kernelflow-core/src/dag.rs:56-82 | after a successful run of a graph, sorting it succeeds and lists the waves of that run one after the other |
| SchedulerRun.StartCalls | crates/kernelflow-scheduler/src/scheduler.rs:97-122 | draining the ready list makes one call and one start event per node, in order |
| SchedulerRun.NodeReturned | crates/kernelflow-scheduler/src/scheduler.rs:126-152 | handling an answer is a completion step of the state machine |
| SchedulerRun.RunWave | crates/kernelflow-scheduler/src/scheduler.rs:95-162 | the inner loop follows the state machine for any completion order and terminates |
| SchedulerRun.HashOutputs | crates/kernelflow-scheduler/src/scheduler.rs:170-170 | the hash is that of the canonical object of all outputs |
| SchedulerRun.Run | crates/kernelflow-scheduler/src/scheduler.rs:61-176 | result and events are those of a finished run of the state machine; each start and each completion is announced once; it ends with a failure event if and only if some node errs on the input the workflow gives it, and otherwise returns the hash of exactly the outputs the workflow means, or the unreached-nodes error if some node has none |
| SchedulerRun.RunsAgree | crates/kernelflow-scheduler/src/scheduler.rs:1-3 | two executions on the same fixed node functions return the same hash or error, or both end with a failure event, judged by what they returned and emitted |
| Attestation.AttestationIdentifiesOutputs | crates/kernelflow-scheduler/src/scheduler.rs:170-175 | two successful runs with the same outputs up to key order have equal hashes under any digest; equal hashes mean such outputs, unless the digests of these two outputs clash |
| Breaker.CircuitBreaker.Allow | crates/kernelflow-scheduler/src/resilience.rs:117-126 | refuses while open, otherwise resets an expired window and admits |
| Breaker.CircuitBreaker.OnSuccess | crates/kernelflow-scheduler/src/resilience.rs:127-129 | clears the counter and leaves an open window open |
| Breaker.CircuitBreaker.OnFailure | crates/kernelflow-scheduler/src/resilience.rs:130-135 | counts with saturation and (re)opens at the threshold |
| Breaker.CounterRefines | crates/kernelflow-scheduler/src/resilience.rs:101-136 | over every history the 8-bit counter is the true count capped at 255 and opens at exactly the same reports |
| Breaker.CountSinceReset | crates/kernelflow-scheduler/src/resilience.rs:117-135 | the count is the number of failure reports since the last success or expired cooldown |
| Breaker.ClosedBelowThreshold | crates/kernelflow-scheduler/src/resilience.rs:117-135 | with a positive threshold, closed implies fewer failures than the threshold |
| Breaker.WindowRefuses | crates/kernelflow-scheduler/src/resilience.rs:117-135 | after a report opens the breaker at t, every call before t + cooldown is refused, whatever is reported in between |
| Breaker.RefusedIff | crates/kernelflow-scheduler/src/resilience.rs:117-135 | a call is refused if and only if it falls into the cooldown window of some opening report |
| Resilience.RetryLoop | crates/kernelflow-scheduler/src/resilience.rs:72-97 | returns the first success within max(1, max_retries) attempts, and otherwise the last error or the timeout, after as many attempts; waits the initial backoff, then twice as long each time up to the cap |
| Resilience.RetriedIff | crates/kernelflow-scheduler/src/resilience.rs:72-97 | the description of the loop by outcomes and closed-form delays is equivalent to that one, which speaks of the answers alone |
| Resilience.RetriedUnique | crates/kernelflow-scheduler/src/resilience.rs:72-97 | that description leaves one number of attempts, one result and one list of delays |
| Resilience.TotalDelay | crates/kernelflow-scheduler/src/resilience.rs:91-95 | the delays of n attempts sum to at most initial + (n - 2) times max |
| Resilience.CapRespectedIff | crates/kernelflow-scheduler/src/resilience.rs:73-95 | all delays of a call respect `max_backoff` if and only if its first attempt succeeds, or `max_retries` is at most 1, or the initial backoff respects it |
| Resilience.CapConfiguredIff | crates/kernelflow-scheduler/src/resilience.rs:73-95 | a configuration keeps the delays of every call within `max_backoff`, whatever its node answers, if and only if `max_retries` is at most 1 or the initial backoff respects it |
| Resilience.FirstDelayAboveCap | crates/kernelflow-scheduler/src/resilience.rs:91-95 | a configuration whose first delay exceeds `max_backoff` |
| Resilience.ResilientExecutor.Run | crates/kernelflow-scheduler/src/resilience.rs:58-98 | a refused call runs and reports nothing; an admitted one does what the retry loop does and reports exactly its own outcome, also when other calls use the breaker meanwhile; alone, a success leaves the breaker closed at zero and a failure counts one |
| SharedBreaker.RunProjects | crates/kernelflow-scheduler/src/actor.rs:22-49 | every answer in a composed run is what the retry loop makes of the node's attempts on its input, a refusal, or a rate-limit error, and the scheduler only makes steps that such answers allow it |
| SharedBreaker.CallsRetry | crates/kernelflow-scheduler/src/resilience.rs:72-97 | in every interleaving each call runs the retry loop as if alone: the first success of its own attempts or the last error, after as many attempts, with the prescribed delays |
| SharedBreaker.WaveStartsClosed | crates/kernelflow-scheduler/src/scheduler.rs:71-97 | whenever no call is in flight the shared breaker is as new |
| SharedBreaker.RefusedNeedsFailedWave | crates/kernelflow-scheduler/src/resilience.rs:67-90 | a call meets the open breaker only with a positive cooldown and after at least max(1, threshold) other nodes of its wave exhausted their attempts |
| SharedBreaker.NarrowWavesNeverRefused | crates/kernelflow-scheduler/src/resilience.rs:67-90 | in a wave no wider than the threshold no call is ever refused |
| SharedHistory.BreakerFollowsLog | crates/kernelflow-scheduler/src/resilience.rs:67-90 | in every run the breaker is what one admission request per call that asked, one success report per call that succeeded and one failure report per exhausted call make of a new one, each at its time |
| SharedHistory.AskedIsRefusedIff | crates/kernelflow-scheduler/src/resilience.rs:67-69 | a call that asks is refused if and only if a report of the run so far opened the breaker and its cooldown is not over; otherwise its first attempt is due at once |
| SharedHistory.RefusedNeedsStreak | crates/kernelflow-scheduler/src/resilience.rs:117-135 | a refusal takes a streak of at least max(1, threshold) exhausted calls with no success between them |
| SharedHistory.AttemptsWait | crates/kernelflow-scheduler/src/resilience.rs:91-95 | an attempt is made only when due, and a failed one makes the next due after exactly the prescribed delay |
| SharedHistory.CallTakesItsDelays | crates/kernelflow-scheduler/src/resilience.rs:91-95 | from when it was queued a call takes at least the sum of its delays, whatever happens in between |
| SharedOutcome.RefusedNeedsFailing | crates/kernelflow-scheduler/src/resilience.rs:67-90 | a refused call is in a wave where at least max(1, threshold) other nodes fail when retried |
| SharedOutcome.RefusalPossibleIff | crates/kernelflow-scheduler/src/resilience.rs:67-90 | from any wave just started, some interleaving leads to a refusal of the call to n if and only if the cooldown is positive and at least that many other nodes of the wave fail when retried |
| SharedOutcome.FailingWaveRefusesIff | crates/kernelflow-scheduler/src/resilience.rs:67-90 | if a whole wave fails, each of its calls can be refused if and only if the cooldown is positive and the wave is wider than max(1, threshold) |
| SharedOutcome.SharedConfluence | crates/kernelflow-scheduler/src/scheduler.rs:71-175 | a finished composed run that did not fail returned what the workflow means, and no node, retried alone, errs on the input that the workflow gives it; a run fails only on a rate-limited call or because some node so errs, and exactly then if the limiter never refuses; so neither timing nor the breaker changes the outcome |
| SharedProgress.MovesBounded | crates/kernelflow-scheduler/src/scheduler.rs:71-175 | apart from the passing of time, a composed run has at most max(1, max_retries) + 3 steps per node and one more |
| SharedProgress.CanFinish | crates/kernelflow-scheduler/src/scheduler.rs:95-175 | every reachable state of a composed run leads to one in which the scheduler has returned |
| Operators.OperatorRegistry.Reserve | crates/kernelflow-matchmaker/src/operator.rs:97-109 | grants exactly when the operator exists and fits, with the two distinct errors otherwise; a grant adds the amounts to what is in flight, without overflow, and changes nothing else |
| Operators.OperatorRegistry.Release | crates/kernelflow-matchmaker/src/operator.rs:111-117 | subtracts with saturation, changes nothing else, and does nothing for an unknown operator |
| Operators.OperatorRegistry.Register | crates/kernelflow-matchmaker/src/operator.rs:84-86 | inserts or replaces under the operator's id |
| Operators.OperatorRegistry.Deregister | crates/kernelflow-matchmaker/src/operator.rs:88-90 | removes and returns the operator if present |
| Operators.OperatorRegistry.RecordOutcome | crates/kernelflow-matchmaker/src/operator.rs:120-130 | a success takes the reputation r to 0.2 + 0.8 r and any other outcome to 0.8 r; nothing else changes |
| Operators.AdmitsIffFits | crates/kernelflow-core/src/capability.rs:45-58 | a request is admitted if and only if each amount it names fits beside what is in flight and every capability is declared |
| Operators.NewOperatorIsFree | crates/kernelflow-matchmaker/src/operator.rs:23-33 | a new operator takes exactly what its total satisfies, and starts at reputation 0.5 |
| Operators.NeverOvercommitted | crates/kernelflow-matchmaker/src/operator.rs:92-117 | no interleaving, stale selections and unmatched releases included, commits more than an operator has |
| Operators.Conservation | crates/kernelflow-matchmaker/src/operator.rs:84-117 | with matched releases and leases killed on leaving or re-joining, what is in flight equals the outstanding leases, per resource, in every interleaving |
| Operators.InFlightIsLeases | crates/kernelflow-matchmaker/src/operator.rs:23-33 | operators that join as new ones have exactly the outstanding leases in flight |
| Operators.MatchedReleaseNeverClamps | crates/kernelflow-matchmaker/src/operator.rs:111-117 | then the saturating subtraction is always exact |
| Operators.LeasesFit | crates/kernelflow-matchmaker/src/operator.rs:96-109 | the outstanding leases on an operator always fit into its total |
| Operators.UnmatchedReleaseIff | crates/kernelflow-matchmaker/src/lib.rs:11-12 | an unmatched release keeps the books balanced if and only if it takes nothing off |
| Operators.DoubleBooksIff | crates/kernelflow-matchmaker/src/operator.rs:111-117 | after an unmatched release some grantable request exceeds the total beside the outstanding leases if and only if the release names an amount of a resource that is in flight |
| Operators.LateReleaseDoubleBooks | crates/kernelflow-matchmaker/src/lib.rs:11-12 | a release that arrives after a re-registration leaves a lease outstanding on the whole operator while a second grant of the whole operator is possible |
| Operators.ReputationClosedForm | crates/kernelflow-matchmaker/src/operator.rs:119-130 | after n outcomes: 0.8^n of the start plus 0.2 of the recency-weighted samples |
| Operators.ReputationForgets | crates/kernelflow-matchmaker/src/operator.rs:119-130 | equal outcomes shrink the gap between two operators to exactly 0.8^n of itself |
| Operators.OutcomeMoves | crates/kernelflow-matchmaker/src/operator.rs:120-130 | one outcome moves the reputation a fifth of the way to one on success, and to zero otherwise |
| Operators.StreakMoves | crates/kernelflow-matchmaker/src/operator.rs:120-130 | under any interleaving n successes take r to 1 - 0.8^n (1 - r), and n failures, timeouts or disconnects to 0.8^n r |
| Operators.ReputationOfInterleaving | crates/kernelflow-matchmaker/src/operator.rs:120-130 | under any interleaving a reputation is the fold of that operator's own outcomes, a success counting one and the others zero |
| Operators.RatingsStayInRange | crates/kernelflow-matchmaker/src/operator.rs:18-19 | reputations registered in [0, 1] stay there under any interleaving of actions |
| Matchmaker.Snapshot | crates/kernelflow-matchmaker/src/operator.rs:92-94 | every operator once, in arbitrary order |
| Matchmaker.RegistriesAreKeyed | crates/kernelflow-matchmaker/src/operator.rs:84-86 | in every registry that actions can build each operator is stored under its own id, which is what selection relies on |
| Matchmaker.TopGroup | crates/kernelflow-matchmaker/src/strategy.rs:30-47 | the random draw is over exactly the fitting operators within 1e-9 of the best fitting one |
| Matchmaker.Select | crates/kernelflow-matchmaker/src/strategy.rs:25-52 | errs if and only if none fits; otherwise the drawn member of that group, in which no operator occurs twice |
| Matchmaker.Delegate | crates/kernelflow-matchmaker/src/strategy.rs:30-51 | select then reserve: granted if something fits and nothing intervenes; with other clients in between it may be refused but never over-commits |
| Sorting.SortInPlace | crates/kernelflow-nodes/src/median.rs:35-35 | the in-place loop computes the reference sort `Sorted`, which places an element after those it does not precede |
| Sorting.SortedContents | crates/kernelflow-nodes/src/median.rs:35-35 | which is a permutation |
| Sorting.SortedOrders | crates/kernelflow-matchmaker/src/strategy.rs:38-42 | and ordered by the comparison |
| Sorting.SortedStable | crates/kernelflow-matchmaker/src/strategy.rs:38-42 | and stable: elements that the comparison does not tell apart keep their order |
| Nodes.ExecuteMedian | crates/kernelflow-nodes/src/median.rs:21-46 | collects numeric parents, sorts in place, and returns with gas 3 the mean of the elements of the two middle ranks, or the error if and only if no parent is numeric |
| Nodes.NumbersAreParents | crates/kernelflow-nodes/src/median.rs:22-29 | each numeric parent contributes its number once, and the others nothing |
| Nodes.NumericIff | crates/kernelflow-nodes/src/median.rs:25-28 | a parent is numeric if it is a number in any representation or an object with one under `/value` |
| Nodes.MedianIsMiddle | crates/kernelflow-nodes/src/median.rs:35-41 | the median is the one mean of the elements of the two middle ranks, ranks being counted on the unsorted numbers |
| Nodes.OutlierRobust | crates/kernelflow-nodes/src/median.rs:22-41 | with fewer than half of the numeric parents arbitrary, the median stays within any bounds of the others, for odd and even counts |
| Nodes.SortingMonotone | crates/kernelflow-nodes/src/median.rs:35-35 | sorting preserves pointwise order |
| Nodes.MedianOfRaised | crates/kernelflow-nodes/src/median.rs:35-41 | raising parents never lowers the median |
| Nodes.ExecuteThreshold | crates/kernelflow-nodes/src/threshold.rs:51-71 | takes the number of the parent with the least key, or else the payload, or errs; reports the comparison under `/ok` and the number under `/value`, with gas 1 |
| Nodes.NumberOfThreshold | crates/kernelflow-nodes/src/threshold.rs:67-70 | its output is numeric to the median node: the number that was compared |
| Nodes.OkEdge | crates/kernelflow-nodes/src/threshold.rs:60-70 | an edge guarded by `/ok == true` fires if and only if the comparison holds, equality meaning a difference below 2^-52 |
| Nodes.AlertsMonotone | crates/kernelflow-nodes/src/threshold.rs:60-66 | raising prices never withdraws a greater-than alert and never raises a less-than one |
| Nodes.AlertsRobust | crates/kernelflow-nodes/src/threshold.rs:1-3 | a minority of arbitrary prices cannot trigger or suppress an alert the others agree on, for every comparison (for equality: cannot suppress one) |
| Pipeline.ThresholdRan | crates/kernelflow-node/examples/eth_threshold.rs:24-57 | in every run without node errors in which the median ran, the threshold node ran and its output compares the median of the prices |
| Pipeline.ActsIff | crates/kernelflow-core/tests/integration_dag.rs:12-19 | in every run without node errors, a node behind an edge guarded by the threshold's `/ok` runs if and only if the median ran, that is all edges into it fired, and the median of the prices passes the threshold |
| Pipeline.ActionRobust | crates/kernelflow-node/examples/eth_threshold.rs:24-57 | in every run without node errors in which all edges into the median fired, a minority of arbitrary price nodes can neither cause nor prevent that, in any completion order and for every comparison (for equality: not prevent it); if some edge did not fire, the node does not run when the others agree |

## Left out

- HTTP and GraphQL API, peer-to-peer layer, LLM client, command line, storage, WASM sandbox, signing and the on-chain program: I/O over libraries without logic of their own here.
- SHA-256 and JSON byte serialisation: one uninterpreted `digest` of the canonical value; where hashes are compared, that the two values at hand do not clash is part of the statement.
- Floating-point rounding, NaN and infinities: numbers are reals.
- `Duration` and `Instant` overflow, and the point at which `tokio::time::timeout` fires: an attempt is answered or timed out, arbitrarily.
- The rate limiter's quota: admits or refuses arbitrarily.
- Actor mailboxes: capacity, a closed mailbox and a dropped reply (the two `Network` errors) are not modelled; since a run calls each actor once, a mailbox is the `Queued` state of its call.
- What spawned actors do after the run has returned, beyond their steps on the shared breaker.
- `usize` and `u64` widths of counters, array indices and gas: unbounded here.
- UUIDs, workflow names in events, trace ids, timestamps, logging, metrics, and loss of events by slow broadcast subscribers.
- `NodeRegistry`, edge type validation, and the constant, hash and HTTP nodes: each would only add an easy member.
