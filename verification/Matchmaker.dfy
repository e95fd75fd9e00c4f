/** The reputation matchmaker: select under one lock, reserve under another. */
module Matchmaker {
  import opened Errors
  import opened Operators
  import opened Sorting

  ghost predicate Keyed(r: Registry) {
    forall id | id in r :: r[id].id == id
  }

  lemma {:induction false} RegistriesAreKeyed(actions: seq<Action>)
    ensures Keyed(ExecAll(map[], actions))
  {
    if actions != [] {
      RegistriesAreKeyed(actions[..|actions| - 1]);
    }
  }

  const EPSILON: real := 0.000000001

  function Abs(x: real): real {
    if x < 0.0 then -x else x
  }

  ghost predicate Fits(r: Registry, req: Resources, id: OperatorId) {
    id in r && CanTake(r[id], req)
  }

  /** `id` fits, and no fitting operator has a reputation better by 1e-9 or more. */
  ghost predicate NearBest(r: Registry, req: Resources, id: OperatorId) {
    Fits(r, req, id) && forall x | Fits(r, req, x) :: 1000000000.0 * (r[x].reputation - r[id].reputation) < 1.0
  }

  /** The registry's operators, in whatever order the hash map yields them. */
  method Snapshot(r: Registry) returns (ops: seq<Operator>)
    requires Keyed(r)
    ensures |ops| == |r.Keys|
    ensures forall op :: op in ops <==> op.id in r && r[op.id] == op
    ensures DistinctIds(ops)
  {
    ops := [];
    var todo := r.Keys;
    while todo != {}
      invariant todo <= r.Keys && |ops| + |todo| == |r.Keys|
      invariant forall op :: op in ops <==> op.id in r && op.id !in todo && r[op.id] == op
      invariant DistinctIds(ops)
      decreases |todo|
    {
      var id :| id in todo;
      DistinctIdsSnoc(ops, r[id]);
      ops := ops + [r[id]];
      todo := todo - {id};
    }
  }

  /** No operator occurs twice, so that each has the same chance in a uniform draw. */
  ghost predicate DistinctIds(ops: seq<Operator>) {
    forall i, j | 0 <= i < j < |ops| :: ops[i].id != ops[j].id
  }

  lemma DistinctIdsSnoc(ops: seq<Operator>, op: Operator)
    requires DistinctIds(ops) && forall o | o in ops :: o.id != op.id
    ensures DistinctIds(ops + [op])
  {
  }

  function Fitting(ops: seq<Operator>, req: Resources): seq<Operator> {
    if ops == [] then []
    else
      var k := |ops| - 1;
      Fitting(ops[..k], req) + if CanTake(ops[k], req) then [ops[k]] else []
  }

  lemma {:induction false} FittingMembers(ops: seq<Operator>, req: Resources)
    ensures forall op :: op in Fitting(ops, req) <==> op in ops && CanTake(op, req)
    ensures DistinctIds(ops) ==> DistinctIds(Fitting(ops, req))
  {
    if ops != [] {
      var k := |ops| - 1;
      FittingMembers(ops[..k], req);
      assert ops == ops[..k] + [ops[k]];
      if DistinctIds(ops) && CanTake(ops[k], req) {
        DistinctIdsSnoc(Fitting(ops[..k], req), ops[k]);
      }
    }
  }

  function Near(ops: seq<Operator>, score: real): seq<Operator> {
    if ops == [] then []
    else
      var k := |ops| - 1;
      Near(ops[..k], score) + if Abs(ops[k].reputation - score) < EPSILON then [ops[k]] else []
  }

  lemma {:induction false} NearMembers(ops: seq<Operator>, score: real)
    ensures forall op :: op in Near(ops, score) <==> op in ops && Abs(op.reputation - score) < EPSILON
    ensures DistinctIds(ops) ==> DistinctIds(Near(ops, score))
  {
    if ops != [] {
      var k := |ops| - 1;
      NearMembers(ops[..k], score);
      assert ops == ops[..k] + [ops[k]];
      if DistinctIds(ops) && Abs(ops[k].reputation - score) < EPSILON {
        DistinctIdsSnoc(Near(ops[..k], score), ops[k]);
      }
    }
  }

  /** The candidates that the random choice draws from: exactly the fitting operators near the best. */
  method TopGroup(r: Registry, req: Resources) returns (top: seq<Operator>)
    requires Keyed(r)
    ensures forall op :: op in top <==> op.id in r && r[op.id] == op && NearBest(r, req, op.id)
    ensures DistinctIds(top) && (top == [] <==> !exists id :: Fits(r, req, id))
  {
    var ops := Snapshot(r);
    var fitting := Fitting(ops, req);
    FittingMembers(ops, req);
    forall id | Fits(r, req, id) ensures r[id] in fitting {
      assert r[id].id == id;
    }
    if fitting == [] {
      return [];
    }
    var sorted := SortByReputation(fitting);
    top := Near(sorted, sorted[0].reputation);
    NearMembers(sorted, sorted[0].reputation);
    GroupIsNearBest(r, req, sorted, top);
    assert sorted[0] in top && Fits(r, req, sorted[0].id);
  }

  lemma {:induction false} CountId(ops: seq<Operator>, op: Operator)
    requires DistinctIds(ops)
    ensures multiset(ops)[op] <= 1
  {
    if ops != [] {
      var k := |ops| - 1;
      assert ops == ops[..k] + [ops[k]];
      CountId(ops[..k], op);
    }
  }

  lemma RepeatCounts<T>(s: seq<T>, i: nat, j: nat)
    requires i < j < |s|
    ensures s[i] == s[j] ==> multiset(s)[s[i]] >= 2
  {
    assert s == s[..j] + [s[j]] + s[j + 1..];
    assert s[i] in s[..j];
  }

  lemma DistinctIdsOfSame(ops: seq<Operator>, sorted: seq<Operator>)
    requires DistinctIds(ops) && multiset(sorted) == multiset(ops)
    ensures DistinctIds(sorted)
  {
    forall i, j | 0 <= i < j < |sorted| ensures sorted[i].id != sorted[j].id {
      CountId(ops, sorted[i]);
      RepeatCounts(sorted, i, j);
      assert sorted[i] in multiset(ops) && sorted[j] in multiset(ops);
    }
  }

  /** Descending by reputation. */
  method SortByReputation(ops: seq<Operator>) returns (sorted: seq<Operator>)
    requires ops != []
    ensures sorted != [] && multiset(sorted) == multiset(ops)
    ensures forall op :: op in sorted <==> op in ops
    ensures DistinctIds(ops) ==> DistinctIds(sorted)
    ensures forall i | 0 < i < |sorted| :: sorted[0].reputation >= sorted[i].reputation
  {
    var better := (a: Operator, b: Operator) => a.reputation >= b.reputation;
    var a := new Operator[|ops|](i requires 0 <= i < |ops| => ops[i]);
    assert a[..] == ops;
    SortInPlace(a, better);
    sorted := a[..];
    SortedContents(ops, better);
    SortedMembers(ops, better);
    if DistinctIds(ops) { DistinctIdsOfSame(ops, sorted); }
    SortedOrders(ops, better);
    assert forall i | 0 < i < |sorted| :: better(sorted[0], sorted[i]);
  }

  /** With `best` the best of those that fit, being near the best is being near its score. */
  lemma NearBestIff(r: Registry, req: Resources, best: OperatorId, id: OperatorId)
    requires Fits(r, req, best) && Fits(r, req, id)
    requires forall x | Fits(r, req, x) :: r[x].reputation <= r[best].reputation
    ensures NearBest(r, req, id) <==> Abs(r[id].reputation - r[best].reputation) < EPSILON
  {
    if NearBest(r, req, id) {
      assert r[best].reputation - r[id].reputation < EPSILON;
    }
  }

  lemma GroupIsNearBest(r: Registry, req: Resources, sorted: seq<Operator>, top: seq<Operator>)
    requires Keyed(r) && sorted != [] && sorted[0] in sorted
    requires forall op :: op in top <==> op in sorted && Abs(op.reputation - sorted[0].reputation) < EPSILON
    requires forall op :: op in sorted <==> op.id in r && r[op.id] == op && CanTake(op, req)
    requires forall i | 0 < i < |sorted| :: sorted[0].reputation >= sorted[i].reputation
    ensures forall op :: op in top <==> op.id in r && r[op.id] == op && NearBest(r, req, op.id)
  {
    forall op ensures op in top <==> op.id in r && r[op.id] == op && NearBest(r, req, op.id) {
      GroupMember(r, req, sorted, op);
    }
  }

  lemma GroupMember(r: Registry, req: Resources, sorted: seq<Operator>, op: Operator)
    requires Keyed(r) && sorted != [] && sorted[0] in sorted
    requires forall op :: op in sorted <==> op.id in r && r[op.id] == op && CanTake(op, req)
    requires forall i | 0 < i < |sorted| :: sorted[0].reputation >= sorted[i].reputation
    ensures op in sorted && Abs(op.reputation - sorted[0].reputation) < EPSILON <==>
            op.id in r && r[op.id] == op && NearBest(r, req, op.id)
  {
    if op in sorted {
      forall id | Fits(r, req, id) ensures r[id].reputation <= r[sorted[0].id].reputation {
        BestOfSorted(r, req, sorted, id);
      }
      NearBestIff(r, req, sorted[0].id, op.id);
    }
  }

  lemma BestOfSorted(r: Registry, req: Resources, sorted: seq<Operator>, id: OperatorId)
    requires Keyed(r) && sorted != [] && Fits(r, req, id)
    requires forall op :: op in sorted <==> op.id in r && r[op.id] == op && CanTake(op, req)
    requires forall i | 0 < i < |sorted| :: sorted[0].reputation >= sorted[i].reputation
    ensures r[id].reputation <= sorted[0].reputation
  {
    assert r[id].id == id;
    var i :| 0 <= i < |sorted| && sorted[i] == r[id];
  }

  /** `select`: one of the top group, whichever the random draw `pick` hits. */
  method Select(r: Registry, req: Resources, pick: nat) returns (chosen: Result<OperatorId>, ghost top: seq<Operator>)
    requires Keyed(r)
    ensures forall op :: op in top <==> op.id in r && r[op.id] == op && NearBest(r, req, op.id)
    ensures chosen.Ok? <==> exists id :: Fits(r, req, id)
    ensures DistinctIds(top)
    ensures chosen.Ok? ==> top != [] && chosen.value == top[pick % |top|].id && NearBest(r, req, chosen.value)
    ensures chosen.Err? ==> chosen.error == Network("no operator can satisfy requirements")
  {
    var group := TopGroup(r, req);
    top := group;
    if group == [] {
      return Err(Network("no operator can satisfy requirements")), top;
    }
    var op := group[pick % |group|];
    assert op in top;
    chosen := Ok(op.id);
  }

  /**
   Select, then reserve, with whatever other clients do in between. If nothing intervened the
   reservation is granted; if something did it may be refused, but never over-commits.
   */
  method Delegate(registry: OperatorRegistry, req: Resources, pick: nat, between: seq<Action>)
    returns (granted: Result<OperatorId>)
    requires AllWithin(registry.inner)
    requires forall i | 0 <= i < |between| && between[i].Register? :: Within(between[i].op)
    modifies registry
    ensures AllWithin(registry.inner)
    ensures between == [] ==> (granted.Ok? <==> exists id :: Fits(old(registry.inner), req, id))
    ensures granted.Ok? ==>
              NearBest(old(registry.inner), req, granted.value) &&
              registry.inner == Exec(ExecAll(old(registry.inner), between), Action.Reserve(granted.value, req)) &&
              Grants(ExecAll(old(registry.inner), between), granted.value, req)
    ensures granted.Err? ==> registry.inner == ExecAll(old(registry.inner), between)
  {
    var selected, _ := Select(registry.inner, req, pick);
    Others(registry, between);
    NeverOvercommitted(old(registry.inner), between);
    if selected.Err? {
      return selected;
    }
    ExecWithin(registry.inner, Action.Reserve(selected.value, req));
    var reserved := registry.Reserve(selected.value, req);
    granted := if reserved.Ok? then selected else Err(reserved.error);
  }

  method Others(registry: OperatorRegistry, actions: seq<Action>)
    modifies registry
    ensures registry.inner == ExecAll(old(registry.inner), actions)
  {
    for i := 0 to |actions|
      invariant registry.inner == ExecAll(old(registry.inner), actions[..i])
    {
      assert actions[..i + 1][..i] == actions[..i];
      match actions[i] {
        case Register(op) => registry.Register(op);
        case Deregister(id) => var _ := registry.Deregister(id);
        case Reserve(id, req) => var _ := registry.Reserve(id, req);
        case Release(id, req) => registry.Release(id, req);
        case RecordOutcome(id, o) => registry.RecordOutcome(id, o);
      }
    }
    assert actions[..|actions|] == actions;
  }
}
