/**
 The operator registry: capacity admission, reservation and release, reputation. All operations
 take one lock, so any number of clients amounts to an arbitrary sequence of atomic operations.
 */
module Operators {
  import opened Machine
  import opened Errors
  import Json

  type OperatorId = string

  datatype Capability =
    | GenericCpu
    | WasmHost
    | HttpEgress
    | OnchainRpc
    | GpuProver(vramMb: u32)
    | Custom(tag: string)

  /** A capacity or a requirement: both have these fields. */
  datatype Resources = Resources(cpuCores: u32, ramMb: u32, gpuVramMb: u32, capabilities: seq<Capability>)

  datatype Operator = Operator(id: OperatorId, total: Resources, inFlight: Resources, reputation: real)

  predicate Satisfies(have: Resources, req: Resources) {
    have.cpuCores >= req.cpuCores && have.ramMb >= req.ramMb && have.gpuVramMb >= req.gpuVramMb &&
    forall c | c in req.capabilities :: c in have.capabilities
  }

  function NewOperator(id: OperatorId, total: Resources): Operator {
    Operator(id, total, Resources(0, 0, 0, total.capabilities), 0.5)
  }

  function Free(op: Operator): Resources {
    Resources(SaturatingSub(op.total.cpuCores, op.inFlight.cpuCores),
              SaturatingSub(op.total.ramMb, op.inFlight.ramMb),
              SaturatingSub(op.total.gpuVramMb, op.inFlight.gpuVramMb),
              op.total.capabilities)
  }

  predicate CanTake(op: Operator, req: Resources) {
    Satisfies(Free(op), req)
  }

  /** Admission is what keeps these 32-bit additions from overflowing. */
  function Commit(op: Operator, req: Resources): Operator
    requires CanTake(op, req)
  {
    op.(inFlight := op.inFlight.(cpuCores := op.inFlight.cpuCores + req.cpuCores,
                                 ramMb := op.inFlight.ramMb + req.ramMb,
                                 gpuVramMb := op.inFlight.gpuVramMb + req.gpuVramMb))
  }

  function GiveBack(op: Operator, req: Resources): Operator {
    op.(inFlight := op.inFlight.(cpuCores := SaturatingSub(op.inFlight.cpuCores, req.cpuCores),
                                 ramMb := SaturatingSub(op.inFlight.ramMb, req.ramMb),
                                 gpuVramMb := SaturatingSub(op.inFlight.gpuVramMb, req.gpuVramMb)))
  }

  datatype DelegationOutcome = Success | Failure(reason: string) | TimedOut | OperatorDisconnect

  function Sample(o: DelegationOutcome): real {
    if o.Success? then 1.0 else 0.0
  }

  const ALPHA: real := 0.2

  function Ewma(r: real, sample: real): real {
    ALPHA * sample + (1.0 - ALPHA) * r
  }

  // ----- operations on the registry

  type Registry = map<OperatorId, Operator>

  datatype Action =
    | Register(op: Operator)
    | Deregister(id: OperatorId)
    | Reserve(id: OperatorId, req: Resources)
    | Release(id: OperatorId, req: Resources)
    | RecordOutcome(id: OperatorId, outcome: DelegationOutcome)

  predicate Grants(r: Registry, id: OperatorId, req: Resources) {
    id in r && CanTake(r[id], req)
  }

  function Exec(r: Registry, a: Action): Registry {
    match a
    case Register(op) => r[op.id := op]
    case Deregister(id) => r - {id}
    case Reserve(id, req) => if Grants(r, id, req) then r[id := Commit(r[id], req)] else r
    case Release(id, req) => if id in r then r[id := GiveBack(r[id], req)] else r
    case RecordOutcome(id, o) =>
      if id in r then r[id := r[id].(reputation := Ewma(r[id].reputation, Sample(o)))] else r
  }

  function ExecAll(r: Registry, actions: seq<Action>): Registry {
    if actions == [] then r else Exec(ExecAll(r, actions[..|actions| - 1]), actions[|actions| - 1])
  }

  function Monus(a: nat, b: nat): nat {
    if a <= b then 0 else a - b
  }

  /** From `r` to `r'` only the amounts that operator `id` has in flight may have changed. */
  ghost predicate OnlyInFlight(r: Registry, id: OperatorId, r': Registry) {
    id in r && id in r' && r' - {id} == r - {id} &&
    r'[id] == r[id].(inFlight := r'[id].inFlight) && r'[id].inFlight.capabilities == r[id].inFlight.capabilities
  }

  class OperatorRegistry {
    var inner: Registry

    constructor ()
      ensures inner == map[]
    {
      inner := map[];
    }

    method Register(op: Operator)
      modifies this
      ensures inner == Exec(old(inner), Action.Register(op))
      ensures op.id in inner && inner[op.id] == op && inner - {op.id} == old(inner) - {op.id}
    {
      inner := inner[op.id := op];
    }

    method Deregister(id: OperatorId) returns (removed: Json.Option<Operator>)
      modifies this
      ensures inner == Exec(old(inner), Action.Deregister(id))
      ensures inner == old(inner) - {id}
      ensures removed == if id in old(inner) then Json.Some(old(inner)[id]) else Json.None
    {
      removed := if id in inner then Json.Some(inner[id]) else Json.None;
      inner := inner - {id};
    }

    method Reserve(id: OperatorId, req: Resources) returns (r: Result<()>)
      modifies this
      ensures inner == Exec(old(inner), Action.Reserve(id, req))
      ensures r == if id !in old(inner) then Err(NodeNotFound(id))
                   else if Grants(old(inner), id, req) then Ok(()) else Err(RateLimited)
      ensures r.Err? ==> inner == old(inner)
      ensures r.Ok? ==> OnlyInFlight(old(inner), id, inner) && forall k: Resource ::
                Amount(inner[id].inFlight, k) == Amount(old(inner)[id].inFlight, k) + Amount(req, k)
    {
      if id !in inner {
        return Err(NodeNotFound(id));
      }
      var op := inner[id];
      if !CanTake(op, req) {
        return Err(RateLimited);
      }
      var cpu := op.inFlight.cpuCores + req.cpuCores;
      var ram := op.inFlight.ramMb + req.ramMb;
      var vram := op.inFlight.gpuVramMb + req.gpuVramMb;
      inner := inner[id := op.(inFlight := Resources(cpu, ram, vram, op.inFlight.capabilities))];
      r := Ok(());
    }

    method Release(id: OperatorId, req: Resources)
      modifies this
      ensures inner == Exec(old(inner), Action.Release(id, req))
      ensures id !in old(inner) ==> inner == old(inner)
      ensures id in old(inner) ==> OnlyInFlight(old(inner), id, inner) && forall k: Resource ::
                Amount(inner[id].inFlight, k) == Monus(Amount(old(inner)[id].inFlight, k), Amount(req, k))
    {
      if id in inner {
        inner := inner[id := GiveBack(inner[id], req)];
      }
    }

    method RecordOutcome(id: OperatorId, outcome: DelegationOutcome)
      modifies this
      ensures inner == Exec(old(inner), Action.RecordOutcome(id, outcome))
      ensures id !in old(inner) ==> inner == old(inner)
      ensures id in old(inner) ==>
                inner == old(inner)[id := old(inner)[id].(reputation := inner[id].reputation)] &&
                inner[id].reputation == 0.8 * old(inner)[id].reputation + if outcome.Success? then 0.2 else 0.0
    {
      if id in inner {
        var sample := match outcome case Success => 1.0 case _ => 0.0;
        inner := inner[id := inner[id].(reputation := ALPHA * sample + (1.0 - ALPHA) * inner[id].reputation)];
      }
    }
  }

  // ----- no over-commitment, whatever the interleaving

  datatype Resource = Cpu | Ram | Vram

  function Amount(r: Resources, k: Resource): nat {
    match k
    case Cpu => r.cpuCores as nat
    case Ram => r.ramMb as nat
    case Vram => r.gpuVramMb as nat
  }

  ghost predicate Within(op: Operator) {
    forall k: Resource :: Amount(op.inFlight, k) <= Amount(op.total, k)
  }

  ghost predicate AllWithin(r: Registry) {
    forall id | id in r :: Within(r[id]) && r[id].id == id
  }

  /**
   Admission is exact: a request is taken if and only if each amount that it names still fits and all
   capabilities are there.
   */
  lemma AdmitsIffFits(op: Operator, req: Resources)
    ensures CanTake(op, req) <==>
            (forall k: Resource ::
               Amount(req, k) == 0 || Amount(op.inFlight, k) + Amount(req, k) <= Amount(op.total, k)) &&
            forall c | c in req.capabilities :: c in op.total.capabilities
    ensures Within(op) ==>
              (CanTake(op, req) <==>
               (forall k: Resource :: Amount(op.inFlight, k) + Amount(req, k) <= Amount(op.total, k)) &&
               forall c | c in req.capabilities :: c in op.total.capabilities)
  {
    if forall k: Resource :: Amount(req, k) == 0 || Amount(op.inFlight, k) + Amount(req, k) <= Amount(op.total, k) {
      assert Amount(req, Cpu) == 0 || Amount(op.inFlight, Cpu) + Amount(req, Cpu) <= Amount(op.total, Cpu);
      assert Amount(req, Ram) == 0 || Amount(op.inFlight, Ram) + Amount(req, Ram) <= Amount(op.total, Ram);
      assert Amount(req, Vram) == 0 || Amount(op.inFlight, Vram) + Amount(req, Vram) <= Amount(op.total, Vram);
    }
    if Within(op) {
      forall k: Resource
        ensures Amount(req, k) == 0 || Amount(op.inFlight, k) + Amount(req, k) <= Amount(op.total, k) <==>
                Amount(op.inFlight, k) + Amount(req, k) <= Amount(op.total, k)
      {
        assert Amount(op.inFlight, k) <= Amount(op.total, k);
      }
    }
  }

  lemma CommitWithin(op: Operator, req: Resources)
    requires CanTake(op, req)
    ensures forall k: Resource :: Amount(Commit(op, req).inFlight, k) == Amount(op.inFlight, k) + Amount(req, k)
    ensures Within(op) ==> Within(Commit(op, req))
  {
    forall k: Resource
      ensures Amount(Commit(op, req).inFlight, k) == Amount(op.inFlight, k) + Amount(req, k)
      ensures Within(op) ==> Amount(Commit(op, req).inFlight, k) <= Amount(op.total, k)
    {
      assert Within(op) ==> Amount(op.inFlight, k) <= Amount(op.total, k);
    }
  }

  lemma GiveBackAmounts(op: Operator, req: Resources, k: Resource)
    ensures Amount(GiveBack(op, req).inFlight, k) ==
            if Amount(op.inFlight, k) < Amount(req, k) then 0 else Amount(op.inFlight, k) - Amount(req, k)
  {
  }

  /**
   Starting from operators within their totals, and registering only such operators, no sequence of
   operations commits more of a resource than an operator has; unmatched releases and reservations
   made on stale selections included.
   */
  lemma {:induction false} NeverOvercommitted(r: Registry, actions: seq<Action>)
    requires AllWithin(r)
    requires forall i | 0 <= i < |actions| && actions[i].Register? :: Within(actions[i].op)
    ensures AllWithin(ExecAll(r, actions))
  {
    if actions != [] {
      var k := |actions| - 1;
      NeverOvercommitted(r, actions[..k]);
      ExecWithin(ExecAll(r, actions[..k]), actions[k]);
    }
  }

  lemma ExecWithin(r: Registry, a: Action)
    requires AllWithin(r) && (a.Register? ==> Within(a.op))
    ensures AllWithin(Exec(r, a))
  {
    match a {
      case Reserve(id, req) =>
        if Grants(r, id, req) { CommitWithin(r[id], req); }
      case Release(id, req) =>
        if id in r {
          forall k: Resource ensures Amount(GiveBack(r[id], req).inFlight, k) <= Amount(r[id].total, k) {
            GiveBackAmounts(r[id], req, k);
            assert Amount(r[id].inFlight, k) <= Amount(r[id].total, k);
          }
        }
      case RecordOutcome(id, o) =>
        if id in r {
          forall k: Resource ensures Amount(Exec(r, a)[id].inFlight, k) <= Amount(r[id].total, k) {
            assert Amount(r[id].inFlight, k) <= Amount(r[id].total, k);
          }
        }
      case _ =>
    }
  }

  // ----- conservation

  datatype Lease = Lease(id: OperatorId, req: Resources)

  /**
   The registry with a ledger of the leases that are outstanding. `base` is what an operator had in
   flight when it was registered: nothing, for one made by `NewOperator`.
   */
  datatype World = World(reg: Registry, base: map<OperatorId, Resources>, ledger: seq<Lease>)

  /** What clients do when they release only what they hold, and when disconnects kill leases. */
  datatype Move =
    | Join(op: Operator)
    | Leave(id: OperatorId)
    | Take(id: OperatorId, req: Resources)
    | Return(index: nat)
    | Judge(id: OperatorId, outcome: DelegationOutcome)

  function Without(ledger: seq<Lease>, id: OperatorId): seq<Lease> {
    if ledger == [] then []
    else (if ledger[0].id == id then [] else [ledger[0]]) + Without(ledger[1..], id)
  }

  function Play(w: World, m: Move): World {
    match m
    case Join(op) => World(Exec(w.reg, Register(op)), w.base[op.id := op.inFlight], Without(w.ledger, op.id))
    case Leave(id) => World(Exec(w.reg, Deregister(id)), w.base - {id}, Without(w.ledger, id))
    case Take(id, req) =>
      World(Exec(w.reg, Reserve(id, req)), w.base,
            if Grants(w.reg, id, req) then w.ledger + [Lease(id, req)] else w.ledger)
    case Return(i) =>
      if i < |w.ledger| then
        World(Exec(w.reg, Release(w.ledger[i].id, w.ledger[i].req)), w.base, w.ledger[..i] + w.ledger[i + 1..])
      else w
    case Judge(id, o) => w.(reg := Exec(w.reg, RecordOutcome(id, o)))
  }

  function PlayAll(w: World, moves: seq<Move>): World {
    if moves == [] then w else Play(PlayAll(w, moves[..|moves| - 1]), moves[|moves| - 1])
  }

  const EMPTY: World := World(map[], map[], [])

  ghost function Outstanding(ledger: seq<Lease>, id: OperatorId, k: Resource): nat {
    if ledger == [] then 0
    else (if ledger[0].id == id then Amount(ledger[0].req, k) else 0) + Outstanding(ledger[1..], id, k)
  }

  lemma {:induction false} OutstandingConcat(a: seq<Lease>, b: seq<Lease>, id: OperatorId, k: Resource)
    ensures Outstanding(a + b, id, k) == Outstanding(a, id, k) + Outstanding(b, id, k)
  {
    if a == [] {
      assert a + b == b;
    } else {
      assert (a + b)[1..] == a[1..] + b;
      OutstandingConcat(a[1..], b, id, k);
    }
  }

  lemma {:induction false} OutstandingWithout(ledger: seq<Lease>, gone: OperatorId, id: OperatorId, k: Resource)
    ensures Outstanding(Without(ledger, gone), id, k) == if id == gone then 0 else Outstanding(ledger, id, k)
    ensures forall l | l in Without(ledger, gone) :: l in ledger && l.id != gone
  {
    if ledger != [] {
      OutstandingWithout(ledger[1..], gone, id, k);
      var head := if ledger[0].id == gone then [] else [ledger[0]];
      OutstandingConcat(head, Without(ledger[1..], gone), id, k);
    }
  }

  lemma OutstandingRemoved(ledger: seq<Lease>, i: nat, id: OperatorId, k: Resource)
    requires i < |ledger|
    ensures Outstanding(ledger, id, k) ==
            Outstanding(ledger[..i] + ledger[i + 1..], id, k) +
            if ledger[i].id == id then Amount(ledger[i].req, k) else 0
  {
    assert ledger == ledger[..i] + ([ledger[i]] + ledger[i + 1..]);
    OutstandingConcat(ledger[..i], [ledger[i]] + ledger[i + 1..], id, k);
    OutstandingConcat([ledger[i]], ledger[i + 1..], id, k);
    OutstandingConcat(ledger[..i], ledger[i + 1..], id, k);
  }

  /** What is in flight is the operator's base plus exactly the outstanding leases. */
  ghost predicate Balanced(w: World, id: OperatorId, k: Resource)
    requires id in w.reg && id in w.base
  {
    Amount(w.reg[id].inFlight, k) == Amount(w.base[id], k) + Outstanding(w.ledger, id, k)
  }

  ghost predicate Conserved(w: World) {
    w.reg.Keys == w.base.Keys &&
    (forall l | l in w.ledger :: l.id in w.reg) &&
    (forall id, k: Resource | id in w.reg :: Balanced(w, id, k))
  }

  lemma RemovalConserves(w: World, gone: OperatorId, w': World)
    requires Conserved(w) && w'.ledger == Without(w.ledger, gone) && w'.reg.Keys == w'.base.Keys
    requires w.reg.Keys - {gone} <= w'.reg.Keys
    requires forall id | id in w'.reg && id != gone ::
               id in w.reg && w'.reg[id].inFlight == w.reg[id].inFlight && w'.base[id] == w.base[id]
    requires gone in w'.reg ==> w'.reg[gone].inFlight == w'.base[gone]
    ensures Conserved(w')
  {
    forall l | l in w'.ledger ensures l.id in w'.reg {
      OutstandingWithout(w.ledger, gone, l.id, Cpu);
    }
    forall id, k: Resource | id in w'.reg ensures Balanced(w', id, k) {
      OutstandingWithout(w.ledger, gone, id, k);
      assert id != gone ==> Balanced(w, id, k);
    }
  }

  lemma TakeConserves(w: World, id: OperatorId, req: Resources)
    requires Conserved(w) && Grants(w.reg, id, req)
    ensures Conserved(Play(w, Take(id, req)))
  {
    var w' := Play(w, Take(id, req));
    CommitWithin(w.reg[id], req);
    forall x, k: Resource | x in w'.reg ensures Balanced(w', x, k) {
      assert Balanced(w, x, k);
      OutstandingConcat(w.ledger, [Lease(id, req)], x, k);
      assert [Lease(id, req)][1..] == [];
    }
  }

  lemma ReturnConserves(w: World, i: nat)
    requires Conserved(w) && i < |w.ledger|
    ensures Conserved(Play(w, Return(i)))
    ensures forall k: Resource :: Amount(w.ledger[i].req, k) <= Amount(w.reg[w.ledger[i].id].inFlight, k)
  {
    var w' := Play(w, Return(i));
    var l := w.ledger[i];
    assert l in w.ledger;
    forall k: Resource ensures Amount(l.req, k) <= Amount(w.reg[l.id].inFlight, k) {
      assert Balanced(w, l.id, k);
      OutstandingRemoved(w.ledger, i, l.id, k);
    }
    forall x, k: Resource | x in w'.reg ensures Balanced(w', x, k) {
      assert Balanced(w, x, k);
      OutstandingRemoved(w.ledger, i, x, k);
      GiveBackAmounts(w.reg[l.id], l.req, k);
    }
  }

  lemma PlayConserves(w: World, m: Move)
    requires Conserved(w)
    ensures Conserved(Play(w, m))
  {
    match m {
      case Join(op) => RemovalConserves(w, op.id, Play(w, m));
      case Leave(id) => RemovalConserves(w, id, Play(w, m));
      case Take(id, req) => if Grants(w.reg, id, req) { TakeConserves(w, id, req); }
      case Return(i) => if i < |w.ledger| { ReturnConserves(w, i); }
      case Judge(id, o) =>
        var w' := Play(w, m);
        forall x, k: Resource | x in w'.reg ensures Balanced(w', x, k) {
          assert Balanced(w, x, k);
        }
    }
  }

  /** In every interleaving, what is in flight equals the sum of the outstanding leases. */
  lemma {:induction false} Conservation(moves: seq<Move>)
    ensures Conserved(PlayAll(EMPTY, moves))
  {
    if moves != [] {
      var k := |moves| - 1;
      Conservation(moves[..k]);
      PlayConserves(PlayAll(EMPTY, moves[..k]), moves[k]);
    }
  }

  /** For operators that join as `NewOperator` makes them, in flight is the leases and nothing else. */
  lemma InFlightIsLeases(moves: seq<Move>, id: OperatorId, k: Resource)
    requires forall i | 0 <= i < |moves| && moves[i].Join? ::
               moves[i].op == NewOperator(moves[i].op.id, moves[i].op.total)
    requires id in PlayAll(EMPTY, moves).reg
    ensures Amount(PlayAll(EMPTY, moves).reg[id].inFlight, k) == Outstanding(PlayAll(EMPTY, moves).ledger, id, k)
  {
    Conservation(moves);
    BasesAreEmpty(moves, id, k);
    assert Balanced(PlayAll(EMPTY, moves), id, k);
  }

  lemma {:induction false} BasesAreEmpty(moves: seq<Move>, id: OperatorId, k: Resource)
    requires forall i | 0 <= i < |moves| && moves[i].Join? ::
               moves[i].op == NewOperator(moves[i].op.id, moves[i].op.total)
    ensures id in PlayAll(EMPTY, moves).base ==> Amount(PlayAll(EMPTY, moves).base[id], k) == 0
  {
    if moves != [] {
      BasesAreEmpty(moves[..|moves| - 1], id, k);
    }
  }

  /** So a matched release never hits the floor of the saturating subtraction. */
  lemma MatchedReleaseNeverClamps(moves: seq<Move>, i: nat)
    requires i < |PlayAll(EMPTY, moves).ledger|
    ensures var w := PlayAll(EMPTY, moves);
            var l := w.ledger[i];
            l.id in w.reg &&
            forall k: Resource ::
              Amount(l.req, k) <= Amount(w.reg[l.id].inFlight, k) &&
              Amount(GiveBack(w.reg[l.id], l.req).inFlight, k) == Amount(w.reg[l.id].inFlight, k) - Amount(l.req, k)
  {
    Conservation(moves);
    var w := PlayAll(EMPTY, moves);
    ReturnConserves(w, i);
    var l := w.ledger[i];
    assert l in w.ledger;
    forall k: Resource
      ensures Amount(GiveBack(w.reg[l.id], l.req).inFlight, k) == Amount(w.reg[l.id].inFlight, k) - Amount(l.req, k)
    {
      assert Amount(l.req, k) <= Amount(w.reg[l.id].inFlight, k);
      GiveBackAmounts(w.reg[l.id], l.req, k);
    }
  }

  /** No double booking: the leases outstanding on an operator always fit into what it has. */
  lemma {:induction false} LeasesFit(moves: seq<Move>, id: OperatorId, k: Resource)
    requires forall i | 0 <= i < |moves| && moves[i].Join? :: Within(moves[i].op)
    requires id in PlayAll(EMPTY, moves).reg
    ensures Outstanding(PlayAll(EMPTY, moves).ledger, id, k) <= Amount(PlayAll(EMPTY, moves).reg[id].total, k)
  {
    Conservation(moves);
    WorldWithin(moves);
    var w := PlayAll(EMPTY, moves);
    assert Balanced(w, id, k);
    assert Within(w.reg[id]);
    assert Amount(w.reg[id].inFlight, k) <= Amount(w.reg[id].total, k);
  }

  lemma {:induction false} WorldWithin(moves: seq<Move>)
    requires forall i | 0 <= i < |moves| && moves[i].Join? :: Within(moves[i].op)
    ensures AllWithin(PlayAll(EMPTY, moves).reg)
  {
    if moves != [] {
      var j := |moves| - 1;
      WorldWithin(moves[..j]);
      var w := PlayAll(EMPTY, moves[..j]);
      match moves[j] {
        case Join(op) => ExecWithin(w.reg, Register(op));
        case Leave(x) => ExecWithin(w.reg, Deregister(x));
        case Take(x, req) => ExecWithin(w.reg, Reserve(x, req));
        case Return(i) => if i < |w.ledger| { ExecWithin(w.reg, Release(w.ledger[i].id, w.ledger[i].req)); }
        case Judge(x, o) => ExecWithin(w.reg, RecordOutcome(x, o));
      }
    }
  }

  /**
   A release that matches no lease keeps the books balanced exactly when it takes nothing off:
   the operator is gone, or for each resource the request or what is in flight is zero.
   */
  lemma UnmatchedReleaseIff(w: World, id: OperatorId, req: Resources)
    requires Conserved(w)
    ensures Conserved(w.(reg := Exec(w.reg, Release(id, req)))) <==>
            (id in w.reg ==>
               forall k: Resource :: Amount(req, k) == 0 || Amount(w.reg[id].inFlight, k) == 0)
  {
    var w' := w.(reg := Exec(w.reg, Release(id, req)));
    if id in w.reg {
      forall k: Resource ensures Balanced(w', id, k) <==> Amount(req, k) == 0 || Amount(w.reg[id].inFlight, k) == 0 {
        assert Balanced(w, id, k);
        GiveBackAmounts(w.reg[id], req, k);
      }
      forall x, k: Resource | x in w'.reg && x != id ensures Balanced(w', x, k) {
        assert Balanced(w, x, k);
      }
    }
  }

  // ----- double booking

  /** Granting `q` on `id` now would promise more of resource `k` than the operator has. */
  ghost predicate Overbooks(w: World, id: OperatorId, q: Resources, k: Resource)
    requires id in w.reg && id in w.base
  {
    Amount(w.base[id], k) + Outstanding(w.ledger, id, k) + Amount(q, k) > Amount(w.reg[id].total, k)
  }

  ghost predicate CanDoubleBook(w: World, id: OperatorId)
    requires id in w.reg && id in w.base
  {
    exists q, k: Resource :: Grants(w.reg, id, q) && Overbooks(w, id, q, k)
  }

  /** The registry after a release that the ledger knows nothing of. */
  function ReleasedBlindly(w: World, id: OperatorId, req: Resources): World {
    w.(reg := Exec(w.reg, Release(id, req)))
  }

  function Only(k: Resource, n: u32): Resources {
    match k
    case Cpu => Resources(n, 0, 0, [])
    case Ram => Resources(0, n, 0, [])
    case Vram => Resources(0, 0, n, [])
  }

  function FreeAmount(op: Operator, k: Resource): u32 {
    match k
    case Cpu => Free(op).cpuCores
    case Ram => Free(op).ramMb
    case Vram => Free(op).gpuVramMb
  }

  /** A request for all that is free of one resource is always admitted. */
  lemma AllFreeIsGranted(op: Operator, k: Resource)
    ensures CanTake(op, Only(k, FreeAmount(op, k)))
    ensures Within(op) ==>
              Amount(Only(k, FreeAmount(op, k)), k) == Amount(op.total, k) - Amount(op.inFlight, k)
  {
    if Within(op) {
      assert Amount(op.inFlight, k) <= Amount(op.total, k);
    }
  }

  lemma TakenOffCanDoubleBook(w: World, id: OperatorId, req: Resources, k: Resource)
    requires Conserved(w) && id in w.reg && Within(w.reg[id])
    requires Amount(req, k) > 0 && Amount(w.reg[id].inFlight, k) > 0
    ensures CanDoubleBook(ReleasedBlindly(w, id, req), id)
  {
    var w' := ReleasedBlindly(w, id, req);
    var op := w'.reg[id];
    assert Balanced(w, id, k);
    forall j: Resource ensures Amount(op.inFlight, j) <= Amount(op.total, j) {
      GiveBackAmounts(w.reg[id], req, j);
      assert Amount(w.reg[id].inFlight, j) <= Amount(w.reg[id].total, j);
    }
    GiveBackAmounts(w.reg[id], req, k);
    AllFreeIsGranted(op, k);
    var q := Only(k, FreeAmount(op, k));
    assert Grants(w'.reg, id, q) && Overbooks(w', id, q, k);
  }

  /**
   After a blind release some grantable request double books the operator if and only if the release
   took something off: of some resource it named an amount while some was in flight.
   */
  lemma DoubleBooksIff(w: World, id: OperatorId, req: Resources)
    requires Conserved(w) && id in w.reg && Within(w.reg[id])
    ensures CanDoubleBook(ReleasedBlindly(w, id, req), id) <==>
            exists k: Resource :: Amount(req, k) > 0 && Amount(w.reg[id].inFlight, k) > 0
  {
    if k: Resource :| Amount(req, k) > 0 && Amount(w.reg[id].inFlight, k) > 0 {
      TakenOffCanDoubleBook(w, id, req, k);
    } else {
      var w' := ReleasedBlindly(w, id, req);
      forall q, k: Resource | Grants(w'.reg, id, q) ensures !Overbooks(w', id, q, k) {
        GiveBackAmounts(w.reg[id], req, k);
        assert Amount(w'.reg[id].inFlight, k) == Amount(w.reg[id].inFlight, k);
        assert Amount(w.reg[id].inFlight, k) <= Amount(w.reg[id].total, k);
        assert Balanced(w, id, k);
        GrantFits(w'.reg[id], q, k);
      }
    }
  }

  lemma GrantFits(op: Operator, q: Resources, k: Resource)
    requires CanTake(op, q) && Amount(op.inFlight, k) <= Amount(op.total, k)
    ensures Amount(op.inFlight, k) + Amount(q, k) <= Amount(op.total, k)
  {
  }

  /**
   Why a disconnect must kill leases. The operator joins, a client takes all of it, the operator
   joins again, another client takes all of it; now the first client's release comes in. A third
   client is granted all of it while the second still holds it.
   */
  lemma LateReleaseDoubleBooks()
    ensures var all := Resources(8, 0, 0, []);
            var op := NewOperator("solo", all);
            var w := PlayAll(EMPTY, [Join(op), Take("solo", all), Join(op), Take("solo", all)]);
            var w' := ReleasedBlindly(w, "solo", all);
            w'.ledger == [Lease("solo", all)] && "solo" in w'.reg && "solo" in w'.base &&
            Grants(w'.reg, "solo", all) && Overbooks(w', "solo", all, Cpu)
  {
    var all := Resources(8, 0, 0, []);
    var op := NewOperator("solo", all);
    var full := Commit(op, all);
    assert Free(op) == all && CanTake(op, all) && GiveBack(full, all) == op;
    assert Without([], "solo") == [];
    assert [Lease("solo", all)][1..] == [] && Without([Lease("solo", all)], "solo") == [];
    var m1, m2 := [Join(op)], [Join(op), Take("solo", all)];
    var m3, m4 := m2 + [Join(op)], m2 + [Join(op)] + [Take("solo", all)];
    PlaySnoc(EMPTY, [], Join(op));
    assert [] + [Join(op)] == m1 && m1 + [Take("solo", all)] == m2;
    var w1 := PlayAll(EMPTY, m1);
    assert w1.reg["solo"] == op && w1.ledger == [];
    PlaySnoc(EMPTY, m1, Take("solo", all));
    assert PlayAll(EMPTY, m2).ledger == [Lease("solo", all)];
    PlaySnoc(EMPTY, m2, Join(op));
    var w3 := PlayAll(EMPTY, m3);
    assert w3.reg["solo"] == op && w3.ledger == [];
    PlaySnoc(EMPTY, m3, Take("solo", all));
    assert m4 == [Join(op), Take("solo", all), Join(op), Take("solo", all)];
    assert PlayAll(EMPTY, m4).ledger == [Lease("solo", all)];
  }

  lemma PlaySnoc(w: World, moves: seq<Move>, m: Move)
    ensures PlayAll(w, moves + [m]) == Play(PlayAll(w, moves), m)
  {
    assert (moves + [m])[..|moves|] == moves;
  }

  // ----- reputation

  ghost function Fold(r0: real, samples: seq<real>): real {
    if samples == [] then r0 else Ewma(Fold(r0, samples[..|samples| - 1]), samples[|samples| - 1])
  }

  ghost function Decay(n: nat): real {
    if n == 0 then 1.0 else 0.8 * Decay(n - 1)
  }

  /** The recency-weighted sum: sample `i` of `n` counts with weight 0.8^(n-1-i). */
  ghost function Weighted(samples: seq<real>): real {
    if samples == [] then 0.0
    else Decay(|samples| - 1) * samples[0] + Weighted(samples[1..])
  }

  lemma {:induction false} WeightedSnoc(samples: seq<real>, x: real)
    ensures Weighted(samples + [x]) == 0.8 * Weighted(samples) + x
  {
    if samples == [] {
      assert [x][1..] == [] && samples + [x] == [x];
      assert Weighted([x]) == Decay(0) * x + Weighted([]);
    } else {
      var s := samples + [x];
      assert s[1..] == samples[1..] + [x];
      WeightedSnoc(samples[1..], x);
      DecayScale(|samples|, samples[0]);
    }
  }

  lemma DecayScale(n: nat, x: real)
    requires n > 0
    ensures Decay(n) * x == 0.8 * (Decay(n - 1) * x)
  {
  }

  /** After any outcomes the reputation is 0.8^n of where it began plus 0.2 of the weighted samples. */
  lemma {:induction false} ReputationClosedForm(r0: real, samples: seq<real>)
    ensures Fold(r0, samples) == Decay(|samples|) * r0 + 0.2 * Weighted(samples)
  {
    if samples != [] {
      var k := |samples| - 1;
      var s, x := samples[..k], samples[k];
      assert samples == s + [x];
      ReputationClosedForm(r0, s);
      WeightedSnoc(s, x);
      DecayScale(k + 1, r0);
    }
  }

  lemma EwmaInRange(r: real, sample: real)
    requires 0.0 <= r <= 1.0 && 0.0 <= sample <= 1.0
    ensures 0.0 <= Ewma(r, sample) <= 1.0
  {
  }

  /** Equal outcomes wash out the past: the gap between two operators shrinks to exactly 0.8^n of itself. */
  lemma {:induction false} ReputationForgets(r0: real, r0': real, samples: seq<real>)
    ensures Fold(r0, samples) - Fold(r0', samples) == Decay(|samples|) * (r0 - r0')
  {
    ReputationClosedForm(r0, samples);
    ReputationClosedForm(r0', samples);
  }

  /** `n` outcomes for `id` that all succeeded, or all did not, whatever happens to others in between. */
  ghost predicate AllOf(actions: seq<Action>, id: OperatorId, good: bool) {
    forall i | 0 <= i < |actions| && actions[i].RecordOutcome? && actions[i].id == id ::
      actions[i].outcome.Success? == good
  }

  /** How many outcomes of `id` are among the actions. */
  ghost function Judged(actions: seq<Action>, id: OperatorId): nat {
    if actions == [] then 0
    else
      var a := actions[|actions| - 1];
      Judged(actions[..|actions| - 1], id) + if a.RecordOutcome? && a.id == id then 1 else 0
  }

  /** One outcome moves the reputation a fifth of the way to one, if it is a success, or to zero. */
  lemma OutcomeMoves(r: Registry, id: OperatorId, outcome: DelegationOutcome)
    requires id in r
    ensures var r' := Exec(r, RecordOutcome(id, outcome));
            id in r' && r' == r[id := r[id].(reputation := r'[id].reputation)] &&
            r'[id].reputation == match outcome
                                 case Success => 0.2 + 0.8 * r[id].reputation
                                 case _ => 0.8 * r[id].reputation
  {
  }

  ghost function Streak(r0: real, n: nat, good: bool): real {
    if good then 1.0 - Decay(n) * (1.0 - r0) else Decay(n) * r0
  }

  lemma StreakStep(r0: real, n: nat, good: bool)
    ensures Streak(r0, n + 1, good) == 0.8 * Streak(r0, n, good) + if good then 0.2 else 0.0
  {
    DecayScale(n + 1, 1.0 - r0);
    DecayScale(n + 1, r0);
  }

  lemma {:induction false} StreakFollows(r: Registry, actions: seq<Action>, id: OperatorId, good: bool)
    requires id in r && (forall i | 0 <= i < |actions| :: Keeps(actions[i], id)) && AllOf(actions, id, good)
    ensures id in ExecAll(r, actions)
    ensures ExecAll(r, actions)[id].reputation == Streak(r[id].reputation, Judged(actions, id), good)
  {
    if actions != [] {
      var k := |actions| - 1;
      StreakFollows(r, actions[..k], id, good);
      var prev, a := ExecAll(r, actions[..k]), actions[k];
      assert Keeps(a, id);
      if a.RecordOutcome? && a.id == id {
        OutcomeMoves(prev, id, a.outcome);
        StreakStep(r[id].reputation, Judged(actions[..k], id), good);
      } else {
        assert id in Exec(prev, a) && Exec(prev, a)[id].reputation == prev[id].reputation;
      }
    }
  }

  /**
   Under any interleaving, `n` successes close the gap to one to 0.8^n of itself, and `n` failures,
   timeouts or disconnects take the reputation to 0.8^n of what it was.
   */
  lemma StreakMoves(r: Registry, actions: seq<Action>, id: OperatorId, good: bool)
    requires id in r && (forall i | 0 <= i < |actions| :: Keeps(actions[i], id)) && AllOf(actions, id, good)
    ensures id in ExecAll(r, actions)
    ensures good ==> ExecAll(r, actions)[id].reputation == 1.0 - Decay(Judged(actions, id)) * (1.0 - r[id].reputation)
    ensures !good ==> ExecAll(r, actions)[id].reputation == Decay(Judged(actions, id)) * r[id].reputation
  {
    StreakFollows(r, actions, id, good);
  }

  /** A new operator is idle, has all of its total to give and a reputation in the middle. */
  lemma NewOperatorIsFree(id: OperatorId, total: Resources, req: Resources)
    ensures var op := NewOperator(id, total);
            op.id == id && op.total == total && op.inFlight.capabilities == total.capabilities &&
            op.reputation == 0.5 && Within(op) && (CanTake(op, req) <==> Satisfies(total, req))
  {
  }

  /** The outcomes recorded for `id`, a success as one and anything else as zero. */
  ghost function SamplesOf(actions: seq<Action>, id: OperatorId): seq<real> {
    if actions == [] then []
    else
      var a := actions[|actions| - 1];
      SamplesOf(actions[..|actions| - 1], id) +
      if a.RecordOutcome? && a.id == id then [if a.outcome.Success? then 1.0 else 0.0] else []
  }

  ghost predicate Keeps(a: Action, id: OperatorId) {
    (a.Register? ==> a.op.id != id) && (a.Deregister? ==> a.id != id)
  }

  /** Under any interleaving an operator's reputation is the fold of its own outcomes, in order. */
  lemma {:induction false} ReputationOfInterleaving(r: Registry, actions: seq<Action>, id: OperatorId)
    requires id in r && forall i | 0 <= i < |actions| :: Keeps(actions[i], id)
    ensures id in ExecAll(r, actions)
    ensures ExecAll(r, actions)[id].reputation == Fold(r[id].reputation, SamplesOf(actions, id))
  {
    if actions != [] {
      var k := |actions| - 1;
      ReputationOfInterleaving(r, actions[..k], id);
      var prev, a := SamplesOf(actions[..k], id), actions[k];
      assert Keeps(a, id);
      if a.RecordOutcome? && a.id == id {
        var s := prev + [Sample(a.outcome)];
        assert s[..|s| - 1] == prev;
      } else {
        assert prev + [] == prev;
      }
    }
  }

  ghost predicate Rated(op: Operator) {
    0.0 <= op.reputation <= 1.0
  }

  /** Reputations registered within [0, 1] stay there under any interleaving. */
  lemma {:induction false} RatingsStayInRange(r: Registry, actions: seq<Action>)
    requires forall id | id in r :: Rated(r[id])
    requires forall i | 0 <= i < |actions| && actions[i].Register? :: Rated(actions[i].op)
    ensures forall id | id in ExecAll(r, actions) :: Rated(ExecAll(r, actions)[id])
  {
    if actions != [] {
      var k := |actions| - 1;
      RatingsStayInRange(r, actions[..k]);
      var prev := ExecAll(r, actions[..k]);
      if actions[k].RecordOutcome? && actions[k].id in prev {
        EwmaInRange(prev[actions[k].id].reputation, Sample(actions[k].outcome));
      }
    }
  }
}
