/**
 JSON values as `serde_json` represents them, and the canonical form that is hashed.
 An object is a sequence of entries in insertion order; `WellFormed` says that its keys are
 distinct at every depth, which `serde_json::Map` guarantees.
 */
module Json {
  import opened KeyOrder

  datatype Option<+T> = None | Some(value: T)

  /** The three representations of a JSON number; floats are idealised as reals. */
  datatype Number = PosInt(n: nat) | NegInt(i: int) | Float(r: real)

  datatype Value =
    | Null
    | Bool(b: bool)
    | Num(num: Number)
    | Str(s: string)
    | Arr(items: seq<Value>)
    | Obj(entries: seq<Entry>)

  datatype Entry = Entry(key: string, val: Value)

  predicate DistinctKeys(es: seq<Entry>) {
    forall i, j | 0 <= i < j < |es| :: es[i].key != es[j].key
  }

  predicate WellFormed(v: Value) {
    match v
    case Arr(items) => forall i | 0 <= i < |items| :: WellFormed(items[i])
    case Obj(es) => DistinctKeys(es) && forall i | 0 <= i < |es| :: WellFormed(es[i].val)
    case _ => true
  }

  function Get(es: seq<Entry>, k: string): Option<Value> {
    if es == [] then None
    else if es[0].key == k then Some(es[0].val)
    else Get(es[1..], k)
  }

  /** Equality up to the order of object keys, at every depth: `==` on `serde_json::Value`. */
  predicate Equiv(a: Value, b: Value) {
    match (a, b)
    case (Arr(xs), Arr(ys)) =>
      |xs| == |ys| && forall i | 0 <= i < |xs| :: Equiv(xs[i], ys[i])
    case (Obj(xs), Obj(ys)) =>
      |xs| == |ys| &&
      forall i | 0 <= i < |xs| ::
        var o := Get(ys, xs[i].key);
        o.Some? && Equiv(xs[i].val, o.value)
    case _ => a == b
  }

  // ----- canonicalisation

  /** `BTreeMap::insert`. */
  function InsertEntry(es: seq<Entry>, k: string, v: Value): seq<Entry> {
    if es == [] then [Entry(k, v)]
    else if k == es[0].key then [Entry(k, v)] + es[1..]
    else if Less(k, es[0].key) then [Entry(k, v)] + es
    else [es[0]] + InsertEntry(es[1..], k, v)
  }

  function SortEntries(es: seq<Entry>): seq<Entry> {
    if es == [] then []
    else
      var last := es[|es| - 1];
      InsertEntry(SortEntries(es[..|es| - 1]), last.key, last.val)
  }

  function Canon(v: Value): Value {
    match v
    case Arr(items) => Arr(seq(|items|, i requires 0 <= i < |items| => Canon(items[i])))
    case Obj(es) =>
      Obj(SortEntries(seq(|es|, i requires 0 <= i < |es| => Entry(es[i].key, Canon(es[i].val)))))
    case _ => v
  }

  function CanonEntries(es: seq<Entry>): seq<Entry> {
    seq(|es|, i requires 0 <= i < |es| => Entry(es[i].key, Canon(es[i].val)))
  }

  function CanonOption(o: Option<Value>): Option<Value> {
    match o
    case None => None
    case Some(v) => Some(Canon(v))
  }

  method Canonicalize(v: Value) returns (r: Value)
    ensures r == Canon(v)
    decreases v
  {
    match v {
      case Obj(es) =>
        var sorted: seq<Entry> := [];
        for i := 0 to |es|
          invariant sorted == SortEntries(CanonEntries(es)[..i])
        {
          var val := Canonicalize(es[i].val);
          sorted := InsertEntry(sorted, es[i].key, val);
          assert CanonEntries(es)[..i + 1][..i] == CanonEntries(es)[..i];
        }
        assert CanonEntries(es)[..|es|] == CanonEntries(es);
        r := Obj(sorted);
      case Arr(items) =>
        var out: seq<Value> := [];
        for i := 0 to |items|
          invariant |out| == i && forall j | 0 <= j < i :: out[j] == Canon(items[j])
        {
          var x := Canonicalize(items[i]);
          out := out + [x];
        }
        assert out == Canon(v).items;
        r := Arr(out);
      case _ => r := v;
    }
  }

  // ----- entry sequences

  ghost predicate AscendingEntries(es: seq<Entry>) {
    forall i, j | 0 <= i < j < |es| :: Less(es[i].key, es[j].key)
  }

  ghost function KeySet(es: seq<Entry>): set<string> {
    set i | 0 <= i < |es| :: es[i].key
  }

  lemma {:induction false} GetAt(es: seq<Entry>, i: nat)
    requires DistinctKeys(es) && i < |es|
    ensures Get(es, es[i].key) == Some(es[i].val)
  {
    if i > 0 {
      GetAt(es[1..], i - 1);
    }
  }

  lemma {:induction false} GetKeys(es: seq<Entry>, k: string)
    ensures Get(es, k).Some? <==> k in KeySet(es)
  {
    if es != [] {
      GetKeys(es[1..], k);
      assert es == [es[0]] + es[1..];
      assert KeySet(es) == {es[0].key} + KeySet(es[1..]) by { KeySetCons(es); }
    }
  }

  lemma KeySetCons(es: seq<Entry>)
    requires es != []
    ensures KeySet(es) == {es[0].key} + KeySet(es[1..])
  {
    var t := es[1..];
    forall k | k in KeySet(es) ensures k in {es[0].key} + KeySet(t) {
      var i :| 0 <= i < |es| && es[i].key == k;
      if i > 0 { assert t[i - 1].key == k; }
    }
    forall k | k in KeySet(t) ensures k in KeySet(es) {
      var i :| 0 <= i < |t| && t[i].key == k;
      assert es[i + 1].key == k;
    }
  }

  /** The witness that a present key has an index. */
  lemma GetIndex(es: seq<Entry>, k: string) returns (i: nat)
    requires Get(es, k).Some?
    ensures i < |es| && es[i].key == k && es[i].val == Get(es, k).value
  {
    if es[0].key == k {
      i := 0;
    } else {
      i := GetIndex(es[1..], k);
      i := i + 1;
    }
  }

  lemma {:induction false} KeySetSize(es: seq<Entry>)
    requires DistinctKeys(es)
    ensures |KeySet(es)| == |es|
  {
    if es != [] {
      var t := es[1..];
      KeySetSize(t);
      KeySetCons(es);
      assert es[0].key !in KeySet(t);
    }
  }

  lemma {:induction false} GetInsert(es: seq<Entry>, k: string, v: Value, q: string)
    ensures Get(InsertEntry(es, k, v), q) == if q == k then Some(v) else Get(es, q)
  {
    if es != [] && k != es[0].key && !Less(k, es[0].key) {
      GetInsert(es[1..], k, v, q);
    }
  }

  lemma {:induction false} InsertKeepsOrder(es: seq<Entry>, k: string, v: Value)
    requires AscendingEntries(es)
    ensures AscendingEntries(InsertEntry(es, k, v))
    ensures |InsertEntry(es, k, v)| == |es| + (if Get(es, k).Some? then 0 else 1)
  {
    if es == [] || k == es[0].key {
    } else if Less(k, es[0].key) {
      forall i | 0 <= i < |es| ensures Less(k, es[i].key) {
        if i > 0 { LessTransitive(k, es[0].key, es[i].key); }
      }
      AscendingAbsent(es, k);
    } else {
      LessTotal(k, es[0].key);
      var t := es[1..];
      InsertKeepsOrder(t, k, v);
      var r := InsertEntry(t, k, v);
      forall j | 0 <= j < |r| ensures Less(es[0].key, r[j].key) {
        AscendingDistinctKeys(r);
        GetAt(r, j);
        GetInsert(t, k, v, r[j].key);
        if r[j].key != k {
          var i := GetIndex(t, r[j].key);
          assert es[i + 1].key == r[j].key;
        }
      }
    }
  }

  lemma AscendingAbsent(es: seq<Entry>, k: string)
    requires forall i | 0 <= i < |es| :: Less(k, es[i].key)
    ensures Get(es, k) == None
  {
    GetKeys(es, k);
    LessIrreflexive(k);
  }

  lemma AscendingDistinctKeys(es: seq<Entry>)
    requires AscendingEntries(es)
    ensures DistinctKeys(es)
  {
    forall i, j | 0 <= i < j < |es| ensures es[i].key != es[j].key {
      LessIrreflexive(es[i].key);
    }
  }

  lemma {:induction false} GetSnoc(es: seq<Entry>, e: Entry, q: string)
    ensures Get(es + [e], q) ==
            if Get(es, q).Some? then Get(es, q) else if e.key == q then Some(e.val) else None
  {
    if es != [] {
      assert (es + [e])[1..] == es[1..] + [e];
      GetSnoc(es[1..], e, q);
    }
  }

  lemma {:induction false} SortOrders(es: seq<Entry>)
    requires DistinctKeys(es)
    ensures AscendingEntries(SortEntries(es)) && |SortEntries(es)| == |es|
  {
    if es != [] {
      var t, last := es[..|es| - 1], es[|es| - 1];
      SortOrders(t);
      InsertKeepsOrder(SortEntries(t), last.key, last.val);
      SortGet(t, last.key);
      GetKeys(t, last.key);
    }
  }

  lemma {:induction false} SortGet(es: seq<Entry>, q: string)
    requires DistinctKeys(es)
    ensures Get(SortEntries(es), q) == Get(es, q)
  {
    if es != [] {
      var t, last := es[..|es| - 1], es[|es| - 1];
      SortGet(t, q);
      GetInsert(SortEntries(t), last.key, last.val, q);
      GetSnoc(t, last, q);
      assert es == t + [last];
      GetKeys(t, last.key);
    }
  }

  /** A sorted entry sequence is determined by what it maps each key to. */
  lemma {:induction false} SortedEntriesUnique(a: seq<Entry>, b: seq<Entry>)
    requires AscendingEntries(a) && AscendingEntries(b)
    requires forall q :: Get(a, q) == Get(b, q)
    ensures a == b
  {
    if a == [] {
      assert b != [] ==> Get(b, b[0].key).Some?;
      assert b != [] ==> Get(a, b[0].key) == None;
    } else {
      assert Get(a, a[0].key).Some?;
      var i := GetIndex(b, a[0].key);
      var j := GetIndex(a, b[0].key);
      LessTotal(a[0].key, b[0].key);
      assert a[0] == b[0];
      forall q ensures Get(a[1..], q) == Get(b[1..], q) {
        if q == a[0].key {
          AscendingAbsent(a[1..], q);
          AscendingAbsent(b[1..], q);
        } else {
          assert Get(a, q) == Get(b, q);
        }
      }
      SortedEntriesUnique(a[1..], b[1..]);
      assert a == [a[0]] + a[1..] && b == [b[0]] + b[1..];
    }
  }

  lemma {:induction false} CanonEntriesGet(es: seq<Entry>, q: string)
    ensures Get(CanonEntries(es), q) == CanonOption(Get(es, q))
  {
    if es != [] {
      assert CanonEntries(es)[1..] == CanonEntries(es[1..]);
      CanonEntriesGet(es[1..], q);
    }
  }

  /** What canonicalising an object does: sorted keys, canonical values, nothing lost. */
  lemma CanonObject(es: seq<Entry>)
    requires DistinctKeys(es)
    ensures Canon(Obj(es)).Obj? && AscendingEntries(Canon(Obj(es)).entries)
    ensures |Canon(Obj(es)).entries| == |es|
    ensures forall q :: Get(Canon(Obj(es)).entries, q) == CanonOption(Get(es, q))
  {
    var ces := CanonEntries(es);
    assert Canon(Obj(es)).entries == SortEntries(ces);
    assert DistinctKeys(ces);
    SortOrders(ces);
    forall q ensures Get(SortEntries(ces), q) == CanonOption(Get(es, q)) {
      SortGet(ces, q);
      CanonEntriesGet(es, q);
    }
  }

  // ----- main results about canonicalisation

  lemma {:induction false} CanonWellFormed(v: Value)
    requires WellFormed(v)
    ensures WellFormed(Canon(v))
    decreases v
  {
    match v {
      case Arr(items) =>
        forall i | 0 <= i < |items| ensures WellFormed(Canon(items[i])) {
          CanonWellFormed(items[i]);
        }
      case Obj(es) =>
        CanonObject(es);
        var ces := Canon(v).entries;
        AscendingDistinctKeys(ces);
        forall i | 0 <= i < |ces| ensures WellFormed(ces[i].val) {
          GetAt(ces, i);
          assert CanonOption(Get(es, ces[i].key)) == Some(ces[i].val);
          var j := GetIndex(es, ces[i].key);
          CanonWellFormed(es[j].val);
        }
      case _ =>
    }
  }

  lemma {:induction false} CanonIdempotent(v: Value)
    requires WellFormed(v)
    ensures Canon(Canon(v)) == Canon(v)
    decreases v
  {
    match v {
      case Arr(items) =>
        forall i | 0 <= i < |items| ensures Canon(Canon(items[i])) == Canon(items[i]) {
          CanonIdempotent(items[i]);
        }
        assert Canon(Canon(v)).items == Canon(v).items;
      case Obj(es) =>
        CanonObject(es);
        var ces := Canon(v).entries;
        AscendingDistinctKeys(ces);
        CanonObject(ces);
        forall q ensures Get(Canon(Obj(ces)).entries, q) == Get(ces, q) {
          if Get(es, q).Some? {
            var j := GetIndex(es, q);
            CanonIdempotent(es[j].val);
          }
        }
        SortedEntriesUnique(Canon(Obj(ces)).entries, ces);
      case _ =>
    }
  }

  /** Canonical forms coincide exactly for values that are equal up to key order. */
  lemma {:induction false} CanonIffEquiv(a: Value, b: Value)
    requires WellFormed(a) && WellFormed(b)
    ensures Canon(a) == Canon(b) <==> Equiv(a, b)
    decreases a
  {
    match (a, b) {
      case (Arr(xs), Arr(ys)) => CanonIffEquivArrays(xs, ys, a);
      case (Obj(xs), Obj(ys)) =>
        CanonObject(xs);
        CanonObject(ys);
        if Equiv(a, b) { EquivObjectsSameCanon(xs, ys, a); }
        if Canon(a) == Canon(b) { SameCanonObjectsEquiv(xs, ys, a); }
      case _ =>
    }
  }

  lemma {:induction false} CanonIffEquivArrays(xs: seq<Value>, ys: seq<Value>, a: Value)
    requires a == Arr(xs) && WellFormed(a) && WellFormed(Arr(ys))
    ensures Canon(a) == Canon(Arr(ys)) <==> Equiv(a, Arr(ys))
    decreases a, 0
  {
    var cx, cy := Canon(a).items, Canon(Arr(ys)).items;
    if |xs| == |ys| {
      forall i | 0 <= i < |xs| ensures Canon(xs[i]) == Canon(ys[i]) <==> Equiv(xs[i], ys[i]) {
        CanonIffEquiv(xs[i], ys[i]);
      }
      if Equiv(a, Arr(ys)) { assert cx == cy; }
      if cx == cy {
        forall i | 0 <= i < |xs| ensures Equiv(xs[i], ys[i]) {
          assert cx[i] == cy[i];
        }
      }
    } else {
      assert |cx| != |cy|;
    }
  }

  lemma {:induction false} EquivObjectsSameCanon(xs: seq<Entry>, ys: seq<Entry>, a: Value)
    requires a == Obj(xs) && WellFormed(a) && WellFormed(Obj(ys)) && Equiv(a, Obj(ys))
    ensures Canon(a) == Canon(Obj(ys))
    decreases a, 0
  {
    CanonObject(xs);
    CanonObject(ys);
    forall q ensures CanonOption(Get(xs, q)) == CanonOption(Get(ys, q)) {
      if Get(xs, q).Some? {
        var i := GetIndex(xs, q);
        var j := GetIndex(ys, q);
        CanonIffEquiv(xs[i].val, ys[j].val);
      } else {
        EquivSameKeys(xs, ys);
        GetKeys(xs, q);
        GetKeys(ys, q);
      }
    }
    SortedEntriesUnique(Canon(a).entries, Canon(Obj(ys)).entries);
  }

  lemma EquivSameKeys(xs: seq<Entry>, ys: seq<Entry>)
    requires DistinctKeys(xs) && DistinctKeys(ys) && |xs| == |ys|
    requires forall i | 0 <= i < |xs| :: Get(ys, xs[i].key).Some?
    ensures KeySet(xs) == KeySet(ys)
  {
    forall k | k in KeySet(xs) ensures k in KeySet(ys) {
      GetKeys(ys, k);
    }
    KeySetSize(xs);
    KeySetSize(ys);
    SubsetSize(KeySet(xs), KeySet(ys));
  }

  ghost predicate SameUnder(xs: seq<Entry>, ys: seq<Entry>, k: string) {
    Get(xs, k).Some? == Get(ys, k).Some? &&
    (Get(xs, k).Some? && Get(ys, k).Some? ==> Equiv(Get(xs, k).value, Get(ys, k).value))
  }

  /** Objects are equal exactly if they have equal values, or none, under every key. */
  lemma EquivFields(xs: seq<Entry>, ys: seq<Entry>)
    requires DistinctKeys(xs) && DistinctKeys(ys)
    ensures Equiv(Obj(xs), Obj(ys)) <==> forall k :: SameUnder(xs, ys, k)
  {
    if Equiv(Obj(xs), Obj(ys)) {
      EquivSameKeys(xs, ys);
      forall k ensures SameUnder(xs, ys, k) {
        GetKeys(xs, k);
        GetKeys(ys, k);
        if Get(xs, k).Some? {
          var i := GetIndex(xs, k);
        }
      }
    }
    if forall k :: SameUnder(xs, ys, k) {
      forall k ensures k in KeySet(xs) <==> k in KeySet(ys) {
        GetKeys(xs, k);
        GetKeys(ys, k);
        assert SameUnder(xs, ys, k);
      }
      KeySetSize(xs);
      KeySetSize(ys);
      assert KeySet(xs) == KeySet(ys);
      forall i | 0 <= i < |xs| ensures Get(ys, xs[i].key).Some? && Equiv(xs[i].val, Get(ys, xs[i].key).value) {
        GetAt(xs, i);
        assert SameUnder(xs, ys, xs[i].key);
      }
    }
  }

  lemma {:induction false} SameCanonObjectsEquiv(xs: seq<Entry>, ys: seq<Entry>, a: Value)
    requires a == Obj(xs) && WellFormed(a) && WellFormed(Obj(ys)) && Canon(a) == Canon(Obj(ys))
    ensures Equiv(a, Obj(ys))
    decreases a, 0
  {
    CanonObject(xs);
    CanonObject(ys);
    forall i | 0 <= i < |xs|
      ensures Get(ys, xs[i].key).Some? && Equiv(xs[i].val, Get(ys, xs[i].key).value)
    {
      var q := xs[i].key;
      GetAt(xs, i);
      assert CanonOption(Get(xs, q)) == CanonOption(Get(ys, q));
      var j := GetIndex(ys, q);
      CanonIffEquiv(xs[i].val, ys[j].val);
    }
  }

  // ----- hashing

  /** `hash_json`: the digest (of the serialisation) of the canonical form. */
  function HashJson(digest: Value -> string, v: Value): string {
    digest(Canon(v))
  }

  /** The digests of these two canonical forms do not happen to clash. */
  ghost predicate NoClash(digest: Value -> string, a: Value, b: Value) {
    digest(Canon(a)) == digest(Canon(b)) ==> Canon(a) == Canon(b)
  }

  /**
   Values that differ only in key order hash alike, whatever the digest. Two values hash alike and
   do not clash exactly when they are equal up to key order.
   */
  lemma HashIdentifies(digest: Value -> string, a: Value, b: Value)
    requires WellFormed(a) && WellFormed(b)
    ensures Equiv(a, b) ==> HashJson(digest, a) == HashJson(digest, b)
    ensures Equiv(a, b) <==> HashJson(digest, a) == HashJson(digest, b) && NoClash(digest, a, b)
  {
    CanonIffEquiv(a, b);
  }
}
