/** What the attestation hash of a run says about its outputs. */
module Attestation {
  import opened KeyOrder
  import opened Json
  import opened Graphs
  import opened Scheduler
  import opened SchedulerInvariants

  /** `es` has exactly the entries of `m` as its fields. */
  ghost predicate Represents(es: seq<Entry>, m: map<NodeId, Value>) {
    DistinctKeys(es) && KeySet(es) == m.Keys &&
    forall i | 0 <= i < |es| :: es[i].key in m && es[i].val == m[es[i].key]
  }

  /** The hashed object has exactly the outputs as its fields. */
  lemma AsObjectFields(outputs: map<NodeId, Value>)
    ensures AsObject(outputs).Obj? && Represents(AsObject(outputs).entries, outputs)
  {
    var ks := InOrder(outputs.Keys);
    InOrderOf(outputs.Keys, ks);
    AscendingDistinct(ks);
    var es := AsObject(outputs).entries;
    assert |es| == |ks| && forall i | 0 <= i < |ks| :: es[i].key == ks[i] && ks[i] in Elems(ks);
    forall k ensures k in KeySet(es) <==> k in Elems(ks) {
      if k in Elems(ks) {
        var i :| 0 <= i < |ks| && ks[i] == k;
        assert es[i].key == k;
      }
    }
  }

  lemma RepresentsGet(es: seq<Entry>, m: map<NodeId, Value>, k: NodeId)
    requires Represents(es, m)
    ensures Get(es, k) == if k in m then Some(m[k]) else None
  {
    GetKeys(es, k);
    if Get(es, k).Some? {
      var i := GetIndex(es, k);
    }
  }

  ghost predicate AllWellFormed(outputs: map<NodeId, Value>) {
    forall k | k in outputs :: WellFormed(outputs[k])
  }

  ghost predicate SameUpToKeyOrder(a: map<NodeId, Value>, b: map<NodeId, Value>) {
    a.Keys == b.Keys && forall k | k in a :: Equiv(a[k], b[k])
  }

  lemma EquivMeansSame(xs: seq<Entry>, a: map<NodeId, Value>, ys: seq<Entry>, b: map<NodeId, Value>)
    requires Represents(xs, a) && Represents(ys, b) && Equiv(Obj(xs), Obj(ys))
    ensures SameUpToKeyOrder(a, b)
  {
    EquivSameKeys(xs, ys);
    forall k | k in a ensures k in b && Equiv(a[k], b[k]) {
      RepresentsGet(xs, a, k);
      var i := GetIndex(xs, k);
      RepresentsGet(ys, b, k);
      assert Equiv(xs[i].val, Get(ys, xs[i].key).value);
    }
  }

  lemma SameMeansEquiv(xs: seq<Entry>, a: map<NodeId, Value>, ys: seq<Entry>, b: map<NodeId, Value>)
    requires Represents(xs, a) && Represents(ys, b) && SameUpToKeyOrder(a, b)
    ensures Equiv(Obj(xs), Obj(ys))
  {
    KeySetSize(xs);
    KeySetSize(ys);
    forall i | 0 <= i < |xs| ensures Get(ys, xs[i].key).Some? && Equiv(xs[i].val, Get(ys, xs[i].key).value) {
      RepresentsGet(ys, b, xs[i].key);
    }
  }

  lemma AsObjectEquiv(a: map<NodeId, Value>, b: map<NodeId, Value>)
    ensures Equiv(AsObject(a), AsObject(b)) <==> SameUpToKeyOrder(a, b)
  {
    AsObjectFields(a);
    AsObjectFields(b);
    var xs, ys := AsObject(a).entries, AsObject(b).entries;
    if Equiv(Obj(xs), Obj(ys)) { EquivMeansSame(xs, a, ys, b); }
    if SameUpToKeyOrder(a, b) { SameMeansEquiv(xs, a, ys, b); }
  }

  lemma AsObjectWellFormed(outputs: map<NodeId, Value>)
    requires AllWellFormed(outputs)
    ensures WellFormed(AsObject(outputs))
  {
    AsObjectFields(outputs);
  }

  /**
   Two successful runs, of whatever workflows, in which the same nodes produced the same outputs up
   to key order carry the same attestation hash, whatever the digest. Conversely equal hashes mean
   such outputs, unless the digests of these two output objects clash.
   */
  lemma AttestationIdentifiesOutputs(w: Workflow, s: State, w': Workflow, t: State)
    requires Reachable(w, s) && s.status.Completed? && Reachable(w', t) && t.status.Completed?
    requires w.digest == w'.digest && AllWellFormed(s.outputs) && AllWellFormed(t.outputs)
    ensures SameUpToKeyOrder(s.outputs, t.outputs) ==> s.status.hash == t.status.hash
    ensures SameUpToKeyOrder(s.outputs, t.outputs) <==>
            s.status.hash == t.status.hash && NoClash(w.digest, AsObject(s.outputs), AsObject(t.outputs))
  {
    HashOfRun(w, s);
    HashOfRun(w', t);
    AsObjectWellFormed(s.outputs);
    AsObjectWellFormed(t.outputs);
    HashIdentifies(w.digest, AsObject(s.outputs), AsObject(t.outputs));
    AsObjectEquiv(s.outputs, t.outputs);
  }

  lemma HashOfRun(w: Workflow, s: State)
    requires Reachable(w, s) && s.status.Completed?
    ensures s.status.hash == HashJson(w.digest, AsObject(s.outputs))
  {
    CoreReachable(w, s);
  }
}
