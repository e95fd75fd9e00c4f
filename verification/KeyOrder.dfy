/**
 The iteration order of a `BTreeMap<String, _>`: ascending keys, strings being compared
 lexicographically by code point (which is the byte order of their UTF-8 form).
 */
module KeyOrder {

  predicate Less(a: string, b: string) {
    b != [] && (a == [] || a[0] < b[0] || (a[0] == b[0] && Less(a[1..], b[1..])))
  }

  /** `a` and `b` agree on the first `k` characters; then `a` ends, or has the smaller character. */
  ghost predicate SmallerAt(a: string, b: string, k: nat) {
    k <= |a| && k < |b| && a[..k] == b[..k] && (k == |a| || a[k] < b[k])
  }

  /** The order is decided by the first character in which two strings differ; a prefix comes first. */
  lemma {:induction false} LessIffSmaller(a: string, b: string)
    ensures Less(a, b) <==> exists k: nat :: SmallerAt(a, b, k)
  {
    if b != [] {
      if a == [] || a[0] < b[0] {
        assert SmallerAt(a, b, 0);
      } else {
        LessIffSmaller(a[1..], b[1..]);
        if k: nat :| SmallerAt(a[1..], b[1..], k) && a[0] == b[0] {
          assert a[..k + 1] == [a[0]] + a[1..][..k] && b[..k + 1] == [b[0]] + b[1..][..k];
          assert SmallerAt(a, b, k + 1);
        }
        if k: nat :| SmallerAt(a, b, k) {
          SmallerInTail(a, b, k);
        }
      }
    }
  }

  lemma SmallerInTail(a: string, b: string, k: nat)
    requires SmallerAt(a, b, k) && a != [] && a[0] >= b[0]
    ensures k > 0 && a[0] == b[0] && SmallerAt(a[1..], b[1..], k - 1)
  {
    assert a[..k][0] == a[0] && b[..k][0] == b[0];
    assert a[1..][..k - 1] == a[..k][1..] && b[1..][..k - 1] == b[..k][1..];
  }

  predicate Ascending(ks: seq<string>) {
    forall i, j | 0 <= i < j < |ks| :: Less(ks[i], ks[j])
  }

  function Elems<T>(s: seq<T>): set<T> {
    set x | x in s
  }

  predicate Distinct<T(==)>(s: seq<T>) {
    forall i, j | 0 <= i < j < |s| :: s[i] != s[j]
  }

  lemma {:induction false} LessTotal(a: string, b: string)
    ensures Less(a, b) || a == b || Less(b, a)
    ensures !(Less(a, b) && Less(b, a))
    ensures !Less(a, a)
  {
    if a != [] && b != [] {
      LessTotal(a[1..], b[1..]);
      if a[0] == b[0] && a[1..] == b[1..] {
        assert a == [a[0]] + a[1..] == b;
      }
    }
    if a != [] {
      LessIrreflexive(a);
    }
  }

  lemma {:induction false} LessIrreflexive(a: string)
    ensures !Less(a, a)
  {
    if a != [] {
      LessIrreflexive(a[1..]);
    }
  }

  lemma {:induction false} LessTransitive(a: string, b: string, c: string)
    requires Less(a, b) && Less(b, c)
    ensures Less(a, c)
  {
    if a != [] && a[0] == b[0] == c[0] {
      LessTransitive(a[1..], b[1..], c[1..]);
    }
  }

  /** Inserting a key into a sorted key sequence; a key that is present stays where it is. */
  function InsertKey(ks: seq<string>, k: string): seq<string> {
    if ks == [] then [k]
    else if k == ks[0] then ks
    else if Less(k, ks[0]) then [k] + ks
    else [ks[0]] + InsertKey(ks[1..], k)
  }

  lemma AscendingCons(x: string, t: seq<string>)
    requires Ascending(t) && forall y | y in t :: Less(x, y)
    ensures Ascending([x] + t) && Elems([x] + t) == {x} + Elems(t)
  {
    var s := [x] + t;
    forall i, j | 0 <= i < j < |s| ensures Less(s[i], s[j]) {
      assert s[j] == t[j - 1];
    }
  }

  lemma {:induction false} InsertKeySorts(ks: seq<string>, k: string)
    requires Ascending(ks)
    ensures Ascending(InsertKey(ks, k))
    ensures Elems(InsertKey(ks, k)) == Elems(ks) + {k}
  {
    if ks == [] || k == ks[0] {
    } else if Less(k, ks[0]) {
      forall y | y in ks ensures Less(k, y) {
        HeadIsLeast(ks, y);
        if y != ks[0] { LessTransitive(k, ks[0], y); }
      }
      AscendingCons(k, ks);
    } else {
      LessTotal(k, ks[0]);
      InsertKeySorts(ks[1..], k);
      var rest := InsertKey(ks[1..], k);
      forall y | y in rest ensures Less(ks[0], y) {
        assert y in Elems(rest);
      }
      AscendingCons(ks[0], rest);
      TailElems(ks);
    }
  }

  /** An ascending sequence is determined by the set of its elements. */
  lemma {:induction false} AscendingUnique(a: seq<string>, b: seq<string>)
    requires Ascending(a) && Ascending(b) && Elems(a) == Elems(b)
    ensures a == b
  {
    if a == [] {
      NoElemsNoMembers(b);
    } else {
      assert a[0] in Elems(b);
      assert b != [] && b[0] in Elems(a);
      HeadIsLeast(a, b[0]);
      HeadIsLeast(b, a[0]);
      LessTotal(a[0], b[0]);
      assert a[0] == b[0];
      assert a == [a[0]] + a[1..] && b == [b[0]] + b[1..];
      assert Elems(a[1..]) == Elems(a) - {a[0]} by { TailElems(a); }
      assert Elems(b[1..]) == Elems(b) - {b[0]} by { TailElems(b); }
      AscendingUnique(a[1..], b[1..]);
    }
  }

  lemma NoElemsNoMembers<T>(s: seq<T>)
    ensures s != [] ==> Elems(s) != {}
  {
    if s != [] {
      assert s[0] in Elems(s);
    }
  }

  lemma HeadIsLeast(a: seq<string>, x: string)
    requires Ascending(a) && x in a
    ensures x == a[0] || Less(a[0], x)
  {
    var i :| 0 <= i < |a| && a[i] == x;
  }

  lemma TailElems(a: seq<string>)
    requires Ascending(a) && a != []
    ensures Elems(a[1..]) == Elems(a) - {a[0]}
  {
    LessIrreflexive(a[0]);
    assert a == [a[0]] + a[1..];
  }

  lemma AscendingDistinct(a: seq<string>)
    requires Ascending(a)
    ensures Distinct(a)
  {
    forall i, j | 0 <= i < j < |a| ensures a[i] != a[j] {
      LessIrreflexive(a[i]);
    }
  }

  /** The keys of a map in `BTreeMap` order, as the iteration yields them. */
  method KeysInOrder(s: set<string>) returns (ks: seq<string>)
    ensures ks == InOrder(s)
  {
    ks := [];
    var todo := s;
    while todo != {}
      invariant todo <= s && Ascending(ks) && Elems(ks) == s - todo
      decreases |todo|
    {
      var k :| k in todo;
      InsertKeySorts(ks, k);
      ks := InsertKey(ks, k);
      todo := todo - {k};
    }
    InOrderOf(s, ks);
  }

  lemma OrderExists(s: set<string>)
    ensures exists ks :: Ascending(ks) && Elems(ks) == s
  {
    if s == {} {
      assert Ascending([]) && Elems<string>([]) == s;
    } else {
      var k :| k in s;
      OrderExists(s - {k});
      var ks :| Ascending(ks) && Elems(ks) == s - {k};
      InsertKeySorts(ks, k);
      assert Elems(InsertKey(ks, k)) == s;
    }
  }

  ghost function InOrder(s: set<string>): seq<string> {
    OrderExists(s);
    var ks :| Ascending(ks) && Elems(ks) == s;
    ks
  }

  lemma InOrderOf(s: set<string>, ks: seq<string>)
    ensures Ascending(InOrder(s)) && Elems(InOrder(s)) == s
    ensures Ascending(ks) && Elems(ks) == s ==> ks == InOrder(s)
  {
    OrderExists(s);
    if Ascending(ks) && Elems(ks) == s {
      AscendingUnique(ks, InOrder(s));
    }
  }

  lemma {:induction false} DistinctSize<T>(s: seq<T>)
    requires Distinct(s)
    ensures |Elems(s)| == |s|
  {
    if s != [] {
      var t := s[..|s| - 1];
      DistinctSize(t);
      assert s == t + [s[|s| - 1]];
      assert Elems(s) == Elems(t) + {s[|s| - 1]};
    }
  }

  lemma DistinctConcat<T>(a: seq<T>, b: seq<T>)
    requires Distinct(a) && Distinct(b) && forall x | x in b :: x !in a
    ensures Distinct(a + b)
  {
    var s := a + b;
    forall i, j | 0 <= i < j < |s| ensures s[i] != s[j] {
      if i < |a| <= j {
        assert s[j] == b[j - |a|] && s[i] in a;
      }
    }
  }

  /** Taking the head off a queue `all[k..]` and appending to it. */
  lemma QueueMoves<T>(all: seq<T>, k: nat, added: seq<T>)
    requires k < |all|
    ensures (all + added)[k + 1..] == all[k..][1..] + added
    ensures (all + added)[..k + 1] == all[..k] + [all[k..][0]]
  {
  }

  lemma DistinctWithin<T>(s: seq<T>, t: set<T>)
    requires Distinct(s) && forall x | x in s :: x in t
    ensures |s| <= |t|
  {
    DistinctSize(s);
    SubsetSize(Elems(s), t);
  }

  lemma SubsetSize<T>(a: set<T>, b: set<T>)
    requires a <= b
    ensures |a| <= |b|
    ensures |a| == |b| ==> a == b
  {
    assert b == a + (b - a);
    assert |b| == |a| + |b - a|;
  }
}
