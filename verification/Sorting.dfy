/** The stable in-place sort that the matchmaker and the median node call. */
module Sorting {

  ghost predicate TotalPreorder<T(!new)>(leq: (T, T) -> bool) {
    (forall x, y :: leq(x, y) || leq(y, x)) &&
    (forall x, y, z :: leq(x, y) && leq(y, z) ==> leq(x, z))
  }

  ghost predicate SortedBy<T>(s: seq<T>, leq: (T, T) -> bool) {
    forall i, j | 0 <= i < j < |s| :: leq(s[i], s[j])
  }

  /** Insert after every element that is not greater, so that equal elements keep their order. */
  function Insert<T>(s: seq<T>, x: T, leq: (T, T) -> bool): seq<T> {
    if s == [] then [x]
    else
      var k := |s| - 1;
      if leq(s[k], x) then s + [x] else Insert(s[..k], x, leq) + [s[k]]
  }

  function Sorted<T>(s: seq<T>, leq: (T, T) -> bool): seq<T> {
    if s == [] then [] else Insert(Sorted(s[..|s| - 1], leq), s[|s| - 1], leq)
  }

  lemma {:induction false} InsertContents<T>(s: seq<T>, x: T, leq: (T, T) -> bool)
    ensures multiset(Insert(s, x, leq)) == multiset(s) + multiset{x}
    ensures |Insert(s, x, leq)| == |s| + 1
  {
    if s != [] && !leq(s[|s| - 1], x) {
      InsertContents(s[..|s| - 1], x, leq);
      assert s == s[..|s| - 1] + [s[|s| - 1]];
    }
  }

  lemma {:induction false} SortedContents<T>(s: seq<T>, leq: (T, T) -> bool)
    ensures multiset(Sorted(s, leq)) == multiset(s) && |Sorted(s, leq)| == |s|
  {
    if s != [] {
      var k := |s| - 1;
      SortedContents(s[..k], leq);
      InsertContents(Sorted(s[..k], leq), s[k], leq);
      assert s == s[..k] + [s[k]];
    }
  }

  lemma SortedSnoc<T>(s: seq<T>, z: T, leq: (T, T) -> bool)
    requires SortedBy(s, leq) && forall y | y in s :: leq(y, z)
    ensures SortedBy(s + [z], leq)
  {
  }

  lemma {:induction false} InsertOrders<T(!new)>(s: seq<T>, x: T, leq: (T, T) -> bool)
    requires TotalPreorder(leq) && SortedBy(s, leq)
    ensures SortedBy(Insert(s, x, leq), leq)
    ensures forall y | y in Insert(s, x, leq) :: y == x || y in s
  {
    if s != [] {
      var k := |s| - 1;
      if leq(s[k], x) {
        forall y | y in s ensures leq(y, x) {
          var i :| 0 <= i < |s| && s[i] == y;
          if i < k { assert leq(s[i], s[k]); }
        }
        SortedSnoc(s, x, leq);
      } else {
        InsertOrders(s[..k], x, leq);
        assert leq(x, s[k]);
        var t := Insert(s[..k], x, leq);
        forall y | y in t ensures leq(y, s[k]) {
          if y != x {
            var i :| 0 <= i < k && s[..k][i] == y;
            assert leq(s[i], s[k]);
          }
        }
        SortedSnoc(t, s[k], leq);
      }
    }
  }

  lemma {:induction false} SortedOrders<T(!new)>(s: seq<T>, leq: (T, T) -> bool)
    requires TotalPreorder(leq)
    ensures SortedBy(Sorted(s, leq), leq)
  {
    if s != [] {
      SortedOrders(s[..|s| - 1], leq);
      InsertOrders(Sorted(s[..|s| - 1], leq), s[|s| - 1], leq);
    }
  }

  // ----- stability

  /** The elements that the order does not tell from `z`, in sequence. */
  ghost function Like<T>(s: seq<T>, z: T, leq: (T, T) -> bool): seq<T> {
    if s == [] then []
    else
      var k := |s| - 1;
      Like(s[..k], z, leq) + If(s[k], z, leq)
  }

  ghost function If<T>(y: T, z: T, leq: (T, T) -> bool): seq<T> {
    if leq(y, z) && leq(z, y) then [y] else []
  }

  lemma IfNotBoth<T(!new)>(x: T, y: T, z: T, leq: (T, T) -> bool)
    requires TotalPreorder(leq) && !leq(y, x)
    ensures If(x, z, leq) == [] || If(y, z, leq) == []
  {
    assert leq(y, z) && leq(z, x) ==> leq(y, x);
  }

  lemma LikeSnoc<T>(s: seq<T>, y: T, z: T, leq: (T, T) -> bool)
    ensures Like(s + [y], z, leq) == Like(s, z, leq) + If(y, z, leq)
  {
    assert (s + [y])[..|s|] == s;
  }

  lemma InsertStableStep<T>(s: seq<T>, x: T, z: T, leq: (T, T) -> bool)
    requires s != [] && !leq(s[|s| - 1], x)
    requires If(x, z, leq) == [] || If(s[|s| - 1], z, leq) == []
    requires Like(Insert(s[..|s| - 1], x, leq), z, leq) == Like(s[..|s| - 1] + [x], z, leq)
    ensures Like(Insert(s, x, leq), z, leq) == Like(s + [x], z, leq)
  {
    var k := |s| - 1;
    LikeSnoc(Insert(s[..k], x, leq), s[k], z, leq);
    LikeSnoc(s[..k], x, z, leq);
    LikeSnoc(s, x, z, leq);
    SwapEmpty(Like(s[..k], z, leq), If(x, z, leq), If(s[k], z, leq));
  }

  lemma SwapEmpty<T>(a: seq<T>, b: seq<T>, c: seq<T>)
    requires b == [] || c == []
    ensures (a + b) + c == (a + c) + b
  {
  }

  lemma {:induction false} InsertStable<T(!new)>(s: seq<T>, x: T, z: T, leq: (T, T) -> bool)
    requires TotalPreorder(leq)
    ensures Like(Insert(s, x, leq), z, leq) == Like(s + [x], z, leq)
  {
    if s == [] {
      assert s + [x] == [x];
    } else if !leq(s[|s| - 1], x) {
      InsertStable(s[..|s| - 1], x, z, leq);
      IfNotBoth(x, s[|s| - 1], z, leq);
      InsertStableStep(s, x, z, leq);
    }
  }

  /** Elements that the order does not tell apart stay in the order in which they came. */
  lemma {:induction false} SortedStable<T(!new)>(s: seq<T>, z: T, leq: (T, T) -> bool)
    requires TotalPreorder(leq)
    ensures Like(Sorted(s, leq), z, leq) == Like(s, z, leq)
  {
    if s != [] {
      var k := |s| - 1;
      SortedStable(s[..k], z, leq);
      InsertStable(Sorted(s[..k], leq), s[k], z, leq);
      LikeSnoc(Sorted(s[..k], leq), s[k], z, leq);
    }
  }

  lemma SortedMembers<T>(s: seq<T>, leq: (T, T) -> bool)
    ensures forall x :: x in Sorted(s, leq) <==> x in s
  {
    SortedContents(s, leq);
    forall x ensures x in Sorted(s, leq) <==> x in s {
      assert x in Sorted(s, leq) <==> x in multiset(Sorted(s, leq));
      assert x in s <==> x in multiset(s);
    }
  }

  lemma InsertSkips<T>(s: seq<T>, x: T, leq: (T, T) -> bool, j: nat)
    requires 0 < j <= |s| && !leq(s[j - 1], x)
    ensures Insert(s[..j], x, leq) == Insert(s[..j - 1], x, leq) + [s[j - 1]]
  {
    assert s[..j][..j - 1] == s[..j - 1];
  }

  /** Shift `a[i]` down into the sorted prefix `a[..i]`. */
  method InsertInPlace<T>(a: array<T>, i: nat, leq: (T, T) -> bool)
    requires i < a.Length
    modifies a
    ensures a[..i + 1] == Insert(old(a[..i]), old(a[i]), leq)
    ensures a[i + 1..] == old(a[i + 1..])
  {
    ghost var s := a[..i];
    var x := a[i];
    var j := i;
    assert s[..j] == s && s[j..] == [];
    while j > 0 && !leq(a[j - 1], x)
      invariant j <= i && a[i + 1..] == old(a[i + 1..])
      invariant forall k | 0 <= k < j :: a[k] == s[k]
      invariant forall k | j < k <= i :: a[k] == s[k - 1]
      invariant Insert(s, x, leq) == Insert(s[..j], x, leq) + s[j..]
    {
      InsertShift(s, x, leq, j);
      a[j] := a[j - 1];
      j := j - 1;
    }
    a[j] := x;
    InsertStops(s, x, leq, j);
    Assembled(a[..i + 1], s, x, j);
  }

  lemma Assembled<T>(t: seq<T>, s: seq<T>, x: T, j: nat)
    requires |t| == |s| + 1 && j <= |s| && t[j] == x
    requires forall k | 0 <= k < j :: t[k] == s[k]
    requires forall k | j < k < |t| :: t[k] == s[k - 1]
    ensures t == s[..j] + [x] + s[j..]
  {
  }

  lemma InsertShift<T>(s: seq<T>, x: T, leq: (T, T) -> bool, j: nat)
    requires 0 < j <= |s| && !leq(s[j - 1], x)
    ensures Insert(s[..j], x, leq) + s[j..] == Insert(s[..j - 1], x, leq) + s[j - 1..]
  {
    InsertSkips(s, x, leq, j);
    assert s[j - 1..] == [s[j - 1]] + s[j..];
  }

  lemma InsertStops<T>(s: seq<T>, x: T, leq: (T, T) -> bool, j: nat)
    requires j <= |s| && (j == 0 || leq(s[j - 1], x))
    ensures Insert(s[..j], x, leq) == s[..j] + [x]
  {
  }

  method SortInPlace<T>(a: array<T>, leq: (T, T) -> bool)
    modifies a
    ensures a[..] == Sorted(old(a[..]), leq)
  {
    ghost var s := a[..];
    for i := 0 to a.Length
      invariant a[..i] == Sorted(s[..i], leq) && a[i..] == s[i..]
    {
      assert a[i] == a[i..][0] == s[i];
      assert s[..i + 1][..i] == s[..i] && s[..i + 1][i] == s[i];
      assert a[i + 1..] == a[i..][1..];
      InsertInPlace(a, i, leq);
    }
    assert s[..a.Length] == s;
  }
}
