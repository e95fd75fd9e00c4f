/** The median and threshold nodes, alone and composed with the edge condition on the result. */
module Nodes {
  import opened KeyOrder
  import opened Json
  import opened Pointer
  import opened Errors
  import opened NodeIo
  import opened Sorting

  /** `Value::as_f64`; floating point is idealised as `real`. */
  function AsF64(v: Value): Option<real> {
    match v
    case Num(PosInt(n)) => Some(n as real)
    case Num(NegInt(i)) => Some(i as real)
    case Num(Float(r)) => Some(r)
    case _ => None
  }

  /** A number, or an object with a numeric field "value". */
  function NumberOf(v: Value): Option<real> {
    if AsF64(v).Some? then AsF64(v)
    else if v.Obj? && Get(v.entries, "value").Some? then AsF64(Get(v.entries, "value").value)
    else None
  }

  predicate AllIn(ks: seq<string>, parents: Parents) {
    forall k | k in ks :: k in parents
  }

  /** The numbers found along the parents `ks`. */
  function NumbersAlong(parents: Parents, ks: seq<string>): seq<real>
    requires AllIn(ks, parents)
  {
    if ks == [] then []
    else
      var n, x := |ks| - 1, NumberOf(parents[ks[|ks| - 1]]);
      NumbersAlong(parents, ks[..n]) + if x.Some? then [x.value] else []
  }

  ghost function Numbers(parents: Parents): seq<real> {
    OrderedKeys(parents);
    NumbersAlong(parents, InOrder(parents.Keys))
  }

  lemma OrderedKeys(parents: Parents)
    ensures AllIn(InOrder(parents.Keys), parents) && Distinct(InOrder(parents.Keys))
    ensures Elems(InOrder(parents.Keys)) == parents.Keys
  {
    var ks := InOrder(parents.Keys);
    InOrderOf(parents.Keys, ks);
    AscendingDistinct(ks);
    assert forall k | k in ks :: k in Elems(ks);
  }

  const LEQ: (real, real) -> bool := (a, b) => a <= b

  /** The middle element, or the mean of the two middle ones. */
  function Middle(s: seq<real>): real
    requires s != []
  {
    var n := |s|;
    if n % 2 == 1 then s[n / 2] else (s[n / 2 - 1] + s[n / 2]) / 2.0
  }

  function Median(nums: seq<real>): real
    requires nums != []
  {
    SortedReals(nums);
    Middle(Sorted(nums, LEQ))
  }

  lemma SortedReals(nums: seq<real>)
    ensures SortedBy(Sorted(nums, LEQ), LEQ) && |Sorted(nums, LEQ)| == |nums|
  {
    SortedContents(nums, LEQ);
    assert TotalPreorder(LEQ);
    SortedOrders(nums, LEQ);
  }

  ghost function MedianResult(parents: Parents): Result<NodeOutput> {
    if Numbers(parents) == [] then Err(InvalidInput("no numeric parents for median"))
    else Ok(NodeOutput(Num(Float(Median(Numbers(parents)))), 3))
  }

  method CollectNumbers(parents: Parents) returns (nums: seq<real>)
    ensures nums == Numbers(parents)
  {
    var ks := KeysInOrder(parents.Keys);
    OrderedKeys(parents);
    nums := [];
    for i := 0 to |ks|
      invariant nums == NumbersAlong(parents, ks[..i])
    {
      assert ks[..i + 1][..i] == ks[..i];
      var x := NumberOf(parents[ks[i]]);
      if x.Some? {
        nums := nums + [x.value];
      }
    }
    assert ks[..|ks|] == ks;
  }

  /** `MedianNode::execute`. */
  method ExecuteMedian(parents: Parents) returns (r: Result<NodeOutput>)
    ensures r == MedianResult(parents)
    ensures r.Err? <==> forall k | k in parents :: NumberOf(parents[k]).None?
    ensures r.Err? ==> r.error == InvalidInput("no numeric parents for median")
    ensures r.Ok? ==> exists m :: IsMedianOf(Numbers(parents), m) && r.value == NodeOutput(Num(Float(m)), 3)
  {
    NumericParents(parents);
    var nums := CollectNumbers(parents);
    if nums == [] {
      return Err(InvalidInput("no numeric parents for median"));
    }
    var m := SortAndTakeMiddle(nums);
    MedianIsMiddle(nums);
    r := Ok(NodeOutput(Num(Float(m)), 3));
  }

  method SortAndTakeMiddle(nums: seq<real>) returns (m: real)
    requires nums != []
    ensures m == Median(nums)
  {
    var a := new real[|nums|](i requires 0 <= i < |nums| => nums[i]);
    assert a[..] == nums;
    SortInPlace(a, LEQ);
    SortedReals(nums);
    var n := a.Length;
    m := if n % 2 == 1 then a[n / 2] else (a[n / 2 - 1] + a[n / 2]) / 2.0;
    assert m == Middle(a[..]);
  }

  // ----- which numbers, and which of them

  /** The parents along `ks` that carry the number `x`. */
  ghost function Bearers(parents: Parents, ks: seq<string>, x: real): set<string>
    requires AllIn(ks, parents)
  {
    set k | k in ks && NumberOf(parents[k]) == Some(x)
  }

  lemma {:induction false} NumbersCount(parents: Parents, ks: seq<string>, x: real)
    requires AllIn(ks, parents) && Distinct(ks)
    ensures multiset(NumbersAlong(parents, ks))[x] == |Bearers(parents, ks, x)|
  {
    if ks == [] {
      assert Bearers(parents, ks, x) == {};
    } else {
      var n := |ks| - 1;
      assert ks == ks[..n] + [ks[n]];
      NumbersCount(parents, ks[..n], x);
      var here := if NumberOf(parents[ks[n]]) == Some(x) then {ks[n]} else {};
      assert Bearers(parents, ks, x) == Bearers(parents, ks[..n], x) + here;
    }
  }

  /** The parents that carry the number `x`. */
  ghost function Carriers(parents: Parents, x: real): set<string> {
    set k | k in parents && NumberOf(parents[k]) == Some(x)
  }

  /** Each parent that is numeric contributes its number, once, and the others nothing. */
  lemma NumbersAreParents(parents: Parents, x: real)
    ensures multiset(Numbers(parents))[x] == |Carriers(parents, x)|
  {
    OrderedKeys(parents);
    var ks := InOrder(parents.Keys);
    NumbersCount(parents, ks, x);
    assert forall k :: k in ks <==> k in Elems(ks);
    assert Bearers(parents, ks, x) == Carriers(parents, x);
  }

  lemma NumericParents(parents: Parents)
    ensures Numbers(parents) == [] <==> forall k | k in parents :: NumberOf(parents[k]).None?
  {
    if Numbers(parents) != [] {
      var x := Numbers(parents)[0];
      NumbersAreParents(parents, x);
      assert x in multiset(Numbers(parents));
      var k :| k in Carriers(parents, x);
    }
    forall k | k in parents && NumberOf(parents[k]).Some? ensures Numbers(parents) != [] {
      var x := NumberOf(parents[k]).value;
      NumbersAreParents(parents, x);
      assert k in Carriers(parents, x);
      assert multiset(Numbers(parents))[x] > 0;
    }
  }

  /** `x` is the element of rank `r`: at most `r` are smaller and at most `|s| - 1 - r` are greater. */
  ghost predicate HasRank(s: seq<real>, x: real, r: int) {
    x in s && CountBelow(s, x) <= r && CountAbove(s, x) <= |s| - 1 - r
  }

  lemma SortedRank(s: seq<real>, r: nat)
    requires r < |s|
    ensures |Sorted(s, LEQ)| == |s| && HasRank(s, Sorted(s, LEQ)[r], r)
  {
    var t := Sorted(s, LEQ);
    SortedReals(s);
    SortedMembers(s, LEQ);
    var x := t[r];
    CountSorted(s, x);
    CountBelowSplits(t, x, r);
    RankAbove(t, r);
  }

  /** In a sorted sequence no more than those behind an element exceed it. */
  lemma {:induction false} RankAbove(t: seq<real>, r: nat)
    requires SortedBy(t, LEQ) && r < |t|
    ensures CountAbove(t, t[r]) <= |t| - 1 - r
  {
    var k := |t| - 1;
    if r < k {
      RankAbove(t[..k], r);
    } else {
      forall i | 0 <= i < |t| ensures t[i] <= t[k] {
        assert i < k ==> LEQ(t[i], t[k]);
      }
      NoneAbove(t, t[k]);
    }
  }

  lemma {:induction false} NoneAbove(t: seq<real>, x: real)
    requires forall i | 0 <= i < |t| :: t[i] <= x
    ensures CountAbove(t, x) == 0
  {
    if t != [] {
      NoneAbove(t[..|t| - 1], x);
    }
  }

  lemma {:induction false} CountsDisjoint(s: seq<real>, x: real, y: real)
    requires x < y
    ensures CountBelow(s, y) + CountAbove(s, x) >= |s|
  {
    if s != [] {
      CountsDisjoint(s[..|s| - 1], x, y);
    }
  }

  /** There is one element of each rank. */
  lemma RankUnique(s: seq<real>, x: real, y: real, r: int)
    requires HasRank(s, x, r) && HasRank(s, y, r)
    ensures x == y
  {
    if x < y { CountsDisjoint(s, x, y); }
    if y < x { CountsDisjoint(s, y, x); }
  }

  /** The mean of the elements of the two middle ranks, which coincide for an odd number. */
  ghost predicate IsMedianOf(s: seq<real>, m: real) {
    exists a, b :: LowerMiddle(s, a) && UpperMiddle(s, b) && 2.0 * m == a + b
  }

  ghost predicate LowerMiddle(s: seq<real>, x: real) {
    HasRank(s, x, (|s| - 1) / 2)
  }

  ghost predicate UpperMiddle(s: seq<real>, x: real) {
    HasRank(s, x, |s| / 2)
  }

  lemma MedianIsMiddle(nums: seq<real>)
    requires nums != []
    ensures IsMedianOf(nums, Median(nums))
    ensures forall m | IsMedianOf(nums, m) :: m == Median(nums)
  {
    var n := |nums|;
    SortedReals(nums);
    var t := Sorted(nums, LEQ);
    var a, b := t[(n - 1) / 2], t[n / 2];
    SortedRank(nums, (n - 1) / 2);
    SortedRank(nums, n / 2);
    assert LowerMiddle(nums, a) && UpperMiddle(nums, b) && 2.0 * Median(nums) == a + b;
    forall m | IsMedianOf(nums, m) ensures m == Median(nums) {
      var c, d :| LowerMiddle(nums, c) && UpperMiddle(nums, d) && 2.0 * m == c + d;
      RankUnique(nums, a, c, (n - 1) / 2);
      RankUnique(nums, b, d, n / 2);
    }
  }

  // ----- counting

  ghost function CountBelow(s: seq<real>, x: real): nat {
    if s == [] then 0 else CountBelow(s[..|s| - 1], x) + if s[|s| - 1] < x then 1 else 0
  }

  ghost function CountAbove(s: seq<real>, x: real): nat {
    if s == [] then 0 else CountAbove(s[..|s| - 1], x) + if s[|s| - 1] > x then 1 else 0
  }

  lemma CountSnoc(s: seq<real>, y: real, x: real)
    ensures CountBelow(s + [y], x) == CountBelow(s, x) + if y < x then 1 else 0
    ensures CountAbove(s + [y], x) == CountAbove(s, x) + if y > x then 1 else 0
  {
    assert (s + [y])[..|s|] == s;
  }

  lemma {:induction false} CountInsert(s: seq<real>, y: real, x: real)
    ensures CountBelow(Insert(s, y, LEQ), x) == CountBelow(s, x) + if y < x then 1 else 0
    ensures CountAbove(Insert(s, y, LEQ), x) == CountAbove(s, x) + if y > x then 1 else 0
  {
    if s == [] {
      CountSnoc([], y, x);
      assert [] + [y] == [y];
    } else {
      var k := |s| - 1;
      if LEQ(s[k], y) {
        CountSnoc(s, y, x);
      } else {
        CountInsert(s[..k], y, x);
        CountSnoc(Insert(s[..k], y, LEQ), s[k], x);
      }
    }
  }

  lemma {:induction false} CountSorted(s: seq<real>, x: real)
    ensures CountBelow(Sorted(s, LEQ), x) == CountBelow(s, x)
    ensures CountAbove(Sorted(s, LEQ), x) == CountAbove(s, x)
  {
    if s != [] {
      CountSorted(s[..|s| - 1], x);
      CountInsert(Sorted(s[..|s| - 1], LEQ), s[|s| - 1], x);
    }
  }

  lemma {:induction false} CountAtMost(s: seq<real>, x: real)
    ensures CountBelow(s, x) <= |s| && CountAbove(s, x) <= |s|
  {
    if s != [] { CountAtMost(s[..|s| - 1], x); }
  }

  /** In a sorted sequence the number of elements below `x` is where `x` would go. */
  lemma {:induction false} CountBelowSplits(s: seq<real>, x: real, j: nat)
    requires SortedBy(s, LEQ) && j < |s|
    ensures s[j] < x <==> CountBelow(s, x) > j
  {
    var k := |s| - 1;
    var t := s[..k];
    CountAtMost(t, x);
    if j < k {
      CountBelowSplits(t, x, j);
      assert LEQ(s[j], s[k]);
    } else if k > 0 {
      assert LEQ(s[k - 1], s[k]);
      CountBelowSplits(t, x, k - 1);
    }
  }

  lemma {:induction false} CountAboveSplits(s: seq<real>, x: real, j: nat)
    requires SortedBy(s, LEQ) && j < |s|
    ensures s[j] > x ==> CountAbove(s, x) >= |s| - j
  {
    var k := |s| - 1;
    var t := s[..k];
    if j < k {
      CountAboveSplits(t, x, j);
      assert LEQ(s[j], s[k]);
    }
  }

  // ----- robustness

  lemma MiddleNotBelow(s: seq<real>, lo: real)
    requires s != [] && SortedBy(s, LEQ) && 2 * CountBelow(s, lo) < |s|
    ensures s[|s| / 2] >= lo && (|s| % 2 == 0 ==> s[|s| / 2 - 1] >= lo)
  {
    var n := |s|;
    CountBelowSplits(s, lo, n / 2);
    if n % 2 == 0 {
      CountBelowSplits(s, lo, n / 2 - 1);
    }
  }

  lemma MiddleNotAbove(s: seq<real>, hi: real)
    requires s != [] && SortedBy(s, LEQ) && 2 * CountAbove(s, hi) < |s|
    ensures s[|s| / 2] <= hi && (|s| % 2 == 0 ==> s[|s| / 2 - 1] <= hi)
  {
    var n := |s|;
    CountAboveSplits(s, hi, n / 2);
    if n % 2 == 0 {
      assert LEQ(s[n / 2 - 1], s[n / 2]);
    }
  }

  lemma MiddleWithin(s: seq<real>, lo: real, hi: real)
    requires s != [] && SortedBy(s, LEQ) && 2 * CountBelow(s, lo) < |s| && 2 * CountAbove(s, hi) < |s|
    ensures lo <= Middle(s) <= hi
  {
    MiddleNotBelow(s, lo);
    MiddleNotAbove(s, hi);
  }

  /** Fewer than half of the values being out of bounds does not move the median out of bounds. */
  lemma MedianRobust(nums: seq<real>, lo: real, hi: real)
    requires nums != [] && 2 * CountBelow(nums, lo) < |nums| && 2 * CountAbove(nums, hi) < |nums|
    ensures lo <= Median(nums) <= hi
  {
    SortedReals(nums);
    CountSorted(nums, lo);
    CountSorted(nums, hi);
    MiddleWithin(Sorted(nums, LEQ), lo, hi);
  }

  lemma BadSnoc(bad: set<string>, t: seq<string>, k: string)
    requires k !in t
    ensures |bad * Elems(t + [k])| == |bad * Elems(t)| + if k in bad then 1 else 0
  {
    var b := bad * Elems(t);
    assert k !in b;
    if k in bad {
      assert bad * Elems(t + [k]) == b + {k};
    } else {
      assert bad * Elems(t + [k]) == b;
    }
  }

  lemma CountNext(parents: Parents, ks: seq<string>, x: real)
    requires AllIn(ks, parents) && ks != []
    ensures var n, v := |ks| - 1, NumberOf(parents[ks[|ks| - 1]]);
            AllIn(ks[..n], parents) &&
            CountBelow(NumbersAlong(parents, ks), x) ==
            CountBelow(NumbersAlong(parents, ks[..n]), x) + (if v.Some? && v.value < x then 1 else 0) &&
            CountAbove(NumbersAlong(parents, ks), x) ==
            CountAbove(NumbersAlong(parents, ks[..n]), x) + (if v.Some? && v.value > x then 1 else 0)
  {
    var n, v := |ks| - 1, NumberOf(parents[ks[|ks| - 1]]);
    var before := NumbersAlong(parents, ks[..n]);
    if v.Some? {
      CountSnoc(before, v.value, x);
    } else {
      assert before + [] == before;
    }
  }

  lemma {:induction false} CountBad(parents: Parents, ks: seq<string>, bad: set<string>, lo: real, hi: real)
    requires AllIn(ks, parents) && Distinct(ks)
    requires forall k | k in ks && k !in bad && NumberOf(parents[k]).Some? :: lo <= NumberOf(parents[k]).value <= hi
    ensures CountBelow(NumbersAlong(parents, ks), lo) <= |bad * Elems(ks)|
    ensures CountAbove(NumbersAlong(parents, ks), hi) <= |bad * Elems(ks)|
  {
    if ks != [] {
      var n := |ks| - 1;
      CountBad(parents, ks[..n], bad, lo, hi);
      CountNext(parents, ks, lo);
      CountNext(parents, ks, hi);
      BadSnoc(bad, ks[..n], ks[n]);
      assert ks == ks[..n] + [ks[n]];
    }
  }

  /**
   Outlier robustness: if fewer than half of the numeric parents are arbitrary, the median lies
   within any bounds that hold for the others.
   */
  lemma OutlierRobust(parents: Parents, bad: set<string>, lo: real, hi: real)
    requires 2 * |bad| < |Numbers(parents)|
    requires forall k | k in parents && k !in bad && NumberOf(parents[k]).Some? ::
               lo <= NumberOf(parents[k]).value <= hi
    ensures MedianResult(parents).Ok? && lo <= Median(Numbers(parents)) <= hi
  {
    var ks := InOrder(parents.Keys);
    OrderedKeys(parents);
    CountBad(parents, ks, bad, lo, hi);
    SubsetSize(bad * Elems(ks), bad);
    MedianRobust(Numbers(parents), lo, hi);
  }

  // ----- monotonicity

  ghost predicate Pointwise(a: seq<real>, b: seq<real>) {
    |a| == |b| && forall i | 0 <= i < |a| :: a[i] <= b[i]
  }

  lemma {:induction false} CountPointwise(a: seq<real>, b: seq<real>, x: real)
    requires Pointwise(a, b)
    ensures CountBelow(b, x) <= CountBelow(a, x)
  {
    if a != [] {
      var k := |a| - 1;
      CountPointwise(a[..k], b[..k], x);
      assert a[k] <= b[k];
    }
  }

  /** Sorting preserves pointwise order. */
  lemma SortingMonotone(a: seq<real>, b: seq<real>)
    requires Pointwise(a, b)
    ensures Pointwise(Sorted(a, LEQ), Sorted(b, LEQ))
  {
    var s, t := Sorted(a, LEQ), Sorted(b, LEQ);
    SortedReals(a);
    SortedReals(b);
    forall j | 0 <= j < |s| ensures s[j] <= t[j] {
      var x := s[j];
      CountSorted(a, x);
      CountSorted(b, x);
      CountPointwise(a, b, x);
      CountBelowSplits(s, x, j);
      CountBelowSplits(t, x, j);
    }
  }

  lemma MedianMonotone(a: seq<real>, b: seq<real>)
    requires a != [] && Pointwise(a, b)
    ensures Median(a) <= Median(b)
  {
    SortedReals(a);
    SortedReals(b);
    SortingMonotone(a, b);
  }

  /** The same parents are numeric, and none of their numbers has gone down. */
  ghost predicate Raised(p: Parents, q: Parents) {
    p.Keys == q.Keys &&
    forall k | k in p ::
      NumberOf(p[k]).Some? == NumberOf(q[k]).Some? &&
      (NumberOf(p[k]).Some? ==> NumberOf(p[k]).value <= NumberOf(q[k]).value)
  }

  lemma {:induction false} RaisedNumbers(p: Parents, q: Parents, ks: seq<string>)
    requires Raised(p, q) && AllIn(ks, p)
    ensures AllIn(ks, q) && Pointwise(NumbersAlong(p, ks), NumbersAlong(q, ks))
  {
    if ks != [] {
      var n := |ks| - 1;
      assert forall k | k in ks[..n] :: k in ks;
      RaisedNumbers(p, q, ks[..n]);
      assert ks[n] in ks;
    }
  }

  lemma MedianOfRaised(p: Parents, q: Parents)
    requires Raised(p, q)
    ensures MedianResult(p).Ok? <==> MedianResult(q).Ok?
    ensures MedianResult(p).Ok? ==> Median(Numbers(p)) <= Median(Numbers(q))
  {
    OrderedKeys(p);
    RaisedNumbers(p, q, InOrder(p.Keys));
    if Numbers(p) != [] {
      MedianMonotone(Numbers(p), Numbers(q));
    }
  }

  // ----- threshold

  datatype Comparison = Gt | Gte | Lt | Lte | Eq

  /** `f64::EPSILON`, which is 2^-52. */
  const F64_EPSILON: real := 1.0 / 4503599627370496.0

  function Compare(op: Comparison, n: real, threshold: real): bool {
    match op
    case Gt => n > threshold
    case Gte => n >= threshold
    case Lt => n < threshold
    case Lte => n <= threshold
    case Eq => (if n < threshold then threshold - n else n - threshold) < F64_EPSILON
  }

  function OrElse<T>(a: Option<T>, b: Option<T>): Option<T> {
    if a.Some? then a else b
  }

  ghost function FirstParent(parents: Parents): Option<Value> {
    OrderedKeys(parents);
    var ks := InOrder(parents.Keys);
    if ks == [] then None else Some(parents[ks[0]])
  }

  /** Only the first parent is looked at, and of it only a plain number; otherwise the payload. */
  ghost function ThresholdInput(parents: Parents, payload: Value): Option<real> {
    var first := FirstParent(parents);
    OrElse(if first.Some? then AsF64(first.value) else None, AsF64(payload))
  }

  function ThresholdOutput(op: Comparison, threshold: real, n: real): Value {
    Obj([Entry("ok", Bool(Compare(op, n, threshold))), Entry("value", Num(Float(n)))])
  }

  ghost function ThresholdResult(op: Comparison, threshold: real, parents: Parents, payload: Value): Result<NodeOutput> {
    var n := ThresholdInput(parents, payload);
    if n.None? then Err(InvalidInput("threshold needs numeric input"))
    else Ok(NodeOutput(ThresholdOutput(op, threshold, n.value), 1))
  }

  /** `ThresholdNode::execute`. */
  method ExecuteThreshold(op: Comparison, threshold: real, parents: Parents, payload: Value) returns (r: Result<NodeOutput>)
    ensures r == ThresholdResult(op, threshold, parents, payload)
    ensures r.Err? ==> r.error == InvalidInput("threshold needs numeric input")
    ensures forall k | k in parents && (forall p | p in parents :: p == k || Less(k, p)) ::
              var n := if AsF64(parents[k]).Some? then AsF64(parents[k]) else AsF64(payload);
              (r.Ok? <==> n.Some?) && (r.Ok? ==> Reports(op, threshold, n.value, r.value))
    ensures parents == map[] ==>
              (r.Ok? <==> AsF64(payload).Some?) && (r.Ok? ==> Reports(op, threshold, AsF64(payload).value, r.value))
  {
    var ks := KeysInOrder(parents.Keys);
    OrderedKeys(parents);
    var first: Option<real> := None;
    if ks != [] {
      first := AsF64(parents[ks[0]]);
    }
    ThresholdInputIs(parents, payload);
    var n := OrElse(first, AsF64(payload));
    if n.Some? { OutputReports(op, threshold, n.value); }
    r := if n.None? then Err(InvalidInput("threshold needs numeric input"))
    else Ok(NodeOutput(ThresholdOutput(op, threshold, n.value), 1));
  }

  // ----- what the output says, as a pointer sees it

  /** The comparison `op` of `n` with `threshold`, equality up to 2^-52. */
  ghost predicate Holds(op: Comparison, n: real, threshold: real) {
    (op == Gt ==> n > threshold) && (op == Gte ==> !(n < threshold)) &&
    (op == Lt ==> n < threshold) && (op == Lte ==> !(n > threshold)) &&
    (op == Eq ==> -1.0 < 4503599627370496.0 * (n - threshold) < 1.0)
  }

  /** The output holds the verdict under `ok` and the number under `value`, and costs one unit of gas. */
  ghost predicate Reports(op: Comparison, threshold: real, n: real, out: NodeOutput) {
    Lookup(out.value, "/ok") == Some(Bool(Holds(op, n, threshold))) &&
    Lookup(out.value, "/value") == Some(Num(Float(n))) && out.gasUsed == 1
  }

  lemma CompareHolds(op: Comparison, n: real, threshold: real)
    ensures Compare(op, n, threshold) <==> Holds(op, n, threshold)
  {
  }

  lemma OutputReports(op: Comparison, threshold: real, n: real)
    ensures Reports(op, threshold, n, NodeOutput(ThresholdOutput(op, threshold, n), 1))
  {
    CompareHolds(op, n, threshold);
    LookupOk(ThresholdOutput(op, threshold, n));
    LookupValue(ThresholdOutput(op, threshold, n));
    OutputFields(op, threshold, n);
  }

  lemma LookupOk(v: Value)
    ensures v.Obj? ==> Lookup(v, "/ok") == Get(v.entries, "ok")
  {
    LookupName(v, "ok");
    assert "/" + "ok" == "/ok";
  }

  lemma LookupValue(v: Value)
    ensures v.Obj? ==> Lookup(v, "/value") == Get(v.entries, "value")
  {
    LookupName(v, "value");
    assert "/" + "value" == "/value";
  }

  lemma OutputFields(op: Comparison, threshold: real, n: real)
    ensures var es := ThresholdOutput(op, threshold, n).entries;
            Get(es, "ok") == Some(Bool(Compare(op, n, threshold))) && Get(es, "value") == Some(Num(Float(n)))
  {
    var es := ThresholdOutput(op, threshold, n).entries;
    assert es[1..][0] == es[1];
  }

  /** The first parent is the one whose key comes before all others. */
  lemma ThresholdInputIs(parents: Parents, payload: Value)
    ensures forall k | k in parents && (forall p | p in parents :: p == k || Less(k, p)) ::
              ThresholdInput(parents, payload) ==
              if AsF64(parents[k]).Some? then AsF64(parents[k]) else AsF64(payload)
    ensures parents == map[] ==> ThresholdInput(parents, payload) == AsF64(payload)
  {
    OrderedKeys(parents);
    var ks := InOrder(parents.Keys);
    InOrderOf(parents.Keys, ks);
    assert forall k :: k in ks <==> k in Elems(ks);
    forall k | k in parents && forall p | p in parents :: p == k || Less(k, p) ensures ks[0] == k {
      assert k in ks;
      HeadIsLeast(ks, k);
      assert ks[0] in parents;
      LessTotal(ks[0], k);
    }
  }

  /** A threshold node's output is a number to the median node: the one that was compared. */
  lemma NumberOfThreshold(op: Comparison, threshold: real, n: real)
    ensures NumberOf(ThresholdOutput(op, threshold, n)) == Some(n)
  {
    OutputFields(op, threshold, n);
  }

  /**
   What counts as numeric: a number in any of its representations, or an object whose pointer
   `/value` leads to one.
   */
  lemma NumericIff(v: Value, x: real)
    ensures NumberOf(v) == Some(x) <==>
            IsNumber(v, x) || (v.Obj? && Lookup(v, "/value").Some? && IsNumber(Lookup(v, "/value").value, x))
  {
    LookupValue(v);
  }

  ghost predicate IsNumber(v: Value, x: real) {
    v == Num(Float(x)) || (exists n: nat :: v == Num(PosInt(n)) && n as real == x) ||
    exists i: int :: v == Num(NegInt(i)) && i as real == x
  }

  /** An edge guarded by `/ok == true` fires on a threshold output exactly when the comparison holds. */
  lemma OkEdge(op: Comparison, threshold: real, n: real)
    ensures Evaluate(JsonEq("/ok", Bool(true)), ThresholdOutput(op, threshold, n)) <==> Compare(op, n, threshold)
    ensures Compare(op, n, threshold) <==> Holds(op, n, threshold)
  {
    CompareHolds(op, n, threshold);
    LookupOk(ThresholdOutput(op, threshold, n));
    OutputFields(op, threshold, n);
  }

  /** The canonical pipeline: a threshold node whose only parent `mid` is the median of `prices`. */
  lemma ThresholdOfMedian(prices: Parents, mid: string)
    requires MedianResult(prices).Ok?
    ensures ThresholdInput(map[mid := MedianResult(prices).value.value], Null) == Some(Median(Numbers(prices)))
  {
    var parents := map[mid := MedianResult(prices).value.value];
    assert Ascending([mid]) && Elems([mid]) == {mid} == parents.Keys;
    InOrderOf(parents.Keys, [mid]);
  }

  ghost predicate Alerts(op: Comparison, threshold: real, prices: Parents)
    requires MedianResult(prices).Ok?
  {
    Evaluate(JsonEq("/ok", Bool(true)), ThresholdOutput(op, threshold, Median(Numbers(prices))))
  }

  /** Raising prices never withdraws a "greater" alert and never raises a "less" alert. */
  lemma AlertsMonotone(p: Parents, q: Parents, threshold: real, op: Comparison)
    requires Raised(p, q) && MedianResult(p).Ok? && MedianResult(q).Ok?
    ensures op.Gt? || op.Gte? ==> (Alerts(op, threshold, p) ==> Alerts(op, threshold, q))
    ensures op.Lt? || op.Lte? ==> (Alerts(op, threshold, q) ==> Alerts(op, threshold, p))
  {
    MedianOfRaised(p, q);
    OkEdge(op, threshold, Median(Numbers(p)));
    OkEdge(op, threshold, Median(Numbers(q)));
  }

  /**
   A minority of arbitrary prices can neither trigger nor suppress an alert the others agree on: if
   the comparison holds at both bounds of the others it holds of the median, and, except for the
   equality comparison, if it fails at both bounds it fails of the median.
   */
  lemma AlertsRobust(prices: Parents, bad: set<string>, op: Comparison, threshold: real, lo: real, hi: real)
    requires 2 * |bad| < |Numbers(prices)|
    requires forall k | k in prices && k !in bad && NumberOf(prices[k]).Some? ::
               lo <= NumberOf(prices[k]).value <= hi
    ensures MedianResult(prices).Ok?
    ensures Compare(op, lo, threshold) && Compare(op, hi, threshold) ==> Alerts(op, threshold, prices)
    ensures !op.Eq? && !Compare(op, lo, threshold) && !Compare(op, hi, threshold) ==> !Alerts(op, threshold, prices)
  {
    OutlierRobust(prices, bad, lo, hi);
    OkEdge(op, threshold, Median(Numbers(prices)));
    CompareBetween(op, lo, Median(Numbers(prices)), hi, threshold);
  }

  lemma CompareBetween(op: Comparison, lo: real, n: real, hi: real, threshold: real)
    requires lo <= n <= hi
    ensures Compare(op, lo, threshold) && Compare(op, hi, threshold) ==> Compare(op, n, threshold)
    ensures !op.Eq? && !Compare(op, lo, threshold) && !Compare(op, hi, threshold) ==> !Compare(op, n, threshold)
  {
  }
}
