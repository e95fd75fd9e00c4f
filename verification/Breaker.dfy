/** The circuit breaker, alone and over arbitrary interleaved histories of its operations. */
module Breaker {
  import opened Json
  import opened Machine

  /** The value of a breaker; times and durations are naturals, taken from one monotone clock. */
  datatype State = State(threshold: u8, cooldown: nat, failures: u8, openUntil: Option<nat>)

  datatype Kind = AllowCall | SuccessReport | FailureReport

  datatype Op = Op(kind: Kind, at: nat)

  function New(threshold: u8, cooldown: nat): State {
    State(threshold, cooldown, 0, None)
  }

  predicate Admits(b: State, now: nat) {
    b.openUntil.None? || now >= b.openUntil.value
  }

  function SaturatingInc(x: u8): u8 {
    if x == 255 then 255 else x + 1
  }

  function Apply(b: State, op: Op): State {
    match op.kind
    case AllowCall => if b.openUntil.Some? && op.at >= b.openUntil.value then b.(openUntil := None, failures := 0) else b
    case SuccessReport => b.(failures := 0)
    case FailureReport =>
      var f := SaturatingInc(b.failures);
      b.(failures := f, openUntil := if f >= b.threshold then Some(op.at + b.cooldown) else b.openUntil)
  }

  function After(b: State, ops: seq<Op>): State {
    if ops == [] then b else Apply(After(b, ops[..|ops| - 1]), ops[|ops| - 1])
  }

  class CircuitBreaker {
    const threshold: u8
    const cooldown: nat
    var failures: u8
    var openUntil: Option<nat>

    constructor (threshold: u8, cooldown: nat)
      ensures Value() == New(threshold, cooldown)
    {
      this.threshold, this.cooldown := threshold, cooldown;
      failures, openUntil := 0, None;
    }

    ghost function Value(): State
      reads this
    {
      State(threshold, cooldown, failures, openUntil)
    }

    method Allow(now: nat) returns (ok: bool)
      modifies this
      ensures ok == Admits(old(Value()), now)
      ensures Value() == Apply(old(Value()), Op(AllowCall, now))
    {
      if openUntil.Some? {
        if now < openUntil.value {
          return false;
        }
        openUntil := None;
        failures := 0;
      }
      ok := true;
    }

    /** Reads no clock: the effect is that of a success report at any time. */
    method OnSuccess()
      modifies this
      ensures forall now: nat :: Value() == Apply(old(Value()), Op(SuccessReport, now))
    {
      failures := 0;
    }

    method OnFailure(now: nat)
      modifies this
      ensures Value() == Apply(old(Value()), Op(FailureReport, now))
    {
      failures := SaturatingInc(failures);
      if failures >= threshold {
        openUntil := Some(now + cooldown);
      }
    }
  }

  // ----- the unbounded reference

  /** Failure reports since the last success report or cooldown reset, and when the breaker reopens. */
  datatype Ideal = Ideal(count: nat, openUntil: Option<nat>)

  ghost function Reference(threshold: nat, cooldown: nat, ops: seq<Op>): Ideal {
    if ops == [] then Ideal(0, None)
    else
      var prev, op := Reference(threshold, cooldown, ops[..|ops| - 1]), ops[|ops| - 1];
      match op.kind
      case AllowCall => if prev.openUntil.Some? && op.at >= prev.openUntil.value then Ideal(0, None) else prev
      case SuccessReport => prev.(count := 0)
      case FailureReport =>
        Ideal(prev.count + 1, if prev.count + 1 >= threshold then Some(op.at + cooldown) else prev.openUntil)
  }

  /**
   Over every history the 8-bit saturating counter is the true count capped at 255, and it opens the
   breaker at exactly the same reports as the true count would.
   */
  lemma {:induction false} CounterRefines(threshold: u8, cooldown: nat, ops: seq<Op>)
    ensures var b, r := After(New(threshold, cooldown), ops), Reference(threshold as nat, cooldown, ops);
            b.failures as nat == (if r.count < 255 then r.count else 255) &&
            b.openUntil == r.openUntil && b.threshold == threshold && b.cooldown == cooldown
  {
    if ops != [] {
      CounterRefines(threshold, cooldown, ops[..|ops| - 1]);
    }
  }

  // ----- what the count means

  ghost function Failures(ops: seq<Op>): nat {
    if ops == [] then 0
    else Failures(ops[..|ops| - 1]) + if ops[|ops| - 1].kind == FailureReport then 1 else 0
  }

  /** Operation `i` sets the count back: a success report, or the first call after a cooldown. */
  ghost predicate Resets(threshold: u8, cooldown: nat, ops: seq<Op>, i: nat) {
    i < |ops| &&
    match ops[i].kind
    case SuccessReport => true
    case AllowCall =>
      var open := Reference(threshold as nat, cooldown, ops[..i]).openUntil;
      open.Some? && ops[i].at >= open.value
    case FailureReport => false
  }

  /** The count is the number of failure reports since the last reset. */
  lemma {:induction false} CountSinceReset(threshold: u8, cooldown: nat, ops: seq<Op>) returns (j: nat)
    ensures j <= |ops| && (j > 0 ==> Resets(threshold, cooldown, ops, j - 1))
    ensures forall i: nat | j <= i :: !Resets(threshold, cooldown, ops, i)
    ensures Reference(threshold as nat, cooldown, ops).count == Failures(ops[j..])
  {
    if ops == [] {
      j := 0;
    } else {
      var k := |ops| - 1;
      var prev := ops[..k];
      if Resets(threshold, cooldown, ops, k) {
        j := k + 1;
      } else {
        j := CountSinceReset(threshold, cooldown, prev);
        forall i: nat | i < k ensures Resets(threshold, cooldown, ops, i) <==> Resets(threshold, cooldown, prev, i) {
          assert prev[..i] == ops[..i];
        }
        assert ops[j..][..|ops[j..]| - 1] == prev[j..];
      }
    }
  }

  /** A report that opens the breaker ends a streak of failures without a success between them. */
  lemma OpensEndsStreak(threshold: u8, cooldown: nat, ops: seq<Op>, i: nat) returns (j: nat)
    requires Opens(threshold, cooldown, ops, i)
    ensures j <= i && Failures(ops[j..i + 1]) >= (if threshold == 0 then 1 else threshold as nat)
    ensures forall x | j <= x <= i :: ops[x].kind != SuccessReport
  {
    var before := ops[..i];
    j := CountSinceReset(threshold, cooldown, before);
    assert ops[j..i + 1][..|ops[j..i + 1]| - 1] == before[j..];
    forall x | j <= x < i ensures ops[x].kind != SuccessReport {
      assert !Resets(threshold, cooldown, before, x);
    }
  }

  /** A closed breaker with a positive threshold has seen fewer failures than the threshold. */
  lemma {:induction false} ClosedBelowThreshold(threshold: u8, cooldown: nat, ops: seq<Op>)
    requires threshold >= 1
    ensures var b := After(New(threshold, cooldown), ops);
            b.threshold == threshold && (b.openUntil.None? ==> b.failures < threshold)
  {
    if ops != [] {
      ClosedBelowThreshold(threshold, cooldown, ops[..|ops| - 1]);
    }
  }

  // ----- the open window

  ghost predicate Monotone(ops: seq<Op>) {
    forall i, j | 0 <= i < j < |ops| :: ops[i].at <= ops[j].at
  }

  /** The `i`-th operation is a failure report that brings the true count to the threshold. */
  ghost predicate Opens(threshold: u8, cooldown: nat, ops: seq<Op>, i: nat) {
    i < |ops| && ops[i].kind == FailureReport &&
    Reference(threshold as nat, cooldown, ops[..i]).count + 1 >= threshold as nat
  }

  lemma OpensOpens(threshold: u8, cooldown: nat, ops: seq<Op>, i: nat)
    requires i < |ops|
    ensures Opens(threshold, cooldown, ops, i) ==>
              After(New(threshold, cooldown), ops[..i + 1]).openUntil == Some(ops[i].at + cooldown)
  {
    CounterRefines(threshold, cooldown, ops[..i + 1]);
    assert ops[..i + 1][..i] == ops[..i];
  }

  lemma {:induction false} StaysOpen(threshold: u8, cooldown: nat, ops: seq<Op>, i: nat)
    requires Monotone(ops) && Opens(threshold, cooldown, ops, i)
    requires forall j | i < j < |ops| :: ops[j].at < ops[i].at + cooldown
    ensures var b := After(New(threshold, cooldown), ops);
            b.openUntil.Some? && b.openUntil.value >= ops[i].at + cooldown
  {
    var k := |ops| - 1;
    var prev := ops[..k];
    if i == k {
      OpensOpens(threshold, cooldown, ops, i);
      assert ops[..i + 1] == ops;
    } else {
      assert prev[..i] == ops[..i];
      assert Opens(threshold, cooldown, prev, i);
      StaysOpen(threshold, cooldown, prev, i);
      CounterRefines(threshold, cooldown, prev);
      assert ops[i].at <= ops[k].at;
    }
  }

  /**
   Once a failure report at time `t` has opened the breaker, every later `allow` before
   `t + cooldown` refuses, whatever other calls report in between.
   */
  lemma WindowRefuses(threshold: u8, cooldown: nat, ops: seq<Op>, i: nat, now: nat)
    requires Monotone(ops + [Op(AllowCall, now)]) && Opens(threshold, cooldown, ops, i)
    requires now < ops[i].at + cooldown
    ensures !Admits(After(New(threshold, cooldown), ops), now)
  {
    var all := ops + [Op(AllowCall, now)];
    forall j | 0 <= j < |ops| ensures ops[j].at <= now {
      assert all[j].at <= all[|ops|].at;
    }
    assert Monotone(ops) by {
      forall a, b | 0 <= a < b < |ops| ensures ops[a].at <= ops[b].at { assert all[a].at <= all[b].at; }
    }
    StaysOpen(threshold, cooldown, ops, i);
  }

  lemma {:induction false} OpenHasCause(threshold: u8, cooldown: nat, ops: seq<Op>) returns (i: nat)
    requires After(New(threshold, cooldown), ops).openUntil.Some?
    ensures Opens(threshold, cooldown, ops, i)
    ensures After(New(threshold, cooldown), ops).openUntil.value == ops[i].at + cooldown
  {
    var k := |ops| - 1;
    var prev := ops[..k];
    CounterRefines(threshold, cooldown, prev);
    if Opens(threshold, cooldown, ops, k) {
      i := k;
      CounterRefines(threshold, cooldown, ops);
    } else {
      i := OpenHasCause(threshold, cooldown, prev);
      assert prev[..i] == ops[..i];
    }
  }

  /** An `allow` is refused exactly inside the cooldown window of some opening failure report. */
  lemma RefusedIff(threshold: u8, cooldown: nat, ops: seq<Op>, now: nat)
    requires Monotone(ops + [Op(AllowCall, now)])
    ensures !Admits(After(New(threshold, cooldown), ops), now) <==>
            exists i: nat :: Opens(threshold, cooldown, ops, i) && now < ops[i].at + cooldown
  {
    if !Admits(After(New(threshold, cooldown), ops), now) {
      var i := OpenHasCause(threshold, cooldown, ops);
    }
    forall i: nat | Opens(threshold, cooldown, ops, i) && now < ops[i].at + cooldown
      ensures !Admits(After(New(threshold, cooldown), ops), now)
    {
      WindowRefuses(threshold, cooldown, ops, i, now);
    }
  }

  lemma {:induction false} AfterConcat(b: State, xs: seq<Op>, ys: seq<Op>)
    ensures After(b, xs + ys) == After(After(b, xs), ys)
  {
    if ys == [] {
      assert xs + ys == xs;
    } else {
      var k := |ys| - 1;
      assert (xs + ys)[..|xs + ys| - 1] == xs + ys[..k];
      AfterConcat(b, xs, ys[..k]);
    }
  }
}
