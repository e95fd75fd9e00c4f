/** The retry loop and the executor that wraps it in rate limit and circuit breaker. */
module Resilience {
  import opened Errors
  import opened Json
  import opened Breaker
  import opened Machine

  /** Durations are naturals: `Duration` overflow is not modelled. */
  datatype Config = Config(
    timeout: nat,
    maxRetries: u32,
    initialBackoff: nat,
    maxBackoff: nat,
    threshold: u8,
    cooldown: nat
  )

  datatype Attempt<T> = Answered(result: Result<T>) | TimedOut

  function Outcome<T>(cfg: Config, a: Attempt<T>): Result<T> {
    match a
    case Answered(r) => r
    case TimedOut => Err(Timeout(cfg.timeout))
  }

  /** At least one attempt is made, whatever `max_retries` says. */
  function MaxAttempts(cfg: Config): nat {
    if cfg.maxRetries == 0 then 1 else cfg.maxRetries as nat
  }

  function Min(a: nat, b: nat): nat {
    if a <= b then a else b
  }

  function Pow2(k: nat): nat {
    if k == 0 then 1 else 2 * Pow2(k - 1)
  }

  /** The first delay is not capped; the `k`-th after it doubles up to the cap. */
  function Delay(cfg: Config, k: nat): nat {
    if k == 0 then cfg.initialBackoff else Min(cfg.initialBackoff * Pow2(k), cfg.maxBackoff)
  }

  lemma DelayStep(cfg: Config, k: nat)
    ensures Delay(cfg, k + 1) == Min(Delay(cfg, k) * 2, cfg.maxBackoff)
  {
    var i := cfg.initialBackoff;
    assert i * Pow2(k + 1) == 2 * (i * Pow2(k));
    assert k == 0 ==> i * Pow2(k) == i;
  }

  function Sum(s: seq<nat>): nat {
    if s == [] then 0 else Sum(s[..|s| - 1]) + s[|s| - 1]
  }

  /** `n` attempts were made: all but the last erred, the last decides, and it erred only at the limit. */
  ghost predicate Retried<T(!new)>(cfg: Config, attempt: nat -> Attempt<T>, n: nat, res: Result<T>, delays: seq<nat>) {
    1 <= n <= MaxAttempts(cfg) &&
    (forall i: nat | i < n - 1 :: Outcome(cfg, attempt(i)).Err?) &&
    res == Outcome(cfg, attempt(n - 1)) && (res.Err? ==> n == MaxAttempts(cfg)) &&
    |delays| == n - 1 && forall k | 0 <= k < |delays| :: delays[k] == Delay(cfg, k)
  }

  /** What the loop does is determined: there is one number of attempts and one result that fits. */
  lemma RetriedUnique<T(!new)>(cfg: Config, attempt: nat -> Attempt<T>, n: nat, res: Result<T>, delays: seq<nat>,
                         n': nat, res': Result<T>, delays': seq<nat>)
    requires Retried(cfg, attempt, n, res, delays) && Retried(cfg, attempt, n', res', delays')
    ensures n == n' && res == res' && delays == delays'
  {
    assert n <= n' && n' <= n;
    assert delays == delays';
  }

  // ----- the same in terms of what the attempts answer

  ghost predicate IsOk<T(!new)>(a: Attempt<T>) {
    a.Answered? && a.result.Ok?
  }

  /** Attempt `k`, counted from zero, is made if those before it fail: the first always, others up to the limit. */
  ghost predicate MayRun(cfg: Config, k: nat) {
    k == 0 || k < cfg.maxRetries as nat
  }

  ghost predicate FirstOk<T(!new)>(attempt: nat -> Attempt<T>, k: nat) {
    IsOk(attempt(k)) && forall i: nat | i < k :: !IsOk(attempt(i))
  }

  /**
   The first success within the limit is returned, after as many attempts. Without one, all attempts
   are made and the last one's error is returned, or the timeout if it was not answered in time.
   */
  ghost predicate FirstOkOrLast<T(!new)>(cfg: Config, attempt: nat -> Attempt<T>, n: nat, res: Result<T>) {
    (forall k: nat | MayRun(cfg, k) && FirstOk(attempt, k) :: n == k + 1 && res == attempt(k).result) &&
    ((forall k: nat | MayRun(cfg, k) :: !IsOk(attempt(k))) ==>
       n == (if cfg.maxRetries == 0 then 1 else cfg.maxRetries as nat) &&
       res == match attempt(n - 1)
              case Answered(r) => r
              case TimedOut => Err(Timeout(cfg.timeout)))
  }

  /** The first wait is the initial backoff, each later one twice the one before, up to the cap. */
  ghost predicate Doubling(cfg: Config, delays: seq<nat>) {
    (delays != [] ==> delays[0] == cfg.initialBackoff) &&
    forall k | 0 < k < |delays| ::
      delays[k] == if 2 * delays[k - 1] <= cfg.maxBackoff then 2 * delays[k - 1] else cfg.maxBackoff
  }

  lemma {:induction false} DelaysDouble(cfg: Config, delays: seq<nat>)
    ensures (forall k | 0 <= k < |delays| :: delays[k] == Delay(cfg, k)) <==> Doubling(cfg, delays)
  {
    if delays != [] {
      var k := |delays| - 1;
      DelaysDouble(cfg, delays[..k]);
      if k > 0 {
        DelayStep(cfg, k - 1);
        assert delays[..k][k - 1] == delays[k - 1];
      }
      assert Doubling(cfg, delays) ==> Doubling(cfg, delays[..k]);
    }
  }

  lemma {:induction false} FirstOkExists<T(!new)>(attempt: nat -> Attempt<T>, n: nat) returns (k: nat)
    requires exists i: nat :: i < n && IsOk(attempt(i))
    ensures k < n && FirstOk(attempt, k)
  {
    if i: nat :| i < n - 1 && IsOk(attempt(i)) {
      k := FirstOkExists(attempt, n - 1);
    } else {
      k := n - 1;
    }
  }

  lemma OutcomeOk<T(!new)>(cfg: Config, a: Attempt<T>)
    ensures Outcome(cfg, a).Ok? <==> IsOk(a)
    ensures Outcome(cfg, a) == match a case Answered(r) => r case TimedOut => Err(Timeout(cfg.timeout))
  {
  }

  /** What the loop does, in terms of the answers alone. */
  lemma RetriedIff<T(!new)>(cfg: Config, attempt: nat -> Attempt<T>, n: nat, res: Result<T>, delays: seq<nat>)
    ensures Retried(cfg, attempt, n, res, delays) <==>
            FirstOkOrLast(cfg, attempt, n, res) && |delays| == n - 1 && Doubling(cfg, delays)
  {
    DelaysDouble(cfg, delays);
    forall i: nat ensures Outcome(cfg, attempt(i)).Ok? <==> IsOk(attempt(i)) {
      OutcomeOk(cfg, attempt(i));
    }
    var limit := MaxAttempts(cfg);
    assert forall k: nat :: MayRun(cfg, k) <==> k < limit;
    if exists i: nat :: i < limit && IsOk(attempt(i)) {
      var k := FirstOkExists(attempt, limit);
      OutcomeOk(cfg, attempt(k));
      assert MayRun(cfg, k) && FirstOk(attempt, k);
    } else {
      OutcomeOk(cfg, attempt(limit - 1));
    }
  }

  /** All delays together stay below one initial backoff plus the cap for each further retry. */
  lemma {:induction false} TotalDelay(cfg: Config, delays: seq<nat>)
    requires delays != [] && forall k | 0 <= k < |delays| :: delays[k] == Delay(cfg, k)
    ensures Sum(delays) <= cfg.initialBackoff + (|delays| - 1) * cfg.maxBackoff
  {
    var k := |delays| - 1;
    if k == 0 {
      assert delays[..0] == [];
    } else {
      TotalDelay(cfg, delays[..k]);
      assert k * cfg.maxBackoff == (k - 1) * cfg.maxBackoff + cfg.maxBackoff;
    }
  }

  ghost predicate Capped(cfg: Config, delays: seq<nat>) {
    forall k | 0 <= k < |delays| :: delays[k] <= cfg.maxBackoff
  }

  /**
   When the delays of a call respect `max_backoff`: exactly if its first attempt succeeds, or retries
   are off, or the initial backoff is already within the cap.
   */
  lemma CapRespectedIff<T(!new)>(cfg: Config, attempt: nat -> Attempt<T>, n: nat, res: Result<T>, delays: seq<nat>)
    requires Retried(cfg, attempt, n, res, delays)
    ensures Capped(cfg, delays) <==>
            IsOk(attempt(0)) || cfg.maxRetries <= 1 || cfg.initialBackoff <= cfg.maxBackoff
  {
    OutcomeOk(cfg, attempt(0));
    assert n > 1 <==> Outcome(cfg, attempt(0)).Err? && cfg.maxRetries > 1;
    if n > 1 {
      assert delays[0] == Delay(cfg, 0);
    }
    forall k | 0 < k < |delays| ensures delays[k] <= cfg.maxBackoff {
      assert delays[k] == Delay(cfg, k);
    }
  }

  /** The retry loop that this configuration makes of `attempt` sleeps no longer than the cap. */
  ghost predicate AlwaysCapped<T(!new)>(cfg: Config, attempt: nat -> Attempt<T>) {
    forall n: nat, res, delays | Retried(cfg, attempt, n, res, delays) :: Capped(cfg, delays)
  }

  /** The configurations under which every call respects `max_backoff`, whatever its node answers. */
  lemma CapConfiguredIff<T(!new)>(cfg: Config)
    ensures (forall attempt: nat -> Attempt<T> :: AlwaysCapped(cfg, attempt)) <==>
            cfg.maxRetries <= 1 || cfg.initialBackoff <= cfg.maxBackoff
  {
    var dead: nat -> Attempt<T> := i => TimedOut;
    var n := MaxAttempts(cfg);
    var delays := seq(n - 1, k requires 0 <= k < n - 1 => Delay(cfg, k));
    assert Retried(cfg, dead, n, Err(Timeout(cfg.timeout)), delays);
    CapRespectedIff(cfg, dead, n, Err(Timeout(cfg.timeout)), delays);
    if cfg.maxRetries <= 1 || cfg.initialBackoff <= cfg.maxBackoff {
      forall attempt: nat -> Attempt<T> ensures AlwaysCapped(cfg, attempt) {
        forall n: nat, res, delays | Retried(cfg, attempt, n, res, delays) ensures Capped(cfg, delays) {
          CapRespectedIff(cfg, attempt, n, res, delays);
        }
      }
    } else {
      assert !AlwaysCapped(cfg, dead);
    }
  }

  /** A first delay above the cap: initial backoff 10, cap 5, one retry. */
  lemma FirstDelayAboveCap()
    ensures var cfg := Config(1, 2, 10, 5, 5, 1);
            var attempt: nat -> Attempt<()> := i => TimedOut;
            Retried(cfg, attempt, 2, Err(Timeout(1)), [10]) && [10][0] > cfg.maxBackoff
  {
    var cfg := Config(1, 2, 10, 5, 5, 1);
    var delays: seq<nat> := [10];
    assert delays[0] == Delay(cfg, 0);
  }

  method RetryLoop<T(!new)>(cfg: Config, attempt: nat -> Attempt<T>)
    returns (res: Result<T>, calls: u32, delays: seq<nat>)
    ensures Retried(cfg, attempt, calls as nat, res, delays)
    ensures FirstOkOrLast(cfg, attempt, calls as nat, res)
    ensures |delays| == calls as nat - 1 && Doubling(cfg, delays)
  {
    calls := 0;
    delays := [];
    var backoff := cfg.initialBackoff;
    while true
      invariant calls as nat < MaxAttempts(cfg)
      invariant forall i: nat | i < calls as nat :: Outcome(cfg, attempt(i)).Err?
      invariant |delays| == calls as nat && forall k | 0 <= k < |delays| :: delays[k] == Delay(cfg, k)
      invariant backoff == Delay(cfg, |delays|)
      decreases MaxAttempts(cfg) - calls as nat
    {
      res := Outcome(cfg, attempt(calls as nat));
      calls := calls + 1;
      if res.Ok? || calls >= cfg.maxRetries {
        RetriedIff(cfg, attempt, calls as nat, res, delays);
        return;
      }
      DelayStep(cfg, |delays|);
      delays := delays + [backoff];
      backoff := Min(backoff * 2, cfg.maxBackoff);
    }
  }

  /** What other calls do to the shared breaker while this one is waiting. */
  method Interleave(breaker: CircuitBreaker, ops: seq<Op>)
    modifies breaker
    ensures breaker.Value() == After(old(breaker.Value()), ops)
  {
    for i := 0 to |ops|
      invariant breaker.Value() == After(old(breaker.Value()), ops[..i])
    {
      assert ops[..i + 1][..i] == ops[..i];
      match ops[i].kind {
        case AllowCall => var _ := breaker.Allow(ops[i].at);
        case SuccessReport => breaker.OnSuccess();
        case FailureReport => breaker.OnFailure(ops[i].at);
      }
    }
    assert ops[..|ops|] == ops;
  }

  class ResilientExecutor {
    const cfg: Config
    const breaker: CircuitBreaker

    constructor (cfg: Config)
      ensures this.cfg == cfg && breaker.Value() == New(cfg.threshold, cfg.cooldown)
    {
      this.cfg := cfg;
      this.breaker := new CircuitBreaker(cfg.threshold, cfg.cooldown);
    }

    /**
     One call through the executor. `admitted` is the rate limiter's answer, `others` whatever
     breaker operations of other calls fall between this call's admission and its report.
     */
    method Run<T(!new)>(admitted: bool, at: nat, attempt: nat -> Attempt<T>, others: seq<Op>, reportAt: nat)
      returns (res: Result<T>, calls: u32, delays: seq<nat>)
      modifies breaker
      ensures !admitted ==>
                res == Err(RateLimited) && calls == 0 && breaker.Value() == old(breaker.Value())
      ensures admitted && !Admits(old(breaker.Value()), at) ==>
                res == Err(CircuitOpen) && calls == 0 && breaker.Value() == old(breaker.Value())
      ensures admitted && Admits(old(breaker.Value()), at) ==>
                Retried(cfg, attempt, calls as nat, res, delays) &&
                FirstOkOrLast(cfg, attempt, calls as nat, res) &&
                |delays| == calls as nat - 1 && Doubling(cfg, delays) &&
                breaker.Value() ==
                After(old(breaker.Value()),
                      [Op(AllowCall, at)] + others + [Op(if res.Ok? then SuccessReport else FailureReport, reportAt)])
      ensures admitted && Admits(old(breaker.Value()), at) && others == [] ==>
                if res.Ok? then breaker.failures == 0 && breaker.openUntil.None?
                else
                  breaker.failures as nat == OneMore(old(breaker.Value())) &&
                  breaker.openUntil ==
                  if breaker.failures >= breaker.threshold then Some(reportAt + breaker.cooldown) else None
    {
      calls, delays := 0, [];
      if !admitted {
        return Err(RateLimited), calls, delays;
      }
      var ok := breaker.Allow(at);
      if !ok {
        return Err(CircuitOpen), calls, delays;
      }
      res, calls, delays := RetryLoop(cfg, attempt);
      Interleave(breaker, others);
      if res.Ok? {
        breaker.OnSuccess();
      } else {
        breaker.OnFailure(reportAt);
      }
      ghost var report := Op(if res.Ok? then SuccessReport else FailureReport, reportAt);
      HistoryOfCall(old(breaker.Value()), at, others, report);
      CallAlone(old(breaker.Value()), at, report);
    }
  }

  /** One failure more than the closed or expired breaker has counted, up to 255. */
  ghost function OneMore(b: Breaker.State): nat {
    var n := if b.openUntil.Some? then 0 else b.failures as nat;
    if n == 255 then 255 else n + 1
  }

  /** What an admitted call leaves behind if no other uses the breaker meanwhile. */
  lemma CallAlone(b: Breaker.State, at: nat, report: Op)
    requires Admits(b, at) && report.kind != AllowCall
    ensures var c := After(b, [Op(AllowCall, at)] + [] + [report]);
            c.threshold == b.threshold && c.cooldown == b.cooldown &&
            if report.kind == SuccessReport then c.failures == 0 && c.openUntil.None?
            else
              c.failures as nat == OneMore(b) &&
              c.openUntil == if c.failures >= b.threshold then Some(report.at + b.cooldown) else None
  {
    HistoryOfCall(b, at, [], report);
  }

  lemma HistoryOfCall(b: Breaker.State, at: nat, others: seq<Op>, report: Op)
    ensures After(b, [Op(AllowCall, at)] + others + [report]) ==
            Apply(After(Apply(b, Op(AllowCall, at)), others), report)
  {
    var allow := Op(AllowCall, at);
    AfterConcat(b, [allow], others);
    AfterConcat(b, [allow] + others, [report]);
    assert [allow][..0] == [] && [report][..0] == [];
    assert After(b, [allow]) == Apply(After(b, []), allow);
    var c := After(b, [allow] + others);
    assert After(c, [report]) == Apply(After(c, []), report);
  }
}
