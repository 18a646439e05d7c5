/** Retry with capped, jittered exponential backoff (internal/agent/reporter/reporter.go),
    in the machine arithmetic the program uses: durations are signed 64-bit nanosecond
    counts and wrap around. */
module Retry {
  import opened Prelude

  const SECOND: int := 1_000_000_000
  const TWO_63: int := 0x8000_0000_0000_0000
  const TWO_64: int := 0x1_0000_0000_0000_0000

  function Pow2(k: nat): nat
    ensures Pow2(k) >= 1
  {
    if k == 0 then 1 else 2 * Pow2(k - 1)
  }

  /** Two's complement 64-bit wrap-around. */
  function Wrap64(n: int): (w: int)
    ensures -TWO_63 <= w < TWO_63
    ensures -TWO_63 <= n < TWO_63 ==> w == n
  {
    (n + TWO_63) % TWO_64 - TWO_63
  }

  function Min(a: int, b: int): int
  {
    if a < b then a else b
  }

  lemma WrapCongruent(n: int, m: int)
    ensures Wrap64(n + TWO_64 * m) == Wrap64(n)
  {
    ModAddMultiple(n + TWO_63, m);
    assert n + TWO_64 * m + TWO_63 == (n + TWO_63) + TWO_64 * m;
  }

  lemma ModAddMultiple(x: int, m: int)
    ensures (x + TWO_64 * m) % TWO_64 == x % TWO_64
  {
  }

  /** Wrapping a factor first makes no difference to a wrapped product. */
  lemma WrapProduct(n: int)
    ensures Wrap64(Wrap64(n) * SECOND) == Wrap64(n * SECOND)
  {
    var j := (n + TWO_63) / TWO_64;
    assert Wrap64(n) == n - TWO_64 * j;
    assert Wrap64(n) * SECOND == n * SECOND + TWO_64 * (-j * SECOND);
    WrapCongruent(n * SECOND, -j * SECOND);
  }

  /** `time.Duration(1<<uint(attempt-1)) * time.Second`. */
  function Doubled(attempt: int): int
    requires attempt >= 1
  {
    Wrap64(Wrap64(Pow2(attempt - 1)) * SECOND)
  }

  /** The backoff before jitter. */
  function Base(attempt: int, maxBackoff: int): int
  {
    var d := Min(Doubled(if attempt <= 0 then 1 else attempt), maxBackoff);
    if d <= 0 then 0 else d
  }

  // ---------------------------------------------------------------------
  // What the wrap-around does to the intended delay min(2^(attempt-1) s, maxBackoff).

  /** The attempts whose doubled delay wraps to zero or below. */
  predicate WrapsAway(attempt: int)
  {
    attempt in {35, 36, 37, 39, 40, 41, 44, 45, 47, 49, 50, 53} || attempt >= 55
  }

  lemma {:induction false} Pow2Split(a: nat, b: nat)
    ensures Pow2(a + b) == Pow2(a) * Pow2(b)
  {
    if a > 0 { Pow2Split(a - 1, b); }
  }

  lemma {:induction false} Pow2Monotone(a: nat, b: nat)
    requires a <= b
    ensures Pow2(a) <= Pow2(b)
  {
    if a < b { Pow2Monotone(a, b - 1); }
  }

  lemma Pow2Values()
    ensures Pow2(33) == 0x2_0000_0000 && Pow2(61) == 0x2000_0000_0000_0000
  {
    assert Pow2(11) == 0x800 && Pow2(6) == 0x40;
    Pow2Split(11, 11);
    Pow2Split(22, 11);
    Pow2Split(33, 22);
    Pow2Split(55, 6);
  }

  lemma DoubledEarly(attempt: int)
    requires 1 <= attempt <= 34
    ensures Doubled(attempt) == Pow2(attempt - 1) * SECOND
  {
    Pow2Values();
    Pow2Monotone(attempt - 1, 33);
  }

  lemma DoubledStep(attempt: int)
    requires attempt >= 1
    ensures Doubled(attempt + 1) == Wrap64(2 * Doubled(attempt))
  {
    var n := Pow2(attempt - 1);
    WrapProduct(n);
    WrapProduct(2 * n);
    var j := (n * SECOND + TWO_63) / TWO_64;
    assert Wrap64(n * SECOND) == n * SECOND - TWO_64 * j;
    WrapCongruent(2 * (n * SECOND), -2 * j);
  }

  /** The doubled delays of attempts 34 to 55. */
  const LATE_DELAYS: seq<int> := [
    8589934592000000000, -1266874889709551616, -2533749779419103232,
    -5067499558838206464, 8311744956033138688, -1823254161643274240,
    -3646508323286548480, -7293016646573096960, 3860710780563357696,
    7721421561126715392, -3003900951456120832, -6007801902912241664,
    6431140267885068288, -5584463537939415040, 7277816997830721536,
    -3891110078048108544, -7782220156096217088, 2882303761517117440,
    5764607523034234880, -6917529027641081856, 4611686018427387904,
    -9223372036854775808
  ]

  lemma {:induction false} DoubledMiddle(attempt: int)
    requires 34 <= attempt <= 55
    ensures Doubled(attempt) == LATE_DELAYS[attempt - 34]
  {
    if attempt == 34 {
      DoubledEarly(attempt);
      Pow2Values();
    } else {
      DoubledStep(attempt - 1);
      DoubledMiddle(attempt - 1);
      LateStep(attempt - 35);
    }
  }

  lemma LateStep(i: nat)
    requires i < 21
    ensures Wrap64(2 * LATE_DELAYS[i]) == LATE_DELAYS[i + 1]
  {
  }

  lemma LateSigns(attempt: int)
    requires 35 <= attempt <= 55
    ensures if WrapsAway(attempt) then LATE_DELAYS[attempt - 34] <= 0 else LATE_DELAYS[attempt - 34] > 0x2000_0000_0000_0000
  {
  }

  lemma LastLateDelay(i: nat)
    requires i == 21
    ensures LATE_DELAYS[i] == -TWO_63 && Wrap64(2 * LATE_DELAYS[i]) == 0
  {
  }

  lemma {:induction false} DoubledLate(attempt: int)
    requires attempt >= 56
    ensures Doubled(attempt) == 0
  {
    DoubledStep(attempt - 1);
    if attempt == 56 {
      DoubledMiddle(attempt - 1);
      LastLateDelay(attempt - 35);
    } else {
      DoubledLate(attempt - 1);
    }
  }

  /** For every positive cap: the delay before jitter is the intended one if and only if the
      attempt is at most 34 or its wrapped delay happens to reach the cap. */
  lemma BackoffIsExponentialIff(attempt: int, maxBackoff: int)
    requires attempt >= 1 && 0 < maxBackoff < TWO_63
    ensures Base(attempt, maxBackoff) == Min(Pow2(attempt - 1) * SECOND, maxBackoff) <==>
      attempt <= 34 || (attempt <= 55 && LATE_DELAYS[attempt - 34] >= maxBackoff)
  {
    Pow2Values();
    if attempt <= 34 {
      DoubledEarly(attempt);
    } else {
      Pow2Monotone(34, attempt - 1);
      assert Pow2(34) == 2 * Pow2(33);
      if attempt <= 55 { DoubledMiddle(attempt); } else { DoubledLate(attempt); }
    }
  }

  /** For caps up to 2^61 ns (73 years) the delay before jitter is the intended one, except
      that it vanishes exactly for the attempts that wrap away: 35 is the first. */
  lemma BackoffIsExponentialUntilItWraps(attempt: int, maxBackoff: int)
    requires attempt >= 1 && 0 < maxBackoff <= Pow2(61)
    ensures Base(attempt, maxBackoff) == if WrapsAway(attempt) then 0 else Min(Pow2(attempt - 1) * SECOND, maxBackoff)
  {
    Pow2Values();
    if attempt <= 34 {
      DoubledEarly(attempt);
    } else {
      Pow2Monotone(33, attempt - 1);
      if attempt <= 55 { DoubledMiddle(attempt); LateSigns(attempt); } else { DoubledLate(attempt); }
    }
  }

  // ---------------------------------------------------------------------
  // Retry-After.

  /** A Retry-After header after library parsing: a decimal 64-bit number, else an HTTP
      date, else neither. */
  datatype Header = Missing | Seconds(n: int) | Date(at: int) | Malformed

  function RetryAfterDelay(header: Header, now: int): Option<int>
  {
    match header
    case Seconds(n) => if n < 0 then None else Some(Wrap64(n * SECOND))
    case Date(at) =>
      var d := Min(at - now, TWO_63 - 1);
      Some(if d < 0 then 0 else d)
    case _ => None
  }

  /** A delay in seconds is honoured up to the cap exactly when it is short enough not to
      wrap (292 years), or happens to wrap to something past the cap. */
  lemma RetryAfterHonoured(n: int, now: int, maxBackoff: int)
    requires 0 <= n < TWO_63 && 0 < maxBackoff < TWO_63
    ensures (Min(RetryAfterDelay(Seconds(n), now).value, maxBackoff) == Min(n * SECOND, maxBackoff)) <==>
      (n <= 9_223_372_036 || Wrap64(n * SECOND) >= maxBackoff)
  {
    if n > 9_223_372_036 { assert n * SECOND >= TWO_63; }
  }

  /** A date is honoured up to the cap, a past one at once; anything else is not a wish. */
  lemma RetryDateHonoured(at: int, n: int, now: int, maxBackoff: int)
    requires 0 < maxBackoff < TWO_63
    ensures RetryAfterDelay(Date(at), now).Some?
    ensures Min(RetryAfterDelay(Date(at), now).value, maxBackoff) == if at <= now then 0 else Min(at - now, maxBackoff)
    ensures RetryAfterDelay(Missing, now).None? && RetryAfterDelay(Malformed, now).None?
    ensures RetryAfterDelay(Seconds(n), now).None? <==> n < 0
  {
  }

  // ---------------------------------------------------------------------
  // The cap as configured, and the draw it allows.

  /** `BONGSU_AGENT_RETRY_MAX_BACKOFF_SECONDS`, or 30 seconds. */
  function ConfiguredBackoff(env: Option<int>): int
  {
    if env.Some? && env.value > 0 then Wrap64(env.value * SECOND) else 30 * SECOND
  }

  lemma WrapKeepsMultiples(n: int)
    ensures Wrap64(n * SECOND) % 512 == 0
  {
    var j := (n * SECOND + TWO_63) / TWO_64;
    assert Wrap64(n * SECOND) == n * SECOND - TWO_64 * j;
    assert n * SECOND - TWO_64 * j == 512 * (1953125 * n - 0x80_0000_0000_0000 * j);
  }

  lemma DoubledKeepsMultiples(attempt: int)
    requires attempt >= 1
    ensures Doubled(attempt) % 512 == 0
  {
    WrapProduct(Pow2(attempt - 1));
    WrapKeepsMultiples(Pow2(attempt - 1));
  }

  /** The random draw has an empty range if and only if the cap is one nanosecond and the
      doubled delay is positive. */
  lemma DrawIsEmptyIff(attempt: int, maxBackoff: int)
    requires attempt >= 1
    ensures Base(attempt, maxBackoff) > 0 && Base(attempt, maxBackoff) / 2 <= 0 <==>
      maxBackoff == 1 && Doubled(attempt) > 0
  {
    DoubledKeepsMultiples(attempt);
  }

  /** Whatever the environment says, the cap is not one nanosecond and no draw is empty. */
  lemma DrawIsNeverEmpty(env: Option<int>, attempt: int)
    requires attempt >= 1
    ensures ConfiguredBackoff(env) != 1
    ensures Base(attempt, ConfiguredBackoff(env)) > 0 ==> Base(attempt, ConfiguredBackoff(env)) / 2 > 0
  {
    if env.Some? { WrapKeepsMultiples(env.value); }
    DrawIsEmptyIff(attempt, ConfiguredBackoff(env));
  }

  /** Adding the jitter cannot overflow, whatever is drawn, exactly up to two thirds of the
      64-bit range. */
  lemma JitterFits(attempt: int, maxBackoff: int)
    requires 2 <= Base(attempt, maxBackoff) < TWO_63
    ensures var b := Base(attempt, maxBackoff);
      (forall j :: 0 <= j < b / 2 ==> Jittered(b, j) == b + j) <==> b + b / 2 <= TWO_63
  {
    var b := Base(attempt, maxBackoff);
    if b + b / 2 > TWO_63 {
      assert Jittered(b, b / 2 - 1) != b + (b / 2 - 1);
    }
  }

  function Jittered(base: int, jitter: int): int
  {
    Wrap64(base + jitter)
  }

  // ---------------------------------------------------------------------
  // The retry loop.

  datatype Response = Response(status: int, retryAfter: Header)
  datatype Reply = NetworkError | Got(resp: Response)

  predicate ShouldRetryHTTP(status: int)
  {
    status == 429 || status >= 500
  }

  predicate Retryable(reply: Reply)
  {
    reply.NetworkError? || ShouldRetryHTTP(reply.resp.status)
  }

  /** Time spent in `time.Sleep`, which returns at once for delays of zero or less. */
  function TotalSleep(delays: seq<int>): nat
  {
    if delays == [] then 0 else
      var d := delays[|delays| - 1];
      TotalSleep(delays[..|delays| - 1]) + if d > 0 then d else 0
  }

  /** Twice this delay is at most three times the cap, so a delay is under 1.5 caps. */
  ghost predicate WithinCap(delay: int, maxBackoff: int)
  {
    delay <= 0 || 2 * delay <= 3 * maxBackoff
  }

  ghost predicate AllWithinCap(delays: seq<int>, maxBackoff: int)
  {
    forall i :: 0 <= i < |delays| ==> WithinCap(delays[i], maxBackoff)
  }

  /** All pauses together last at most their number times 1.5 caps. */
  ghost predicate AverageWithinCap(delays: seq<int>, maxBackoff: int)
  {
    2 * TotalSleep(delays) <= 3 * maxBackoff * |delays|
  }

  lemma {:induction false} TotalWithinCap(delays: seq<int>, maxBackoff: int)
    requires 0 <= maxBackoff
    requires AllWithinCap(delays, maxBackoff)
    ensures AverageWithinCap(delays, maxBackoff)
  {
    if delays != [] {
      var before := delays[..|delays| - 1];
      TotalWithinCap(before, maxBackoff);
      assert 3 * maxBackoff * |delays| == 3 * maxBackoff * |before| + 3 * maxBackoff;
    }
  }

  /** The delay follows from the failed call: the server's wish, capped, or else the
      jittered backoff of that attempt. */
  ghost predicate FollowsFrom(delay: int, attempt: int, reply: Reply, now: int, maxBackoff: int)
  {
    if reply.Got? && RetryAfterDelay(reply.resp.retryAfter, now).Some?
    then delay == Min(RetryAfterDelay(reply.resp.retryAfter, now).value, maxBackoff)
    else FromBackoff(delay, attempt, maxBackoff)
  }

  /** Each delay follows from the call before it. */
  ghost predicate Followed(delays: seq<int>, fn: nat -> Reply, now: nat -> int, maxBackoff: int)
  {
    forall i: nat :: i < |delays| ==> FollowsFrom(delays[i], i + 1, fn(i), now(i), maxBackoff)
  }

  lemma OneMoreDelay(delays: seq<int>, delay: int, fn: nat -> Reply, now: nat -> int, maxBackoff: int)
    requires Followed(delays, fn, now, maxBackoff) && AllWithinCap(delays, maxBackoff) && WithinCap(delay, maxBackoff)
    requires FollowsFrom(delay, |delays| + 1, fn(|delays|), now(|delays|), maxBackoff)
    ensures Followed(delays + [delay], fn, now, maxBackoff) && AllWithinCap(delays + [delay], maxBackoff)
  {
  }

  ghost predicate FromBackoff(delay: int, attempt: int, maxBackoff: int)
  {
    var b := Base(attempt, maxBackoff);
    if b == 0 then delay == 0 else exists j :: 0 <= j < b / 2 && delay == Jittered(b, j)
  }

  /** The first n replies all call for another try. */
  ghost predicate AllRetryable(fn: nat -> Reply, n: int)
  {
    forall i: nat :: i < n ==> Retryable(fn(i))
  }

  class Reporter {
    const maxAttempts: int
    const maxBackoff: int
    var slept: seq<int>

    constructor (attempts: Option<int>, backoff: Option<int>)
      ensures Valid() && slept == []
      ensures maxAttempts == if attempts.Some? && attempts.value > 0 then attempts.value else 5
      ensures maxBackoff == ConfiguredBackoff(backoff)
      ensures backoff.None? || backoff.value <= 0 ==> maxBackoff == 30_000_000_000
      ensures backoff.Some? && 0 < backoff.value <= 9_223_372_036 ==> maxBackoff == backoff.value * 1_000_000_000
    {
      maxAttempts := if attempts.Some? && attempts.value > 0 then attempts.value else 5;
      maxBackoff := ConfiguredBackoff(backoff);
      slept := [];
      new;
      DrawIsNeverEmpty(backoff, 1);
    }

    ghost predicate Valid()
    {
      maxBackoff != 1 && -TWO_63 <= maxBackoff < TWO_63
    }

    function BoundedBackoff(delay: int): int
    {
      if delay > maxBackoff then maxBackoff else delay
    }

    /** The random source; it must never be asked for an empty range. */
    method Int63n(n: int) returns (r: int)
      requires n > 0
      ensures 0 <= r < n
    {
      assert 0 <= 0 < n;
      r :| 0 <= r < n;
    }

    method ExponentialBackoff(attempt: int) returns (delay: int)
      requires Valid()
      ensures FromBackoff(delay, attempt, maxBackoff)
      ensures 0 <= maxBackoff <= 0x4000_0000_0000_0000 ==>
        0 <= delay && Base(attempt, maxBackoff) <= delay && (delay > 0 ==> 2 * delay < 3 * maxBackoff)
      ensures WithinCap(delay, maxBackoff)
    {
      var a := if attempt <= 0 then 1 else attempt;
      var backoff := BoundedBackoff(Wrap64(Wrap64(Pow2(a - 1)) * SECOND));
      DrawIsEmptyIff(a, maxBackoff);
      if backoff <= 0 {
        return 0;
      }
      var jitter := Int63n(backoff / 2);
      delay := Jittered(backoff, jitter);
    }

    method RetryDelay(attempt: int, resp: Option<Response>, now: int) returns (delay: int)
      requires Valid()
      ensures WithinCap(delay, maxBackoff)
      ensures FollowsFrom(delay, attempt, if resp.Some? then Got(resp.value) else NetworkError, now, maxBackoff)
    {
      if resp.Some? {
        var d := RetryAfterDelay(resp.value.retryAfter, now);
        if d.Some? {
          return BoundedBackoff(d.value);
        }
      }
      delay := ExponentialBackoff(attempt);
    }

    method Sleep(delay: int)
      modifies this`slept
      ensures slept == old(slept) + [delay]
    {
      slept := slept + [delay];
    }

    /** What one reply leads to: a response to return, or a delay before the next call. */
    method Try(attempt: nat, reply: Reply, now: int) returns (result: Option<Response>, delay: int)
      requires Valid()
      ensures result.Some? <==> reply.Got? && reply.resp.status != 429 && reply.resp.status < 500
      ensures result.Some? ==> reply == Got(result.value) && !Retryable(reply)
      ensures result.None? ==> Retryable(reply) && FollowsFrom(delay, attempt + 1, reply, now, maxBackoff)
      ensures WithinCap(delay, maxBackoff)
    {
      result, delay := None, 0;
      if reply.NetworkError? {
        delay := RetryDelay(attempt + 1, None, now);
      } else if ShouldRetryHTTP(reply.resp.status) {
        delay := RetryDelay(attempt + 1, Some(reply.resp), now);
      } else {
        result := Some(reply.resp);
      }
    }

    /** Calls `fn` until it answers with something not worth retrying, at most
        `maxAttempts` times, sleeping between calls only.  `delays` is what it slept. */
    method DoWithRetry(fn: nat -> Reply, now: nat -> int)
      returns (result: Option<Response>, calls: nat, ghost delays: seq<int>)
      requires Valid()
      modifies this`slept
      ensures calls <= if maxAttempts > 0 then maxAttempts else 0
      ensures result.Some? ==> calls >= 1 && fn(calls - 1) == Got(result.value) && !Retryable(fn(calls - 1))
      ensures result.Some? ==> result.value.status != 429 && result.value.status < 500
      ensures result.None? ==> calls == (if maxAttempts > 0 then maxAttempts else 0)
      ensures forall i: nat :: i < (if result.Some? then calls - 1 else calls) ==>
        fn(i).NetworkError? || fn(i).resp.status == 429 || fn(i).resp.status >= 500
      ensures slept == old(slept) + delays && |delays| == if calls > 0 then calls - 1 else 0
      ensures Followed(delays, fn, now, maxBackoff)
      ensures 0 <= maxBackoff ==> AverageWithinCap(delays, maxBackoff)
    {
      var delay := 0;
      var attempt := 0;
      ghost var slept0, limit := slept, if maxAttempts > 0 then maxAttempts else 0;
      result, calls, delays := None, 0, [];
      while attempt < maxAttempts
        invariant 0 <= attempt <= limit && calls == attempt
        invariant AllRetryable(fn, attempt)
        invariant slept == slept0 + delays
        invariant if attempt > 0 then |delays| == attempt - 1 else delays == []
        invariant WithinCap(delay, maxBackoff) && AllWithinCap(delays, maxBackoff)
        invariant attempt > 0 ==> FollowsFrom(delay, attempt, fn(attempt - 1), now(attempt - 1), maxBackoff)
        invariant Followed(delays, fn, now, maxBackoff)
        invariant result.None?
      {
        if attempt > 0 {
          OneMoreDelay(delays, delay, fn, now, maxBackoff);
          Sleep(delay);
          delays := delays + [delay];
          assert slept == slept0 + delays;
        }
        calls := calls + 1;
        result, delay := Try(attempt, fn(attempt), now(attempt));
        if result.Some? {
          break;
        }
        attempt := attempt + 1;
      }
      if 0 <= maxBackoff { TotalWithinCap(delays, maxBackoff); }
    }
  }
}
