/** The per-address rate limiter with idle cleanup (internal/server/api/ratelimit.go).

    A library token bucket is taken to start full, to refill at `rps` up to `burst` (not
    at all for a rate of zero or less), and to spend one token per allowed request; time
    and tokens are real numbers, seconds and whole requests.  The question is whether
    forgetting idle addresses can be noticed from the answers. */
module RateLimit {

  const IDLE: real := 600.0

  datatype Bucket = Bucket(tokens: real, last: real)
  datatype Visitor = Visitor(bucket: Bucket, lastSeen: real)
  datatype Config = Config(rps: real, burst: int)

  /** One request from an address, or one pass of the cleanup loop. */
  datatype Op = Request(ip: string, now: real) | Cleanup(now: real)

  function Fresh(c: Config, now: real): Bucket
  {
    Bucket(c.burst as real, now)
  }

  /** What `time` refills; a rate of zero or less refills nothing. */
  function Refill(time: real, rps: real): real
  {
    if rps <= 0.0 then 0.0 else time * rps
  }

  function Tokens(c: Config, b: Bucket, now: real): real
  {
    var t := b.tokens + Refill(now - b.last, c.rps);
    if t > c.burst as real then c.burst as real else t
  }

  predicate Allows(c: Config, b: Bucket, now: real)
  {
    c.burst >= 1 && Tokens(c, b, now) >= 1.0
  }

  function Spend(c: Config, b: Bucket, now: real): Bucket
  {
    if Allows(c, b, now) then Bucket(Tokens(c, b, now) - 1.0, now) else b
  }

  function BucketOf(c: Config, table: map<string, Visitor>, ip: string, now: real): Bucket
  {
    if ip in table then table[ip].bucket else Fresh(c, now)
  }

  predicate Idle(v: Visitor, now: real)
  {
    now - v.lastSeen > IDLE
  }

  /** The table after `ops`, with the cleanup passes carried out or ignored. */
  ghost function Table(c: Config, ops: seq<Op>, cleaning: bool): map<string, Visitor>
  {
    if ops == [] then map[] else
      var table := Table(c, ops[..|ops| - 1], cleaning);
      match ops[|ops| - 1]
      case Request(ip, now) => table[ip := Visitor(Spend(c, BucketOf(c, table, ip, now), now), now)]
      case Cleanup(now) => if cleaning then map ip | ip in table && !Idle(table[ip], now) :: table[ip] else table
  }

  /** The answer to a request that comes after `ops`. */
  ghost predicate Answer(c: Config, ops: seq<Op>, ip: string, now: real, cleaning: bool)
  {
    Allows(c, BucketOf(c, Table(c, ops, cleaning), ip, now), now)
  }

  ghost predicate Chronological(ops: seq<Op>, t: real)
  {
    ops == [] || (ops[|ops| - 1].now <= t && Chronological(ops[..|ops| - 1], ops[|ops| - 1].now))
  }

  /** The burst does not exceed what ten idle minutes refill. */
  predicate RefillsWhileIdle(c: Config)
  {
    c.burst <= 0 || c.burst as real <= Refill(IDLE, c.rps)
  }

  // ---------------------------------------------------------------------
  // Cleanup cannot be noticed.

  ghost predicate Sane(c: Config, v: Visitor, t: real)
  {
    v.bucket.last <= v.lastSeen <= t && 0.0 <= v.bucket.tokens <= c.burst as real
  }

  /** At time t the two tables agree, up to addresses the cleaned one has forgotten, whose
      buckets are full. */
  ghost predicate Related(c: Config, cleaned: map<string, Visitor>, full: map<string, Visitor>, t: real)
  {
    && (forall ip :: ip in cleaned ==> ip in full && full[ip] == cleaned[ip])
    && (forall ip :: ip in full ==> Sane(c, full[ip], t) && (ip in cleaned || Tokens(c, full[ip].bucket, t) == c.burst as real))
  }

  lemma MulMonotone(x: real, y: real, r: real)
    requires x <= y && 0.0 <= r
    ensures x * r <= y * r
  {
    assert y * r - x * r == (y - x) * r;
  }

  lemma RefillGrows(x: real, y: real, r: real)
    requires x <= y
    ensures Refill(x, r) <= Refill(y, r)
  {
    if r > 0.0 { MulMonotone(x, y, r); }
  }

  lemma RefillOfNothing(x: real, r: real)
    requires x == 0.0
    ensures Refill(x, r) == 0.0
  {
  }

  lemma TokensGrow(c: Config, b: Bucket, t: real, u: real)
    requires t <= u
    ensures Tokens(c, b, t) <= Tokens(c, b, u)
  {
    RefillGrows(t - b.last, u - b.last, c.rps);
  }

  lemma TokensNonNegative(c: Config, b: Bucket, t: real)
    requires b.last <= t && 0.0 <= b.tokens && 0 <= c.burst
    ensures 0.0 <= Tokens(c, b, t)
  {
    RefillGrows(0.0, t - b.last, c.rps);
    RefillOfNothing(0.0, c.rps);
  }

  lemma RelatedLater(c: Config, cleaned: map<string, Visitor>, full: map<string, Visitor>, t: real, u: real)
    requires Related(c, cleaned, full, t) && t <= u
    ensures Related(c, cleaned, full, u)
  {
    forall ip | ip in full ensures Tokens(c, full[ip].bucket, t) <= Tokens(c, full[ip].bucket, u) {
      TokensGrow(c, full[ip].bucket, t, u);
    }
  }

  lemma IdleBucketIsFull(c: Config, v: Visitor, now: real)
    requires 1 <= c.burst && RefillsWhileIdle(c)
    requires Sane(c, v, now) && Idle(v, now)
    ensures Tokens(c, v.bucket, now) == c.burst as real
  {
    RefillGrows(IDLE, now - v.bucket.last, c.rps);
  }

  lemma RelatedTokens(c: Config, cleaned: map<string, Visitor>, full: map<string, Visitor>, ip: string, now: real)
    requires 1 <= c.burst && Related(c, cleaned, full, now)
    ensures var b := BucketOf(c, full, ip, now);
      && b.last <= now && 0.0 <= b.tokens
      && Tokens(c, BucketOf(c, cleaned, ip, now), now) == Tokens(c, b, now)
      && (ip in cleaned || Tokens(c, b, now) == c.burst as real)
      && (ip in cleaned ==> BucketOf(c, cleaned, ip, now) == b)
  {
    TokensAtLast(c, Fresh(c, now), now);
  }

  lemma SpendIsSane(c: Config, b: Bucket, now: real)
    requires 1 <= c.burst && b.last <= now && 0.0 <= b.tokens <= c.burst as real
    ensures Sane(c, Visitor(Spend(c, b, now), now), now)
  {
    TokensNonNegative(c, b, now);
  }

  lemma RelatedRequest(c: Config, cleaned: map<string, Visitor>, full: map<string, Visitor>, ip: string, now: real)
    requires 1 <= c.burst && Related(c, cleaned, full, now)
    ensures Tokens(c, BucketOf(c, cleaned, ip, now), now) == Tokens(c, BucketOf(c, full, ip, now), now)
    ensures Related(c, cleaned[ip := Visitor(Spend(c, BucketOf(c, cleaned, ip, now), now), now)],
                    full[ip := Visitor(Spend(c, BucketOf(c, full, ip, now), now), now)], now)
  {
    RelatedTokens(c, cleaned, full, ip, now);
    SpendIsSane(c, BucketOf(c, full, ip, now), now);
  }

  lemma RelatedCleanup(c: Config, cleaned: map<string, Visitor>, full: map<string, Visitor>, now: real)
    requires 1 <= c.burst && RefillsWhileIdle(c) && Related(c, cleaned, full, now)
    ensures Related(c, map ip | ip in cleaned && !Idle(cleaned[ip], now) :: cleaned[ip], full, now)
  {
    forall ip | ip in full && ip in cleaned && Idle(cleaned[ip], now)
      ensures Tokens(c, full[ip].bucket, now) == c.burst as real
    {
      IdleBucketIsFull(c, full[ip], now);
    }
  }

  lemma {:induction false} TablesRelated(c: Config, ops: seq<Op>, t: real)
    requires 1 <= c.burst && RefillsWhileIdle(c) && Chronological(ops, t)
    ensures Related(c, Table(c, ops, true), Table(c, ops, false), t)
  {
    if ops != [] {
      var before, last := ops[..|ops| - 1], ops[|ops| - 1];
      TablesRelated(c, before, last.now);
      var cleaned, full := Table(c, before, true), Table(c, before, false);
      match last {
        case Request(ip, now) => RelatedRequest(c, cleaned, full, ip, now);
        case Cleanup(now) => RelatedCleanup(c, cleaned, full, now);
      }
      RelatedLater(c, Table(c, ops, true), Table(c, ops, false), last.now, t);
    }
  }

  /** If the burst refills while idle, cleanup never changes an answer. */
  lemma CleanupIsInvisible(c: Config, ops: seq<Op>, ip: string, now: real)
    requires (c.burst <= 0 || c.burst as real <= Refill(600.0, c.rps)) && Chronological(ops, now)
    ensures Answer(c, ops, ip, now, true) == Answer(c, ops, ip, now, false)
  {
    if 1 <= c.burst {
      TablesRelated(c, ops, now);
      RelatedRequest(c, Table(c, ops, true), Table(c, ops, false), ip, now);
    }
  }

  // ---------------------------------------------------------------------
  // The rate is kept.

  /** How many requests of `ip` are let through from position `from` on. */
  ghost function Allowed(c: Config, ops: seq<Op>, ip: string, from: nat, cleaning: bool): nat
  {
    if |ops| <= from then 0 else
      var before, last := ops[..|ops| - 1], ops[|ops| - 1];
      Allowed(c, before, ip, from, cleaning) +
        if last.Request? && last.ip == ip && Answer(c, before, ip, last.now, cleaning) then 1 else 0
  }

  /** What the bucket of `ip` holds after `ops`. */
  ghost function Level(c: Config, ops: seq<Op>, ip: string, t: real): real
  {
    Tokens(c, BucketOf(c, Table(c, ops, false), ip, t), t)
  }

  lemma RefillSplits(a: real, u: real, t: real, r: real)
    requires a <= u <= t
    ensures Refill(u - a, r) + Refill(t - u, r) == Refill(t - a, r)
    ensures 0.0 <= Refill(u - a, r) <= Refill(t - a, r)
  {
    RefillGrows(u - a, t - a, r);
    RefillGrows(0.0, u - a, r);
    RefillOfNothing(0.0, r);
  }

  lemma TokensLater(c: Config, b: Bucket, u: real, t: real)
    requires b.last <= u <= t
    ensures Tokens(c, b, t) <= Tokens(c, b, u) + Refill(t - u, c.rps)
  {
    RefillSplits(b.last, u, t, c.rps);
  }

  lemma SpendTokens(c: Config, b: Bucket, u: real, t: real)
    requires b.last <= u <= t && 1 <= c.burst
    ensures Tokens(c, Spend(c, b, u), t) <= Tokens(c, b, u) - (if Allows(c, b, u) then 1.0 else 0.0) + Refill(t - u, c.rps)
  {
    if Allows(c, b, u) {
      TokensAtLast(c, Spend(c, b, u), u);
      TokensLater(c, Spend(c, b, u), u, t);
    } else {
      TokensLater(c, b, u, t);
    }
  }

  lemma {:induction false} LastIsPast(c: Config, ops: seq<Op>, t: real)
    requires Chronological(ops, t)
    ensures forall ip :: ip in Table(c, ops, false) ==> Table(c, ops, false)[ip].bucket.last <= t
  {
    if ops != [] { LastIsPast(c, ops[..|ops| - 1], ops[|ops| - 1].now); }
  }

  /** One more operation takes from the bucket what it lets through. */
  lemma LevelStep(c: Config, ops: seq<Op>, op: Op, ip: string, t: real)
    requires 1 <= c.burst && Chronological(ops + [op], t)
    ensures Level(c, ops + [op], ip, t) <= Level(c, ops, ip, op.now) + Refill(t - op.now, c.rps) -
      if op.Request? && op.ip == ip && Answer(c, ops, ip, op.now, false) then 1.0 else 0.0
  {
    AppendUnfolds(ops, op);
    LastIsPast(c, ops, op.now);
    var table, u := Table(c, ops, false), op.now;
    var b := BucketOf(c, table, ip, u);
    RefillSplits(u, u, t, c.rps);
    if op.Request? && op.ip == ip {
      SpendTokens(c, b, u, t);
    } else if ip in table {
      TokensLater(c, b, u, t);
    } else {
      TokensAtLast(c, Fresh(c, u), u);
      TokensAtLast(c, Fresh(c, t), t);
    }
  }

  /** What was let through and what is left never exceed a burst and the refill since. */
  lemma {:induction false} NothingForFree(c: Config, ops: seq<Op>, ip: string, from: nat, a: real, t: real)
    requires 1 <= c.burst && Chronological(ops, t) && a <= t
    requires forall i :: from <= i < |ops| ==> a <= ops[i].now
    ensures Allowed(c, ops, ip, from, false) as real + Level(c, ops, ip, t) <= c.burst as real + Refill(t - a, c.rps)
  {
    RefillSplits(a, a, t, c.rps);
    if |ops| > from {
      var before, last := ops[..|ops| - 1], ops[|ops| - 1];
      assert ops == before + [last];
      NothingForFree(c, before, ip, from, a, last.now);
      LevelStep(c, before, last, ip, t);
      RefillSplits(a, last.now, t, c.rps);
    }
  }

  lemma {:induction false} AllowedAlike(c: Config, ops: seq<Op>, ip: string, from: nat, t: real)
    requires RefillsWhileIdle(c) && Chronological(ops, t)
    ensures Allowed(c, ops, ip, from, true) == Allowed(c, ops, ip, from, false)
  {
    if |ops| > from {
      var before, last := ops[..|ops| - 1], ops[|ops| - 1];
      AllowedAlike(c, before, ip, from, last.now);
      CleanupIsInvisible(c, before, ip, last.now);
    }
  }

  lemma {:induction false} NoBurstNoRequests(c: Config, ops: seq<Op>, ip: string, from: nat, cleaning: bool)
    requires c.burst < 1
    ensures Allowed(c, ops, ip, from, cleaning) == 0
  {
    if |ops| > from { NoBurstNoRequests(c, ops[..|ops| - 1], ip, from, cleaning); }
  }

  lemma {:induction false} TokensLeft(c: Config, ops: seq<Op>, t: real)
    requires 1 <= c.burst && Chronological(ops, t)
    ensures forall ip :: ip in Table(c, ops, false) ==> 0.0 <= Table(c, ops, false)[ip].bucket.tokens
  {
    if ops != [] {
      TokensLeft(c, ops[..|ops| - 1], ops[|ops| - 1].now);
    }
  }

  /** Between times a and t an address gets at most a burst and what the rate refills in
      that time, cleanup or not, provided cleanup is invisible. */
  lemma RateIsKept(c: Config, ops: seq<Op>, ip: string, from: nat, a: real, t: real, cleaning: bool)
    requires Chronological(ops, t) && a <= t && forall i :: from <= i < |ops| ==> a <= ops[i].now
    requires cleaning ==> c.burst <= 0 || c.burst as real <= Refill(600.0, c.rps)
    ensures c.burst < 1 ==> Allowed(c, ops, ip, from, cleaning) == 0
    ensures 1 <= c.burst ==> Allowed(c, ops, ip, from, cleaning) as real <= c.burst as real + Refill(t - a, c.rps)
  {
    if c.burst < 1 {
      NoBurstNoRequests(c, ops, ip, from, cleaning);
    } else {
      if cleaning { AllowedAlike(c, ops, ip, from, t); }
      NothingForFree(c, ops, ip, from, a, t);
      TokensLeft(c, ops, t);
      LastIsPast(c, ops, t);
      if ip in Table(c, ops, false) {
        TokensNonNegative(c, Table(c, ops, false)[ip].bucket, t);
      } else {
        TokensNonNegative(c, Fresh(c, t), t);
      }
    }
  }

  // ---------------------------------------------------------------------
  // Otherwise it can be noticed.

  /** `n` requests at once. */
  ghost function Volley(ops: seq<Op>, ip: string, now: real, n: nat): seq<Op>
  {
    if n == 0 then ops else Volley(ops, ip, now, n - 1) + [Request(ip, now)]
  }

  /** A request let through spends one token. */
  lemma RequestEffect(c: Config, ops: seq<Op>, ip: string, now: real, cleaning: bool)
    requires 1 <= c.burst && Chronological(ops, now)
    requires Answer(c, ops, ip, now, cleaning)
    ensures var r, b := ops + [Request(ip, now)], BucketOf(c, Table(c, ops, cleaning), ip, now);
      && Chronological(r, now) && ip in Table(c, r, cleaning)
      && Table(c, r, cleaning)[ip] == Visitor(Bucket(Tokens(c, b, now) - 1.0, now), now)
      && Tokens(c, Table(c, r, cleaning)[ip].bucket, now) == Tokens(c, b, now) - 1.0
  {
    AppendUnfolds(ops, Request(ip, now));
    var b := BucketOf(c, Table(c, ops, cleaning), ip, now);
    TokensAtLast(c, Spend(c, b, now), now);
  }

  /** A volley spends one token each as long as there are any. */
  lemma {:induction false} VolleyEffect(c: Config, ops: seq<Op>, ip: string, now: real, n: nat, cleaning: bool)
    requires 1 <= c.burst && Chronological(ops, now)
    requires var b := BucketOf(c, Table(c, ops, cleaning), ip, now); Tokens(c, b, now) >= n as real
    ensures var r, b := Volley(ops, ip, now, n), BucketOf(c, Table(c, ops, cleaning), ip, now);
      && Chronological(r, now)
      && Tokens(c, BucketOf(c, Table(c, r, cleaning), ip, now), now) == Tokens(c, b, now) - n as real
      && (n > 0 ==> ip in Table(c, r, cleaning) && Table(c, r, cleaning)[ip] == Visitor(Table(c, r, cleaning)[ip].bucket, now))
      && (n > 0 ==> Table(c, r, cleaning)[ip].bucket.last == now)
  {
    if n > 0 {
      VolleyEffect(c, ops, ip, now, n - 1, cleaning);
      var g := Volley(ops, ip, now, n - 1);
      assert Tokens(c, BucketOf(c, Table(c, g, cleaning), ip, now), now) >= 1.0;
      RequestEffect(c, g, ip, now, cleaning);
    }
  }

  lemma TokensAtLast(c: Config, b: Bucket, now: real)
    requires b.last == now && b.tokens <= c.burst as real
    ensures Tokens(c, b, now) == b.tokens
  {
    RefillOfNothing(now - b.last, c.rps);
  }

  /** A pause longer than the idle limit that refills less than the burst. */
  function Pause(c: Config): real
  {
    if c.rps <= 0.0 then IDLE + 1.0 else (IDLE + c.burst as real / c.rps) / 2.0
  }

  lemma PauseIsShort(c: Config)
    requires !RefillsWhileIdle(c)
    ensures Pause(c) > IDLE && Refill(Pause(c), c.rps) < c.burst as real
  {
    if c.rps > 0.0 {
      var q := c.burst as real / c.rps;
      assert q * c.rps == c.burst as real;
      if q <= IDLE { MulMonotone(q, IDLE, c.rps); }
      HalfWay(IDLE, q, c.rps);
      assert IDLE * c.rps < c.burst as real;
      assert Refill(Pause(c), c.rps) == (IDLE * c.rps + c.burst as real) / 2.0;
    }
  }

  lemma HalfWay(x: real, y: real, r: real)
    ensures (x + y) / 2.0 * r == (x * r + y * r) / 2.0
  {
  }

  lemma AppendUnfolds(ops: seq<Op>, op: Op)
    ensures (ops + [op])[..|ops + [op]| - 1] == ops
  {
  }

  lemma EmptyBucket(c: Config, b: Bucket)
    requires 1 <= c.burst && b.last == 0.0 && Tokens(c, b, 0.0) == 0.0
    ensures b == Bucket(0.0, 0.0)
  {
    RefillOfNothing(0.0 - b.last, c.rps);
  }

  /** Requests at time 0 until the bucket is empty. */
  lemma Drain(c: Config, none: seq<Op>, ip: string, cleaning: bool)
    requires 1 <= c.burst && none == []
    ensures var ops := Volley(none, ip, 0.0, c.burst);
      && Chronological(ops, 0.0)
      && ip in Table(c, ops, cleaning) && Table(c, ops, cleaning)[ip] == Visitor(Bucket(0.0, 0.0), 0.0)
  {
    TokensAtLast(c, Fresh(c, 0.0), 0.0);
    VolleyEffect(c, none, ip, 0.0, c.burst, cleaning);
    EmptyBucket(c, Table(c, Volley(none, ip, 0.0, c.burst), cleaning)[ip].bucket);
  }

  /** Drained, then cleaned after the pause: forgotten, though not full again. */
  lemma DrainAndClean(c: Config, none: seq<Op>, ip: string) returns (ops: seq<Op>)
    requires !RefillsWhileIdle(c) && none == []
    ensures Chronological(ops, Pause(c))
    ensures ip !in Table(c, ops, true)
    ensures ip in Table(c, ops, false) && Table(c, ops, false)[ip].bucket == Bucket(0.0, 0.0)
  {
    Drain(c, none, ip, true);
    Drain(c, none, ip, false);
    PauseIsShort(c);
    var drained, clean := Volley(none, ip, 0.0, c.burst), Cleanup(Pause(c));
    AppendUnfolds(drained, clean);
    ops := drained + [clean];
  }

  lemma AfterPause(c: Config)
    requires !RefillsWhileIdle(c)
    ensures 0.0 <= Tokens(c, Bucket(0.0, 0.0), Pause(c)) < c.burst as real
  {
    PauseIsShort(c);
    TokensNonNegative(c, Bucket(0.0, 0.0), Pause(c));
  }

  /** If the burst does not refill while idle, some run tells cleaned and never cleaned
      tables apart. */
  lemma CleanupCanShow(c: Config, ip: string) returns (ops: seq<Op>, now: real)
    requires 0 < c.burst && Refill(600.0, c.rps) < c.burst as real
    ensures Chronological(ops, now)
    ensures Answer(c, ops, ip, now, true) && !Answer(c, ops, ip, now, false)
  {
    ops := DrainAndClean(c, [], ip);
    now := Pause(c);
    AfterPause(c);
    var left := Tokens(c, BucketOf(c, Table(c, ops, false), ip, now), now);
    var n: nat := left.Floor;
    TokensAtLast(c, Fresh(c, now), now);
    VolleyEffect(c, ops, ip, now, n, true);
    VolleyEffect(c, ops, ip, now, n, false);
    assert n < c.burst && n as real <= c.burst as real - 1.0 && left - n as real < 1.0;
    ops := Volley(ops, ip, now, n);
  }

  /** Conversion to an integer cuts towards zero. */
  function Truncated(r: real): int
  {
    if r >= 0.0 then r.Floor else -(-r).Floor
  }

  /** The agent limiter's burst, twice the whole part of its rate, always refills. */
  lemma AgentBurstRefills(rps: real)
    ensures RefillsWhileIdle(Config(rps, Truncated(rps) * 2))
    ensures 0.0 <= rps ==> Truncated(rps) as real <= rps < Truncated(rps) as real + 1.0
  {
    if rps >= 0.0 {
      assert rps.Floor as real <= rps;
    } else {
      assert (-rps).Floor >= 0;
    }
  }

  // ---------------------------------------------------------------------
  // The limiter.

  class Limiter {
    const config: Config
    var visitors: map<string, Visitor>
    ghost var log: seq<Op>
    ghost var clock: real

    constructor (config: Config, ghost start: real)
      ensures Valid() && this.config == config && log == [] && clock == start
    {
      this.config, visitors, log, clock := config, map[], [], start;
    }

    ghost predicate Valid()
      reads this
    {
      && visitors == Table(config, log, true)
      && Chronological(log, clock)
    }

    /** getLimiter and Allow, at one moment. */
    method Allow(ip: string, now: real) returns (ok: bool)
      requires Valid() && clock <= now
      modifies this
      ensures Valid() && clock == now && log == old(log) + [Request(ip, now)]
      ensures ok == Answer(config, old(log), ip, now, true)
      ensures RefillsWhileIdle(config) ==> ok == Answer(config, old(log), ip, now, false)
    {
      ChronologicalLater(log, clock, now);
      if RefillsWhileIdle(config) { CleanupIsInvisible(config, log, ip, now); }
      AppendUnfolds(log, Request(ip, now));
      log, clock := log + [Request(ip, now)], now;
      var bucket := if ip in visitors then visitors[ip].bucket else Fresh(config, now);
      ok := Allows(config, bucket, now);
      visitors := visitors[ip := Visitor(Spend(config, bucket, now), now)];
    }

    /** One pass of cleanupStaleVisitors. */
    method Cleanup(now: real)
      requires Valid() && clock <= now
      modifies this
      ensures Valid() && clock == now && log == old(log) + [Op.Cleanup(now)]
      ensures forall ip :: ip in visitors <==> ip in old(visitors) && now - old(visitors)[ip].lastSeen <= 600.0
      ensures forall ip :: ip in visitors ==> visitors[ip] == old(visitors)[ip]
    {
      ChronologicalLater(log, clock, now);
      AppendUnfolds(log, Op.Cleanup(now));
      var todo := visitors.Keys;
      while todo != {}
        invariant todo <= visitors.Keys <= old(visitors.Keys)
        invariant log == old(log)
        invariant forall ip :: ip in visitors ==> visitors[ip] == old(visitors)[ip] && (ip in todo || !Idle(visitors[ip], now))
        invariant forall ip :: ip in old(visitors) && ip !in visitors ==> Idle(old(visitors)[ip], now)
        decreases todo
      {
        var ip :| ip in todo;
        todo := todo - {ip};
        if Idle(visitors[ip], now) {
          visitors := visitors - {ip};
        }
      }
      log, clock := log + [Op.Cleanup(now)], now;
    }
  }

  lemma ChronologicalLater(ops: seq<Op>, t: real, u: real)
    requires Chronological(ops, t) && t <= u
    ensures Chronological(ops, u)
  {
  }

  /** rateLimitMiddleware: exempt paths and administrators pass untouched; agents and
      everyone else draw on their own limiter. */
  method Admit(agents: Limiter, general: Limiter, exempt: bool, admin: bool, agent: bool, ip: string, now: real)
    returns (pass: bool)
    requires agents != general && agents.Valid() && general.Valid() && agents.clock <= now && general.clock <= now
    modifies agents, general
    ensures agents.Valid() && general.Valid()
    ensures var l := if agent then agents else general;
      pass == (exempt || admin || old(Answer(l.config, l.log, ip, now, true)))
    ensures agents.log == old(agents.log) + if !exempt && !admin && agent then [Request(ip, now)] else []
    ensures general.log == old(general.log) + if !exempt && !admin && !agent then [Request(ip, now)] else []
  {
    if exempt || admin {
      return true;
    }
    if agent {
      pass := agents.Allow(ip, now);
    } else {
      pass := general.Allow(ip, now);
    }
  }
}
