/** What the login limiter is for, said about the full, never-trimmed log of login
    attempts: the per-key fold `Ledger` of that log, and the bounds that hold of
    every log the login handlers can produce. */
module LoginLog {
  import opened Prelude

  /** One key's failures since `first`. */
  datatype Entry = Entry(count: nat, first: int)

  /** What the limiter was told.  `id` names the login request; several requests
      may be between their `Pass` and their `Fail`/`Success` at the same time.
      `Reset` is the limiter throwing its whole table away. */
  datatype Event =
    | Pass(id: nat, now: int, keys: seq<string>)
    | Fail(id: nat, now: int, keys: seq<string>)
    | Success(id: nat, keys: seq<string>)
    | Reset

  // ---------------------------------------------------------------------
  // The specification: an unbounded fold of the log.

  ghost function Ledger(h: seq<Event>, key: string, window: int): Option<Entry>
  {
    if h == [] then None else
      var e := Ledger(h[..|h| - 1], key, window);
      match h[|h| - 1]
      case Pass(_, _, _) => e
      case Fail(_, now, keys) =>
        if key !in keys then e
        else if e.None? || Expired(e.value, now, window) then Some(Entry(1, now))
        else Some(Entry(e.value.count + 1, e.value.first))
      case Success(_, keys) => if key in keys then None else e
      case Reset => None
  }

  predicate Expired(e: Entry, now: int, window: int)
  {
    now - e.first > window
  }

  /** The key is locked out, judged by the whole log. */
  ghost predicate Locked(h: seq<Event>, key: string, now: int, maxFailures: int, window: int)
  {
    var e := Ledger(h, key, window);
    e.Some? && !Expired(e.value, now, window) && e.value.count >= maxFailures
  }

  /** Recorded failures of `key` with time in [a, b], from log position `start` on. */
  ghost function FailCount(h: seq<Event>, start: nat, key: string, a: int, b: int): nat
  {
    if |h| <= start then 0 else
      var n := FailCount(h[..|h| - 1], start, key, a, b);
      match h[|h| - 1]
      case Fail(_, now, keys) => if key in keys && a <= now <= b then n + 1 else n
      case _ => n
  }

  /** Every time in the log is at most `t`, and times never decrease. */
  ghost predicate Chronological(h: seq<Event>, t: int)
  {
    h == [] ||
    match h[|h| - 1]
    case Pass(_, now, _) => now <= t && Chronological(h[..|h| - 1], now)
    case Fail(_, now, _) => now <= t && Chronological(h[..|h| - 1], now)
    case _ => Chronological(h[..|h| - 1], t)
  }

  /** From `start` on, nothing clears `key`: no success on it and no reset. */
  ghost predicate NeverCleared(h: seq<Event>, start: nat, key: string)
  {
    forall i :: start <= i < |h| ==> !h[i].Reset? && (h[i].Success? ==> key !in h[i].keys)
  }

  // ---------------------------------------------------------------------
  // The handler discipline: check first, record at most once afterwards.

  /** Requests that passed the check and have not recorded an outcome yet. */
  ghost function InFlight(h: seq<Event>): map<nat, seq<string>>
  {
    if h == [] then map[] else
      var m := InFlight(h[..|h| - 1]);
      match h[|h| - 1]
      case Pass(id, _, keys) => m[id := keys]
      case Fail(id, _, _) => m - {id}
      case Success(id, _) => m - {id}
      case Reset => m
  }

  /** The log was produced by handlers of which at most `width` overlap. */
  ghost predicate Disciplined(h: seq<Event>, maxFailures: int, window: int, width: nat)
  {
    h == [] ||
    var before := h[..|h| - 1];
    Disciplined(before, maxFailures, window, width) &&
    match h[|h| - 1]
    case Pass(id, now, keys) =>
      id !in InFlight(before) && |InFlight(before)| < width &&
      forall key :: key in keys ==> !Locked(before, key, now, maxFailures, window)
    case Fail(id, _, keys) => id in InFlight(before) && InFlight(before)[id] == keys
    case Success(id, keys) => id in InFlight(before) && InFlight(before)[id] == keys
    case Reset => true
  }

  /** The requests of `m` that concern `key`. */
  ghost function Concerning(m: map<nat, seq<string>>, key: string): set<nat>
  {
    set id | id in m && key in m[id]
  }

  ghost function Waiting(h: seq<Event>, key: string): set<nat>
  {
    Concerning(InFlight(h), key)
  }

  // ---------------------------------------------------------------------
  // Facts about the log.

  lemma AppendUnfolds(h: seq<Event>, e: Event)
    ensures (h + [e])[..|h + [e]| - 1] == h && (h + [e])[|h + [e]| - 1] == e
  {
  }

  lemma {:induction false} ChronologicalLater(h: seq<Event>, t: int, u: int)
    requires Chronological(h, t) && t <= u
    ensures Chronological(h, u)
  {
    if h != [] && !h[|h| - 1].Pass? && !h[|h| - 1].Fail? {
      ChronologicalLater(h[..|h| - 1], t, u);
    }
  }

  lemma {:induction false} LedgerTime(h: seq<Event>, key: string, window: int, t: int)
    requires Chronological(h, t)
    ensures var e := Ledger(h, key, window); e.Some? ==> e.value.first <= t && e.value.count >= 1
  {
    if h != [] {
      var before, last := h[..|h| - 1], h[|h| - 1];
      var u := if last.Pass? || last.Fail? then last.now else t;
      LedgerTime(before, key, window, u);
    }
  }

  lemma ConcerningAdd(m: map<nat, seq<string>>, id: nat, keys: seq<string>, key: string)
    requires id !in m
    ensures |m[id := keys]| == |m| + 1
    ensures |Concerning(m[id := keys], key)| == |Concerning(m, key)| + (if key in keys then 1 else 0)
  {
    var c := Concerning(m, key);
    assert Concerning(m[id := keys], key) == if key in keys then c + {id} else c;
  }

  lemma ConcerningRemove(m: map<nat, seq<string>>, id: nat, key: string)
    requires id in m
    ensures |m - {id}| == |m| - 1
    ensures |Concerning(m - {id}, key)| == |Concerning(m, key)| - (if key in m[id] then 1 else 0)
  {
    assert (m - {id}).Keys == m.Keys - {id};
    assert |(m - {id}).Keys| == |m.Keys| - 1;
    assert Concerning(m - {id}, key) == Concerning(m, key) - {id};
    assert key in m[id] <==> id in Concerning(m, key);
  }

  lemma WaitingStep(before: seq<Event>, last: Event, key: string)
    ensures last.Pass? && last.id !in InFlight(before) ==>
      |InFlight(before + [last])| == |InFlight(before)| + 1 &&
      |Waiting(before + [last], key)| == |Waiting(before, key)| + (if key in last.keys then 1 else 0)
    ensures (last.Fail? || last.Success?) && last.id in InFlight(before) && InFlight(before)[last.id] == last.keys ==>
      |InFlight(before + [last])| == |InFlight(before)| - 1 &&
      |Waiting(before + [last], key)| == |Waiting(before, key)| - (if key in last.keys then 1 else 0)
    ensures last.Reset? ==> InFlight(before + [last]) == InFlight(before)
  {
    AppendUnfolds(before, last);
    var m := InFlight(before);
    if last.Pass? {
      if last.id !in m { ConcerningAdd(m, last.id, last.keys, key); }
    } else if !last.Reset? {
      if last.id in m { ConcerningRemove(m, last.id, key); }
    }
  }

  lemma {:induction false} WaitingBound(h: seq<Event>, key: string, maxFailures: int, window: int, width: nat)
    requires Disciplined(h, maxFailures, window, width)
    ensures |Waiting(h, key)| <= |InFlight(h)| <= width
  {
    assert Waiting(h, key) <= InFlight(h).Keys;
    SubsetSize(Waiting(h, key), InFlight(h).Keys);
    if h != [] {
      var before, last := h[..|h| - 1], h[|h| - 1];
      WaitingBound(before, key, maxFailures, window, width);
      WaitingStep(before, last, key);
      assert before + [last] == h;
    }
  }

  /** With at most `width` requests overlapping, no record ever counts more than
      `maxFailures - 1 + width`; with one at a time, never more than `maxFailures`.
      A live record's count plus the requests still able to raise it stays within
      the bound. */
  lemma {:induction false} CountBound(h: seq<Event>, key: string, maxFailures: int, window: int, width: nat, t: int)
    requires 1 <= maxFailures && 1 <= width
    requires Disciplined(h, maxFailures, window, width) && Chronological(h, t)
    ensures var e := Ledger(h, key, window);
      e.Some? ==>
        e.value.count <= maxFailures - 1 + width &&
        (Expired(e.value, t, window) || e.value.count + |Waiting(h, key)| <= maxFailures - 1 + width)
  {
    if h != [] {
      var before, last := h[..|h| - 1], h[|h| - 1];
      var u := if last.Pass? || last.Fail? then last.now else t;
      CountBound(before, key, maxFailures, window, width, u);
      WaitingStep(before, last, key);
      assert before + [last] == h;
      WaitingBound(h, key, maxFailures, window, width);
      WaitingBound(before, key, maxFailures, window, width);
    }
  }

  // ---------------------------------------------------------------------
  // The sliding-window bound, and why it cannot be smaller.

  /** Induction behind `SlidingWindow`: the count so far, split by where the live
      record started relative to the interval. */
  lemma {:induction false} WindowShape(h: seq<Event>, start: nat, key: string, a: int, b: int,
                                       maxFailures: int, window: int, width: nat, t: int)
    requires 1 <= maxFailures && 1 <= width && b - a <= window
    requires Disciplined(h, maxFailures, window, width) && Chronological(h, t)
    requires NeverCleared(h, start, key)
    ensures var n, e, cap := FailCount(h, start, key, a, b), Ledger(h, key, window), maxFailures - 1 + width;
      && (n > 0 ==> a <= t)
      && (e.None? ==> n == 0)
      && (e.Some? && e.value.first < a ==> n <= e.value.count - 1)
      && (e.Some? && a <= e.value.first <= b ==> n <= cap - 1 + e.value.count)
      && (e.Some? && b < e.value.first ==> n <= 2 * cap - 1)
  {
    LedgerTime(h, key, window, t);
    if |h| > start {
      var before, last := h[..|h| - 1], h[|h| - 1];
      var u := if last.Pass? || last.Fail? then last.now else t;
      WindowShape(before, start, key, a, b, maxFailures, window, width, u);
      LedgerTime(before, key, window, u);
      CountBound(before, key, maxFailures, window, width, u);
      CountBound(h, key, maxFailures, window, width, t);
    }
  }

  /** In any interval no longer than the window, one key gets at most
      2 * (maxFailures - 1 + width) - 1 failed attempts past the check, counting from
      any log position after which it is not cleared. */
  lemma SlidingWindow(h: seq<Event>, start: nat, key: string, a: int, b: int,
                      maxFailures: int, window: int, width: nat, t: int)
    requires 1 <= maxFailures && 1 <= width && b - a <= window
    requires Disciplined(h, maxFailures, window, width) && Chronological(h, t)
    requires NeverCleared(h, start, key)
    ensures FailCount(h, start, key, a, b) <= 2 * (maxFailures - 1 + width) - 1
  {
    WindowShape(h, start, key, a, b, maxFailures, window, width, t);
    CountBound(h, key, maxFailures, window, width, t);
  }

  /** Requests 0 to n - 1, all for `key`. */
  ghost function Requests(n: nat, key: string): map<nat, seq<string>>
  {
    if n == 0 then map[] else Requests(n - 1, key)[n - 1 := [key]]
  }

  lemma {:induction false} RequestsAre(n: nat, key: string, id: nat)
    ensures id in Requests(n, key) <==> id < n
    ensures |Requests(n, key)| == n
  {
    if n > 0 {
      RequestsAre(n - 1, key, id);
      RequestsAre(n - 1, key, n - 1);
    }
  }

  lemma LastRequest(n: nat, key: string)
    requires n > 0
    ensures n - 1 in Requests(n, key) && Requests(n, key)[n - 1] == [key]
    ensures Requests(n, key) - {n - 1} == Requests(n - 1, key)
  {
    RequestsAre(n - 1, key, n - 1);
  }

  /** The log can be produced by `width` overlapping handlers, `n` requests for `key` are
      under way, and `key` was never cleared. */
  ghost predicate Underway(h: seq<Event>, key: string, maxFailures: int, window: int, width: nat, t: int, n: nat)
  {
    && Disciplined(h, maxFailures, window, width)
    && Chronological(h, t)
    && InFlight(h) == Requests(n, key)
    && NeverCleared(h, 0, key)
  }

  /** The record after n failures at time t. */
  ghost function After(e: Option<Entry>, t: int, n: nat, window: int): Entry
  {
    if e.None? || Expired(e.value, t, window) then Entry(n, t) else Entry(e.value.count + n, e.value.first)
  }

  /** From g to h, `key` failed n times, all at time t. */
  ghost predicate Fails(g: seq<Event>, h: seq<Event>, key: string, t: int, n: nat, a: int, b: int, window: int)
  {
    && Ledger(h, key, window) == (if n == 0 then Ledger(g, key, window) else Some(After(Ledger(g, key, window), t, n, window)))
    && FailCount(h, 0, key, a, b) == FailCount(g, 0, key, a, b) + (if a <= t <= b then n else 0)
  }

  lemma FailsCompose(g: seq<Event>, h: seq<Event>, k: seq<Event>, key: string, t: int, n: nat, m: nat, a: int,
                     b: int, window: int)
    requires Fails(g, h, key, t, n, a, b, window) && Fails(h, k, key, t, m, a, b, window) && 0 <= window
    ensures Fails(g, k, key, t, n + m, a, b, window)
  {
  }

  lemma PassEffect(g: seq<Event>, h: seq<Event>, id: nat, key: string, t: int, a: int, b: int, window: int)
    requires h == g + [Pass(id, t, [key])]
    ensures Fails(g, h, key, t, 0, a, b, window)
  {
    AppendUnfolds(g, Pass(id, t, [key]));
  }

  lemma FailEffect(g: seq<Event>, h: seq<Event>, id: nat, key: string, t: int, a: int, b: int, window: int)
    requires h == g + [Fail(id, t, [key])]
    ensures Fails(g, h, key, t, 1, a, b, window)
  {
    AppendUnfolds(g, Fail(id, t, [key]));
  }

  lemma OnePass(g: seq<Event>, key: string, maxFailures: int, window: int, width: nat, t: int, n: nat, a: int, b: int)
    returns (h: seq<Event>)
    requires Underway(g, key, maxFailures, window, width, t, n) && n < width
    requires !Locked(g, key, t, maxFailures, window)
    ensures Underway(h, key, maxFailures, window, width, t, n + 1)
    ensures Fails(g, h, key, t, 0, a, b, window)
  {
    h := g + [Pass(n, t, [key])];
    PassEffect(g, h, n, key, t, a, b, window);
    PassIsAllowed(g, h, key, maxFailures, window, width, t, n);
  }

  lemma PassIsAllowed(g: seq<Event>, h: seq<Event>, key: string, maxFailures: int, window: int, width: nat, t: int, n: nat)
    requires Underway(g, key, maxFailures, window, width, t, n) && n < width
    requires !Locked(g, key, t, maxFailures, window) && h == g + [Pass(n, t, [key])]
    ensures Underway(h, key, maxFailures, window, width, t, n + 1)
  {
    RequestsAre(n, key, n);
    AppendUnfolds(g, Pass(n, t, [key]));
    NeverClearedStep(g, Pass(n, t, [key]), key);
  }

  lemma NeverClearedStep(g: seq<Event>, e: Event, key: string)
    requires NeverCleared(g, 0, key) && (e.Pass? || e.Fail?)
    ensures NeverCleared(g + [e], 0, key)
  {
  }

  lemma OneFail(g: seq<Event>, key: string, maxFailures: int, window: int, width: nat, t: int, n: nat, a: int, b: int)
    returns (h: seq<Event>)
    requires Underway(g, key, maxFailures, window, width, t, n) && n > 0
    ensures Underway(h, key, maxFailures, window, width, t, n - 1)
    ensures Fails(g, h, key, t, 1, a, b, window)
  {
    h := g + [Fail(n - 1, t, [key])];
    FailEffect(g, h, n - 1, key, t, a, b, window);
    FailIsAllowed(g, h, key, maxFailures, window, width, t, n);
  }

  lemma FailIsAllowed(g: seq<Event>, h: seq<Event>, key: string, maxFailures: int, window: int, width: nat, t: int, n: nat)
    requires Underway(g, key, maxFailures, window, width, t, n) && n > 0 && h == g + [Fail(n - 1, t, [key])]
    ensures Underway(h, key, maxFailures, window, width, t, n - 1)
  {
    LastRequest(n, key);
    NeverClearedStep(g, Fail(n - 1, t, [key]), key);
    FailKeepsDiscipline(g, h, key, maxFailures, window, width, t, n - 1);
  }

  lemma FailKeepsDiscipline(g: seq<Event>, h: seq<Event>, key: string, maxFailures: int, window: int, width: nat, t: int, id: nat)
    requires Disciplined(g, maxFailures, window, width) && Chronological(g, t)
    requires id in InFlight(g) && InFlight(g)[id] == [key] && h == g + [Fail(id, t, [key])]
    ensures Disciplined(h, maxFailures, window, width) && Chronological(h, t) && InFlight(h) == InFlight(g) - {id}
  {
    AppendUnfolds(g, Fail(id, t, [key]));
  }

  lemma {:induction false} AllPass(g: seq<Event>, key: string, maxFailures: int, window: int, width: nat, t: int,
                                   n: nat, a: int, b: int)
    returns (h: seq<Event>)
    requires Underway(g, key, maxFailures, window, width, t, 0) && n <= width
    requires !Locked(g, key, t, maxFailures, window)
    ensures Underway(h, key, maxFailures, window, width, t, n)
    ensures Fails(g, h, key, t, 0, a, b, window)
    decreases n
  {
    h := g;
    if n > 0 {
      h := AllPass(g, key, maxFailures, window, width, t, n - 1, a, b);
      h := OnePass(h, key, maxFailures, window, width, t, n - 1, a, b);
    }
  }

  lemma {:induction false} AllFail(g: seq<Event>, key: string, maxFailures: int, window: int, width: nat, t: int,
                                   n: nat, a: int, b: int)
    returns (h: seq<Event>)
    requires Underway(g, key, maxFailures, window, width, t, n) && 0 <= window
    ensures Underway(h, key, maxFailures, window, width, t, 0)
    ensures Fails(g, h, key, t, n, a, b, window)
    decreases n
  {
    h := g;
    if n > 0 {
      var k := OneFail(g, key, maxFailures, window, width, t, n, a, b);
      h := AllFail(k, key, maxFailures, window, width, t, n - 1, a, b);
      FailsCompose(g, k, h, key, t, 1, n - 1, a, b, window);
    }
  }

  /** `m` more logins that fail one after the other while `n` requests are under way. */
  lemma {:induction false} Burst(g: seq<Event>, key: string, maxFailures: int, window: int, width: nat, t: int,
                                 n: nat, m: nat, a: int, b: int)
    returns (h: seq<Event>)
    requires Underway(g, key, maxFailures, window, width, t, n) && n < width && 0 <= window
    requires m > 0 ==> After(Ledger(g, key, window), t, m, window).count <= maxFailures
    ensures Underway(h, key, maxFailures, window, width, t, n)
    ensures Fails(g, h, key, t, m, a, b, window)
    decreases m
  {
    h := g;
    if m > 0 {
      var k := Burst(g, key, maxFailures, window, width, t, n, m - 1, a, b);
      h := OnePass(k, key, maxFailures, window, width, t, n, a, b);
      FailsCompose(g, k, h, key, t, m - 1, 0, a, b, window);
      var l := OneFail(h, key, maxFailures, window, width, t, n + 1, a, b);
      FailsCompose(g, h, l, key, t, m - 1, 1, a, b, window);
      h := l;
    }
  }

  /** All requests pass the check and one of them fails. */
  lemma StormGathers(g: seq<Event>, key: string, maxFailures: int, window: int, width: nat, t: int, a: int, b: int)
    returns (h: seq<Event>)
    requires 1 <= maxFailures && 1 <= width && 0 <= window
    requires Underway(g, key, maxFailures, window, width, t, 0)
    requires var e := Ledger(g, key, window); e.None? || Expired(e.value, t, window)
    ensures Underway(h, key, maxFailures, window, width, t, width - 1)
    ensures Fails(g, h, key, t, 1, a, b, window)
  {
    var k := AllPass(g, key, maxFailures, window, width, t, width, a, b);
    h := OneFail(k, key, maxFailures, window, width, t, width, a, b);
    FailsCompose(g, k, h, key, t, 0, 1, a, b, window);
  }

  /** The rest of the allowance is used up, and then all that passed fail too. */
  lemma StormBreaks(g: seq<Event>, key: string, maxFailures: int, window: int, width: nat, u: int, a: int, b: int)
    returns (h: seq<Event>)
    requires 1 <= maxFailures && 1 <= width && 0 <= window
    requires Underway(g, key, maxFailures, window, width, u, width - 1)
    requires After(Ledger(g, key, window), u, maxFailures - 1, window).count <= maxFailures
    ensures Underway(h, key, maxFailures, window, width, u, 0)
    ensures Fails(g, h, key, u, maxFailures - 2 + width, a, b, window)
  {
    var k := Burst(g, key, maxFailures, window, width, u, width - 1, maxFailures - 1, a, b);
    h := AllFail(k, key, maxFailures, window, width, u, width - 1, a, b);
    FailsCompose(g, k, h, key, u, maxFailures - 1, width - 1, a, b, window);
  }

  lemma UnderwayLater(g: seq<Event>, key: string, maxFailures: int, window: int, width: nat, t: int, u: int, n: nat)
    requires Underway(g, key, maxFailures, window, width, t, n) && t <= u
    ensures Underway(g, key, maxFailures, window, width, u, n)
  {
    ChronologicalLater(g, t, u);
  }

  /** The worst that `width` requests can do to a fresh record: the first failure at t, all
      others at u, still within the window. */
  lemma Storm(g: seq<Event>, key: string, maxFailures: int, window: int, width: nat, t: int, u: int, a: int, b: int)
    returns (h: seq<Event>)
    requires 1 <= maxFailures && 1 <= width && 0 <= window && t <= u <= t + window
    requires Underway(g, key, maxFailures, window, width, t, 0)
    requires var e := Ledger(g, key, window); e.None? || Expired(e.value, t, window)
    ensures Underway(h, key, maxFailures, window, width, u, 0)
    ensures Ledger(h, key, window) == Some(Entry(maxFailures - 1 + width, t))
    ensures FailCount(h, 0, key, a, b) == FailCount(g, 0, key, a, b) +
      (if a <= t <= b then 1 else 0) + (if a <= u <= b then maxFailures - 2 + width else 0)
  {
    var k := StormGathers(g, key, maxFailures, window, width, t, a, b);
    assert Ledger(k, key, window) == Some(Entry(1, t));
    UnderwayLater(k, key, maxFailures, window, width, t, u, width - 1);
    h := StormBreaks(k, key, maxFailures, window, width, u, a, b);
  }

  lemma EmptyIsUnderway(h: seq<Event>, key: string, maxFailures: int, window: int, width: nat, t: int)
    requires h == []
    ensures Underway(h, key, maxFailures, window, width, t, 0)
    ensures Ledger(h, key, window) == None
    ensures forall a, b :: FailCount(h, 0, key, a, b) == 0
  {
  }

  /** For every width the bound of `CountBound` is attained: that many requests for one key
      can all pass the check before any of them fails. */
  lemma OverlapOvershoots(key: string, maxFailures: int, window: int, width: nat) returns (h: seq<Event>)
    requires 1 <= maxFailures && 0 <= window && 1 <= width
    ensures Disciplined(h, maxFailures, window, width) && Chronological(h, 0)
    ensures Ledger(h, key, window) == Some(Entry(maxFailures - 1 + width, 0))
  {
    EmptyIsUnderway([], key, maxFailures, window, width, 0);
    h := Storm([], key, maxFailures, window, width, 0, 0, 0, 0);
  }

  /** For every width the bound of `SlidingWindow` is attained: one failure, a wait of
      exactly the window for the rest, and everything over again one tick later. */
  lemma BoundIsTight(key: string, maxFailures: int, window: int, width: nat) returns (h: seq<Event>)
    requires 1 <= maxFailures && 1 <= window && 1 <= width
    ensures Underway(h, key, maxFailures, window, width, window + 1, 0)
    ensures FailCount(h, 0, key, 1, window + 1) == 2 * (maxFailures - 1 + width) - 1
  {
    EmptyIsUnderway([], key, maxFailures, window, width, 0);
    h := Storm([], key, maxFailures, window, width, 0, window, 1, window + 1);
    UnderwayLater(h, key, maxFailures, window, width, window, window + 1, 0);
    h := Storm(h, key, maxFailures, window, width, window + 1, window + 1, 1, window + 1);
  }

  /** A record never counts failures that did not happen in its own window. */
  lemma {:induction false} LedgerIsBacked(h: seq<Event>, key: string, window: int, t: int)
    requires Chronological(h, t)
    ensures var e := Ledger(h, key, window);
      e.Some? ==> FailCount(h, 0, key, e.value.first, t) >= e.value.count
  {
    if h != [] {
      var before, last := h[..|h| - 1], h[|h| - 1];
      var u := if last.Pass? || last.Fail? then last.now else t;
      LedgerIsBacked(before, key, window, u);
      LedgerTime(before, key, window, u);
      var e := Ledger(before, key, window);
      if e.Some? { FailCountWiden(before, key, e.value.first, u, e.value.first, t); }
    }
  }

  lemma {:induction false} FailCountWiden(h: seq<Event>, key: string, a: int, b: int, a': int, b': int)
    requires a' <= a && b <= b'
    ensures FailCount(h, 0, key, a, b) <= FailCount(h, 0, key, a', b')
  {
    if h != [] { FailCountWiden(h[..|h| - 1], key, a, b, a', b'); }
  }

  /** A lockout is always backed by at least `maxFailures` failures of that one key
      within the window ending now. */
  lemma LockoutIsDeserved(h: seq<Event>, key: string, now: int, maxFailures: int, window: int)
    requires Chronological(h, now) && Locked(h, key, now, maxFailures, window)
    ensures FailCount(h, 0, key, now - window, now) >= maxFailures
  {
    LedgerIsBacked(h, key, window, now);
    var e := Ledger(h, key, window).value;
    FailCountWiden(h, key, e.first, now, now - window, now);
  }
}
