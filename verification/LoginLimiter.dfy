/** The login limiter (internal/server/api/login_limiter.go) and the login handler
    that drives it (internal/server/api/auth_handlers.go).

    The limiter keeps one small record per key and forgets records lazily; `history`
    is the ghost log it is proved to answer for.  The clock, Unicode trimming and
    lower-casing are parameters. */
module LoginLimiter {
  import opened Prelude
  import opened LoginLog

  const MAX_ENTRIES: nat := 100000

  /** The table answers for the log: a record it holds is the log's, and a record it
      does not hold is either absent from the log's fold or expired for good. */
  ghost predicate Agrees(entries: map<string, Entry>, h: seq<Event>, window: int, t: int)
  {
    forall key ::
      var e := Ledger(h, key, window);
      if key in entries then e == Some(entries[key]) else e.None? || Expired(e.value, t, window)
  }

  lemma AgreesLater(entries: map<string, Entry>, h: seq<Event>, window: int, t: int, u: int)
    requires Agrees(entries, h, window, t) && t <= u
    ensures Agrees(entries, h, window, u)
  {
  }

  /** What the table says about a key, the log says too. */
  lemma AgreesAt(entries: map<string, Entry>, h: seq<Event>, window: int, t: int, key: string)
    requires Agrees(entries, h, window, t)
    ensures var e := Ledger(h, key, window);
      if key in entries then e == Some(entries[key]) else e.None? || Expired(e.value, t, window)
  {
  }

  lemma AgreesForget(entries: map<string, Entry>, h: seq<Event>, window: int, t: int, key: string)
    requires Agrees(entries, h, window, t)
    requires key in entries && Expired(entries[key], t, window)
    ensures Agrees(entries - {key}, h, window, t)
    ensures |entries - {key}| < |entries|
  {
    var less := entries - {key};
    forall k ensures
      var e := Ledger(h, k, window);
      if k in less then e == Some(less[k]) else e.None? || Expired(e.value, t, window)
    {
      AgreesAt(entries, h, window, t, k);
    }
    RemoveSize(entries, key);
  }

  lemma RemoveSize(m: map<string, Entry>, k: string)
    ensures |m - {k}| == |m| - (if k in m then 1 else 0)
  {
    assert (m - {k}).Keys == m.Keys - {k};
    assert |(m - {k}).Keys| == |m.Keys| - (if k in m then 1 else 0);
  }

  /** Records may be gone, none is new or changed. */
  ghost predicate Fewer(entries: map<string, Entry>, than: map<string, Entry>)
  {
    && |entries| <= |than|
    && forall k :: k in entries ==> k in than && entries[k] == than[k]
  }

  lemma AgreesPass(entries: map<string, Entry>, h: seq<Event>, window: int, t: int, id: nat, keys: seq<string>)
    requires Agrees(entries, h, window, t) && Chronological(h, t)
    ensures Agrees(entries, h + [Pass(id, t, keys)], window, t)
    ensures Chronological(h + [Pass(id, t, keys)], t)
  {
    AppendUnfolds(h, Pass(id, t, keys));
    forall k ensures
      var e := Ledger(h + [Pass(id, t, keys)], k, window);
      if k in entries then e == Some(entries[k]) else e.None? || Expired(e.value, t, window)
    {
      AgreesAt(entries, h, window, t, k);
    }
  }

  lemma AgreesReset(h: seq<Event>, window: int, t: int)
    requires Chronological(h, t)
    ensures Agrees(map[], h + [Reset], window, t)
    ensures Chronological(h + [Reset], t)
  {
    AppendUnfolds(h, Reset);
  }

  /** The record a failure leaves behind for a key. */
  function Bumped(table: map<string, Entry>, key: string, now: int, window: int): Entry
  {
    if key !in table || Expired(table[key], now, window) then Entry(1, now)
    else Entry(table[key].count + 1, table[key].first)
  }

  /** The records of `done` have been raised, the others have not been touched. */
  ghost predicate BumpedOn(table: map<string, Entry>, entries: map<string, Entry>, done: set<string>, now: int, window: int)
  {
    && (forall k :: k in entries <==> k in done || k in table)
    && forall k :: k in entries ==> entries[k] == if k in done then Bumped(table, k, now, window) else table[k]
  }

  lemma BumpedOnStep(table: map<string, Entry>, entries: map<string, Entry>, done: set<string>, key: string, now: int, window: int)
    requires BumpedOn(table, entries, done, now, window) && key !in done
    ensures BumpedOn(table, entries[key := Bumped(entries, key, now, window)], done + {key}, now, window)
    ensures |entries[key := Bumped(entries, key, now, window)]| <= |entries| + 1
  {
    assert Bumped(entries, key, now, window) == Bumped(table, key, now, window);
  }

  lemma AgreesFail(table: map<string, Entry>, entries: map<string, Entry>, h: seq<Event>, window: int, now: int,
                   id: nat, keys: seq<string>)
    requires Agrees(table, h, window, now) && Chronological(h, now)
    requires forall k :: k in keys ==> k in entries && entries[k] == Bumped(table, k, now, window)
    requires forall k :: k !in keys ==> (k in entries <==> k in table)
    requires forall k :: k !in keys && k in table ==> k in entries && entries[k] == table[k]
    ensures Agrees(entries, h + [Event.Fail(id, now, keys)], window, now)
    ensures Chronological(h + [Event.Fail(id, now, keys)], now)
  {
    AppendUnfolds(h, Event.Fail(id, now, keys));
    forall k ensures
      var e := Ledger(h + [Event.Fail(id, now, keys)], k, window);
      if k in entries then e == Some(entries[k]) else e.None? || Expired(e.value, now, window)
    {
      AgreesAt(table, h, window, now, k);
    }
  }

  lemma AgreesSuccess(table: map<string, Entry>, entries: map<string, Entry>, h: seq<Event>, window: int, t: int,
                      id: nat, keys: seq<string>)
    requires Agrees(table, h, window, t) && Chronological(h, t)
    requires forall k :: k in entries <==> k in table && k !in keys
    requires forall k :: k in entries ==> entries[k] == table[k]
    ensures Agrees(entries, h + [Success(id, keys)], window, t)
    ensures Chronological(h + [Success(id, keys)], t)
  {
    AppendUnfolds(h, Success(id, keys));
    forall k ensures
      var e := Ledger(h + [Success(id, keys)], k, window);
      if k in entries then e == Some(entries[k]) else e.None? || Expired(e.value, t, window)
    {
      AgreesAt(table, h, window, t, k);
    }
  }

  /** The log holds a record of the key that has not expired. */
  ghost predicate Live(h: seq<Event>, key: string, now: int, window: int)
  {
    var e := Ledger(h, key, window);
    e.Some? && !Expired(e.value, now, window)
  }

  ghost predicate Crowd(s: set<string>, h: seq<Event>, now: int, window: int)
  {
    |s| >= MAX_ENTRIES && forall k :: k in s ==> Live(h, k, now, window)
  }

  /** So many keys have live records that the table cannot hold one more. */
  ghost predicate Crowded(h: seq<Event>, now: int, window: int)
  {
    exists s :: Crowd(s, h, now, window)
  }

  function LiveEntries(entries: map<string, Entry>, now: int, window: int): map<string, Entry>
  {
    map k | k in entries && !Expired(entries[k], now, window) :: entries[k]
  }

  lemma LiveEntriesAreLive(entries: map<string, Entry>, h: seq<Event>, t: int, now: int, window: int, k: string)
    requires Agrees(entries, h, window, t) && t <= now
    ensures k in LiveEntries(entries, now, window) <==> Live(h, k, now, window)
  {
    AgreesAt(entries, h, window, t, k);
  }

  /** The table overflows exactly when the log is crowded. */
  lemma OverflowIffCrowded(entries: map<string, Entry>, h: seq<Event>, t: int, now: int, window: int)
    requires Agrees(entries, h, window, t) && t <= now
    ensures |LiveEntries(entries, now, window)| >= MAX_ENTRIES <==> Crowded(h, now, window)
    ensures |LiveEntries(entries, now, window)| <= |entries|
  {
    var live := LiveEntries(entries, now, window).Keys;
    forall k ensures k in live <==> Live(h, k, now, window) { LiveEntriesAreLive(entries, h, t, now, window, k); }
    SubsetSize(live, entries.Keys);
    if |live| >= MAX_ENTRIES { assert Crowd(live, h, now, window); }
    if Crowded(h, now, window) {
      var s :| Crowd(s, h, now, window);
      SubsetSize(s, live);
    }
  }

  /** A reset is deserved: as many keys as the table holds failed within the window. */
  lemma CrowdHasFailed(s: set<string>, h: seq<Event>, now: int, window: int)
    requires Crowd(s, h, now, window) && Chronological(h, now)
    ensures |s| >= 100_000 && forall k :: k in s ==> FailCount(h, 0, k, now - window, now) >= 1
  {
    forall k | k in s ensures FailCount(h, 0, k, now - window, now) >= 1 {
      assert Live(h, k, now, window);
      var e := Ledger(h, k, window).value;
      LedgerTime(h, k, window, now);
      LedgerIsBacked(h, k, window, now);
      FailCountWiden(h, k, e.first, now, now - window, now);
    }
  }

  /** What settling an attempt appends to the log. */
  ghost function Settled(h: seq<Event>, id: nat, verified: bool, now: int, keys: seq<string>, window: int): seq<Event>
  {
    if verified then [Success(id, keys)]
    else (if Crowded(h, now, window) then [Reset] else []) + [Event.Fail(id, now, keys)]
  }

  lemma OrderlyPass(h: seq<Event>, maxFailures: int, window: int, width: nat, id: nat, now: int, keys: seq<string>)
    requires Disciplined(h, maxFailures, window, width)
    requires id !in InFlight(h) && |InFlight(h)| < width
    requires forall key :: key in keys ==> !Locked(h, key, now, maxFailures, window)
    ensures Disciplined(h + [Pass(id, now, keys)], maxFailures, window, width)
    ensures InFlight(h + [Pass(id, now, keys)]) == InFlight(h)[id := keys]
  {
    AppendUnfolds(h, Pass(id, now, keys));
  }

  lemma OrderlySettle(h: seq<Event>, maxFailures: int, window: int, width: nat, id: nat, e: Event)
    requires Disciplined(h, maxFailures, window, width)
    requires (e.Fail? || e.Success?) && e.id == id && id in InFlight(h) && InFlight(h)[id] == e.keys
    ensures Disciplined(h + [e], maxFailures, window, width)
    ensures InFlight(h + [e]) == InFlight(h) - {id}
  {
    AppendUnfolds(h, e);
  }

  lemma OrderlyReset(h: seq<Event>, maxFailures: int, window: int, width: nat)
    requires Disciplined(h, maxFailures, window, width)
    ensures Disciplined(h + [Reset], maxFailures, window, width)
    ensures InFlight(h + [Reset]) == InFlight(h)
  {
    AppendUnfolds(h, Reset);
  }

  datatype LoginReply = BadRequest | TooManyAttempts | Unauthorized | Accepted

  datatype LoginRequest = LoginRequest(ip: string, username: string, password: string,
                                       knownUser: bool, passwordMatches: bool, arrives: int, decided: int)

  class Limiter {
    const maxFailures: int
    const window: int
    const trim: string -> string
    const lower: string -> string
    var entries: map<string, Entry>
    ghost var history: seq<Event>
    ghost var clock: int

    constructor (maxFailures: int, window: int, trim: string -> string, lower: string -> string, ghost start: int)
      requires 1 <= maxFailures && 0 <= window
      ensures Valid() && history == [] && entries == map[] && clock == start
      ensures this.maxFailures == maxFailures && this.window == window && this.trim == trim && this.lower == lower
    {
      this.maxFailures, this.window, this.trim, this.lower := maxFailures, window, trim, lower;
      entries, history, clock := map[], [], start;
    }

    ghost predicate Valid()
      reads this
    {
      && 1 <= maxFailures && 0 <= window
      && Agrees(entries, history, window, clock)
      && Chronological(history, clock)
      && |entries| <= MAX_ENTRIES + 1
    }

    /** All outcomes so far were recorded by requests that had passed the check, at
        most `width` of them overlapping. */
    ghost predicate Orderly(width: nat)
      reads this
    {
      Disciplined(history, maxFailures, window, width)
    }

    /** The keys of one attempt; a blank address or user name contributes none, and an
        address can never collide with a user name. */
    function Keys(ip: string, username: string): (keys: seq<string>)
      ensures |keys| <= 2
      ensures forall i, j :: 0 <= i < j < |keys| ==> keys[i] != keys[j]
      ensures forall k :: k in keys ==> HasPrefix(k, "ip\0") || HasPrefix(k, "user\0")
    {
      var i, u := trim(ip), lower(trim(username));
      assert ("ip\0" + i)[0] == 'i' && ("user\0" + u)[0] == 'u';
      (if i != "" then ["ip\0" + i] else []) + (if u != "" then ["user\0" + u] else [])
    }

    /** Locked out, judged by the whole log. */
    ghost predicate ShouldBlock(ip: string, username: string, now: int)
      reads this
    {
      Refuses(history, ip, username, now)
    }

    ghost predicate Refuses(h: seq<Event>, ip: string, username: string, now: int)
    {
      exists key :: key in Keys(ip, username) && Locked(h, key, now, maxFailures, window)
    }

    /** The log after one attempt served without overlap, and after one request. */
    ghost function LogAfterAttempt(h: seq<Event>, ip: string, username: string, verified: bool, arrives: int, decided: int): seq<Event>
    {
      if Refuses(h, ip, username, arrives) then h else
        var passed := h + [Pass(0, arrives, Keys(ip, username))];
        passed + Settled(passed, 0, verified, decided, Keys(ip, username), window)
    }

    ghost function LogAfter(h: seq<Event>, req: LoginRequest): seq<Event>
    {
      var username := trim(req.username);
      if username == "" || req.password == "" then h
      else LogAfterAttempt(h, req.ip, username, req.knownUser && req.passwordMatches, req.arrives, req.decided)
    }

    ghost function ReplyTo(h: seq<Event>, req: LoginRequest): LoginReply
    {
      var username := trim(req.username);
      if username == "" || req.password == "" then BadRequest
      else if Refuses(h, req.ip, username, req.arrives) then TooManyAttempts
      else if req.knownUser && req.passwordMatches then Accepted
      else Unauthorized
    }

    /** The log after many requests, and the reply to each, judged by the log before it. */
    ghost function LogAfterAll(h: seq<Event>, requests: seq<LoginRequest>): seq<Event>
    {
      if requests == [] then h else LogAfter(LogAfterAll(h, requests[..|requests| - 1]), requests[|requests| - 1])
    }

    ghost function RepliesTo(h: seq<Event>, requests: seq<LoginRequest>): seq<LoginReply>
    {
      if requests == [] then [] else
        RepliesTo(h, requests[..|requests| - 1]) +
        [ReplyTo(LogAfterAll(h, requests[..|requests| - 1]), requests[|requests| - 1])]
    }

    lemma OneMoreRequest(h: seq<Event>, requests: seq<LoginRequest>, n: nat)
      requires n < |requests|
      ensures LogAfterAll(h, requests[..n + 1]) == LogAfter(LogAfterAll(h, requests[..n]), requests[n])
      ensures RepliesTo(h, requests[..n + 1]) == RepliesTo(h, requests[..n]) + [ReplyTo(LogAfterAll(h, requests[..n]), requests[n])]
    {
      assert requests[..n + 1][..n] == requests[..n];
    }

    /** The check of one key, which drops an expired record. */
    method KeyBlocked(key: string, now: int) returns (blocked: bool)
      requires Agrees(entries, history, window, now)
      modifies this`entries
      ensures Agrees(entries, history, window, now) && Fewer(entries, old(entries))
      ensures blocked == Locked(history, key, now, maxFailures, window)
    {
      AgreesAt(entries, history, window, now, key);
      blocked := false;
      if key in entries {
        if Expired(entries[key], now, window) {
          AgreesForget(entries, history, window, now, key);
          entries := entries - {key};
        } else {
          blocked := entries[key].count >= maxFailures;
        }
      }
    }

    /** The answer is the log's answer, whatever has been forgotten meanwhile; only
        expired records are dropped.  `id` names the login request. */
    method Blocked(ip: string, username: string, now: int, ghost id: nat) returns (blocked: bool)
      requires Valid() && clock <= now
      modifies this
      ensures Valid() && clock == now
      ensures blocked == old(ShouldBlock(ip, username, now))
      ensures history == old(history) + if blocked then [] else [Pass(id, now, Keys(ip, username))]
      ensures Fewer(entries, old(entries))
    {
      var keys := Keys(ip, username);
      ChronologicalLater(history, clock, now);
      AgreesLater(entries, history, window, clock, now);
      clock := now;
      blocked := false;
      var i := 0;
      while i < |keys| && !blocked
        invariant 0 <= i <= |keys|
        invariant history == old(history) && clock == now
        invariant Agrees(entries, history, window, now) && Fewer(entries, old(entries))
        invariant forall j :: 0 <= j < (if blocked then i - 1 else i) ==> !Locked(history, keys[j], now, maxFailures, window)
        invariant blocked ==> i > 0 && Locked(history, keys[i - 1], now, maxFailures, window)
      {
        blocked := KeyBlocked(keys[i], now);
        i := i + 1;
      }
      if !blocked {
        AgreesPass(entries, history, window, now, id, keys);
        history := history + [Pass(id, now, keys)];
      }
    }

    /** The table thrown away: the cap was reached and nothing had expired enough. */
    predicate Overflows(now: int)
      reads this
    {
      |entries| >= MAX_ENTRIES && |LiveEntries(entries, now, window)| >= MAX_ENTRIES
    }

    /** Records the failure on every key.  Apart from a reset, which happens exactly on
        overflow and is recorded as such, only expired records disappear. */
    method Fail(ip: string, username: string, now: int, ghost id: nat)
      requires Valid() && clock <= now
      modifies this
      ensures Valid() && clock == now
      ensures old(Overflows(now)) == Crowded(old(history), now, window)
      ensures var reset := if old(Overflows(now)) then [Reset] else [];
        history == old(history) + reset + [LoginLog.Event.Fail(id, now, Keys(ip, username))]
      ensures forall k :: k in entries && k !in Keys(ip, username) ==> k in old(entries) && entries[k] == old(entries)[k]
      ensures !old(Overflows(now)) ==> forall k :: k in old(entries) && k !in entries ==> Expired(old(entries)[k], now, window)
    {
      ChronologicalLater(history, clock, now);
      OverflowIffCrowded(entries, history, clock, now, window);
      AgreesLater(entries, history, window, clock, now);
      clock := now;
      if |entries| >= MAX_ENTRIES {
        Purge(now);
        if |entries| >= MAX_ENTRIES {
          AgreesReset(history, window, now);
          entries := map[];
          history := history + [Reset];
        }
      }
      Bump(Keys(ip, username), now, id);
    }

    /** The second half of `Fail`: every key's record is raised or started afresh. */
    method Bump(keys: seq<string>, now: int, ghost id: nat)
      requires Valid() && clock == now && |entries| + |keys| <= MAX_ENTRIES + 1
      requires forall i, j :: 0 <= i < j < |keys| ==> keys[i] != keys[j]
      modifies this`entries, this`history
      ensures Valid()
      ensures history == old(history) + [LoginLog.Event.Fail(id, now, keys)]
      ensures forall k :: k in entries <==> k in keys || k in old(entries)
      ensures forall k :: k in entries ==> entries[k] == if k in keys then Bumped(old(entries), k, now, window) else old(entries)[k]
    {
      ghost var table, done := entries, {};
      var i := 0;
      while i < |keys|
        invariant 0 <= i <= |keys|
        invariant history == old(history)
        invariant |entries| <= |table| + i && BumpedOn(table, entries, done, now, window)
        invariant forall j :: 0 <= j < |keys| ==> (keys[j] in done <==> j < i)
        invariant forall k :: k in done ==> k in keys
      {
        var key := keys[i];
        BumpedOnStep(table, entries, done, key, now, window);
        if key !in entries || Expired(entries[key], now, window) {
          entries := entries[key := Entry(1, now)];
        } else {
          entries := entries[key := Entry(entries[key].count + 1, entries[key].first)];
        }
        done := done + {key};
        i := i + 1;
      }
      AgreesFail(table, entries, history, window, now, id, keys);
      history := history + [LoginLog.Event.Fail(id, now, keys)];
    }

    /** Drops exactly the expired records. */
    method Purge(now: int)
      requires Valid() && clock == now
      modifies this`entries
      ensures Valid()
      ensures entries == LiveEntries(old(entries), now, window)
    {
      var todo := entries.Keys;
      while todo != {}
        invariant Agrees(entries, history, window, now) && |entries| <= |old(entries)|
        invariant todo <= entries.Keys <= old(entries.Keys)
        invariant forall k :: k in entries ==> entries[k] == old(entries)[k] && (k in todo || !Expired(entries[k], now, window))
        invariant forall k :: k in old(entries) && k !in entries ==> Expired(old(entries)[k], now, window)
        decreases todo
      {
        var k :| k in todo;
        todo := todo - {k};
        if Expired(entries[k], now, window) {
          AgreesForget(entries, history, window, now, k);
          entries := entries - {k};
        }
      }
    }

    /** Clears every key of the attempt and nothing else. */
    method Succeed(ip: string, username: string, ghost id: nat)
      requires Valid()
      modifies this`entries, this`history
      ensures Valid()
      ensures history == old(history) + [Success(id, Keys(ip, username))]
      ensures forall k :: k in entries <==> k in old(entries) && k !in Keys(ip, username)
      ensures forall k :: k in entries ==> entries[k] == old(entries)[k]
    {
      var keys := Keys(ip, username);
      var i := 0;
      while i < |keys|
        invariant 0 <= i <= |keys|
        invariant history == old(history) && |entries| <= |old(entries)|
        invariant forall k :: k in entries <==> k in old(entries) && k !in keys[..i]
        invariant forall k :: k in entries ==> entries[k] == old(entries)[k]
      {
        assert keys[..i + 1] == keys[..i] + [keys[i]];
        RemoveSize(entries, keys[i]);
        entries := entries - {keys[i]};
        i := i + 1;
      }
      assert keys[..i] == keys;
      AgreesSuccess(old(entries), entries, history, window, clock, id, keys);
      history := history + [Success(id, keys)];
    }

    // -------------------------------------------------------------------
    // The login handler, in the two steps other requests can come between.

    /** The check.  True lets the attempt through to the password comparison. */
    method Admit(ip: string, username: string, now: int, ghost id: nat, ghost width: nat) returns (admitted: bool)
      requires Valid() && clock <= now
      requires Orderly(width) && id !in InFlight(history) && |InFlight(history)| < width
      modifies this
      ensures Valid() && Orderly(width) && clock == now
      ensures admitted <==> !old(ShouldBlock(ip, username, now))
      ensures InFlight(history) == if admitted then old(InFlight(history))[id := Keys(ip, username)] else old(InFlight(history))
      ensures history == old(history) + if admitted then [Pass(id, now, Keys(ip, username))] else []
    {
      var blocked := Blocked(ip, username, now, id);
      admitted := !blocked;
      if admitted {
        OrderlyPass(old(history), maxFailures, window, width, id, now, Keys(ip, username));
      } else {
        assert history == old(history);
      }
    }

    /** The outcome of an admitted attempt. */
    method Settle(ip: string, username: string, verified: bool, now: int, ghost id: nat, ghost width: nat)
      requires Valid() && clock <= now
      requires Orderly(width) && id in InFlight(history) && InFlight(history)[id] == Keys(ip, username)
      modifies this
      ensures Valid() && Orderly(width) && clock <= now
      ensures InFlight(history) == old(InFlight(history)) - {id}
      ensures history == old(history) + Settled(old(history), id, verified, now, Keys(ip, username), window)
    {
      var keys := Keys(ip, username);
      if verified {
        Succeed(ip, username, id);
        OrderlySettle(old(history), maxFailures, window, width, id, Success(id, keys));
      } else {
        ghost var start := history;
        ghost var before := history + if Overflows(now) then [Reset] else [];
        OrderlyReset(history, maxFailures, window, width);
        assert !Overflows(now) ==> before == history;
        Fail(ip, username, now, id);
        assert history == before + [LoginLog.Event.Fail(id, now, keys)];
        assert history == start + Settled(start, id, verified, now, keys, window);
        OrderlySettle(before, maxFailures, window, width, id, LoginLog.Event.Fail(id, now, keys));
      }
    }

    /** No record counts past its allowance, however `width` requests interleave. */
    lemma RecordsAreBounded(width: nat)
      requires Valid() && Orderly(width) && 1 <= width
      ensures forall k :: k in entries ==> entries[k].count <= maxFailures - 1 + width
    {
      forall k | k in entries ensures entries[k].count <= maxFailures - 1 + width {
        AgreesAt(entries, history, window, clock, k);
        CountBound(history, k, maxFailures, window, width, clock);
      }
    }
  }

  /** The check and the outcome of one attempt, nothing in between. */
  method Attempt(l: Limiter, ip: string, username: string, verified: bool, arrives: int, decided: int)
    returns (admitted: bool)
    requires l.Valid() && l.clock <= arrives <= decided
    requires l.Orderly(1) && InFlight(l.history) == map[]
    modifies l
    ensures l.Valid() && l.Orderly(1) && InFlight(l.history) == map[] && l.clock <= decided
    ensures admitted <==> !old(l.ShouldBlock(ip, username, arrives))
    ensures l.history == l.LogAfterAttempt(old(l.history), ip, username, verified, arrives, decided)
  {
    ghost var keys := l.Keys(ip, username);
    admitted := l.Admit(ip, username, arrives, 0, 1);
    if admitted {
      l.Settle(ip, username, verified, decided, 0, 1);
      assert InFlight(l.history) == map[0 := keys] - {0} == map[];
    }
  }

  /** One login served without overlap.  The two library verdicts (the user exists,
      the password matches) are part of the request. */
  method HandleLogin(l: Limiter, req: LoginRequest) returns (reply: LoginReply)
    requires l.Valid() && l.clock <= req.arrives <= req.decided
    requires l.Orderly(1) && InFlight(l.history) == map[]
    modifies l
    ensures l.Valid() && l.Orderly(1) && InFlight(l.history) == map[] && l.clock <= req.decided
    ensures reply == l.ReplyTo(old(l.history), req)
    ensures reply == BadRequest <==> l.trim(req.username) == "" || req.password == ""
    ensures reply == Accepted ==> req.knownUser && req.passwordMatches
    ensures reply == Unauthorized ==> !(req.knownUser && req.passwordMatches)
    ensures l.history == l.LogAfter(old(l.history), req)
  {
    var username := l.trim(req.username);
    if username == "" || req.password == "" {
      return BadRequest;
    }
    var verified := req.knownUser && req.passwordMatches;
    var admitted := Attempt(l, req.ip, username, verified, req.arrives, req.decided);
    reply := if !admitted then TooManyAttempts else if verified then Accepted else Unauthorized;
  }

  ghost predicate OneAfterAnother(requests: seq<LoginRequest>, start: int)
  {
    && (forall i :: 0 <= i < |requests| ==> start <= requests[i].arrives <= requests[i].decided)
    && (forall i, j :: 0 <= i < j < |requests| ==> requests[i].decided <= requests[j].arrives)
  }

  method ServeAll(l: Limiter, requests: seq<LoginRequest>) returns (replies: seq<LoginReply>)
    requires l.Valid() && l.Orderly(1) && InFlight(l.history) == map[]
    requires OneAfterAnother(requests, l.clock)
    modifies l
    ensures l.Valid() && l.Orderly(1)
    ensures l.history == l.LogAfterAll(old(l.history), requests)
    ensures replies == l.RepliesTo(old(l.history), requests)
  {
    ghost var start := l.history;
    replies := [];
    for n := 0 to |requests|
      invariant l.Valid() && l.Orderly(1) && InFlight(l.history) == map[]
      invariant forall i :: n <= i < |requests| ==> l.clock <= requests[i].arrives
      invariant l.history == l.LogAfterAll(start, requests[..n]) && replies == l.RepliesTo(start, requests[..n])
    {
      l.OneMoreRequest(start, requests, n);
      var reply := HandleLogin(l, requests[n]);
      replies := replies + [reply];
    }
    assert requests[..|requests|] == requests;
  }

  /** Any run of logins gets the replies, and leaves the log, that the log so far demands;
      every record stays within `maxFailures` and every key within `2 * maxFailures - 1`
      failures per window. */
  method ServeLogins(l: Limiter, requests: seq<LoginRequest>) returns (replies: seq<LoginReply>)
    requires l.Valid() && l.Orderly(1) && InFlight(l.history) == map[]
    requires OneAfterAnother(requests, l.clock)
    modifies l
    ensures l.Valid()
    ensures l.history == l.LogAfterAll(old(l.history), requests)
    ensures replies == l.RepliesTo(old(l.history), requests)
    ensures forall k :: k in l.entries ==> l.entries[k].count <= l.maxFailures
    ensures forall start: nat, key, a, b :: b - a <= l.window && NeverCleared(l.history, start, key) ==>
      FailCount(l.history, start, key, a, b) <= 2 * l.maxFailures - 1
  {
    replies := ServeAll(l, requests);
    l.RecordsAreBounded(1);
    forall start: nat, key, a, b | b - a <= l.window && NeverCleared(l.history, start, key)
      ensures FailCount(l.history, start, key, a, b) <= 2 * l.maxFailures - 1
    {
      SlidingWindow(l.history, start, key, a, b, l.maxFailures, l.window, 1, l.clock);
    }
  }

  // ---------------------------------------------------------------------
  // With fewer keys than the table holds there is no reset, and nothing to assume.

  /** No reset so far, and only keys of `all` have failed. */
  ghost predicate Uneventful(h: seq<Event>, all: set<string>)
  {
    forall i :: 0 <= i < |h| ==> !h[i].Reset? && (h[i].Fail? ==> forall k :: k in h[i].keys ==> k in all)
  }

  lemma {:induction false} OnlyFailedKeysLive(h: seq<Event>, all: set<string>, k: string, window: int)
    requires Uneventful(h, all) && Ledger(h, k, window).Some?
    ensures k in all
  {
    if Ledger(h[..|h| - 1], k, window).Some? {
      OnlyFailedKeysLive(h[..|h| - 1], all, k, window);
    } else {
      assert h[|h| - 1].Fail? && k in h[|h| - 1].keys;
    }
  }

  lemma FewKeysDoNotCrowd(h: seq<Event>, all: set<string>, now: int, window: int)
    requires Uneventful(h, all) && |all| < MAX_ENTRIES
    ensures !Crowded(h, now, window)
  {
    forall s ensures !Crowd(s, h, now, window) {
      if forall k :: k in s ==> Live(h, k, now, window) {
        forall k | k in s ensures k in all { OnlyFailedKeysLive(h, all, k, window); }
        SubsetSize(s, all);
      }
    }
  }

  /** The request is about keys of `all`, and does not verify if it is about `key`. */
  ghost predicate Unlucky(l: Limiter, req: LoginRequest, all: set<string>, key: string)
  {
    var keys := l.Keys(req.ip, l.trim(req.username));
    (forall k :: k in keys ==> k in all) && (key in keys ==> !(req.knownUser && req.passwordMatches))
  }

  lemma UneventfulStep(h: seq<Event>, e: Event, all: set<string>)
    requires Uneventful(h, all) && !e.Reset? && (e.Fail? ==> forall k :: k in e.keys ==> k in all)
    ensures Uneventful(h + [e], all)
  {
  }

  lemma StaysUncleared(h: seq<Event>, e: Event, key: string)
    requires NeverCleared(h, 0, key) && !e.Reset? && (e.Success? ==> key !in e.keys)
    ensures NeverCleared(h + [e], 0, key)
  {
  }

  lemma OneUnluckyRequest(l: Limiter, h: seq<Event>, req: LoginRequest, all: set<string>, key: string)
    requires Uneventful(h, all) && NeverCleared(h, 0, key) && |all| < MAX_ENTRIES && Unlucky(l, req, all, key)
    ensures Uneventful(l.LogAfter(h, req), all) && NeverCleared(l.LogAfter(h, req), 0, key)
  {
    var keys := l.Keys(req.ip, l.trim(req.username));
    var p := Pass(0, req.arrives, keys);
    var verified := req.knownUser && req.passwordMatches;
    var e := if verified then Success(0, keys) else Event.Fail(0, req.decided, keys);
    UneventfulStep(h, p, all);
    StaysUncleared(h, p, key);
    FewKeysDoNotCrowd(h + [p], all, req.decided, l.window);
    UneventfulStep(h + [p], e, all);
    StaysUncleared(h + [p], e, key);
    assert [] + [e] == [e];
  }

  lemma {:induction false} UnluckyRun(l: Limiter, h: seq<Event>, requests: seq<LoginRequest>, all: set<string>, key: string)
    requires Uneventful(h, all) && NeverCleared(h, 0, key) && |all| < MAX_ENTRIES
    requires forall i :: 0 <= i < |requests| ==> Unlucky(l, requests[i], all, key)
    ensures Uneventful(l.LogAfterAll(h, requests), all) && NeverCleared(l.LogAfterAll(h, requests), 0, key)
  {
    if requests != [] {
      var before, last := requests[..|requests| - 1], requests[|requests| - 1];
      UnluckyRun(l, h, before, all, key);
      OneUnluckyRequest(l, l.LogAfterAll(h, before), last, all, key);
    }
  }

  /** Serving a fresh limiter fewer keys than the table holds, whatever the requests are:
      a key for which no password is ever right fails at most `2 * maxFailures - 1` times
      per window. */
  method ServeFewKeys(l: Limiter, requests: seq<LoginRequest>, ghost all: set<string>) returns (replies: seq<LoginReply>)
    requires l.Valid() && l.history == [] && OneAfterAnother(requests, l.clock)
    requires |all| < 100_000
    requires forall i, k :: 0 <= i < |requests| && k in l.Keys(requests[i].ip, l.trim(requests[i].username)) ==> k in all
    modifies l
    ensures l.Valid() && l.history == l.LogAfterAll([], requests) && replies == l.RepliesTo([], requests)
    ensures forall key, a, b :: b - a <= l.window && (forall i :: 0 <= i < |requests| ==> Unlucky(l, requests[i], all, key)) ==>
      FailCount(l.history, 0, key, a, b) <= 2 * l.maxFailures - 1
  {
    replies := ServeLogins(l, requests);
    forall key, a, b | b - a <= l.window && forall i :: 0 <= i < |requests| ==> Unlucky(l, requests[i], all, key)
      ensures FailCount(l.history, 0, key, a, b) <= 2 * l.maxFailures - 1
    {
      UnluckyRun(l, [], requests, all, key);
    }
  }
}
