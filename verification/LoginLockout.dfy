/** What the login limiter means for the people logging in: who is locked out, when, and on
    account of what, over the requests and the replies alone. */
module LoginLockout {
  import opened Prelude
  import opened LoginLog
  import opened LoginLimiter

  /** Whom a request is about: a user name, as written in lower case and without blanks
      around it, or an address. */
  datatype Who = Name(name: string) | Address(address: string)

  predicate About(l: Limiter, req: LoginRequest, who: Who)
  {
    match who
    case Name(n) => n != "" && l.lower(l.trim(l.trim(req.username))) == n
    case Address(a) => a != "" && l.trim(req.ip) == a
  }

  /** Requests `from` to n - 1 that were about `who`, failed, and were decided in [a, b]. */
  ghost function Failures(l: Limiter, requests: seq<LoginRequest>, replies: seq<LoginReply>, who: Who,
                          from: nat, n: nat, a: int, b: int): nat
    requires n <= |requests| == |replies|
  {
    if n <= from then 0 else
      Failures(l, requests, replies, who, from, n - 1, a, b) + if FailedAt(l, requests, replies, who, n - 1, a, b) then 1 else 0
  }

  predicate FailedAt(l: Limiter, requests: seq<LoginRequest>, replies: seq<LoginReply>, who: Who, i: nat, a: int, b: int)
    requires i < |requests| == |replies|
  {
    replies[i] == Unauthorized && About(l, requests[i], who) && a <= requests[i].decided <= b
  }

  /** No request from `i` to j - 1 that is about `who` logged in. */
  predicate NoSuccess(l: Limiter, requests: seq<LoginRequest>, replies: seq<LoginReply>, who: Who, i: nat, j: nat)
    requires j <= |requests| == |replies|
  {
    forall n :: i <= n < j ==> !(replies[n] == Accepted && About(l, requests[n], who))
  }

  /** Request i was the first failure of `who` in a window's time, and by request j, within
      the window, there were enough of them and no success between.  Without the first part
      an older failure's window may end in between, and the count begins anew. */
  ghost predicate WornOut(l: Limiter, requests: seq<LoginRequest>, replies: seq<LoginReply>, who: Who, i: nat, j: nat)
    requires i < j < |requests| == |replies|
  {
    var first := requests[i].decided;
    && FailedAt(l, requests, replies, who, i, first, first)
    && Failures(l, requests, replies, who, 0, i, first - l.window, first) == 0
    && NoSuccess(l, requests, replies, who, i, j)
    && Failures(l, requests, replies, who, i, j, first, first + l.window) >= l.maxFailures
    && requests[j].arrives <= first + l.window && About(l, requests[j], who) && replies[j] != BadRequest
  }

  predicate NoReset(h: seq<Event>)
  {
    forall i :: 0 <= i < |h| ==> !h[i].Reset?
  }

  // ---------------------------------------------------------------------
  // Requests and keys.

  function KeyFor(who: Who): string
  {
    match who
    case Name(n) => "user\0" + n
    case Address(a) => "ip\0" + a
  }

  lemma {:induction false} KeyForInjective(x: Who, y: Who)
    requires KeyFor(x) == KeyFor(y)
    ensures x == y
  {
    assert KeyFor(x)[0] == KeyFor(y)[0];
    assert KeyFor(Name("")) == "user\0" && KeyFor(Address("")) == "ip\0";
    match x
    case Name(n) => assert KeyFor(x)[5..] == n && KeyFor(y)[5..] == y.name;
    case Address(a) => assert KeyFor(x)[3..] == a && KeyFor(y)[3..] == y.address;
  }

  /** A request counts for whom it is about, and for nobody else. */
  lemma {:induction false} KeysAreWho(l: Limiter, req: LoginRequest, who: Who)
    ensures KeyFor(who) in l.Keys(req.ip, l.trim(req.username)) <==> About(l, req, who)
  {
    var i, u := l.trim(req.ip), l.lower(l.trim(l.trim(req.username)));
    var keys := l.Keys(req.ip, l.trim(req.username));
    assert keys == (if i != "" then [KeyFor(Address(i))] else []) + (if u != "" then [KeyFor(Name(u))] else []);
    if KeyFor(who) in keys {
      if KeyFor(who) == KeyFor(Address(i)) { KeyForInjective(who, Address(i)); }
      if KeyFor(who) == KeyFor(Name(u)) { KeyForInjective(who, Name(u)); }
    }
  }

  lemma {:induction false} EveryKeyIsSomebody(l: Limiter, req: LoginRequest, key: string) returns (who: Who)
    requires key in l.Keys(req.ip, l.trim(req.username))
    ensures key == KeyFor(who) && About(l, req, who)
  {
    var i, u := l.trim(req.ip), l.lower(l.trim(l.trim(req.username)));
    who := if i != "" && key == KeyFor(Address(i)) then Address(i) else Name(u);
    KeysAreWho(l, req, who);
  }

  // ---------------------------------------------------------------------
  // One request and the log.

  /** A record after one more failure at `now`. */
  ghost function Raised(e: Option<Entry>, now: int, window: int): Entry
  {
    if e.None? || Expired(e.value, now, window) then Entry(1, now) else Entry(e.value.count + 1, e.value.first)
  }

  lemma {:induction false} OneEvent(h: seq<Event>, e: Event, key: string, window: int, a: int, b: int)
    ensures e.Pass? ==> Ledger(h + [e], key, window) == Ledger(h, key, window)
    ensures e.Fail? ==>
      Ledger(h + [e], key, window) ==
        if key in e.keys then Some(Raised(Ledger(h, key, window), e.now, window)) else Ledger(h, key, window)
    ensures e.Success? ==> Ledger(h + [e], key, window) == if key in e.keys then None else Ledger(h, key, window)
    ensures FailCount(h + [e], 0, key, a, b) == FailCount(h, 0, key, a, b) +
      if e.Fail? && key in e.keys && a <= e.now <= b then 1 else 0
  {
    AppendUnfolds(h, e);
  }

  /** The log after a request, by its reply. */
  lemma {:induction false} LogByReply(l: Limiter, h: seq<Event>, req: LoginRequest)
    ensures var keys, passed := l.Keys(req.ip, l.trim(req.username)), h + [Pass(0, req.arrives, l.Keys(req.ip, l.trim(req.username)))];
      match l.ReplyTo(h, req)
      case Accepted => l.LogAfter(h, req) == passed + [Success(0, keys)]
      case Unauthorized =>
        l.LogAfter(h, req) == passed + [Event.Fail(0, req.decided, keys)] ||
        l.LogAfter(h, req) == passed + [Reset] + [Event.Fail(0, req.decided, keys)]
      case _ => l.LogAfter(h, req) == h
  {
    var keys := l.Keys(req.ip, l.trim(req.username));
    var passed := h + [Pass(0, req.arrives, keys)];
    var fail := [Event.Fail(0, req.decided, keys)];
    assert [] + fail == fail;
    assert passed + ([Reset] + fail) == passed + [Reset] + fail;
  }

  lemma {:induction false} FailuresMove(l: Limiter, h: seq<Event>, req: LoginRequest, who: Who, a: int, b: int)
    ensures FailCount(l.LogAfter(h, req), 0, KeyFor(who), a, b) == FailCount(h, 0, KeyFor(who), a, b) +
      if l.ReplyTo(h, req) == Unauthorized && About(l, req, who) && a <= req.decided <= b then 1 else 0
  {
    var key, keys := KeyFor(who), l.Keys(req.ip, l.trim(req.username));
    var p, f := Pass(0, req.arrives, keys), Event.Fail(0, req.decided, keys);
    var passed := h + [p];
    KeysAreWho(l, req, who);
    LogByReply(l, h, req);
    OneEvent(h, p, key, l.window, a, b);
    OneEvent(passed, f, key, l.window, a, b);
    OneEvent(passed, Reset, key, l.window, a, b);
    OneEvent(passed + [Reset], f, key, l.window, a, b);
    OneEvent(passed, Success(0, keys), key, l.window, a, b);
  }

  lemma {:induction false} RecordMoves(l: Limiter, h: seq<Event>, req: LoginRequest, who: Who)
    requires NoReset(l.LogAfter(h, req))
    ensures var e := Ledger(h, KeyFor(who), l.window);
      Ledger(l.LogAfter(h, req), KeyFor(who), l.window) ==
        if !About(l, req, who) then e
        else match l.ReplyTo(h, req)
          case Accepted => None
          case Unauthorized => Some(Raised(e, req.decided, l.window))
          case _ => e
  {
    var key, keys := KeyFor(who), l.Keys(req.ip, l.trim(req.username));
    var p, f := Pass(0, req.arrives, keys), Event.Fail(0, req.decided, keys);
    var passed := h + [p];
    KeysAreWho(l, req, who);
    LogByReply(l, h, req);
    OneEvent(h, p, key, l.window, 0, 0);
    OneEvent(passed, f, key, l.window, 0, 0);
    OneEvent(passed, Success(0, keys), key, l.window, 0, 0);
    assert (passed + [Reset] + [f])[|passed|].Reset?;
  }

  // ---------------------------------------------------------------------
  // Many requests and the log.

  /** Request n is answered by the log before it, and leaves the log after it. */
  ghost predicate StepAt(l: Limiter, requests: seq<LoginRequest>, replies: seq<LoginReply>, logs: seq<seq<Event>>, n: nat)
    requires n < |requests| == |replies| && |logs| == |requests| + 1
  {
    replies[n] == l.ReplyTo(logs[n], requests[n]) && logs[n + 1] == l.LogAfter(logs[n], requests[n])
  }

  /** A run from the start, with the logs before, between and after the requests. */
  ghost predicate Ran(l: Limiter, requests: seq<LoginRequest>, replies: seq<LoginReply>, logs: seq<seq<Event>>)
  {
    && |replies| == |requests| && |logs| == |requests| + 1 && logs[0] == []
    && forall n: nat :: n < |requests| ==> StepAt(l, requests, replies, logs, n)
  }

  lemma {:induction false} RanStep(l: Limiter, requests: seq<LoginRequest>, replies: seq<LoginReply>, logs: seq<seq<Event>>,
                                   req: LoginRequest)
    requires Ran(l, requests, replies, logs)
    ensures var h := logs[|requests|];
      Ran(l, requests + [req], replies + [l.ReplyTo(h, req)], logs + [l.LogAfter(h, req)])
  {
    var h := logs[|requests|];
    var requests', replies', logs' := requests + [req], replies + [l.ReplyTo(h, req)], logs + [l.LogAfter(h, req)];
    forall n: nat | n < |requests'| ensures StepAt(l, requests', replies', logs', n) {
      if n < |requests| {
        assert StepAt(l, requests, replies, logs, n);
        assert logs'[n] == logs[n] && logs'[n + 1] == logs[n + 1];
      }
    }
  }

  /** The replies a limiter gives from the start on are those of a run. */
  lemma {:induction false} RepliesRan(l: Limiter, requests: seq<LoginRequest>) returns (logs: seq<seq<Event>>)
    ensures Ran(l, requests, l.RepliesTo([], requests), logs) && logs[|requests|] == l.LogAfterAll([], requests)
  {
    if requests == [] {
      logs := [[]];
    } else {
      var before, last := requests[..|requests| - 1], requests[|requests| - 1];
      logs := RepliesRan(l, before);
      RanStep(l, before, l.RepliesTo([], before), logs, last);
      logs := logs + [l.LogAfter(logs[|before|], last)];
      assert before + [last] == requests;
    }
  }

  lemma {:induction false} LogIsTimely(l: Limiter, requests: seq<LoginRequest>, replies: seq<LoginReply>, logs: seq<seq<Event>>,
                                       n: nat, start: int, t: int)
    requires Ran(l, requests, replies, logs) && n <= |requests| && OneAfterAnother(requests, start)
    requires start <= t && forall i :: 0 <= i < n ==> requests[i].decided <= t
    ensures Chronological(logs[n], t)
    decreases n
  {
    if n > 0 {
      var req := requests[n - 1];
      LogIsTimely(l, requests, replies, logs, n - 1, start, req.arrives);
      assert StepAt(l, requests, replies, logs, n - 1);
      OneRequestIsTimely(l, logs[n - 1], req);
      ChronologicalLater(logs[n], req.decided, t);
    }
  }

  lemma {:induction false} TimelyAppend(h: seq<Event>, e: Event, t: int)
    requires Chronological(h, t) && (e.Pass? || e.Fail? ==> e.now == t)
    ensures Chronological(h + [e], t)
  {
    AppendUnfolds(h, e);
  }

  lemma {:induction false} OneRequestIsTimely(l: Limiter, h: seq<Event>, req: LoginRequest)
    requires Chronological(h, req.arrives) && req.arrives <= req.decided
    ensures Chronological(l.LogAfter(h, req), req.decided)
  {
    var keys := l.Keys(req.ip, l.trim(req.username));
    var p, f := Pass(0, req.arrives, keys), Event.Fail(0, req.decided, keys);
    var passed := h + [p];
    LogByReply(l, h, req);
    TimelyAppend(h, p, req.arrives);
    ChronologicalLater(passed, req.arrives, req.decided);
    ChronologicalLater(h, req.arrives, req.decided);
    TimelyAppend(passed, f, req.decided);
    TimelyAppend(passed, Reset, req.decided);
    TimelyAppend(passed + [Reset], f, req.decided);
    TimelyAppend(passed, Success(0, keys), req.decided);
  }

  lemma {:induction false} LogGrows(l: Limiter, requests: seq<LoginRequest>, replies: seq<LoginReply>, logs: seq<seq<Event>>,
                                    n: nat, m: nat)
    requires Ran(l, requests, replies, logs) && n <= m <= |requests|
    ensures logs[n] <= logs[m]
    decreases m
  {
    if n < m {
      LogGrows(l, requests, replies, logs, n, m - 1);
      assert StepAt(l, requests, replies, logs, m - 1);
      LogByReply(l, logs[m - 1], requests[m - 1]);
    }
  }

  lemma {:induction false} OneMoreLogged(l: Limiter, requests: seq<LoginRequest>, replies: seq<LoginReply>, logs: seq<seq<Event>>,
                                         who: Who, n: nat, a: int, b: int)
    requires Ran(l, requests, replies, logs) && n < |requests|
    ensures FailCount(logs[n + 1], 0, KeyFor(who), a, b) ==
      FailCount(logs[n], 0, KeyFor(who), a, b) + if FailedAt(l, requests, replies, who, n, a, b) then 1 else 0
  {
    assert StepAt(l, requests, replies, logs, n);
    FailuresMove(l, logs[n], requests[n], who, a, b);
  }

  /** The failures in the log are the failed requests. */
  lemma {:induction false} FailuresAreLogged(l: Limiter, requests: seq<LoginRequest>, replies: seq<LoginReply>, logs: seq<seq<Event>>,
                                             who: Who, n: nat, a: int, b: int)
    requires Ran(l, requests, replies, logs) && n <= |requests|
    ensures FailCount(logs[n], 0, KeyFor(who), a, b) == Failures(l, requests, replies, who, 0, n, a, b)
    decreases n
  {
    if n > 0 {
      FailuresAreLogged(l, requests, replies, logs, who, n - 1, a, b);
      OneMoreLogged(l, requests, replies, logs, who, n - 1, a, b);
    }
  }

  /** The log holds no live record of `who`. */
  ghost predicate Fresh(h: seq<Event>, who: Who, now: int, window: int)
  {
    var e := Ledger(h, KeyFor(who), window);
    e.None? || Expired(e.value, now, window)
  }

  lemma {:induction false} NoFailuresMeansFresh(h: seq<Event>, who: Who, now: int, window: int)
    requires Chronological(h, now) && FailCount(h, 0, KeyFor(who), now - window, now) == 0
    ensures Fresh(h, who, now, window)
  {
    var key := KeyFor(who);
    var e := Ledger(h, key, window);
    if !Fresh(h, who, now, window) {
      LedgerTime(h, key, window, now);
      LedgerIsBacked(h, key, window, now);
      FailCountWiden(h, key, e.value.first, now, now - window, now);
    }
  }

  /** What a reply does to the record of `who`. */
  ghost function NextRecord(l: Limiter, e: Option<Entry>, req: LoginRequest, reply: LoginReply, who: Who): Option<Entry>
  {
    if !About(l, req, who) then e
    else match reply
      case Accepted => None
      case Unauthorized => Some(Raised(e, req.decided, l.window))
      case _ => e
  }

  lemma {:induction false} OneRecord(l: Limiter, requests: seq<LoginRequest>, replies: seq<LoginReply>, logs: seq<seq<Event>>,
                                     who: Who, n: nat)
    requires Ran(l, requests, replies, logs) && n < |requests| && NoReset(logs[n + 1])
    ensures Ledger(logs[n + 1], KeyFor(who), l.window) ==
      NextRecord(l, Ledger(logs[n], KeyFor(who), l.window), requests[n], replies[n], who)
  {
    assert StepAt(l, requests, replies, logs, n);
    RecordMoves(l, logs[n], requests[n], who);
  }

  /** From a first failure on, the record counts the failures since, while the window lasts. */
  lemma {:induction false} RecordCounts(l: Limiter, requests: seq<LoginRequest>, replies: seq<LoginReply>, logs: seq<seq<Event>>,
                                        who: Who, i: nat, n: nat, start: int)
    requires OneAfterAnother(requests, start) && Ran(l, requests, replies, logs)
    requires i < n <= |requests| && 0 <= l.window && NoSuccess(l, requests, replies, who, i, n) && NoReset(logs[n])
    requires var first := requests[i].decided;
      && FailedAt(l, requests, replies, who, i, first, first) && Fresh(logs[i], who, first, l.window)
      && requests[n - 1].decided <= first + l.window
    ensures var first := requests[i].decided;
      Ledger(logs[n], KeyFor(who), l.window) == Some(Entry(Failures(l, requests, replies, who, i, n, first, first + l.window), first))
    decreases n
  {
    var first := requests[i].decided;
    OneRecord(l, requests, replies, logs, who, n - 1);
    if n == i + 1 {
      assert Failures(l, requests, replies, who, i, i, first, first + l.window) == 0;
    } else {
      LogGrows(l, requests, replies, logs, n - 1, n);
      RecordCounts(l, requests, replies, logs, who, i, n - 1, start);
    }
  }

  // ---------------------------------------------------------------------
  // Who is refused.

  /** Whoever has worn out the allowance is refused until the window of the first failure
      ends, whatever else the request says, unless the table was reset meanwhile. */
  lemma {:induction false} WornOutIsRefused(l: Limiter, requests: seq<LoginRequest>, replies: seq<LoginReply>, logs: seq<seq<Event>>,
                                            who: Who, i: nat, j: nat, start: int)
    requires OneAfterAnother(requests, start) && Ran(l, requests, replies, logs) && 0 <= l.window
    requires i < j < |requests| && WornOut(l, requests, replies, who, i, j) && NoReset(logs[j])
    ensures replies[j] == TooManyAttempts
  {
    var first := requests[i].decided;
    LogIsTimely(l, requests, replies, logs, i, start, first);
    FailuresAreLogged(l, requests, replies, logs, who, i, first - l.window, first);
    NoFailuresMeansFresh(logs[i], who, first, l.window);
    RecordCounts(l, requests, replies, logs, who, i, j, start);
    assert StepAt(l, requests, replies, logs, j);
    LockedIsRefused(l, logs[j], requests[j], who);
  }

  lemma {:induction false} LockedIsRefused(l: Limiter, h: seq<Event>, req: LoginRequest, who: Who)
    requires Locked(h, KeyFor(who), req.arrives, l.maxFailures, l.window)
    requires About(l, req, who) && l.ReplyTo(h, req) != BadRequest
    ensures l.ReplyTo(h, req) == TooManyAttempts
  {
    KeysAreWho(l, req, who);
  }

  lemma {:induction false} RefusedOnAccountOf(l: Limiter, h: seq<Event>, req: LoginRequest) returns (who: Who)
    requires l.ReplyTo(h, req) == TooManyAttempts && Chronological(h, req.arrives)
    ensures About(l, req, who) && FailCount(h, 0, KeyFor(who), req.arrives - l.window, req.arrives) >= l.maxFailures
  {
    var key :| key in l.Keys(req.ip, l.trim(req.username)) && Locked(h, key, req.arrives, l.maxFailures, l.window);
    who := EveryKeyIsSomebody(l, req, key);
    LockoutIsDeserved(h, key, req.arrives, l.maxFailures, l.window);
  }

  /** Request j is about `who`, who failed often enough within the window that ends then. */
  ghost predicate Deserved(l: Limiter, requests: seq<LoginRequest>, replies: seq<LoginReply>, who: Who, j: nat)
    requires j < |requests| == |replies|
  {
    var now := requests[j].arrives;
    About(l, requests[j], who) && Failures(l, requests, replies, who, 0, j, now - l.window, now) >= l.maxFailures
  }

  /** Nobody is refused who shares neither name nor address with enough failures within the
      window ending now. */
  lemma {:induction false} RefusalIsDeserved(l: Limiter, requests: seq<LoginRequest>, replies: seq<LoginReply>, logs: seq<seq<Event>>,
                                             j: nat, start: int)
    requires OneAfterAnother(requests, start) && Ran(l, requests, replies, logs)
    requires j < |requests| && replies[j] == TooManyAttempts
    ensures exists who :: Deserved(l, requests, replies, who, j)
  {
    var now := requests[j].arrives;
    LogIsTimely(l, requests, replies, logs, j, start, now);
    assert StepAt(l, requests, replies, logs, j);
    var who := RefusedOnAccountOf(l, logs[j], requests[j]);
    FailuresAreLogged(l, requests, replies, logs, who, j, now - l.window, now);
    assert Deserved(l, requests, replies, who, j);
  }

  lemma {:induction false} NoneFailed(l: Limiter, requests: seq<LoginRequest>, replies: seq<LoginReply>, who: Who,
                                      n: nat, a: int, b: int)
    requires n <= |requests| == |replies|
    requires forall i :: 0 <= i < n && replies[i] == Unauthorized ==> !About(l, requests[i], who)
    ensures Failures(l, requests, replies, who, 0, n, a, b) == 0
  {
    if n > 0 { NoneFailed(l, requests, replies, who, n - 1, a, b); }
  }

  /** A request that shares neither name nor address with any failed one is not refused. */
  lemma {:induction false} StrangersAreServed(l: Limiter, requests: seq<LoginRequest>, replies: seq<LoginReply>, logs: seq<seq<Event>>,
                                              j: nat, start: int)
    requires OneAfterAnother(requests, start) && Ran(l, requests, replies, logs) && 1 <= l.maxFailures
    requires j < |requests|
    requires forall i, who :: 0 <= i < j && replies[i] == Unauthorized && About(l, requests[i], who) ==> !About(l, requests[j], who)
    ensures replies[j] != TooManyAttempts
  {
    if replies[j] == TooManyAttempts {
      RefusalIsDeserved(l, requests, replies, logs, j, start);
      var who :| Deserved(l, requests, replies, who, j);
      NoneFailed(l, requests, replies, who, j, requests[j].arrives - l.window, requests[j].arrives);
    }
  }

  // ---------------------------------------------------------------------
  // Serving a run.

  lemma {:induction false} NeverClearedSoFar(l: Limiter, requests: seq<LoginRequest>, replies: seq<LoginReply>, logs: seq<seq<Event>>,
                                             who: Who, n: nat)
    requires Ran(l, requests, replies, logs)
    requires n <= |requests| && NoSuccess(l, requests, replies, who, 0, n) && NoReset(logs[n])
    ensures NeverCleared(logs[n], 0, KeyFor(who))
    decreases n
  {
    if n > 0 {
      LogGrows(l, requests, replies, logs, n - 1, n);
      NeverClearedSoFar(l, requests, replies, logs, who, n - 1);
      assert StepAt(l, requests, replies, logs, n - 1);
      LogByReply(l, logs[n - 1], requests[n - 1]);
      KeysAreWho(l, requests[n - 1], who);
    }
  }

  /** Every name and address that occurs is one of these. */
  predicate Among(l: Limiter, requests: seq<LoginRequest>, names: set<string>, addresses: set<string>)
  {
    forall i :: 0 <= i < |requests| ==>
      l.lower(l.trim(l.trim(requests[i].username))) in names && l.trim(requests[i].ip) in addresses
  }

  lemma {:induction false} KeysOf(people: set<Who>) returns (keys: set<string>)
    ensures |keys| <= |people| && forall who :: who in people ==> KeyFor(who) in keys
    decreases |people|
  {
    keys := {};
    if people != {} {
      var who :| who in people;
      var rest := KeysOf(people - {who});
      keys := rest + {KeyFor(who)};
    }
  }

  lemma {:induction false} People(names: set<string>, addresses: set<string>) returns (people: set<Who>)
    ensures |people| <= |names| + |addresses|
    ensures (forall n :: n in names ==> Name(n) in people) && forall a :: a in addresses ==> Address(a) in people
    decreases |names| + |addresses|
  {
    people := {};
    if names != {} {
      var n :| n in names;
      var rest := People(names - {n}, addresses);
      people := rest + {Name(n)};
    } else if addresses != {} {
      var a :| a in addresses;
      var rest := People(names, addresses - {a});
      people := rest + {Address(a)};
    }
  }

  /** With few names and addresses the table is never reset. */
  lemma {:induction false} FewPeopleNoReset(l: Limiter, requests: seq<LoginRequest>, names: set<string>, addresses: set<string>)
    requires Among(l, requests, names, addresses) && |names| + |addresses| < 100_000
    ensures NoReset(l.LogAfterAll([], requests))
  {
    var people := People(names, addresses);
    var keys := KeysOf(people);
    forall i | 0 <= i < |requests| ensures Unlucky(l, requests[i], keys, "") {
      forall key | key in l.Keys(requests[i].ip, l.trim(requests[i].username)) ensures key in keys && key != "" {
        var who := EveryKeyIsSomebody(l, requests[i], key);
        assert who in people;
      }
    }
    UnluckyRun(l, [], requests, keys, "");
  }

  /** Serving a fresh limiter.  Whoever has worn out the allowance is refused; whoever is
      refused deserves it; and while fewer names and addresses occur than the table holds,
      whoever never logs in fails at most `2 * maxFailures - 1` times per window. */
  method ServePeople(l: Limiter, requests: seq<LoginRequest>, ghost names: set<string>, ghost addresses: set<string>)
    returns (replies: seq<LoginReply>, ghost logs: seq<seq<Event>>)
    requires l.Valid() && l.history == [] && OneAfterAnother(requests, l.clock)
    requires Among(l, requests, names, addresses)
    modifies l
    ensures l.Valid() && Ran(l, requests, replies, logs) && l.history == logs[|requests|]
    ensures forall who, i: nat, j: nat :: i < j < |requests| && WornOut(l, requests, replies, who, i, j) && NoReset(logs[j]) ==>
      replies[j] == TooManyAttempts
    ensures forall j: nat :: j < |requests| && replies[j] == TooManyAttempts ==> exists who :: Deserved(l, requests, replies, who, j)
    ensures |names| + |addresses| < 100_000 ==> forall j :: 0 <= j < |logs| ==> NoReset(logs[j])
    ensures |names| + |addresses| < 100_000 ==>
      forall who, a, b :: b - a <= l.window && NoSuccess(l, requests, replies, who, 0, |requests|) ==>
        Failures(l, requests, replies, who, 0, |requests|, a, b) <= 2 * l.maxFailures - 1
  {
    ghost var start := l.clock;
    replies := ServeLogins(l, requests);
    logs := RepliesRan(l, requests);
    ServedIsRun(l, requests, replies, logs, start);
    if |names| + |addresses| < 100_000 {
      FewPeopleNoReset(l, requests, names, addresses);
      forall j: nat | j < |logs| ensures NoReset(logs[j]) { LogGrows(l, requests, replies, logs, j, |requests|); }
      forall who, a, b | b - a <= l.window && NoSuccess(l, requests, replies, who, 0, |requests|)
        ensures Failures(l, requests, replies, who, 0, |requests|, a, b) <= 2 * l.maxFailures - 1
      {
        NeverClearedSoFar(l, requests, replies, logs, who, |requests|);
        FailuresAreLogged(l, requests, replies, logs, who, |requests|, a, b);
      }
    }
  }

  lemma {:induction false} ServedIsRun(l: Limiter, requests: seq<LoginRequest>, replies: seq<LoginReply>, logs: seq<seq<Event>>,
                                       start: int)
    requires OneAfterAnother(requests, start) && Ran(l, requests, replies, logs) && 0 <= l.window
    ensures forall who, i: nat, j: nat :: i < j < |requests| && WornOut(l, requests, replies, who, i, j) && NoReset(logs[j]) ==>
      replies[j] == TooManyAttempts
    ensures forall j: nat :: j < |requests| && replies[j] == TooManyAttempts ==> exists who :: Deserved(l, requests, replies, who, j)
  {
    forall who, i: nat, j: nat | i < j < |requests| && WornOut(l, requests, replies, who, i, j) && NoReset(logs[j])
      ensures replies[j] == TooManyAttempts
    {
      WornOutIsRefused(l, requests, replies, logs, who, i, j, start);
    }
    forall j: nat | j < |requests| && replies[j] == TooManyAttempts ensures exists who :: Deserved(l, requests, replies, who, j) {
      RefusalIsDeserved(l, requests, replies, logs, j, start);
    }
  }
}
