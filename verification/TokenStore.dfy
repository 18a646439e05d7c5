/** The in-memory API-token cache (internal/server/api/api_token_store.go) against the
    token table it caches (internal/server/db/users_tokens.go).

    A refresh reads the table and installs what it read later, so creations, revocations
    and other refreshes can come in between.  The first half is the cache itself; the
    second is every interleaving of its users. */
module TokenStore {
  import opened Prelude

  const MINUTE: int := 60_000_000_000

  datatype Entry = Entry(id: string, role: string, subject: string, expires: Option<int>)

  predicate Expired(e: Entry, now: int)
  {
    e.expires.Some? && e.expires.value <= now
  }

  /** A token's answer: its entry if known and not expired. */
  function Resolve(m: map<string, Entry>, hash: string, now: int): Option<Entry>
  {
    if hash in m && !Expired(m[hash], now) then Some(m[hash]) else None
  }

  // ---------------------------------------------------------------------
  // The cache.

  datatype ActiveToken = ActiveToken(hash: string, entry: Entry)

  /** What happened to the use times: a recorded use, or a refresh that kept only `ids`. */
  datatype Use = Touch(id: string, now: int) | Keep(ids: set<string>)

  /** The last recorded use of `id`, unless a refresh dropped it since. */
  ghost function LastTouch(uses: seq<Use>, id: string): Option<int>
  {
    if uses == [] then None else
      var before := LastTouch(uses[..|uses| - 1], id);
      match uses[|uses| - 1]
      case Touch(i, now) => if i == id then Some(now) else before
      case Keep(ids) => if id in ids then before else None
  }

  /** Every recorded use comes a minute or more after the one remembered. */
  ghost predicate Spaced(uses: seq<Use>)
  {
    uses == [] ||
    var before, last := uses[..|uses| - 1], uses[|uses| - 1];
    Spaced(before) &&
    (last.Touch? && LastTouch(before, last.id).Some? ==> last.now - LastTouch(before, last.id).value >= MINUTE)
  }

  /** While every refresh keeps `id`, any two recorded uses of it are a minute apart. */
  lemma {:induction false} UsesAreSpaced(uses: seq<Use>, id: string, i: nat, j: nat)
    requires Spaced(uses) && i < j < |uses|
    requires uses[i].Touch? && uses[j].Touch? && uses[i].id == uses[j].id == id
    requires forall k :: i < k < j && uses[k].Keep? ==> id in uses[k].ids
    ensures uses[j].now - uses[i].now >= 60_000_000_000
    decreases |uses|
  {
    var before := uses[..|uses| - 1];
    if j < |uses| - 1 {
      UsesAreSpaced(before, id, i, j);
    } else {
      var u := RememberedSince(before, id, i);
    }
  }

  lemma {:induction false} RememberedSince(uses: seq<Use>, id: string, i: nat) returns (u: int)
    requires Spaced(uses) && i < |uses| && uses[i].Touch? && uses[i].id == id
    requires forall k :: i < k < |uses| && uses[k].Keep? ==> id in uses[k].ids
    ensures LastTouch(uses, id) == Some(u) && u >= uses[i].now
    decreases |uses|
  {
    var before, last := uses[..|uses| - 1], uses[|uses| - 1];
    if i == |uses| - 1 {
      u := last.now;
    } else {
      u := RememberedSince(before, id, i);
      if last.Touch? && last.id == id { u := last.now; }
    }
  }

  class Store {
    /** SHA-256 in hexadecimal. */
    const digest: string -> string
    var byHash: map<string, Entry>
    var lastSeen: map<string, int>
    ghost var uses: seq<Use>

    constructor (digest: string -> string)
      ensures Valid() && byHash == map[] && uses == [] && this.digest == digest
    {
      this.digest, byHash, lastSeen, uses := digest, map[], map[], [];
    }

    ghost predicate Valid()
      reads this
    {
      Spaced(uses) && forall id :: Remembered(id) == LastTouch(uses, id)
    }

    ghost function Remembered(id: string): Option<int>
      reads this
    {
      if id in lastSeen then Some(lastSeen[id]) else None
    }

    /** The second half of a refresh: the tokens read replace the cache, and use times of
        tokens no longer active are forgotten.  A repeated hash keeps its last token. */
    method Install(tokens: seq<ActiveToken>)
      requires Valid()
      modifies this
      ensures Valid()
      ensures byHash == Snapshot(tokens)
      ensures lastSeen == map id | id in old(lastSeen) && id in Ids(tokens) :: old(lastSeen)[id]
      ensures uses == old(uses) + [Keep(Ids(tokens))]
    {
      var next: map<string, Entry>, active: set<string> := map[], {};
      for i := 0 to |tokens|
        invariant next == Snapshot(tokens[..i]) && active == Ids(tokens[..i])
      {
        assert tokens[..i + 1][..i] == tokens[..i];
        next := next[tokens[i].hash := tokens[i].entry];
        active := active + {tokens[i].entry.id};
      }
      assert tokens[..|tokens|] == tokens;
      byHash := next;
      lastSeen := map id | id in lastSeen && id in active :: lastSeen[id];
      assert (uses + [Keep(active)])[..|uses|] == uses;
      uses := uses + [Keep(active)];
    }

    method Put(hash: string, e: Entry)
      requires Valid()
      modifies this`byHash
      ensures Valid() && byHash == AfterPut(old(byHash), hash, e)
    {
      if hash == "" {
        return;
      }
      byHash := byHash[hash := e];
    }

    method Evict(hash: string)
      requires Valid()
      modifies this`byHash
      ensures Valid() && byHash == AfterEvict(old(byHash), hash)
    {
      if hash == "" {
        return;
      }
      byHash := byHash - {hash};
    }

    /** The entry of a known secret, until the moment it expires, if it ever does. */
    method Lookup(secret: string, now: int) returns (e: Option<Entry>)
      ensures e.Some? <==>
        && secret != "" && digest(secret) in byHash
        && (byHash[digest(secret)].expires.None? || now < byHash[digest(secret)].expires.value)
      ensures e.Some? ==> e.value == byHash[digest(secret)]
      ensures secret != "" ==> e == Resolve(byHash, digest(secret), now)
    {
      if secret == "" {
        return None;
      }
      var h := digest(secret);
      if h !in byHash {
        return None;
      }
      if byHash[h].expires.Some? && !(byHash[h].expires.value > now) {
        return None;
      }
      e := Some(byHash[h]);
    }

    /** Whether to record this use: not if one is remembered from within the minute. */
    method MarkUsed(id: string, now: int) returns (touch: bool)
      requires Valid()
      modifies this`lastSeen, this`uses
      ensures Valid()
      ensures touch == (id != "" && (old(LastTouch(uses, id)).None? || now - old(LastTouch(uses, id)).value >= MINUTE))
      ensures uses == old(uses) + if touch then [Touch(id, now)] else []
    {
      assert Remembered(id) == LastTouch(uses, id);
      if id == "" || (id in lastSeen && now - lastSeen[id] < MINUTE) {
        return false;
      }
      lastSeen := lastSeen[id := now];
      assert (uses + [Touch(id, now)])[..|uses|] == uses;
      uses := uses + [Touch(id, now)];
      touch := true;
    }
  }

  function AfterPut(cache: map<string, Entry>, hash: string, e: Entry): map<string, Entry>
  {
    if hash == "" then cache else cache[hash := e]
  }

  function AfterEvict(cache: map<string, Entry>, hash: string): map<string, Entry>
  {
    if hash == "" then cache else cache - {hash}
  }

  function Snapshot(tokens: seq<ActiveToken>): map<string, Entry>
  {
    if tokens == [] then map[] else
      Snapshot(tokens[..|tokens| - 1])[tokens[|tokens| - 1].hash := tokens[|tokens| - 1].entry]
  }

  function Hashes(tokens: seq<ActiveToken>): set<string>
  {
    set i | 0 <= i < |tokens| :: tokens[i].hash
  }

  lemma HashesStep(before: seq<ActiveToken>, last: ActiveToken)
    ensures Hashes(before + [last]) == Hashes(before) + {last.hash}
  {
    var all := before + [last];
    assert all[|before|] == last;
    forall i | 0 <= i < |before| ensures all[i] == before[i] && before[i].hash in Hashes(all) { assert all[i] == before[i]; }
  }

  /** Installing a listing of the active tokens makes the cache exactly those. */
  lemma {:induction false} SnapshotOfListing(tokens: seq<ActiveToken>, m: map<string, Entry>)
    requires m.Keys == Hashes(tokens)
    requires forall i :: 0 <= i < |tokens| ==> m[tokens[i].hash] == tokens[i].entry
    ensures Snapshot(tokens) == m
  {
    if tokens != [] {
      var before, last := tokens[..|tokens| - 1], tokens[|tokens| - 1];
      assert tokens == before + [last];
      HashesStep(before, last);
      var rest := map h | h in m && h in Hashes(before) :: m[h];
      assert rest.Keys == Hashes(before);
      forall i | 0 <= i < |before| ensures rest[before[i].hash] == before[i].entry { assert tokens[i] == before[i]; }
      SnapshotOfListing(before, rest);
      assert m[last.hash] == last.entry;
      assert rest[last.hash := last.entry] == m;
    }
  }

  function Ids(tokens: seq<ActiveToken>): set<string>
  {
    if tokens == [] then {} else Ids(tokens[..|tokens| - 1]) + {tokens[|tokens| - 1].entry.id}
  }

  /** The use times an install keeps are those of the tokens in the listing. */
  lemma {:induction false} IdsAreListed(tokens: seq<ActiveToken>, id: string)
    ensures id in Ids(tokens) <==> exists i :: 0 <= i < |tokens| && tokens[i].entry.id == id
  {
    if tokens != [] { IdsAreListed(tokens[..|tokens| - 1], id); }
  }

  // ---------------------------------------------------------------------
  // All interleavings of creators, revokers and refreshers.

  datatype Row = Row(entry: Entry, revoked: bool)

  /** A refresh under way: what it read, and the tokens created and revoked since. */
  datatype Read = Read(tokens: map<string, Entry>, created: set<string>, revoked: set<string>)

  /** `dirty` holds the hashes for which nothing is promised. */
  datatype World = World(table: map<string, Row>, cache: map<string, Entry>, pending: map<nat, Read>,
                         dirty: set<string>, now: int)

  /** Token creation and revocation are a table update and then a cache update; a refresh
      is a read and then an install, or a failure. */
  datatype Step =
    | CommitCreate(hash: string, entry: Entry)
    | PutEntry(hash: string, entry: Entry)
    | CommitRevoke(hash: string)
    | EvictEntry(hash: string)
    | BeginRefresh(r: nat)
    | InstallRefresh(r: nat)
    | FailRefresh(r: nat)
    | Tick(now: int)

  /** ActiveAPITokens. */
  function Active(table: map<string, Row>, now: int): map<string, Entry>
  {
    map h | h in table && !table[h].revoked && !Expired(table[h].entry, now) :: table[h].entry
  }

  predicate Enabled(w: World, s: Step)
  {
    match s
    case CommitCreate(h, _) => h !in w.table
    case CommitRevoke(h) => h in w.table
    case BeginRefresh(r) => r !in w.pending
    case InstallRefresh(r) => r in w.pending
    case FailRefresh(r) => r in w.pending
    case Tick(t) => w.now <= t
    case _ => true
  }

  ghost function Next(w: World, s: Step): World
    requires Enabled(w, s)
  {
    match s
    case CommitCreate(h, e) =>
      w.(table := w.table[h := Row(e, false)], dirty := w.dirty + {h},
         pending := map r | r in w.pending :: w.pending[r].(created := w.pending[r].created + {h}))
    case CommitRevoke(h) =>
      if w.table[h].revoked then w else
        w.(table := w.table[h := w.table[h].(revoked := true)], dirty := w.dirty + {h},
           pending := map r | r in w.pending :: w.pending[r].(revoked := w.pending[r].revoked + {h}))
    case PutEntry(h, e) =>
      if h == "" then w else w.(cache := AfterPut(w.cache, h, e),
         dirty := if h in w.table && w.table[h] == Row(e, false) then w.dirty - {h} else w.dirty + {h})
    case EvictEntry(h) =>
      if h == "" then w else w.(cache := AfterEvict(w.cache, h),
         dirty := if h !in w.table || w.table[h].revoked then w.dirty - {h} else w.dirty + {h})
    case BeginRefresh(r) => w.(pending := w.pending[r := Read(Active(w.table, w.now), {}, {})])
    case InstallRefresh(r) =>
      w.(cache := w.pending[r].tokens, pending := w.pending - {r}, dirty := w.pending[r].created + w.pending[r].revoked)
    case FailRefresh(r) => w.(pending := w.pending - {r})
    case Tick(t) => w.(now := t)
  }

  /** A listing of `m`, in any order. */
  ghost predicate Lists(tokens: seq<ActiveToken>, m: map<string, Entry>)
  {
    m.Keys == Hashes(tokens) && forall i :: 0 <= i < |tokens| ==> m[tokens[i].hash] == tokens[i].entry
  }

  /** The steps do to the cache what the methods of `Store` do, given a listing of what was
      read. */
  lemma StoreTakesTheSteps(w: World, s: Step, tokens: seq<ActiveToken>)
    requires Enabled(w, s)
    requires s.InstallRefresh? ==> Lists(tokens, w.pending[s.r].tokens)
    ensures Next(w, s).cache ==
      match s
      case PutEntry(h, e) => AfterPut(w.cache, h, e)
      case EvictEntry(h) => AfterEvict(w.cache, h)
      case InstallRefresh(_) => Snapshot(tokens)
      case _ => w.cache
  {
    if s.InstallRefresh? { SnapshotOfListing(tokens, w.pending[s.r].tokens); }
  }

  /** The cache and the table give the same answer for `h`, now and from now on. */
  ghost predicate Agrees(cache: map<string, Entry>, table: map<string, Row>, h: string, now: int)
  {
    forall t :: now <= t ==> Resolve(cache, h, t) == Resolve(Active(table, t), h, t)
  }

  /** What a read is worth at a later moment. */
  ghost predicate ReadIsFaithful(rd: Read, table: map<string, Row>, now: int)
  {
    && (forall h :: h in rd.tokens ==>
          h in table && rd.tokens[h] == table[h].entry && h !in rd.created && (table[h].revoked ==> h in rd.revoked))
    && (forall h :: h in table && h !in rd.created && (table[h].revoked ==> h in rd.revoked) && h !in rd.tokens ==>
          Expired(table[h].entry, now))
    && (forall h :: h in rd.created ==> h in table && (table[h].revoked ==> h in rd.revoked))
    && (forall h :: h in rd.revoked ==> h in table && table[h].revoked)
  }

  ghost predicate Inv(w: World)
  {
    && (forall h :: h !in w.dirty ==> Agrees(w.cache, w.table, h, w.now))
    && (forall r :: r in w.pending ==> ReadIsFaithful(w.pending[r], w.table, w.now))
  }

  lemma FaithfulReadAgrees(rd: Read, table: map<string, Row>, now: int, h: string)
    requires ReadIsFaithful(rd, table, now) && h !in rd.created && h !in rd.revoked
    ensures Agrees(rd.tokens, table, h, now)
  {
  }

  lemma StepKeepsAgreement(w: World, s: Step, h: string)
    requires Inv(w) && Enabled(w, s) && h !in Next(w, s).dirty
    ensures Agrees(Next(w, s).cache, Next(w, s).table, h, Next(w, s).now)
  {
    match s {
      case InstallRefresh(r) => FaithfulReadAgrees(w.pending[r], w.table, w.now, h);
      case PutEntry(g, e) => if h != g { assert Agrees(w.cache, w.table, h, w.now); }
      case EvictEntry(g) => if h != g { assert Agrees(w.cache, w.table, h, w.now); }
      case _ => assert Agrees(w.cache, w.table, h, w.now);
    }
  }

  lemma StepKeepsRead(w: World, s: Step, r: nat)
    requires Inv(w) && Enabled(w, s) && r in Next(w, s).pending
    ensures ReadIsFaithful(Next(w, s).pending[r], Next(w, s).table, Next(w, s).now)
  {
    if r in w.pending { assert ReadIsFaithful(w.pending[r], w.table, w.now); }
  }

  /** Every step of every interleaving keeps the invariant. */
  lemma StepKeepsInv(w: World, s: Step)
    requires Inv(w) && Enabled(w, s)
    ensures Inv(Next(w, s))
  {
    var v := Next(w, s);
    forall h | h !in v.dirty ensures Agrees(v.cache, v.table, h, v.now) { StepKeepsAgreement(w, s, h); }
    forall r | r in v.pending ensures ReadIsFaithful(v.pending[r], v.table, v.now) { StepKeepsRead(w, s, r); }
  }

  ghost predicate Possible(w: World, steps: seq<Step>)
    decreases |steps|
  {
    steps == [] || (Enabled(w, steps[0]) && Possible(Next(w, steps[0]), steps[1..]))
  }

  ghost function Run(w: World, steps: seq<Step>): World
    requires Possible(w, steps)
    decreases |steps|
  {
    if steps == [] then w else Run(Next(w, steps[0]), steps[1..])
  }

  lemma {:induction false} RunKeepsInv(w: World, steps: seq<Step>)
    requires Inv(w) && Possible(w, steps)
    ensures Inv(Run(w, steps))
    decreases |steps|
  {
    if steps != [] {
      StepKeepsInv(w, steps[0]);
      RunKeepsInv(Next(w, steps[0]), steps[1..]);
    }
  }

  /** Cache and table agree on everything. */
  ghost predicate InSync(w: World)
  {
    forall h :: Agrees(w.cache, w.table, h, w.now)
  }

  /** From any cache whatever, a refresh that nothing overlapped brings cache and table
      together. */
  lemma QuietRefreshSyncs(w: World, r: nat)
    requires r in w.pending && ReadIsFaithful(w.pending[r], w.table, w.now)
    requires w.pending[r].created == {} && w.pending[r].revoked == {}
    ensures InSync(Next(w, InstallRefresh(r)))
  {
    forall h ensures Agrees(w.pending[r].tokens, w.table, h, w.now) {
      FaithfulReadAgrees(w.pending[r], w.table, w.now, h);
    }
  }

  /** With no refresh under way, a creation or a revocation, carried through, leaves cache
      and table in step if they were, if and only if the hash is not empty, which a digest
      never is, or the token could not be used anyway. */
  lemma QuietChangeKeepsSync(w: World, h: string, e: Entry)
    requires Inv(w) && w.dirty == {} && w.pending == map[]
    ensures h !in w.table ==>
      (InSync(Run2(w, CommitCreate(h, e), PutEntry(h, e))) <==> h != "" || Expired(e, w.now))
    ensures h in w.table ==>
      (InSync(Run2(w, CommitRevoke(h), EvictEntry(h))) <==> h != "" || w.table[h].revoked || Expired(w.table[h].entry, w.now))
  {
    if h !in w.table {
      CreateKeepsSync(w, h, e);
    } else {
      RevokeKeepsSync(w, h);
    }
  }

  lemma CleanIsInSync(w: World)
    requires Inv(w) && w.dirty == {}
    ensures InSync(w)
  {
    forall h ensures Agrees(w.cache, w.table, h, w.now) { assert h !in w.dirty; }
  }

  lemma CreateKeepsSync(w: World, h: string, e: Entry)
    requires Inv(w) && w.dirty == {} && w.pending == map[] && h !in w.table
    ensures InSync(Run2(w, CommitCreate(h, e), PutEntry(h, e))) <==> h != "" || Expired(e, w.now)
  {
    var v := Next(w, CommitCreate(h, e));
    var u := Next(v, PutEntry(h, e));
    StepKeepsInv(w, CommitCreate(h, e));
    StepKeepsInv(v, PutEntry(h, e));
    assert Agrees(w.cache, w.table, h, w.now);
    if h != "" {
      CleanIsInSync(u);
    } else {
      assert u == v;
      assert Resolve(w.cache, h, w.now) == None;
      if Expired(e, w.now) {
        forall g ensures Agrees(v.cache, v.table, g, v.now) { if g != h { assert g !in v.dirty; } }
      } else {
        assert !Agrees(v.cache, v.table, h, v.now) by {
          assert Resolve(v.cache, h, v.now) != Resolve(Active(v.table, v.now), h, v.now);
        }
      }
    }
  }

  lemma RevokeKeepsSync(w: World, h: string)
    requires Inv(w) && w.dirty == {} && w.pending == map[] && h in w.table
    ensures InSync(Run2(w, CommitRevoke(h), EvictEntry(h))) <==>
      h != "" || w.table[h].revoked || Expired(w.table[h].entry, w.now)
  {
    var v := Next(w, CommitRevoke(h));
    var u := Next(v, EvictEntry(h));
    StepKeepsInv(w, CommitRevoke(h));
    StepKeepsInv(v, EvictEntry(h));
    assert Agrees(w.cache, w.table, h, w.now);
    if h != "" {
      CleanIsInSync(u);
    } else {
      assert u == v;
      if w.table[h].revoked || Expired(w.table[h].entry, w.now) {
        forall g ensures Agrees(v.cache, v.table, g, v.now) { if g != h { assert g !in v.dirty; } }
      } else {
        assert !Agrees(v.cache, v.table, h, v.now) by {
          assert Resolve(v.cache, h, v.now) != Resolve(Active(v.table, v.now), h, v.now);
        }
      }
    }
  }

  // ---------------------------------------------------------------------
  // What a token is good for, from its creation to its revocation.

  /** The token is in the table, in the cache, and in every read under way. */
  ghost predicate Planted(w: World, h: string, e: Entry)
  {
    && h in w.table && w.table[h] == Row(e, false)
    && h in w.cache && w.cache[h] == e
    && forall r :: r in w.pending ==> h in w.pending[r].tokens && w.pending[r].tokens[h] == e
  }

  /** The token is revoked, and neither in the cache nor in any read under way. */
  ghost predicate Uprooted(w: World, h: string)
  {
    && h in w.table && w.table[h].revoked && h !in w.cache
    && forall r :: r in w.pending ==> h !in w.pending[r].tokens
  }

  /** Nobody caches anything under `h` on its own. */
  ghost predicate NeverPut(steps: seq<Step>, h: string)
  {
    forall s :: s in steps ==> !(s.PutEntry? && s.hash == h)
  }

  ghost predicate NeverRevoked(steps: seq<Step>, h: string)
  {
    CommitRevoke(h) !in steps && EvictEntry(h) !in steps
  }

  lemma {:induction false} TimeGoesOn(w: World, steps: seq<Step>)
    requires Possible(w, steps)
    ensures w.now <= Run(w, steps).now
    decreases |steps|
  {
    if steps != [] { TimeGoesOn(Next(w, steps[0]), steps[1..]); }
  }

  lemma {:induction false} StaysPlanted(w: World, steps: seq<Step>, h: string, e: Entry)
    requires Possible(w, steps) && Planted(w, h, e) && NeverPut(steps, h) && NeverRevoked(steps, h)
    requires e.expires.None? || Run(w, steps).now < e.expires.value
    ensures Planted(Run(w, steps), h, e)
    decreases |steps|
  {
    if steps != [] {
      var v := Next(w, steps[0]);
      TimeGoesOn(v, steps[1..]);
      assert steps[0] in steps;
      assert Planted(v, h, e);
      StaysPlanted(v, steps[1..], h, e);
    }
  }

  /** A token created while no refresh is under way is found by every later lookup until it
      expires, and for good if it does not, whatever others do meanwhile. */
  lemma NewTokenWorks(w: World, h: string, e: Entry, steps: seq<Step>)
    requires h != "" && h !in w.table && w.pending == map[]
    requires Possible(Run2(w, CommitCreate(h, e), PutEntry(h, e)), steps) && NeverPut(steps, h) && NeverRevoked(steps, h)
    ensures var v := Run(Run2(w, CommitCreate(h, e), PutEntry(h, e)), steps);
      e.expires.None? || v.now < e.expires.value ==> h in v.cache && v.cache[h] == e && Resolve(v.cache, h, v.now) == Some(e)
  {
    var start := Run2(w, CommitCreate(h, e), PutEntry(h, e));
    if e.expires.None? || Run(start, steps).now < e.expires.value { StaysPlanted(start, steps, h, e); }
  }

  lemma {:induction false} StaysUprooted(w: World, steps: seq<Step>, h: string)
    requires Possible(w, steps) && Uprooted(w, h) && NeverPut(steps, h)
    ensures Uprooted(Run(w, steps), h)
    decreases |steps|
  {
    if steps != [] {
      assert steps[0] in steps;
      assert Uprooted(Next(w, steps[0]), h);
      StaysUprooted(Next(w, steps[0]), steps[1..], h);
    }
  }

  /** A token revoked while no refresh is under way is never found again. */
  lemma RevokedTokenStaysOut(w: World, h: string, steps: seq<Step>)
    requires h != "" && h in w.table && w.pending == map[]
    requires Possible(Run2(w, CommitRevoke(h), EvictEntry(h)), steps) && NeverPut(steps, h)
    ensures h !in Run(Run2(w, CommitRevoke(h), EvictEntry(h)), steps).cache
  {
    StaysUprooted(Run2(w, CommitRevoke(h), EvictEntry(h)), steps, h);
  }

  /** A listing holds a token from its creation until it expires or is revoked. */
  lemma ActiveMeans(table: map<string, Row>, h: string, now: int)
    ensures h in Active(table, now) <==>
      h in table && !table[h].revoked && (table[h].entry.expires.None? || now < table[h].entry.expires.value)
    ensures h in Active(table, now) ==> Active(table, now)[h] == table[h].entry
  {
  }

  ghost function Run2(w: World, a: Step, b: Step): World
    requires Enabled(w, a) && Enabled(Next(w, a), b)
  {
    Next(Next(w, a), b)
  }

  /** An overlapped refresh leaves a token wrong exactly when, since the read, it was
      created or revoked but not both, and it has not expired. */
  lemma OverlappedRefresh(w: World, r: nat, h: string)
    requires r in w.pending && ReadIsFaithful(w.pending[r], w.table, w.now)
    ensures var v, rd := Next(w, InstallRefresh(r)), w.pending[r];
      (Resolve(v.cache, h, v.now) == Resolve(Active(v.table, v.now), h, v.now)) <==>
        ((h in rd.created <==> h in rd.revoked) || Expired(w.table[h].entry, w.now))
  {
    if h in w.pending[r].created { assert h in w.table; }
    if h in w.pending[r].revoked { assert h in w.table; }
  }

  /** A revoked token can come back: a refresh read before the revocation is installed
      after the eviction. */
  lemma RevokedTokenCanReturn(h: string, e: Entry) returns (w: World, steps: seq<Step>)
    requires !Expired(e, 0)
    ensures InSync(w) && Inv(w) && Possible(w, steps)
    ensures steps == [BeginRefresh(0), CommitRevoke(h), EvictEntry(h), InstallRefresh(0)]
    ensures h in Run(w, steps).table && Run(w, steps).table[h].revoked && Resolve(Run(w, steps).cache, h, 0) == Some(e)
  {
    w := World(map[h := Row(e, false)], map[h := e], map[], {}, 0);
    var w1 := Next(w, BeginRefresh(0));
    var w2 := Next(w1, CommitRevoke(h));
    var w3 := Next(w2, EvictEntry(h));
    var w4 := Next(w3, InstallRefresh(0));
    steps := [BeginRefresh(0), CommitRevoke(h), EvictEntry(h), InstallRefresh(0)];
    RunCons(w3, InstallRefresh(0), []);
    RunCons(w2, EvictEntry(h), [InstallRefresh(0)]);
    RunCons(w1, CommitRevoke(h), [EvictEntry(h), InstallRefresh(0)]);
    RunCons(w, BeginRefresh(0), [CommitRevoke(h), EvictEntry(h), InstallRefresh(0)]);
    assert steps == [BeginRefresh(0)] + [CommitRevoke(h), EvictEntry(h), InstallRefresh(0)];
    assert w4.cache == map[h := e];
  }

  lemma RunCons(w: World, s: Step, rest: seq<Step>)
    requires Enabled(w, s) && Possible(Next(w, s), rest)
    ensures Possible(w, [s] + rest) && Run(w, [s] + rest) == Run(Next(w, s), rest)
  {
    assert ([s] + rest)[1..] == rest;
  }
}
