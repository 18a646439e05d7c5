/** The cache of graph results by access scope (internal/server/api/graph.go,
    internal/server/api/response_cache.go).

    SHA-256 is a parameter.  It cannot be injective, so nothing here assumes that it is:
    two different scopes share a key only if a collision of the hash is at hand. */
module GraphScope {
  import opened Prelude
  import opened Lex

  /** What a caller may see: everything, or the listed hosts in any order. */
  datatype Scope = Scope(all: bool, hostIDs: seq<string>)

  type Digest = string -> seq<byte>

  ghost predicate Is256Bit(sha: Digest)
  {
    forall m :: |sha(m)| == 32
  }

  function HexDigit(d: int): char
    requires 0 <= d < 16
  {
    if d < 10 then (d + '0' as int) as char else (d - 10 + 'a' as int) as char
  }

  function Hex(bytes: seq<byte>): (s: string)
    ensures |s| == 2 * |bytes|
  {
    if bytes == [] then "" else [HexDigit(bytes[0] / 16), HexDigit(bytes[0] % 16)] + Hex(bytes[1..])
  }

  lemma {:induction false} HexInjective(a: seq<byte>, b: seq<byte>)
    requires Hex(a) == Hex(b)
    ensures a == b
  {
    if a != [] && b != [] {
      var s, t := Hex(a), Hex(b);
      assert s[0] == t[0] && s[1] == t[1] && s[2..] == Hex(a[1..]) && t[2..] == Hex(b[1..]);
      HexInjective(a[1..], b[1..]);
      assert a == [a[0]] + a[1..] && b == [b[0]] + b[1..];
    }
  }

  /** What is hashed: each id followed by a NUL. */
  function Encode(ids: seq<string>): string
  {
    if ids == [] then "" else Encode(ids[..|ids| - 1]) + ids[|ids| - 1] + "\0"
  }

  predicate NulFree(ids: seq<string>)
  {
    forall i :: 0 <= i < |ids| ==> '\0' !in ids[i]
  }

  function Key(sha: Digest, scope: Scope, suffix: string): string
  {
    if scope.all then "all|" + suffix else "s" + Hex(sha(Encode(Sort(scope.hostIDs)))) + "|" + suffix
  }

  /** The library sort, in place. */
  method SortStrings(a: array<string>)
    modifies a
    ensures a[..] == Sort(old(a[..]))
  {
    var s := Sort(a[..]);
    SortKeepsLength(a[..]);
    for i := 0 to a.Length
      invariant forall j :: 0 <= j < i ==> a[j] == s[j]
    {
      a[i] := s[i];
    }
    assert a[..] == s;
  }

  /** The caller's slice is only read: the copy is what gets sorted. */
  method GraphScopeKey(all: bool, hostIDs: array<string>, suffix: string, sha: Digest) returns (key: string)
    ensures key == Key(sha, Scope(all, hostIDs[..]), suffix)
  {
    if all {
      return "all|" + suffix;
    }
    var ids := new string[hostIDs.Length](i requires 0 <= i < hostIDs.Length reads hostIDs => hostIDs[i]);
    assert ids[..] == hostIDs[..];
    SortStrings(ids);
    var written := "";
    for i := 0 to ids.Length
      invariant ids[..] == Sort(hostIDs[..])
      invariant written == Encode(ids[..i])
    {
      assert ids[..i + 1][..i] == ids[..i];
      written := written + ids[i];
      written := written + "\0";
    }
    assert ids[..ids.Length] == ids[..];
    key := "s" + Hex(sha(written)) + "|" + suffix;
  }

  // ---------------------------------------------------------------------
  // When two keys are equal.

  lemma NoNulBehind(p: string, x: string, i: nat)
    requires '\0' !in x && i < |p + x|
    ensures (p + x)[i] == '\0' ==> i < |p|
  {
    if i >= |p| { assert (p + x)[i] == x[i - |p|] && x[i - |p|] in x; }
  }

  lemma LastNul(p: string, x: string, q: string, y: string)
    requires '\0' !in x && '\0' !in y
    requires p == "" || p[|p| - 1] == '\0'
    requires q == "" || q[|q| - 1] == '\0'
    requires p + x == q + y
    ensures p == q && x == y
  {
    if p != "" {
      assert (p + x)[|p| - 1] == '\0';
      NoNulBehind(q, y, |p| - 1);
    }
    if q != "" {
      assert (q + y)[|q| - 1] == '\0';
      NoNulBehind(p, x, |q| - 1);
    }
    assert |p| == |q|;
    SplitEqually(p, x, q, y);
  }

  lemma SplitEqually(p: string, x: string, q: string, y: string)
    requires p + x == q + y && |p| == |q|
    ensures p == q && x == y
  {
    assert p == (p + x)[..|p|] && q == (q + y)[..|q|];
    assert x == (p + x)[|p|..] && y == (q + y)[|q|..];
  }

  lemma DropLastChar(s: string, t: string, c: char)
    requires s + [c] == t + [c]
    ensures s == t
  {
    assert s == (s + [c])[..|s + [c]| - 1] && t == (t + [c])[..|t + [c]| - 1];
  }

  lemma EncodeEnds(ids: seq<string>)
    ensures var e := Encode(ids); e == "" || e[|e| - 1] == '\0'
    ensures Encode(ids) == "" <==> ids == []
  {
  }

  /** NUL-terminated concatenation can be taken apart again. */
  lemma {:induction false} EncodeInjective(a: seq<string>, b: seq<string>)
    requires NulFree(a) && NulFree(b) && Encode(a) == Encode(b)
    ensures a == b
  {
    EncodeEnds(a);
    EncodeEnds(b);
    if a != [] && b != [] {
      var a', b' := a[..|a| - 1], b[..|b| - 1];
      EncodeEnds(a');
      EncodeEnds(b');
      DropLastChar(Encode(a') + a[|a| - 1], Encode(b') + b[|b| - 1], '\0');
      LastNul(Encode(a'), a[|a| - 1], Encode(b'), b[|b| - 1]);
      EncodeInjective(a', b');
      assert a == a' + [a[|a| - 1]] && b == b' + [b[|b| - 1]];
    }
  }

  lemma SortKeepsNulFree(ids: seq<string>)
    requires NulFree(ids)
    ensures NulFree(Sort(ids))
  {
    var s := Sort(ids);
    forall i | 0 <= i < |s| ensures '\0' !in s[i] {
      assert s[i] in multiset(ids);
    }
  }

  ghost predicate SameScope(a: Scope, b: Scope)
  {
    a.all == b.all && (!a.all ==> multiset(a.hostIDs) == multiset(b.hostIDs))
  }

  ghost predicate Collision(sha: Digest, m: string, n: string)
  {
    m != n && sha(m) == sha(n)
  }

  /** The hashed text stands for the multiset of ids: sorting is canonical and the
      encoding loses nothing. */
  lemma HashedTextIsCanonical(a: seq<string>, b: seq<string>)
    requires NulFree(a) && NulFree(b)
    ensures Encode(Sort(a)) == Encode(Sort(b)) <==> multiset(a) == multiset(b)
  {
    SortKeepsNulFree(a);
    SortKeepsNulFree(b);
    if Encode(Sort(a)) == Encode(Sort(b)) {
      EncodeInjective(Sort(a), Sort(b));
      assert multiset(a) == multiset(Sort(a)) == multiset(Sort(b)) == multiset(b);
    }
    if multiset(a) == multiset(b) { SortedIsUnique(Sort(a), Sort(b)); }
  }

  lemma SplitFixedWidth(h: string, x: string, h': string, y: string)
    requires |h| == |h'| && "s" + h + "|" + x == "s" + h' + "|" + y
    ensures h == h' && x == y
  {
    var s, t := "s" + h + "|" + x, "s" + h' + "|" + y;
    assert h == s[1..|h| + 1] == t[1..|h| + 1] == h';
    assert x == s[|h| + 2..] == t[|h| + 2..] == y;
  }

  /** Keys are equal exactly for the same suffix and the same scope, or for the same suffix
      and a collision of the hash that the two scopes exhibit. */
  lemma KeysAreEqualIff(sha: Digest, a: Scope, x: string, b: Scope, y: string)
    requires Is256Bit(sha) && NulFree(a.hostIDs) && NulFree(b.hostIDs)
    ensures Key(sha, a, x) == Key(sha, b, y) <==>
      x == y &&
      (SameScope(a, b) || (!a.all && !b.all && Collision(sha, Encode(Sort(a.hostIDs)), Encode(Sort(b.hostIDs)))))
  {
    var ea, eb := Encode(Sort(a.hostIDs)), Encode(Sort(b.hostIDs));
    if !a.all && !b.all {
      HashedTextIsCanonical(a.hostIDs, b.hostIDs);
      if Key(sha, a, x) == Key(sha, b, y) {
        SplitFixedWidth(Hex(sha(ea)), x, Hex(sha(eb)), y);
        HexInjective(sha(ea), sha(eb));
      }
    } else if a.all && b.all {
      SplitAll(x, y);
    } else {
      assert Key(sha, a, x)[0] != Key(sha, b, y)[0];
    }
  }

  lemma SplitAll(x: string, y: string)
    ensures "all|" + x == "all|" + y ==> x == y
  {
    if "all|" + x == "all|" + y {
      assert x == ("all|" + x)[4..] == ("all|" + y)[4..] == y;
    }
  }

  // ---------------------------------------------------------------------
  // The cache and the handlers that use it.

  datatype CacheEntry<V> = CacheEntry(value: V, expires: int)

  class GraphCache<V> {
    const sha: Digest
    const ttl: int
    var entries: map<string, CacheEntry<V>>
    /** Every result fetched so far, with the scope and endpoint it was fetched for. */
    ghost var fetched: set<(Scope, string, V)>

    constructor (sha: Digest, ttl: int)
      requires Is256Bit(sha)
      ensures Valid() && fetched == {} && this.sha == sha && this.ttl == ttl
    {
      this.sha, this.ttl, entries, fetched := sha, ttl, map[], {};
    }

    ghost predicate Valid()
      reads this
    {
      && Is256Bit(sha)
      && |entries| <= 257
      && forall key :: key in entries ==> Vouched(key, entries[key].value)
    }

    /** The value was fetched for a scope and an endpoint with this key. */
    ghost predicate Vouched(key: string, v: V)
      reads this
    {
      exists f :: f in fetched && NulFree(f.0.hostIDs) && Key(sha, f.0, f.1) == key && f.2 == v
    }

    ghost predicate ServedFor(f: (Scope, string, V), scope: Scope, suffix: string, v: V)
    {
      f.1 == suffix && f.2 == v &&
      (SameScope(f.0, scope) || Collision(sha, Encode(Sort(f.0.hostIDs)), Encode(Sort(scope.hostIDs))))
    }

    predicate Hit(key: string, now: int)
      reads this
    {
      ttl > 0 && key in entries && now <= entries[key].expires
    }

    method Get(key: string, now: int) returns (v: Option<V>)
      requires Valid()
      ensures v.Some? <==> ttl > 0 && key in entries && now <= entries[key].expires
      ensures v.Some? ==> v.value == entries[key].value
    {
      if ttl <= 0 || key !in entries || now > entries[key].expires {
        return None;
      }
      v := Some(entries[key].value);
    }

    method Put(key: string, value: V, now: int)
      requires Valid() && Vouched(key, value)
      modifies this`entries
      ensures Valid()
      ensures ttl <= 0 ==> entries == old(entries)
      ensures ttl > 0 ==>
        entries == (if old(|entries|) > 256 then map[] else old(entries))[key := CacheEntry(value, now + ttl)]
    {
      if ttl <= 0 {
        return;
      }
      if |entries| > 256 {
        entries := map[];
      }
      entries := entries[key := CacheEntry(value, now + ttl)];
    }

    /** A graph endpoint: cached if possible, else fetched and cached.  Whatever is served
        was fetched for this very scope and endpoint, unless the hash collides. */
    method Serve(scope: Scope, suffix: string, now: int, fetch: Option<V>) returns (v: Option<V>)
      requires Valid() && NulFree(scope.hostIDs)
      modifies this
      ensures Valid()
      ensures fetched == old(fetched) +
        if old(Hit(Key(sha, scope, suffix), now)) || fetch.None? then {} else {(scope, suffix, fetch.value)}
      ensures var key := Key(sha, scope, suffix);
        if old(Hit(key, now)) then v == Some(old(entries)[key].value)
        else v == fetch && (v.Some? && ttl > 0 ==> key in entries && entries[key] == CacheEntry(v.value, now + ttl))
      ensures v.Some? ==> exists f :: f in fetched && ServedFor(f, scope, suffix, v.value)
    {
      var key := Key(sha, scope, suffix);
      v := Get(key, now);
      if v.Some? {
        ghost var f :| f in fetched && NulFree(f.0.hostIDs) && Key(sha, f.0, f.1) == key && f.2 == v.value;
        KeysAreEqualIff(sha, f.0, f.1, scope, suffix);
        return;
      }
      if fetch.None? {
        return None;
      }
      v := fetch;
      ghost var f := (scope, suffix, fetch.value);
      ghost var before := fetched;
      fetched := fetched + {f};
      assert f in fetched;
      forall k | k in entries ensures Vouched(k, entries[k].value) {
        var g :| g in before && NulFree(g.0.hostIDs) && Key(sha, g.0, g.1) == k && g.2 == entries[k].value;
        assert g in fetched;
      }
      Put(key, fetch.value, now);
    }
  }
}
