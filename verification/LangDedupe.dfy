/** In-place removal of repeated language packages (internal/agent/scanner/lang.go). */
module LangDedupe {
  import opened Prelude

  datatype Package = Package(ecosystem: string, name: string, version: string, path: string)

  /** The joined key; `lower` is the library's lower-casing. */
  function Key(p: Package, lower: string -> string): string
  {
    p.ecosystem + "\0" + lower(p.name) + "\0" + p.version
  }

  ghost predicate SameTriple(p: Package, q: Package, lower: string -> string)
  {
    p.ecosystem == q.ecosystem && lower(p.name) == lower(q.name) && p.version == q.version
  }

  predicate NulFree(p: Package, lower: string -> string)
  {
    '\0' !in p.ecosystem && '\0' !in lower(p.name)
  }

  lemma KeyInjective(p: Package, q: Package, lower: string -> string)
    requires NulFree(p, lower) && NulFree(q, lower)
    ensures Key(p, lower) == Key(q, lower) <==> SameTriple(p, q, lower)
  {
    if Key(p, lower) == Key(q, lower) {
      var x, y := lower(p.name) + "\0" + p.version, lower(q.name) + "\0" + q.version;
      assert Key(p, lower) == p.ecosystem + ['\0'] + x && Key(q, lower) == q.ecosystem + ['\0'] + y;
      SplitAtFirst(p.ecosystem, x, q.ecosystem, y, '\0');
      SplitAtFirst(lower(p.name), p.version, lower(q.name), q.version, '\0');
    }
  }

  /** The package at i is the first with its key. */
  ghost predicate IsFirst(s: seq<Package>, i: nat, lower: string -> string)
  {
    i < |s| && forall j :: 0 <= j < i ==> Key(s[j], lower) != Key(s[i], lower)
  }

  /** The packages that are the first with their key, in order. */
  ghost function Firsts(s: seq<Package>, lower: string -> string): (r: seq<Package>)
    ensures |r| <= |s|
  {
    if s == [] then [] else
      Firsts(s[..|s| - 1], lower) + if IsFirst(s, |s| - 1, lower) then [s[|s| - 1]] else []
  }

  /** Compacts the array over itself: the first n places hold the first package of each
      key, in order; the places behind them keep what they held. */
  method DedupeLangPackages(pkgs: array<Package>, lower: string -> string) returns (n: nat)
    modifies pkgs
    ensures n <= pkgs.Length && pkgs[..n] == Firsts(old(pkgs[..]), lower)
    ensures pkgs[n..] == old(pkgs[n..])
  {
    var seen: set<string> := {};
    ghost var was, firsts := pkgs[..], [];
    n := 0;
    for i := 0 to pkgs.Length
      invariant n <= i && n == |firsts| && firsts == Firsts(was[..i], lower)
      invariant forall k :: 0 <= k < n ==> pkgs[k] == firsts[k]
      invariant forall k :: n <= k < pkgs.Length ==> pkgs[k] == was[k]
      invariant seen == Seen(was[..i], lower)
    {
      var p := pkgs[i];
      var key := Key(p, lower);
      FirstsStep(was, i, lower);
      if key in seen {
        continue;
      }
      seen := seen + {key};
      pkgs[n] := p;
      firsts := firsts + [p];
      n := n + 1;
    }
    assert was[..pkgs.Length] == was;
    assert pkgs[..n] == firsts;
    assert pkgs[n..] == was[n..];
  }

  ghost function Seen(s: seq<Package>, lower: string -> string): set<string>
  {
    set j | 0 <= j < |s| :: Key(s[j], lower)
  }

  lemma FirstsStep(s: seq<Package>, i: nat, lower: string -> string)
    requires i < |s|
    ensures Firsts(s[..i + 1], lower) ==
      Firsts(s[..i], lower) + if Key(s[i], lower) in Seen(s[..i], lower) then [] else [s[i]]
    ensures Seen(s[..i + 1], lower) == Seen(s[..i], lower) + {Key(s[i], lower)}
  {
    var t := s[..i + 1];
    assert t[..i] == s[..i] && t[i] == s[i];
    assert IsFirst(t, i, lower) <==> Key(s[i], lower) !in Seen(s[..i], lower);
    forall k | k in Seen(t, lower) ensures k in Seen(s[..i], lower) + {Key(s[i], lower)} {
      var j :| 0 <= j < |t| && Key(t[j], lower) == k;
      if j < i { assert s[..i][j] == t[j]; }
    }
    forall k | k in Seen(s[..i], lower) + {Key(s[i], lower)} ensures k in Seen(t, lower) {
      if k == Key(s[i], lower) { assert t[i] == s[i]; } else {
        var j :| 0 <= j < i && Key(s[..i][j], lower) == k;
        assert t[j] == s[..i][j];
      }
    }
  }

  /** Where each kept package stood. */
  ghost function Places(s: seq<Package>, lower: string -> string): (r: seq<nat>)
    ensures |r| == |Firsts(s, lower)|
  {
    if s == [] then [] else
      Places(s[..|s| - 1], lower) + if IsFirst(s, |s| - 1, lower) then [|s| - 1] else []
  }

  lemma IsFirstInPrefix(s: seq<Package>, i: nat, n: nat, lower: string -> string)
    requires i < n <= |s|
    ensures IsFirst(s[..n], i, lower) == IsFirst(s, i, lower)
  {
    assert forall j :: 0 <= j <= i ==> s[..n][j] == s[j];
  }

  /** `at` says where in s the elements of r stand, in order, each the first of its key. */
  ghost predicate ArePlaces(s: seq<Package>, r: seq<Package>, at: seq<nat>, lower: string -> string)
  {
    && |at| == |r|
    && (forall k :: 0 <= k < |at| ==> at[k] < |s| && s[at[k]] == r[k] && IsFirst(s, at[k], lower))
    && (forall k, l :: 0 <= k < l < |at| ==> at[k] < at[l])
  }

  lemma ArePlacesLonger(s: seq<Package>, last: Package, r: seq<Package>, at: seq<nat>, lower: string -> string)
    requires ArePlaces(s, r, at, lower)
    ensures ArePlaces(s + [last], r, at, lower)
  {
    var all := s + [last];
    assert all[..|s|] == s;
    forall k | 0 <= k < |at| ensures all[at[k]] == r[k] && IsFirst(all, at[k], lower) {
      IsFirstInPrefix(all, at[k], |s|, lower);
    }
  }

  lemma ArePlacesAppend(s: seq<Package>, r: seq<Package>, at: seq<nat>, n: nat, lower: string -> string)
    requires ArePlaces(s, r, at, lower) && IsFirst(s, n, lower) && forall k :: 0 <= k < |at| ==> at[k] < n
    ensures ArePlaces(s, r + [s[n]], at + [n], lower)
  {
  }

  lemma PlacesAreBelow(s: seq<Package>, r: seq<Package>, at: seq<nat>, lower: string -> string)
    requires ArePlaces(s, r, at, lower)
    ensures forall k :: 0 <= k < |at| ==> at[k] < |s|
  {
  }

  /** The result is a subsequence of the input, made of first packages only. */
  lemma {:induction false} FirstsIsSubsequence(s: seq<Package>, lower: string -> string)
    ensures ArePlaces(s, Firsts(s, lower), Places(s, lower), lower)
  {
    if s != [] {
      var before, n := s[..|s| - 1], |s| - 1;
      var r, at := Firsts(before, lower), Places(before, lower);
      FirstsIsSubsequence(before, lower);
      PlacesAreBelow(before, r, at, lower);
      ArePlacesLonger(before, s[n], r, at, lower);
      assert s == before + [s[n]];
      if IsFirst(s, n, lower) { ArePlacesAppend(s, r, at, n, lower); }
    }
  }

  ghost predicate KeysDiffer(r: seq<Package>, lower: string -> string)
  {
    forall k, l :: 0 <= k < l < |r| ==> Key(r[k], lower) != Key(r[l], lower)
  }

  /** No two kept packages share a key. */
  lemma KeptKeysDiffer(s: seq<Package>, r: seq<Package>, at: seq<nat>, lower: string -> string)
    requires ArePlaces(s, r, at, lower)
    ensures KeysDiffer(r, lower)
  {
    forall k, l | 0 <= k < l < |r| ensures Key(r[k], lower) != Key(r[l], lower) {
      assert IsFirst(s, at[l], lower) && at[k] < at[l];
    }
  }

  /** Every input key is kept by some package. */
  lemma {:induction false} EveryKeyIsKept(s: seq<Package>, lower: string -> string, i: nat) returns (k: nat)
    requires i < |s|
    ensures k < |Firsts(s, lower)| && Key(Firsts(s, lower)[k], lower) == Key(s[i], lower)
    decreases |s|, i
  {
    var n := |s| - 1;
    if i < n {
      k := EveryKeyIsKept(s[..n], lower, i);
    } else if IsFirst(s, n, lower) {
      k := |Firsts(s[..n], lower)|;
    } else {
      var j :| 0 <= j < n && Key(s[j], lower) == Key(s[n], lower);
      k := EveryKeyIsKept(s[..n], lower, j);
    }
  }

  /** For packages without NUL in their fields: one package per (ecosystem, lower-cased
      name, version), and every triple of the input represented. */
  lemma DedupeKeepsOnePerTriple(s: seq<Package>, lower: string -> string)
    requires forall i :: 0 <= i < |s| ==> NulFree(s[i], lower)
    ensures var r := Firsts(s, lower);
      && (forall k, l :: 0 <= k < l < |r| ==> !SameTriple(r[k], r[l], lower))
      && (forall i :: 0 <= i < |s| ==> exists k :: 0 <= k < |r| && SameTriple(r[k], s[i], lower))
  {
    var r, at := Firsts(s, lower), Places(s, lower);
    FirstsIsSubsequence(s, lower);
    KeptKeysDiffer(s, r, at, lower);
    forall k | 0 <= k < |r| ensures NulFree(r[k], lower) { assert r[k] == s[at[k]]; }
    forall k, l | 0 <= k < l < |r| ensures !SameTriple(r[k], r[l], lower) { KeyInjective(r[k], r[l], lower); }
    forall i | 0 <= i < |s| ensures exists k :: 0 <= k < |r| && SameTriple(r[k], s[i], lower) {
      var k := EveryKeyIsKept(s, lower, i);
      KeyInjective(r[k], s[i], lower);
    }
  }
}
