/** The version comparison of the web client (web/src/App.tsx, lines 4 to 66): dotted
    numbers, then pre-release markers, ignoring build metadata.  Numbers are unbounded and
    letter case is ASCII. */
module VersionOrder {
  import opened Prelude

  const MARKERS: seq<string> := ["dev", "snapshot", "preview", "pre", "alpha", "beta", "rc"]

  predicate IsDigit(c: char)
  {
    '0' <= c <= '9'
  }

  function Lower(s: string): (r: string)
    ensures |r| == |s| && forall i :: 0 <= i < |s| ==> r[i] == LowerChar(s[i])
  {
    seq(|s|, i requires 0 <= i < |s| => LowerChar(s[i]))
  }

  /** `indexOf` and, for non-negative results, `includes`. */
  function IndexOf(s: string, sub: string): (r: int)
    ensures -1 <= r <= |s| && (r >= 0 ==> r + |sub| <= |s|)
  {
    if HasPrefix(s, sub) then 0
    else if s == "" then -1
    else
      var t := IndexOf(s[1..], sub);
      if t < 0 then -1 else t + 1
  }

  lemma {:induction false} IndexOfMeans(s: string, sub: string)
    ensures var r := IndexOf(s, sub);
      && (r >= 0 ==> HasPrefix(s[r..], sub))
      && forall i :: 0 <= i < (if r < 0 then |s| + 1 else r) ==> !HasPrefix(s[i..], sub)
  {
    assert s[0..] == s;
    if !HasPrefix(s, sub) && s != "" {
      IndexOfMeans(s[1..], sub);
      assert forall i :: 1 <= i <= |s| ==> s[i..] == s[1..][i - 1..];
    }
  }

  /** Number of leading digits. */
  function DigitRun(s: string): (n: nat)
    ensures n <= |s|
    ensures forall i :: 0 <= i < n ==> IsDigit(s[i])
    ensures n < |s| ==> !IsDigit(s[n])
  {
    if s != "" && IsDigit(s[0]) then 1 + DigitRun(s[1..]) else 0
  }

  function Number(s: string): nat
    requires forall i :: 0 <= i < |s| ==> IsDigit(s[i])
  {
    if s == "" then 0 else
      assert IsDigit(s[|s| - 1]);
      10 * Number(s[..|s| - 1]) + (s[|s| - 1] as int - '0' as int)
  }

  /** The numbers in s, left to right: the split on runs of other characters. */
  function Numbers(s: string): seq<nat>
    decreases |s|
  {
    if s == "" then []
    else if !IsDigit(s[0]) then Numbers(s[1..])
    else [Number(s[..DigitRun(s)])] + Numbers(s[DigitRun(s)..])
  }

  function StripV(s: string): string
  {
    if s != "" && s[0] == 'v' then s[1..] else s
  }

  function StripEpoch(s: string): string
  {
    var n := DigitRun(s);
    if 0 < n < |s| && s[n] == ':' then s[n + 1..] else s
  }

  function Trim(s: string): string
  {
    TrimRight(TrimLeft(s, WebSpace), WebSpace)
  }

  predicate StartsMarker(low: string)
  {
    exists k :: 0 <= k < |MARKERS| && HasPrefix(low, MARKERS[k])
  }

  /** Build metadata, a tilde or a marker begins here. */
  predicate IsStop(low: string)
  {
    HasPrefix(low, "+") || HasPrefix(low, "~") || StartsMarker(low)
  }

  predicate StopsAt(s: string)
  {
    IsStop(Lower(s))
  }

  /** The part of s before the first stop. */
  function Release(s: string): string
  {
    if s == "" || StopsAt(s) then "" else [s[0]] + Release(s[1..])
  }

  lemma {:induction false} ReleaseMeans(s: string)
    ensures var r := Release(s);
      && |r| <= |s| && r == s[..|r|]
      && (forall i :: 0 <= i < |r| ==> !StopsAt(s[i..]))
      && (|r| < |s| ==> StopsAt(s[|r|..]))
  {
    if s == "" || StopsAt(s) {
      assert s[0..] == s;
    } else {
      ReleaseMeans(s[1..]);
      ReleaseShift(s, Release(s[1..]));
    }
  }

  lemma ReleaseShift(s: string, r: string)
    requires s != "" && !StopsAt(s)
    requires |r| < |s| && r == s[1..][..|r|]
    requires forall i :: 0 <= i < |r| ==> !StopsAt(s[1..][i..])
    requires |r| < |s| - 1 ==> StopsAt(s[1..][|r|..])
    ensures [s[0]] + r == s[..|r| + 1]
    ensures forall i :: 0 <= i < |r| + 1 ==> !StopsAt(s[i..])
    ensures |r| + 1 < |s| ==> StopsAt(s[|r| + 1..])
  {
    assert s[0..] == s;
    forall i | 1 <= i <= |s| ensures s[i..] == s[1..][i - 1..] {}
    forall i | 0 <= i < |r| + 1 ensures !StopsAt(s[i..]) {
      if i > 0 { assert s[i..] == s[1..][i - 1..]; }
    }
    if |r| + 1 < |s| { assert s[|r| + 1..] == s[1..][|r|..]; }
  }

  function VersionSegments(v: string): seq<nat>
  {
    Numbers(TrimRight(Release(StripEpoch(StripV(Trim(v)))), Separator))
  }

  function BeforePlus(s: string): (r: string)
    ensures '+' !in r
  {
    if s == "" || s[0] == '+' then "" else [s[0]] + BeforePlus(s[1..])
  }

  predicate IsPreReleaseVersion(v: string)
  {
    var clean := BeforePlus(Lower(v));
    IndexOf(clean, "~") >= 0 || exists k :: 0 <= k < |MARKERS| && IndexOf(clean, MARKERS[k]) >= 0
  }

  /** The first number after the marker, or 0. */
  function PreReleaseNumber(clean: string, marker: string): nat
  {
    var i := IndexOf(clean, marker);
    if i < 0 then 0 else
      var numbers := Numbers(clean[i + |marker|..]);
      if numbers == [] then 0 else numbers[0]
  }

  function RankFrom(clean: string, i: nat): (int, nat)
    requires i <= |MARKERS|
    decreases |MARKERS| - i
  {
    if i < |MARKERS| then
      if IndexOf(clean, MARKERS[i]) >= 0 then (i + 1, PreReleaseNumber(clean, MARKERS[i])) else RankFrom(clean, i + 1)
    else if IndexOf(clean, "~") >= 0 then (0, PreReleaseNumber(clean, "~"))
    else (|MARKERS| + 1, 0)
  }

  function Rank(v: string): (int, nat)
  {
    RankFrom(BeforePlus(Lower(v)), 0)
  }

  // ---------------------------------------------------------------------
  // The program's loops, against the functions above.

  /** `mark` does not begin before `cut`. */
  ghost predicate NotBefore(low: string, cut: nat, mark: string)
    requires cut <= |low|
  {
    forall i :: 0 <= i < cut ==> !HasPrefix(low[i..], mark)
  }

  lemma NothingStopsBefore(low: string, cut: nat)
    requires cut <= |low| && NotBefore(low, cut, "+") && NotBefore(low, cut, "~")
    requires forall j :: 0 <= j < |MARKERS| ==> NotBefore(low, cut, MARKERS[j])
    ensures forall i :: 0 <= i < cut ==> !IsStop(low[i..])
  {
    forall i | 0 <= i < cut ensures !StartsMarker(low[i..]) {
      forall j | 0 <= j < |MARKERS| ensures !HasPrefix(low[i..], MARKERS[j]) {
        assert NotBefore(low, cut, MARKERS[j]);
      }
    }
  }

  /** What is known of the cut after looking for the plus sign, the tilde and `k` markers. */
  ghost predicate CutSoFar(low: string, cut: nat, k: nat)
  {
    && cut <= |low|
    && (cut < |low| ==> IsStop(low[cut..]))
    && NotBefore(low, cut, "+") && NotBefore(low, cut, "~")
    && (forall j :: 0 <= j < k && j < |MARKERS| ==> NotBefore(low, cut, MARKERS[j]))
  }

  lemma CutStep(low: string, cut: nat, k: nat, idx: int)
    requires CutSoFar(low, cut, k) && k < |MARKERS| && idx == IndexOf(low, MARKERS[k])
    ensures CutSoFar(low, if 0 <= idx < cut then idx else cut, k + 1)
  {
    var marker := MARKERS[k];
    IndexOfMeans(low, marker);
    var next := if 0 <= idx < cut then idx else cut;
    if 0 <= idx < cut { assert StartsMarker(low[idx..]); }
    assert NotBefore(low, next, marker);
    forall j | 0 <= j < k ensures NotBefore(low, next, MARKERS[j]) {
      assert NotBefore(low, cut, MARKERS[j]);
    }
  }

  /** The suffix is cut at the leftmost of all the marks it looks for. */
  method StripPreReleaseSuffix(v: string) returns (r: string)
    ensures r == TrimRight(Release(v), Separator)
  {
    var low := Lower(v);
    var plus := IndexOf(low, "+");
    IndexOfMeans(low, "+");
    var cut := if plus >= 0 then plus else |v|;
    var tilde := IndexOf(low, "~");
    IndexOfMeans(low, "~");
    if tilde >= 0 && tilde < cut { cut := tilde; }
    for k := 0 to |MARKERS|
      invariant 0 <= cut && CutSoFar(low, cut, k)
    {
      var idx := IndexOf(low, MARKERS[k]);
      CutStep(low, cut, k, idx);
      if idx >= 0 && idx < cut {
        cut := idx;
      }
    }
    NothingStopsBefore(low, cut);
    CutIsRelease(v, cut);
    r := TrimRight(v[..cut], Separator);
  }

  lemma CutIsRelease(v: string, cut: nat)
    requires cut <= |v|
    requires cut < |v| ==> IsStop(Lower(v)[cut..])
    requires forall i :: 0 <= i < cut ==> !IsStop(Lower(v)[i..])
    ensures v[..cut] == Release(v)
  {
    var r := Release(v);
    ReleaseMeans(v);
    SuffixStops(v, |r|);
    SuffixStops(v, cut);
    assert |r| == cut;
  }

  lemma SuffixStops(v: string, i: nat)
    requires i <= |v|
    ensures IsStop(Lower(v)[i..]) == StopsAt(v[i..])
  {
    assert Lower(v)[i..] == Lower(v[i..]);
  }

  method PreReleaseRank(v: string) returns (rank: int, number: nat)
    ensures (rank, number) == Rank(v)
  {
    var clean := BeforePlus(Lower(v));
    for i := 0 to |MARKERS|
      invariant Rank(v) == RankFrom(clean, i)
    {
      if IndexOf(clean, MARKERS[i]) >= 0 {
        return i + 1, PreReleaseNumber(clean, MARKERS[i]);
      }
    }
    if IndexOf(clean, "~") >= 0 {
      return 0, PreReleaseNumber(clean, "~");
    }
    return |MARKERS| + 1, 0;
  }

  // ---------------------------------------------------------------------
  // The comparison.

  function Head(p: seq<nat>): nat
  {
    if p == [] then 0 else p[0]
  }

  function Rest(p: seq<nat>): seq<nat>
  {
    if p == [] then [] else p[1..]
  }

  /** The first difference, the shorter side padded with zeros. */
  function SegmentDiff(p: seq<nat>, q: seq<nat>): int
    decreases |p| + |q|
  {
    if p == [] && q == [] then 0
    else if Head(p) != Head(q) then Head(p) - Head(q)
    else SegmentDiff(Rest(p), Rest(q))
  }

  /** Everything the comparison looks at. */
  datatype Key = Key(segments: seq<nat>, pre: bool, rank: int, number: nat)

  function KeyOf(v: string): Key
  {
    Key(VersionSegments(v), IsPreReleaseVersion(v), Rank(v).0, Rank(v).1)
  }

  function KeyDiff(x: Key, y: Key): int
  {
    var d := SegmentDiff(x.segments, y.segments);
    if d != 0 then d
    else if x.pre && !y.pre then -1
    else if !x.pre && y.pre then 1
    else if x.pre && y.pre then (if x.rank != y.rank then x.rank - y.rank else x.number - y.number)
    else 0
  }

  function DropTo(p: seq<nat>, i: nat): seq<nat>
  {
    if i <= |p| then p[i..] else []
  }

  method VersionSegmentsOf(v: string) returns (segments: seq<nat>)
    ensures segments == VersionSegments(v)
  {
    var clean := StripPreReleaseSuffix(StripEpoch(StripV(Trim(v))));
    segments := Numbers(clean);
  }

  /** The loop of verCmp: the first difference between the segments. */
  method CompareSegments(pa: seq<nat>, pb: seq<nat>) returns (d: int)
    ensures d == SegmentDiff(pa, pb)
  {
    var i := 0;
    while i < if |pa| > |pb| then |pa| else |pb|
      invariant 0 <= i
      invariant SegmentDiff(pa, pb) == SegmentDiff(DropTo(pa, i), DropTo(pb, i))
    {
      var na: int := if i < |pa| then pa[i] else 0;
      var nb: int := if i < |pb| then pb[i] else 0;
      assert Rest(DropTo(pa, i)) == DropTo(pa, i + 1) && Rest(DropTo(pb, i)) == DropTo(pb, i + 1);
      if na != nb {
        return na - nb;
      }
      i := i + 1;
    }
    return 0;
  }

  method VerCmp(a: string, b: string) returns (r: int)
    ensures r == KeyDiff(KeyOf(a), KeyOf(b))
  {
    var pa := VersionSegmentsOf(a);
    var pb := VersionSegmentsOf(b);
    r := CompareSegments(pa, pb);
    if r != 0 {
      return;
    }
    var aPre, bPre := IsPreReleaseVersion(a), IsPreReleaseVersion(b);
    if aPre && !bPre {
      return -1;
    }
    if !aPre && bPre {
      return 1;
    }
    if aPre && bPre {
      var ar, an := PreReleaseRank(a);
      var br, bn := PreReleaseRank(b);
      return if ar != br then ar - br else an as int - bn;
    }
    return 0;
  }

  // ---------------------------------------------------------------------
  // It is a total preorder.

  lemma {:induction false} SegmentDiffAntisymmetric(p: seq<nat>, q: seq<nat>)
    ensures SegmentDiff(p, q) == -SegmentDiff(q, p)
    decreases |p| + |q|
  {
    if !(p == [] && q == []) && Head(p) == Head(q) { SegmentDiffAntisymmetric(Rest(p), Rest(q)); }
  }

  /** Along two steps that do not go down, the way does not go down, and stays level only
      if both steps were level. */
  lemma {:induction false} SegmentDiffTransitive(p: seq<nat>, q: seq<nat>, r: seq<nat>)
    requires SegmentDiff(p, q) <= 0 && SegmentDiff(q, r) <= 0
    ensures SegmentDiff(p, r) <= 0
    ensures SegmentDiff(p, r) == 0 <==> SegmentDiff(p, q) == 0 && SegmentDiff(q, r) == 0
    decreases |p| + |q| + |r|
  {
    if p == [] && r == [] {
      SegmentDiffAntisymmetric(p, q);
    } else {
      if Head(p) == Head(q) && Head(q) == Head(r) { SegmentDiffTransitive(Rest(p), Rest(q), Rest(r)); }
    }
  }

  /** Level segments are equal up to trailing zeros. */
  lemma {:induction false} SegmentDiffZero(p: seq<nat>, q: seq<nat>)
    ensures SegmentDiff(p, q) == 0 <==> forall i: nat :: At(p, i) == At(q, i)
    decreases |p| + |q|
  {
    if !(p == [] && q == []) {
      SegmentDiffZero(Rest(p), Rest(q));
      assert At(p, 0) == Head(p) && At(q, 0) == Head(q);
      assert forall i: nat :: At(p, i + 1) == At(Rest(p), i) && At(q, i + 1) == At(Rest(q), i);
      if (forall i: nat :: At(Rest(p), i) == At(Rest(q), i)) && Head(p) == Head(q) {
        forall i: nat ensures At(p, i) == At(q, i) {
          if i > 0 { assert At(p, i) == At(Rest(p), i - 1); }
        }
      }
    }
  }

  function At(p: seq<nat>, i: nat): nat
  {
    if i < |p| then p[i] else 0
  }

  /** The comparison is exactly antisymmetric, transitive, and level only for versions with
      the same numbers up to trailing zeros and the same pre-release standing. */
  lemma VersionOrderIsTotalPreorder(a: string, b: string, c: string)
    ensures var x, y, z := KeyOf(a), KeyOf(b), KeyOf(c);
      && KeyDiff(x, y) == -KeyDiff(y, x)
      && (KeyDiff(x, y) <= 0 && KeyDiff(y, z) <= 0 ==> KeyDiff(x, z) <= 0)
      && (KeyDiff(x, y) == 0 <==>
            (forall i: nat :: At(x.segments, i) == At(y.segments, i)) && x.pre == y.pre &&
            (x.pre ==> x.rank == y.rank && x.number == y.number))
  {
    var x, y, z := KeyOf(a), KeyOf(b), KeyOf(c);
    KeyDiffAntisymmetric(x, y);
    KeyDiffTransitive(x, y, z);
    SegmentDiffZero(x.segments, y.segments);
  }

  lemma KeyDiffAntisymmetric(x: Key, y: Key)
    ensures KeyDiff(x, y) == -KeyDiff(y, x)
  {
    SegmentDiffAntisymmetric(x.segments, y.segments);
  }

  lemma KeyDiffTransitive(x: Key, y: Key, z: Key)
    ensures KeyDiff(x, y) <= 0 && KeyDiff(y, z) <= 0 ==> KeyDiff(x, z) <= 0
  {
    if SegmentDiff(x.segments, y.segments) <= 0 && SegmentDiff(y.segments, z.segments) <= 0 {
      SegmentDiffTransitive(x.segments, y.segments, z.segments);
    }
  }

  // ---------------------------------------------------------------------
  // Build metadata does not count.

  predicate NoDigits(s: string)
  {
    forall i :: 0 <= i < |s| ==> !IsDigit(s[i])
  }

  lemma {:induction false} DigitRunAppend(s: string, t: string)
    requires t == "" || !IsDigit(t[0])
    ensures DigitRun(s + t) == DigitRun(s)
  {
    if s == "" {
      assert s + t == t;
    } else {
      assert (s + t)[1..] == s[1..] + t;
      DigitRunAppend(s[1..], t);
    }
  }

  lemma {:induction false} NumbersOfNoDigits(s: string)
    requires NoDigits(s)
    ensures Numbers(s) == []
  {
    if s != "" { NumbersOfNoDigits(s[1..]); }
  }

  lemma {:induction false} NumbersAppend(s: string, t: string)
    requires NoDigits(t)
    ensures Numbers(s + t) == Numbers(s)
    decreases |s|
  {
    if s == "" {
      assert s + t == t;
      NumbersOfNoDigits(t);
    } else if !IsDigit(s[0]) {
      assert (s + t)[1..] == s[1..] + t;
      NumbersAppend(s[1..], t);
    } else {
      var n := DigitRun(s);
      DigitRunAppend(s, t);
      assert (s + t)[n..] == s[n..] + t && (s + t)[..n] == s[..n];
      NumbersAppend(s[n..], t);
    }
  }

  predicate IsMark(m: string)
  {
    m == "+" || m == "~" || m in MARKERS
  }

  lemma PrefixBefore(s: string, n: nat, m: string)
    requires n < |s| && s[n] !in m
    ensures HasPrefix(s, m) == HasPrefix(s[..n], m)
  {
    if |m| <= n {
      assert s[..n][..|m|] == s[..|m|];
    }
  }

  /** No mark reaches across a character that is in none of them, or across a plus sign. */
  lemma StopEndsThere(p: string, c: char, tail: string)
    requires p != "" && '+' !in p
    requires forall m :: IsMark(m) && m != "+" ==> LowerChar(c) !in m
    ensures StopsAt(p + [c] + tail) == StopsAt(p)
  {
    var low, s := Lower(p), Lower(p + [c] + tail);
    assert s[..|p|] == low && s[|p|] == LowerChar(c);
    assert IsMark("~");
    PrefixBefore(s, |p|, "~");
    forall k | 0 <= k < |MARKERS| ensures HasPrefix(s, MARKERS[k]) == HasPrefix(low, MARKERS[k]) {
      assert IsMark(MARKERS[k]) && MARKERS[k] != "+";
      PrefixBefore(s, |p|, MARKERS[k]);
    }
    assert p[0] in p && low[0] == s[0] != '+';
  }

  lemma {:induction false} ReleaseEndsAtPlus(p: string, tail: string)
    requires '+' !in p
    ensures Release(p + "+" + tail) == Release(p)
  {
    var s := p + "+" + tail;
    if p == "" {
      assert s[0] == '+' && Lower(s)[..1] == "+";
    } else {
      MarksAvoid('+');
      StopEndsThere(p, '+', tail);
      assert s[1..] == p[1..] + "+" + tail && s[0] == p[0];
      if !StopsAt(p) { ReleaseEndsAtPlus(p[1..], tail); }
    }
  }

  lemma MarksAvoid(c: char)
    requires c == '+' || IsIn(c, WebSpace)
    ensures forall m :: IsMark(m) && m != "+" ==> LowerChar(c) !in m
  {
  }

  lemma ReleaseOfBlanks(w: string)
    requires AllIn(w, WebSpace)
    ensures NoDigits(Release(w))
  {
    ReleaseMeans(w);
    PrefixNoDigits(w, |Release(w)|);
  }

  lemma PrefixNoDigits(w: string, n: nat)
    requires n <= |w| && AllIn(w, WebSpace)
    ensures NoDigits(w[..n])
  {
  }

  /** Blanks at the end add only blanks to the release part. */
  lemma {:induction false} ReleaseBeforeBlanks(q: string, w: string) returns (t: string)
    requires '+' !in q && AllIn(w, WebSpace)
    ensures Release(q + w) == Release(q) + t && NoDigits(t)
  {
    if q == "" {
      assert q + w == w;
      ReleaseOfBlanks(w);
      t := Release(w);
    } else if w == "" {
      assert q + w == q;
      t := "";
    } else {
      t := "";
      MarksAvoid(w[0]);
      StopEndsThere(q, w[0], w[1..]);
      assert q + w == q + [w[0]] + w[1..];
      if !StopsAt(q) {
        assert (q + w)[1..] == q[1..] + w;
        t := ReleaseBeforeBlanks(q[1..], w);
        ReleaseUnfolds(q);
        ReleaseUnfolds(q + w);
      }
    }
  }

  lemma ReleaseUnfolds(s: string)
    requires s != "" && !StopsAt(s)
    ensures Release(s) == [s[0]] + Release(s[1..])
  {
  }

  function StripPrefixes(s: string): string
  {
    StripEpoch(StripV(s))
  }

  /** What VersionSegments does after trimming. */
  function Core(s: string): seq<nat>
  {
    Numbers(Release(StripPrefixes(s)))
  }

  lemma NumbersBeforeSeparators(r: string)
    ensures Numbers(TrimRight(r, Separator)) == Numbers(r)
  {
    var off := TrimRightSplits(r, Separator);
    NumbersAppend(TrimRight(r, Separator), off);
  }

  lemma SegmentsAreCore(v: string)
    ensures VersionSegments(v) == Core(Trim(v))
  {
    NumbersBeforeSeparators(Release(StripPrefixes(Trim(v))));
  }

  lemma EpochAppend(p: string, rest: string)
    requires rest == "" || (!IsDigit(rest[0]) && rest[0] != ':')
    ensures StripEpoch(p + rest) == StripEpoch(p) + rest
    ensures '+' !in p ==> '+' !in StripEpoch(p)
  {
    DigitRunAppend(p, rest);
    var n := DigitRun(p);
    if 0 < n < |p| && p[n] == ':' { assert (p + rest)[n + 1..] == p[n + 1..] + rest; }
  }

  lemma VAppend(p: string, rest: string)
    requires rest == "" || rest[0] != 'v'
    ensures StripV(p + rest) == StripV(p) + rest
    ensures '+' !in p ==> '+' !in StripV(p)
  {
    if p == "" { assert p + rest == rest; } else { assert (p + rest)[1..] == p[1..] + rest; }
  }

  lemma PrefixesAppend(p: string, rest: string)
    requires rest == "" || (!IsDigit(rest[0]) && rest[0] != ':' && rest[0] != 'v')
    ensures StripPrefixes(p + rest) == StripPrefixes(p) + rest
    ensures '+' !in p ==> '+' !in StripPrefixes(p)
  {
    VAppend(p, rest);
    EpochAppend(StripV(p), rest);
  }

  lemma CoreEndsAtPlus(p: string, tail: string)
    requires '+' !in p
    ensures Core(p + ("+" + tail)) == Core(p)
  {
    PrefixesAppend(p, "+" + tail);
    var s := StripPrefixes(p);
    assert s + "+" + tail == s + ("+" + tail);
    ReleaseEndsAtPlus(s, tail);
  }

  lemma CoreBeforeBlanks(q: string, w: string)
    requires '+' !in q && AllIn(w, WebSpace)
    ensures Core(q + w) == Core(q)
  {
    PrefixesAppend(q, w);
    var t := ReleaseBeforeBlanks(StripPrefixes(q), w);
    NumbersAppend(Release(StripPrefixes(q)), t);
  }

  lemma {:induction false} TrimLeftAppend(p: string, rest: string, blank: CharClass)
    requires rest != "" && !IsIn(rest[0], blank)
    ensures TrimLeft(p + rest, blank) == TrimLeft(p, blank) + rest
  {
    if p == "" {
      assert p + rest == rest;
    } else {
      assert (p + rest)[1..] == p[1..] + rest;
      if IsIn(p[0], blank) { TrimLeftAppend(p[1..], rest, blank); }
    }
  }

  lemma {:induction false} TrimRightAppend(p: string, c: char, tail: string, blank: CharClass)
    requires !IsIn(c, blank)
    ensures TrimRight(p + [c] + tail, blank) == p + [c] + TrimRight(tail, blank)
  {
    var s := p + [c] + tail;
    if tail == "" {
      assert s == p + [c];
    } else if IsIn(tail[|tail| - 1], blank) {
      assert s[..|s| - 1] == p + [c] + tail[..|tail| - 1];
      TrimRightAppend(p, c, tail[..|tail| - 1], blank);
    }
  }

  lemma TrimBeforePlus(p: string, tail: string) returns (rest: string)
    ensures Trim(p + ("+" + tail)) == TrimLeft(p, WebSpace) + ("+" + rest)
  {
    var blank := WebSpace;
    TrimLeftAppend(p, "+" + tail, blank);
    var left := TrimLeft(p, blank);
    assert left + ("+" + tail) == left + ['+'] + tail;
    TrimRightAppend(left, '+', tail, blank);
    rest := TrimRight(tail, blank);
    assert left + ("+" + rest) == left + ['+'] + rest;
  }

  lemma CoreTrimRight(left: string)
    requires '+' !in left
    ensures Core(TrimRight(left, WebSpace)) == Core(left)
  {
    var off := TrimRightSplits(left, WebSpace);
    CoreBeforeBlanks(TrimRight(left, WebSpace), off);
  }

  lemma SegmentsIgnoreMetadata(p: string, tail: string)
    requires '+' !in p
    ensures VersionSegments(p + ("+" + tail)) == VersionSegments(p)
  {
    SegmentsAreCore(p + ("+" + tail));
    SegmentsAreCore(p);
    var rest := TrimBeforePlus(p, tail);
    var left := TrimLeft(p, WebSpace);
    var off := TrimLeftSplits(p, WebSpace);
    assert '+' !in left;
    CoreEndsAtPlus(left, rest);
    CoreTrimRight(left);
  }

  lemma {:induction false} BeforePlusLower(v: string)
    ensures BeforePlus(Lower(v)) == Lower(BeforePlus(v))
  {
    if v != "" {
      assert Lower(v)[1..] == Lower(v[1..]);
      BeforePlusLower(v[1..]);
    }
  }

  lemma {:induction false} BeforePlusIdempotent(v: string)
    requires '+' !in v
    ensures BeforePlus(v) == v
  {
    if v != "" { BeforePlusIdempotent(v[1..]); }
  }

  lemma CleanIgnoresMetadata(v: string)
    ensures BeforePlus(Lower(BeforePlus(v))) == BeforePlus(Lower(v))
  {
    BeforePlusLower(v);
    BeforePlusLower(BeforePlus(v));
    BeforePlusIdempotent(BeforePlus(v));
  }

  /** A version is its part before the first plus sign, or that and the sign and more. */
  lemma {:induction false} SplitAtPlus(v: string) returns (tail: string)
    ensures v == BeforePlus(v) || v == BeforePlus(v) + ("+" + tail)
  {
    if v == "" {
      tail := "";
    } else if v[0] == '+' {
      tail := v[1..];
    } else {
      tail := SplitAtPlus(v[1..]);
      assert v == [v[0]] + v[1..];
    }
  }

  lemma SegmentsBeforePlus(v: string)
    ensures VersionSegments(v) == VersionSegments(BeforePlus(v))
  {
    var tail := SplitAtPlus(v);
    if v != BeforePlus(v) { SegmentsIgnoreMetadata(BeforePlus(v), tail); }
  }

  lemma StandingFromClean(v: string, u: string)
    requires BeforePlus(Lower(v)) == BeforePlus(Lower(u))
    ensures IsPreReleaseVersion(v) == IsPreReleaseVersion(u) && Rank(v) == Rank(u)
  {
  }

  /** A version compares as its part before the first plus sign does. */
  lemma BuildMetadataIsIgnored(v: string)
    ensures KeyOf(v) == KeyOf(BeforePlus(v))
  {
    CleanIgnoresMetadata(v);
    StandingFromClean(v, BeforePlus(v));
    SegmentsBeforePlus(v);
  }
}
