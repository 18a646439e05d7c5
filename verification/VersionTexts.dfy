/** What the version comparison of the web client (web/src/App.tsx, lines 4 to 66) means
    for versions as people write them: numbers, dots, and perhaps a pre-release part. */
module VersionTexts {
  import opened Prelude
  import opened VersionOrder

  /** A written number, perhaps with leading zeros. */
  datatype Num = Num(zeros: nat, value: nat)

  datatype Tail = Plain | Pre(sep: string, word: string, marker: nat, num: Option<Num>)

  /** For example v1:1.02.0-RC1. */
  datatype Version = Version(v: bool, epoch: Option<Num>, numbers: seq<Num>, tail: Tail)
  {
    ghost predicate Valid()
    {
      && numbers != []
      && (tail.Pre? ==> AllIn(tail.sep, Separator) && tail.marker < |MARKERS| && Lower(tail.word) == MARKERS[tail.marker])
    }

    function Front(): string
    {
      (if v then "v" else "") + (match epoch case None => "" case Some(e) => Written(e) + ":")
    }

    function Text(): string
      requires numbers != []
    {
      Front() + (Dotted(numbers) + TailText(tail))
    }
  }

  function Decimal(n: nat): string
  {
    (if n < 10 then "" else Decimal(n / 10)) + [('0' as int + n % 10) as char]
  }

  function Zeros(n: nat): string
  {
    if n == 0 then "" else "0" + Zeros(n - 1)
  }

  function Written(n: Num): string
  {
    Zeros(n.zeros) + Decimal(n.value)
  }

  function Dotted(ns: seq<Num>): string
    requires ns != []
  {
    Written(ns[0]) + if |ns| == 1 then "" else "." + Dotted(ns[1..])
  }

  function NumText(n: Option<Num>): string
  {
    match n case None => "" case Some(x) => Written(x)
  }

  function TailText(t: Tail): string
  {
    match t case Plain => "" case Pre(sep, word, _, num) => sep + (word + NumText(num))
  }

  function Values(ns: seq<Num>): seq<nat>
  {
    if ns == [] then [] else [ns[0].value] + Values(ns[1..])
  }

  // ---------------------------------------------------------------------
  // Numbers read back.

  predicate Digits(s: string)
  {
    forall i :: 0 <= i < |s| ==> IsDigit(s[i])
  }

  lemma {:induction false} DecimalIsNumber(n: nat)
    ensures Decimal(n) != "" && Digits(Decimal(n)) && Number(Decimal(n)) == n
  {
    var last := ('0' as int + n % 10) as char;
    if n < 10 {
      assert Decimal(n) == [last];
      assert [last][..0] == "";
    } else {
      DecimalIsNumber(n / 10);
      assert Decimal(n)[..|Decimal(n)| - 1] == Decimal(n / 10);
    }
  }

  lemma {:induction false} LeadingZero(s: string)
    requires Digits(s)
    ensures Digits("0" + s) && Number("0" + s) == Number(s)
    decreases |s|
  {
    if s == "" {
      assert "0" + s == "0";
      assert "0"[..0] == "";
    } else {
      var before := s[..|s| - 1];
      LeadingZero(before);
      assert ("0" + s)[..|s|] == "0" + before;
      assert ("0" + s)[|s|] == s[|s| - 1];
    }
  }

  lemma {:induction false} WrittenIsNumber(n: Num)
    ensures Written(n) != "" && Digits(Written(n)) && Number(Written(n)) == n.value
    decreases n.zeros
  {
    if n.zeros == 0 {
      DecimalIsNumber(n.value);
      assert Written(n) == Decimal(n.value);
    } else {
      var fewer := Num(n.zeros - 1, n.value);
      WrittenIsNumber(fewer);
      LeadingZero(Written(fewer));
      assert Written(n) == "0" + Written(fewer);
    }
  }

  predicate NoDigitFirst(s: string)
  {
    s == "" || !IsDigit(s[0])
  }

  lemma {:induction false} RunOfDigits(d: string, rest: string)
    requires Digits(d) && NoDigitFirst(rest)
    ensures DigitRun(d + rest) == |d|
  {
    if d == "" {
      assert d + rest == rest;
    } else {
      assert (d + rest)[1..] == d[1..] + rest;
      RunOfDigits(d[1..], rest);
    }
  }

  lemma NumbersFirst(d: string, rest: string)
    requires d != "" && Digits(d) && NoDigitFirst(rest)
    ensures Numbers(d + rest) == [Number(d)] + Numbers(rest)
  {
    RunOfDigits(d, rest);
    assert (d + rest)[..|d|] == d && (d + rest)[|d|..] == rest;
  }

  lemma {:induction false} DottedReadsBack(ns: seq<Num>)
    requires ns != []
    ensures Numbers(Dotted(ns)) == Values(ns)
  {
    var d := Written(ns[0]);
    WrittenIsNumber(ns[0]);
    if |ns| == 1 {
      NumbersFirst(d, "");
      assert Dotted(ns) == d + "" && Values(ns[1..]) == [];
    } else {
      var rest := "." + Dotted(ns[1..]);
      NumbersFirst(d, rest);
      assert rest[1..] == Dotted(ns[1..]);
      DottedReadsBack(ns[1..]);
    }
  }

  // ---------------------------------------------------------------------
  // The segments of a version.

  /** Digits and separators: no mark begins with any of them. */
  predicate Bare(s: string)
  {
    forall i :: 0 <= i < |s| ==> IsDigit(s[i]) || IsIn(s[i], Separator)
  }

  lemma BareStopsNot(c: char, rest: string)
    requires IsDigit(c) || IsIn(c, Separator)
    ensures !StopsAt([c] + rest)
  {
    var low := Lower([c] + rest);
    assert low[0] == c;
    forall k | 0 <= k < |MARKERS| ensures !HasPrefix(low, MARKERS[k]) { assert MARKERS[k][0] != c; }
  }

  lemma {:induction false} ReleaseOfBare(s: string, rest: string)
    requires Bare(s) && Release(rest) == ""
    ensures Release(s + rest) == s
  {
    if s == "" {
      assert s + rest == rest;
    } else {
      assert s + rest == [s[0]] + (s[1..] + rest);
      BareStopsNot(s[0], s[1..] + rest);
      ReleaseUnfolds(s + rest);
      ReleaseOfBare(s[1..], rest);
    }
  }

  lemma {:induction false} DottedIsBare(ns: seq<Num>)
    requires ns != []
    ensures Dotted(ns) != "" && Bare(Dotted(ns)) && IsDigit(Dotted(ns)[0]) && IsDigit(Dotted(ns)[|Dotted(ns)| - 1])
  {
    WrittenIsNumber(ns[0]);
    if |ns| > 1 { DottedIsBare(ns[1..]); }
  }

  lemma MarkerLetters(word: string, k: nat)
    requires k < |MARKERS| && Lower(word) == MARKERS[k]
    ensures word != "" && forall i :: 0 <= i < |word| ==> 'a' <= LowerChar(word[i]) <= 'z'
  {
    assert |word| == |MARKERS[k]|;
    forall i | 0 <= i < |word| ensures 'a' <= LowerChar(word[i]) <= 'z' {
      assert Lower(word)[i] == MARKERS[k][i];
    }
  }

  lemma WordStops(word: string, k: nat, rest: string)
    requires k < |MARKERS| && Lower(word) == MARKERS[k]
    ensures Release(word + rest) == ""
  {
    MarkerLetters(word, k);
    var low := Lower(word + rest);
    assert low[..|word|] == Lower(word);
    assert HasPrefix(low, MARKERS[k]);
  }

  /** What follows the numbers: separators, then something at which the release ends. */
  lemma TailSplits(t: Tail) returns (sep: string, rest: string)
    requires t.Pre? ==> AllIn(t.sep, Separator) && t.marker < |MARKERS| && Lower(t.word) == MARKERS[t.marker]
    ensures TailText(t) == sep + rest && AllIn(sep, Separator) && Release(rest) == ""
    ensures NoDigitFirst(TailText(t)) && (TailText(t) != "" ==> TailText(t)[0] != ':')
  {
    if t.Plain? {
      sep, rest := "", "";
    } else {
      sep, rest := t.sep, t.word + NumText(t.num);
      WordStops(t.word, t.marker, NumText(t.num));
      MarkerLetters(t.word, t.marker);
    }
  }

  lemma CoreOfBare(d: string, sep: string, rest: string)
    requires d != "" && Bare(d) && IsDigit(d[|d| - 1]) && AllIn(sep, Separator) && Release(rest) == ""
    ensures TrimRight(Release(d + (sep + rest)), Separator) == d
  {
    assert d + (sep + rest) == (d + sep) + rest;
    ReleaseOfBare(d + sep, rest);
    assert !IsIn(d[|d| - 1], Separator);
    TrimRightOff(d, sep, Separator);
  }

  lemma VIsStripped(v: bool, t: string)
    requires t != "" && t[0] != 'v'
    ensures StripV((if v then "v" else "") + t) == t
  {
    if v { assert ("v" + t)[1..] == t; } else { assert "" + t == t; }
  }

  lemma EpochIsStripped(e: Num, body: string)
    ensures StripEpoch(Written(e) + ":" + body) == body
  {
    var d := Written(e);
    WrittenIsNumber(e);
    RunOfDigits(d, ":" + body);
    assert d + ":" + body == d + (":" + body);
    assert (d + (":" + body))[|d| + 1..] == body;
  }

  lemma FrontIsStripped(x: Version)
    requires x.Valid()
    ensures StripEpoch(StripV(x.Text())) == Dotted(x.numbers) + TailText(x.tail)
  {
    var body := Dotted(x.numbers) + TailText(x.tail);
    var sep, rest := TailSplits(x.tail);
    DottedIsBare(x.numbers);
    if x.epoch.None? {
      assert x.Text() == (if x.v then "v" else "") + body;
      VIsStripped(x.v, body);
      NoEpoch(x.numbers, TailText(x.tail));
    } else {
      var e := Written(x.epoch.value);
      WrittenIsNumber(x.epoch.value);
      assert x.Text() == (if x.v then "v" else "") + (e + ":" + body);
      VIsStripped(x.v, e + ":" + body);
      EpochIsStripped(x.epoch.value, body);
    }
  }

  lemma SeqAssoc<T>(a: seq<T>, b: seq<T>, c: seq<T>)
    ensures a + b + c == a + (b + c)
    ensures |b + c| > 0 ==> (a + (b + c))[|a| + |b + c| - 1] == (b + c)[|b + c| - 1]
  {
  }

  lemma NoEpoch(ns: seq<Num>, tail: string)
    requires ns != [] && NoDigitFirst(tail) && (tail != "" ==> tail[0] != ':')
    ensures StripEpoch(Dotted(ns) + tail) == Dotted(ns) + tail
  {
    var d := Written(ns[0]);
    WrittenIsNumber(ns[0]);
    var more := if |ns| == 1 then "" else "." + Dotted(ns[1..]);
    assert Dotted(ns) == d + more;
    SeqAssoc(d, more, tail);
    RunOfDigits(d, more + tail);
  }

  lemma SolidEnds(x: Version)
    requires x.Valid()
    ensures var s := x.Text(); s != "" && !IsIn(s[0], WebSpace) && !IsIn(s[|s| - 1], WebSpace)
  {
    var s, body := x.Text(), Dotted(x.numbers) + TailText(x.tail);
    DottedIsBare(x.numbers);
    FirstIsSolid(x);
    LastIsSolid(x);
    assert s[|s| - 1] == body[|body| - 1];
  }

  lemma TextIsTrimmed(x: Version)
    requires x.Valid()
    ensures Trim(x.Text()) == x.Text() && x.Text() != ""
  {
    SolidEnds(x);
  }

  lemma FirstIsSolid(x: Version)
    requires x.Valid()
    ensures x.Text() != "" && !IsIn(x.Text()[0], WebSpace)
  {
    DottedIsBare(x.numbers);
    if x.epoch.Some? { WrittenIsNumber(x.epoch.value); }
  }

  lemma LastIsSolid(x: Version)
    requires x.Valid()
    ensures var body := Dotted(x.numbers) + TailText(x.tail);
      body != "" && !IsIn(body[|body| - 1], WebSpace)
  {
    DottedIsBare(x.numbers);
    if x.tail.Pre? {
      var word, d := x.tail.word, NumText(x.tail.num);
      MarkerLetters(word, x.tail.marker);
      if x.tail.num.Some? { WrittenIsNumber(x.tail.num.value); }
      SeqAssoc(x.tail.sep, word, d);
      SeqAssoc(Dotted(x.numbers), x.tail.sep, word + d);
      assert !IsIn((word + d)[|word + d| - 1], WebSpace);
    }
  }

  lemma SegmentsAreValues(x: Version)
    requires x.Valid()
    ensures VersionSegments(x.Text()) == Values(x.numbers)
  {
    TextIsTrimmed(x);
    FrontIsStripped(x);
    DottedIsBare(x.numbers);
    var sep, rest := TailSplits(x.tail);
    CoreOfBare(Dotted(x.numbers), sep, rest);
    DottedReadsBack(x.numbers);
  }

  /** Blanks around a version do not count for its numbers. */
  lemma SegmentsIgnoreBlanks(x: Version, pre: string, post: string)
    requires x.Valid() && AllIn(pre, WebSpace) && AllIn(post, WebSpace)
    ensures VersionSegments(pre + x.Text() + post) == Values(x.numbers)
  {
    var s := x.Text();
    TextIsTrimmed(x);
    SolidEnds(x);
    assert pre + s + post == pre + (s + post);
    TrimLeftOff(pre, s + post, WebSpace);
    TrimRightOff(s, post, WebSpace);
    SegmentsAreValues(x);
  }

  // ---------------------------------------------------------------------
  // The pre-release standing of a version.

  /** No marker begins with any of these, and there is no plus sign or tilde. */
  predicate Dull(s: string)
  {
    forall i :: 0 <= i < |s| ==> IsDigit(s[i]) || IsIn(s[i], Separator) || s[i] == ':' || s[i] == 'v'
  }

  predicate Letters(s: string)
  {
    forall i :: 0 <= i < |s| ==> 'a' <= s[i] <= 'z'
  }

  lemma MarkersAreLetters(j: nat)
    requires j < |MARKERS|
    ensures MARKERS[j] != "" && Letters(MARKERS[j]) && MARKERS[j][0] != 'v'
  {
  }

  lemma PrefixChars(s: string, i: nat, sub: string)
    requires i <= |s| && HasPrefix(s[i..], sub)
    ensures i + |sub| <= |s| && forall t :: 0 <= t < |sub| ==> s[i + t] == sub[t]
    ensures sub != "" ==> s[i] == sub[0]
  {
    if sub != "" { assert s[i..][..|sub|][0] == s[i]; }
    forall t | 0 <= t < |sub| ensures s[i + t] == sub[t] { assert s[i..][..|sub|][t] == sub[t]; }
  }

  lemma NotInDull(s: string, sub: string)
    requires Dull(s) && sub != "" && ((Letters(sub) && sub[0] != 'v') || sub == "~")
    ensures IndexOf(s, sub) < 0
  {
    IndexOfMeans(s, sub);
    forall r | 0 <= r <= |s| ensures !HasPrefix(s[r..], sub) {
      if HasPrefix(s[r..], sub) { PrefixChars(s, r, sub); }
    }
  }

  /** A marker in front + m + digits can only be in m. */
  lemma OnlyInTheMiddle(front: string, m: string, d: string, sub: string, i: nat)
    requires Dull(front) && Digits(d) && sub != "" && Letters(sub) && sub[0] != 'v'
    requires i <= |front + m + d| && HasPrefix((front + m + d)[i..], sub)
    ensures |front| <= i && i - |front| <= |m| && HasPrefix(m[i - |front|..], sub)
  {
    var s := front + m + d;
    PrefixChars(s, i, sub);
    assert s[i + (|sub| - 1)] == sub[|sub| - 1];
    assert i + |sub| <= |front| + |m|;
    assert m[i - |front|..][..|sub|] == s[i..][..|sub|];
  }

  /** No marker holds an earlier one of the list, and none holds itself but at its start. */
  lemma MarkersDoNotHide(k: nat, j: nat, i: nat)
    requires j <= k < |MARKERS| && i <= |MARKERS[k]| && HasPrefix(MARKERS[k][i..], MARKERS[j])
    ensures j == k && i == 0
  {
    assert |MARKERS[k][i..]| >= |MARKERS[j]|;
    assert MARKERS[k][i..][0] == MARKERS[k][i] == MARKERS[j][0];
    assert MARKERS[k][i..][1] == MARKERS[k][i + 1] == MARKERS[j][1];
  }

  lemma FoundInTheMiddle(front: string, m: string, d: string, sub: string) returns (i: int)
    requires Dull(front) && Digits(d) && sub != "" && Letters(sub) && sub[0] != 'v'
    ensures var r := IndexOf(front + m + d, sub);
      r < 0 || (r == |front| + i && 0 <= i <= |m| && HasPrefix(m[i..], sub))
  {
    var s := front + m + d;
    var r := IndexOf(s, sub);
    i := r - |front|;
    IndexOfMeans(s, sub);
    if r >= 0 { OnlyInTheMiddle(front, m, d, sub, r); }
  }

  lemma FoundNowhereElse(front: string, k: nat, d: string, j: nat)
    requires Dull(front) && Digits(d) && j <= k < |MARKERS|
    ensures var r := IndexOf(front + MARKERS[k] + d, MARKERS[j]);
      r < 0 || (j == k && r == |front|)
  {
    MarkersAreLetters(j);
    var i := FoundInTheMiddle(front, MARKERS[k], d, MARKERS[j]);
    if IndexOf(front + MARKERS[k] + d, MARKERS[j]) >= 0 { MarkersDoNotHide(k, j, i); }
  }

  lemma FoundThere(front: string, m: string, d: string)
    ensures IndexOf(front + m + d, m) >= 0
  {
    var s := front + m + d;
    IndexOfMeans(s, m);
    assert s[|front|..] == m + d;
    assert HasPrefix(s[|front|..], m);
  }

  /** The marker is found where it stands, and no earlier one of the list at all. */
  lemma MarkerIsFound(front: string, k: nat, d: string, j: nat)
    requires Dull(front) && Digits(d) && j <= k < |MARKERS|
    ensures IndexOf(front + MARKERS[k] + d, MARKERS[j]) == if j == k then |front| else -1
  {
    FoundNowhereElse(front, k, d, j);
    if j == k { FoundThere(front, MARKERS[k], d); }
  }

  lemma NumberAfter(front: string, k: nat, num: Option<Num>)
    requires Dull(front) && k < |MARKERS|
    ensures PreReleaseNumber(front + MARKERS[k] + NumText(num), MARKERS[k]) == Written0(num)
  {
    var d := NumText(num);
    if num.Some? { WrittenIsNumber(num.value); }
    MarkerIsFound(front, k, d, k);
    assert (front + MARKERS[k] + d)[|front| + |MARKERS[k]|..] == d;
    if num.Some? {
      NumbersFirst(d, "");
      assert d + "" == d;
    }
  }

  function Written0(num: Option<Num>): nat
  {
    match num case None => 0 case Some(n) => n.value
  }

  lemma {:induction false} RankIsMarker(front: string, k: nat, num: Option<Num>, i: nat)
    requires Dull(front) && i <= k < |MARKERS|
    ensures RankFrom(front + MARKERS[k] + NumText(num), i) == (k + 1, Written0(num))
    decreases k - i
  {
    if num.Some? { WrittenIsNumber(num.value); }
    MarkerIsFound(front, k, NumText(num), i);
    if i == k {
      NumberAfter(front, k, num);
    } else {
      RankIsMarker(front, k, num, i + 1);
    }
  }

  /** The text before the marker, if any. */
  function Lead(x: Version): string
    requires x.numbers != []
  {
    x.Front() + (Dotted(x.numbers) + if x.tail.Pre? then x.tail.sep else "")
  }

  lemma LeadIsDull(x: Version)
    requires x.Valid()
    ensures Dull(Lead(x))
  {
    DottedIsBare(x.numbers);
    if x.epoch.Some? { WrittenIsNumber(x.epoch.value); }
  }

  lemma DullIsLow(s: string)
    requires Dull(s)
    ensures Lower(s) == s && '+' !in s
  {
  }

  lemma LowerAppend(s: string, t: string)
    ensures Lower(s + t) == Lower(s) + Lower(t)
  {
  }

  lemma LowerOfThree(lead: string, word: string, d: string)
    requires Dull(lead) && Dull(d)
    ensures Lower(lead + (word + d)) == lead + Lower(word) + d
  {
    DullIsLow(lead);
    DullIsLow(d);
    LowerAppend(lead, word + d);
    LowerAppend(word, d);
  }

  lemma NumTextIsDull(num: Option<Num>)
    ensures Dull(NumText(num)) && Digits(NumText(num))
  {
    if num.Some? { WrittenIsNumber(num.value); }
  }

  /** What the marker tests look at. */
  lemma CleanText(x: Version)
    requires x.Valid()
    ensures BeforePlus(Lower(x.Text())) ==
      if x.tail.Plain? then Lead(x) else Lead(x) + MARKERS[x.tail.marker] + NumText(x.tail.num)
  {
    var lead := Lead(x);
    LeadIsDull(x);
    DullIsLow(lead);
    if x.tail.Plain? {
      assert x.Text() == lead;
      BeforePlusIdempotent(lead);
    } else {
      PreText(x);
      CleanPre(lead, x.tail.marker, NumText(x.tail.num), x.tail.word);
    }
  }

  lemma PreText(x: Version)
    requires x.Valid() && x.tail.Pre?
    ensures x.Text() == Lead(x) + (x.tail.word + NumText(x.tail.num)) && Dull(NumText(x.tail.num))
  {
    NumTextIsDull(x.tail.num);
    SeqJoin(x.Front(), Dotted(x.numbers), x.tail.sep, x.tail.word + NumText(x.tail.num));
  }

  lemma SeqJoin<T>(a: seq<T>, b: seq<T>, c: seq<T>, d: seq<T>)
    ensures a + (b + (c + d)) == a + (b + c) + d
  {
  }

  lemma CleanPre(lead: string, k: nat, d: string, word: string)
    requires Dull(lead) && Dull(d) && k < |MARKERS| && Lower(word) == MARKERS[k]
    ensures BeforePlus(Lower(lead + (word + d))) == lead + MARKERS[k] + d
  {
    LowerOfThree(lead, word, d);
    DullIsLow(lead);
    DullIsLow(d);
    MarkersAreLetters(k);
    assert '+' !in lead + MARKERS[k] + d;
    BeforePlusIdempotent(lead + MARKERS[k] + d);
  }

  lemma ReleaseHasNoMarks(lead: string)
    requires Dull(lead)
    ensures IndexOf(lead, "~") < 0 && forall k :: 0 <= k < |MARKERS| ==> IndexOf(lead, MARKERS[k]) < 0
  {
    NotInDull(lead, "~");
    forall k | 0 <= k < |MARKERS| ensures IndexOf(lead, MARKERS[k]) < 0 {
      MarkersAreLetters(k);
      NotInDull(lead, MARKERS[k]);
    }
  }

  lemma StandingOf(x: Version)
    requires x.Valid()
    ensures IsPreReleaseVersion(x.Text()) == x.tail.Pre?
    ensures x.tail.Pre? ==> Rank(x.Text()) == (x.tail.marker + 1, Written0(x.tail.num))
  {
    CleanText(x);
    LeadIsDull(x);
    if x.tail.Plain? {
      ReleaseHasNoMarks(Lead(x));
    } else {
      var k := x.tail.marker;
      NumTextIsDull(x.tail.num);
      MarkerIsFound(Lead(x), k, NumText(x.tail.num), k);
      RankIsMarker(Lead(x), k, x.tail.num, 0);
    }
  }

  // ---------------------------------------------------------------------
  // The direction of the comparison.

  /** The first number that differs, counting missing ones as zero, is the smaller one in
      p. */
  ghost predicate Below(p: seq<nat>, q: seq<nat>)
  {
    exists i: nat :: At(p, i) < At(q, i) && forall j: nat :: j < i ==> At(p, j) == At(q, j)
  }

  lemma {:induction false} SegmentDiffNegative(p: seq<nat>, q: seq<nat>)
    ensures SegmentDiff(p, q) < 0 <==> Below(p, q)
    decreases |p| + |q|
  {
    if p == [] && q == [] {
      assert forall i: nat :: At(p, i) == At(q, i);
    } else {
      assert At(p, 0) == Head(p) && At(q, 0) == Head(q);
      assert forall i: nat :: At(p, i + 1) == At(Rest(p), i) && At(q, i + 1) == At(Rest(q), i);
      if Head(p) == Head(q) {
        SegmentDiffNegative(Rest(p), Rest(q));
        BelowShifts(p, q);
      } else if Head(p) < Head(q) {
        assert At(p, 0) < At(q, 0);
      } else {
        forall i: nat ensures !(At(p, i) < At(q, i) && forall j: nat :: j < i ==> At(p, j) == At(q, j)) {
          if i > 0 { assert At(p, 0) != At(q, 0); }
        }
      }
    }
  }

  lemma AtRest(p: seq<nat>, i: nat)
    ensures At(p, i + 1) == At(Rest(p), i) && At(p, 0) == Head(p)
  {
  }

  lemma BelowShifts(p: seq<nat>, q: seq<nat>)
    requires Head(p) == Head(q)
    ensures Below(p, q) <==> Below(Rest(p), Rest(q))
  {
    if Below(p, q) {
      var i: nat :| At(p, i) < At(q, i) && forall j: nat :: j < i ==> At(p, j) == At(q, j);
      assert i > 0;
      AtRest(p, i - 1);
      AtRest(q, i - 1);
      forall j: nat | j < i - 1 ensures At(Rest(p), j) == At(Rest(q), j) {
        AtRest(p, j);
        AtRest(q, j);
      }
    }
    if Below(Rest(p), Rest(q)) {
      var i: nat :| At(Rest(p), i) < At(Rest(q), i) && forall j: nat :: j < i ==> At(Rest(p), j) == At(Rest(q), j);
      AtRest(p, i);
      AtRest(q, i);
      forall j: nat | j < i + 1 ensures At(p, j) == At(q, j) {
        if j > 0 {
          AtRest(p, j - 1);
          AtRest(q, j - 1);
        }
      }
    }
  }

  /** x is older than y: its numbers are; or they are level and x is a pre-release of what
      y is the release of; or both are pre-releases, x with an earlier marker, or the same
      and a smaller number.  A leading v and an epoch do not count. */
  ghost predicate Older(x: Version, y: Version)
    requires x.Valid() && y.Valid()
  {
    var p, q := Values(x.numbers), Values(y.numbers);
    Below(p, q) ||
    ((forall i: nat :: At(p, i) == At(q, i)) && x.tail.Pre? &&
     (y.tail.Plain? || x.tail.marker < y.tail.marker ||
      (x.tail.marker == y.tail.marker && Written0(x.tail.num) < Written0(y.tail.num))))
  }

  /** The comparison is negative exactly for the older version. */
  lemma NegativeMeansOlder(x: Version, y: Version)
    requires x.Valid() && y.Valid()
    ensures KeyDiff(KeyOf(x.Text()), KeyOf(y.Text())) < 0 <==> Older(x, y)
  {
    SegmentsAreValues(x);
    SegmentsAreValues(y);
    StandingOf(x);
    StandingOf(y);
    SegmentDiffNegative(Values(x.numbers), Values(y.numbers));
    SegmentDiffZero(Values(x.numbers), Values(y.numbers));
  }

  lemma LowLetters(word: string)
    requires Letters(word)
    ensures Lower(word) == word
  {
  }

  /** With the same numbers, a release candidate is the newest of the pre-releases and a
      development version the oldest, whatever number follows; the release is newer than
      all of them. */
  lemma PreReleasesInOrder(ns: seq<Num>, sep: string, i: nat, j: nat, a: Option<Num>, b: Option<Num>)
    requires ns != [] && AllIn(sep, Separator) && i < j < 7
    ensures var words := ["dev", "snapshot", "preview", "pre", "alpha", "beta", "rc"];
      var first, second := Dotted(ns) + (sep + (words[i] + NumText(a))), Dotted(ns) + (sep + (words[j] + NumText(b)));
      && KeyDiff(KeyOf(first), KeyOf(second)) < 0
      && KeyDiff(KeyOf(second), KeyOf(Dotted(ns))) < 0
  {
    var words := ["dev", "snapshot", "preview", "pre", "alpha", "beta", "rc"];
    LowLetters(words[i]);
    LowLetters(words[j]);
    var x, y := Version(false, None, ns, Pre(sep, words[i], i, a)), Version(false, None, ns, Pre(sep, words[j], j, b));
    var z := Version(false, None, ns, Plain);
    assert x.Text() == Dotted(ns) + (sep + (words[i] + NumText(a)));
    assert y.Text() == Dotted(ns) + (sep + (words[j] + NumText(b)));
    assert z.Text() == Dotted(ns);
    NegativeMeansOlder(x, y);
    NegativeMeansOlder(y, z);
  }
}
