/** File names of spooled reports (internal/agent/reporter/spool.go).  The name starts
    with the report's time in 20 columns so that a plain name sort is meant to be a
    sort by time. */
module SpoolNames {
  import opened Prelude
  import opened Lex

  const INT64_MIN: int := -0x8000_0000_0000_0000
  const INT64_MAX: int := 0x7FFF_FFFF_FFFF_FFFF

  predicate IsInt64(n: int)
  {
    INT64_MIN <= n <= INT64_MAX
  }

  function Pow10(w: nat): nat
    ensures Pow10(w) >= 1
  {
    if w == 0 then 1 else 10 * Pow10(w - 1)
  }

  function Digit(d: nat): char
    requires d < 10
  {
    (d + '0' as nat) as char
  }

  /** The `w` decimal digits of n, most significant first. */
  function Digits(n: nat, w: nat): (s: string)
    requires n < Pow10(w)
    ensures |s| == w && forall i :: 0 <= i < w ==> '0' <= s[i] <= '9'
  {
    if w == 0 then "" else Digits(n / 10, w - 1) + [Digit(n % 10)]
  }

  lemma {:induction false} NineteenDigits()
    ensures Pow10(19) == 10_000_000_000_000_000_000
    ensures Pow10(20) == 100_000_000_000_000_000_000
  {
    assert Pow10(4) == 10_000;
    assert Pow10(8) == 10_000 * Pow10(4) == 100_000_000;
    assert Pow10(12) == 10_000 * Pow10(8);
    assert Pow10(16) == 10_000 * Pow10(12);
    assert Pow10(19) == 1_000 * Pow10(16);
  }

  function Columns(): (w: nat)
    ensures w == 20
  {
    20
  }

  /** Zero-padded to w columns, a minus sign taking one of them. */
  function Padded(t: int, w: nat): (s: string)
    requires w >= 1 && -t < Pow10(w - 1) && t < Pow10(w)
    ensures |s| == w
  {
    if t >= 0 then Digits(t, w) else "-" + Digits(-t, w - 1)
  }

  /** The "%020d" rendering of a 64-bit time. */
  function Stamp(t: int): (s: string)
    requires IsInt64(t)
    ensures |s| == 20
  {
    NineteenDigits();
    Padded(t, Columns())
  }

  predicate IsSafe(c: char)
  {
    'a' <= c <= 'z' || 'A' <= c <= 'Z' || '0' <= c <= '9' || c == '-' || c == '_'
  }

  /** The scan id with every unsafe character replaced; never empty. */
  method SanitizeScanID(scanID: string) returns (safe: string)
    ensures safe == Sanitized(scanID)
  {
    var id := TrimSpace(scanID);
    if id == "" { id := "noid"; }
    safe := "";
    for i := 0 to |id|
      invariant safe == Masked(id[..i])
    {
      assert id[..i + 1] == id[..i] + [id[i]];
      safe := safe + [if IsSafe(id[i]) then id[i] else '_'];
    }
    assert id[..|id|] == id;
  }

  function Masked(s: string): (r: string)
    ensures |r| == |s|
    ensures forall i :: 0 <= i < |s| ==> r[i] == if IsSafe(s[i]) then s[i] else '_'
  {
    seq(|s|, i requires 0 <= i < |s| => if IsSafe(s[i]) then s[i] else '_')
  }

  function Sanitized(scanID: string): (r: string)
    ensures r != "" && forall c :: c in r ==> IsSafe(c)
  {
    var id := TrimSpace(scanID);
    Masked(if id == "" then "noid" else id)
  }

  /** A name for a file holds letters, digits, hyphens and underscores only, and an id that
      holds nothing else keeps its text. */
  lemma SanitizedIsSafe(id: string)
    ensures forall c :: c in Sanitized(id) ==> 'a' <= c <= 'z' || 'A' <= c <= 'Z' || '0' <= c <= '9' || c == '-' || c == '_'
    ensures id != "" && (forall c :: c in id ==> 'a' <= c <= 'z' || 'A' <= c <= 'Z' || '0' <= c <= '9' || c == '-' || c == '_') ==>
      Sanitized(id) == id
  {
    if id != "" && forall c :: c in id ==> IsSafe(c) {
      assert id[0] in id && id[|id| - 1] in id;
      CleanIsTrimmed(id);
      assert forall i :: 0 <= i < |id| ==> id[i] in id;
    }
  }

  function FileName(t: int, scanID: string): string
    requires IsInt64(t)
  {
    Stamp(t) + NameTail(scanID)
  }

  function NameTail(scanID: string): string
  {
    "-" + Sanitized(scanID) + ".json"
  }

  /** Names the spool lists. */
  predicate IsSpoolName(name: string)
  {
    HasSuffix(name, ".json") && !HasSuffix(name, ".tmp")
  }

  lemma FileNamesAreListed(t: int, scanID: string)
    requires IsInt64(t)
    ensures IsSpoolName(FileName(t, scanID))
    ensures !IsSpoolName(FileName(t, scanID) + ".tmp")
  {
    var n := FileName(t, scanID);
    assert n[|n| - 5..] == ".json";
    assert n[|n| - 1] == 'n' && ".tmp"[3] == 'p';
    assert n[|n| - 4..][3] == 'n';
    var m := n + ".tmp";
    assert m[|m| - 5..][4] == 'p' && ".json"[4] == 'n';
  }

  lemma SplitUnique(a: string, x: string, b: string, y: string)
    requires |a| == |b| && a + x == b + y
    ensures a == b && x == y
  {
    assert a == (a + x)[..|a|] && x == (a + x)[|a|..];
    assert b == (b + y)[..|b|] && y == (b + y)[|b|..];
  }

  lemma NameParts(stamp: string, id: string, stamp': string, id': string)
    requires |stamp| == |stamp'| && stamp + ("-" + id + ".json") == stamp' + ("-" + id' + ".json")
    ensures stamp == stamp' && id == id'
  {
    SplitUnique(stamp, "-" + id + ".json", stamp', "-" + id' + ".json");
    assert |id| == |id'|;
    SplitUnique("-" + id, ".json", "-" + id', ".json");
    SplitUnique("-", id, "-", id');
  }

  lemma StampInjective(t: int, u: int)
    requires IsInt64(t) && IsInt64(u) && Stamp(t) == Stamp(u)
    ensures t == u
  {
    if t < u { StampOrder(t, "", u, ""); }
    if u < t { StampOrder(u, "", t, ""); }
    assert Stamp(t) + "" == Stamp(t) && Stamp(u) + "" == Stamp(u);
    LeqReflexive(Stamp(t));
  }

  /** Distinct (time, safe id) pairs get distinct names. */
  lemma FileNameInjective(t: int, a: string, u: int, b: string)
    requires IsInt64(t) && IsInt64(u)
    requires FileName(t, a) == FileName(u, b)
    ensures t == u && Sanitized(a) == Sanitized(b)
  {
    NameParts(Stamp(t), Sanitized(a), Stamp(u), Sanitized(b));
    StampInjective(t, u);
  }

  lemma LeqCons(c: char, s: string, d: char, t: string)
    ensures Leq([c] + s, [d] + t) == (c < d || (c == d && Leq(s, t)))
  {
    assert ([c] + s)[1..] == s && ([d] + t)[1..] == t;
  }

  /** Equal-width digit strings order as their numbers do, whatever follows them. */
  lemma {:induction false} DigitsOrder(a: nat, b: nat, w: nat, x: string, y: string)
    requires a < b < Pow10(w)
    ensures Leq(Digits(a, w) + x, Digits(b, w) + y) && !Leq(Digits(b, w) + y, Digits(a, w) + x)
  {
    if w > 0 {
      var c, d := Digit(a % 10), Digit(b % 10);
      assert Digits(a, w) + x == Digits(a / 10, w - 1) + ([c] + x);
      assert Digits(b, w) + y == Digits(b / 10, w - 1) + ([d] + y);
      if a / 10 < b / 10 {
        DigitsOrder(a / 10, b / 10, w - 1, [c] + x, [d] + y);
      } else {
        var p := Digits(a / 10, w - 1);
        LeqPrefix(p, [c] + x, [d] + y);
        LeqPrefix(p, [d] + y, [c] + x);
        LeqCons(c, x, d, y);
        LeqCons(d, y, c, x);
      }
    }
  }

  /** After a minus sign the larger magnitude sorts last. */
  lemma NegativeOrder(a: nat, b: nat, w: nat, x: string, y: string)
    requires a < b < Pow10(w)
    ensures var s, t := "-" + Digits(a, w) + x, "-" + Digits(b, w) + y; Leq(s, t) && !Leq(t, s)
  {
    var s, t := Digits(a, w) + x, Digits(b, w) + y;
    DigitsOrder(a, b, w, x, y);
    LeqCons('-', s, '-', t);
    LeqCons('-', t, '-', s);
    assert "-" + Digits(a, w) + x == ['-'] + s && "-" + Digits(b, w) + y == ['-'] + t;
  }

  lemma MinusBeforeDigit(s: string, t: string)
    requires t != "" && '0' <= t[0]
    ensures Leq("-" + s, t) && !Leq(t, "-" + s)
  {
    LeqCons('-', s, t[0], t[1..]);
    LeqCons(t[0], t[1..], '-', s);
    assert t == [t[0]] + t[1..];
  }

  ghost predicate StrictlyBefore(s: string, t: string)
  {
    Leq(s, t) && !Leq(t, s)
  }

  lemma MixedOrder(a: nat, x: string, u: nat, y: string, w: nat)
    requires w >= 2 && a < Pow10(w - 1) && u < Pow10(w)
    ensures StrictlyBefore("-" + Digits(a, w - 1) + x, Digits(u, w) + y)
  {
    MinusBeforeDigit(Digits(a, w - 1) + x, Digits(u, w) + y);
    assert "-" + Digits(a, w - 1) + x == "-" + (Digits(a, w - 1) + x);
  }

  lemma PaddedOrder(t: int, x: string, u: int, y: string, w: nat)
    requires w >= 2 && t < u && -t < Pow10(w - 1) && u < Pow10(w)
    ensures -u < Pow10(w - 1) && t < Pow10(w)
    ensures var s, s' := Padded(t, w) + x, Padded(u, w) + y;
      if u >= 0 then StrictlyBefore(s, s') else StrictlyBefore(s', s)
  {
    if t >= 0 {
      DigitsOrder(t, u, w, x, y);
    } else if u < 0 {
      NegativeOrder(-u, -t, w - 1, y, x);
    } else {
      MixedOrder(-t, x, u, y, w);
    }
  }

  lemma StampOrder(t: int, x: string, u: int, y: string)
    requires IsInt64(t) && IsInt64(u) && t < u
    ensures u >= 0 ==> Leq(Stamp(t) + x, Stamp(u) + y) && !Leq(Stamp(u) + y, Stamp(t) + x)
    ensures u < 0 ==> Leq(Stamp(u) + y, Stamp(t) + x) && !Leq(Stamp(t) + x, Stamp(u) + y)
  {
    NineteenDigits();
    PaddedOrder(t, x, u, y, Columns());
  }

  /** For times t < u, name order is time order exactly when the later time is not
      before 1970; two negative times sort the wrong way round. */
  lemma FileNameOrder(t: int, a: string, u: int, b: string)
    requires IsInt64(t) && IsInt64(u) && t < u
    ensures (Leq(FileName(t, a), FileName(u, b)) && !Leq(FileName(u, b), FileName(t, a))) <==> u >= 0
    ensures u < 0 ==> Leq(FileName(u, b), FileName(t, a))
  {
    StampOrder(t, NameTail(a), u, NameTail(b));
  }
}
