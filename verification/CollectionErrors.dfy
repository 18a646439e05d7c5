/** The bounded list of collection errors in a scan report, and the string helpers it
    uses (cmd/agent/main.go). */
module CollectionErrors {
  import opened Prelude
  import opened Utf8

  type Bytes = seq<byte>

  const MAX_ERRORS: nat := 32
  const MAX_ERROR_BYTES: nat := 2048

  predicate IsAscii(s: string)
  {
    forall i :: 0 <= i < |s| ==> s[i] as int < 128
  }

  function AsByte(c: char): byte
    requires c as int < 128
  {
    c as int
  }

  function Ascii(s: string): (b: Bytes)
    requires IsAscii(s)
    ensures |b| == |s| && forall i :: 0 <= i < |s| ==> b[i] == s[i] as int
  {
    seq(|s|, i requires 0 <= i < |s| => AsByte(s[i]))
  }

  lemma {:induction false} AsciiIsValid(b: Bytes)
    requires forall i :: 0 <= i < |b| ==> b[i] < 128
    ensures Valid(b)
    decreases |b|
  {
    if b != [] { AsciiIsValid(b[1..]); }
  }

  const SEPARATOR: Bytes := Ascii(": ")
  const TRUNCATED: Bytes := Ascii("...(truncated)")
  const OMITTED: Bytes := Ascii("additional collection errors omitted")

  predicate IsBlank(b: byte)
  {
    b == 0x20 || b == 0x09 || b == 0x0A || b == 0x0D
  }

  /** `r` is `s` without its blanks at both ends. */
  ghost predicate IsTrimmed(s: Bytes, r: Bytes)
  {
    exists i, j :: 0 <= i <= j <= |s| && r == s[i..j] &&
      (forall k :: 0 <= k < i || j <= k < |s| ==> s[k] == 0x20 || s[k] == 0x09 || s[k] == 0x0A || s[k] == 0x0D) &&
      (i < j ==> !IsBlank(s[i]) && !IsBlank(s[j - 1]))
  }

  method TrimBlanks(s: Bytes) returns (r: Bytes)
    ensures IsTrimmed(s, r)
  {
    var i, j := 0, |s|;
    r := s;
    while |r| > 0 && IsBlank(r[0])
      invariant 0 <= i <= |s| && r == s[i..]
      invariant forall k :: 0 <= k < i ==> IsBlank(s[k])
    {
      r := r[1..];
      i := i + 1;
    }
    while |r| > 0 && IsBlank(r[|r| - 1])
      invariant i <= j <= |s| && r == s[i..j]
      invariant forall k :: 0 <= k < i || j <= k < |s| ==> IsBlank(s[k])
      invariant i < j ==> !IsBlank(s[i])
    {
      r := r[..|r| - 1];
      j := j - 1;
    }
  }

  /** What one error contributes: the trimmed text, or, if that is too long, its longest
      well-formed prefix within the limit and a mark. */
  ghost predicate IsEntry(text: Bytes, entry: Bytes)
  {
    exists t :: IsTrimmed(text, t) &&
      if |t| <= 2048 then entry == t
      else exists p :: IsLongestValidPrefix(t, p) && entry == p + TRUNCATED
  }

  ghost predicate IsLongestValidPrefix(t: Bytes, p: Bytes)
  {
    |p| <= 2048 < |t| && p == t[..|p|] && Valid(p) &&
    (forall k :: |p| < k <= 2048 ==> !Valid(t[..k])) &&
    (Valid(t) ==> 2045 <= |p|)
  }

  /** What the list shows of everything reported: all of it, or the first 31 entries and
      a marker. */
  ghost function Shown(reported: seq<Bytes>): seq<Bytes>
  {
    if |reported| <= MAX_ERRORS then reported else reported[..MAX_ERRORS - 1] + [OMITTED]
  }

  lemma ShownAppend(reported: seq<Bytes>, entry: Bytes)
    ensures var old', new' := Shown(reported), Shown(reported + [entry]);
      && new' == (if |old'| >= MAX_ERRORS then old'[MAX_ERRORS - 1 := OMITTED] else old' + [entry])
      && (forall i :: 0 <= i < |old'| && i < MAX_ERRORS - 1 ==> i < |new'| && new'[i] == old'[i])
  {
  }

  ghost predicate AllShort(entries: seq<Bytes>)
  {
    forall i :: 0 <= i < |entries| ==> |entries[i]| <= 2062
  }

  lemma ShownIsShort(reported: seq<Bytes>, entry: Bytes)
    requires AllShort(reported) && |entry| <= 2062
    ensures AllShort(reported + [entry]) && AllShort(Shown(reported + [entry])) && |Shown(reported + [entry])| <= MAX_ERRORS
  {
    var all := reported + [entry];
    assert forall i :: 0 <= i < |all| ==> |all[i]| <= 2062;
  }

  method EntryFor(text: Bytes) returns (entry: Bytes)
    ensures IsEntry(text, entry) && |entry| <= 2062
  {
    var trimmed := TrimBlanks(text);
    entry := trimmed;
    if |entry| > MAX_ERROR_BYTES {
      var p := TruncateValidUTF8(entry, MAX_ERROR_BYTES);
      assert IsLongestValidPrefix(trimmed, p);
      entry := p + TRUNCATED;
    }
  }

  class ErrorList {
    var errs: seq<Bytes>
    /** One entry per error reported, none dropped. */
    ghost var reported: seq<Bytes>

    constructor ()
      ensures Valid() && errs == [] && reported == []
    {
      errs, reported := [], [];
    }

    /** The list is everything reported, or the first 31 entries and a marker; every
        entry is short, and a shortened one is well-formed. */
    ghost predicate Valid()
      reads this
    {
      && errs == Shown(reported)
      && AllShort(reported)
    }

    method Append(area: Bytes, err: Option<Bytes>)
      requires Valid()
      modifies this
      ensures Valid()
      ensures err.None? ==> reported == old(reported)
      ensures err.Some? ==>
        && |reported| == |old(reported)| + 1 && old(reported) <= reported
        && IsEntry(area + SEPARATOR + err.value, reported[|reported| - 1])
      ensures errs == if |reported| <= 32 then reported else reported[..31] + [OMITTED]
      ensures AllShort(errs)
      ensures forall i :: 0 <= i < |old(errs)| && i < 31 ==> i < |errs| && errs[i] == old(errs)[i]
    {
      if err.None? {
        return;
      }
      var entry := EntryFor(area + SEPARATOR + err.value);
      ShownAppend(reported, entry);
      ShownIsShort(reported, entry);
      if |errs| >= MAX_ERRORS {
        errs := errs[MAX_ERRORS - 1 := OMITTED];
      } else {
        errs := errs + [entry];
      }
      reported := reported + [entry];
    }
  }

  /** A shortened entry is well-formed even if the error text is not. */
  lemma ShortenedEntryIsValid(t: Bytes, p: Bytes)
    requires IsLongestValidPrefix(t, p)
    ensures Valid(p + TRUNCATED) && |p + TRUNCATED| <= 2062
  {
    AsciiIsValid(TRUNCATED);
    ValidConcat(p, TRUNCATED);
  }

  // ---------------------------------------------------------------------
  // split and indexOf.

  ghost predicate OccursAt(s: Bytes, sub: Bytes, i: int)
  {
    0 <= i <= |s| - |sub| && s[i..i + |sub|] == sub
  }

  method IndexOf(s: Bytes, sub: Bytes) returns (i: int)
    ensures i >= 0 ==> OccursAt(s, sub, i) && forall j :: 0 <= j < i ==> !OccursAt(s, sub, j)
    ensures i < 0 ==> i == -1 && forall j :: !OccursAt(s, sub, j)
  {
    i := 0;
    while i <= |s| - |sub|
      invariant 0 <= i
      invariant forall j :: 0 <= j < i ==> !OccursAt(s, sub, j)
    {
      if s[i..i + |sub|] == sub {
        return;
      }
      i := i + 1;
    }
    i := -1;
  }

  function Join(parts: seq<Bytes>, sep: Bytes): Bytes
    requires parts != []
  {
    if |parts| == 1 then parts[0] else Join(parts[..|parts| - 1], sep) + sep + parts[|parts| - 1]
  }

  /** The pieces joined again give the input, no piece contains the separator, and each
      separator was the first one after the piece before it. */
  method Split(s: Bytes, sep: Bytes) returns (parts: seq<Bytes>)
    requires sep != []
    ensures parts != [] && Join(parts, sep) == s
    ensures forall k, j :: 0 <= k < |parts| ==> !OccursAt(parts[k], sep, j)
    ensures forall k, j :: 0 <= k < |parts| - 1 && j < |parts[k]| ==> !OccursAt(parts[k] + sep, sep, j)
  {
    parts := [];
    var rest := s;
    while true
      invariant if parts == [] then rest == s else Join(parts, sep) + sep + rest == s
      invariant forall k, j :: 0 <= k < |parts| ==> !OccursAt(parts[k], sep, j)
      invariant forall k, j :: 0 <= k < |parts| && j < |parts[k]| ==> !OccursAt(parts[k] + sep, sep, j)
      decreases |rest|
    {
      var i := IndexOf(rest, sep);
      if i < 0 {
        assert (parts + [rest])[..|parts|] == parts;
        parts := parts + [rest];
        break;
      }
      PieceIsClean(rest, sep, i);
      assert rest == rest[..i] + sep + rest[i + |sep|..];
      assert (parts + [rest[..i]])[..|parts|] == parts;
      parts := parts + [rest[..i]];
      rest := rest[i + |sep|..];
    }
  }

  lemma PieceIsClean(s: Bytes, sep: Bytes, i: int)
    requires OccursAt(s, sep, i) && forall j :: 0 <= j < i ==> !OccursAt(s, sep, j)
    requires sep != []
    ensures forall j :: !OccursAt(s[..i], sep, j)
    ensures forall j :: j < i ==> !OccursAt(s[..i] + sep, sep, j)
  {
    assert s[..i] + sep == s[..i + |sep|];
    forall j ensures !OccursAt(s[..i], sep, j) { SliceOccurs(s, sep, i, j); }
    forall j | j < i ensures !OccursAt(s[..i] + sep, sep, j) { SliceOccurs(s, sep, i + |sep|, j); }
  }

  lemma SliceOccurs(s: Bytes, sub: Bytes, n: nat, j: int)
    requires n <= |s|
    ensures OccursAt(s[..n], sub, j) ==> OccursAt(s, sub, j)
  {
    if OccursAt(s[..n], sub, j) { assert s[..n][j..j + |sub|] == s[j..j + |sub|]; }
  }
}
