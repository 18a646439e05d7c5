/** UTF-8 well-formedness (RFC 3629, section 4) and truncation that respects it
    (`truncateValidUTF8` in cmd/agent/main.go). */
module Utf8 {
  import opened Prelude

  predicate Tail(b: byte)
  {
    0x80 <= b <= 0xBF
  }

  /** Length of the well-formed character s starts with, or 0 if there is none. */
  function RuneLen(s: seq<byte>): (n: nat)
    ensures n <= |s| && n <= 4
    ensures s == [] ==> n == 0
  {
    if |s| >= 1 && s[0] <= 0x7F then 1
    else if |s| >= 2 && 0xC2 <= s[0] <= 0xDF && Tail(s[1]) then 2
    else if |s| >= 3 && 0xE0 <= s[0] <= 0xEF && Tail(s[1]) && Tail(s[2]) &&
            (s[0] == 0xE0 ==> 0xA0 <= s[1]) && (s[0] == 0xED ==> s[1] <= 0x9F) then 3
    else if |s| >= 4 && 0xF0 <= s[0] <= 0xF4 && Tail(s[1]) && Tail(s[2]) && Tail(s[3]) &&
            (s[0] == 0xF0 ==> 0x90 <= s[1]) && (s[0] == 0xF4 ==> s[1] <= 0x8F) then 4
    else 0
  }

  /** utf8.ValidString. */
  predicate Valid(s: seq<byte>)
    decreases |s|
  {
    s == [] || (RuneLen(s) > 0 && Valid(s[RuneLen(s)..]))
  }

  // ---------------------------------------------------------------------
  // Well-formed means encoded.

  /** A code point that UTF-8 encodes: any but the surrogates. */
  type Scalar = cp: int | 0 <= cp <= 0xD7FF || 0xE000 <= cp <= 0x10FFFF

  function ToByte(n: int): byte
    requires 0 <= n < 256
  {
    n
  }

  /** A continuation byte: the last six bits. */
  function Cont(n: nat): byte
  {
    ToByte(0x80 + n % 0x40)
  }

  /** Seven bits in one byte, eleven in two, sixteen in three, twenty-one in four. */
  function EncodeOne(cp: Scalar): (s: seq<byte>)
    ensures 1 <= |s| <= 4
  {
    if cp < 0x80 then [ToByte(cp)]
    else if cp < 0x800 then [ToByte(0xC0 + cp / 0x40), Cont(cp)]
    else if cp < 0x1_0000 then [ToByte(0xE0 + cp / 0x40 / 0x40), Cont(cp / 0x40), Cont(cp)]
    else [ToByte(0xF0 + cp / 0x40 / 0x40 / 0x40), Cont(cp / 0x40 / 0x40), Cont(cp / 0x40), Cont(cp)]
  }

  function Encode(cps: seq<Scalar>): seq<byte>
  {
    if cps == [] then [] else EncodeOne(cps[0]) + Encode(cps[1..])
  }

  lemma EncodedIsRune(cp: Scalar, rest: seq<byte>)
    ensures RuneLen(EncodeOne(cp) + rest) == |EncodeOne(cp)|
  {
    var e := EncodeOne(cp);
    var s := e + rest;
    assert forall i :: 0 <= i < |e| ==> s[i] == e[i];
    assert cp / 0x40 / 0x40 / 0x40 == cp / 0x4_0000 && cp / 0x40 / 0x40 == cp / 0x1000;
  }

  /** One more six bits. */
  function More(n: nat, b: byte): nat
    requires Tail(b)
  {
    n * 0x40 + (b as int - 0x80)
  }

  lemma MoreAndBack(n: nat, b: byte)
    requires Tail(b)
    ensures More(n, b) / 0x40 == n && Cont(More(n, b)) == b
  {
  }

  lemma TwoBytes(s: seq<byte>) returns (cp: Scalar)
    requires RuneLen(s) == 2
    ensures EncodeOne(cp) == s[..2]
  {
    var top := s[0] as int - 0xC0;
    MoreAndBack(top, s[1]);
    cp := More(top, s[1]);
    assert 0x80 <= cp < 0x800 && EncodeOne(cp) == [ToByte(0xC0 + cp / 0x40), Cont(cp)];
    assert s[..2] == [s[0], s[1]];
  }

  lemma ThreeBytes(s: seq<byte>) returns (cp: Scalar)
    requires RuneLen(s) == 3
    ensures EncodeOne(cp) == s[..3]
  {
    var top := s[0] as int - 0xE0;
    var middle := More(top, s[1]);
    MoreAndBack(top, s[1]);
    MoreAndBack(middle, s[2]);
    cp := More(middle, s[2]);
  }

  lemma FourBytes(s: seq<byte>) returns (cp: Scalar)
    requires RuneLen(s) == 4
    ensures EncodeOne(cp) == s[..4]
  {
    var top := s[0] as int - 0xF0;
    var upper := More(top, s[1]);
    var middle := More(upper, s[2]);
    MoreAndBack(top, s[1]);
    MoreAndBack(upper, s[2]);
    MoreAndBack(middle, s[3]);
    cp := More(middle, s[3]);
  }

  lemma RuneIsEncoded(s: seq<byte>) returns (cp: Scalar)
    requires RuneLen(s) > 0
    ensures EncodeOne(cp) == s[..RuneLen(s)]
  {
    match RuneLen(s) {
      case 1 => cp := s[0];
      case 2 => cp := TwoBytes(s);
      case 3 => cp := ThreeBytes(s);
      case _ => cp := FourBytes(s);
    }
  }

  lemma {:induction false} EncodedIsValid(cps: seq<Scalar>)
    ensures Valid(Encode(cps))
  {
    if cps != [] {
      EncodedIsRune(cps[0], Encode(cps[1..]));
      assert Encode(cps)[|EncodeOne(cps[0])|..] == Encode(cps[1..]);
      EncodedIsValid(cps[1..]);
    }
  }

  lemma {:induction false} ValidIsEncoded(s: seq<byte>) returns (cps: seq<Scalar>)
    requires Valid(s)
    ensures Encode(cps) == s
    decreases |s|
  {
    if s == [] {
      cps := [];
    } else {
      var cp := RuneIsEncoded(s);
      var rest := ValidIsEncoded(s[RuneLen(s)..]);
      cps := [cp] + rest;
      assert cps[1..] == rest && s == s[..RuneLen(s)] + s[RuneLen(s)..];
    }
  }

  /** The bytes accepted are exactly the encodings of texts. */
  lemma ValidMeansEncoded(s: seq<byte>)
    ensures Valid(s) <==> exists cps :: Encode(cps) == s
  {
    if Valid(s) { var cps := ValidIsEncoded(s); }
    if exists cps :: Encode(cps) == s {
      var cps :| Encode(cps) == s;
      EncodedIsValid(cps);
    }
  }

  // ---------------------------------------------------------------------
  // Truncation.

  /** A well-formed character ends where it ends, whatever follows. */
  lemma RuneLenPrefix(s: seq<byte>, m: nat)
    requires RuneLen(s) <= m <= |s| && RuneLen(s) > 0
    ensures RuneLen(s[..m]) == RuneLen(s)
  {
  }

  lemma DropConcat(a: seq<byte>, b: seq<byte>, n: nat)
    requires n <= |a|
    ensures (a + b)[n..] == a[n..] + b
  {
  }

  lemma {:induction false} ValidConcat(a: seq<byte>, b: seq<byte>)
    requires Valid(a) && Valid(b)
    ensures Valid(a + b)
    decreases |a|
  {
    if a == [] {
      assert a + b == b;
    } else {
      var n := RuneLen(a);
      assert RuneLen(a + b) == n;
      ValidConcat(a[n..], b);
      DropConcat(a, b, n);
    }
  }

  /** In a valid string some character boundary lies within three bytes below any limit. */
  lemma {:induction false} BoundaryNearby(s: seq<byte>, limit: nat) returns (k: nat)
    requires Valid(s) && limit <= |s|
    ensures limit - 3 <= k <= limit && Valid(s[..k])
    decreases |s|
  {
    var n := RuneLen(s);
    if s == [] || limit < n {
      k := 0;
      assert s[..0] == [];
    } else {
      k := BoundaryNearby(s[n..], limit - n);
      k := n + k;
      RuneLenPrefix(s, k);
      assert s[..k][n..] == s[n..][..k - n];
    }
  }

  /** The longest well-formed prefix of at most `limit` bytes; input that fits is returned
      as it is.  A valid input loses at most three bytes below the limit. */
  method TruncateValidUTF8(s: seq<byte>, limit: nat) returns (r: seq<byte>)
    ensures |s| <= limit ==> r == s
    ensures |s| > limit ==> |r| <= limit && r == s[..|r|] && Valid(r)
    ensures |s| > limit ==> forall k :: |r| < k <= limit ==> !Valid(s[..k])
    ensures |s| > limit && Valid(s) ==> limit - 3 <= |r|
  {
    if |s| <= limit {
      return s;
    }
    r := s[..limit];
    while !Valid(r) && |r| > 0
      invariant |r| <= limit && r == s[..|r|]
      invariant forall k :: |r| < k <= limit ==> !Valid(s[..k])
    {
      assert r[..|r| - 1] == s[..|r| - 1];
      r := r[..|r| - 1];
    }
    if Valid(s) {
      var k := BoundaryNearby(s, limit);
      assert k <= |r|;
    }
  }
}
