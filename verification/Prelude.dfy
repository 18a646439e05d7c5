/** Small shared vocabulary. */
module Prelude {

  datatype Option<+T> = None | Some(value: T)

  type byte = b: int | 0 <= b < 256

  predicate HasPrefix(s: string, p: string)
  {
    |p| <= |s| && s[..|p|] == p
  }

  predicate HasSuffix(s: string, p: string)
  {
    |p| <= |s| && s[|s| - |p|..] == p
  }

  /** What may be trimmed: Go's `unicode.IsSpace`, what the web's `trim` removes, and the
      separators of version numbers. */
  datatype CharClass = Space | WebSpace | Separator

  predicate IsIn(c: char, kind: CharClass)
  {
    var n := c as int;
    match kind
    case Space => n == 0x85 || IsCommonSpace(n)
    case WebSpace => n == 0xFEFF || IsCommonSpace(n)
    case Separator => c == '-' || c == '_' || c == '.'
  }

  predicate AllIn(s: string, kind: CharClass)
  {
    forall i :: 0 <= i < |s| ==> IsIn(s[i], kind)
  }

  predicate IsCommonSpace(n: int)
  {
    9 <= n <= 13 || n == 0x20 || n == 0xA0 || n == 0x1680 || 0x2000 <= n <= 0x200A ||
    n == 0x2028 || n == 0x2029 || n == 0x202F || n == 0x205F || n == 0x3000
  }

  function TrimLeft(s: string, blank: CharClass): string
  {
    if s != "" && IsIn(s[0], blank) then TrimLeft(s[1..], blank) else s
  }

  function TrimRight(s: string, blank: CharClass): string
  {
    if s != "" && IsIn(s[|s| - 1], blank) then TrimRight(s[..|s| - 1], blank) else s
  }

  function TrimSpace(s: string): string
  {
    TrimRight(TrimLeft(s, Space), Space)
  }

  /** What trimming on the right takes off. */
  lemma {:induction false} TrimRightSplits(s: string, blank: CharClass) returns (off: string)
    ensures var r := TrimRight(s, blank);
      s == r + off && AllIn(off, blank) && (r != "" ==> !IsIn(r[|r| - 1], blank))
  {
    if s != "" && IsIn(s[|s| - 1], blank) {
      off := TrimRightSplits(s[..|s| - 1], blank);
      off := off + [s[|s| - 1]];
    } else {
      off := "";
    }
  }

  lemma {:induction false} TrimLeftSplits(s: string, blank: CharClass) returns (off: string)
    ensures var r := TrimLeft(s, blank);
      s == off + r && AllIn(off, blank) && (r != "" ==> !IsIn(r[0], blank))
  {
    if s != "" && IsIn(s[0], blank) {
      off := TrimLeftSplits(s[1..], blank);
      off := [s[0]] + off;
    } else {
      off := "";
    }
  }

  lemma {:induction false} TrimLeftOff(pre: string, s: string, blank: CharClass)
    requires AllIn(pre, blank) && (s == "" || !IsIn(s[0], blank))
    ensures TrimLeft(pre + s, blank) == s
  {
    if pre == "" {
      assert pre + s == s;
    } else {
      assert (pre + s)[1..] == pre[1..] + s;
      TrimLeftOff(pre[1..], s, blank);
    }
  }

  lemma {:induction false} TrimRightOff(s: string, post: string, blank: CharClass)
    requires AllIn(post, blank) && (s == "" || !IsIn(s[|s| - 1], blank))
    ensures TrimRight(s + post, blank) == s
  {
    if post == "" {
      assert s + post == s;
    } else {
      assert (s + post)[..|s + post| - 1] == s + post[..|post| - 1];
      TrimRightOff(s, post[..|post| - 1], blank);
    }
  }

  predicate Trimmed(s: string)
  {
    TrimSpace(s) == s
  }

  lemma TrimmedIsClean(s: string)
    requires s != "" && Trimmed(s)
    ensures !IsIn(s[0], Space) && !IsIn(s[|s| - 1], Space)
  {
    var left := TrimLeft(s, Space);
    var off := TrimLeftSplits(s, Space);
    var tail := TrimRightSplits(left, Space);
    assert |s| == |off| + |left| && |left| == |s| + |tail|;
    assert off == "" && left == s;
  }

  lemma CleanIsTrimmed(s: string)
    requires s != "" && !IsIn(s[0], Space) && !IsIn(s[|s| - 1], Space)
    ensures Trimmed(s)
  {
  }

  predicate Contains(s: string, sub: string)
  {
    HasPrefix(s, sub) || (s != "" && Contains(s[1..], sub))
  }

  lemma {:induction false} ContainsAt(s: string, i: nat, sub: string)
    requires i <= |s| && HasPrefix(s[i..], sub)
    ensures Contains(s, sub)
  {
    if i == 0 {
      assert s[0..] == s;
    } else {
      assert s[1..][i - 1..] == s[i..];
      ContainsAt(s[1..], i - 1, sub);
    }
  }

  lemma {:induction false} ContainsMeans(s: string, sub: string)
    ensures Contains(s, sub) <==> exists i :: 0 <= i <= |s| && HasPrefix(s[i..], sub)
  {
    if Contains(s, sub) {
      var i := ContainsSomewhere(s, sub);
    } else {
      forall i | 0 <= i <= |s| ensures !HasPrefix(s[i..], sub) {
        if HasPrefix(s[i..], sub) { ContainsAt(s, i, sub); }
      }
    }
  }

  lemma {:induction false} ContainsSomewhere(s: string, sub: string) returns (i: nat)
    requires Contains(s, sub)
    ensures i <= |s| && HasPrefix(s[i..], sub)
  {
    if HasPrefix(s, sub) {
      i := 0;
      assert s[0..] == s;
    } else {
      i := ContainsSomewhere(s[1..], sub);
      assert s[1..][i..] == s[i + 1..];
      i := i + 1;
    }
  }

  /** strings.ReplaceAll of one character. */
  function ReplaceAll(s: string, c: char, text: string): string
  {
    if s == "" then "" else (if s[0] == c then text else [s[0]]) + ReplaceAll(s[1..], c, text)
  }

  /** ASCII lower-casing. */
  function LowerChar(c: char): char
  {
    if 'A' <= c <= 'Z' then c + 32 as char else c
  }

  /** The part before the first separator, and the part after it, can be told apart. */
  lemma SplitAtFirst(a: string, x: string, b: string, y: string, c: char)
    requires c !in a && c !in b && a + [c] + x == b + [c] + y
    ensures a == b && x == y
  {
    var s, t := a + [c] + x, b + [c] + y;
    assert s[|a|] == c && t[|b|] == c;
    assert a == s[..|a|] && b == t[..|b|] && x == s[|a| + 1..] && y == t[|b| + 1..];
  }

  lemma {:induction false} SubsetSize<T>(a: set<T>, b: set<T>)
    requires a <= b
    ensures |a| <= |b|
    decreases |a|
  {
    if a != {} {
      var x :| x in a;
      SubsetSize(a - {x}, b - {x});
    }
  }

  lemma {:induction false} SetOfSeqSize<T>(s: seq<T>)
    ensures |set n | n in s| <= |s|
  {
    if s != [] {
      SetOfSeqSize(s[1..]);
      assert (set n | n in s) == {s[0]} + set n | n in s[1..];
    }
  }

  lemma {:induction false} DistinctSize<T>(s: seq<T>)
    requires forall i, j :: 0 <= i < j < |s| ==> s[i] != s[j]
    ensures |set n | n in s| == |s|
  {
    if s != [] {
      DistinctSize(s[1..]);
      assert (set n | n in s) == {s[0]} + set n | n in s[1..];
    }
  }
}
