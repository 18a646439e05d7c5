/** Byte-wise string order, as used by Go's `sort.Strings`, and the sorted
    listings built on it. */
module Lex {

  /** Lexicographic "less than or equal". */
  predicate Leq(a: string, b: string)
  {
    a == [] || (b != [] && (a[0] < b[0] || (a[0] == b[0] && Leq(a[1..], b[1..]))))
  }

  lemma {:induction false} LeqReflexive(a: string)
    ensures Leq(a, a)
  {
    if a != [] { LeqReflexive(a[1..]); }
  }

  lemma {:induction false} LeqTotal(a: string, b: string)
    ensures Leq(a, b) || Leq(b, a)
  {
    if a != [] && b != [] { LeqTotal(a[1..], b[1..]); }
  }

  lemma {:induction false} LeqAntisymmetric(a: string, b: string)
    requires Leq(a, b) && Leq(b, a)
    ensures a == b
  {
    if a != [] && b != [] {
      LeqAntisymmetric(a[1..], b[1..]);
      assert a == [a[0]] + a[1..] && b == [b[0]] + b[1..];
    }
  }

  lemma {:induction false} LeqTransitive(a: string, b: string, c: string)
    requires Leq(a, b) && Leq(b, c)
    ensures Leq(a, c)
  {
    if a != [] && a[0] == b[0] && b[0] == c[0] {
      LeqTransitive(a[1..], b[1..], c[1..]);
    }
  }

  /** A common prefix does not affect the order. */
  lemma {:induction false} LeqPrefix(p: string, a: string, b: string)
    ensures Leq(p + a, p + b) == Leq(a, b)
  {
    if p == [] {
      assert p + a == a && p + b == b;
    } else {
      LeqPrefix(p[1..], a, b);
      assert (p + a)[1..] == p[1..] + a && (p + b)[1..] == p[1..] + b;
    }
  }

  ghost predicate Sorted(s: seq<string>)
  {
    forall i, j :: 0 <= i < j < |s| ==> Leq(s[i], s[j])
  }

  // ---------------------------------------------------------------------
  // Sorted listing of a finite set of names.

  lemma {:induction false} MinExists(s: set<string>)
    requires s != {}
    ensures exists m :: m in s && forall x :: x in s ==> Leq(m, x)
    decreases |s|
  {
    var y :| y in s;
    LeqReflexive(y);
    if s - {y} == {} {
      assert forall x :: x in s && x != y ==> x in s - {y};
    } else {
      MinExists(s - {y});
      var m :| m in s - {y} && forall x :: x in s - {y} ==> Leq(m, x);
      LeqTotal(m, y);
      var k := if Leq(m, y) then m else y;
      forall x | x in s ensures Leq(k, x) {
        if x != y && k == y { LeqTransitive(y, m, x); }
      }
    }
  }

  lemma MinUnique(s: set<string>, a: string, b: string)
    requires a in s && forall x :: x in s ==> Leq(a, x)
    requires b in s && forall x :: x in s ==> Leq(b, x)
    ensures a == b
  {
    LeqAntisymmetric(a, b);
  }

  function MinName(s: set<string>): (m: string)
    requires s != {}
    ensures m in s
    ensures forall x :: x in s ==> Leq(m, x)
  {
    MinExists(s);
    assert forall a, b | a in s && (forall x :: x in s ==> Leq(a, x)) && b in s && (forall x :: x in s ==> Leq(b, x)) :: a == b by {
      forall a, b | a in s && (forall x :: x in s ==> Leq(a, x)) && b in s && (forall x :: x in s ==> Leq(b, x)) ensures a == b {
        MinUnique(s, a, b);
      }
    }
    var m :| m in s && forall x :: x in s ==> Leq(m, x);
    m
  }

  /** The names of `s` in increasing order, each once. */
  function SortedNames(s: set<string>): (names: seq<string>)
    ensures |names| == |s|
    ensures forall x :: x in names <==> x in s
    ensures forall i, j :: 0 <= i < j < |names| ==> names[i] != names[j]
    ensures Sorted(names)
  {
    if s == {} then [] else
      var m := MinName(s);
      [m] + SortedNames(s - {m})
  }

  // ---------------------------------------------------------------------
  // Sorting a sequence that may hold duplicates.

  function Insert(x: string, s: seq<string>): (r: seq<string>)
    requires Sorted(s)
    ensures Sorted(r)
    ensures multiset(r) == multiset(s) + multiset{x}
  {
    if s == [] then [x]
    else if Leq(x, s[0]) then
      assert forall i :: 0 <= i < |s| ==> Leq(x, s[i]) by {
        forall i | 0 <= i < |s| ensures Leq(x, s[i]) {
          if i > 0 { LeqTransitive(x, s[0], s[i]); }
        }
      }
      [x] + s
    else
      LeqTotal(x, s[0]);
      var t := Insert(x, s[1..]);
      assert s == [s[0]] + s[1..];
      assert forall y :: y in t ==> Leq(s[0], y) by {
        forall y | y in t ensures Leq(s[0], y) {
          assert y in multiset(t);
          assert y == x || y in s[1..];
        }
      }
      [s[0]] + t
  }

  function Sort(s: seq<string>): (r: seq<string>)
    ensures Sorted(r)
    ensures multiset(r) == multiset(s)
  {
    if s == [] then [] else
      assert s == [s[0]] + s[1..];
      Insert(s[0], Sort(s[1..]))
  }

  lemma SortKeepsLength(s: seq<string>)
    ensures |Sort(s)| == |s|
  {
    assert |Sort(s)| == |multiset(Sort(s))| && |s| == |multiset(s)|;
  }

  lemma SortedHeadIsLeast(a: seq<string>, x: string)
    requires Sorted(a) && x in multiset(a)
    ensures Leq(a[0], x)
  {
    LeqReflexive(x);
    var i :| 0 <= i < |a| && a[i] == x;
  }

  lemma TailElements(a: seq<string>)
    requires a != []
    ensures multiset(a[1..]) == multiset(a) - multiset{a[0]}
  {
    assert a == [a[0]] + a[1..];
  }

  /** Sorting is canonical: only the multiset of the elements matters. */
  lemma {:induction false} SortedIsUnique(a: seq<string>, b: seq<string>)
    requires Sorted(a) && Sorted(b)
    requires multiset(a) == multiset(b)
    ensures a == b
  {
    assert |a| == |multiset(a)| && |b| == |multiset(b)|;
    if a != [] {
      assert a[0] in multiset(b) && b[0] in multiset(a);
      SortedHeadIsLeast(a, b[0]);
      SortedHeadIsLeast(b, a[0]);
      LeqAntisymmetric(a[0], b[0]);
      TailElements(a);
      TailElements(b);
      SortedIsUnique(a[1..], b[1..]);
      assert a == [a[0]] + a[1..] && b == [b[0]] + b[1..];
    }
  }
}
