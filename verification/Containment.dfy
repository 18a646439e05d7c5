/** The containment check for scans of foreign file systems
    (internal/agent/scanner/contain.go).  Path cleaning and link resolution are library
    operations and parameters. */
module Containment {
  import opened Prelude

  datatype Verdict = Inside | Outside | Unresolvable

  /** filepath.Clean and filepath.EvalSymlinks. */
  datatype Paths = Paths(clean: string -> string, resolve: string -> Option<string>)

  function IsHostRoot(root: string, p: Paths): bool
  {
    root == "" || p.clean(root) == "/"
  }

  function WithinRoot(root: string, path: string, p: Paths): Verdict
  {
    if IsHostRoot(root, p) then Inside else
      var resolvedRoot := match p.resolve(root) case Some(r) => r case None => p.clean(root);
      match p.resolve(path)
      case None => Unresolvable
      case Some(r) => if Accepts(resolvedRoot, p.clean(r)) then Inside else Outside
  }

  /** The comparison at the end: equal, or under the root with a separator between. */
  predicate Accepts(root: string, path: string)
  {
    path == root || HasPrefix(path, if HasSuffix(root, "/") then root else root + "/")
  }

  // ---------------------------------------------------------------------
  // What the comparison means for absolute, clean paths.

  predicate IsComponent(c: string)
  {
    c != "" && '/' !in c
  }

  predicate AreComponents(cs: seq<string>)
  {
    forall i :: 0 <= i < |cs| ==> IsComponent(cs[i])
  }

  /** Each component with the separator before it. */
  function Slashed(cs: seq<string>): string
  {
    if cs == [] then "" else "/" + cs[0] + Slashed(cs[1..])
  }

  /** The clean absolute path with these components. */
  function Render(cs: seq<string>): string
  {
    if cs == [] then "/" else Slashed(cs)
  }

  lemma SlashedStarts(cs: seq<string>)
    ensures Slashed(cs) == "" <==> cs == []
    ensures cs != [] ==> Slashed(cs)[0] == '/'
  {
  }

  lemma {:induction false} SlashedEnds(cs: seq<string>)
    requires cs != [] && AreComponents(cs)
    ensures var s := Slashed(cs); s != "" && s[|s| - 1] != '/'
  {
    if |cs| == 1 {
      assert Slashed(cs) == "/" + cs[0];
    } else {
      SlashedEnds(cs[1..]);
    }
  }

  lemma SlashIsIn(x: string, y: string, t: string)
    requires x == y + ['/'] + t
    ensures '/' in x
  {
    assert x[|y|] == '/';
  }

  /** A first component ends at the next separator. */
  lemma FirstComponent(x: string, b: string, y: string, c: string)
    requires '/' !in x && '/' !in y
    requires b == "" || b[0] == '/'
    requires c != "" && c[0] == '/'
    requires HasPrefix(x + b, y + c)
    ensures x == y && HasPrefix(b, c)
  {
    var s := x + b;
    var rest := c[1..] + s[|y + c|..];
    assert s == (y + c) + s[|y + c|..] == y + ['/'] + rest;
    if b == "" {
      assert s == x;
      SlashIsIn(x, y, rest);
    } else {
      assert s == x + ['/'] + b[1..];
      SplitAtFirst(x, b[1..], y, rest, '/');
      assert b == ['/'] + b[1..] && c == ['/'] + c[1..];
      assert b[..|c|] == c;
    }
  }

  lemma WholeComponent(x: string, b: string, y: string, c: string)
    requires '/' !in x && '/' !in y
    requires b == "" || b[0] == '/'
    requires c == "" || c[0] == '/'
    requires x + b == y + c
    ensures x == y && b == c
  {
    if c != "" {
      FirstComponent(x, b, y, c);
    } else {
      assert y + c == y;
      assert b == "" ==> x + b == x;
    }
  }

  lemma {:induction false} SlashedPrefix(r: seq<string>, p: seq<string>)
    requires AreComponents(r) && AreComponents(p)
    ensures (Slashed(p) == Slashed(r) || HasPrefix(Slashed(p), Slashed(r) + "/")) <==> r <= p
  {
    SlashedStarts(p);
    SlashedStarts(r);
    if r == [] {
      assert Slashed(r) + "/" == "/";
      assert p != [] ==> Slashed(p)[..1] == "/";
    } else if p != [] {
      SlashedPrefix(r[1..], p[1..]);
      SlashedStarts(p[1..]);
      SlashedStarts(r[1..]);
      assert r <= p <==> r[0] == p[0] && r[1..] <= p[1..];
      var x, y := p[0], r[0];
      var b, c := Slashed(p[1..]), Slashed(r[1..]);
      if x + b == y + c { WholeComponent(x, b, y, c); }
      if HasPrefix(x + b, y + (c + "/")) { FirstComponent(x, b, y, c + "/"); }
      assert Slashed(p) == "/" + (x + b) && Slashed(r) == "/" + (y + c) && Slashed(r) + "/" == "/" + (y + (c + "/"));
      DropSlash(x + b, y + c);
      DropSlash(x + b, y + (c + "/"));
      KeepPrefix(x, b, c + "/");
    }
  }

  lemma DropSlash(s: string, t: string)
    ensures "/" + s == "/" + t <==> s == t
    ensures HasPrefix("/" + s, "/" + t) <==> HasPrefix(s, t)
  {
    assert ("/" + s)[1..] == s && ("/" + t)[1..] == t;
    if HasPrefix(s, t) { assert ("/" + s)[..|t| + 1] == "/" + s[..|t|]; }
    if HasPrefix("/" + s, "/" + t) { assert s[..|t|] == ("/" + s)[1..|t| + 1]; }
  }

  lemma KeepPrefix(x: string, b: string, c: string)
    ensures HasPrefix(b, c) ==> HasPrefix(x + b, x + c)
  {
    if HasPrefix(b, c) { assert (x + b)[..|x + c|] == x + b[..|c|]; }
  }

  /** The string comparison accepts exactly when the root's components begin the path's:
      no sibling that merely shares a name prefix gets in, and nothing inside is kept
      out. */
  lemma AcceptsIffUnder(r: seq<string>, p: seq<string>)
    requires AreComponents(r) && AreComponents(p)
    ensures Accepts(Render(r), Render(p)) <==> r <= p
  {
    SlashedStarts(p);
    if r == [] {
      assert HasSuffix("/", "/");
      assert Render(p)[..1] == "/";
    } else {
      SlashedEnds(r);
      var s := Render(r);
      assert s[|s| - 1..][0] != '/';
      assert !HasSuffix(s, "/");
      SlashedPrefix(r, p);
      SlashedStarts(r);
      if p == [] { assert |Slashed(r) + "/"| > 1; assert Render(p) == "/"; assert s[|s| - 1] != '/'; }
    }
  }

  /** On a file system whose links resolve to clean absolute paths, the check says inside
      exactly for host scans and for paths that resolve under the resolved root, and
      reports a path that does not resolve as such unless the scan is of the host. */
  lemma WithinRootMeans(root: string, path: string, p: Paths, r: seq<string>, q: seq<string>)
    requires AreComponents(r) && AreComponents(q)
    requires p.resolve(root) == Some(Render(r)) || (p.resolve(root) == None && p.clean(root) == Render(r))
    requires p.resolve(path).Some? ==> p.resolve(path) == Some(Render(q)) && p.clean(Render(q)) == Render(q)
    ensures var host := root == "" || p.clean(root) == "/";
      && (WithinRoot(root, path, p) == Inside <==> host || (p.resolve(path).Some? && r <= q))
      && (WithinRoot(root, path, p) == Unresolvable <==> !host && p.resolve(path).None?)
  {
    AcceptsIffUnder(r, q);
  }
}
