/** Readers of the dpkg and apk package databases (internal/agent/scanner/dpkg.go,
    internal/agent/scanner/apk.go).  A file is its lines without their newlines. */
module PackageDb {
  import opened Prelude
  import Utf8

  datatype Package = Package(name: string, version: string, arch: string, srcName: string)

  /** How a read ended. */
  datatype Ending = Complete | TooLong

  /** The bytes of a character in UTF-8. */
  function CharBytes(c: char): nat
  {
    var n := c as int;
    if n < 0x80 then 1 else if n < 0x800 then 2 else if n < 0x1_0000 then 3 else 4
  }

  function ByteLength(s: string): nat
  {
    if s == "" then 0 else ByteLength(s[..|s| - 1]) + CharBytes(s[|s| - 1])
  }

  /** The text as UTF-8 encodes it.  A character is a code point other than the surrogates. */
  ghost function Encoded(s: string): seq<byte>
  {
    if s == "" then [] else Encoded(s[..|s| - 1]) + Utf8.EncodeOne(s[|s| - 1] as int)
  }

  lemma {:induction false} ByteLengthIsEncoded(s: string)
    ensures ByteLength(s) == |Encoded(s)|
  {
    if s != "" { ByteLengthIsEncoded(s[..|s| - 1]); }
  }

  /** The lines the line scanner delivers: those before the first that does not fit its
      buffer of `cap` bytes. */
  function Delivered(lines: seq<string>, cap: nat): (d: seq<string>)
    ensures |d| <= |lines| && d == lines[..|d|]
    ensures forall i :: 0 <= i < |d| ==> ByteLength(lines[i]) < cap
    ensures |d| < |lines| ==> ByteLength(lines[|d|]) >= cap
  {
    if lines == [] || ByteLength(lines[0]) >= cap then [] else [lines[0]] + Delivered(lines[1..], cap)
  }

  function DropCR(line: string): string
  {
    if line != "" && line[|line| - 1] == '\r' then line[..|line| - 1] else line
  }

  /** Index of the first c from i on, or -1. */
  function IndexFrom(s: string, c: char, i: nat): (r: int)
    requires i <= |s|
    ensures r == -1 || i <= r < |s|
    ensures r >= 0 ==> s[r] == c
    ensures forall k :: i <= k < (if r < 0 then |s| else r) ==> s[k] != c
    decreases |s| - i
  {
    if i == |s| then -1 else if s[i] == c then i else IndexFrom(s, c, i + 1)
  }

  function IndexChar(s: string, c: char): (r: int)
    ensures -1 <= r < |s|
  {
    IndexFrom(s, c, 0)
  }

  lemma IndexCharAt(p: string, c: char, rest: string)
    requires c !in p
    ensures IndexChar(p + [c] + rest, c) == |p|
  {
    var s := p + [c] + rest;
    assert s[|p|] == c;
    assert forall k :: 0 <= k < |p| ==> s[k] == p[k];
  }

  /** The part of s before the first c. */
  function Before(s: string, c: char): string
  {
    if s == "" || s[0] == c then "" else [s[0]] + Before(s[1..], c)
  }

  /** The part of s after the first c, if there is one. */
  function After(s: string, c: char): string
  {
    if s == "" then "" else if s[0] == c then s[1..] else After(s[1..], c)
  }

  lemma {:induction false} PartsOf(p: string, c: char, rest: string)
    requires c !in p
    ensures Before(p + [c] + rest, c) == p && After(p + [c] + rest, c) == rest
  {
    var s := p + [c] + rest;
    if p == "" {
      assert s[1..] == rest;
    } else {
      assert s[1..] == p[1..] + [c] + rest;
      PartsOf(p[1..], c, rest);
    }
  }

  lemma CutAtIndex(s: string, c: char, i: nat)
    requires i == IndexChar(s, c)
    ensures s[..i] == Before(s, c) && s[i + 1..] == After(s, c)
  {
    assert s == s[..i] + [c] + s[i + 1..];
    PartsOf(s[..i], c, s[i + 1..]);
  }

  // ---------------------------------------------------------------------
  // dpkg.

  const DPKG_CAP: nat := 4 * 1024 * 1024

  type Fields = map<string, string>

  function Get(f: Fields, key: string): string
  {
    if key in f then f[key] else ""
  }

  function DpkgSourceName(source: string, binary: string): string
  {
    var s := TrimSpace(source);
    if s == "" then binary else
      var i := IndexChar(s, '(');
      var t := if i > 0 then TrimSpace(s[..i]) else s;
      if t == "" then binary else t
  }

  /** What a stanza contributes: nothing unless it is named, versioned, and not marked as
      anything but installed. */
  function DpkgPackages(f: Fields): seq<Package>
  {
    var name, version, status := Get(f, "Package"), Get(f, "Version"), Get(f, "Status");
    if name == "" || version == "" || (status != "" && !Contains(status, "installed")) then []
    else [Package(name, version, Get(f, "Architecture"), DpkgSourceName(Get(f, "Source"), name))]
  }

  predicate IsFolded(line: string)
  {
    line != "" && (line[0] == ' ' || line[0] == '\t')
  }

  datatype DpkgState = DpkgState(cur: Fields, pkgs: seq<Package>)

  /** The line names a field: it is not folded, and something comes before a colon. */
  predicate NamesField(line: string)
  {
    line != "" && !IsFolded(line) && line[0] != ':' && ':' in line
  }

  /** The fields after a line that is not blank. */
  function AfterField(cur: Fields, line: string): Fields
  {
    if NamesField(line) then cur[TrimSpace(Before(line, ':')) := TrimSpace(After(line, ':'))] else cur
  }

  function DpkgLine(s: DpkgState, line: string): DpkgState
  {
    if line == "" then DpkgState(map[], s.pkgs + DpkgPackages(s.cur)) else s.(cur := AfterField(s.cur, line))
  }

  ghost function DpkgLines(s: DpkgState, lines: seq<string>): DpkgState
  {
    if lines == [] then s else DpkgLine(DpkgLines(s, lines[..|lines| - 1]), DropCR(lines[|lines| - 1]))
  }

  /** The packages of a status file. */
  ghost function DpkgParse(lines: seq<string>): seq<Package>
  {
    var s := DpkgLines(DpkgState(map[], []), lines);
    s.pkgs + DpkgPackages(s.cur)
  }

  /** The end of a stanza. */
  method Flush(cur: Fields, pkgs: seq<Package>) returns (more: seq<Package>)
    ensures more == pkgs + DpkgPackages(cur)
  {
    var name, version := Get(cur, "Package"), Get(cur, "Version");
    if name == "" || version == "" {
      return pkgs;
    }
    var status := Get(cur, "Status");
    if status != "" && !Contains(status, "installed") {
      return pkgs;
    }
    more := pkgs + [Package(name, version, Get(cur, "Architecture"), DpkgSourceName(Get(cur, "Source"), name))];
  }

  method ReadField(cur: Fields, line: string) returns (next: Fields)
    requires line != ""
    ensures next == AfterField(cur, line)
  {
    if line[0] == ' ' || line[0] == '\t' {
      return cur;
    }
    var idx := IndexChar(line, ':');
    if idx <= 0 {
      return cur;
    }
    CutAtIndex(line, ':', idx);
    next := cur[TrimSpace(line[..idx]) := TrimSpace(line[idx + 1..])];
  }

  /** An oversized line ends the reading without an error: the packages are those of the
      lines before it. */
  method ParseDpkgStatus(lines: seq<string>) returns (pkgs: seq<Package>)
    ensures pkgs == DpkgParse(Delivered(lines, 4_194_304))
  {
    pkgs := [];
    var cur: Fields := map[];
    var delivered := Delivered(lines, DPKG_CAP);
    ghost var start := DpkgState(map[], []);
    for i := 0 to |delivered|
      invariant DpkgState(cur, pkgs) == DpkgLines(start, delivered[..i])
    {
      DpkgLinesStep(start, delivered, i);
      var line := DropCR(delivered[i]);
      if line == "" {
        pkgs := Flush(cur, pkgs);
        cur := map[];
      } else {
        cur := ReadField(cur, line);
      }
    }
    assert delivered[..|delivered|] == delivered;
    pkgs := Flush(cur, pkgs);
  }

  lemma DpkgLinesStep(s: DpkgState, lines: seq<string>, i: nat)
    requires i < |lines|
    ensures DpkgLines(s, lines[..i + 1]) == DpkgLine(DpkgLines(s, lines[..i]), DropCR(lines[i]))
  {
    assert lines[..i + 1][..i] == lines[..i];
  }

  lemma {:induction false} DpkgLinesAppend(s: DpkgState, a: seq<string>, b: seq<string>)
    ensures DpkgLines(s, a + b) == DpkgLines(DpkgLines(s, a), b)
  {
    if b == [] {
      assert a + b == a;
    } else {
      assert (a + b)[..|a + b| - 1] == a + b[..|b| - 1];
      DpkgLinesAppend(s, a, b[..|b| - 1]);
    }
  }

  /** Packages already found stay in front. */
  lemma {:induction false} DpkgLinesPrefix(cur: Fields, pkgs: seq<Package>, lines: seq<string>)
    ensures var s := DpkgLines(DpkgState(cur, []), lines);
      DpkgLines(DpkgState(cur, pkgs), lines) == DpkgState(s.cur, pkgs + s.pkgs)
  {
    if lines != [] {
      DpkgLinesPrefix(cur, pkgs, lines[..|lines| - 1]);
      var s := DpkgLines(DpkgState(cur, []), lines[..|lines| - 1]);
      assert pkgs + (s.pkgs + DpkgPackages(s.cur)) == pkgs + s.pkgs + DpkgPackages(s.cur);
    } else {
      assert pkgs + [] == pkgs;
    }
  }

  lemma DpkgOneLine(s: DpkgState, line: string)
    ensures DpkgLines(s, [line]) == DpkgLine(s, DropCR(line))
  {
    assert [line][..0] == [];
    assert DpkgLines(s, [line][..0]) == s;
  }

  lemma DpkgLinesAround(s: DpkgState, a: seq<string>, line: string, b: seq<string>)
    ensures DpkgLines(s, a + [line] + b) == DpkgLines(DpkgLine(DpkgLines(s, a), DropCR(line)), b)
  {
    DpkgLinesAppend(s, a + [line], b);
    DpkgLinesAppend(s, a, [line]);
    DpkgOneLine(DpkgLines(s, a), line);
  }

  lemma DpkgBlankSeparates(start: DpkgState, a: seq<string>, blank: string, b: seq<string>)
    requires start == DpkgState(map[], []) && blank == ""
    ensures var s, t := DpkgLines(start, a), DpkgLines(start, b);
      DpkgLines(start, a + [blank] + b) == DpkgState(t.cur, s.pkgs + DpkgPackages(s.cur) + t.pkgs)
  {
    var s := DpkgLines(start, a);
    DpkgLinesAround(start, a, blank, b);
    DpkgLinesPrefix(start.cur, s.pkgs + DpkgPackages(s.cur), b);
  }

  /** A blank line separates: the file is the packages of its parts. */
  lemma DpkgParseIsHomomorphic(a: seq<string>, b: seq<string>)
    ensures DpkgParse(a + [""] + b) == DpkgParse(a) + DpkgParse(b)
  {
    DpkgBlankSeparates(DpkgState(map[], []), a, "", b);
  }

  /** Folded continuation lines do not matter. */
  lemma DpkgIgnoresFoldedLines(a: seq<string>, folded: string, b: seq<string>)
    requires folded != "" && (folded[0] == ' ' || folded[0] == '\t')
    ensures DpkgParse(a + [folded] + b) == DpkgParse(a + b)
  {
    DpkgLinesAround(DpkgState(map[], []), a, folded, b);
    DpkgLinesAppend(DpkgState(map[], []), a, b);
  }

  /** The lines of a file whose lines end in a carriage return and a newline. */
  ghost function WithCRs(lines: seq<string>): seq<string>
  {
    if lines == [] then [] else WithCRs(lines[..|lines| - 1]) + [lines[|lines| - 1] + "\r"]
  }

  lemma {:induction false} CarriageReturnsAreDropped(s: DpkgState, lines: seq<string>)
    requires forall i :: 0 <= i < |lines| ==> DropCR(lines[i]) == lines[i]
    ensures DpkgLines(s, WithCRs(lines)) == DpkgLines(s, lines)
  {
    if lines != [] {
      var before, last := lines[..|lines| - 1], lines[|lines| - 1];
      CarriageReturnsAreDropped(s, before);
      var text := WithCRs(lines);
      assert text[..|text| - 1] == WithCRs(before) && text[|text| - 1] == last + "\r";
      assert (last + "\r")[..|last|] == last;
    }
  }

  /** Such a file reads as if its lines ended in newlines only. */
  lemma DpkgIgnoresCarriageReturns(lines: seq<string>)
    requires forall i :: 0 <= i < |lines| ==> NoCR(lines[i])
    ensures DpkgParse(WithCRs(lines)) == DpkgParse(lines)
  {
    CarriageReturnsAreDropped(DpkgState(map[], []), lines);
  }

  // Rendering.

  datatype Field = Field(key: string, value: string)

  /** A field a status file can hold: a key without colon, nothing to trim. */
  predicate WellFormed(f: Field)
  {
    f.key != "" && ':' !in f.key && Trimmed(f.key) && Trimmed(f.value)
  }

  function Render(f: Field): string
  {
    f.key + ": " + f.value
  }

  ghost function RenderStanza(fields: seq<Field>): seq<string>
  {
    if fields == [] then [] else RenderStanza(fields[..|fields| - 1]) + [Render(fields[|fields| - 1])]
  }

  /** Later fields of the same name win. */
  ghost function FieldMap(fields: seq<Field>): Fields
  {
    if fields == [] then map[] else
      FieldMap(fields[..|fields| - 1])[fields[|fields| - 1].key := fields[|fields| - 1].value]
  }

  /** Stanzas with a blank line between any two. */
  ghost function RenderDpkg(stanzas: seq<seq<Field>>): seq<string>
  {
    if stanzas == [] then []
    else if |stanzas| == 1 then RenderStanza(stanzas[0])
    else RenderDpkg(stanzas[..|stanzas| - 1]) + [""] + RenderStanza(stanzas[|stanzas| - 1])
  }

  ghost function AllDpkgPackages(stanzas: seq<seq<Field>>): seq<Package>
  {
    if stanzas == [] then [] else
      AllDpkgPackages(stanzas[..|stanzas| - 1]) + DpkgPackages(FieldMap(stanzas[|stanzas| - 1]))
  }

  lemma TrimLeadingSpace(v: string)
    requires Trimmed(v)
    ensures TrimSpace(" " + v) == v
  {
    assert (" " + v)[1..] == v;
    assert TrimLeft(" " + v, Space) == TrimLeft(v, Space);
  }

  lemma RenderedEnds(f: Field)
    requires WellFormed(f)
    ensures var line := Render(f);
      line != "" && !IsFolded(line) && DropCR(line) == line && line == f.key + [':'] + (" " + f.value)
  {
    var line := Render(f);
    assert line == f.key + [':'] + (" " + f.value);
    TrimmedIsClean(f.key);
    assert line[0] == f.key[0];
    if f.value == "" {
      assert line[|line| - 1] == ' ';
    } else {
      TrimmedIsClean(f.value);
      assert line[|line| - 1] == f.value[|f.value| - 1];
    }
  }

  lemma FieldIsRead(s: DpkgState, f: Field)
    requires WellFormed(f)
    ensures DpkgLine(s, DropCR(Render(f))) == s.(cur := s.cur[f.key := f.value])
  {
    RenderedEnds(f);
    PartsOf(f.key, ':', " " + f.value);
    assert Render(f)[|f.key|] == ':';
    assert Render(f)[0] == f.key[0];
    TrimLeadingSpace(f.value);
  }

  lemma {:induction false} StanzaIsRead(fields: seq<Field>)
    requires WellFormedStanza(fields)
    ensures DpkgLines(DpkgState(map[], []), RenderStanza(fields)) == DpkgState(FieldMap(fields), [])
  {
    if fields != [] {
      var before, last := fields[..|fields| - 1], fields[|fields| - 1];
      StanzaIsRead(before);
      var lines := RenderStanza(fields);
      assert lines[..|lines| - 1] == RenderStanza(before) && lines[|lines| - 1] == Render(last);
      FieldIsRead(DpkgState(FieldMap(before), []), last);
    }
  }

  lemma OneStanzaIsRead(fields: seq<Field>)
    requires WellFormedStanza(fields)
    ensures DpkgParse(RenderStanza(fields)) == DpkgPackages(FieldMap(fields))
  {
    StanzaIsRead(fields);
  }

  /** The last field of this name has this value, or there is none and the value is empty. */
  ghost predicate Says(fields: seq<Field>, key: string, value: string)
  {
    (exists i :: LastAt(fields, i, key) && fields[i].value == value) ||
    (value == "" && forall j :: 0 <= j < |fields| ==> fields[j].key != key)
  }

  predicate LastAt(fields: seq<Field>, i: int, key: string)
  {
    0 <= i < |fields| && fields[i].key == key && forall j :: i < j < |fields| ==> fields[j].key != key
  }

  lemma SaysBefore(before: seq<Field>, last: Field, key: string, value: string)
    requires Says(before + [last], key, value) && last.key != key
    ensures Says(before, key, value)
  {
    var all := before + [last];
    assert all[|before|] == last && forall j :: 0 <= j < |before| ==> all[j] == before[j];
    if exists i :: LastAt(all, i, key) && all[i].value == value {
      var i :| LastAt(all, i, key) && all[i].value == value;
      assert LastAt(before, i, key);
    }
  }

  lemma SaysLast(before: seq<Field>, last: Field, value: string)
    requires Says(before + [last], last.key, value)
    ensures last.value == value
  {
    var all := before + [last];
    assert all[|before|] == last;
  }

  lemma {:induction false} SaidIsGot(fields: seq<Field>, key: string, value: string)
    requires Says(fields, key, value)
    ensures Get(FieldMap(fields), key) == value
  {
    if fields != [] {
      var before, last := fields[..|fields| - 1], fields[|fields| - 1];
      assert fields == before + [last];
      if last.key == key {
        SaysLast(before, last, value);
      } else {
        SaysBefore(before, last, key, value);
        SaidIsGot(before, key, value);
      }
    }
  }

  /** What the reader makes of the fields of one stanza, whatever their order and whatever
      others there are. */
  lemma StanzaReports(fields: seq<Field>, name: string, version: string, arch: string, source: string, status: string)
    requires WellFormedStanza(fields)
    requires Says(fields, "Package", name) && Says(fields, "Version", version) && Says(fields, "Architecture", arch)
    requires Says(fields, "Source", source) && Says(fields, "Status", status)
    ensures DpkgParse(RenderStanza(fields)) ==
      if name == "" || version == "" || (status != "" && !Contains(status, "installed")) then []
      else [Package(name, version, arch, if source == "" then name else DpkgSourceName(source, name))]
  {
    SaidIsGot(fields, "Package", name);
    SaidIsGot(fields, "Version", version);
    SaidIsGot(fields, "Architecture", arch);
    SaidIsGot(fields, "Source", source);
    SaidIsGot(fields, "Status", status);
    OneStanzaIsRead(fields);
  }

  predicate WellFormedStanza(fields: seq<Field>)
  {
    forall i :: 0 <= i < |fields| ==> WellFormed(fields[i])
  }

  predicate AllWellFormed(stanzas: seq<seq<Field>>)
  {
    forall i :: 0 <= i < |stanzas| ==> WellFormedStanza(stanzas[i])
  }

  /** Reading inverts rendering: exactly the installed packages of the stanzas, in order. */
  lemma {:induction false} DpkgReadsWhatIsRendered(stanzas: seq<seq<Field>>)
    requires AllWellFormed(stanzas)
    ensures DpkgParse(RenderDpkg(stanzas)) == AllDpkgPackages(stanzas)
  {
    if stanzas != [] {
      var before, last := stanzas[..|stanzas| - 1], stanzas[|stanzas| - 1];
      OneStanzaIsRead(last);
      if before == [] {
        assert AllDpkgPackages(before) == [];
      } else {
        DpkgReadsWhatIsRendered(before);
        DpkgParseIsHomomorphic(RenderDpkg(before), RenderStanza(last));
      }
    }
  }

  // What the Status test lets through.

  const INSTALLED: string := "install ok installed"

  /** The stanzas the reader is meant to report. */
  ghost function OnlyInstalled(stanzas: seq<seq<Field>>): seq<seq<Field>>
  {
    if stanzas == [] then [] else
      OnlyInstalled(stanzas[..|stanzas| - 1]) +
        if Get(FieldMap(stanzas[|stanzas| - 1]), "Status") == INSTALLED then [stanzas[|stanzas| - 1]] else []
  }

  /** A stanza the Status test gets right: it reports nothing anyway, or its status is the
      intended one, or it has one that does not even contain the word. */
  predicate TestedRight(f: Fields)
  {
    var status := Get(f, "Status");
    Get(f, "Package") == "" || Get(f, "Version") == "" || status == INSTALLED ||
    (status != "" && !Contains(status, "installed"))
  }

  ghost predicate AllTestedRight(stanzas: seq<seq<Field>>)
  {
    forall i :: 0 <= i < |stanzas| ==> TestedRight(FieldMap(stanzas[i]))
  }

  lemma AppendStanza(stanzas: seq<seq<Field>>, last: seq<Field>)
    ensures AllDpkgPackages(stanzas + [last]) == AllDpkgPackages(stanzas) + DpkgPackages(FieldMap(last))
  {
    assert (stanzas + [last])[..|stanzas|] == stanzas;
  }

  lemma InstalledContains()
    ensures Contains(INSTALLED, "installed")
  {
    ContainsAt(INSTALLED, 11, "installed");
  }

  lemma OnePackageAtMost(f: Fields)
    ensures |DpkgPackages(f)| <= 1
    ensures TestedRight(f) <==> DpkgPackages(f) == [] || Get(f, "Status") == INSTALLED
  {
    InstalledContains();
  }

  /** Reading keeps no less than the packages meant, and just those if all tests are right. */
  ghost predicate KeepsEnough(stanzas: seq<seq<Field>>)
  {
    var all, meant := AllDpkgPackages(stanzas), AllDpkgPackages(OnlyInstalled(stanzas));
    && |meant| <= |all|
    && (|meant| == |all| <==> AllTestedRight(stanzas))
    && (AllTestedRight(stanzas) ==> meant == all)
  }

  lemma OnlyInstalledStep(before: seq<seq<Field>>, last: seq<Field>)
    ensures OnlyInstalled(before + [last]) == OnlyInstalled(before) + if Get(FieldMap(last), "Status") == INSTALLED then [last] else []
    ensures AllTestedRight(before + [last]) <==> AllTestedRight(before) && TestedRight(FieldMap(last))
  {
    var all := before + [last];
    assert all[..|before|] == before && all[|before|] == last;
    assert forall i :: 0 <= i < |before| ==> all[i] == before[i];
  }

  lemma KeepsEnoughStep(before: seq<seq<Field>>, last: seq<Field>)
    requires KeepsEnough(before)
    ensures KeepsEnough(before + [last])
  {
    OnlyInstalledStep(before, last);
    AppendStanza(before, last);
    OnePackageAtMost(FieldMap(last));
    var meant := OnlyInstalled(before);
    if Get(FieldMap(last), "Status") == INSTALLED {
      AppendStanza(meant, last);
    } else {
      assert meant + [] == meant;
    }
  }

  lemma {:induction false} KeptPackages(stanzas: seq<seq<Field>>)
    ensures KeepsEnough(stanzas)
  {
    if stanzas != [] {
      var before, last := stanzas[..|stanzas| - 1], stanzas[|stanzas| - 1];
      KeptPackages(before);
      KeepsEnoughStep(before, last);
      assert stanzas == before + [last];
    }
  }

  /** A file reads as its "install ok installed" stanzas alone exactly if the Status test
      gets every stanza right. */
  lemma StatusTestIsExactIff(stanzas: seq<seq<Field>>)
    requires AllWellFormed(stanzas)
    ensures DpkgParse(RenderDpkg(stanzas)) == AllDpkgPackages(OnlyInstalled(stanzas)) <==> AllTestedRight(stanzas)
  {
    DpkgReadsWhatIsRendered(stanzas);
    KeptPackages(stanzas);
  }

  /** A half-installed package is reported, and so is one without any status. */
  lemma StatusTestIsTooKind(name: string, version: string)
    requires name != "" && version != ""
    ensures var f: Fields := map["Package" := name, "Version" := version];
      && |DpkgPackages(f["Status" := "deinstall ok half-installed"])| == 1
      && |DpkgPackages(f)| == 1
      && !TestedRight(f["Status" := "deinstall ok half-installed"]) && !TestedRight(f)
  {
    ContainsAt("deinstall ok half-installed", 18, "installed");
  }

  /** The source name is found with or without a version in parentheses. */
  lemma SourceNameIsFound(source: string, version: string, binary: string)
    requires source != "" && Trimmed(source) && '(' !in source
    ensures DpkgSourceName(source, binary) == source
    ensures DpkgSourceName(source + " (" + version + ")", binary) == source
  {
    var s, t := source + " (" + version + ")", source + " ";
    TrimmedIsClean(source);
    assert s[0] == source[0] && s[|s| - 1] == ')';
    CleanIsTrimmed(s);
    IndexCharAt(t, '(', version + ")");
    assert s == t + ['('] + (version + ")");
    assert s[..|t|] == t;
    TrimTrailingSpace(source);
  }

  lemma TrimTrailingSpace(v: string)
    requires v != "" && Trimmed(v)
    ensures TrimSpace(v + " ") == v
  {
    var s := v + " ";
    TrimmedIsClean(v);
    assert s[0] == v[0] && s[..|s| - 1] == v;
    assert TrimLeft(s, Space) == s;
    assert TrimRight(s, Space) == TrimRight(v, Space) == v;
  }

  // ---------------------------------------------------------------------
  // apk.

  const APK_CAP: nat := 1024 * 1024

  /** The four fields the reader collects. */
  datatype Stanza = Stanza(name: string, version: string, arch: string, origin: string)

  const NO_STANZA: Stanza := Stanza("", "", "", "")

  function ApkPackages(s: Stanza): seq<Package>
  {
    if s.name == "" || s.version == "" then [] else
      [Package(s.name, s.version, s.arch, if s.origin == "" then s.name else s.origin)]
  }

  datatype ApkState = ApkState(cur: Stanza, pkgs: seq<Package>)

  function ApkField(cur: Stanza, letter: char, value: string): Stanza
  {
    match letter
    case 'P' => cur.(name := value)
    case 'V' => cur.(version := value)
    case 'A' => cur.(arch := value)
    case 'o' => cur.(origin := value)
    case _ => cur
  }

  function ApkLine(s: ApkState, line: string): ApkState
  {
    if line == "" then ApkState(NO_STANZA, s.pkgs + ApkPackages(s.cur))
    else if |line| < 2 || line[1] != ':' then s
    else s.(cur := ApkField(s.cur, line[0], line[2..]))
  }

  ghost function ApkLines(s: ApkState, lines: seq<string>): ApkState
  {
    if lines == [] then s else ApkLine(ApkLines(s, lines[..|lines| - 1]), DropCR(lines[|lines| - 1]))
  }

  ghost function ApkParse(lines: seq<string>): seq<Package>
  {
    var s := ApkLines(ApkState(NO_STANZA, []), lines);
    s.pkgs + ApkPackages(s.cur)
  }

  /** An oversized line is an error here, but the packages before it are returned too. */
  method ParseApkInstalled(lines: seq<string>) returns (pkgs: seq<Package>, ending: Ending)
    ensures pkgs == ApkParse(Delivered(lines, 1_048_576))
    ensures ending.Complete? <==> forall i :: 0 <= i < |lines| ==> ByteLength(lines[i]) < 1_048_576
  {
    pkgs := [];
    var name, version, arch, origin := "", "", "", "";
    var delivered := Delivered(lines, APK_CAP);
    ghost var start := ApkState(NO_STANZA, []);
    for i := 0 to |delivered|
      invariant ApkState(Stanza(name, version, arch, origin), pkgs) == ApkLines(start, delivered[..i])
    {
      ApkLinesStep(start, delivered, i);
      var line := DropCR(delivered[i]);
      if line == "" {
        pkgs := pkgs + ApkPackages(Stanza(name, version, arch, origin));
        name, version, arch, origin := "", "", "", "";
        continue;
      }
      if |line| < 2 || line[1] != ':' {
        continue;
      }
      var val := line[2..];
      match line[0] {
        case 'P' => name := val;
        case 'V' => version := val;
        case 'A' => arch := val;
        case 'o' => origin := val;
        case _ =>
      }
    }
    assert delivered[..|delivered|] == delivered;
    pkgs := pkgs + ApkPackages(Stanza(name, version, arch, origin));
    ending := if |delivered| < |lines| then TooLong else Complete;
  }

  lemma ApkLinesStep(s: ApkState, lines: seq<string>, i: nat)
    requires i < |lines|
    ensures ApkLines(s, lines[..i + 1]) == ApkLine(ApkLines(s, lines[..i]), DropCR(lines[i]))
  {
    assert lines[..i + 1][..i] == lines[..i];
  }

  lemma {:induction false} ApkLinesAppend(s: ApkState, a: seq<string>, b: seq<string>)
    ensures ApkLines(s, a + b) == ApkLines(ApkLines(s, a), b)
  {
    if b == [] {
      assert a + b == a;
    } else {
      assert (a + b)[..|a + b| - 1] == a + b[..|b| - 1];
      ApkLinesAppend(s, a, b[..|b| - 1]);
    }
  }

  lemma {:induction false} ApkLinesPrefix(cur: Stanza, pkgs: seq<Package>, lines: seq<string>)
    ensures var s := ApkLines(ApkState(cur, []), lines);
      ApkLines(ApkState(cur, pkgs), lines) == ApkState(s.cur, pkgs + s.pkgs)
  {
    if lines != [] {
      ApkLinesPrefix(cur, pkgs, lines[..|lines| - 1]);
      var s := ApkLines(ApkState(cur, []), lines[..|lines| - 1]);
      assert pkgs + (s.pkgs + ApkPackages(s.cur)) == pkgs + s.pkgs + ApkPackages(s.cur);
    } else {
      assert pkgs + [] == pkgs;
    }
  }

  lemma ApkParseIsHomomorphic(a: seq<string>, b: seq<string>)
    ensures ApkParse(a + [""] + b) == ApkParse(a) + ApkParse(b)
  {
    var start := ApkState(NO_STANZA, []);
    ApkLinesAppend(start, a + [""], b);
    ApkLinesAppend(start, a, [""]);
    var s := ApkLines(start, a);
    assert [""][..0] == [];
    assert ApkLines(s, [""]) == ApkLine(ApkLines(s, []), "");
    ApkLinesPrefix(NO_STANZA, ApkParse(a), b);
  }

  function ApkText(letter: char, value: string): string
  {
    [letter] + ":" + value
  }

  function RenderApkStanza(s: Stanza): seq<string>
  {
    [ApkText('P', s.name), ApkText('V', s.version), ApkText('A', s.arch), ApkText('o', s.origin)]
  }

  ghost function RenderApk(stanzas: seq<Stanza>): seq<string>
  {
    if stanzas == [] then []
    else if |stanzas| == 1 then RenderApkStanza(stanzas[0])
    else RenderApk(stanzas[..|stanzas| - 1]) + [""] + RenderApkStanza(stanzas[|stanzas| - 1])
  }

  ghost function AllApkPackages(stanzas: seq<Stanza>): seq<Package>
  {
    if stanzas == [] then [] else AllApkPackages(stanzas[..|stanzas| - 1]) + ApkPackages(stanzas[|stanzas| - 1])
  }

  predicate NoCR(s: string)
  {
    s == "" || s[|s| - 1] != '\r'
  }

  lemma ApkFieldIsRead(s: ApkState, letter: char, value: string)
    requires NoCR(value)
    ensures ApkLine(s, DropCR(ApkText(letter, value))) == s.(cur := ApkField(s.cur, letter, value))
  {
    var line := ApkText(letter, value);
    assert line[1] == ':' && line[2..] == value && line[0] == letter;
    assert DropCR(line) == line;
  }

  lemma ApkFieldAfter(s: ApkState, lines: seq<string>, letter: char, value: string)
    requires NoCR(value)
    ensures ApkLines(s, lines + [ApkText(letter, value)]) ==
      ApkLines(s, lines).(cur := ApkField(ApkLines(s, lines).cur, letter, value))
  {
    var line := ApkText(letter, value);
    ApkLinesAppend(s, lines, [line]);
    ApkOneLine(ApkLines(s, lines), line);
    ApkFieldIsRead(ApkLines(s, lines), letter, value);
  }

  lemma ApkTwoFieldsAfter(s: ApkState, lines: seq<string>, a: char, v: string, b: char, w: string)
    requires NoCR(v) && NoCR(w)
    ensures ApkLines(s, lines + [ApkText(a, v), ApkText(b, w)]) ==
      ApkLines(s, lines).(cur := ApkField(ApkField(ApkLines(s, lines).cur, a, v), b, w))
  {
    ApkFieldAfter(s, lines, a, v);
    ApkFieldAfter(s, lines + [ApkText(a, v)], b, w);
    assert lines + [ApkText(a, v), ApkText(b, w)] == lines + [ApkText(a, v)] + [ApkText(b, w)];
  }

  lemma ApkFrontIsRead(start: ApkState, none: seq<string>, front: seq<string>, s: Stanza)
    requires NoCRs(s) && none == [] && front == none + [ApkText('P', s.name), ApkText('V', s.version)]
    ensures ApkLines(start, front) == start.(cur := start.cur.(name := s.name, version := s.version))
  {
    ApkTwoFieldsAfter(start, none, 'P', s.name, 'V', s.version);
  }

  lemma ApkFieldsMake(cur: Stanza, s: Stanza)
    requires cur.name == s.name && cur.version == s.version
    ensures ApkField(ApkField(cur, 'A', s.arch), 'o', s.origin) == s
  {
  }

  lemma ApkBackIsRead(start: ApkState, front: seq<string>, t: ApkState, s: Stanza)
    requires NoCRs(s) && ApkLines(start, front) == t && t.cur.name == s.name && t.cur.version == s.version
    ensures ApkLines(start, front + [ApkText('A', s.arch), ApkText('o', s.origin)]) == t.(cur := s)
  {
    ApkFieldsMake(t.cur, s);
    ApkTwoFieldsAfter(start, front, 'A', s.arch, 'o', s.origin);
  }

  lemma ApkStanzaIsRead(start: ApkState, front: seq<string>, s: Stanza)
    requires NoCRs(s) && start == ApkState(NO_STANZA, []) && front == [ApkText('P', s.name), ApkText('V', s.version)]
    ensures ApkLines(start, RenderApkStanza(s)) == ApkState(s, [])
  {
    ApkFrontIsRead(start, [], front, s);
    ApkBackIsRead(start, front, ApkLines(start, front), s);
    assert RenderApkStanza(s) == front + [ApkText('A', s.arch), ApkText('o', s.origin)];
  }

  lemma ApkOneLine(s: ApkState, line: string)
    ensures ApkLines(s, [line]) == ApkLine(s, DropCR(line))
  {
    assert [line][..0] == [];
    assert ApkLines(s, [line]) == ApkLine(ApkLines(s, []), DropCR(line));
  }

  predicate NoCRs(s: Stanza)
  {
    NoCR(s.name) && NoCR(s.version) && NoCR(s.arch) && NoCR(s.origin)
  }

  lemma ApkOneStanzaIsRead(s: Stanza)
    requires NoCRs(s)
    ensures ApkParse(RenderApkStanza(s)) == ApkPackages(s)
  {
    ApkStanzaIsRead(ApkState(NO_STANZA, []), [ApkText('P', s.name), ApkText('V', s.version)], s);
  }

  lemma ApkStanzaText(s: Stanza, lines: seq<string>)
    requires lines == ["P:" + s.name, "V:" + s.version, "A:" + s.arch, "o:" + s.origin]
    ensures lines == RenderApkStanza(s)
  {
    assert ['P'] + ":" == "P:" && ['V'] + ":" == "V:" && ['A'] + ":" == "A:" && ['o'] + ":" == "o:";
  }

  /** What the reader makes of one stanza. */
  lemma ApkReports(lines: seq<string>, name: string, version: string, arch: string, origin: string)
    requires lines == ["P:" + name, "V:" + version, "A:" + arch, "o:" + origin]
    requires NoCR(name) && NoCR(version) && NoCR(arch) && NoCR(origin)
    ensures ApkParse(lines) ==
      if name == "" || version == "" then [] else [Package(name, version, arch, if origin == "" then name else origin)]
  {
    var s := Stanza(name, version, arch, origin);
    ApkStanzaText(s, lines);
    ApkOneStanzaIsRead(s);
  }

  /** Reading inverts rendering: the named and versioned packages, in order. */
  lemma {:induction false} ApkReadsWhatIsRendered(stanzas: seq<Stanza>)
    requires forall i :: 0 <= i < |stanzas| ==> NoCRs(stanzas[i])
    ensures ApkParse(RenderApk(stanzas)) == AllApkPackages(stanzas)
  {
    if stanzas != [] {
      var before, last := stanzas[..|stanzas| - 1], stanzas[|stanzas| - 1];
      ApkOneStanzaIsRead(last);
      if before == [] {
        assert AllApkPackages(before) == [];
      } else {
        ApkReadsWhatIsRendered(before);
        ApkParseIsHomomorphic(RenderApk(before), RenderApkStanza(last));
      }
    }
  }
}
