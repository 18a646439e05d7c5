/** The metrics writer (internal/server/api/admin.go) and the text format it writes:
    escaped label values, and a TYPE line before the first sample of each name. */
module Prometheus {
  import opened Prelude
  import opened Lex

  function LabelValue(v: string): string
  {
    ReplaceAll(ReplaceAll(ReplaceAll(v, '\\', "\\\\"), '\n', "\\n"), '"', "\\\"")
  }

  /** The escape in one pass. */
  function EscapeChar(c: char): string
  {
    if c == '\\' then "\\\\" else if c == '\n' then "\\n" else if c == '"' then "\\\"" else [c]
  }

  function Escape(v: string): string
  {
    if v == "" then "" else EscapeChar(v[0]) + Escape(v[1..])
  }

  lemma {:induction false} ReplaceAllAppend(a: string, b: string, c: char, text: string)
    ensures ReplaceAll(a + b, c, text) == ReplaceAll(a, c, text) + ReplaceAll(b, c, text)
  {
    if a == "" {
      assert a + b == b;
    } else {
      assert (a + b)[1..] == a[1..] + b;
      ReplaceAllAppend(a[1..], b, c, text);
    }
  }

  lemma ReplaceOne(x: char, c: char, text: string)
    ensures ReplaceAll([x], c, text) == if x == c then text else [x]
  {
    assert [x][1..] == "";
  }

  lemma ReplaceTwo(x: char, y: char, c: char, text: string)
    ensures ReplaceAll([x, y], c, text) == (if x == c then text else [x]) + (if y == c then text else [y])
  {
    assert [x, y][1..] == [y];
    ReplaceOne(y, c, text);
  }

  lemma OneCharThreeTimes(c: char)
    ensures LabelValue([c]) == EscapeChar(c)
  {
    ReplaceOne(c, '\\', "\\\\");
    var s := if c == '\\' then "\\\\" else [c];
    if c == '\\' {
      ReplaceTwo('\\', '\\', '\n', "\\n");
      assert ReplaceAll(s, '\n', "\\n") == ['\\'] + ['\\'] == s;
      ReplaceTwo('\\', '\\', '"', "\\\"");
      assert ReplaceAll(s, '"', "\\\"") == ['\\'] + ['\\'] == s;
    } else {
      ReplaceOne(c, '\n', "\\n");
      if c == '\n' {
        ReplaceTwo('\\', 'n', '"', "\\\"");
        assert ReplaceAll("\\n", '"', "\\\"") == ['\\'] + ['n'] == "\\n";
      } else {
        ReplaceOne(c, '"', "\\\"");
      }
    }
  }

  /** Three replacements one after the other are one pass: none touches what an earlier
      one put in. */
  lemma {:induction false} ThreePassesAreOne(v: string)
    ensures LabelValue(v) == Escape(v)
  {
    if v != "" {
      var s := ReplaceAll([v[0]], '\\', "\\\\");
      var t := ReplaceAll(v[1..], '\\', "\\\\");
      assert v == [v[0]] + v[1..];
      ReplaceAllAppend([v[0]], v[1..], '\\', "\\\\");
      ReplaceAllAppend(s, t, '\n', "\\n");
      ReplaceAllAppend(ReplaceAll(s, '\n', "\\n"), ReplaceAll(t, '\n', "\\n"), '"', "\\\"");
      OneCharThreeTimes(v[0]);
      ThreePassesAreOne(v[1..]);
    }
  }

  /** A quoted label value as a scraper reads it: up to the first unescaped quote, which
      no raw newline may precede. */
  function ReadLabel(s: string): Option<(string, string)>
  {
    if s == "" || s[0] == '\n' then None
    else if s[0] == '"' then Some(("", s[1..]))
    else if s[0] != '\\' then
      match ReadLabel(s[1..])
      case None => None
      case Some((v, rest)) => Some(([s[0]] + v, rest))
    else if |s| < 2 || s[1] !in "\\n\"" then None
    else
      match ReadLabel(s[2..])
      case None => None
      case Some((v, rest)) => Some(([if s[1] == 'n' then '\n' else s[1]] + v, rest))
  }

  lemma QuoteEnds(rest: string)
    ensures ReadLabel("\"" + rest) == Some(("", rest))
  {
    assert ("\"" + rest)[1..] == rest;
  }

  lemma EscapeStarts(v: string, tail: string)
    requires v != ""
    ensures Escape(v) + tail == EscapeChar(v[0]) + (Escape(v[1..]) + tail)
  {
  }

  lemma {:induction false} EscapedReadsBack(v: string, tail: string, rest: string)
    requires ReadLabel(tail) == Some(("", rest))
    ensures ReadLabel(Escape(v) + tail) == Some((v, rest))
  {
    if v == "" {
      assert Escape(v) + tail == tail;
    } else {
      EscapedReadsBack(v[1..], tail, rest);
      EscapeStarts(v, tail);
      ReadEscaped(v[0], Escape(v[1..]) + tail, v[1..], rest);
      assert v == [v[0]] + v[1..];
    }
  }

  lemma ReadEscaped(c: char, tail: string, w: string, rest: string)
    requires ReadLabel(tail) == Some((w, rest))
    ensures ReadLabel(EscapeChar(c) + tail) == Some(([c] + w, rest))
  {
    var e := EscapeChar(c);
    assert (e + tail)[|e|..] == tail;
  }

  /** A scraper reads back the value that was written, and resumes right after it. */
  lemma LabelValueReadsBack(v: string, rest: string)
    ensures ReadLabel(LabelValue(v) + "\"" + rest) == Some((v, rest))
  {
    ThreePassesAreOne(v);
    QuoteEnds(rest);
    EscapedReadsBack(v, "\"" + rest, rest);
    assert LabelValue(v) + "\"" + rest == LabelValue(v) + ("\"" + rest);
  }

  // ---------------------------------------------------------------------
  // Substrings.

  lemma {:induction false} ContainsAppend(a: string, b: string, pat: string)
    ensures Contains(a, pat) || Contains(b, pat) ==> Contains(a + b, pat)
  {
    if a == "" {
      assert a + b == b;
      if Contains(a, pat) { assert HasPrefix(b, pat) by { assert pat == ""; } }
    } else {
      assert (a + b)[1..] == a[1..] + b;
      ContainsAppend(a[1..], b, pat);
      if HasPrefix(a, pat) { assert (a + b)[..|pat|] == a[..|pat|]; }
    }
  }

  lemma PrefixStopsAt(a: string, c: char, b: string, pat: string)
    requires c !in pat
    ensures HasPrefix(a + [c] + b, pat) ==> HasPrefix(a, pat)
  {
    var s := a + [c] + b;
    if HasPrefix(s, pat) {
      assert s[|a|] == c;
      assert forall i :: 0 <= i < |pat| ==> s[i] in pat;
      assert a[..|pat|] == s[..|pat|];
    }
  }

  /** A pattern without c does not reach across a c. */
  lemma {:induction false} ContainsSplit(a: string, c: char, b: string, pat: string)
    requires pat != "" && c !in pat
    ensures Contains(a + [c] + b, pat) ==> Contains(a, pat) || Contains(b, pat)
  {
    var s := a + [c] + b;
    PrefixStopsAt(a, c, b, pat);
    if a == "" {
      assert s[1..] == b;
    } else {
      assert s[1..] == a[1..] + [c] + b;
      ContainsSplit(a[1..], c, b, pat);
    }
  }

  lemma {:induction false} NoHashNoMatch(s: string, pat: string)
    requires '#' !in s && pat != "" && pat[0] == '#'
    ensures !Contains(s, pat)
  {
    if s != "" { NoHashNoMatch(s[1..], pat); }
  }

  lemma {:induction false} ContainsPrefixOf(s: string, pat: string, more: string)
    ensures Contains(s, pat + more) ==> Contains(s, pat)
  {
    if HasPrefix(s, pat + more) { assert s[..|pat|] == s[..|pat + more|][..|pat|] == pat; }
    if s != "" { ContainsPrefixOf(s[1..], pat, more); }
  }

  /** What announces a TYPE line.  The lemmas need only that it is a `GoodMark`. */
  const TYPE_MARK: string := "# TYPE "

  ghost predicate GoodMark(mark: string)
  {
    mark != "" && mark[0] == '#' && '#' !in mark[1..] && forall c :: c in mark ==> c !in "\"\\,{}\n"
  }

  lemma {:induction false} EscapeKeepsPrefix(v: string, pat: string)
    requires '\\' !in pat && HasPrefix(Escape(v), pat)
    ensures HasPrefix(v, pat)
  {
    if pat != "" {
      var e := EscapeChar(v[0]);
      assert Escape(v) == e + Escape(v[1..]);
      assert Escape(v)[0] == pat[0] && e[0] == pat[0] && e == [v[0]];
      assert Escape(v)[1..] == Escape(v[1..]);
      assert Escape(v)[..|pat|] == pat;
      assert Escape(v[1..])[..|pat| - 1] == pat[1..];
      EscapeKeepsPrefix(v[1..], pat[1..]);
      assert v == [v[0]] + v[1..] && pat == [pat[0]] + pat[1..];
    }
  }

  lemma ContainsCons(c: char, s: string, pat: string)
    ensures Contains([c] + s, pat) == (HasPrefix([c] + s, pat) || Contains(s, pat))
  {
    assert ([c] + s)[1..] == s;
  }

  /** Escaping does not make a TYPE mark out of nothing. */
  lemma {:induction false} EscapeAddsNoMark(v: string, mark: string)
    requires GoodMark(mark) && !Contains(v, mark)
    ensures !Contains(Escape(v), mark)
  {
    if v != "" {
      EscapeAddsNoMark(v[1..], mark);
      if HasPrefix(Escape(v), mark) { EscapeKeepsPrefix(v, mark); }
      var e, rest := EscapeChar(v[0]), Escape(v[1..]);
      if |e| == 2 {
        var tail := [e[1]] + rest;
        assert Escape(v) == [e[0]] + tail;
        ContainsCons(e[0], tail, mark);
        ContainsCons(e[1], rest, mark);
        assert tail[0] != '#';
      } else {
        assert Escape(v) == [e[0]] + rest;
        ContainsCons(e[0], rest, mark);
      }
    }
  }

  // ---------------------------------------------------------------------
  // The lines of the output.

  datatype Line =
    | TypeLine(name: string, metricType: string)
    | SampleLine(name: string, labels: map<string, string>, value: string)

  function Label(k: string, v: string): string
  {
    k + "=\"" + LabelValue(v) + "\""
  }

  function LabelText(keys: seq<string>, labels: map<string, string>): string
    requires forall k :: k in keys ==> k in labels
  {
    if keys == [] then "" else
      var init, k := keys[..|keys| - 1], keys[|keys| - 1];
      (if init == [] then "" else LabelText(init, labels) + ",") + Label(k, labels[k])
  }

  function Braced(labels: map<string, string>): string
  {
    if labels == map[] then "" else "{" + LabelText(SortedNames(labels.Keys), labels) + "}"
  }

  function Render(l: Line, mark: string): string
  {
    match l
    case TypeLine(name, metricType) => mark + name + " " + metricType + "\n"
    case SampleLine(name, labels, value) => name + Braced(labels) + (" " + value + "\n")
  }

  ghost function RenderAll(lines: seq<Line>, mark: string): string
  {
    if lines == [] then "" else RenderAll(lines[..|lines| - 1], mark) + Render(lines[|lines| - 1], mark)
  }

  lemma RenderAllAppend(lines: seq<Line>, l: Line, mark: string)
    ensures RenderAll(lines + [l], mark) == RenderAll(lines, mark) + Render(l, mark)
  {
    assert (lines + [l])[..|lines|] == lines;
  }

  function Announcement(name: string, mark: string): string
  {
    mark + name + " "
  }

  /** Nothing but label values can hold a hash or a newline; names hold no space. */
  ghost predicate Tame(l: Line, mark: string)
  {
    && '#' !in l.name && ' ' !in l.name && '\n' !in l.name
    && (l.TypeLine? ==> '#' !in l.metricType)
    && (l.SampleLine? ==> '#' !in l.value)
    && (l.SampleLine? ==> forall k :: k in l.labels ==> '#' !in k && !Contains(l.labels[k], mark))
  }

  lemma TypeLineAnnounces(l: Line, mark: string)
    requires l.TypeLine?
    ensures Contains(Render(l, mark), Announcement(l.name, mark))
  {
    var s, a := Render(l, mark), Announcement(l.name, mark);
    assert s == a + (l.metricType + "\n");
    assert s[..|a|] == a;
  }

  /** A TYPE line once written is always found again. */
  lemma {:induction false} WrittenIsFound(lines: seq<Line>, i: nat, mark: string)
    requires i < |lines| && lines[i].TypeLine?
    ensures Contains(RenderAll(lines, mark), Announcement(lines[i].name, mark))
  {
    var before, last := lines[..|lines| - 1], lines[|lines| - 1];
    if i < |before| {
      assert before[i] == lines[i];
      WrittenIsFound(before, i, mark);
    } else {
      TypeLineAnnounces(last, mark);
    }
    ContainsAppend(RenderAll(before, mark), Render(last, mark), Announcement(lines[i].name, mark));
  }

  lemma QuotedHasNoMark(front: string, e: string, mark: string)
    requires GoodMark(mark) && !Contains(front, mark) && !Contains(e, mark)
    ensures !Contains(front + "\"" + e + "\"", mark)
  {
    NoHashNoMatch("", mark);
    ContainsSplit(front, '"', e, mark);
    ContainsSplit(front + ['"'] + e, '"', "", mark);
    assert front + "\"" + e + "\"" == front + ['"'] + e + ['"'] + "";
  }

  lemma LabelHasNoMark(k: string, v: string, mark: string)
    requires GoodMark(mark) && '#' !in k && !Contains(v, mark)
    ensures !Contains(Label(k, v), mark)
  {
    ThreePassesAreOne(v);
    EscapeAddsNoMark(v, mark);
    NoHashNoMatch(k + "=", mark);
    QuotedHasNoMark(k + "=", LabelValue(v), mark);
    assert Label(k, v) == k + "=" + "\"" + LabelValue(v) + "\"";
  }

  lemma {:induction false} LabelTextHasNoMark(keys: seq<string>, labels: map<string, string>, mark: string)
    requires GoodMark(mark) && forall k :: k in keys ==> k in labels && '#' !in k && !Contains(labels[k], mark)
    ensures !Contains(LabelText(keys, labels), mark)
  {
    if keys == [] {
      NoHashNoMatch("", mark);
    } else {
      var init, k := keys[..|keys| - 1], keys[|keys| - 1];
      LabelTextHasNoMark(init, labels, mark);
      LabelHasNoMark(k, labels[k], mark);
      assert LabelText(keys, labels) == (if init == [] then "" else LabelText(init, labels) + ",") + Label(k, labels[k]);
      assert "" + Label(k, labels[k]) == Label(k, labels[k]);
      ContainsSplit(LabelText(init, labels), ',', Label(k, labels[k]), mark);
    }
  }

  lemma BracedHasNoMark(name: string, body: string, tail: string, mark: string)
    requires GoodMark(mark) && '#' !in name && '#' !in tail && !Contains(body, mark)
    ensures !Contains(name + ("{" + body + "}") + tail, mark)
  {
    NoHashNoMatch(name, mark);
    NoHashNoMatch(tail, mark);
    ContainsSplit(name, '{', body, mark);
    ContainsSplit(name + ['{'] + body, '}', tail, mark);
    assert name + ("{" + body + "}") + tail == name + ['{'] + body + ['}'] + tail;
  }

  lemma SampleHasNoMark(l: Line, mark: string)
    requires GoodMark(mark) && Tame(l, mark) && l.SampleLine?
    ensures !Contains(Render(l, mark), mark)
  {
    var tail := " " + l.value + "\n";
    if l.labels == map[] {
      NoHashNoMatch(l.name + "" + tail, mark);
    } else {
      LabelTextHasNoMark(SortedNames(l.labels.Keys), l.labels, mark);
      BracedHasNoMark(l.name, LabelText(SortedNames(l.labels.Keys), l.labels), tail, mark);
    }
  }

  lemma TypeLineAnnouncesOnly(l: Line, name: string, mark: string)
    requires GoodMark(mark) && Tame(l, mark) && l.TypeLine? && ' ' !in name
    ensures Contains(Render(l, mark), Announcement(name, mark)) ==> l.name == name
  {
    var s, pat, n := Render(l, mark), Announcement(name, mark), |mark|;
    assert s[1..] == mark[1..] + (l.name + " " + l.metricType + "\n");
    NoHashNoMatch(s[1..], pat);
    if HasPrefix(s, pat) {
      var rest := s[|pat|..];
      assert s == pat + rest;
      assert s[n..] == l.name + [' '] + (l.metricType + "\n");
      assert s[n..] == name + [' '] + rest;
      SplitAtFirst(l.name, l.metricType + "\n", name, rest, ' ');
    }
  }

  lemma RenderAllEnds(lines: seq<Line>, mark: string)
    ensures var s := RenderAll(lines, mark); s == "" || s[|s| - 1] == '\n'
  {
  }

  lemma LineAnnouncesOnly(l: Line, name: string, mark: string)
    requires GoodMark(mark) && Tame(l, mark) && ' ' !in name
    requires Contains(Render(l, mark), Announcement(name, mark))
    ensures l.TypeLine? && l.name == name
  {
    if l.SampleLine? {
      assert Announcement(name, mark) == mark + (name + " ");
      ContainsPrefixOf(Render(l, mark), mark, name + " ");
      SampleHasNoMark(l, mark);
    } else {
      TypeLineAnnouncesOnly(l, name, mark);
    }
  }

  /** An announcement does not reach across the end of a line. */
  lemma ContainsSplitLines(a: string, s: string, pat: string)
    requires pat != "" && '\n' !in pat && (a == "" || a[|a| - 1] == '\n')
    requires Contains(a + s, pat)
    ensures Contains(a, pat) || Contains(s, pat)
  {
    if a == "" {
      assert a + s == s;
    } else {
      var init := a[..|a| - 1];
      assert a + s == init + ['\n'] + s && a == init + ['\n'];
      ContainsSplit(init, '\n', s, pat);
      ContainsAppend(init, ['\n'], pat);
    }
  }

  /** Among tame lines, only a TYPE line for the name is ever taken for one. */
  lemma {:induction false} FoundWasWritten(lines: seq<Line>, name: string, mark: string) returns (i: nat)
    requires GoodMark(mark) && forall i :: 0 <= i < |lines| ==> Tame(lines[i], mark)
    requires ' ' !in name && '\n' !in name
    requires Contains(RenderAll(lines, mark), Announcement(name, mark))
    ensures i < |lines| && lines[i].TypeLine? && lines[i].name == name
  {
    var pat := Announcement(name, mark);
    if lines == [] {
      NoHashNoMatch("", pat);
    } else {
      var before, last := lines[..|lines| - 1], lines[|lines| - 1];
      RenderAllEnds(before, mark);
      ContainsSplitLines(RenderAll(before, mark), Render(last, mark), pat);
      if Contains(Render(last, mark), pat) {
        LineAnnouncesOnly(last, name, mark);
        i := |lines| - 1;
      } else {
        i := FoundWasWritten(before, name, mark);
      }
    }
  }

  // ---------------------------------------------------------------------
  // The writer.

  datatype Metric = Metric(metricType: string, name: string, labels: map<string, string>, value: string)

  ghost predicate HasType(lines: seq<Line>, name: string)
  {
    exists i :: 0 <= i < |lines| && lines[i].TypeLine? && lines[i].name == name
  }

  /** No name is typed twice. */
  ghost predicate TypedOnce(lines: seq<Line>)
  {
    lines == [] ||
    var before, last := lines[..|lines| - 1], lines[|lines| - 1];
    TypedOnce(before) && (last.TypeLine? ==> !HasType(before, last.name))
  }

  /** Every sample comes after a TYPE line of its name. */
  ghost predicate TypedBefore(lines: seq<Line>)
  {
    lines == [] ||
    var before, last := lines[..|lines| - 1], lines[|lines| - 1];
    TypedBefore(before) && (last.SampleLine? ==> HasType(before, last.name))
  }

  /** The text announces the name. */
  ghost predicate Announced(lines: seq<Line>, name: string, mark: string)
  {
    Contains(RenderAll(lines, mark), Announcement(name, mark))
  }

  function TypeOf(m: Metric): Line
  {
    TypeLine(m.name, m.metricType)
  }

  function SampleOf(m: Metric): Line
  {
    SampleLine(m.name, m.labels, m.value)
  }

  /** What writing the metrics one after the other comes to. */
  ghost function Written(metrics: seq<Metric>, mark: string): seq<Line>
  {
    if metrics == [] then [] else
      var before, m := Written(metrics[..|metrics| - 1], mark), metrics[|metrics| - 1];
      (if Announced(before, m.name, mark) then before else before + [TypeOf(m)]) + [SampleOf(m)]
  }

  class Writer {
    var text: string
    ghost var metrics: seq<Metric>

    constructor ()
      ensures Valid() && metrics == [] && text == ""
    {
      text, metrics := "", [];
    }

    ghost predicate Valid()
      reads this
    {
      text == RenderAll(Written(metrics, TYPE_MARK), TYPE_MARK)
    }

    method WriteMetric(metricType: string, name: string, labels: map<string, string>, value: string)
      requires Valid()
      modifies this
      ensures Valid()
      ensures metrics == old(metrics) + [Metric(metricType, name, labels, value)]
    {
      ghost var m := Metric(metricType, name, labels, value);
      ghost var lines := Written(metrics, TYPE_MARK);
      if !Contains(text, TYPE_MARK + name + " ") {
        RenderAllAppend(lines, TypeOf(m), TYPE_MARK);
        text := text + (TYPE_MARK + name + " " + metricType + "\n");
        lines := lines + [TypeOf(m)];
      }
      var line := WriteSample(name, labels, value);
      RenderAllAppend(lines, SampleOf(m), TYPE_MARK);
      text := text + line;
      assert (metrics + [m])[..|metrics|] == metrics;
      metrics := metrics + [m];
    }

    /** What holds of everything a writer ever produces. */
    lemma Promise()
      requires Valid()
      ensures Kept(metrics, TYPE_MARK)
      ensures TameMetrics(metrics, TYPE_MARK) ==> TypedBefore(Written(metrics, TYPE_MARK))
    {
      TheMarkIsGood();
      TypedRun(metrics, TYPE_MARK);
      if TameMetrics(metrics, TYPE_MARK) { TameRunsAreTyped(metrics, TYPE_MARK); }
    }
  }

  method WriteSample(name: string, labels: map<string, string>, value: string) returns (line: string)
    ensures line == Render(SampleLine(name, labels, value), TYPE_MARK)
  {
    line := name;
    if labels != map[] {
      var keys := SortedNames(labels.Keys);
      var body := "";
      for i := 0 to |keys|
        invariant body == LabelText(keys[..i], labels)
      {
        LabelTextStep(keys, i, labels);
        if i > 0 {
          body := body + ",";
        }
        body := body + Label(keys[i], labels[keys[i]]);
      }
      assert keys[..|keys|] == keys;
      assert labels.Keys != {};
      line := line + ("{" + body + "}");
    } else {
      assert line + "" == line;
    }
    line := line + (" " + value + "\n");
  }

  lemma LabelTextStep(keys: seq<string>, i: nat, labels: map<string, string>)
    requires i < |keys| && forall k :: k in keys ==> k in labels
    ensures LabelText(keys[..i + 1], labels) ==
      (if i == 0 then "" else LabelText(keys[..i], labels) + ",") + Label(keys[i], labels[keys[i]])
  {
    assert keys[..i + 1][..i] == keys[..i];
  }

  // ---------------------------------------------------------------------
  // What the writer promises.

  lemma HasTypeStep(lines: seq<Line>, l: Line, name: string)
    ensures HasType(lines + [l], name) <==> HasType(lines, name) || (l.TypeLine? && l.name == name)
  {
    var all := lines + [l];
    assert all[|lines|] == l;
    if HasType(lines, name) {
      var i :| 0 <= i < |lines| && lines[i].TypeLine? && lines[i].name == name;
      assert all[i] == lines[i];
    }
  }

  lemma TypedStep(lines: seq<Line>, l: Line)
    ensures TypedOnce(lines + [l]) <==> TypedOnce(lines) && (l.TypeLine? ==> !HasType(lines, l.name))
    ensures TypedBefore(lines + [l]) <==> TypedBefore(lines) && (l.SampleLine? ==> HasType(lines, l.name))
  {
    assert (lines + [l])[..|lines|] == lines;
  }

  lemma TypedIsAnnounced(lines: seq<Line>, name: string, mark: string)
    requires HasType(lines, name)
    ensures Announced(lines, name, mark)
  {
    var i :| 0 <= i < |lines| && lines[i].TypeLine? && lines[i].name == name;
    WrittenIsFound(lines, i, mark);
  }

  lemma WrittenStep(metrics: seq<Metric>, m: Metric, mark: string)
    ensures var before := Written(metrics, mark);
      Written(metrics + [m], mark) == (if Announced(before, m.name, mark) then before else before + [TypeOf(m)]) + [SampleOf(m)]
  {
    assert (metrics + [m])[..|metrics|] == metrics;
  }

  /** One more metric never types a name again, and its sample comes after a TYPE line if
      and only if the name has one already or is not announced. */
  lemma OneMoreMetric(metrics: seq<Metric>, m: Metric, mark: string)
    ensures var before, after := Written(metrics, mark), Written(metrics + [m], mark);
      && (TypedOnce(before) ==> TypedOnce(after))
      && (TypedBefore(after) <==> TypedBefore(before) && (HasType(before, m.name) || !Announced(before, m.name, mark)))
  {
    var before := Written(metrics, mark);
    WrittenStep(metrics, m, mark);
    if Announced(before, m.name, mark) {
      TypedStep(before, SampleOf(m));
    } else {
      TypedStep(before, TypeOf(m));
      TypedStep(before + [TypeOf(m)], SampleOf(m));
      HasTypeStep(before, TypeOf(m), m.name);
      if HasType(before, m.name) { TypedIsAnnounced(before, m.name, mark); }
    }
  }

  /** After these metrics the name is announced, but not by a TYPE line. */
  ghost predicate Misled(metrics: seq<Metric>, name: string, mark: string)
  {
    Announced(Written(metrics, mark), name, mark) && !HasType(Written(metrics, mark), name)
  }

  /** No metric of the run is misled by what the ones before it have written. */
  ghost predicate NeverMisled(metrics: seq<Metric>, mark: string)
  {
    metrics == [] ||
    (NeverMisled(metrics[..|metrics| - 1], mark) && !Misled(metrics[..|metrics| - 1], metrics[|metrics| - 1].name, mark))
  }

  /** The promises, as far as they are kept. */
  ghost predicate Kept(metrics: seq<Metric>, mark: string)
  {
    TypedOnce(Written(metrics, mark)) && (TypedBefore(Written(metrics, mark)) <==> NeverMisled(metrics, mark))
  }

  lemma KeptStep(before: seq<Metric>, m: Metric, mark: string)
    requires Kept(before, mark)
    ensures Kept(before + [m], mark)
  {
    OneMoreMetric(before, m, mark);
    assert (before + [m])[..|before|] == before;
  }

  /** Over every run no name is typed twice, and every sample comes after its TYPE line if
      and only if no metric is misled. */
  lemma {:induction false} TypedRun(metrics: seq<Metric>, mark: string)
    ensures Kept(metrics, mark)
  {
    if metrics != [] {
      TypedRun(metrics[..|metrics| - 1], mark);
      KeptStep(metrics[..|metrics| - 1], metrics[|metrics| - 1], mark);
      assert metrics == metrics[..|metrics| - 1] + [metrics[|metrics| - 1]];
    }
  }

  ghost predicate AllTame(lines: seq<Line>, mark: string)
  {
    forall i :: 0 <= i < |lines| ==> Tame(lines[i], mark)
  }

  ghost predicate TameMetrics(metrics: seq<Metric>, mark: string)
  {
    forall m :: m in metrics ==> Tame(TypeOf(m), mark) && Tame(SampleOf(m), mark)
  }

  lemma {:induction false} TameMetricsTameLines(metrics: seq<Metric>, mark: string)
    requires TameMetrics(metrics, mark)
    ensures AllTame(Written(metrics, mark), mark)
  {
    if metrics != [] {
      TameMetricsTameLines(metrics[..|metrics| - 1], mark);
      assert metrics[|metrics| - 1] in metrics;
    }
  }

  /** Without TYPE marks in label values no metric is ever misled. */
  lemma {:induction false} TameRunsAreTyped(metrics: seq<Metric>, mark: string)
    requires GoodMark(mark)
    requires TameMetrics(metrics, mark)
    ensures NeverMisled(metrics, mark)
  {
    if metrics != [] {
      var before, m := metrics[..|metrics| - 1], metrics[|metrics| - 1];
      TameRunsAreTyped(before, mark);
      TameMetricsTameLines(before, mark);
      assert m in metrics;
      if Misled(before, m.name, mark) {
        var i := FoundWasWritten(Written(before, mark), m.name, mark);
      }
    }
  }

  lemma TheMarkIsGood()
    ensures GoodMark(TYPE_MARK)
  {
  }

  lemma {:induction false} PlainValueIsKept(v: string)
    requires '\\' !in v && '\n' !in v && '"' !in v
    ensures Escape(v) == v
  {
    if v != "" { PlainValueIsKept(v[1..]); }
  }

  lemma ContainsInside(a: string, s: string, b: string, pat: string)
    requires Contains(s, pat)
    ensures Contains(a + s + b, pat)
  {
    ContainsAppend(a, s, pat);
    ContainsAppend(a + s, b, pat);
  }

  lemma OneLabel(k: string, a: string)
    requires '\\' !in a && '\n' !in a && '"' !in a
    ensures Contains(Braced(map[k := a]), a)
  {
    var labels := map[k := a];
    var keys := SortedNames(labels.Keys);
    OnlyName(labels.Keys, k);
    assert keys[..0] == [];
    assert LabelText(keys, labels) == "" + Label(k, a) == Label(k, a);
    ThreePassesAreOne(a);
    PlainValueIsKept(a);
    assert a == "" || a[..|a|] == a;
    ContainsInside(k + "=\"", a, "\"", a);
    ContainsInside("{", Label(k, a), "}", a);
  }

  /** Without the condition on label values the second promise fails: a sample whose label
      spells the announcement of another name makes that name pass for typed. */
  lemma LabelCanPassForTypeLine(sample: string, k: string, value: string, name: string, mark: string)
    requires GoodMark(mark) && '\\' !in name && '\n' !in name && '"' !in name
    ensures Contains(Render(SampleLine(sample, map[k := Announcement(name, mark)], value), mark), Announcement(name, mark))
  {
    var a := Announcement(name, mark);
    OneLabel(k, a);
    ContainsInside(sample, Braced(map[k := a]), " " + value + "\n", a);
  }

  /** A run that breaks the promise: a metric whose label spells the announcement of
      another name, and then a metric of that name. */
  lemma LabelMisleads(first: Metric, k: string, second: Metric, mark: string)
    requires GoodMark(mark) && '\\' !in second.name && '\n' !in second.name && '"' !in second.name
    requires first.name != second.name && first.labels == map[k := Announcement(second.name, mark)]
    ensures !TypedBefore(Written([first] + [second], mark))
  {
    var none: seq<Metric> := [];
    var lines := Written([first], mark);
    OneMoreMetric([first], second, mark);
    assert none + [first] == [first];
    WrittenStep(none, first, mark);
    var front := lines[..|lines| - 1];
    assert lines == front + [SampleOf(first)];
    RenderAllAppend(front, SampleOf(first), mark);
    LabelCanPassForTypeLine(first.name, k, first.value, second.name, mark);
    ContainsAppend(RenderAll(front, mark), Render(SampleOf(first), mark), Announcement(second.name, mark));
    NothingTyped(none, first, second.name, mark);
  }

  lemma NothingTyped(none: seq<Metric>, m: Metric, name: string, mark: string)
    requires none == [] && m.name != name
    ensures !HasType(Written(none + [m], mark), name)
  {
    WrittenStep(none, m, mark);
  }

  lemma OnlyName(s: set<string>, k: string)
    requires s == {k}
    ensures SortedNames(s) == [k]
  {
    var names := SortedNames(s);
    assert |names| == 1 && names[0] in names;
  }
}
