/** A scraper's view of the sample lines of the metrics writer (internal/server/api/admin.go):
    the name, the labels and the value can be read back. */
module PrometheusRead {
  import opened Prelude
  import opened Lex
  import opened Prometheus

  /** How far the name reaches: to the first brace or space. */
  function NameEnd(s: string): (n: nat)
    ensures n <= |s|
  {
    if s == "" || s[0] == '{' || s[0] == ' ' then 0 else 1 + NameEnd(s[1..])
  }

  /** How far a label's name reaches. */
  function KeyEnd(s: string): (n: nat)
    ensures n <= |s|
  {
    if s == "" || s[0] == '=' then 0 else 1 + KeyEnd(s[1..])
  }

  lemma {:induction false} ReadLabelConsumes(s: string)
    requires ReadLabel(s).Some?
    ensures |ReadLabel(s).value.1| < |s|
    decreases |s|
  {
    if s[0] != '"' { ReadLabelConsumes(if s[0] == '\\' then s[2..] else s[1..]); }
  }

  type Pairs = seq<(string, string)>

  function Prepend(p: Pairs, r: Option<(Pairs, string)>): Option<(Pairs, string)>
  {
    match r
    case None => None
    case Some((q, rest)) => Some((p + q, rest))
  }

  /** Labels up to the closing brace. */
  function ReadPairs(s: string): Option<(Pairs, string)>
    decreases |s|
  {
    var n := KeyEnd(s);
    if |s| < n + 2 || s[n + 1] != '"' then None
    else
      var r := ReadLabel(s[n + 2..]);
      if r.None? then None else
        ReadLabelConsumes(s[n + 2..]);
        var (v, rest) := r.value;
        if rest == "" then None
        else if rest[0] == '}' then Some(([(s[..n], v)], rest[1..]))
        else if rest[0] == ',' then Prepend([(s[..n], v)], ReadPairs(rest[1..]))
        else None
  }

  /** The value, between a space and the end of the line. */
  function ReadValue(s: string): Option<string>
  {
    if |s| < 2 || s[0] != ' ' || s[|s| - 1] != '\n' then None else Some(s[1..|s| - 1])
  }

  function ReadSample(s: string): Option<(string, Pairs, string)>
  {
    var n := NameEnd(s);
    if n < |s| && s[n] == '{' then
      match ReadPairs(s[n + 1..])
      case None => None
      case Some((pairs, rest)) =>
        match ReadValue(rest)
        case None => None
        case Some(value) => Some((s[..n], pairs, value))
    else
      match ReadValue(s[n..])
      case None => None
      case Some(value) => Some((s[..n], [], value))
  }

  function PairsOf(keys: seq<string>, labels: map<string, string>): Pairs
    requires forall k :: k in keys ==> k in labels
  {
    if keys == [] then [] else
      PairsOf(keys[..|keys| - 1], labels) + [(keys[|keys| - 1], labels[keys[|keys| - 1]])]
  }

  lemma {:induction false} NameEndsAt(name: string, rest: string)
    requires '{' !in name && ' ' !in name && rest != "" && (rest[0] == '{' || rest[0] == ' ')
    ensures NameEnd(name + rest) == |name|
  {
    if name == "" {
      assert name + rest == rest;
    } else {
      assert (name + rest)[1..] == name[1..] + rest;
      NameEndsAt(name[1..], rest);
    }
  }

  lemma {:induction false} KeyEndsAt(k: string, rest: string)
    requires '=' !in k && rest != "" && rest[0] == '='
    ensures KeyEnd(k + rest) == |k|
  {
    if k == "" {
      assert k + rest == rest;
    } else {
      assert (k + rest)[1..] == k[1..] + rest;
      KeyEndsAt(k[1..], rest);
    }
  }

  /** One label, and what follows it. */
  lemma OneLabelReadsBack(k: string, v: string, c: char, rest: string)
    requires '=' !in k && (c == '}' || c == ',')
    ensures ReadPairs(Label(k, v) + ([c] + rest)) ==
      if c == '}' then Some(([(k, v)], rest)) else Prepend([(k, v)], ReadPairs(rest))
  {
    var tail := [c] + rest;
    var behind := LabelValue(v) + "\"" + tail;
    var s := Label(k, v) + tail;
    assert s == k + ("=\"" + behind);
    KeyEndsAt(k, "=\"" + behind);
    assert s[..|k|] == k && s[|k| + 1] == '"' && s[|k| + 2..] == behind;
    LabelValueReadsBack(v, tail);
    assert tail[1..] == rest;
  }

  lemma PrependTwice(p: Pairs, q: Pairs, r: Option<(Pairs, string)>)
    ensures Prepend(p, Prepend(q, r)) == Prepend(p + q, r)
  {
    if r.Some? { assert p + (q + r.value.0) == p + q + r.value.0; }
  }

  lemma Regroup(a: string, b: string, c: string, d: string)
    ensures a + b + (c + d) == a + (b + (c + d))
    ensures a + "," + b + (c + d) == a + ("," + (b + (c + d)))
  {
  }

  /** Labels with a comma behind them are read one by one. */
  lemma {:induction false} LabelsReadBack(keys: seq<string>, labels: map<string, string>, rest: string)
    requires keys != [] && forall k :: k in keys ==> k in labels && '=' !in k
    ensures ReadPairs(LabelText(keys, labels) + ("," + rest)) == Prepend(PairsOf(keys, labels), ReadPairs(rest))
    decreases |keys|
  {
    var init, k := keys[..|keys| - 1], keys[|keys| - 1];
    var text := Label(k, labels[k]);
    OneLabelReadsBack(k, labels[k], ',', rest);
    if init == [] {
      assert LabelText(keys, labels) == "" + text == text;
      assert PairsOf(keys, labels) == [] + [(k, labels[k])] == [(k, labels[k])];
    } else {
      LabelsReadBack(init, labels, text + ("," + rest));
      Regroup(LabelText(init, labels), text, ",", rest);
      PrependTwice(PairsOf(init, labels), [(k, labels[k])], ReadPairs(rest));
    }
  }

  /** The labels of a sample read back, in the order written. */
  lemma AllLabelsReadBack(keys: seq<string>, labels: map<string, string>, rest: string)
    requires keys != [] && forall k :: k in keys ==> k in labels && '=' !in k
    ensures ReadPairs(LabelText(keys, labels) + ("}" + rest)) == Some((PairsOf(keys, labels), rest))
  {
    var init, k := keys[..|keys| - 1], keys[|keys| - 1];
    var text := Label(k, labels[k]);
    OneLabelReadsBack(k, labels[k], '}', rest);
    if init == [] {
      assert LabelText(keys, labels) == "" + text == text;
      assert PairsOf(keys, labels) == [] + [(k, labels[k])] == [(k, labels[k])];
    } else {
      LabelsReadBack(init, labels, text + ("}" + rest));
      Regroup(LabelText(init, labels), text, "}", rest);
    }
  }

  lemma ValueReadsBack(value: string)
    ensures ReadValue(" " + value + "\n") == Some(value)
  {
    var s := " " + value + "\n";
    assert s[1..|s| - 1] == value;
  }

  lemma TypeLineText(name: string, metricType: string)
    ensures Render(TypeLine(name, metricType), TYPE_MARK) == "# TYPE " + name + " " + metricType + "\n"
  {
  }

  lemma PlainSample(name: string, value: string)
    requires '{' !in name && ' ' !in name
    ensures ReadSample(name + (" " + value + "\n")) == Some((name, [], value))
  {
    var tail := " " + value + "\n";
    ValueReadsBack(value);
    NameEndsAt(name, tail);
    assert (name + tail)[..|name|] == name && (name + tail)[|name|..] == tail;
  }

  lemma LabelledSample(name: string, body: string, pairs: Pairs, value: string)
    requires '{' !in name && ' ' !in name
    requires ReadPairs(body + ("}" + (" " + value + "\n"))) == Some((pairs, " " + value + "\n"))
    ensures ReadSample(name + ("{" + body + "}") + (" " + value + "\n")) == Some((name, pairs, value))
  {
    var tail := " " + value + "\n";
    var rest := "{" + (body + ("}" + tail));
    ValueReadsBack(value);
    NameEndsAt(name, rest);
    assert name + ("{" + body + "}") + tail == name + rest;
    assert (name + rest)[..|name|] == name && (name + rest)[|name| + 1..] == body + ("}" + tail);
  }

  /** A scraper reads back what a sample line was written for: its name, its labels, sorted
      by name, and its value. */
  lemma SampleReadsBack(name: string, labels: map<string, string>, value: string, mark: string)
    requires '{' !in name && ' ' !in name && forall k :: k in labels ==> '=' !in k
    ensures ReadSample(Render(SampleLine(name, labels, value), mark)) ==
      Some((name, PairsOf(SortedNames(labels.Keys), labels), value))
  {
    var keys := SortedNames(labels.Keys);
    if labels == map[] {
      PlainSample(name, value);
      assert name + "" == name && keys == [];
    } else {
      var k :| k in labels;
      assert k in keys;
      AllLabelsReadBack(keys, labels, " " + value + "\n");
      LabelledSample(name, LabelText(keys, labels), PairsOf(keys, labels), value);
    }
  }
}
