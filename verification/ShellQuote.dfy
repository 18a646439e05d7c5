/** Quoting a word for a POSIX shell (internal/server/api/host.go), read back by the
    shell's own quoting rules (XCU sections 2.2.2 and 2.2.3). */
module ShellQuote {
  import opened Prelude

  function Quote(s: string): string
  {
    "'" + ReplaceAll(s, '\'', "'\"'\"'") + "'"
  }

  // ---------------------------------------------------------------------
  // The shell's side.

  datatype Mode = Plain | Escaped | Single | Double

  /** Words finished, the word being read, and the quoting in force; or input that is not
      a plain list of words. */
  datatype Lexer = Lexer(words: seq<string>, word: Option<string>, mode: Mode) | NotWords

  predicate IsDelimiter(c: char)
  {
    c == ' ' || c == '\t'
  }

  /** Operators, expansions, comments, patterns: outside quotes these do not stand for
      themselves. */
  predicate IsSpecial(c: char)
  {
    c in "|&;<>()$`*?[]#~=%!{}\n"
  }

  function Grow(word: Option<string>, c: string): Option<string>
  {
    Some((if word.Some? then word.value else "") + c)
  }

  function Step(l: Lexer, c: char): Lexer
  {
    if l.NotWords? then l else
      match l.mode
      case Escaped => if c == '\n' then NotWords else Lexer(l.words, Grow(l.word, [c]), Plain)
      case Single => if c == '\'' then l.(mode := Plain) else l.(word := Grow(l.word, [c]))
      case Double =>
        if c == '"' then l.(mode := Plain)
        else if c == '$' || c == '`' || c == '\\' then NotWords
        else l.(word := Grow(l.word, [c]))
      case Plain =>
        if c == '\'' then Lexer(l.words, Grow(l.word, ""), Single)
        else if c == '"' then Lexer(l.words, Grow(l.word, ""), Double)
        else if c == '\\' then l.(mode := Escaped)
        else if IsDelimiter(c) then
          if l.word.Some? then Lexer(l.words + [l.word.value], None, Plain) else l
        else if IsSpecial(c) then NotWords
        else l.(word := Grow(l.word, [c]))
  }

  function Read(l: Lexer, s: string): Lexer
  {
    if s == "" then l else Step(Read(l, s[..|s| - 1]), s[|s| - 1])
  }

  /** The words of a command line, if it is nothing but words. */
  function Words(s: string): Option<seq<string>>
  {
    var l := Read(Lexer([], None, Plain), s);
    if l.NotWords? || !l.mode.Plain? then None
    else if l.word.Some? then Some(l.words + [l.word.value])
    else Some(l.words)
  }

  // ---------------------------------------------------------------------

  lemma {:induction false} ReadAppend(l: Lexer, s: string, t: string)
    ensures Read(l, s + t) == Read(Read(l, s), t)
  {
    if t == "" {
      assert s + t == s;
    } else {
      assert (s + t)[..|s + t| - 1] == s + t[..|t| - 1];
      ReadAppend(l, s, t[..|t| - 1]);
    }
  }

  lemma Reassembled(before: string, s: string)
    requires s != ""
    ensures before + [s[0]] + s[1..] == before + s
  {
  }

  lemma InnerStep(words: seq<string>, before: string, c: char, tail: string)
    ensures Read(Lexer(words, Some(before), Single), (if c == '\'' then "'\"'\"'" else [c]) + tail) ==
      Read(Lexer(words, Some(before + [c]), Single), tail)
  {
    var l := Lexer(words, Some(before), Single);
    ReadAppend(l, if c == '\'' then "'\"'\"'" else [c], tail);
    PieceReadsBack(l, c);
  }

  /** Inside single quotes the replaced text reads back as the text. */
  lemma {:induction false} InnerReadsBack(words: seq<string>, before: string, s: string)
    ensures Read(Lexer(words, Some(before), Single), ReplaceAll(s, '\'', "'\"'\"'")) ==
      Lexer(words, Some(before + s), Single)
    decreases s
  {
    if s == "" {
      assert before + s == before;
    } else {
      var tail := ReplaceAll(s[1..], '\'', "'\"'\"'");
      InnerStep(words, before, s[0], tail);
      InnerReadsBack(words, before + [s[0]], s[1..]);
      Reassembled(before, s);
    }
  }

  lemma PieceReadsBack(l: Lexer, c: char)
    requires l.Lexer? && l.mode.Single? && l.word.Some?
    ensures Read(l, if c == '\'' then "'\"'\"'" else [c]) == l.(word := Some(l.word.value + [c]))
  {
    if c == '\'' {
      var w, q := l.word.value, "'\"'\"'";
      assert w + "" == w && w + "'" + "" == w + "'";
      var l1, l2 := l.(mode := Plain), l.(mode := Double);
      var l3 := l2.(word := Some(w + "'"));
      var l4 := l3.(mode := Plain);
      assert Step(l, '\'') == l1 && Step(l1, '"') == l2 && Step(l2, '\'') == l3 && Step(l3, '"') == l4;
      ReadCons(l, '\'', q[1..]);
      ReadCons(l1, '"', q[2..]);
      ReadCons(l2, '\'', q[3..]);
      ReadCons(l3, '"', q[4..]);
      ReadOne(l4, '\'');
      assert q == [q[0]] + q[1..] && q[1..] == [q[1]] + q[2..] && q[2..] == [q[2]] + q[3..] && q[3..] == [q[3]] + q[4..];
      assert q[4..] == ['\''];
    } else {
      ReadOne(l, c);
    }
  }

  lemma ReadCons(l: Lexer, c: char, s: string)
    ensures Read(l, [c] + s) == Read(Step(l, c), s)
  {
    ReadAppend(l, [c], s);
    ReadOne(l, c);
  }

  lemma ReadOne(l: Lexer, c: char)
    ensures Read(l, [c]) == Step(l, c)
  {
    assert [c][..0] == "";
  }

  /** A quoted text adds exactly that text to the word being read. */
  lemma QuoteReadsBack(words: seq<string>, s: string)
    ensures Read(Lexer(words, None, Plain), Quote(s)) == Lexer(words, Some(s), Plain)
  {
    var l, inner := Lexer(words, None, Plain), ReplaceAll(s, '\'', "'\"'\"'");
    ReadAppend(l, "'" + inner, "'");
    ReadCons(l, '\'', inner);
    assert Step(l, '\'') == Lexer(words, Some(""), Single) by { assert "" + "" == ""; }
    InnerReadsBack(words, "", s);
    assert "" + s == s;
    ReadOne(Lexer(words, Some(s), Single), '\'');
  }

  /** Arguments quoted and joined by spaces. */
  function CommandLine(args: seq<string>): string
  {
    if args == [] then ""
    else if |args| == 1 then Quote(args[0])
    else CommandLine(args[..|args| - 1]) + " " + Quote(args[|args| - 1])
  }

  lemma {:induction false} CommandLineReadsBack(args: seq<string>)
    requires args != []
    ensures Read(Lexer([], None, Plain), CommandLine(args)) == Lexer(args[..|args| - 1], Some(args[|args| - 1]), Plain)
  {
    var l, n := Lexer([], None, Plain), |args| - 1;
    if n == 0 {
      QuoteReadsBack([], args[0]);
    } else {
      CommandLineReadsBack(args[..n]);
      ReadAppend(l, CommandLine(args[..n]) + " ", Quote(args[n]));
      ReadAppend(l, CommandLine(args[..n]), " ");
      ReadOne(Read(l, CommandLine(args[..n])), ' ');
      assert args[..n][..n - 1] + [args[..n][n - 1]] == args[..n];
      QuoteReadsBack(args[..n], args[n]);
    }
  }

  /** The shell reads a quoted text as one word, the text itself; and any list of quoted
      arguments as those arguments. */
  lemma ShellReadsWhatWasQuoted(s: string, args: seq<string>)
    ensures Words(Quote(s)) == Some([s])
    ensures Words(CommandLine(args)) == Some(args)
  {
    QuoteReadsBack([], s);
    assert [] + [s] == [s];
    if args != [] {
      CommandLineReadsBack(args);
      assert args[..|args| - 1] + [args[|args| - 1]] == args;
    }
  }
}
