/** Writing statements as text, and the proof that the parser reads every well-formed list back. */
module RecipeQuoting {
  import opened Text
  import opened RecipeSyntax
  import opened RecipeLexer
  import ControlFlow = RecipeControlFlow

  // ----- writing -----

  /** A word inside double quotes; a double quote leaves them for a single-quoted pair. */
  function QuoteBody(w: string): string {
    if w == "" then ""
    else (if w[0] == '"' then "\"'\"'\"" else [w[0]]) + QuoteBody(w[1..])
  }

  function Quote(w: string): string { "\"" + QuoteBody(w) + "\"" }

  function WriteWords(words: seq<string>): string {
    if words == [] then "" else Quote(words[0]) + " " + WriteWords(words[1..])
  }

  /** The words of a command, its capture included. */
  function CommandWords(st: Statement): seq<string> {
    if st.capture == "" then st.argv else [st.capture, ":="] + st.argv
  }

  /** One statement, on a line of its own. */
  function Write(st: Statement): string {
    match st.control
    case Command => WriteWords(CommandWords(st)) + ";\n"
    case If => "IF " + WriteWords(st.cond) + "BEGIN\n"
    case ElseIf => "ELSE IF " + WriteWords(st.cond) + "BEGIN\n"
    case Else => "ELSE BEGIN\n"
    case End => "END\n"
  }

  function WriteAll(stmts: seq<Statement>): string {
    if stmts == [] then "" else Write(stmts[0]) + WriteAll(stmts[1..])
  }

  function Newlines(s: string): nat {
    if s == "" then 0 else (if s[0] == '\n' then 1 else 0) + Newlines(s[1..])
  }

  /** The statements with the lines on which `WriteAll` puts them, the first on `line`. */
  function Placed(path: string, stmts: seq<Statement>, line: nat): seq<Statement>
    decreases stmts
  {
    if stmts == [] then []
    else [stmts[0].(line := line, src := path)] + Placed(path, stmts[1..], line + Newlines(Write(stmts[0])))
  }

  // ----- reading text instead of lines -----

  function SkipComment(text: string): (rest: string)
    ensures |rest| <= |text|
  {
    if text == "" || text[0] == '\n' then text else SkipComment(text[1..])
  }

  /** The tokenizer over a whole text, its newlines included. */
  function OverText(path: string, lx: Lex, text: string, lineNo: nat): Lex
    decreases |text|
  {
    if text == "" then EndOfLine(path, lx)
    else if text[0] == '\n' then
      var next := EndOfLine(path, lx);
      if next.segErr.Some? then next else OverText(path, next, text[1..], lineNo + 1)
    else if lx.quote.None? && text[0] == '#' then OverText(path, lx, SkipComment(text[1..]), lineNo)
    else
      var next := Stepped(path, lx, text[0], lineNo);
      if next.segErr.Some? then next else OverText(path, next, text[1..], lineNo)
  }

  lemma {:induction false} SplitSkipComment(text: string)
    ensures Split(SkipComment(text), '\n') == [""] + Split(text, '\n')[1..]
  {
    if text != "" && text[0] != '\n' { SplitSkipComment(text[1..]); }
  }

  /** Reading the lines of a text is reading the text. */
  lemma {:induction false} LinesAreText(path: string, lx: Lex, text: string, lineNo: nat)
    ensures Lines(path, lx, Split(text, '\n'), lineNo) == OverText(path, lx, text, lineNo)
    decreases |text|
  {
    var lines := Split(text, '\n');
    if text == "" {
      assert lines[1..] == [];
    } else {
      var rest := Split(text[1..], '\n');
      if text[0] == '\n' {
        assert lines[0] == "" && lines[1..] == rest;
        LinesAreText(path, EndOfLine(path, lx), text[1..], lineNo + 1);
      } else {
        assert lines[0] == [text[0]] + rest[0] && lines[1..] == rest[1..];
        assert lines[0][1..] == rest[0];
        if lx.quote.None? && text[0] == '#' {
          SplitSkipComment(text[1..]);
          LinesAreText(path, lx, SkipComment(text[1..]), lineNo);
        } else {
          LinesAreText(path, Stepped(path, lx, text[0], lineNo), text[1..], lineNo);
        }
      }
    }
  }

  // ----- reading a piece of text -----

  /** Reading `text`, which starts on line `n`, takes the tokenizer from `lx` to `next`. */
  ghost predicate Reads(path: string, lx: Lex, text: string, n: nat, next: Lex) {
    next.segErr.None? &&
    forall rest :: OverText(path, lx, text + rest, n) == OverText(path, next, rest, n + Newlines(text))
  }

  lemma {:induction false} NewlinesConcat(a: string, b: string)
    ensures Newlines(a + b) == Newlines(a) + Newlines(b)
  {
    if a == "" { assert a + b == b; } else { NewlinesConcat(a[1..], b); assert (a + b)[1..] == a[1..] + b; }
  }

  lemma {:induction false} NoNewlines(s: string)
    requires '\n' !in s
    ensures Newlines(s) == 0
  {
    if s != "" { NoNewlines(s[1..]); }
  }

  lemma ReadNothing(path: string, lx: Lex, n: nat)
    requires lx.segErr.None?
    ensures Reads(path, lx, "", n, lx)
  {
    forall rest ensures OverText(path, lx, "" + rest, n) == OverText(path, lx, rest, n) {
      assert "" + rest == rest;
    }
  }

  /** Pieces are read one after the other. */
  lemma Then(path: string, a: Lex, s: string, n: nat, b: Lex, t: string, c: Lex)
    requires Reads(path, a, s, n, b) && Reads(path, b, t, n + Newlines(s), c)
    ensures Reads(path, a, s + t, n, c)
  {
    hide OverText;
    NewlinesConcat(s, t);
    forall rest ensures OverText(path, a, (s + t) + rest, n) == OverText(path, c, rest, n + Newlines(s + t)) {
      assert (s + t) + rest == s + (t + rest);
    }
  }

  lemma ReadChar(path: string, lx: Lex, ch: char, n: nat)
    requires ch != '\n' && (lx.quote.Some? || ch != '#')
    requires Stepped(path, lx, ch, n).segErr.None?
    ensures Reads(path, lx, [ch], n, Stepped(path, lx, ch, n))
  {
    NoNewlines([ch]);
    forall rest ensures OverText(path, lx, [ch] + rest, n) == OverText(path, Stepped(path, lx, ch, n), rest, n) {
      assert ([ch] + rest)[0] == ch && ([ch] + rest)[1..] == rest;
    }
  }

  lemma ReadNewline(path: string, lx: Lex, n: nat)
    requires EndOfLine(path, lx).segErr.None?
    ensures Reads(path, lx, "\n", n, EndOfLine(path, lx))
    ensures Newlines("\n") == 1
  {
    assert "\n"[1..] == "";
    forall rest ensures OverText(path, lx, "\n" + rest, n) == OverText(path, EndOfLine(path, lx), rest, n + 1) {
      assert ("\n" + rest)[0] == '\n' && ("\n" + rest)[1..] == rest;
    }
  }

  // ----- reading one word -----

  /** Between two tokens, with nothing gone wrong. */
  predicate Between(lx: Lex) {
    lx.tok == "" && !lx.inTok && !lx.tokQuoted && lx.quote.None? && lx.segErr.None?
  }

  /** Inside a double-quoted string. */
  predicate Quoting(lx: Lex) {
    lx.quote == Some('"') && lx.inTok && lx.tokQuoted && lx.segErr.None?
  }

  /** The state after one more finished argument. */
  function WithWord(lx: Lex, w: string, n: nat): Lex {
    lx.(argv := lx.argv + [w], stmtLine := if lx.argv == [] then n else lx.stmtLine)
  }

  function WithWords(lx: Lex, words: seq<string>, n: nat): Lex {
    lx.(argv := lx.argv + words, stmtLine := if lx.argv == [] && words != [] then n else lx.stmtLine)
  }

  lemma ReadQuotedChar(path: string, lx: Lex, c: char, n: nat)
    requires Quoting(lx) && c != '"'
    ensures Reads(path, lx, [c], n, lx.(tok := lx.tok + [c]))
  {
    hide Reads;
    if c == '\n' { ReadNewline(path, lx, n); } else { ReadChar(path, lx, c, n); }
  }

  /** A double quote written as its own single-quoted string. */
  lemma ReadEscapedQuote(path: string, lx: Lex, n: nat)
    requires Quoting(lx)
    ensures Reads(path, lx, "\"'\"'\"", n, lx.(tok := lx.tok + "\""))
  {
    hide Reads;
    var l1 := lx.(quote := None);
    var l2 := l1.(quote := Some('\''));
    var l3 := l2.(tok := lx.tok + "\"");
    var l4 := l3.(quote := None);
    var l5 := lx.(tok := lx.tok + "\"");
    ReadChar(path, lx, '"', n);
    ReadChar(path, l1, '\'', n);
    ReadChar(path, l2, '"', n);
    ReadChar(path, l3, '\'', n);
    ReadChar(path, l4, '"', n);
    NoNewlines("\"");
    NoNewlines("\"'");
    NoNewlines("\"'\"");
    NoNewlines("\"'\"'");
    assert "\"" + "'" == "\"'" && "\"'" + "\"" == "\"'\"" && "\"'\"" + "'" == "\"'\"'" && "\"'\"'" + "\"" == "\"'\"'\"";
    assert lx.tok + ['"'] == lx.tok + "\"";
    Then(path, lx, "\"", n, l1, "'", l2);
    Then(path, lx, "\"" + "'", n, l2, "\"", l3);
    Then(path, lx, "\"'" + "\"", n, l3, "'", l4);
    Then(path, lx, "\"'\"" + "'", n, l4, "\"", l5);
  }

  /** A quoted word adds exactly its characters to the open token. */
  lemma {:induction false} ReadQuoteBody(path: string, lx: Lex, w: string, n: nat)
    requires Quoting(lx)
    ensures Reads(path, lx, QuoteBody(w), n, lx.(tok := lx.tok + w))
    decreases w
  {
    hide Reads;
    if w == "" {
      assert lx.tok + w == lx.tok;
      ReadNothing(path, lx, n);
    } else {
      var piece := if w[0] == '"' then "\"'\"'\"" else [w[0]];
      var next := lx.(tok := lx.tok + [w[0]]);
      if w[0] == '"' { ReadEscapedQuote(path, lx, n); } else { ReadQuotedChar(path, lx, w[0], n); }
      ReadQuoteBody(path, next, w[1..], n + Newlines(piece));
      assert next.tok + w[1..] == lx.tok + w;
      Then(path, lx, piece, n, next, QuoteBody(w[1..]), lx.(tok := lx.tok + w));
    }
  }

  /** A quoted word between tokens becomes the open token. */
  lemma ReadQuoted(path: string, lx: Lex, w: string, n: nat)
    requires Between(lx)
    ensures Reads(path, lx, Quote(w), n, Started(lx, n).(tok := w, tokQuoted := true))
  {
    hide Reads;
    var full := Started(lx, n).(tok := w, tokQuoted := true, quote := Some('"'));
    ReadOpen(path, lx, w, n);
    ReadChar(path, full, '"', n + Newlines("\"" + QuoteBody(w)));
    Then(path, lx, "\"" + QuoteBody(w), n, full, "\"", full.(quote := None));
  }

  /** A quoted word and a space add one argument, whatever the word's characters. */
  lemma ReadQuote(path: string, lx: Lex, w: string, n: nat)
    requires Between(lx)
    ensures Reads(path, lx, Quote(w) + " ", n, WithWord(lx, w, n))
  {
    hide Reads;
    var closed := Started(lx, n).(tok := w, tokQuoted := true);
    ReadQuoted(path, lx, w, n);
    ReadChar(path, closed, ' ', n + Newlines(Quote(w)));
    Then(path, lx, Quote(w), n, closed, " ", WithWord(lx, w, n));
  }

  lemma {:induction false} ReadWords(path: string, lx: Lex, words: seq<string>, n: nat)
    requires Between(lx)
    ensures Reads(path, lx, WriteWords(words), n, WithWords(lx, words, n))
    decreases words
  {
    hide Reads;
    if words == [] {
      assert lx.argv + words == lx.argv;
      ReadNothing(path, lx, n);
    } else {
      var w, m := Quote(words[0]) + " ", n + Newlines(Quote(words[0]) + " ");
      var next := WithWord(lx, words[0], n);
      ReadQuote(path, lx, words[0], n);
      ReadWords(path, next, words[1..], m);
      assert next.argv + words[1..] == lx.argv + words;
      Then(path, lx, w, n, next, WriteWords(words[1..]), WithWords(lx, words, n));
    }
  }

  /** No character of the word ends a token, quotes or comments. */
  predicate Bare(w: string) { forall i :: 0 <= i < |w| ==> w[i] !in " \t\n;#\"'" }

  lemma MarkersBare()
    ensures Bare("IF") && Bare("ELSE") && Bare("BEGIN") && Bare("END") && Bare(":=")
  {
  }

  /** A bare word goes into the open token. */
  lemma {:induction false} ReadBareRest(path: string, lx: Lex, w: string, n: nat)
    requires lx.quote.None? && lx.segErr.None? && lx.inTok && Bare(w)
    ensures Reads(path, lx, w, n, lx.(tok := lx.tok + w))
    ensures Newlines(w) == 0
    decreases w
  {
    hide Reads;
    if w == "" {
      assert lx.tok + w == lx.tok;
      ReadNothing(path, lx, n);
    } else {
      var next := lx.(tok := lx.tok + [w[0]]);
      ReadChar(path, lx, w[0], n);
      NoNewlines([w[0]]);
      ReadBareRest(path, next, w[1..], n);
      assert next.tok + w[1..] == lx.tok + w && [w[0]] + w[1..] == w;
      Then(path, lx, [w[0]], n, next, w[1..], lx.(tok := lx.tok + w));
    }
  }

  /** A bare word between tokens becomes the open token. */
  lemma ReadBare(path: string, lx: Lex, w: string, n: nat)
    requires Between(lx) && w != "" && Bare(w)
    ensures Reads(path, lx, w, n, Started(lx, n).(tok := w))
    ensures Newlines(w) == 0
  {
    hide Reads;
    var next := Started(lx, n).(tok := [w[0]]);
    assert lx.tok + [w[0]] == [w[0]];
    ReadChar(path, lx, w[0], n);
    NoNewlines([w[0]]);
    ReadBareRest(path, next, w[1..], n);
    assert [w[0]] + w[1..] == w;
    Then(path, lx, [w[0]], n, next, w[1..], Started(lx, n).(tok := w));
  }

  /** A bare word and a space add one argument, unless the word is BEGIN or END. */
  lemma ReadBareWord(path: string, lx: Lex, w: string, n: nat)
    requires Between(lx) && w != "" && Bare(w) && w != "BEGIN" && w != "END"
    ensures Reads(path, lx, w + " ", n, WithWord(lx, w, n))
    ensures Newlines(w + " ") == 0
  {
    hide Reads;
    var full := Started(lx, n).(tok := w);
    ReadBare(path, lx, w, n);
    ReadChar(path, full, ' ', n);
    Then(path, lx, w, n, full, " ", WithWord(lx, w, n));
    NoNewlines(w + " ");
  }

  // ----- reading one statement -----

  /** Between two statements. */
  predicate Fresh(lx: Lex) { Between(lx) && lx.argv == [] }

  /** What reading the text of `st` does. */
  function AfterStatement(path: string, lx: Lex, st: Statement, n: nat): Lex {
    lx.(argv := [], out := lx.out + [st.(line := n, src := path)], stmtLine := n)
  }

  lemma ReadCommand(path: string, lx: Lex, st: Statement, n: nat)
    requires Fresh(lx) && WellFormed(st) && st.control.Command?
    ensures Reads(path, lx, Write(st), n, AfterStatement(path, lx, st, n))
  {
    hide Reads;
    var words := CommandWords(st);
    if st.capture != "" {
      assert words[2..] == st.argv;
      assert CaptureShape(words);
    }
    assert lx.argv + words == words;
    var full := lx.(argv := words, stmtLine := n);
    var done := AfterStatement(path, lx, st, n);
    var m := n + Newlines(WriteWords(words));
    ReadWords(path, lx, words, n);
    assert Emitted(path, full, Semi) == done;
    ReadChar(path, full, ';', m);
    NoNewlines(";");
    ReadNewline(path, done, m);
    Then(path, full, ";", m, done, "\n", done);
    Then(path, lx, WriteWords(words), n, full, ";" + "\n", done);
    assert ";" + "\n" == ";\n";
  }

  /** The condition's words and BEGIN, after the header's own words. */
  lemma ReadHeaderEnd(path: string, lx: Lex, cond: seq<string>, n: nat, st: Statement)
    requires Between(lx) && lx.argv != [] && HeaderStatement(path, lx.stmtLine, lx.argv + cond) == Ok(st)
    ensures Reads(path, lx, WriteWords(cond) + "BEGIN\n", n, lx.(argv := [], out := lx.out + [st]))
  {
    MarkersBare();
    hide Reads, Bare;
    var full := lx.(argv := lx.argv + cond);
    var word := full.(inTok := true, tok := "BEGIN");
    var done := lx.(argv := [], out := lx.out + [st]);
    var m := n + Newlines(WriteWords(cond));
    ReadWords(path, lx, cond, n);
    ReadBare(path, full, "BEGIN", m);
    ReadNewline(path, word, m);
    Then(path, full, "BEGIN", m, word, "\n", done);
    Then(path, lx, WriteWords(cond), n, full, "BEGIN" + "\n", done);
    assert WriteWords(cond) + ("BEGIN" + "\n") == WriteWords(cond) + "BEGIN\n";
  }

  lemma ReadIf(path: string, lx: Lex, st: Statement, n: nat)
    requires Fresh(lx) && WellFormed(st) && st.control.If?
    ensures Reads(path, lx, Write(st), n, AfterStatement(path, lx, st, n))
  {
    MarkersBare();
    hide Reads, Bare;
    var one := lx.(argv := ["IF"], stmtLine := n);
    assert lx.argv + ["IF"] == ["IF"] && (["IF"] + st.cond)[1..] == st.cond;
    ReadBareWord(path, lx, "IF", n);
    ReadHeaderEnd(path, one, st.cond, n, st.(line := n, src := path));
    Then(path, lx, "IF" + " ", n, one, WriteWords(st.cond) + "BEGIN\n", AfterStatement(path, lx, st, n));
    assert "IF " + WriteWords(st.cond) + "BEGIN\n" == "IF" + " " + (WriteWords(st.cond) + "BEGIN\n");
  }

  lemma ReadElseIfWords(path: string, lx: Lex, n: nat)
    requires Fresh(lx)
    ensures Reads(path, lx, "ELSE IF ", n, lx.(argv := ["ELSE", "IF"], stmtLine := n))
    ensures Newlines("ELSE IF ") == 0
  {
    MarkersBare();
    hide Reads, Bare;
    var one := lx.(argv := ["ELSE"], stmtLine := n);
    assert lx.argv + ["ELSE"] == ["ELSE"] && one.argv + ["IF"] == ["ELSE", "IF"];
    ReadBareWord(path, lx, "ELSE", n);
    ReadBareWord(path, one, "IF", n);
    Then(path, lx, "ELSE" + " ", n, one, "IF" + " ", lx.(argv := ["ELSE", "IF"], stmtLine := n));
    assert "ELSE" + " " + ("IF" + " ") == "ELSE IF ";
    NoNewlines("ELSE IF ");
  }

  lemma ReadElseIf(path: string, lx: Lex, st: Statement, n: nat)
    requires Fresh(lx) && WellFormed(st) && st.control.ElseIf?
    ensures Reads(path, lx, Write(st), n, AfterStatement(path, lx, st, n))
  {
    hide Reads, WriteWords, Newlines;
    var two := lx.(argv := ["ELSE", "IF"], stmtLine := n);
    assert (two.argv + st.cond)[2..] == st.cond;
    ReadElseIfWords(path, lx, n);
    ReadHeaderEnd(path, two, st.cond, n, st.(line := n, src := path));
    Then(path, lx, "ELSE IF ", n, two, WriteWords(st.cond) + "BEGIN\n", AfterStatement(path, lx, st, n));
    assert "ELSE IF " + WriteWords(st.cond) + "BEGIN\n" == "ELSE IF " + (WriteWords(st.cond) + "BEGIN\n");
  }

  lemma ReadElse(path: string, lx: Lex, st: Statement, n: nat)
    requires Fresh(lx) && WellFormed(st) && st.control.Else?
    ensures Reads(path, lx, Write(st), n, AfterStatement(path, lx, st, n))
  {
    MarkersBare();
    hide Reads, Bare;
    var one := lx.(argv := ["ELSE"], stmtLine := n);
    assert lx.argv + ["ELSE"] == ["ELSE"] && one.argv + [] == one.argv;
    ReadBareWord(path, lx, "ELSE", n);
    ReadHeaderEnd(path, one, [], n, st.(line := n, src := path));
    Then(path, lx, "ELSE" + " ", n, one, WriteWords([]) + "BEGIN\n", AfterStatement(path, lx, st, n));
    assert "ELSE" + " " + (WriteWords([]) + "BEGIN\n") == "ELSE BEGIN\n";
  }

  lemma ReadEnd(path: string, lx: Lex, st: Statement, n: nat)
    requires Fresh(lx) && WellFormed(st) && st.control.End?
    ensures Reads(path, lx, Write(st), n, AfterStatement(path, lx, st, n))
  {
    MarkersBare();
    hide Reads, Bare;
    var word := Started(lx, n).(tok := "END");
    ReadBare(path, lx, "END", n);
    ReadNewline(path, word, n);
    Then(path, lx, "END", n, word, "\n", AfterStatement(path, lx, st, n));
    assert "END" + "\n" == "END\n";
  }

  lemma ReadOne(path: string, lx: Lex, st: Statement, n: nat)
    requires Fresh(lx) && WellFormed(st)
    ensures Reads(path, lx, Write(st), n, AfterStatement(path, lx, st, n))
  {
    hide Reads;
    match st.control
    case Command => ReadCommand(path, lx, st, n);
    case If => ReadIf(path, lx, st, n);
    case ElseIf => ReadElseIf(path, lx, st, n);
    case Else => ReadElse(path, lx, st, n);
    case End => ReadEnd(path, lx, st, n);
  }

  function AfterAll(path: string, lx: Lex, stmts: seq<Statement>, n: nat): Lex
    decreases stmts
  {
    if stmts == [] then lx
    else AfterAll(path, AfterStatement(path, lx, stmts[0], n), stmts[1..], n + Newlines(Write(stmts[0])))
  }

  lemma {:induction false} AfterAllPlaced(path: string, lx: Lex, stmts: seq<Statement>, n: nat)
    requires Fresh(lx)
    ensures Fresh(AfterAll(path, lx, stmts, n))
    ensures AfterAll(path, lx, stmts, n).out == lx.out + Placed(path, stmts, n)
    decreases stmts
  {
    if stmts != [] {
      AfterAllPlaced(path, AfterStatement(path, lx, stmts[0], n), stmts[1..], n + Newlines(Write(stmts[0])));
    }
  }

  lemma {:induction false} ReadAll(path: string, lx: Lex, stmts: seq<Statement>, n: nat)
    requires Fresh(lx) && forall st <- stmts :: WellFormed(st)
    ensures Reads(path, lx, WriteAll(stmts), n, AfterAll(path, lx, stmts, n))
    decreases stmts
  {
    hide Reads, Write, Newlines;
    if stmts == [] {
      ReadNothing(path, lx, n);
    } else {
      var m, next := n + Newlines(Write(stmts[0])), AfterStatement(path, lx, stmts[0], n);
      ReadOne(path, lx, stmts[0], n);
      ReadAll(path, next, stmts[1..], m);
      Then(path, lx, Write(stmts[0]), n, next, WriteAll(stmts[1..]), AfterAll(path, next, stmts[1..], m));
    }
  }

  // ----- the theorems -----

  /** Line numbers and file names do not matter to block structure. */
  lemma {:induction false} PlacedScan(path: string, stmts: seq<Statement>, n: nat,
                                      s: seq<ControlFlow.Frame>, t: seq<ControlFlow.Frame>)
    requires |s| == |t| && forall i :: 0 <= i < |s| ==> s[i].sawElse == t[i].sawElse
    ensures var a, b := ControlFlow.Scan(path, Placed(path, stmts, n), s), ControlFlow.Scan("", stmts, t);
      a.Ok? == b.Ok? && (a.Ok? ==> |a.value| == |b.value|)
    decreases stmts
  {
    if stmts != [] {
      var placed := stmts[0].(line := n, src := path);
      var a, b := ControlFlow.ScanOne(path, placed, s), ControlFlow.ScanOne("", stmts[0], t);
      var m := n + Newlines(Write(stmts[0]));
      assert Placed(path, stmts, n)[1..] == Placed(path, stmts[1..], m);
      if a.Ok? { PlacedScan(path, stmts[1..], m, a.value, b.value); }
    }
  }

  /** The tokenizer over the text of `lines[start..]`. */
  lemma ParseIsOverText(path: string, head: seq<string>, text: string)
    ensures Parse(path, head + Split(text, '\n'), |head|) == Finish(path, OverText(path, INITIAL, text, |head| + 1))
  {
    var lines := head + Split(text, '\n');
    assert lines[|head|..] == Split(text, '\n');
    LinesAreText(path, INITIAL, text, |head| + 1);
  }

  /** Every well-formed list is read back from its text, below whatever header lines: each statement on the
      line where it was written, or the first error of the block structure. */
  lemma ReadBackBelow(path: string, head: seq<string>, stmts: seq<Statement>)
    requires forall st <- stmts :: WellFormed(st)
    ensures Parse(path, head + Split(WriteAll(stmts), '\n'), |head|)
         == match ControlFlow.Check(path, Placed(path, stmts, |head| + 1))
            case Some(e) => Err(e)
            case None => Ok(Placed(path, stmts, |head| + 1))
  {
    hide Placed, WriteAll, Newlines;
    var text, n := WriteAll(stmts), |head| + 1;
    ParseIsOverText(path, head, text);
    ReadAll(path, INITIAL, stmts, n);
    AfterAllPlaced(path, INITIAL, stmts, n);
    var end := AfterAll(path, INITIAL, stmts, n);
    assert OverText(path, INITIAL, text + "", n) == OverText(path, end, "", n + Newlines(text)) && text + "" == text;
    assert [] + Placed(path, stmts, n) == Placed(path, stmts, n);
  }

  /** Round trip: every well-formed, well-nested list is read back from its text, each statement on the
      line where it was written. */
  lemma ReadBack(path: string, head: seq<string>, stmts: seq<Statement>)
    requires (forall st <- stmts :: WellFormed(st)) && ControlFlow.WellNested(stmts)
    ensures Parse(path, head + Split(WriteAll(stmts), '\n'), |head|) == Ok(Placed(path, stmts, |head| + 1))
  {
    ReadBackBelow(path, head, stmts);
    ControlFlow.AcceptsIffWellNested("", stmts);
    PlacedScan(path, stmts, |head| + 1, [], []);
  }

  // ----- the first error -----

  /** What is wrong with these words before this terminator, if anything. */
  function SegmentFault(words: seq<string>, term: Term): Option<ErrorKind> {
    match term
    case Semi => if words != [] && words[0] in {"IF", "ELSE"} then Some(HeaderWithoutBegin(words[0])) else None
    case EndWord => if words == [] then None else Some(UnexpectedBeforeEnd(words))
    case Begin =>
      if words == [] then Some(BeginWithoutHeader)
      else if words[0] != "IF" && words[0] != "ELSE" then Some(UnexpectedBeforeBegin(words[0]))
      else if words == ["IF"] then Some(IfWithoutCondition)
      else if words == ["ELSE", "IF"] then Some(ElseIfWithoutCondition)
      else if words[0] == "IF" || |words| == 1 || words[1] == "IF" then None
      else Some(UnexpectedAfterElse(words[1]))
  }

  function TermText(term: Term): string {
    match term
    case Semi => ";"
    case Begin => "BEGIN\n"
    case EndWord => "END\n"
  }

  lemma SegmentReports(path: string, lx: Lex, term: Term)
    ensures match SegmentFault(lx.argv, term)
            case None => Segment(path, lx, term).Ok?
            case Some(kind) => Segment(path, lx, term) == Err(ParseError(path, lx.stmtLine, kind))
  {
  }

  /** Reading the terminator after the words stops with the fault. */
  lemma TermStops(path: string, lx: Lex, term: Term, n: nat, rest: string)
    requires Between(lx) && SegmentFault(lx.argv, term).Some? && (lx.argv == [] ==> term.Begin?)
    ensures var line := if lx.argv == [] then n else lx.stmtLine;
      OverText(path, lx, TermText(term) + rest, n).segErr
      == Some(ParseError(path, line, SegmentFault(lx.argv, term).value))
  {
    var text := TermText(term) + rest;
    match term
    case Semi =>
      SegmentReports(path, lx, Semi);
      assert text[0] == ';' && text[1..] == rest;
    case Begin =>
      assert text == "BEGIN" + "\n" + rest;
      KeywordStops(path, lx, "BEGIN", Begin, n, rest);
    case EndWord =>
      assert text == "END" + "\n" + rest;
      KeywordStops(path, lx, "END", EndWord, n, rest);
  }

  lemma KeywordStops(path: string, lx: Lex, word: string, term: Term, n: nat, rest: string)
    requires Between(lx) && ((word == "BEGIN" && term == Begin) || (word == "END" && term == EndWord))
    requires SegmentFault(lx.argv, term).Some?
    ensures OverText(path, lx, word + "\n" + rest, n).segErr
         == Some(ParseError(path, if lx.argv == [] then n else lx.stmtLine, SegmentFault(lx.argv, term).value))
  {
    MarkersBare();
    ReadBare(path, lx, word, n);
    var open := Started(lx, n).(tok := word);
    assert word + "\n" + rest == word + ("\n" + rest);
    assert OverText(path, lx, word + ("\n" + rest), n) == OverText(path, open, "\n" + rest, n + Newlines(word));
    var clear := open.(tok := "", inTok := false, tokQuoted := false);
    SegmentReports(path, clear, term);
    assert EndOfLine(path, open) == Emitted(path, clear, term);
    assert ("\n" + rest)[0] == '\n';
  }

  /** The line after the header and the statements. */
  function LineAfter(head: seq<string>, stmts: seq<Statement>): nat { |head| + 1 + Newlines(WriteAll(stmts)) }

  /** The tokenizer after the statements and some words more. */
  function Midway(path: string, head: seq<string>, stmts: seq<Statement>, words: seq<string>): Lex {
    WithWords(AfterAll(path, INITIAL, stmts, |head| + 1), words, LineAfter(head, stmts))
  }

  lemma ReadMidway(path: string, head: seq<string>, stmts: seq<Statement>, words: seq<string>, tail: string)
    requires forall st <- stmts :: WellFormed(st)
    ensures var lx := Midway(path, head, stmts, words);
      Between(lx) && lx.argv == words && (words != [] ==> lx.stmtLine == LineAfter(head, stmts)) &&
      Parse(path, head + Split(WriteAll(stmts) + (WriteWords(words) + tail), '\n'), |head|)
      == Finish(path, OverText(path, lx, tail, LineAfter(head, stmts) + Newlines(WriteWords(words))))
  {
    hide Reads, OverText, Newlines, Finish, Write, WriteAll, WriteWords;
    var n, m := |head| + 1, LineAfter(head, stmts);
    ParseIsOverText(path, head, WriteAll(stmts) + (WriteWords(words) + tail));
    ReadAll(path, INITIAL, stmts, n);
    AfterAllPlaced(path, INITIAL, stmts, n);
    var lx := AfterAll(path, INITIAL, stmts, n);
    ReadWords(path, lx, words, m);
    assert lx.argv + words == words;
    ReadsGives(path, INITIAL, WriteAll(stmts), n, lx, WriteWords(words) + tail);
    ReadsGives(path, lx, WriteWords(words), m, WithWords(lx, words, m), tail);
  }

  lemma ReadsGives(path: string, lx: Lex, text: string, n: nat, next: Lex, rest: string)
    requires Reads(path, lx, text, n, next)
    ensures OverText(path, lx, text + rest, n) == OverText(path, next, rest, n + Newlines(text))
  {
  }

  /** Below any header and after any well-formed statements, the first faulty run of words is the error,
      on the line where the run starts, whatever follows. */
  lemma FirstErrorReported(path: string, head: seq<string>, stmts: seq<Statement>, words: seq<string>, term: Term,
                           rest: string)
    requires (forall st <- stmts :: WellFormed(st)) && SegmentFault(words, term).Some?
    ensures Parse(path, head + Split(WriteAll(stmts) + (WriteWords(words) + (TermText(term) + rest)), '\n'), |head|)
         == Err(ParseError(path, LineAfter(head, stmts), SegmentFault(words, term).value))
  {
    NothingWritten();
    hide Reads, OverText, Midway, Parse, SegmentFault, Newlines, LineAfter, WriteAll, WriteWords, Between, TermText;
    var tail, m := TermText(term) + rest, LineAfter(head, stmts);
    ReadMidway(path, head, stmts, words, tail);
    var lx := Midway(path, head, stmts, words);
    OnlyBeginAlone(words, term);
    TermStops(path, lx, term, m + Newlines(WriteWords(words)), rest);
  }

  lemma NothingWritten()
    ensures WriteWords([]) == "" && Newlines("") == 0
  {
  }

  lemma OnlyBeginAlone(words: seq<string>, term: Term)
    requires SegmentFault(words, term).Some?
    ensures words == [] ==> term.Begin?
  {
  }

  /** A text that ends inside a quoted word, or before a terminator, is reported on the line where the
      statement starts. */
  lemma UnterminatedReported(path: string, head: seq<string>, stmts: seq<Statement>, words: seq<string>, w: string)
    requires forall st <- stmts :: WellFormed(st)
    ensures Parse(path, head + Split(WriteAll(stmts) + (WriteWords(words) + ("\"" + QuoteBody(w))), '\n'), |head|)
         == Err(ParseError(path, LineAfter(head, stmts), UnterminatedQuote))
    ensures words != [] ==>
      Parse(path, head + Split(WriteAll(stmts) + (WriteWords(words) + ""), '\n'), |head|)
      == Err(ParseError(path, LineAfter(head, stmts), UnterminatedStatement))
  {
    NothingWritten();
    hide Reads, OverText, Midway, Parse, Newlines, LineAfter, WriteAll, WriteWords, QuoteBody;
    var k := LineAfter(head, stmts) + Newlines(WriteWords(words));
    var lx := Midway(path, head, stmts, words);
    ReadMidway(path, head, stmts, words, "\"" + QuoteBody(w));
    ReadMidway(path, head, stmts, words, "");
    var open := Started(lx, k).(tokQuoted := true, quote := Some('"'));
    ReadOpen(path, lx, w, k);
    ReadsGives(path, lx, "\"" + QuoteBody(w), k, open.(tok := w), "");
    assert "\"" + QuoteBody(w) + "" == "\"" + QuoteBody(w);
    EndsInside(path, open.(tok := w), k + Newlines("\"" + QuoteBody(w)));
    EndsBetween(path, lx, k);
  }

  lemma ReadOpen(path: string, lx: Lex, w: string, n: nat)
    requires Between(lx)
    ensures Reads(path, lx, "\"" + QuoteBody(w), n, Started(lx, n).(tok := w, tokQuoted := true, quote := Some('"')))
  {
    hide Reads;
    var open := Started(lx, n).(tokQuoted := true, quote := Some('"'));
    ReadChar(path, lx, '"', n);
    ReadQuoteBody(path, open, w, n + Newlines("\""));
    NoNewlines("\"");
    assert open.tok + w == w;
    Then(path, lx, "\"", n, open, QuoteBody(w), open.(tok := w));
  }

  lemma EndsInside(path: string, lx: Lex, n: nat)
    requires lx.quote.Some? && lx.segErr.None?
    ensures Finish(path, OverText(path, lx, "", n)) == Err(ParseError(path, lx.stmtLine, UnterminatedQuote))
  {
  }

  lemma EndsBetween(path: string, lx: Lex, n: nat)
    requires Between(lx)
    ensures OverText(path, lx, "", n) == lx
  {
  }

  // ----- a command written by hand -----

  /** A piece of a word: bare, in single quotes, or in double quotes. */
  datatype Fragment = Bareword(text: string) | Single(text: string) | Double(text: string)

  predicate Writable(g: Fragment) {
    match g
    case Bareword(text) => text != "" && Bare(text)
    case Single(text) => '\'' !in text
    case Double(text) => '"' !in text
  }

  function WriteFragment(g: Fragment): string {
    match g
    case Bareword(text) => text
    case Single(text) => "'" + text + "'"
    case Double(text) => "\"" + text + "\""
  }

  function WriteWord(word: seq<Fragment>): string {
    if word == [] then "" else WriteFragment(word[0]) + WriteWord(word[1..])
  }

  /** What the word means: its pieces side by side, quotes gone. */
  function WordOf(word: seq<Fragment>): string { if word == [] then "" else word[0].text + WordOf(word[1..]) }

  predicate Quoted(word: seq<Fragment>) { exists g <- word :: !g.Bareword? }

  predicate WritableWord(word: seq<Fragment>) {
    word != [] && (forall g <- word :: Writable(g)) && (Quoted(word) || WordOf(word) !in {"BEGIN", "END"})
  }

  lemma {:induction false} ReadVerbatim(path: string, lx: Lex, w: string, n: nat)
    requires lx.quote.Some? && lx.segErr.None? && lx.quote.value !in w
    ensures Reads(path, lx, w, n, lx.(tok := lx.tok + w))
    decreases w
  {
    hide Reads;
    if w == "" {
      assert lx.tok + w == lx.tok;
      ReadNothing(path, lx, n);
    } else {
      var next := lx.(tok := lx.tok + [w[0]]);
      if w[0] == '\n' { ReadNewline(path, lx, n); } else { ReadChar(path, lx, w[0], n); }
      ReadVerbatim(path, next, w[1..], n + Newlines([w[0]]));
      assert next.tok + w[1..] == lx.tok + w && [w[0]] + w[1..] == w;
      Then(path, lx, [w[0]], n, next, w[1..], lx.(tok := lx.tok + w));
    }
  }

  /** Inside an open token a piece adds its text. */
  lemma ReadFragment(path: string, lx: Lex, g: Fragment, n: nat)
    requires lx.quote.None? && lx.segErr.None? && lx.inTok && Writable(g)
    ensures Reads(path, lx, WriteFragment(g), n,
                  lx.(tok := lx.tok + g.text, tokQuoted := lx.tokQuoted || !g.Bareword?))
  {
    hide Reads, Bare;
    if g.Bareword? {
      ReadBareRest(path, lx, g.text, n);
    } else {
      var q := if g.Single? then '\'' else '"';
      var open := lx.(tokQuoted := true, quote := Some(q));
      var full := open.(tok := lx.tok + g.text);
      ReadChar(path, lx, q, n);
      NoNewlines([q]);
      ReadVerbatim(path, open, g.text, n);
      Then(path, lx, [q], n, open, g.text, full);
      ReadChar(path, full, q, n + Newlines([q] + g.text));
      Then(path, lx, [q] + g.text, n, full, [q], full.(quote := None));
      assert WriteFragment(g) == [q] + g.text + [q];
    }
  }

  lemma {:induction false} ReadFragments(path: string, lx: Lex, word: seq<Fragment>, n: nat)
    requires lx.quote.None? && lx.segErr.None? && lx.inTok && forall g <- word :: Writable(g)
    ensures Reads(path, lx, WriteWord(word), n,
                  lx.(tok := lx.tok + WordOf(word), tokQuoted := lx.tokQuoted || Quoted(word)))
    decreases word
  {
    hide Reads, Writable, WriteFragment, WriteWord, WordOf, Quoted, Newlines;
    if word == [] {
      NoFragments();
      assert lx.tok + "" == lx.tok;
      ReadNothing(path, lx, n);
    } else {
      WordCons(word);
      assert word[0] in word && forall g <- word[1..] :: g in word;
      var next := lx.(tok := lx.tok + word[0].text, tokQuoted := lx.tokQuoted || !word[0].Bareword?);
      var end := lx.(tok := lx.tok + WordOf(word), tokQuoted := lx.tokQuoted || Quoted(word));
      ReadFragment(path, lx, word[0], n);
      ReadFragments(path, next, word[1..], n + Newlines(WriteFragment(word[0])));
      assert next.tok + WordOf(word[1..]) == end.tok;
      Then(path, lx, WriteFragment(word[0]), n, next, WriteWord(word[1..]), end);
    }
  }

  lemma NoFragments()
    ensures WriteWord([]) == "" && WordOf([]) == "" && !Quoted([])
  {
  }

  lemma WordCons(word: seq<Fragment>)
    requires word != []
    ensures WriteWord(word) == WriteFragment(word[0]) + WriteWord(word[1..])
    ensures WordOf(word) == word[0].text + WordOf(word[1..])
    ensures Quoted(word) <==> !word[0].Bareword? || Quoted(word[1..])
  {
    assert word == [word[0]] + word[1..];
  }

  /** The first character of a word opens its token. */
  lemma OpensToken(path: string, lx: Lex, text: string, n: nat, next: Lex)
    requires Between(lx) && text != "" && text[0] !in " \t\n;#"
    requires Reads(path, Started(lx, n), text, n, next)
    ensures Reads(path, lx, text, n, next)
  {
    forall rest ensures OverText(path, lx, text + rest, n) == OverText(path, next, rest, n + Newlines(text)) {
      assert (text + rest)[0] == text[0];
      assert OverText(path, Started(lx, n), text + rest, n) == OverText(path, next, rest, n + Newlines(text));
    }
  }

  lemma WordStarts(word: seq<Fragment>)
    requires word != [] && Writable(word[0])
    ensures WriteWord(word) != "" && WriteWord(word)[0] !in " \t\n;#"
  {
  }

  /** A word between blanks becomes the open token. */
  lemma ReadWord(path: string, lx: Lex, word: seq<Fragment>, n: nat)
    requires Between(lx) && WritableWord(word)
    ensures Reads(path, lx, WriteWord(word), n, Started(lx, n).(tok := WordOf(word), tokQuoted := Quoted(word)))
  {
    assert word[0] in word;
    WordStarts(word);
    hide Reads, WriteWord, WordOf;
    ReadFragments(path, Started(lx, n), word, n);
    assert "" + WordOf(word) == WordOf(word);
    OpensToken(path, lx, WriteWord(word), n, Started(lx, n).(tok := WordOf(word), tokQuoted := Quoted(word)));
  }

  predicate Blank(s: string) { forall i :: 0 <= i < |s| ==> s[i] == ' ' || s[i] == '\t' }

  /** Blanks end the open token, if there is one, and are otherwise nothing. */
  lemma {:induction false} ReadBlanks(path: string, lx: Lex, s: string, n: nat)
    requires lx.quote.None? && Blank(s) && lx.segErr.None? && Flushed(path, lx).segErr.None?
    ensures Reads(path, lx, s, n, if s == "" then lx else Flushed(path, lx))
    ensures Newlines(s) == 0
    decreases s
  {
    hide Reads;
    if s == "" {
      ReadNothing(path, lx, n);
    } else {
      var next := Flushed(path, lx);
      FlushedOnce(path, lx);
      ReadChar(path, lx, s[0], n);
      NoNewlines([s[0]]);
      ReadBlanks(path, next, s[1..], n);
      assert [s[0]] + s[1..] == s;
      Then(path, lx, [s[0]], n, next, s[1..], next);
    }
  }

  lemma FlushedOnce(path: string, lx: Lex)
    requires lx.quote.None?
    ensures Flushed(path, Flushed(path, lx)) == Flushed(path, lx) && Flushed(path, lx).quote.None?
  {
  }

  /** Words with the blanks after them; only the last may have none. */
  datatype Spaced = Spaced(word: seq<Fragment>, blanks: string)

  predicate WritableLine(line: seq<Spaced>) {
    forall i :: 0 <= i < |line| ==>
      WritableWord(line[i].word) && Blank(line[i].blanks) && (i < |line| - 1 ==> line[i].blanks != "")
  }

  function WriteLine(line: seq<Spaced>): string {
    if line == [] then "" else WriteWord(line[0].word) + (line[0].blanks + WriteLine(line[1..]))
  }

  function LineWords(line: seq<Spaced>): seq<string> {
    if line == [] then [] else [WordOf(line[0].word)] + LineWords(line[1..])
  }

  /** Reading the line leaves its words as arguments, the last one perhaps still in the open token. */
  lemma {:induction false} ReadLine(path: string, lx: Lex, line: seq<Spaced>, n: nat) returns (next: Lex)
    requires Between(lx) && WritableLine(line)
    ensures Reads(path, lx, WriteLine(line), n, next)
    ensures next.quote.None? && Flushed(path, next) == WithWords(lx, LineWords(line), n)
    decreases line
  {
    hide Reads, WritableWord, WriteWord, WordOf, Quoted;
    if line == [] {
      assert lx.argv + [] == lx.argv;
      ReadNothing(path, lx, n);
      return lx;
    }
    var w, blanks := line[0].word, line[0].blanks;
    var open := Started(lx, n).(tok := WordOf(w), tokQuoted := Quoted(w));
    var done := WithWord(lx, WordOf(w), n);
    var m := n + Newlines(WriteWord(w));
    ReadWord(path, lx, w, n);
    FlushesWord(path, lx, w, n);
    ReadBlanks(path, open, blanks, m);
    if blanks == "" {
      assert line[1..] == [] && LineWords(line) == [WordOf(w)] + [];
      assert WriteLine(line) == WriteWord(w) + ("" + "") == WriteWord(w);
      return open;
    }
    next := ReadLine(path, done, line[1..], m);
    Then(path, open, blanks, m, done, WriteLine(line[1..]), next);
    Then(path, lx, WriteWord(w), n, open, blanks + WriteLine(line[1..]), next);
    assert done.argv + LineWords(line[1..]) == lx.argv + LineWords(line);
  }

  lemma FlushesWord(path: string, lx: Lex, word: seq<Fragment>, n: nat)
    requires Between(lx) && WritableWord(word)
    ensures Flushed(path, Started(lx, n).(tok := WordOf(word), tokQuoted := Quoted(word)))
         == WithWord(lx, WordOf(word), n)
  {
    hide WordOf, Quoted;
  }

  /** A comment, up to its newline, is nothing. */
  lemma ReadComment(path: string, lx: Lex, text: string, n: nat)
    requires Between(lx) && '\n' !in text
    ensures Reads(path, lx, "#" + text + "\n", n, lx)
    ensures Newlines("#" + text + "\n") == 1
  {
    NoNewlines("#" + text);
    NewlinesConcat("#" + text, "\n");
    assert "\n"[1..] == "";
    forall rest ensures OverText(path, lx, "#" + text + "\n" + rest, n) == OverText(path, lx, rest, n + 1) {
      var s := "#" + text + "\n" + rest;
      assert s[1..] == text + ("\n" + rest);
      SkipsComment(text, "\n" + rest);
      assert ("\n" + rest)[1..] == rest;
    }
  }

  lemma {:induction false} SkipsComment(text: string, rest: string)
    requires '\n' !in text && rest != "" && rest[0] == '\n'
    ensures SkipComment(text + rest) == rest
  {
    if text == "" {
      assert text + rest == rest;
    } else {
      assert (text + rest)[1..] == text[1..] + rest;
      SkipsComment(text[1..], rest);
    }
  }

  function CommandLine(indent: string, line: seq<Spaced>, comment: string): string {
    indent + (WriteLine(line) + (";" + ("#" + comment + "\n")))
  }

  /** A command as people write it: indented, its words bare or quoted piece by piece, spaced by blanks,
      ended by a semicolon, and with a comment behind. */
  lemma ReadCommandLine(path: string, lx: Lex, indent: string, line: seq<Spaced>, comment: string, st: Statement,
                        n: nat)
    requires Fresh(lx) && Blank(indent) && WritableLine(line) && '\n' !in comment
    requires WellFormed(st) && st.control.Command? && CommandWords(st) == LineWords(line)
    ensures Reads(path, lx, CommandLine(indent, line, comment), n, AfterStatement(path, lx, st, n))
  {
    hide Reads, Newlines, WellFormed, CommandWords, WritableLine, WriteLine, LineWords, Blank;
    var done := AfterStatement(path, lx, st, n);
    ReadBlanks(path, lx, indent, n);
    var next := ReadLine(path, lx, line, n);
    var m := n + Newlines(WriteLine(line));
    EmitsCommand(path, lx, LineWords(line), st, n);
    ReadChar(path, next, ';', m);
    ReadComment(path, done, comment, m + Newlines(";"));
    Then(path, next, ";", m, done, "#" + comment + "\n", done);
    Then(path, lx, WriteLine(line), n, next, ";" + ("#" + comment + "\n"), done);
    Then(path, lx, indent, n, lx, WriteLine(line) + (";" + ("#" + comment + "\n")), done);
  }

  /** Below any header such a line parses to its command. */
  lemma CommandLineParses(path: string, head: seq<string>, indent: string, line: seq<Spaced>, comment: string,
                          st: Statement)
    requires Blank(indent) && WritableLine(line) && '\n' !in comment
    requires WellFormed(st) && st.control.Command? && CommandWords(st) == LineWords(line)
    ensures Parse(path, head + Split(CommandLine(indent, line, comment), '\n'), |head|)
         == Ok([st.(line := |head| + 1, src := path)])
  {
    hide WellFormed, CommandWords, WritableLine, LineWords, Blank, CommandLine;
    ReadCommandLine(path, INITIAL, indent, line, comment, st, |head| + 1);
    ParsesToOne(path, head, CommandLine(indent, line, comment), st);
  }

  lemma ParsesToOne(path: string, head: seq<string>, text: string, st: Statement)
    requires st.control.Command?
    requires Reads(path, INITIAL, text, |head| + 1, AfterStatement(path, INITIAL, st, |head| + 1))
    ensures Parse(path, head + Split(text, '\n'), |head|) == Ok([st.(line := |head| + 1, src := path)])
  {
    hide Reads, OverText, Parse;
    var n := |head| + 1;
    var done := AfterStatement(path, INITIAL, st, n);
    ParseIsOverText(path, head, text);
    ReadsGives(path, INITIAL, text, n, done, "");
    assert text + "" == text && [] + [st.(line := n, src := path)] == [st.(line := n, src := path)];
    EndsBetween(path, done, n + Newlines(text));
    SingleCommand(path, st.(line := n, src := path));
  }

  lemma EmitsCommand(path: string, lx: Lex, words: seq<string>, st: Statement, n: nat)
    requires Fresh(lx) && WellFormed(st) && st.control.Command? && CommandWords(st) == words
    ensures Emitted(path, WithWords(lx, words, n), Semi) == AfterStatement(path, lx, st, n)
  {
    if st.capture != "" {
      assert words[2..] == st.argv;
      assert CaptureShape(words);
    }
    assert lx.argv + words == words;
  }

  lemma SingleCommand(path: string, st: Statement)
    requires st.control.Command?
    ensures ControlFlow.Check(path, [st]).None?
  {
    assert [st][1..] == [] && ControlFlow.Scan(path, [st], []) == ControlFlow.Scan(path, [], []);
  }

  /** `name := command "argument";` */
  function CaptureLine(name: string, command: string, argument: string): string {
    name + " " + (":=" + " " + (command + " " + (Quote(argument) + ";")))
  }

  lemma ReadArgument(path: string, lx: Lex, word: string, argument: string, n: nat)
    requires Between(lx) && |lx.argv| == 2 && CaptureShape(lx.argv + [word]) && lx.stmtLine == n
    requires lx.argv[0] !in {"IF", "ELSE"} && Bare(word) && word !in {"", "BEGIN", "END"}
    ensures Reads(path, lx, word + " " + (Quote(argument) + ";"), n,
                  lx.(argv := [], out := lx.out + [Statement(n, [word, argument], lx.argv[0], path, Command, [])]))
  {
    hide Reads, Bare;
    var full := WithWord(lx, word, n);
    var open := full.(inTok := true, tok := argument, tokQuoted := true);
    var done := lx.(argv := [], out := lx.out + [Statement(n, [word, argument], lx.argv[0], path, Command, [])]);
    ReadBareWord(path, lx, word, n);
    ReadQuoted(path, full, argument, n);
    assert CaptureShape(full.argv + [argument]) && (full.argv + [argument])[2..] == [word, argument];
    ReadChar(path, open, ';', n + Newlines(Quote(argument)));
    Then(path, full, Quote(argument), n, open, ";", done);
    Then(path, lx, word + " ", n, full, Quote(argument) + ";", done);
  }

  lemma ReadCaptureLine(path: string, lx: Lex, name: string, command: string, argument: string, n: nat)
    requires Fresh(lx) && IsVarName(name) && name !in {"IF", "ELSE", "BEGIN", "END"}
    requires Bare(command) && command !in {"", "BEGIN", "END"}
    ensures Reads(path, lx, CaptureLine(name, command, argument), n,
                  AfterStatement(path, lx, Statement(n, [command, argument], name, path, Command, []), n))
  {
    MarkersBare();
    BareName(name);
    hide Reads, Bare;
    var l1 := lx.(argv := [name], stmtLine := n);
    var l2 := l1.(argv := [name, ":="]);
    var done := AfterStatement(path, lx, Statement(n, [command, argument], name, path, Command, []), n);
    assert lx.argv + [name] == [name] && [name] + [":="] == [name, ":="];
    ReadBareWord(path, lx, name, n);
    ReadBareWord(path, l1, ":=", n);
    ReadArgument(path, l2, command, argument, n);
    Then(path, l1, ":=" + " ", n, l2, command + " " + (Quote(argument) + ";"), done);
    Then(path, lx, name + " ", n, l1, ":=" + " " + (command + " " + (Quote(argument) + ";")), done);
  }

  lemma BareName(name: string)
    requires IsVarName(name)
    ensures Bare(name)
  {
    forall i | 0 <= i < |name| ensures name[i] !in " \t\n;#\"'" { assert IsVarChar(name[i]); }
  }

  /** A captured command on a line of its own parses to itself. */
  lemma CaptureLineParses(path: string, name: string, command: string, argument: string)
    requires IsVarName(name) && name !in {"IF", "ELSE", "BEGIN", "END"}
    requires Bare(command) && command !in {"", "BEGIN", "END"}
    ensures Parse(path, Split(CaptureLine(name, command, argument), '\n'), 0)
         == Ok([Statement(1, [command, argument], name, path, Command, [])])
  {
    hide Reads, Parse, CaptureLine;
    ReadCaptureLine(path, INITIAL, name, command, argument, 1);
    var text := CaptureLine(name, command, argument);
    ParsesToOne(path, [], text, Statement(1, [command, argument], name, path, Command, []));
    assert [] + Split(text, '\n') == Split(text, '\n');
  }

  // ----- the parser's range -----

  /** Equal but for the recorded position. */
  predicate SameText(a: Statement, b: Statement) {
    a.argv == b.argv && a.capture == b.capture && a.control == b.control && a.cond == b.cond
  }

  predicate SameTexts(a: seq<Statement>, b: seq<Statement>) {
    |a| == |b| && forall i :: 0 <= i < |a| ==> SameText(a[i], b[i])
  }

  lemma SameForm(a: Statement, b: Statement)
    requires SameText(a, b) && WellFormed(a)
    ensures WellFormed(b)
  {
  }

  lemma {:induction false} PlacedSameTexts(path: string, stmts: seq<Statement>, n: nat)
    ensures SameTexts(Placed(path, stmts, n), stmts)
    decreases stmts
  {
    if stmts != [] { PlacedSameTexts(path, stmts[1..], n + Newlines(Write(stmts[0]))); }
  }

  /** `stmts` is what some body of file `path` means, positions aside. */
  ghost predicate Expressible(path: string, stmts: seq<Statement>) {
    exists lines: seq<string> ::
      Parse(path, lines, 0).Ok? && SameTexts(Parse(path, lines, 0).value, stmts)
  }

  lemma {:induction false} SameTextsScan(a: seq<Statement>, b: seq<Statement>,
                                         s: seq<ControlFlow.Frame>, t: seq<ControlFlow.Frame>)
    requires SameTexts(a, b)
    requires |s| == |t| && forall i :: 0 <= i < |s| ==> s[i].sawElse == t[i].sawElse
    ensures var x, y := ControlFlow.Scan("", a, s), ControlFlow.Scan("", b, t);
      x.Ok? == y.Ok? && (x.Ok? ==> |x.value| == |y.value|)
    decreases a
  {
    if a != [] {
      assert SameText(a[0], b[0]);
      var x, y := ControlFlow.ScanOne("", a[0], s), ControlFlow.ScanOne("", b[0], t);
      if x.Ok? { SameTextsScan(a[1..], b[1..], x.value, y.value); }
    }
  }

  /** The parser's range: a list can be written exactly when it is well formed and well nested. */
  lemma ParserRange(path: string, stmts: seq<Statement>)
    ensures Expressible(path, stmts) <==> (forall st <- stmts :: WellFormed(st)) && ControlFlow.WellNested(stmts)
  {
    hide Parse, WellFormed, WriteAll;
    if (forall st <- stmts :: WellFormed(st)) && ControlFlow.WellNested(stmts) {
      ReadBack(path, [], stmts);
      assert [] + Split(WriteAll(stmts), '\n') == Split(WriteAll(stmts), '\n');
      PlacedSameTexts(path, stmts, 1);
    }
    if Expressible(path, stmts) {
      var lines :| Parse(path, lines, 0).Ok? && SameTexts(Parse(path, lines, 0).value, stmts);
      var read := Parse(path, lines, 0).value;
      ParsedIsWellFormed(path, lines, 0);
      forall i | 0 <= i < |stmts| ensures WellFormed(stmts[i]) {
        assert read[i] in read && SameText(read[i], stmts[i]);
        SameForm(read[i], stmts[i]);
      }
      ControlFlow.AcceptsIffWellNested("", read);
      SameTextsScan(read, stmts, [], []);
      ControlFlow.AcceptsIffWellNested("", stmts);
    }
  }
}
