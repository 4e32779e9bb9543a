/** The hand-written tokenizer of recipe bodies: the functions say what one character, one line and
    a whole body do to the tokenizer's state; the class runs them the way the source does. */
module RecipeLexer {
  import opened Text
  import opened RecipeSyntax
  import ControlFlow = RecipeControlFlow

  /** How a run of tokens is terminated. */
  datatype Term = Semi | Begin | EndWord

  /** `name := command args` with an identifier as name. */
  predicate CaptureShape(argv: seq<string>) {
    |argv| >= 3 && argv[1] == ":=" && IsVarName(argv[0])
  }

  function NormalStatement(path: string, line: nat, argv: seq<string>): Result<Statement, ParseError>
    requires argv != []
  {
    if argv[0] == "IF" || argv[0] == "ELSE" then Err(ParseError(path, line, HeaderWithoutBegin(argv[0])))
    else if CaptureShape(argv) then Ok(Statement(line, argv[2..], argv[0], path, Command, []))
    else Ok(Statement(line, argv, "", path, Command, []))
  }

  function HeaderStatement(path: string, line: nat, argv: seq<string>): Result<Statement, ParseError> {
    if argv == [] then Err(ParseError(path, line, BeginWithoutHeader))
    else if argv[0] == "IF" then
      if |argv| < 2 then Err(ParseError(path, line, IfWithoutCondition))
      else Ok(Statement(line, [], "", path, If, argv[1..]))
    else if argv[0] == "ELSE" then
      if |argv| == 1 then Ok(Statement(line, [], "", path, Else, []))
      else if argv[1] == "IF" then
        if |argv| < 3 then Err(ParseError(path, line, ElseIfWithoutCondition))
        else Ok(Statement(line, [], "", path, ElseIf, argv[2..]))
      else Err(ParseError(path, line, UnexpectedAfterElse(argv[1])))
    else Err(ParseError(path, line, UnexpectedBeforeBegin(argv[0])))
  }

  // ----- the tokenizer's state and steps -----

  datatype Lex = Lex(
    out: seq<Statement>, argv: seq<string>, tok: string, inTok: bool, tokQuoted: bool,
    quote: Option<char>, stmtLine: nat, segErr: Option<ParseError>)

  const INITIAL := Lex([], [], "", false, false, None, 0, None)

  /** The statement, if any, that a terminator produces. */
  function Segment(path: string, lx: Lex, term: Term): Result<seq<Statement>, ParseError> {
    match term
    case Begin =>
      (match HeaderStatement(path, lx.stmtLine, lx.argv)
       case Err(e) => Err(e)
       case Ok(st) => Ok([st]))
    case EndWord =>
      if lx.argv != [] then Err(ParseError(path, lx.stmtLine, UnexpectedBeforeEnd(lx.argv)))
      else Ok([Statement(lx.stmtLine, [], "", path, End, [])])
    case Semi =>
      if lx.argv == [] then Ok([])
      else
        match NormalStatement(path, lx.stmtLine, lx.argv)
        case Err(e) => Err(e)
        case Ok(st) => Ok([st])
  }

  function Emitted(path: string, lx: Lex, term: Term): Lex {
    if lx.segErr.Some? then lx
    else
      match Segment(path, lx, term)
      case Err(e) => lx.(segErr := Some(e), argv := [])
      case Ok(sts) => lx.(out := lx.out + sts, argv := [])
  }

  /** Completes the current token; an unquoted BEGIN or END ends the statement instead. */
  function Flushed(path: string, lx: Lex): Lex {
    if !lx.inTok then lx
    else
      var clear := lx.(tok := "", inTok := false, tokQuoted := false);
      if !lx.tokQuoted && lx.tok == "BEGIN" then Emitted(path, clear, Begin)
      else if !lx.tokQuoted && lx.tok == "END" then Emitted(path, clear, EndWord)
      else clear.(argv := lx.argv + [lx.tok])
  }

  function Started(lx: Lex, lineNo: nat): Lex {
    if lx.inTok then lx
    else lx.(inTok := true, stmtLine := if lx.argv == [] then lineNo else lx.stmtLine)
  }

  /** One character that is not a comment. */
  function Stepped(path: string, lx: Lex, ch: char, lineNo: nat): Lex {
    if lx.quote.Some? then
      if lx.quote == Some(ch) then lx.(quote := None) else lx.(tok := lx.tok + [ch])
    else if ch == ' ' || ch == '\t' then Flushed(path, lx)
    else if ch == ';' then Emitted(path, Flushed(path, lx), Semi)
    else if ch == '"' || ch == '\'' then Started(lx, lineNo).(tokQuoted := true, quote := Some(ch))
    else Started(lx, lineNo).(tok := lx.tok + [ch])
  }

  /** A line ends: a quoted string goes on over the newline, anything else is a finished token. */
  function EndOfLine(path: string, lx: Lex): Lex {
    if lx.quote.Some? then lx.(tok := lx.tok + "\n") else Flushed(path, lx)
  }

  function Line(path: string, lx: Lex, line: string, lineNo: nat): Lex
    decreases line
  {
    if line == "" || (lx.quote.None? && line[0] == '#') then EndOfLine(path, lx)
    else
      var next := Stepped(path, lx, line[0], lineNo);
      if next.segErr.Some? then next else Line(path, next, line[1..], lineNo)
  }

  function Lines(path: string, lx: Lex, lines: seq<string>, lineNo: nat): Lex
    decreases lines
  {
    if lines == [] then lx
    else
      var next := Line(path, lx, lines[0], lineNo);
      if next.segErr.Some? then next else Lines(path, next, lines[1..], lineNo + 1)
  }

  function Finish(path: string, lx: Lex): Result<seq<Statement>, ParseError> {
    if lx.segErr.Some? then Err(lx.segErr.value)
    else if lx.quote.Some? then Err(ParseError(path, lx.stmtLine, UnterminatedQuote))
    else
      var last := Flushed(path, lx);
      if last.segErr.Some? then Err(last.segErr.value)
      else if last.argv != [] then Err(ParseError(path, last.stmtLine, UnterminatedStatement))
      else
        match ControlFlow.Check(path, last.out)
        case Some(e) => Err(e)
        case None => Ok(last.out)
  }

  /** The statements of `lines[start..]`. */
  function Parse(path: string, lines: seq<string>, start: nat): Result<seq<Statement>, ParseError> {
    Finish(path, Lines(path, INITIAL, if start <= |lines| then lines[start..] else [], start + 1))
  }

  // ----- the tokenizer as the source runs it -----

  class Tokenizer {
    const path: string
    var out: seq<Statement>
    var argv: seq<string>
    var tok: string
    var inTok: bool
    var tokQuoted: bool
    var quote: Option<char>
    var stmtLine: nat
    var segErr: Option<ParseError>

    ghost function State(): Lex
      reads this
    {
      Lex(out, argv, tok, inTok, tokQuoted, quote, stmtLine, segErr)
    }

    constructor (path: string)
      ensures this.path == path && State() == INITIAL
    {
      this.path := path;
      out, argv, tok, inTok, tokQuoted := [], [], "", false, false;
      quote, stmtLine, segErr := None, 0, None;
    }

    method Emit(term: Term)
      modifies this
      ensures State() == Emitted(path, old(State()), term)
    {
      if segErr.Some? { return; }
      match term {
        case Begin =>
          match HeaderStatement(path, stmtLine, argv) {
            case Err(e) => segErr := Some(e);
            case Ok(st) => out := out + [st];
          }
        case EndWord =>
          if |argv| > 0 {
            segErr := Some(ParseError(path, stmtLine, UnexpectedBeforeEnd(argv)));
          } else {
            out := out + [Statement(stmtLine, [], "", path, End, [])];
          }
        case Semi =>
          if |argv| > 0 {
            match NormalStatement(path, stmtLine, argv) {
              case Err(e) => segErr := Some(e);
              case Ok(st) => out := out + [st];
            }
          }
      }
      argv := [];
    }

    method FlushTok()
      modifies this
      ensures State() == Flushed(path, old(State()))
    {
      if !inTok { return; }
      var t, wasQuoted := tok, tokQuoted;
      tok, inTok, tokQuoted := "", false, false;
      if !wasQuoted {
        if t == "BEGIN" { Emit(Begin); return; }
        if t == "END" { Emit(EndWord); return; }
      }
      argv := argv + [t];
    }

    method StartTok(lineNo: nat)
      modifies this
      ensures State() == Started(old(State()), lineNo)
    {
      if !inTok {
        inTok := true;
        if |argv| == 0 { stmtLine := lineNo; }
      }
    }

    /** One turn of the inner loop, for a character that does not start a comment. */
    method Char(ch: char, lineNo: nat)
      requires quote.Some? || ch != '#'
      modifies this
      ensures State() == Stepped(path, old(State()), ch, lineNo)
    {
      if quote.Some? {
        if quote == Some(ch) { quote := None; } else { tok := tok + [ch]; }
      } else if ch == ' ' || ch == '\t' {
        FlushTok();
      } else if ch == ';' {
        FlushTok();
        Emit(Semi);
      } else if ch == '"' || ch == '\'' {
        StartTok(lineNo);
        tokQuoted, quote := true, Some(ch);
      } else {
        StartTok(lineNo);
        tok := tok + [ch];
      }
    }
  }

  method ParseStatements(path: string, lines: seq<string>, start: nat) returns (r: Result<seq<Statement>, ParseError>)
    ensures r == Parse(path, lines, start)
  {
    hide Stepped, Flushed;
    var tz := new Tokenizer(path);
    var li := start;
    ghost var goal := Lines(path, INITIAL, if start <= |lines| then lines[start..] else [], start + 1);
    while li < |lines|
      invariant start <= li && (start <= |lines| ==> li <= |lines|)
      invariant tz.path == path && tz.segErr.None?
      invariant goal == Lines(path, tz.State(), if li <= |lines| then lines[li..] else [], li + 1)
    {
      var line := lines[li];
      var j := 0;
      ghost var afterLine := Line(path, tz.State(), line, li + 1);
      assert lines[li..][1..] == lines[li + 1..];
      while j < |line|
        invariant 0 <= j <= |line|
        invariant tz.path == path && tz.segErr.None?
        invariant afterLine == Line(path, tz.State(), line[j..], li + 1)
      {
        assert line[j..][1..] == line[j + 1..];
        if tz.quote.None? && line[j] == '#' { break; }
        tz.Char(line[j], li + 1);
        if tz.segErr.Some? {
          assert afterLine == tz.State();
          return Err(tz.segErr.value);
        }
        j := j + 1;
      }
      assert afterLine == EndOfLine(path, tz.State());
      if tz.quote.Some? { tz.tok := tz.tok + "\n"; } else { tz.FlushTok(); }
      assert afterLine == tz.State();
      if tz.segErr.Some? { return Err(tz.segErr.value); }
      li := li + 1;
    }
    assert goal == tz.State();
    if tz.quote.Some? { return Err(ParseError(path, tz.stmtLine, UnterminatedQuote)); }
    tz.FlushTok();
    if tz.segErr.Some? { return Err(tz.segErr.value); }
    if |tz.argv| > 0 { return Err(ParseError(path, tz.stmtLine, UnterminatedStatement)); }
    var bad := ControlFlow.ValidateControlFlow(path, tz.out);
    if bad.Some? { return Err(bad.value); }
    return Ok(tz.out);
  }

  // ----- what the parser can produce -----

  /** The shape of a statement the language can express. */
  predicate WellFormed(st: Statement) {
    match st.control
    case Command =>
      st.cond == [] && st.argv != [] &&
      (if st.capture == "" then st.argv[0] != "IF" && st.argv[0] != "ELSE" && !CaptureShape(st.argv)
       else IsVarName(st.capture) && st.capture != "IF" && st.capture != "ELSE")
    case If | ElseIf => st.argv == [] && st.capture == "" && st.cond != []
    case Else | End => st.argv == [] && st.capture == "" && st.cond == []
  }

  predicate AllWellFormed(path: string, stmts: seq<Statement>) {
    forall st <- stmts :: WellFormed(st) && st.src == path
  }

  lemma SegmentForm(path: string, lx: Lex, term: Term)
    ensures var r := Segment(path, lx, term); r.Ok? ==> AllWellFormed(path, r.value)
  {
  }

  lemma EmittedKeepsForm(path: string, lx: Lex, term: Term)
    requires AllWellFormed(path, lx.out)
    ensures AllWellFormed(path, Emitted(path, lx, term).out)
  {
    SegmentForm(path, lx, term);
  }

  lemma FlushedKeepsForm(path: string, lx: Lex)
    requires AllWellFormed(path, lx.out)
    ensures AllWellFormed(path, Flushed(path, lx).out)
  {
    var clear := lx.(tok := "", inTok := false, tokQuoted := false);
    EmittedKeepsForm(path, clear, Begin);
    EmittedKeepsForm(path, clear, EndWord);
  }

  lemma SteppedKeepsForm(path: string, lx: Lex, ch: char, lineNo: nat)
    requires AllWellFormed(path, lx.out)
    ensures AllWellFormed(path, Stepped(path, lx, ch, lineNo).out)
  {
    FlushedKeepsForm(path, lx);
    EmittedKeepsForm(path, Flushed(path, lx), Semi);
  }

  lemma {:induction false} LinesKeepForm(path: string, lx: Lex, lines: seq<string>, lineNo: nat)
    requires AllWellFormed(path, lx.out)
    ensures AllWellFormed(path, Lines(path, lx, lines, lineNo).out)
    decreases lines
  {
    if lines != [] {
      LineKeepsForm(path, lx, lines[0], lineNo);
      LinesKeepForm(path, Line(path, lx, lines[0], lineNo), lines[1..], lineNo + 1);
    }
  }

  lemma {:induction false} LineKeepsForm(path: string, lx: Lex, line: string, lineNo: nat)
    requires AllWellFormed(path, lx.out)
    ensures AllWellFormed(path, Line(path, lx, line, lineNo).out)
    decreases line
  {
    FlushedKeepsForm(path, lx);
    if line != "" {
      SteppedKeepsForm(path, lx, line[0], lineNo);
      LineKeepsForm(path, Stepped(path, lx, line[0], lineNo), line[1..], lineNo);
    }
  }

  /** Every accepted body yields well-formed, well-nested statements of its own file. */
  lemma ParsedIsWellFormed(path: string, lines: seq<string>, start: nat)
    ensures var r := Parse(path, lines, start);
      r.Ok? ==> AllWellFormed(path, r.value) && ControlFlow.WellNested(r.value)
  {
    var body := if start <= |lines| then lines[start..] else [];
    LinesKeepForm(path, INITIAL, body, start + 1);
    FlushedKeepsForm(path, Lines(path, INITIAL, body, start + 1));
    var r := Parse(path, lines, start);
    if r.Ok? { ControlFlow.AcceptsIffWellNested(path, r.value); }
  }
}
