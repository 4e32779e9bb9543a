/** `include` resolution: replacing every include statement by the statements of its file.  When it
    succeeds, what it returns, and that running the result is running the included recipes in place. */
module RecipeInclude {
  import opened Text
  import opened RecipeSyntax
  import opened RecipeControlFlow
  import Lexer = RecipeLexer
  import Quoting = RecipeQuoting
  import Runtime = RecipeRuntime
  import Meaning = RecipeMeaning

  /** A file as far as resolution looks at it: its lines, where the body starts, the error of its
      pragma or `requires:` block if there is one, and whether it has a `requires:` block. */
  datatype File = File(lines: seq<string>, bodyStart: nat, headerError: Option<ParseError>, hasRequires: bool)

  /** The readable files by canonical path, and how a path in an include resolves from a file. */
  datatype FileSystem = FileSystem(files: map<string, File>, locate: (string, string) -> string)

  datatype IncludeError =
    | Arity(src: string, line: nat)
    | Cycle(src: string, line: nat, path: string)
    | Unreadable(src: string, line: nat, path: string)
    | BadFile(error: ParseError)
    | HasRequires(path: string, src: string, line: nat)

  predicate IsInclude(st: Statement) { st.argv != [] && st.argv[0] == "include" }

  function ParseFile(path: string, f: File): Result<seq<Statement>, ParseError> {
    if f.headerError.Some? then Err(f.headerError.value) else Lexer.Parse(path, f.lines, f.bodyStart)
  }

  /** Finds and parses the file that an include statement of file `from` names. */
  function Load(fs: FileSystem, st: Statement, from: string, chain: set<string>)
    : (r: Result<(string, seq<Statement>), IncludeError>)
    requires IsInclude(st)
    ensures r.Ok? ==> r.value.0 in fs.files.Keys - chain
  {
    if |st.argv| != 2 then Err(Arity(st.src, st.line))
    else
      var path := fs.locate(from, st.argv[1]);
      if path in chain then Err(Cycle(st.src, st.line, path))
      else if path !in fs.files then Err(Unreadable(st.src, st.line, path))
      else
        match ParseFile(path, fs.files[path])
        case Err(e) => Err(BadFile(e))
        case Ok(stmts) =>
          if fs.files[path].hasRequires then Err(HasRequires(path, st.src, st.line)) else Ok((path, stmts))
  }

  /** The statements of file `from`, includes replaced; `chain` is the include stack.  It terminates
      because every nested call puts one more readable file on the chain. */
  function Resolve(fs: FileSystem, stmts: seq<Statement>, from: string, chain: set<string>)
    : Result<seq<Statement>, IncludeError>
    decreases fs.files.Keys - chain, |stmts|
  {
    if stmts == [] then Ok([])
    else
      match (if IsInclude(stmts[0]) then Expansion(fs, stmts[0], from, chain, |stmts|) else Ok([stmts[0]]))
      case Err(e) => Err(e)
      case Ok(first) => PrependTo(first, Resolve(fs, stmts[1..], from, chain))
  }

  /** What one include statement becomes. */
  function Expansion(fs: FileSystem, st: Statement, from: string, chain: set<string>, ghost bound: nat)
    : Result<seq<Statement>, IncludeError>
    requires IsInclude(st) && bound > 0
    decreases fs.files.Keys - chain, bound - 1
  {
    match Load(fs, st, from, chain)
    case Err(e) => Err(e)
    case Ok((path, stmts)) =>
      assert fs.files.Keys - (chain + {path}) < fs.files.Keys - chain by {
        assert path in fs.files.Keys - chain && path !in fs.files.Keys - (chain + {path});
      }
      Resolve(fs, stmts, path, chain + {path})
  }

  // ----- as the source runs it: the chain is shared and must be restored -----

  class Chain {
    var paths: set<string>

    constructor (top: string)
      ensures paths == {top}
    {
      paths := {top};
    }
  }

  method ResolveIncludes(fs: FileSystem, stmts: seq<Statement>, from: string, chain: Chain)
      returns (r: Result<seq<Statement>, IncludeError>)
    modifies chain
    ensures r == Resolve(fs, stmts, from, old(chain.paths))
    ensures chain.paths == old(chain.paths)
    decreases fs.files.Keys - chain.paths
  {
    var out: seq<Statement> := [];
    ghost var start := chain.paths;
    ghost var goal := Resolve(fs, stmts, from, start);
    assert stmts[0..] == stmts;
    assert goal.Ok? ==> [] + goal.value == goal.value;
    for i := 0 to |stmts|
      invariant chain.paths == start
      invariant goal == PrependTo(out, Resolve(fs, stmts[i..], from, start))
    {
      var st := stmts[i];
      assert stmts[i..][1..] == stmts[i + 1..];
      ghost var rest := Resolve(fs, stmts[i + 1..], from, start);
      if !IsInclude(st) {
        PrependStep(out, [st], rest);
        out := out + [st];
      } else {
        var loaded := Load(fs, st, from, chain.paths);
        if loaded.Err? { return Err(loaded.error); }
        var (path, inner) := loaded.value;
        chain.paths := chain.paths + {path};
        assert path in fs.files.Keys - start && path !in fs.files.Keys - chain.paths;
        var sub := ResolveIncludes(fs, inner, path, chain);
        chain.paths := chain.paths - {path};
        assert chain.paths == start;
        if sub.Err? { return Err(sub.error); }
        PrependStep(out, sub.value, rest);
        out := out + sub.value;
      }
    }
    assert stmts[|stmts|..] == [] && out + [] == out;
    return Ok(out);
  }

  function PrependTo(out: seq<Statement>, r: Result<seq<Statement>, IncludeError>)
    : Result<seq<Statement>, IncludeError>
  {
    match r
    case Err(e) => Err(e)
    case Ok(rest) => Ok(out + rest)
  }

  lemma PrependStep(out: seq<Statement>, first: seq<Statement>, rest: Result<seq<Statement>, IncludeError>)
    ensures PrependTo(out, PrependTo(first, rest)) == PrependTo(out + first, rest)
  {
    if rest.Ok? { Assoc(out, first, rest.value); }
  }

  // ----- when resolution succeeds -----

  predicate ArityOk(stmts: seq<Statement>) { forall st <- stmts :: IsInclude(st) ==> |st.argv| == 2 }

  /** The file can be included: it is readable, parses, has no `requires:` and well-formed includes. */
  predicate Loadable(fs: FileSystem, path: string) {
    path in fs.files && ParseFile(path, fs.files[path]).Ok? && !fs.files[path].hasRequires &&
    ArityOk(ParseFile(path, fs.files[path]).value)
  }

  function Body(fs: FileSystem, path: string): seq<Statement>
    requires Loadable(fs, path)
  {
    ParseFile(path, fs.files[path]).value
  }

  /** Some include statement among `stmts`, in file `from`, names `path`. */
  ghost predicate Names(fs: FileSystem, stmts: seq<Statement>, from: string, path: string) {
    exists st <- stmts :: IsInclude(st) && |st.argv| == 2 && fs.locate(from, st.argv[1]) == path
  }

  /** `w` follows includes: the first file is named by `stmts`, each later one by the file before. */
  ghost predicate IsWalk(fs: FileSystem, stmts: seq<Statement>, from: string, w: seq<string>)
    decreases w
  {
    w != [] && Names(fs, stmts, from, w[0]) &&
    (|w| > 1 ==> Loadable(fs, w[0]) && IsWalk(fs, Body(fs, w[0]), w[0], w[1..]))
  }

  /** Nothing on the walk is unloadable, already on the chain, or met twice. */
  ghost predicate Clean(fs: FileSystem, chain: set<string>, w: seq<string>)
    decreases w
  {
    w != [] ==> Loadable(fs, w[0]) && w[0] !in chain && Clean(fs, chain + {w[0]}, w[1..])
  }

  /** A statement of a resolved list was itself resolved. */
  lemma {:induction false} ResolvedMember(fs: FileSystem, stmts: seq<Statement>, from: string,
                                          chain: set<string>, st: Statement)
    requires Resolve(fs, stmts, from, chain).Ok? && st in stmts && IsInclude(st)
    ensures Expansion(fs, st, from, chain, 1).Ok?
    decreases stmts
  {
    if stmts[0] != st { ResolvedMember(fs, stmts[1..], from, chain, st); }
  }

  lemma {:induction false} SuccessMeansCleanWalks(fs: FileSystem, stmts: seq<Statement>, from: string,
                                                  chain: set<string>, w: seq<string>)
    requires Resolve(fs, stmts, from, chain).Ok? && IsWalk(fs, stmts, from, w)
    ensures Clean(fs, chain, w)
    decreases w
  {
    var st :| st in stmts && IsInclude(st) && |st.argv| == 2 && fs.locate(from, st.argv[1]) == w[0];
    ResolvedMember(fs, stmts, from, chain, st);
    var inner := Load(fs, st, from, chain).value.1;
    SuccessMeansArity(fs, inner, w[0], chain + {w[0]});
    if |w| > 1 { SuccessMeansCleanWalks(fs, inner, w[0], chain + {w[0]}, w[1..]); }
  }

  lemma {:induction false} SuccessMeansArity(fs: FileSystem, stmts: seq<Statement>, from: string, chain: set<string>)
    requires Resolve(fs, stmts, from, chain).Ok?
    ensures ArityOk(stmts)
  {
    forall st | st in stmts && IsInclude(st) ensures |st.argv| == 2 {
      ResolvedMember(fs, stmts, from, chain, st);
    }
  }

  /** A failed resolution leaves a trail: a walk that is not clean. */
  lemma {:induction false} FailureHasWalk(fs: FileSystem, stmts: seq<Statement>, from: string, chain: set<string>)
      returns (w: seq<string>)
    requires Resolve(fs, stmts, from, chain).Err? && ArityOk(stmts)
    ensures IsWalk(fs, stmts, from, w) && !Clean(fs, chain, w)
    decreases fs.files.Keys - chain, |stmts|
  {
    var st := stmts[0];
    if IsInclude(st) && Expansion(fs, st, from, chain, |stmts|).Err? {
      assert st in stmts;
      var path := fs.locate(from, st.argv[1]);
      w := [path];
      var loaded := Load(fs, st, from, chain);
      if loaded.Ok? && Loadable(fs, path) {
        assert path in fs.files.Keys - chain && path !in fs.files.Keys - (chain + {path});
        var rest := FailureHasWalk(fs, Body(fs, path), path, chain + {path});
        w := [path] + rest;
        assert w[1..] == rest;
      }
    } else {
      w := FailureHasWalk(fs, stmts[1..], from, chain);
      assert forall s <- stmts[1..] :: s in stmts;
    }
  }

  /** Resolution succeeds exactly when every include reachable from the top has one path, and every
      walk along includes stays on loadable files and never returns to a file it has met. */
  lemma ResolvesIff(fs: FileSystem, stmts: seq<Statement>, top: string)
    ensures Resolve(fs, stmts, top, {top}).Ok?
       <==> ArityOk(stmts) && forall w :: IsWalk(fs, stmts, top, w) ==> Clean(fs, {top}, w)
  {
    if Resolve(fs, stmts, top, {top}).Ok? {
      SuccessMeansArity(fs, stmts, top, {top});
      forall w | IsWalk(fs, stmts, top, w) ensures Clean(fs, {top}, w) {
        SuccessMeansCleanWalks(fs, stmts, top, {top}, w);
      }
    } else if ArityOk(stmts) {
      var w := FailureHasWalk(fs, stmts, top, {top});
    }
  }

  predicate Distinct(w: seq<string>) { forall i, j :: 0 <= i < j < |w| ==> w[i] != w[j] }

  lemma {:induction false} CleanIsDistinct(fs: FileSystem, chain: set<string>, w: seq<string>)
    requires Clean(fs, chain, w)
    ensures Distinct(w) && (forall p <- w :: p !in chain) && forall p <- w :: Loadable(fs, p)
    decreases w
  {
    if w != [] {
      var rest := w[1..];
      CleanIsDistinct(fs, chain + {w[0]}, rest);
      forall i, j | 0 <= i < j < |w| ensures w[i] != w[j] {
        assert w[j] == rest[j - 1] && w[j] in rest;
        if i > 0 { assert w[i] == rest[i - 1]; }
      }
      forall p | p in w ensures p !in chain && Loadable(fs, p) {
        if p != w[0] { assert p in rest; }
      }
    }
  }

  lemma {:induction false} DistinctIsClean(fs: FileSystem, chain: set<string>, w: seq<string>)
    requires Distinct(w) && (forall p <- w :: p !in chain) && forall p <- w :: Loadable(fs, p)
    ensures Clean(fs, chain, w)
    decreases w
  {
    if w != [] {
      var rest := w[1..];
      assert w[0] in w;
      forall i, j | 0 <= i < j < |rest| ensures rest[i] != rest[j] { assert w[i + 1] != w[j + 1]; }
      forall p | p in rest ensures p !in chain + {w[0]} && Loadable(fs, p) {
        var k :| 0 <= k < |rest| && rest[k] == p;
        assert w[k + 1] == p && w[0] != w[k + 1] && p in w;
      }
      DistinctIsClean(fs, chain + {w[0]}, rest);
    }
  }

  /** When everything reachable is loadable, resolution succeeds exactly when the include graph below
      the top file is acyclic: no walk meets the top file or any file twice. */
  lemma ResolvesIffAcyclic(fs: FileSystem, stmts: seq<Statement>, top: string)
    requires ArityOk(stmts)
    requires forall w, p :: IsWalk(fs, stmts, top, w) && p in w && p != top ==> Loadable(fs, p)
    ensures Resolve(fs, stmts, top, {top}).Ok?
       <==> forall w :: IsWalk(fs, stmts, top, w) ==> Distinct(w) && top !in w
  {
    ResolvesIff(fs, stmts, top);
    forall w | IsWalk(fs, stmts, top, w)
      ensures Clean(fs, {top}, w) <==> Distinct(w) && top !in w
    {
      if Clean(fs, {top}, w) {
        CleanIsDistinct(fs, {top}, w);
      } else if Distinct(w) && top !in w {
        DistinctIsClean(fs, {top}, w);
      }
    }
  }

  // ----- what resolution returns -----

  /** Only commands have arguments, as in everything the parser produces. */
  predicate Plain(stmts: seq<Statement>) { forall st <- stmts :: st.control.Command? || st.argv == [] }

  lemma LoadedIsPlain(fs: FileSystem, st: Statement, from: string, chain: set<string>)
    requires IsInclude(st) && Load(fs, st, from, chain).Ok?
    ensures var stmts := Load(fs, st, from, chain).value.1; Plain(stmts) && WellNested(stmts)
  {
    var (path, stmts) := Load(fs, st, from, chain).value;
    Lexer.ParsedIsWellFormed(path, fs.files[path].lines, fs.files[path].bodyStart);
  }

  lemma {:induction false} NoIncludesLeft(fs: FileSystem, stmts: seq<Statement>, from: string, chain: set<string>)
    requires Resolve(fs, stmts, from, chain).Ok?
    ensures forall st <- Resolve(fs, stmts, from, chain).value :: !IsInclude(st)
    decreases fs.files.Keys - chain, |stmts|
  {
    if stmts != [] {
      NoIncludesLeft(fs, stmts[1..], from, chain);
      if IsInclude(stmts[0]) {
        var (path, inner) := Load(fs, stmts[0], from, chain).value;
        assert path in fs.files.Keys - chain && path !in fs.files.Keys - (chain + {path});
        NoIncludesLeft(fs, inner, path, chain + {path});
      }
    }
  }

  // ----- one file, one failure -----

  /** What a file holds below its header is read back from it. */
  lemma FileReadsBack(path: string, head: seq<string>, stmts: seq<Statement>, f: File)
    requires (forall st <- stmts :: Lexer.WellFormed(st)) && WellNested(stmts)
    requires f.lines == head + Split(Quoting.WriteAll(stmts), '\n') && f.bodyStart == |head|
    ensures ParseFile(path, f)
         == match f.headerError
            case Some(e) => Err(e)
            case None => Ok(Quoting.Placed(path, stmts, |head| + 1))
  {
    Quoting.ReadBack(path, head, stmts);
  }

  /** An include is replaced by the statements of its file, resolved in turn. */
  lemma ResolvesTo(fs: FileSystem, before: seq<Statement>, st: Statement, after: seq<Statement>, from: string,
                   chain: set<string>, head: seq<string>, stmts: seq<Statement>)
    requires Resolve(fs, before, from, chain).Ok? && IsInclude(st) && |st.argv| == 2
    requires (forall x <- stmts :: Lexer.WellFormed(x)) && WellNested(stmts)
    requires var path := fs.locate(from, st.argv[1]);
      path !in chain && path in fs.files &&
      fs.files[path] == File(head + Split(Quoting.WriteAll(stmts), '\n'), |head|, None, false)
    ensures var path := fs.locate(from, st.argv[1]);
      Resolve(fs, before + ([st] + after), from, chain)
      == match Resolve(fs, Quoting.Placed(path, stmts, |head| + 1), path, chain + {path})
         case Err(e) => Err(e)
         case Ok(inner) =>
           match Resolve(fs, after, from, chain)
           case Err(e) => Err(e)
           case Ok(rest) => Ok(Resolve(fs, before, from, chain).value + (inner + rest))
  {
    var path := fs.locate(from, st.argv[1]);
    FileReadsBack(path, head, stmts, fs.files[path]);
    ResolveConcat(fs, before, [st] + after, from, chain);
    assert ([st] + after)[1..] == after;
  }

  /** The first failing include is the error, with its place: not exactly one path, a path on the include
      stack, a path that cannot be read, a file with an error of its own, or one with requirements. */
  lemma FirstFailureReported(fs: FileSystem, before: seq<Statement>, st: Statement, after: seq<Statement>,
                             from: string, chain: set<string>)
    requires Resolve(fs, before, from, chain).Ok? && IsInclude(st)
    ensures var r := Resolve(fs, before + ([st] + after), from, chain);
      if |st.argv| != 2 then r == Err(Arity(st.src, st.line))
      else
        var path := fs.locate(from, st.argv[1]);
        (path in chain ==> r == Err(Cycle(st.src, st.line, path))) &&
        (path !in chain && path !in fs.files ==> r == Err(Unreadable(st.src, st.line, path))) &&
        (path !in chain && path in fs.files ==>
          var parsed := ParseFile(path, fs.files[path]);
          (parsed.Err? ==> r == Err(BadFile(parsed.error))) &&
          (parsed.Ok? && fs.files[path].hasRequires ==> r == Err(HasRequires(path, st.src, st.line))))
  {
    hide ParseFile;
    ResolveConcat(fs, before, [st] + after, from, chain);
    assert ([st] + after)[0] == st;
  }

  // ----- captured includes -----

  /** The statements without the captures written in front of their includes. */
  function WithoutCaptures(stmts: seq<Statement>): seq<Statement> {
    if stmts == [] then []
    else [if IsInclude(stmts[0]) then stmts[0].(capture := "") else stmts[0]] + WithoutCaptures(stmts[1..])
  }

  /** A capture in front of an include makes no difference: the variable is never set. */
  lemma {:induction false} IncludeDropsCapture(fs: FileSystem, stmts: seq<Statement>, from: string, chain: set<string>)
    ensures Resolve(fs, WithoutCaptures(stmts), from, chain) == Resolve(fs, stmts, from, chain)
    decreases stmts
  {
    if stmts != [] { IncludeDropsCapture(fs, stmts[1..], from, chain); }
  }

  /** Such a line parses, as a captured include: `name := include "file";`. */
  lemma CapturedIncludeParses(path: string, name: string, file: string)
    requires IsVarName(name) && name !in {"IF", "ELSE", "BEGIN", "END"}
    ensures var r := Lexer.Parse(path, Split(Quoting.CaptureLine(name, "include", file), '\n'), 0);
      r == Ok([Statement(1, ["include", file], name, path, Command, [])]) && IsInclude(r.value[0])
  {
    Quoting.CaptureLineParses(path, name, "include", file);
  }

  // ----- inlining on trees -----

  /** One block after another. */
  function Append(a: Block, b: Block): Block {
    match a
    case Nil => b
    case Cmd(st, rest) => Cmd(st, Append(rest, b))
    case Cond(head, body, tail, rest) => Cond(head, body, tail, Append(rest, b))
  }

  lemma {:induction false} AppendFlatten(a: Block, b: Block)
    ensures Flatten(Append(a, b)) == Flatten(a) + Flatten(b)
    ensures Shaped(a) && Shaped(b) ==> Shaped(Append(a, b))
  {
    match a
    case Nil => assert [] + Flatten(b) == Flatten(b);
    case Cmd(st, rest) =>
      AppendFlatten(rest, b);
      Assoc([st], Flatten(rest), Flatten(b));
    case Cond(head, body, tail, rest) =>
      AppendFlatten(rest, b);
      Meaning.BlockParts(head, body, tail, rest, Flatten(b));
  }

  /** Running one block after another. */
  lemma {:induction false} AppendEval<W>(cfg: Runtime.Config<W>, a: Block, b: Block, p: Runtime.Progress<W>)
    ensures Meaning.Eval(cfg, Append(a, b), p) == Meaning.Eval(cfg, b, Meaning.Eval(cfg, a, p))
    decreases a
  {
    if p.stopped.None? {
      match a
      case Nil =>
      case Cmd(st, rest) =>
        var (s, error) := Runtime.RunCommand(cfg, st, p.state);
        AppendEval(cfg, rest, b, Runtime.Record(cfg, p, s, error));
      case Cond(head, body, tail, rest) =>
        var (q, taken) := Meaning.Try(cfg, head, p);
        var r := if taken then Meaning.Eval(cfg, body, q)
                 else if Meaning.Broken(cfg, head, p) then q else Meaning.EvalTail(cfg, tail, q);
        AppendEval(cfg, rest, b, r);
    }
  }

  /** The tree of a well-nested list. */
  ghost function TreeOf(stmts: seq<Statement>): (b: Block)
    ensures WellNested(stmts) ==> Shaped(b) && Flatten(b) == stmts
  {
    if WellNested(stmts) then var b :| Shaped(b) && Flatten(b) == stmts; b else Nil
  }

  /** The tree with every include replaced by the inlined tree of its file. */
  ghost function Inline(fs: FileSystem, b: Block, from: string, chain: set<string>): Block
    decreases fs.files.Keys - chain, b
  {
    match b
    case Nil => Nil
    case Cmd(st, rest) =>
      var after := Inline(fs, rest, from, chain);
      if !IsInclude(st) || Load(fs, st, from, chain).Err? then Cmd(st, after)
      else
        var (path, stmts) := Load(fs, st, from, chain).value;
        assert path in fs.files.Keys - chain && path !in fs.files.Keys - (chain + {path});
        Append(Inline(fs, TreeOf(stmts), path, chain + {path}), after)
    case Cond(head, body, tail, rest) =>
      Cond(head, Inline(fs, body, from, chain), InlineTail(fs, tail, from, chain), Inline(fs, rest, from, chain))
  }

  ghost function InlineTail(fs: FileSystem, t: Tail, from: string, chain: set<string>): Tail
    decreases fs.files.Keys - chain, t
  {
    match t
    case Elif(st, body, tail) => Elif(st, Inline(fs, body, from, chain), InlineTail(fs, tail, from, chain))
    case Otherwise(st, body, end) => Otherwise(st, Inline(fs, body, from, chain), end)
    case Done(end) => Done(end)
  }

  lemma {:induction false} ResolveConcat(fs: FileSystem, a: seq<Statement>, b: seq<Statement>, from: string,
                                         chain: set<string>)
    ensures var ra, rb := Resolve(fs, a, from, chain), Resolve(fs, b, from, chain);
      Resolve(fs, a + b, from, chain)
      == if ra.Err? then ra else if rb.Err? then rb else Ok(ra.value + rb.value)
    decreases a
  {
    if a == [] {
      assert a + b == b;
      var rb := Resolve(fs, b, from, chain);
      if rb.Ok? { assert [] + rb.value == rb.value; }
    } else {
      assert (a + b)[0] == a[0] && (a + b)[1..] == a[1..] + b;
      ResolveConcat(fs, a[1..], b, from, chain);
      var first := if IsInclude(a[0]) then Expansion(fs, a[0], from, chain, |a|) else Ok([a[0]]);
      var rest, rb := Resolve(fs, a[1..], from, chain), Resolve(fs, b, from, chain);
      if first.Ok? && rest.Ok? && rb.Ok? { Assoc(first.value, rest.value, rb.value); }
    }
  }

  lemma PlainParts(a: seq<Statement>, b: seq<Statement>)
    ensures Plain(a + b) <==> Plain(a) && Plain(b)
  {
    assert forall st :: st in a + b <==> st in a || st in b;
  }

  lemma ResolveOne(fs: FileSystem, st: Statement, from: string, chain: set<string>)
    requires !IsInclude(st)
    ensures Resolve(fs, [st], from, chain) == Ok([st])
  {
    assert [st][1..] == [] && [st] + [] == [st];
  }

  /** Resolving a list is inlining its tree. */
  lemma {:induction false} ResolveIsInline(fs: FileSystem, b: Block, from: string, chain: set<string>)
    requires Shaped(b) && Plain(Flatten(b)) && Resolve(fs, Flatten(b), from, chain).Ok?
    ensures Shaped(Inline(fs, b, from, chain))
    ensures Flatten(Inline(fs, b, from, chain)) == Resolve(fs, Flatten(b), from, chain).value
    decreases fs.files.Keys - chain, b
  {
    match b
    case Nil =>
    case Cmd(st, rest) =>
      assert ([st] + Flatten(rest))[1..] == Flatten(rest);
      PlainParts([st], Flatten(rest));
      ResolveIsInline(fs, rest, from, chain);
      if IsInclude(st) {
        var (path, stmts) := Load(fs, st, from, chain).value;
        LoadedIsPlain(fs, st, from, chain);
        assert path in fs.files.Keys - chain && path !in fs.files.Keys - (chain + {path});
        ResolveIsInline(fs, TreeOf(stmts), path, chain + {path});
        AppendFlatten(Inline(fs, TreeOf(stmts), path, chain + {path}), Inline(fs, rest, from, chain));
      }
    case Cond(head, body, tail, rest) =>
      var x, y, z := Flatten(body), FlattenTail(tail), Flatten(rest);
      PlainParts([head], x + (y + z));
      PlainParts(x, y + z);
      PlainParts(y, z);
      assert head in [head];
      ResolveOne(fs, head, from, chain);
      ResolveConcat(fs, [head], x + (y + z), from, chain);
      ResolveConcat(fs, x, y + z, from, chain);
      ResolveConcat(fs, y, z, from, chain);
      ResolveIsInline(fs, body, from, chain);
      ResolveIsInlineTail(fs, tail, from, chain);
      ResolveIsInline(fs, rest, from, chain);
  }

  lemma {:induction false} ResolveIsInlineTail(fs: FileSystem, t: Tail, from: string, chain: set<string>)
    requires ShapedTail(t) && Plain(FlattenTail(t)) && Resolve(fs, FlattenTail(t), from, chain).Ok?
    ensures ShapedTail(InlineTail(fs, t, from, chain))
    ensures FlattenTail(InlineTail(fs, t, from, chain)) == Resolve(fs, FlattenTail(t), from, chain).value
    decreases fs.files.Keys - chain, t
  {
    match t
    case Elif(st, body, tail) =>
      var x, y := Flatten(body), FlattenTail(tail);
      PlainParts([st], x + y);
      PlainParts(x, y);
      assert st in [st];
      ResolveOne(fs, st, from, chain);
      ResolveConcat(fs, [st], x + y, from, chain);
      ResolveConcat(fs, x, y, from, chain);
      ResolveIsInline(fs, body, from, chain);
      ResolveIsInlineTail(fs, tail, from, chain);
    case Otherwise(st, body, end) =>
      var x := Flatten(body);
      PlainParts([st], x + [end]);
      PlainParts(x, [end]);
      assert st in [st] && end in [end];
      ResolveOne(fs, st, from, chain);
      ResolveOne(fs, end, from, chain);
      ResolveConcat(fs, [st], x + [end], from, chain);
      ResolveConcat(fs, x, [end], from, chain);
      ResolveIsInline(fs, body, from, chain);
    case Done(end) =>
      assert end in [end];
      ResolveOne(fs, end, from, chain);
  }

  /** The result of resolution is well nested and free of includes. */
  lemma ResolvedIsWellNested(fs: FileSystem, stmts: seq<Statement>, top: string)
    requires WellNested(stmts) && Plain(stmts) && Resolve(fs, stmts, top, {top}).Ok?
    ensures WellNested(Resolve(fs, stmts, top, {top}).value)
    ensures forall st <- Resolve(fs, stmts, top, {top}).value :: !IsInclude(st)
  {
    NoIncludesLeft(fs, stmts, top, {top});
    ResolveIsInline(fs, TreeOf(stmts), top, {top});
  }

  /** Inlining preserves meaning: an include is the included recipe run at that point. */
  lemma IncludeMeansRunningTheFile<W>(cfg: Runtime.Config<W>, fs: FileSystem, st: Statement, rest: Block,
                                      from: string, chain: set<string>, p: Runtime.Progress<W>)
    requires IsInclude(st) && Load(fs, st, from, chain).Ok?
    ensures var (path, stmts) := Load(fs, st, from, chain).value;
      Meaning.Eval(cfg, Inline(fs, Cmd(st, rest), from, chain), p)
      == Meaning.Eval(cfg, Inline(fs, rest, from, chain),
                      Meaning.Eval(cfg, Inline(fs, TreeOf(stmts), path, chain + {path}), p))
  {
    var (path, stmts) := Load(fs, st, from, chain).value;
    AppendEval(cfg, Inline(fs, TreeOf(stmts), path, chain + {path}), Inline(fs, rest, from, chain), p);
  }

  /** The flat run of a resolved recipe is the evaluation of its inlined tree: always without
      keep-going, and with it exactly when no IF condition fails to evaluate. */
  lemma RunResolved<W>(cfg: Runtime.Config<W>, fs: FileSystem, stmts: seq<Statement>, top: string, s: Runtime.State<W>)
    requires WellNested(stmts) && Plain(stmts) && Resolve(fs, stmts, top, {top}).Ok?
    ensures var tree := Meaning.Eval(cfg, Inline(fs, TreeOf(stmts), top, {top}), Runtime.Start(s));
      Runtime.RunFlat(cfg, Resolve(fs, stmts, top, {top}).value, [], Runtime.Start(s)).0 == tree
      <==> !cfg.keepGoing || Meaning.IfConditionsSound(tree)
  {
    ResolveIsInline(fs, TreeOf(stmts), top, {top});
    var b := Inline(fs, TreeOf(stmts), top, {top});
    if cfg.keepGoing { Meaning.KeepGoingMeansTree(cfg, b, s); } else { Meaning.RunMeansTree(cfg, b, s); }
  }
}
