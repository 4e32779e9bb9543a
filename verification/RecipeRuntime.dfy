/** The statement interpreter: a flat list driven by a stack of branch frames.  The functions say what
    a statement does to the interpreter's state; the class updates that state the way the source
    does.  Commands, standard input, JSON and the clock are supplied by the host. */
module RecipeRuntime {
  import opened Text
  import opened RecipeSyntax
  import opened RecipeExpand

  /** The outside world, over an abstract world state `W`.  `run` executes a command and says whether
      it succeeded, `capture` yields its standard output, `readLine` one line of standard input. */
  datatype Host<!W> = Host(
    platform: Platform,
    run: (W, seq<string>) -> (W, bool),
    capture: (W, seq<string>) -> (W, Option<string>),
    readLine: W -> (W, Option<string>),
    parseJson: string -> Option<Value>,
    isDuration: string -> bool)

  datatype Config<!W> = Config(host: Host<W>, keepGoing: bool, force: bool, path: string)

  /** What happened, in order: a condition was evaluated, or a statement was executed. */
  datatype Event = Tested(st: Statement) | Ran(st: Statement, argv: seq<string>)

  datatype State<W> = State(memory: Memory, world: W, log: seq<Event>)

  datatype AssertError = MissingExpression | UnknownOperator(op: string) | BadArity(n: nat)

  datatype CondError = CondExpand(why: ExpandError) | CondExpr(error: AssertError)

  datatype ExecError =
    | EmptyStatement
    | RecipeBlocked(verb: string)
    | InstallBlocked
    | FuncWithoutName
    | NotAFunction(name: string)
    | CannotCapture(word: string)
    | ReadIsAFunction
    | SetWasRenamed
    | VarArity(n: nat)
    | VarName(name: string)
    | VarEquals(got: string)
    | SleepArity(n: nat)
    | SleepDuration(arg: string)
    | AssertFailed(message: string)
    | AssertBroken(word: string, error: AssertError)
    | CommandFailed
    | NotJson
    | ReadFailed

  datatype RunError =
    | BadCondition(src: string, line: nat, control: Control, why: CondError)
    | Dangling(src: string, line: nat, control: Control)
    | BadArguments(src: string, line: nat, error: ExpandError)
    | Failed(src: string, line: nat, capture: string, argv: seq<string>, reason: ExecError)

  // ----- conditions -----

  const FALSE_WORDS := {"", "false", "0", "no", "off", "null", "nil"}

  predicate IsTruthy(s: string) { ToLower(TrimSpace(s)) !in FALSE_WORDS }

  function EvalAssertExpr(expr: seq<string>): Result<bool, AssertError> {
    if |expr| == 0 then Err(MissingExpression)
    else if |expr| == 1 then Ok(IsTruthy(expr[0]))
    else if |expr| == 3 then
      if expr[1] == "==" then Ok(expr[0] == expr[2])
      else if expr[1] == "!=" then Ok(expr[0] != expr[2])
      else Err(UnknownOperator(expr[1]))
    else Err(BadArity(|expr|))
  }

  function Verdict(platform: Platform, memory: Memory, cond: seq<string>): Result<bool, CondError> {
    match ExpandArgv(platform, memory, cond)
    case Err(e) => Err(CondExpand(e))
    case Ok(expr) =>
      match EvalAssertExpr(expr)
      case Err(e) => Err(CondExpr(e))
      case Ok(b) => Ok(b)
  }

  /** `evalCond`: the verdict, and the evaluation noted in the log. */
  function Test<W>(platform: Platform, st: Statement, s: State<W>): (State<W>, Result<bool, RunError>) {
    (s.(log := s.log + [Tested(st)]),
     match Verdict(platform, s.memory, st.cond)
     case Err(e) => Err(BadCondition(st.src, st.line, st.control, e))
     case Ok(b) => Ok(b))
  }

  // ----- the branch stack -----

  datatype CondFrame = CondFrame(enclosingActive: bool, anyMatched: bool, branchActive: bool)

  predicate CondActive(stack: seq<CondFrame>) { stack == [] || stack[|stack| - 1].branchActive }

  function SetTop(stack: seq<CondFrame>, f: CondFrame): seq<CondFrame>
    requires stack != []
  {
    stack[|stack| - 1 := f]
  }

  /** `applyControl`. */
  function ApplyControl<W>(platform: Platform, st: Statement, stack: seq<CondFrame>, s: State<W>)
    : (State<W>, seq<CondFrame>, Option<RunError>)
  {
    match st.control
    case Command => (s, stack, None)
    case If =>
      if !CondActive(stack) then (s, stack + [CondFrame(false, false, false)], None)
      else
        var (tested, verdict) := Test(platform, st, s);
        (match verdict
         case Err(e) => (tested, stack, Some(e))
         case Ok(b) => (tested, stack + [CondFrame(true, b, b)], None))
    case ElseIf =>
      if stack == [] then (s, stack, Some(Dangling(st.src, st.line, ElseIf)))
      else
        var f := stack[|stack| - 1].(branchActive := false);
        if !f.enclosingActive || f.anyMatched then (s, SetTop(stack, f), None)
        else
          var (tested, verdict) := Test(platform, st, s);
          (match verdict
           case Err(e) => (tested, SetTop(stack, f), Some(e))
           case Ok(b) => (tested, SetTop(stack, CondFrame(true, b, b)), None))
    case Else =>
      if stack == [] then (s, stack, Some(Dangling(st.src, st.line, Else)))
      else
        var f := stack[|stack| - 1];
        var taken := f.enclosingActive && !f.anyMatched;
        (s, SetTop(stack, f.(branchActive := taken, anyMatched := f.anyMatched || taken)), None)
    case End =>
      if stack == [] then (s, stack, Some(Dangling(st.src, st.line, End)))
      else (s, stack[..|stack| - 1], None)
  }

  // ----- statements -----

  /** `-force` is added to the pulls that accept it. */
  function WithForce(force: bool, argv: seq<string>): seq<string> {
    if force && |argv| >= 2 && argv[1] == "pull" && argv[0] in {"app", "skill", "model"} &&
       "-force" !in argv && "--force" !in argv
    then argv + ["-force"] else argv
  }

  /** Where a statement came from, for messages. */
  function Source(path: string, st: Statement): string { if st.src != "" then st.src else path }

  predicate EndsInComma(t: string) { t != "" && t[|t| - 1] == ',' }

  /** `splitRequireMessage`: the expression before the first comma and the message after it. */
  function SplitMessage(before: seq<string>, tokens: seq<string>): (seq<string>, string)
    decreases tokens
  {
    if tokens == [] then (before, "")
    else if tokens[0] == "," then (if before == [] then [""] else before, Join(tokens[1..], " "))
    else if EndsInComma(tokens[0]) then (before + [tokens[0][..|tokens[0]| - 1]], Join(tokens[1..], " "))
    else SplitMessage(before + [tokens[0]], tokens[1..])
  }

  function Require(argv: seq<string>): Option<ExecError>
    requires argv != []
  {
    var (expr, message) := SplitMessage([], argv[1..]);
    match EvalAssertExpr(expr)
    case Err(e) => Some(AssertBroken(argv[0], e))
    case Ok(true) => None
    case Ok(false) => Some(AssertFailed(if message != "" then message else argv[0] + " failed: " + Join(expr, " ")))
  }

  function ExecVar<W>(argv: seq<string>, s: State<W>): (State<W>, Option<ExecError>) {
    if |argv| < 4 then (s, Some(VarArity(|argv|)))
    else if !IsVarName(argv[1]) then (s, Some(VarName(argv[1])))
    else if argv[2] != "=" then (s, Some(VarEquals(argv[2])))
    else (s.(memory := s.memory[argv[1] := Str(Join(argv[3..], " "))]), None)
  }

  function StoreCapture<W>(host: Host<W>, name: string, raw: string, s: State<W>): (State<W>, Option<ExecError>) {
    if TrimSpace(raw) == "" then (s.(memory := s.memory[name := Null]), None)
    else
      match host.parseJson(TrimSpace(raw))
      case None => (s, Some(NotJson))
      case Some(v) => (s.(memory := s.memory[name := v]), None)
  }

  function ExecCapture<W>(host: Host<W>, name: string, argv: seq<string>, s: State<W>): (State<W>, Option<ExecError>) {
    var (world, output) := host.capture(s.world, argv);
    match output
    case None => (s.(world := world), Some(CommandFailed))
    case Some(raw) => StoreCapture(host, name, raw, s.(world := world))
  }

  function ExecRead<W>(host: Host<W>, name: string, s: State<W>): (State<W>, Option<ExecError>) {
    var (world, line) := host.readLine(s.world);
    match line
    case None => (s.(world := world), Some(ReadFailed))
    case Some(text) =>
      (s.(world := world, memory := if name == "" then s.memory else s.memory[name := Str(text)]), None)
  }

  function ExecCommand<W>(host: Host<W>, argv: seq<string>, s: State<W>): (State<W>, Option<ExecError>) {
    var (world, ok) := host.run(s.world, argv);
    (s.(world := world), if ok then None else Some(CommandFailed))
  }

  /** `execStatement`, on expanded arguments. */
  function Exec<W>(host: Host<W>, capture: string, argv: seq<string>, s: State<W>): (State<W>, Option<ExecError>) {
    if argv == [] then (s, Some(EmptyStatement))
    else if argv[0] == "recipe" then (s, Some(RecipeBlocked(if |argv| >= 2 then argv[1] else "")))
    else if argv[0] == "market" && |argv| >= 2 && argv[1] == "install" then (s, Some(InstallBlocked))
    else if argv[0] == "func" then
      if |argv| < 2 then (s, Some(FuncWithoutName))
      else if argv[1] == "read" then ExecRead(host, capture, s)
      else (s, Some(NotAFunction(argv[1])))
    else if argv[0] in {"echo", "sleep", "var", "require", "assert"} && capture != "" then
      (s, Some(CannotCapture(argv[0])))
    else if argv[0] == "echo" then (s, None)
    else if argv[0] == "sleep" then
      if |argv| != 2 then (s, Some(SleepArity(|argv|)))
      else (s, if host.isDuration(argv[1]) then None else Some(SleepDuration(argv[1])))
    else if argv[0] == "var" then ExecVar(argv, s)
    else if argv[0] == "require" || argv[0] == "assert" then (s, Require(argv))
    else if argv[0] == "read" then (s, Some(ReadIsAFunction))
    else if argv[0] == "set" then (s, Some(SetWasRenamed))
    else if capture != "" then ExecCapture(host, capture, argv, s)
    else ExecCommand(host, argv, s)
  }

  /** One active command: expansion, `-force`, execution. */
  function RunCommand<W>(cfg: Config<W>, st: Statement, s: State<W>): (State<W>, Option<RunError>) {
    var src := Source(cfg.path, st);
    match ExpandArgv(cfg.host.platform, s.memory, st.argv)
    case Err(e) => (s, Some(BadArguments(src, st.line, e)))
    case Ok(expanded) =>
      var argv := WithForce(cfg.force, expanded);
      var (after, error) := Exec(cfg.host, st.capture, argv, s.(log := s.log + [Ran(st, argv)]));
      match error
      case None => (after, None)
      case Some(e) => (after, Some(Failed(src, st.line, st.capture, argv, e)))
  }

  // ----- the run -----

  /** The state so far, the failures recorded by keep-going, and the error that stopped the run. */
  datatype Progress<W> = Progress(state: State<W>, failures: seq<RunError>, stopped: Option<RunError>)

  function Record<W>(cfg: Config<W>, p: Progress<W>, s: State<W>, error: Option<RunError>): Progress<W> {
    match error
    case None => p.(state := s)
    case Some(e) =>
      if cfg.keepGoing then p.(state := s, failures := p.failures + [e]) else p.(state := s, stopped := Some(e))
  }

  /** One turn of the loop. */
  function RunOne<W>(cfg: Config<W>, st: Statement, stack: seq<CondFrame>, p: Progress<W>)
    : (Progress<W>, seq<CondFrame>)
  {
    if !st.control.Command? then
      var (s, next, error) := ApplyControl(cfg.host.platform, st, stack, p.state);
      (Record(cfg, p, s, error), next)
    else if !CondActive(stack) then (p, stack)
    else
      var (s, error) := RunCommand(cfg, st, p.state);
      (Record(cfg, p, s, error), stack)
  }

  function RunFlat<W>(cfg: Config<W>, stmts: seq<Statement>, stack: seq<CondFrame>, p: Progress<W>)
    : (Progress<W>, seq<CondFrame>)
    decreases stmts
  {
    if stmts == [] || p.stopped.Some? then (p, stack)
    else
      var (q, next) := RunOne(cfg, stmts[0], stack, p);
      RunFlat(cfg, stmts[1..], next, q)
  }

  /** What `Run` returns: no error, the error that stopped it, or the recorded failures. */
  datatype Report = Success | Stopped(error: RunError) | Failures(errors: seq<RunError>)

  function ReportOf<W>(p: Progress<W>): Report {
    if p.stopped.Some? then Stopped(p.stopped.value)
    else if p.failures != [] then Failures(p.failures)
    else Success
  }

  /** A run is a success exactly when nothing failed; with keep-going the report holds every failure. */
  lemma ReportMeans<W>(p: Progress<W>)
    ensures ReportOf(p).Success? <==> p.stopped.None? && p.failures == []
    ensures p.stopped.Some? ==> ReportOf(p) == Stopped(p.stopped.value)
    ensures p.stopped.None? && p.failures != [] ==> ReportOf(p) == Failures(p.failures)
  {
  }

  function Start<W>(s: State<W>): Progress<W> { Progress(s, [], None) }

  // ----- what a statement may touch -----

  /** Executing a statement changes memory at no name but its capture or the variable it sets, never
      forgets a variable, and leaves the log alone. */
  lemma ExecFrame<W>(host: Host<W>, capture: string, argv: seq<string>, s: State<W>)
    ensures var t := Exec(host, capture, argv, s).0;
      t.log == s.log && s.memory.Keys <= t.memory.Keys &&
      forall name <- t.memory.Keys ::
        name == capture || (|argv| > 1 && argv[0] == "var" && name == argv[1]) ||
        (name in s.memory && t.memory[name] == s.memory[name])
  {
  }

  /** After `var name = words`, `${name}` is the words joined by spaces; only a variable called `env`
      is out of reach, because that name always means the environment. */
  lemma VarReadsBack<W>(p: Platform, argv: seq<string>, s: State<W>)
    requires ExecVar(argv, s).1.None?
    ensures ExpandToken(p, ExecVar(argv, s).0.memory, "${" + argv[1] + "}")
         == if argv[1] == "env" then Err(BadPath(EnvNeedsName)) else Ok(Join(argv[3..], " "))
  {
    hide Walk;
    var name, memory := argv[1], ExecVar(argv, s).0.memory;
    assert !IsVarChar('}');
    ExpandReference(p, memory, name);
    assert name + PrintChain([]) == name;
    if name == "env" {
      assert name[|name| - 1] in name;
      TrimmedUnchanged(name);
      SplitIdent(name, "");
      assert name + "" == name;
    } else {
      PathMeansChain(p, memory, name, []);
    }
  }

  /** The message of an assertion starts after the first comma, whether the comma stands alone or ends
      a word; without one there is no message.  A leading comma stands for an empty operand. */
  lemma MessageSplits(expr: seq<string>, last: string, message: seq<string>)
    requires (forall t <- expr :: !EndsInComma(t)) && !EndsInComma(last)
    ensures SplitMessage([], expr) == (expr, "")
    ensures SplitMessage([], [","] + message) == ([""], Join(message, " "))
    ensures SplitMessage([], (expr + [last]) + ([","] + message)) == (expr + [last], Join(message, " "))
    ensures last != "" ==> SplitMessage([], expr + ([last + ","] + message)) == (expr + [last], Join(message, " "))
  {
    assert ([","] + message)[1..] == message;
    NoCommaYet([], expr, []);
    assert expr + [] == expr && [] + expr == expr;
    NoCommaYet([], expr + [last], [","] + message);
    assert [] + (expr + [last]) == expr + [last];
    NoCommaYet([], expr, [last + ","] + message);
    assert ([last + ","] + message)[1..] == message && (last + ",")[..|last|] == last;
  }

  lemma {:induction false} NoCommaYet(before: seq<string>, words: seq<string>, rest: seq<string>)
    requires forall t <- words :: !EndsInComma(t)
    ensures SplitMessage(before, words + rest) == SplitMessage(before + words, rest)
    decreases words
  {
    if words == [] {
      assert words + rest == rest && before + words == before;
    } else {
      assert words[0] in words && forall t <- words[1..] :: t in words;
      assert (words + rest)[1..] == words[1..] + rest;
      NoCommaYet(before + [words[0]], words[1..], rest);
      assert before + [words[0]] + words[1..] == before + words;
    }
  }

  // ----- the interpreter as the source runs it -----

  method RunSplitMessage(tokens: seq<string>) returns (expr: seq<string>, message: string)
    ensures (expr, message) == SplitMessage([], tokens)
  {
    for i := 0 to |tokens|
      invariant SplitMessage([], tokens) == SplitMessage(tokens[..i], tokens[i..])
    {
      var t := tokens[i];
      assert tokens[i..][1..] == tokens[i + 1..] && tokens[..i] + [t] == tokens[..i + 1];
      if t == "," {
        if i == 0 { return [""], Join(tokens[1..], " "); }
        return tokens[..i], Join(tokens[i + 1..], " ");
      }
      if EndsInComma(t) { return tokens[..i] + [t[..|t| - 1]], Join(tokens[i + 1..], " "); }
    }
    assert tokens[..|tokens|] == tokens && tokens[|tokens|..] == [];
    return tokens, "";
  }

  method RunRequire(argv: seq<string>) returns (error: Option<ExecError>)
    requires argv != []
    ensures error == Require(argv)
  {
    var expr, message := RunSplitMessage(argv[1..]);
    var ok := EvalAssertExpr(expr);
    if ok.Err? { return Some(AssertBroken(argv[0], ok.error)); }
    if !ok.value {
      if message == "" { message := argv[0] + " failed: " + Join(expr, " "); }
      return Some(AssertFailed(message));
    }
    return None;
  }

  class Runtime<W> {
    const host: Host<W>
    var keepGoing: bool
    var dryRun: bool
    var force: bool
    var memory: Memory
    var world: W
    ghost var log: seq<Event>

    ghost function Now(): State<W>
      reads this
    {
      State(memory, world, log)
    }

    ghost function Settings(path: string): Config<W>
      reads this
    {
      Config(host, keepGoing, force, path)
    }

    constructor (host: Host<W>, world: W, keepGoing: bool, dryRun: bool, force: bool)
      ensures this.host == host && Now() == State(map[], world, [])
      ensures this.keepGoing == keepGoing && this.dryRun == dryRun && this.force == force
    {
      this.host, this.world, this.memory, this.log := host, world, map[], [];
      this.keepGoing, this.dryRun, this.force := keepGoing, dryRun, force;
    }

    method EvalCond(st: Statement) returns (r: Result<bool, RunError>)
      modifies this`log
      ensures (Now(), r) == Test(host.platform, st, old(Now()))
    {
      log := log + [Tested(st)];
      var expanded := ExpandArgv(host.platform, memory, st.cond);
      if expanded.Err? { return Err(BadCondition(st.src, st.line, st.control, CondExpand(expanded.error))); }
      var ok := EvalAssertExpr(expanded.value);
      if ok.Err? { return Err(BadCondition(st.src, st.line, st.control, CondExpr(ok.error))); }
      return Ok(ok.value);
    }

    method ControlStep(st: Statement, stack: seq<CondFrame>) returns (next: seq<CondFrame>, error: Option<RunError>)
      modifies this`log
      ensures (Now(), next, error) == ApplyControl(host.platform, st, stack, old(Now()))
    {
      next, error := stack, None;
      var n := |stack|;
      match st.control {
        case Command =>
        case If =>
          var enclosing, matched := CondActive(stack), false;
          if enclosing {
            var ok := EvalCond(st);
            if ok.Err? { return stack, Some(ok.error); }
            matched := ok.value;
          }
          next := stack + [CondFrame(enclosing, matched, matched)];
        case ElseIf =>
          if n == 0 { return stack, Some(Dangling(st.src, st.line, ElseIf)); }
          next := stack[n - 1 := stack[n - 1].(branchActive := false)];
          if next[n - 1].enclosingActive && !next[n - 1].anyMatched {
            var ok := EvalCond(st);
            if ok.Err? { return next, Some(ok.error); }
            if ok.value {
              next := next[n - 1 := next[n - 1].(branchActive := true, anyMatched := true)];
            }
            assert next == SetTop(stack, CondFrame(true, ok.value, ok.value));
          }
        case Else =>
          if n == 0 { return stack, Some(Dangling(st.src, st.line, Else)); }
          var f := stack[n - 1];
          f := f.(branchActive := f.enclosingActive && !f.anyMatched);
          if f.branchActive { f := f.(anyMatched := true); }
          next := stack[n - 1 := f];
        case End =>
          if n == 0 { return stack, Some(Dangling(st.src, st.line, End)); }
          next := stack[..n - 1];
      }
    }

    method VarStatement(argv: seq<string>) returns (error: Option<ExecError>)
      modifies this`memory
      ensures (Now(), error) == ExecVar(argv, old(Now()))
    {
      if |argv| < 4 { return Some(VarArity(|argv|)); }
      var name := argv[1];
      if !IsVarName(name) { return Some(VarName(name)); }
      if argv[2] != "=" { return Some(VarEquals(argv[2])); }
      memory := memory[name := Str(Join(argv[3..], " "))];
      return None;
    }

    method Capture(name: string, argv: seq<string>) returns (error: Option<ExecError>)
      modifies this`memory, this`world
      ensures (Now(), error) == ExecCapture(host, name, argv, old(Now()))
    {
      var (after, output) := host.capture(world, argv);
      world := after;
      if output.None? { return Some(CommandFailed); }
      var trimmed := TrimSpace(output.value);
      if trimmed == "" {
        memory := memory[name := Null];
        return None;
      }
      var val := host.parseJson(trimmed);
      if val.None? { return Some(NotJson); }
      memory := memory[name := val.value];
      return None;
    }

    method Read(name: string) returns (error: Option<ExecError>)
      modifies this`memory, this`world
      ensures (Now(), error) == ExecRead(host, name, old(Now()))
    {
      var (after, line) := host.readLine(world);
      world := after;
      if line.None? { return Some(ReadFailed); }
      if name != "" { memory := memory[name := Str(line.value)]; }
      return None;
    }

    method ExecStatement(capture: string, argv: seq<string>) returns (error: Option<ExecError>)
      modifies this`memory, this`world
      ensures (Now(), error) == Exec(host, capture, argv, old(Now()))
    {
      if argv == [] { return Some(EmptyStatement); }
      match argv[0] {
        case "recipe" => return Some(RecipeBlocked(if |argv| >= 2 then argv[1] else ""));
        case "func" =>
          if |argv| < 2 { return Some(FuncWithoutName); }
          if argv[1] != "read" { return Some(NotAFunction(argv[1])); }
          error := Read(capture);
          return;
        case _ =>
      }
      if argv[0] == "market" && |argv| >= 2 && argv[1] == "install" { return Some(InstallBlocked); }
      if argv[0] in {"echo", "sleep", "var", "require", "assert"} && capture != "" {
        return Some(CannotCapture(argv[0]));
      }
      match argv[0] {
        case "echo" => return None;
        case "sleep" =>
          if |argv| != 2 { return Some(SleepArity(|argv|)); }
          return if host.isDuration(argv[1]) then None else Some(SleepDuration(argv[1]));
        case "var" => error := VarStatement(argv); return;
        case "require" | "assert" => error := RunRequire(argv); return;
        case "read" => return Some(ReadIsAFunction);
        case "set" => return Some(SetWasRenamed);
        case _ =>
      }
      if capture != "" {
        error := Capture(capture, argv);
      } else {
        var (after, ok) := host.run(world, argv);
        world := after;
        error := if ok then None else Some(CommandFailed);
      }
    }

    /** `Run`: the report, and memory and world as the flat machine leaves them. */
    method Run(path: string, stmts: seq<Statement>) returns (r: Report)
      modifies this`memory, this`world, this`log
      ensures dryRun ==> Now() == old(Now()) && r == Success
      ensures !dryRun ==>
        var p := RunFlat(Settings(path), stmts, [], Start(old(Now()))).0;
        Now() == p.state && r == ReportOf(p)
    {
      if dryRun { return Success; }
      var failures: seq<RunError>, stack: seq<CondFrame> := [], [];
      ghost var goal := RunFlat(Settings(path), stmts, [], Start(Now())).0;
      for i := 0 to |stmts|
        invariant Settings(path) == old(Settings(path))
        invariant goal == RunFlat(Settings(path), stmts[i..], stack, Progress(Now(), failures, None)).0
      {
        var st := stmts[i];
        assert stmts[i..][1..] == stmts[i + 1..];
        var error: Option<RunError> := None;
        ghost var before := Progress(Now(), failures, None);
        ghost var turn := RunOne(Settings(path), st, stack, before);
        if st.control != Command {
          stack, error := ControlStep(st, stack);
        } else if CondActive(stack) {
          var expanded := ExpandArgv(host.platform, memory, st.argv);
          if expanded.Err? {
            error := Some(BadArguments(Source(path, st), st.line, expanded.error));
          } else {
            var argv := WithForce(force, expanded.value);
            log := log + [Ran(st, argv)];
            var failed := ExecStatement(st.capture, argv);
            if failed.Some? {
              error := Some(Failed(Source(path, st), st.line, st.capture, argv, failed.value));
            }
          }
        }
        assert turn == (Record(Settings(path), before, Now(), error), stack);
        if error.Some? {
          if !keepGoing {
            assert goal == Record(Settings(path), before, Now(), error);
            return Stopped(error.value);
          }
          failures := failures + [error.value];
        }
      }
      assert stmts[|stmts|..] == [];
      if |failures| > 0 { return Failures(failures); }
      return Success;
    }
  }
}
