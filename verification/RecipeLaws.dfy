/** What recipes do, in terms of their words and of what the host is asked: which conditions hold, which
    branch runs, which statements reach the host, and what they leave in memory. */
module RecipeLaws {
  import opened Text
  import opened RecipeSyntax
  import opened RecipeExpand
  import opened RecipeRuntime
  import opened RecipeControlFlow
  import opened RecipeMeaning

  // ----- conditions -----

  predicate NoReference(words: seq<string>) { forall w <- words :: !ContainsReference(w) }

  /** `a == b` holds when the words are equal, `a != b` when they are not. */
  lemma EqualityVerdict(p: Platform, memory: Memory, a: string, b: string)
    requires NoReference([a, b])
    ensures Verdict(p, memory, [a, "==", b]) == Ok(a == b)
    ensures Verdict(p, memory, [a, "!=", b]) == Ok(a != b)
  {
    assert a in [a, b] && b in [a, b];
    assert "=="[1..] == "=" && "!="[1..] == "=" && "="[1..] == "";
    PlainArgv(p, memory, [a, "==", b]);
    PlainArgv(p, memory, [a, "!=", b]);
  }

  /** One word holds unless, trimmed and in lower case, it is one of seven. */
  lemma WordVerdict(p: Platform, memory: Memory, w: string)
    requires !ContainsReference(w)
    ensures Verdict(p, memory, [w])
         == Ok(ToLower(TrimSpace(w)) !in {"", "false", "0", "no", "off", "null", "nil"})
  {
    PlainArgv(p, memory, [w]);
  }

  /** With references, the expanded words decide; every other shape is an error. */
  lemma ExpandedVerdict(p: Platform, memory: Memory, cond: seq<string>)
    ensures match ExpandArgv(p, memory, cond)
            case Err(e) => Verdict(p, memory, cond) == Err(CondExpand(e))
            case Ok(words) =>
              (|words| == 1 ==>
                Verdict(p, memory, cond)
                == Ok(ToLower(TrimSpace(words[0])) !in {"", "false", "0", "no", "off", "null", "nil"})) &&
              (|words| == 3 && words[1] == "==" ==> Verdict(p, memory, cond) == Ok(words[0] == words[2])) &&
              (|words| == 3 && words[1] == "!=" ==> Verdict(p, memory, cond) == Ok(words[0] != words[2])) &&
              (|words| == 3 && words[1] != "==" && words[1] != "!=" ==>
                Verdict(p, memory, cond) == Err(CondExpr(UnknownOperator(words[1])))) &&
              (|words| == 0 ==> Verdict(p, memory, cond) == Err(CondExpr(MissingExpression))) &&
              (|words| == 2 || |words| > 3 ==> Verdict(p, memory, cond) == Err(CondExpr(BadArity(|words|))))
  {
    hide ExpandArgv, TrimSpace, ToLower;
  }

  // ----- assertions -----

  /** `require a == b` passes exactly when the words are equal; it fails with its own text, or with the
      message behind the comma. */
  lemma RequireEquality(verb: string, a: string, b: string, message: seq<string>)
    requires !EndsInComma(a) && !EndsInComma(b)
    ensures Require([verb, a, "==", b])
         == if a == b then None else Some(AssertFailed(verb + " failed: " + Join([a, "==", b], " ")))
    ensures Require([verb, a, "!=", b])
         == if a != b then None else Some(AssertFailed(verb + " failed: " + Join([a, "!=", b], " ")))
    ensures Join(message, " ") != "" ==>
      Require([verb] + (([a, "=="] + [b]) + ([","] + message)))
      == if a == b then None else Some(AssertFailed(Join(message, " ")))
  {
    hide Join;
    forall op | op == "==" || op == "!="
      ensures [verb, a, op, b][1..] == [a, op, b] && SplitMessage([], [a, op, b]) == ([a, op, b], "")
    {
      assert [verb, a, op, b][1..] == [a, op, b];
      MessageSplits([a, op, b], "", []);
    }
    MessageSplits([a, "=="], b, message);
    var argv := [verb] + (([a, "=="] + [b]) + ([","] + message));
    assert argv[1..] == ([a, "=="] + [b]) + ([","] + message);
    assert [a, "=="] + [b] == [a, "==", b];
  }

  /** The first argument that does not expand is the error. */
  lemma {:induction false} FirstArgumentError(p: Platform, memory: Memory, before: seq<string>, word: string,
                                              after: seq<string>, e: ExpandError)
    requires ExpandArgv(p, memory, before).Ok? && ExpandToken(p, memory, word) == Err(e)
    ensures ExpandArgv(p, memory, before + ([word] + after)) == Err(e)
  {
    if before == [] {
      assert before + ([word] + after) == [word] + after;
    } else {
      assert (before + ([word] + after))[1..] == before[1..] + ([word] + after);
      FirstArgumentError(p, memory, before[1..], word, after, e);
    }
  }

  // ----- branches -----

  /** What a condition without references says. */
  predicate Holds(cond: seq<string>) {
    if |cond| == 1 then ToLower(TrimSpace(cond[0])) !in {"", "false", "0", "no", "off", "null", "nil"}
    else |cond| == 3 && (if cond[1] == "==" then cond[0] == cond[2] else cond[0] != cond[2])
  }

  lemma SafeVerdict(p: Platform, memory: Memory, cond: seq<string>)
    requires SafeCondition(cond)
    ensures Verdict(p, memory, cond) == Ok(Holds(cond))
  {
    hide TrimSpace, ToLower;
    if |cond| == 1 {
      assert cond == [cond[0]] && cond[0] in cond;
      WordVerdict(p, memory, cond[0]);
    } else {
      assert cond == [cond[0], cond[1], cond[2]] && cond[0] in cond && cond[2] in cond;
      EqualityVerdict(p, memory, cond[0], cond[2]);
    }
  }

  /** One branch with a condition. */
  datatype Branch = Branch(st: Statement, body: Block)

  /** The tail of a conditional with these branches, then perhaps an ELSE. */
  function ChainTail(branches: seq<Branch>, last: Tail): Tail {
    if branches == [] then last else Elif(branches[0].st, branches[0].body, ChainTail(branches[1..], last))
  }

  /** The first branch whose condition holds. */
  function FirstTrue(branches: seq<Branch>): nat {
    if branches == [] || Holds(branches[0].st.cond) then 0 else 1 + FirstTrue(branches[1..])
  }

  function TestedUpTo(branches: seq<Branch>): seq<Event> {
    if branches == [] then []
    else if Holds(branches[0].st.cond) then [Tested(branches[0].st)]
    else [Tested(branches[0].st)] + TestedUpTo(branches[1..])
  }

  predicate SafeBranches(branches: seq<Branch>) { forall b <- branches :: SafeCondition(b.st.cond) }

  function Logged<W>(p: Progress<W>, events: seq<Event>): Progress<W> {
    p.(state := p.state.(log := p.state.log + events))
  }

  lemma {:induction false} FirstTrueIs(branches: seq<Branch>)
    ensures var k := FirstTrue(branches);
      k <= |branches| && (forall i :: 0 <= i < k ==> !Holds(branches[i].st.cond)) &&
      (k < |branches| ==> Holds(branches[k].st.cond))
  {
    if branches != [] && !Holds(branches[0].st.cond) {
      FirstTrueIs(branches[1..]);
      var k := FirstTrue(branches[1..]);
      assert forall i :: 0 < i < k + 1 ==> branches[i] == branches[1..][i - 1];
      if k < |branches| - 1 { assert branches[k + 1] == branches[1..][k]; }
    }
  }

  lemma {:induction false} ChainTailRuns<W>(cfg: Config<W>, branches: seq<Branch>, last: Tail, p: Progress<W>)
    requires SafeBranches(branches) && p.stopped.None?
    ensures var k := FirstTrue(branches); var q := Logged(p, TestedUpTo(branches));
      k <= |branches| &&
      EvalTail(cfg, ChainTail(branches, last), p)
      == if k < |branches| then Eval(cfg, branches[k].body, q) else EvalTail(cfg, last, q)
  {
    hide Logged, Verdict, Holds, SafeCondition;
    FirstTrueIs(branches);
    if branches == [] {
      LoggedNothing(p);
    } else {
      var st := branches[0].st;
      assert branches[0] in branches && forall b <- branches[1..] :: b in branches;
      SafeVerdict(cfg.host.platform, p.state.memory, st.cond);
      TryTests(cfg, st, p);
      LoggedTwice(p, [Tested(st)], if branches[1..] == [] then [] else TestedUpTo(branches[1..]));
      if !Holds(st.cond) { ChainTailRuns(cfg, branches[1..], last, Logged(p, [Tested(st)])); }
    }
  }

  lemma LoggedNothing<W>(p: Progress<W>)
    ensures Logged(p, []) == p
  {
    assert p.state.log + [] == p.state.log;
  }

  /** IF, any number of ELSE IF, perhaps an ELSE: the conditions are tested in order up to the first that
      holds, that branch runs, and no other; if none holds the ELSE runs, or nothing. */
  lemma FirstTrueBranchRuns<W>(cfg: Config<W>, branches: seq<Branch>, last: Tail, p: Progress<W>)
    requires branches != [] && SafeBranches(branches) && p.stopped.None? && !last.Elif?
    ensures var k := FirstTrue(branches); var q := Logged(p, TestedUpTo(branches));
      k <= |branches| &&
      Eval(cfg, Cond(branches[0].st, branches[0].body, ChainTail(branches[1..], last), Nil), p)
      == if k < |branches| then Eval(cfg, branches[k].body, q)
         else if last.Otherwise? then Eval(cfg, last.body, q) else q
  {
    FirstTrueIs(branches);
    var st, body, tail := branches[0].st, branches[0].body, ChainTail(branches[1..], last);
    assert branches[0] in branches && forall b <- branches[1..] :: b in branches;
    SafeVerdict(cfg.host.platform, p.state.memory, st.cond);
    var tested := Logged(p, [Tested(st)]);
    hide Verdict, Holds, Logged;
    assert Try(cfg, st, p) == (tested, Holds(st.cond)) by { TryTests(cfg, st, p); }
    NilEval(cfg, if Holds(st.cond) then Eval(cfg, body, tested) else EvalTail(cfg, tail, tested));
    if !Holds(st.cond) {
      ChainTailRuns(cfg, branches[1..], last, tested);
      LoggedTwice(p, [Tested(st)], TestedUpTo(branches[1..]));
    }
  }

  lemma TryTests<W>(cfg: Config<W>, st: Statement, p: Progress<W>)
    requires Verdict(cfg.host.platform, p.state.memory, st.cond).Ok?
    ensures Try(cfg, st, p) == (Logged(p, [Tested(st)]), Verdict(cfg.host.platform, p.state.memory, st.cond).value)
  {
  }

  lemma NilEval<W>(cfg: Config<W>, p: Progress<W>)
    ensures Eval(cfg, Nil, p) == p
  {
  }

  lemma LoggedTwice<W>(p: Progress<W>, a: seq<Event>, b: seq<Event>)
    ensures Logged(Logged(p, a), b) == Logged(p, a + b)
    ensures Logged(p, a).stopped == p.stopped
  {
    assert p.state.log + a + b == p.state.log + (a + b);
  }

  /** The flat run of `IF a == b BEGIN body ELSE BEGIN other END`: the test is logged, then the one branch
      runs as it would alone. */
  lemma IfElseRuns<W>(cfg: Config<W>, head: Statement, body: Block, else_: Statement, other: Block, end: Statement,
                      s: State<W>, a: string, b: string)
    requires !cfg.keepGoing && head.control.If? && else_.control.Else? && end.control.End?
    requires Shaped(body) && Shaped(other) && head.cond == [a, "==", b] && NoReference([a, b])
    ensures var tested := s.(log := s.log + [Tested(head)]);
      RunFlat(cfg, [head] + (Flatten(body) + ([else_] + (Flatten(other) + [end]))), [], Start(s)).0
      == RunFlat(cfg, if a == b then Flatten(body) else Flatten(other), [], Start(tested)).0
  {
    var tested := s.(log := s.log + [Tested(head)]);
    var tree := Cond(head, body, Otherwise(else_, other, end), Nil);
    EqualityVerdict(cfg.host.platform, s.memory, a, b);
    hide Verdict, RunFlat;
    RunMeansTree(cfg, tree, s);
    RunMeansTree(cfg, body, tested);
    RunMeansTree(cfg, other, tested);
    var x, y := Flatten(body), [else_] + (Flatten(other) + [end]);
    assert Flatten(tree) == [head] + (x + (y + []));
    assert y + [] == y;
    TryTests(cfg, head, Start(s));
    NilEval(cfg, Eval(cfg, if a == b then body else other, Start(tested)));
  }

  // ----- what the host is asked -----

  /** A request to the host. */
  datatype Ask = RunIt(argv: seq<string>) | CaptureIt(argv: seq<string>) | ReadIt

  /** The host notes what it is asked. */
  ghost predicate Recording(host: Host<seq<Ask>>) {
    (forall w, argv :: host.run(w, argv).0 == w + [RunIt(argv)]) &&
    (forall w, argv :: host.capture(w, argv).0 == w + [CaptureIt(argv)]) &&
    forall w :: host.readLine(w).0 == w + [ReadIt]
  }

  /** Statements of the recipe language itself, and those that a recipe must not contain. */
  predicate Internal(argv: seq<string>) {
    argv == [] || argv[0] in {"recipe", "func", "echo", "sleep", "var", "require", "assert", "read", "set"} ||
    (|argv| >= 2 && argv[0] == "market" && argv[1] == "install")
  }

  /** What one statement asks for: a line for `func read`, nothing for other internal statements, and for
      any other the command itself. */
  function AskOf(capture: string, argv: seq<string>): seq<Ask> {
    if |argv| >= 2 && argv[0] == "func" && argv[1] == "read" then [ReadIt]
    else if Internal(argv) then []
    else if capture != "" then [CaptureIt(argv)]
    else [RunIt(argv)]
  }

  lemma Asks(host: Host<seq<Ask>>, capture: string, argv: seq<string>, s: State<seq<Ask>>)
    requires Recording(host)
    ensures Exec(host, capture, argv, s).0.world == s.world + AskOf(capture, argv)
  {
    hide Require, IsVarName, TrimSpace, Join;
    assert s.world + [] == s.world;
  }

  /** Only commands from outside the language are ever run. */
  predicate External(asks: seq<Ask>) { forall a <- asks :: !a.ReadIt? ==> !Internal(a.argv) }

  lemma ExternalMore(w: seq<Ask>, more: seq<Ask>)
    requires External(w) && External(more)
    ensures External(w + more)
  {
    assert forall a <- w + more :: a in w || a in more;
  }

  lemma OneTurnAsks(cfg: Config<seq<Ask>>, st: Statement, stack: seq<CondFrame>, p: Progress<seq<Ask>>)
    requires Recording(cfg.host) && External(p.state.world)
    ensures External(RunOne(cfg, st, stack, p).0.state.world)
  {
    hide Exec, ExpandArgv, Verdict, WithForce;
    if st.control.Command? && CondActive(stack) {
      var argv := ExpandArgv(cfg.host.platform, p.state.memory, st.argv);
      if argv.Ok? {
        var words := WithForce(cfg.force, argv.value);
        var s := p.state.(log := p.state.log + [Ran(st, words)]);
        Asks(cfg.host, st.capture, words, s);
        ExternalAsk(st.capture, words);
        ExternalMore(s.world, AskOf(st.capture, words));
      }
    }
  }

  lemma ExternalAsk(capture: string, argv: seq<string>)
    ensures External(AskOf(capture, argv))
  {
  }

  /** Over every run: no recipe makes the host run another recipe or a market install, or hands it a
      statement of the language. */
  lemma {:induction false} HostSeesExternalOnly(cfg: Config<seq<Ask>>, stmts: seq<Statement>, stack: seq<CondFrame>,
                                                p: Progress<seq<Ask>>)
    requires Recording(cfg.host) && External(p.state.world)
    ensures External(RunFlat(cfg, stmts, stack, p).0.state.world)
    decreases stmts
  {
    hide RunOne;
    if stmts != [] && p.stopped.None? {
      OneTurnAsks(cfg, stmts[0], stack, p);
      var (q, next) := RunOne(cfg, stmts[0], stack, p);
      HostSeesExternalOnly(cfg, stmts[1..], next, q);
    }
  }

  // ----- what statements report and leave behind -----

  /** A command succeeds exactly when the host says so, and leaves memory alone. */
  lemma CommandReports<W>(host: Host<W>, argv: seq<string>, s: State<W>)
    requires !Internal(argv)
    ensures Exec(host, "", argv, s)
         == (s.(world := host.run(s.world, argv).0), if host.run(s.world, argv).1 then None else Some(CommandFailed))
  {
  }

  /** A captured command's output can be read back: blank as nothing, JSON as its value; anything else, or
      a failed command, is an error and sets nothing. */
  lemma CaptureReadsBack<W>(host: Host<W>, name: string, argv: seq<string>, s: State<W>)
    requires !Internal(argv) && IsVarName(name) && name != "env"
    ensures var (t, error) := Exec(host, name, argv, s); var (world, output) := host.capture(s.world, argv);
      t.world == world &&
      match output
      case None => error == Some(CommandFailed) && t.memory == s.memory
      case Some(raw) =>
        if forall c <- raw :: IsSpace(c) then
          error.None? && EvalPath(host.platform, t.memory, name) == Ok(Null)
        else
          match host.parseJson(TrimSpace(raw))
          case None => error == Some(NotJson) && t.memory == s.memory
          case Some(v) => error.None? && EvalPath(host.platform, t.memory, name) == Ok(v)
  {
    hide EvalPath, TrimSpace;
    var (t, error) := Exec(host, name, argv, s);
    NameSelects(host.platform, t.memory, name);
    var output := host.capture(s.world, argv).1;
    if output.Some? { BlankIff(output.value); }
  }

  lemma BlankIff(s: string)
    ensures TrimSpace(s) == "" <==> AllSpaces(s)
  {
    if AllSpaces(s) {
      TrimSpaceIs(s, "", "");
      assert s + "" + "" == s;
    } else {
      SomethingLeft(s);
    }
  }

  lemma {:induction false} SomethingLeft(s: string)
    requires !AllSpaces(s)
    ensures TrimLeft(s) != "" && !IsSpace(TrimLeft(s)[0]) && TrimSpace(s) != ""
  {
    if IsSpace(s[0]) {
      assert s == [s[0]] + s[1..];
      SomethingLeft(s[1..]);
    } else {
      KeepsFirst(s);
    }
  }

  lemma {:induction false} KeepsFirst(s: string)
    requires s != "" && !IsSpace(s[0])
    ensures TrimRight(s) != ""
  {
    if IsSpace(s[|s| - 1]) { KeepsFirst(s[..|s| - 1]); }
  }

  /** `name := func read` leaves the line in the variable; without a name the line is dropped. */
  lemma LineReadsBack<W>(host: Host<W>, name: string, argv: seq<string>, s: State<W>)
    requires |argv| >= 2 && argv[0] == "func" && argv[1] == "read" && (name == "" || (IsVarName(name) && name != "env"))
    ensures var (t, error) := Exec(host, name, argv, s); var (world, line) := host.readLine(s.world);
      t.world == world &&
      match line
      case None => error == Some(ReadFailed) && t.memory == s.memory
      case Some(text) =>
        error.None? &&
        if name == "" then t.memory == s.memory else EvalPath(host.platform, t.memory, name) == Ok(Str(text))
  {
    hide EvalPath;
    if name != "" { NameSelects(host.platform, Exec(host, name, argv, s).0.memory, name); }
  }

  /** The statements that change nothing, and what they report. */
  lemma QuietStatements<W>(host: Host<W>, capture: string, argv: seq<string>, s: State<W>)
    requires argv != [] && argv[0] !in {"func", "var"} && Internal(argv)
    ensures Exec(host, capture, argv, s).0 == s
    ensures var error := Exec(host, capture, argv, s).1;
      match argv[0]
      case "recipe" => error == Some(RecipeBlocked(if |argv| >= 2 then argv[1] else ""))
      case "market" => error == Some(InstallBlocked)
      case "read" => error == Some(ReadIsAFunction)
      case "set" => error == Some(SetWasRenamed)
      case _ =>
        if capture != "" then error == Some(CannotCapture(argv[0]))
        else
          (argv[0] == "echo" ==> error.None?) &&
          (argv[0] == "sleep" && |argv| != 2 ==> error == Some(SleepArity(|argv|))) &&
          (argv[0] == "sleep" && |argv| == 2 ==>
            error == if host.isDuration(argv[1]) then None else Some(SleepDuration(argv[1]))) &&
          (argv[0] in {"require", "assert"} ==> error == Require(argv))
  {
    hide Require;
  }

  /** The malformed forms of `var` and `func`. */
  lemma MalformedStatements<W>(host: Host<W>, capture: string, argv: seq<string>, s: State<W>)
    ensures argv == ["func"] ==> Exec(host, capture, argv, s) == (s, Some(FuncWithoutName))
    ensures |argv| >= 2 && argv[0] == "func" && argv[1] != "read" ==>
      Exec(host, capture, argv, s) == (s, Some(NotAFunction(argv[1])))
    ensures argv != [] && argv[0] == "var" && capture != "" ==>
      Exec(host, capture, argv, s) == (s, Some(CannotCapture("var")))
    ensures argv != [] && argv[0] == "var" && capture == "" && |argv| < 4 ==>
      Exec(host, capture, argv, s) == (s, Some(VarArity(|argv|)))
    ensures |argv| >= 4 && argv[0] == "var" && capture == "" && !IsVarName(argv[1]) ==>
      Exec(host, capture, argv, s) == (s, Some(VarName(argv[1])))
    ensures |argv| >= 4 && argv[0] == "var" && capture == "" && IsVarName(argv[1]) && argv[2] != "=" ==>
      Exec(host, capture, argv, s) == (s, Some(VarEquals(argv[2])))
    ensures argv == [] ==> Exec(host, capture, argv, s) == (s, Some(EmptyStatement))
  {
    hide IsVarName;
  }

  /** `-force` goes to the end of a pull of an app, skill or model that does not have it yet, and nowhere
      else. */
  lemma ForceAdded(noun: string, rest: seq<string>, argv: seq<string>)
    ensures noun in {"app", "skill", "model"} && "-force" !in rest && "--force" !in rest ==>
      WithForce(true, [noun, "pull"] + rest) == [noun, "pull"] + rest + ["-force"]
    ensures "-force" in argv || "--force" in argv ==> WithForce(true, argv) == argv
    ensures |argv| < 2 || argv[1] != "pull" || argv[0] !in {"app", "skill", "model"} ==>
      WithForce(true, argv) == argv
    ensures WithForce(false, argv) == argv
  {
  }

  // ----- where errors come from -----

  /** The error names the line and the file of the statement; where the statement records no file, a
      failing command names the recipe. */
  predicate NamesStatement(path: string, e: RunError, stmts: seq<Statement>) {
    exists st <- stmts ::
      e.line == st.line && e.src == if st.src == "" && (e.BadArguments? || e.Failed?) then path else st.src
  }

  predicate AllNamed<W>(path: string, p: Progress<W>, stmts: seq<Statement>) {
    (forall e <- p.failures :: NamesStatement(path, e, stmts)) &&
    (p.stopped.Some? ==> NamesStatement(path, p.stopped.value, stmts))
  }

  lemma OneTurnNames<W>(cfg: Config<W>, st: Statement, stack: seq<CondFrame>, p: Progress<W>, stmts: seq<Statement>)
    requires AllNamed(cfg.path, p, stmts) && st in stmts && p.stopped.None?
    ensures AllNamed(cfg.path, RunOne(cfg, st, stack, p).0, stmts)
  {
    hide Exec, ExpandArgv, Verdict, WithForce;
  }

  /** Every error of every run is reported at a statement of the recipe. */
  lemma {:induction false} ErrorsNameStatements<W>(cfg: Config<W>, stmts: seq<Statement>, more: seq<Statement>,
                                                   stack: seq<CondFrame>, p: Progress<W>)
    requires AllNamed(cfg.path, p, stmts) && forall st <- more :: st in stmts
    ensures AllNamed(cfg.path, RunFlat(cfg, more, stack, p).0, stmts)
    decreases more
  {
    hide RunOne, AllNamed;
    if more != [] && p.stopped.None? {
      assert more[0] in more && forall st <- more[1..] :: st in more;
      OneTurnNames(cfg, more[0], stack, p, stmts);
      var (q, next) := RunOne(cfg, more[0], stack, p);
      ErrorsNameStatements(cfg, stmts, more[1..], next, q);
    }
  }

  // ----- commands in order -----

  /** The host's verdict on a command depends on the command alone. */
  ghost predicate Judges(host: Host<seq<Ask>>, good: seq<string> -> bool) {
    forall w, argv :: host.run(w, argv).1 == good(argv)
  }

  /** The statement is a plain command of the host. */
  predicate PlainCommand(st: Statement) {
    st.control.Command? && st.capture == "" && NoReference(st.argv) && !Internal(st.argv)
  }

  /** The commands up to the first bad one, which is the last. */
  function Attempted(stmts: seq<Statement>, good: seq<string> -> bool): seq<Ask> {
    if stmts == [] then []
    else if !good(stmts[0].argv) then [RunIt(stmts[0].argv)]
    else [RunIt(stmts[0].argv)] + Attempted(stmts[1..], good)
  }

  function AllAsks(stmts: seq<Statement>): seq<Ask> {
    seq(|stmts|, i requires 0 <= i < |stmts| => RunIt(stmts[i].argv))
  }

  lemma PlainTurn(cfg: Config<seq<Ask>>, good: seq<string> -> bool, st: Statement, p: Progress<seq<Ask>>)
    requires Recording(cfg.host) && Judges(cfg.host, good) && !cfg.force && p.stopped.None? && PlainCommand(st)
    ensures var (q, stack) := RunOne(cfg, st, [], p);
      stack == [] && q.state.world == p.state.world + [RunIt(st.argv)] && q.state.memory == p.state.memory &&
      var error := Failed(Source(cfg.path, st), st.line, "", st.argv, CommandFailed);
      (good(st.argv) ==> q.stopped.None? && q.failures == p.failures) &&
      (!good(st.argv) && cfg.keepGoing ==> q.stopped.None? && q.failures == p.failures + [error]) &&
      (!good(st.argv) && !cfg.keepGoing ==> q.stopped == Some(error) && q.failures == p.failures)
  {
    PlainArgv(cfg.host.platform, p.state.memory, st.argv);
    CommandReports(cfg.host, st.argv, p.state.(log := p.state.log + [Ran(st, st.argv)]));
    hide Exec, ExpandArgv, Internal;
  }

  /** A recipe of plain commands runs them in order, each once: all of them with keep-going, and otherwise
      up to the first that fails. */
  lemma {:induction false} CommandsRunInOrder(cfg: Config<seq<Ask>>, good: seq<string> -> bool, stmts: seq<Statement>,
                                              p: Progress<seq<Ask>>)
    requires Recording(cfg.host) && Judges(cfg.host, good) && !cfg.force && p.stopped.None?
    requires forall st <- stmts :: PlainCommand(st)
    ensures var q := RunFlat(cfg, stmts, [], p).0;
      q.state.world == p.state.world + (if cfg.keepGoing then AllAsks(stmts) else Attempted(stmts, good)) &&
      (q.stopped.Some? <==> !cfg.keepGoing && exists st <- stmts :: !good(st.argv))
    decreases stmts
  {
    hide RunOne, PlainCommand, AllAsks, Judges, Recording;
    AllAsksCons(stmts);
    if stmts == [] {
      assert p.state.world + [] == p.state.world;
    } else {
      var first, rest := stmts[0], stmts[1..];
      assert first in stmts && forall st <- rest :: st in stmts;
      PlainTurn(cfg, good, first, p);
      var (q, stack) := RunOne(cfg, first, [], p);
      SomeBad(stmts, good);
      if q.stopped.None? {
        CommandsRunInOrder(cfg, good, rest, q);
        var more := if cfg.keepGoing then AllAsks(rest) else Attempted(rest, good);
        assert p.state.world + [RunIt(first.argv)] + more == p.state.world + ([RunIt(first.argv)] + more);
      }
    }
  }

  lemma AllAsksCons(stmts: seq<Statement>)
    ensures stmts == [] ==> AllAsks(stmts) == []
    ensures stmts != [] ==> AllAsks(stmts) == [RunIt(stmts[0].argv)] + AllAsks(stmts[1..])
  {
  }

  lemma SomeBad(stmts: seq<Statement>, good: seq<string> -> bool)
    requires stmts != []
    ensures (exists st <- stmts :: !good(st.argv)) <==>
      !good(stmts[0].argv) || exists st <- stmts[1..] :: !good(st.argv)
  {
    assert stmts == [stmts[0]] + stmts[1..];
  }
}
