/** What a recipe means: a recursive evaluator over its block tree, and the proof that the flat
    interpreter with its branch stack computes the same thing. */
module RecipeMeaning {
  import opened Text
  import opened RecipeSyntax
  import opened RecipeExpand
  import opened RecipeRuntime
  import opened RecipeControlFlow

  // ----- the tree evaluator -----

  /** Evaluates one condition; a failing one is recorded and counts as not taken. */
  function Try<W>(cfg: Config<W>, st: Statement, p: Progress<W>): (Progress<W>, bool) {
    var (s, verdict) := Test(cfg.host.platform, st, p.state);
    match verdict
    case Err(e) => (Record(cfg, p, s, Some(e)), false)
    case Ok(b) => (p.(state := s), b)
  }

  predicate Broken<W>(cfg: Config<W>, st: Statement, p: Progress<W>) {
    Verdict(cfg.host.platform, p.state.memory, st.cond).Err?
  }

  /** Commands run in order; a conditional runs its first branch whose condition holds, or its ELSE.
      A conditional whose IF condition fails to evaluate is skipped as a whole. */
  function Eval<W>(cfg: Config<W>, b: Block, p: Progress<W>): Progress<W>
    decreases b
  {
    if p.stopped.Some? then p
    else
      match b
      case Nil => p
      case Cmd(st, rest) =>
        var (s, error) := RunCommand(cfg, st, p.state);
        Eval(cfg, rest, Record(cfg, p, s, error))
      case Cond(head, body, tail, rest) =>
        var (q, taken) := Try(cfg, head, p);
        var r := if taken then Eval(cfg, body, q) else if Broken(cfg, head, p) then q else EvalTail(cfg, tail, q);
        Eval(cfg, rest, r)
  }

  function EvalTail<W>(cfg: Config<W>, t: Tail, p: Progress<W>): Progress<W>
    decreases t
  {
    if p.stopped.Some? then p
    else
      match t
      case Elif(st, body, tail) =>
        var (q, taken) := Try(cfg, st, p);
        if taken then Eval(cfg, body, q) else EvalTail(cfg, tail, q)
      case Otherwise(_, body, _) => Eval(cfg, body, p)
      case Done(_) => p
  }

  predicate IsIfError(e: RunError) { e.BadCondition? && e.control.If? }

  /** No IF condition failed to evaluate (conditions of ELSE IF may have). */
  predicate IfConditionsSound<W>(p: Progress<W>) { forall e <- p.failures :: !IsIfError(e) }

  predicate NothingDangling<W>(p: Progress<W>) {
    (forall e <- p.failures :: !e.Dangling?) && (p.stopped.Some? ==> !p.stopped.value.Dangling?)
  }

  // ----- what evaluation keeps -----

  /** Evaluation only adds failures, and none of them is a dangling marker. */
  lemma {:induction false} EvalGrows<W>(cfg: Config<W>, b: Block, p: Progress<W>)
    requires Shaped(b)
    ensures p.failures <= Eval(cfg, b, p).failures
    ensures NothingDangling(p) ==> NothingDangling(Eval(cfg, b, p))
    decreases b
  {
    if p.stopped.None? {
      match b
      case Nil =>
      case Cmd(st, rest) =>
        var (s, error) := RunCommand(cfg, st, p.state);
        EvalGrows(cfg, rest, Record(cfg, p, s, error));
      case Cond(head, body, tail, rest) =>
        var (q, taken) := Try(cfg, head, p);
        if taken { EvalGrows(cfg, body, q); } else if !Broken(cfg, head, p) { TailGrows(cfg, tail, q); }
        var r := if taken then Eval(cfg, body, q) else if Broken(cfg, head, p) then q else EvalTail(cfg, tail, q);
        EvalGrows(cfg, rest, r);
    }
  }

  lemma {:induction false} TailGrows<W>(cfg: Config<W>, t: Tail, p: Progress<W>)
    requires ShapedTail(t)
    ensures p.failures <= EvalTail(cfg, t, p).failures
    ensures NothingDangling(p) ==> NothingDangling(EvalTail(cfg, t, p))
    decreases t
  {
    if p.stopped.None? {
      match t
      case Elif(st, body, tail) =>
        var (q, taken) := Try(cfg, st, p);
        if taken { EvalGrows(cfg, body, q); } else { TailGrows(cfg, tail, q); }
      case Otherwise(_, body, _) => EvalGrows(cfg, body, p);
      case Done(_) =>
    }
  }

  // ----- skipped branches -----

  /** One turn of the loop. */
  lemma Turn<W>(cfg: Config<W>, st: Statement, rest: seq<Statement>, stack: seq<CondFrame>, p: Progress<W>)
    requires p.stopped.None?
    ensures var (q, next) := RunOne(cfg, st, stack, p);
      RunFlat(cfg, [st] + rest, stack, p) == RunFlat(cfg, rest, next, q)
  {
    assert ([st] + rest)[1..] == rest;
  }

  /** A frame none of whose remaining branches can be taken. */
  predicate Settled(f: CondFrame) { f.anyMatched || !f.enclosingActive }

  /** A block in an inactive branch changes nothing, evaluates nothing and leaves the stack alone. */
  lemma {:induction false} SkipBlock<W>(cfg: Config<W>, b: Block, rest: seq<Statement>, stack: seq<CondFrame>,
                                        p: Progress<W>)
    requires Shaped(b) && !CondActive(stack) && p.stopped.None?
    ensures RunFlat(cfg, Flatten(b) + rest, stack, p) == RunFlat(cfg, rest, stack, p)
    decreases b
  {
    match b
    case Nil => assert Flatten(b) + rest == rest;
    case Cmd(st, more) =>
      Assoc([st], Flatten(more), rest);
      Turn(cfg, st, Flatten(more) + rest, stack, p);
      SkipBlock(cfg, more, rest, stack, p);
    case Cond(head, body, tail, more) =>
      var f := CondFrame(false, false, false);
      var afterTail := Flatten(more) + rest;
      var afterBody := FlattenTail(tail) + afterTail;
      BlockParts(head, body, tail, more, rest);
      Turn(cfg, head, Flatten(body) + afterBody, stack, p);
      assert RunOne(cfg, head, stack, p) == (p, stack + [f]);
      SkipBlock(cfg, body, afterBody, stack + [f], p);
      SkipTail(cfg, tail, afterTail, stack, f, p);
      SkipBlock(cfg, more, rest, stack, p);
  }

  lemma BlockParts(head: Statement, body: Block, tail: Tail, more: Block, rest: seq<Statement>)
    ensures Flatten(Cond(head, body, tail, more)) + rest
         == [head] + (Flatten(body) + (FlattenTail(tail) + (Flatten(more) + rest)))
  {
    Assoc([head], Flatten(body) + (FlattenTail(tail) + Flatten(more)), rest);
    Regroup(Flatten(body), FlattenTail(tail), Flatten(more), rest);
  }

  lemma {:induction false} SkipTail<W>(cfg: Config<W>, t: Tail, rest: seq<Statement>, stack: seq<CondFrame>,
                                       f: CondFrame, p: Progress<W>)
    requires ShapedTail(t) && Settled(f) && p.stopped.None?
    ensures RunFlat(cfg, FlattenTail(t) + rest, stack + [f], p) == RunFlat(cfg, rest, stack, p)
    decreases t
  {
    var off := f.(branchActive := false);
    assert SetTop(stack + [f], off) == stack + [off];
    match t
    case Elif(st, body, tail) =>
      var afterBody := FlattenTail(tail) + rest;
      Regroup([st], Flatten(body), FlattenTail(tail), rest);
      assert FlattenTail(t) + rest == [st] + (Flatten(body) + afterBody);
      Turn(cfg, st, Flatten(body) + afterBody, stack + [f], p);
      SkipBlock(cfg, body, afterBody, stack + [off], p);
      SkipTail(cfg, tail, rest, stack, off, p);
    case Otherwise(st, body, end) =>
      assert FlattenTail(t) + rest == [st] + (Flatten(body) + ([end] + rest));
      Turn(cfg, st, Flatten(body) + ([end] + rest), stack + [f], p);
      SkipBlock(cfg, body, [end] + rest, stack + [off], p);
      EndTurn(cfg, end, rest, stack, off, p);
    case Done(end) =>
      EndTurn(cfg, end, rest, stack, f, p);
  }

  lemma EndTurn<W>(cfg: Config<W>, end: Statement, rest: seq<Statement>, stack: seq<CondFrame>, f: CondFrame,
                   p: Progress<W>)
    requires end.control.End? && p.stopped.None?
    ensures RunFlat(cfg, [end] + rest, stack + [f], p) == RunFlat(cfg, rest, stack, p)
  {
    Turn(cfg, end, rest, stack + [f], p);
    assert (stack + [f])[..|stack|] == stack;
  }

  // ----- taken branches -----

  /** The flat run over `stmts` continues after reaching `q`, or has stopped with it. */
  ghost predicate Continues<W>(cfg: Config<W>, stmts: seq<Statement>, stack: seq<CondFrame>, p: Progress<W>,
                         rest: seq<Statement>, after: seq<CondFrame>, q: Progress<W>) {
    if q.stopped.None? then RunFlat(cfg, stmts, stack, p) == RunFlat(cfg, rest, after, q)
    else RunFlat(cfg, stmts, stack, p).0 == q
  }

  lemma {:induction false} RunBlock<W>(cfg: Config<W>, b: Block, rest: seq<Statement>, stack: seq<CondFrame>,
                                       p: Progress<W>)
    requires Shaped(b) && CondActive(stack) && p.stopped.None?
    requires cfg.keepGoing ==> IfConditionsSound(Eval(cfg, b, p))
    ensures Continues(cfg, Flatten(b) + rest, stack, p, rest, stack, Eval(cfg, b, p))
    decreases b
  {
    match b
    case Nil => assert Flatten(b) + rest == rest;
    case Cmd(st, more) =>
      Assoc([st], Flatten(more), rest);
      Turn(cfg, st, Flatten(more) + rest, stack, p);
      var (s, error) := RunCommand(cfg, st, p.state);
      var q := Record(cfg, p, s, error);
      if q.stopped.None? { RunBlock(cfg, more, rest, stack, q); }
    case Cond(head, body, tail, more) => RunCond(cfg, b, rest, stack, p);
  }

  lemma {:induction false} RunCond<W>(cfg: Config<W>, b: Block, rest: seq<Statement>, stack: seq<CondFrame>,
                                      p: Progress<W>)
    requires Shaped(b) && b.Cond? && CondActive(stack) && p.stopped.None?
    requires cfg.keepGoing ==> IfConditionsSound(Eval(cfg, b, p))
    ensures Continues(cfg, Flatten(b) + rest, stack, p, rest, stack, Eval(cfg, b, p))
    decreases b, 0
  {
    hide RunFlat;
    var Cond(head, body, tail, more) := b;
    var afterTail := Flatten(more) + rest;
    var afterBody := FlattenTail(tail) + afterTail;
    BlockParts(head, body, tail, more, rest);
    Turn(cfg, head, Flatten(body) + afterBody, stack, p);
    var (q, taken) := Try(cfg, head, p);
    var r := if taken then Eval(cfg, body, q) else if Broken(cfg, head, p) then q else EvalTail(cfg, tail, q);
    EvalGrows(cfg, more, r);
    if Broken(cfg, head, p) {
      BrokenIf(cfg, head, p, more);
      StoppedRun(cfg, Flatten(body) + afterBody, stack, q);
    } else {
      var f := CondFrame(true, taken, taken);
      assert RunOne(cfg, head, stack, p) == (q, stack + [f]);
      if taken {
        RunBlock(cfg, body, afterBody, stack + [f], q);
        if r.stopped.None? { SkipTail(cfg, tail, afterTail, stack, f, r); }
      } else {
        assert RunFlat(cfg, Flatten(body) + afterBody, stack + [f], q) == RunFlat(cfg, afterBody, stack + [f], q) by {
          SkipBlock(cfg, body, afterBody, stack + [f], q);
        }
        RunTail(cfg, tail, afterTail, stack, q);
      }
      if r.stopped.None? { RunBlock(cfg, more, rest, stack, r); }
    }
  }

  /** A run that goes on has no broken IF: keep-going rules it out and otherwise the run stops. */
  lemma BrokenIf<W>(cfg: Config<W>, head: Statement, p: Progress<W>, more: Block)
    requires head.control.If? && Broken(cfg, head, p) && p.stopped.None? && Shaped(more)
    requires cfg.keepGoing ==> IfConditionsSound(Eval(cfg, more, Try(cfg, head, p).0))
    ensures !cfg.keepGoing && Try(cfg, head, p).0.stopped.Some?
    ensures forall stack | CondActive(stack) :: RunOne(cfg, head, stack, p) == (Try(cfg, head, p).0, stack)
  {
    var q := Try(cfg, head, p).0;
    if cfg.keepGoing {
      EvalGrows(cfg, more, q);
      LastIsMember(q.failures, Eval(cfg, more, q).failures);
    }
  }

  lemma LastIsMember(some: seq<RunError>, all: seq<RunError>)
    requires some != [] && some <= all
    ensures some[|some| - 1] in all
  {
    assert all[|some| - 1] == some[|some| - 1];
  }

  lemma StoppedRun<W>(cfg: Config<W>, stmts: seq<Statement>, stack: seq<CondFrame>, q: Progress<W>)
    requires q.stopped.Some?
    ensures RunFlat(cfg, stmts, stack, q).0 == q
  {
  }

  /** The remaining branches of an IF none of whose conditions has held so far. */
  lemma {:induction false} RunTail<W>(cfg: Config<W>, t: Tail, rest: seq<Statement>, stack: seq<CondFrame>,
                                      p: Progress<W>)
    requires ShapedTail(t) && p.stopped.None?
    requires cfg.keepGoing ==> IfConditionsSound(EvalTail(cfg, t, p))
    ensures Continues(cfg, FlattenTail(t) + rest, stack + [CondFrame(true, false, false)], p,
                      rest, stack, EvalTail(cfg, t, p))
    decreases t
  {
    var f := CondFrame(true, false, false);
    match t
    case Elif(st, body, tail) => RunElif(cfg, t, rest, stack, p);
    case Otherwise(st, body, end) =>
      var on := CondFrame(true, true, true);
      assert SetTop(stack + [f], on) == stack + [on];
      assert FlattenTail(t) + rest == [st] + (Flatten(body) + ([end] + rest));
      Turn(cfg, st, Flatten(body) + ([end] + rest), stack + [f], p);
      RunBlock(cfg, body, [end] + rest, stack + [on], p);
      var r := Eval(cfg, body, p);
      if r.stopped.None? { EndTurn(cfg, end, rest, stack, on, r); }
    case Done(end) => EndTurn(cfg, end, rest, stack, f, p);
  }

  lemma {:induction false} RunElif<W>(cfg: Config<W>, t: Tail, rest: seq<Statement>, stack: seq<CondFrame>,
                                      p: Progress<W>)
    requires ShapedTail(t) && t.Elif? && p.stopped.None?
    requires cfg.keepGoing ==> IfConditionsSound(EvalTail(cfg, t, p))
    ensures Continues(cfg, FlattenTail(t) + rest, stack + [CondFrame(true, false, false)], p,
                      rest, stack, EvalTail(cfg, t, p))
    decreases t, 0
  {
    hide RunFlat;
    var Elif(st, body, tail) := t;
    var f, on := CondFrame(true, false, false), CondFrame(true, true, true);
    assert SetTop(stack + [f], f) == stack + [f] && SetTop(stack + [f], on) == stack + [on];
    var afterBody := FlattenTail(tail) + rest;
    Regroup([st], Flatten(body), FlattenTail(tail), rest);
    assert FlattenTail(t) + rest == [st] + (Flatten(body) + afterBody);
    Turn(cfg, st, Flatten(body) + afterBody, stack + [f], p);
    var (q, taken) := Try(cfg, st, p);
    if taken {
      assert RunOne(cfg, st, stack + [f], p) == (q, stack + [on]);
      RunBlock(cfg, body, afterBody, stack + [on], q);
      var r := Eval(cfg, body, q);
      if r.stopped.None? { SkipTail(cfg, tail, rest, stack, on, r); }
    } else {
      assert RunOne(cfg, st, stack + [f], p) == (q, stack + [f]);
      if q.stopped.Some? {
        StoppedRun(cfg, Flatten(body) + afterBody, stack + [f], q);
      } else {
        SkipBlock(cfg, body, afterBody, stack + [f], q);
        RunTail(cfg, tail, rest, stack, q);
      }
    }
  }

  // ----- the theorems -----

  /** Without keep-going the flat run of a recipe is the evaluation of its tree: same commands in the
      same order, same conditions evaluated, same memory, same first error; a run that is not stopped
      ends with no open frame, and no marker is ever found without its IF. */
  lemma RunMeansTree<W>(cfg: Config<W>, b: Block, s: State<W>)
    requires Shaped(b) && !cfg.keepGoing
    ensures RunFlat(cfg, Flatten(b), [], Start(s)).0 == Eval(cfg, b, Start(s))
    ensures Eval(cfg, b, Start(s)).stopped.None? ==> RunFlat(cfg, Flatten(b), [], Start(s)).1 == []
    ensures NothingDangling(RunFlat(cfg, Flatten(b), [], Start(s)).0)
  {
    assert Flatten(b) + [] == Flatten(b);
    RunBlock(cfg, b, [], [], Start(s));
    EvalGrows(cfg, b, Start(s));
  }

  function IfErrors(errors: seq<RunError>): nat {
    if errors == [] then 0 else IfErrors(errors[..|errors| - 1]) + (if IsIfError(errors[|errors| - 1]) then 1 else 0)
  }

  predicate IsDanglingEnd(e: RunError) { e.Dangling? && e.control.End? }

  function DanglingEnds(errors: seq<RunError>): nat {
    if errors == [] then 0
    else DanglingEnds(errors[..|errors| - 1]) + (if IsDanglingEnd(errors[|errors| - 1]) then 1 else 0)
  }

  lemma {:induction false} ErrorsCounted(errors: seq<RunError>)
    ensures IfErrors(errors) > 0 <==> exists e <- errors :: IsIfError(e)
    ensures DanglingEnds(errors) > 0 <==> exists e <- errors :: IsDanglingEnd(e)
  {
    if errors != [] {
      var init, last := errors[..|errors| - 1], errors[|errors| - 1];
      ErrorsCounted(init);
      assert errors == init + [last];
    }
  }

  /** Open frames, plus IFs that failed to open one, minus ENDs that found none: the nesting depth. */
  predicate Balanced<W>(stack: seq<CondFrame>, p: Progress<W>, depth: nat) {
    |stack| + IfErrors(p.failures) == depth + DanglingEnds(p.failures)
  }

  lemma {:induction false} KeepGoingBalance<W>(cfg: Config<W>, stmts: seq<Statement>, stack: seq<CondFrame>,
                                                p: Progress<W>, open: seq<Frame>)
    requires cfg.keepGoing && p.stopped.None? && Scan("", stmts, open) == Ok([]) && Balanced(stack, p, |open|)
    ensures var (q, end) := RunFlat(cfg, stmts, stack, p); q.stopped.None? && Balanced(end, q, 0)
    decreases stmts
  {
    if stmts != [] {
      var (q, next) := RunOne(cfg, stmts[0], stack, p);
      var open' := ScanOne("", stmts[0], open).value;
      OneTurnBalance(cfg, stmts[0], stack, p, open);
      KeepGoingBalance(cfg, stmts[1..], next, q, open');
    }
  }

  /** The errors that decide the balance: an IF that fails to evaluate, and an END that finds no IF. */
  function BadIf(failures: seq<RunError>, before: seq<RunError>): nat {
    if |failures| > |before| && IsIfError(failures[|failures| - 1]) then 1 else 0
  }

  function BadEnd(failures: seq<RunError>, before: seq<RunError>): nat {
    if |failures| > |before| && IsDanglingEnd(failures[|failures| - 1]) then 1 else 0
  }

  /** A turn with keep-going records at most one error. */
  predicate OneMore(failures: seq<RunError>, before: seq<RunError>) {
    failures == before || (failures != [] && failures[..|failures| - 1] == before)
  }

  lemma CountsMove(failures: seq<RunError>, before: seq<RunError>)
    requires OneMore(failures, before)
    ensures IfErrors(failures) == IfErrors(before) + BadIf(failures, before)
    ensures DanglingEnds(failures) == DanglingEnds(before) + BadEnd(failures, before)
  {
  }

  lemma RecordsOne<W>(cfg: Config<W>, p: Progress<W>, s: State<W>, error: Option<RunError>)
    requires cfg.keepGoing && p.stopped.None?
    ensures var q := Record(cfg, p, s, error);
      q.stopped.None? && OneMore(q.failures, p.failures) &&
      BadIf(q.failures, p.failures) == (if error.Some? && IsIfError(error.value) then 1 else 0) &&
      BadEnd(q.failures, p.failures) == (if error.Some? && IsDanglingEnd(error.value) then 1 else 0)
  {
    if error.Some? { assert (p.failures + [error.value])[..|p.failures|] == p.failures; }
  }

  /** What a marker does to the height of the branch stack, with the error it may report. */
  lemma MarkerHeight<W>(cfg: Config<W>, st: Statement, stack: seq<CondFrame>, s: State<W>)
    requires !st.control.Command?
    ensures var (_, next, error) := ApplyControl(cfg.host.platform, st, stack, s);
      |next| + (if error.Some? && IsIfError(error.value) then 1 else 0) + (if st.control.End? then 1 else 0)
      == |stack| + (if error.Some? && IsDanglingEnd(error.value) then 1 else 0) + (if st.control.If? then 1 else 0)
  {
    hide Verdict;
  }

  lemma CommandHeight<W>(cfg: Config<W>, st: Statement, s: State<W>)
    ensures var error := RunCommand(cfg, st, s).1;
      error.Some? ==> !IsIfError(error.value) && !IsDanglingEnd(error.value)
  {
    hide Exec, ExpandArgv;
  }

  lemma ScanHeight(st: Statement, open: seq<Frame>)
    requires ScanOne("", st, open).Ok?
    ensures |ScanOne("", st, open).value| + (if st.control.End? then 1 else 0)
         == |open| + (if st.control.If? then 1 else 0)
  {
  }

  lemma OneTurnBalance<W>(cfg: Config<W>, st: Statement, stack: seq<CondFrame>, p: Progress<W>, open: seq<Frame>)
    requires cfg.keepGoing && p.stopped.None? && ScanOne("", st, open).Ok? && Balanced(stack, p, |open|)
    ensures var (q, next) := RunOne(cfg, st, stack, p);
      q.stopped.None? && Balanced(next, q, |ScanOne("", st, open).value|)
  {
    hide ApplyControl, RunCommand, Record, IfErrors, DanglingEnds, BadIf, BadEnd, IsIfError, IsDanglingEnd, OneMore;
    ScanHeight(st, open);
    var (q, next) := RunOne(cfg, st, stack, p);
    if !st.control.Command? {
      var (s, _, error) := ApplyControl(cfg.host.platform, st, stack, p.state);
      MarkerHeight(cfg, st, stack, p.state);
      RecordsOne(cfg, p, s, error);
      CountsMove(q.failures, p.failures);
    } else if CondActive(stack) {
      var (s, error) := RunCommand(cfg, st, p.state);
      CommandHeight(cfg, st, p.state);
      RecordsOne(cfg, p, s, error);
      CountsMove(q.failures, p.failures);
    }
  }

  /** With keep-going, the flat run is the evaluation of the tree exactly when no IF condition fails
      to evaluate.  If one does, its END finds the wrong frame and some END is reported without IF. */
  lemma KeepGoingMeansTree<W>(cfg: Config<W>, b: Block, s: State<W>)
    requires Shaped(b) && cfg.keepGoing
    ensures RunFlat(cfg, Flatten(b), [], Start(s)).0 == Eval(cfg, b, Start(s))
       <==> IfConditionsSound(Eval(cfg, b, Start(s)))
  {
    var tree, flat := Eval(cfg, b, Start(s)), RunFlat(cfg, Flatten(b), [], Start(s)).0;
    assert Flatten(b) + [] == Flatten(b);
    if IfConditionsSound(tree) {
      RunBlock(cfg, b, [], [], Start(s));
    } else if flat == tree {
      ScanBlock("", b, [], []);
      KeepGoingBalance(cfg, Flatten(b), [], Start(s), []);
      ErrorsCounted(tree.failures);
      EvalGrows(cfg, b, Start(s));
      assert false;
    }
  }

  // ----- conditions that never fail -----

  /** No reference, and one word, or two compared. */
  predicate SafeCondition(cond: seq<string>) {
    (forall w <- cond :: !ContainsReference(w)) &&
    (|cond| == 1 || (|cond| == 3 && (cond[1] == "==" || cond[1] == "!=")))
  }

  lemma {:induction false} PlainArgv(platform: Platform, memory: Memory, argv: seq<string>)
    requires forall w <- argv :: !ContainsReference(w)
    ensures ExpandArgv(platform, memory, argv) == Ok(argv)
  {
    if argv != [] {
      assert argv[0] in argv && forall w <- argv[1..] :: w in argv;
      PlainArgv(platform, memory, argv[1..]);
      assert argv == [argv[0]] + argv[1..];
    }
  }

  /** A condition without references evaluates, in any memory, exactly when it is safe. */
  lemma SafeConditionIff(platform: Platform, memory: Memory, cond: seq<string>)
    requires forall w <- cond :: !ContainsReference(w)
    ensures Verdict(platform, memory, cond).Ok? <==> SafeCondition(cond)
  {
    PlainArgv(platform, memory, cond);
  }

  predicate SafeIfs(stmts: seq<Statement>) { forall st <- stmts :: st.control.If? ==> SafeCondition(st.cond) }

  lemma SafeParts(a: seq<Statement>, b: seq<Statement>)
    ensures SafeIfs(a + b) <==> SafeIfs(a) && SafeIfs(b)
  {
    assert forall st :: st in a + b <==> st in a || st in b;
  }

  lemma SoundRecord<W>(cfg: Config<W>, p: Progress<W>, s: State<W>, error: Option<RunError>)
    requires IfConditionsSound(p) && (error.Some? ==> !IsIfError(error.value))
    ensures IfConditionsSound(Record(cfg, p, s, error))
  {
  }

  lemma {:induction false} SafeEval<W>(cfg: Config<W>, b: Block, p: Progress<W>)
    requires Shaped(b) && SafeIfs(Flatten(b)) && IfConditionsSound(p)
    ensures IfConditionsSound(Eval(cfg, b, p))
    decreases b
  {
    if p.stopped.None? {
      match b
      case Nil =>
      case Cmd(st, rest) =>
        SafeParts([st], Flatten(rest));
        var (s, error) := RunCommand(cfg, st, p.state);
        SoundRecord(cfg, p, s, error);
        SafeEval(cfg, rest, Record(cfg, p, s, error));
      case Cond(head, body, tail, rest) =>
        SafeParts([head], Flatten(body) + (FlattenTail(tail) + Flatten(rest)));
        SafeParts(Flatten(body), FlattenTail(tail) + Flatten(rest));
        SafeParts(FlattenTail(tail), Flatten(rest));
        assert head in [head];
        SafeConditionIff(cfg.host.platform, p.state.memory, head.cond);
        var (q, taken) := Try(cfg, head, p);
        var r := if taken then Eval(cfg, body, q) else EvalTail(cfg, tail, q);
        if taken { SafeEval(cfg, body, q); } else { SafeTail(cfg, tail, q); }
        SafeEval(cfg, rest, r);
    }
  }

  lemma {:induction false} SafeTail<W>(cfg: Config<W>, t: Tail, p: Progress<W>)
    requires ShapedTail(t) && SafeIfs(FlattenTail(t)) && IfConditionsSound(p)
    ensures IfConditionsSound(EvalTail(cfg, t, p))
    decreases t
  {
    if p.stopped.None? {
      match t
      case Elif(st, body, tail) =>
        SafeParts([st], Flatten(body) + FlattenTail(tail));
        SafeParts(Flatten(body), FlattenTail(tail));
        var (q, taken) := Try(cfg, st, p);
        if taken { SafeEval(cfg, body, q); } else { SafeTail(cfg, tail, q); }
      case Otherwise(st, body, end) =>
        SafeParts([st], Flatten(body) + [end]);
        SafeParts(Flatten(body), [end]);
        SafeEval(cfg, body, p);
      case Done(_) =>
    }
  }

  /** What an author can check beforehand: if every IF condition has no reference and is one word or
      compares two, the flat run is the evaluation of the tree, keep-going or not. */
  lemma SafeRecipeMeansTree<W>(cfg: Config<W>, b: Block, s: State<W>)
    requires Shaped(b) && SafeIfs(Flatten(b))
    ensures RunFlat(cfg, Flatten(b), [], Start(s)).0 == Eval(cfg, b, Start(s))
  {
    SafeEval(cfg, b, Start(s));
    if cfg.keepGoing { KeepGoingMeansTree(cfg, b, s); } else { RunMeansTree(cfg, b, s); }
  }

  lemma TwoWords(platform: Platform, memory: Memory)
    ensures Verdict(platform, memory, ["a", "b"]) == Err(CondExpr(BadArity(2)))
  {
    assert "a"[1..] == "" && "b"[1..] == "";
    assert !ContainsReference("a") && !ContainsReference("b");
    PlainArgv(platform, memory, ["a", "b"]);
  }

  lemma NothingLeft<W>(cfg: Config<W>, stack: seq<CondFrame>, q: Progress<W>)
    ensures RunFlat(cfg, [], stack, q) == (q, stack)
  {
  }

  /** The smallest recipe on which keep-going departs from the tree. */
  lemma KeepGoingCounterexample<W>(cfg: Config<W>, s: State<W>)
    requires cfg.keepGoing
    ensures
      var head := Statement(1, [], "", "f", If, ["a", "b"]);
      var end := Statement(2, [], "", "f", End, []);
      var b := Cond(head, Nil, Done(end), Nil);
      var why := BadCondition("f", 1, If, CondExpr(BadArity(2)));
      Shaped(b) && Flatten(b) == [head, end] &&
      Eval(cfg, b, Start(s)).failures == [why] &&
      RunFlat(cfg, Flatten(b), [], Start(s)).0.failures == [why, Dangling("f", 2, End)]
  {
    var head := Statement(1, [], "", "f", If, ["a", "b"]);
    var end := Statement(2, [], "", "f", End, []);
    var b := Cond(head, Nil, Done(end), Nil);
    TwoWords(cfg.host.platform, s.memory);
    hide Verdict, RunFlat;
    var (q, stack) := RunOne(cfg, head, [], Start(s));
    Turn(cfg, head, [end], [], Start(s));
    Turn(cfg, end, [], stack, q);
    NothingLeft(cfg, RunOne(cfg, end, stack, q).1, RunOne(cfg, end, stack, q).0);
    assert [head] + [end] == [head, end] && [end] + [] == [end];
  }
}
