/** Block structure of a flat statement list: the balance check of the parser, the grammar of
    well-formed blocks, and the proof that the check accepts exactly the lists of the grammar. */
module RecipeControlFlow {
  import opened Text
  import opened RecipeSyntax

  // ----- the balance check -----

  /** One open IF: where it started, and whether its ELSE has been seen. */
  datatype Frame = Frame(line: nat, sawElse: bool)

  /** The effect of one statement on the stack of open IFs (the top is the last element). */
  function ScanOne(path: string, st: Statement, stack: seq<Frame>): Result<seq<Frame>, ParseError> {
    var n := |stack|;
    match st.control
    case Command => Ok(stack)
    case If => Ok(stack + [Frame(st.line, false)])
    case ElseIf =>
      if n == 0 then Err(ParseError(path, st.line, OutsideIf(ElseIf)))
      else if stack[n - 1].sawElse then Err(ParseError(path, st.line, AfterElse(ElseIf)))
      else Ok(stack)
    case Else =>
      if n == 0 then Err(ParseError(path, st.line, OutsideIf(Else)))
      else if stack[n - 1].sawElse then Err(ParseError(path, st.line, AfterElse(Else)))
      else Ok(stack[n - 1 := stack[n - 1].(sawElse := true)])
    case End =>
      if n == 0 then Err(ParseError(path, st.line, EndWithoutIf)) else Ok(stack[..n - 1])
  }

  function Scan(path: string, stmts: seq<Statement>, stack: seq<Frame>): Result<seq<Frame>, ParseError> {
    if stmts == [] then Ok(stack)
    else
      match ScanOne(path, stmts[0], stack)
      case Err(e) => Err(e)
      case Ok(next) => Scan(path, stmts[1..], next)
  }

  /** The verdict on a whole list; `None` means accepted. */
  function Check(path: string, stmts: seq<Statement>): Option<ParseError> {
    match Scan(path, stmts, [])
    case Err(e) => Some(e)
    case Ok(stack) =>
      if stack == [] then None else Some(ParseError(path, stack[|stack| - 1].line, NotClosed))
  }

  predicate Accepts(stmts: seq<Statement>) { Check("", stmts).None? }

  // ----- the grammar -----

  /** A block is a list of commands and conditionals; the tail of a conditional is its remaining
      branches up to END.  Each constructor keeps the marker statements it came from. */
  datatype Block =
    | Nil
    | Cmd(st: Statement, rest: Block)
    | Cond(head: Statement, body: Block, tail: Tail, rest: Block)

  datatype Tail =
    | Elif(st: Statement, body: Block, tail: Tail)
    | Otherwise(st: Statement, body: Block, end: Statement)
    | Done(end: Statement)

  /** Every marker sits where its kind belongs. */
  predicate Shaped(b: Block) {
    match b
    case Nil => true
    case Cmd(st, rest) => st.control.Command? && Shaped(rest)
    case Cond(head, body, tail, rest) => head.control.If? && Shaped(body) && ShapedTail(tail) && Shaped(rest)
  }

  predicate ShapedTail(t: Tail) {
    match t
    case Elif(st, body, tail) => st.control.ElseIf? && Shaped(body) && ShapedTail(tail)
    case Otherwise(st, body, end) => st.control.Else? && Shaped(body) && end.control.End?
    case Done(end) => end.control.End?
  }

  /** The list a block stands for. */
  function Flatten(b: Block): seq<Statement> {
    match b
    case Nil => []
    case Cmd(st, rest) => [st] + Flatten(rest)
    case Cond(head, body, tail, rest) => [head] + (Flatten(body) + (FlattenTail(tail) + Flatten(rest)))
  }

  function FlattenTail(t: Tail): seq<Statement> {
    match t
    case Elif(st, body, tail) => [st] + (Flatten(body) + FlattenTail(tail))
    case Otherwise(st, body, end) => [st] + (Flatten(body) + [end])
    case Done(end) => [end]
  }

  /** The list is generated by the block grammar. */
  ghost predicate WellNested(stmts: seq<Statement>) {
    exists b :: Shaped(b) && Flatten(b) == stmts
  }

  // ----- the grammar's lists are accepted -----

  lemma {:induction false} ScanBlock(path: string, b: Block, rest: seq<Statement>, stack: seq<Frame>)
    requires Shaped(b)
    ensures Scan(path, Flatten(b) + rest, stack) == Scan(path, rest, stack)
    decreases b
  {
    match b
    case Nil => assert Flatten(b) + rest == rest;
    case Cmd(st, more) =>
      assert Flatten(b) + rest == [st] + (Flatten(more) + rest);
      ScanBlock(path, more, rest, stack);
    case Cond(head, body, tail, more) =>
      var afterTail := Flatten(more) + rest;
      var afterBody := FlattenTail(tail) + afterTail;
      assert Flatten(b) + rest == [head] + (Flatten(body) + afterBody);
      ScanBlock(path, body, afterBody, stack + [Frame(head.line, false)]);
      ScanTail(path, tail, afterTail, stack, head.line);
      ScanBlock(path, more, rest, stack);
  }

  lemma {:induction false} ScanTail(path: string, t: Tail, rest: seq<Statement>, stack: seq<Frame>, line: nat)
    requires ShapedTail(t)
    ensures Scan(path, FlattenTail(t) + rest, stack + [Frame(line, false)]) == Scan(path, rest, stack)
    decreases t
  {
    var open := stack + [Frame(line, false)];
    match t
    case Elif(st, body, tail) =>
      assert FlattenTail(t) + rest == [st] + (Flatten(body) + (FlattenTail(tail) + rest));
      ScanBlock(path, body, FlattenTail(tail) + rest, open);
      ScanTail(path, tail, rest, stack, line);
    case Otherwise(st, body, end) =>
      assert FlattenTail(t) + rest == [st] + (Flatten(body) + ([end] + rest));
      var closed := stack + [Frame(line, true)];
      assert open[|stack| := Frame(line, true)] == closed;
      ScanBlock(path, body, [end] + rest, closed);
      assert closed[..|stack|] == stack;
    case Done(end) =>
      assert open[..|stack|] == stack;
  }

  // ----- accepted lists have a tree -----

  /** An open IF of a prefix: the tail that closes it and the block that follows. */
  datatype Pending = Pending(tail: Tail, after: Block)

  /** The closing part of a list, innermost IF (the last element) first. */
  function FlattenOpen(open: seq<Pending>): seq<Statement>
    decreases open, 1
  {
    if open == [] then []
    else
      var top := open[|open| - 1];
      FlattenTail(top.tail) + Below(open)
  }

  /** What follows the innermost pending tail. */
  function Below(open: seq<Pending>): seq<Statement>
    requires |open| > 0
    decreases open, 0
  {
    Flatten(open[|open| - 1].after) + FlattenOpen(open[..|open| - 1])
  }

  /** The pending tails fit the stack: after an ELSE only END may follow. */
  ghost predicate Closes(open: seq<Pending>, stack: seq<Frame>) {
    |open| == |stack| &&
    forall i :: 0 <= i < |open| ==>
      ShapedTail(open[i].tail) && Shaped(open[i].after) && (stack[i].sawElse ==> open[i].tail.Done?)
  }

  /** A list that empties the stack is a block followed by the tails that close the open IFs. */
  lemma {:induction false} Decompose(path: string, stmts: seq<Statement>, stack: seq<Frame>)
      returns (b: Block, open: seq<Pending>)
    requires Scan(path, stmts, stack) == Ok([])
    ensures Shaped(b) && Closes(open, stack)
    ensures stmts == Flatten(b) + FlattenOpen(open)
    decreases stmts
  {
    if stmts == [] { return Nil, []; }
    var st := stmts[0];
    var next := ScanOne(path, st, stack).value;
    var b', open' := Decompose(path, stmts[1..], next);
    b, open := Extend(st, b', open', path, stack, next);
    assert stmts == [st] + stmts[1..];
  }

  /** One statement in front of a decomposed list. */
  lemma Extend(st: Statement, b': Block, open': seq<Pending>, path: string, stack: seq<Frame>, next: seq<Frame>)
      returns (b: Block, open: seq<Pending>)
    requires ScanOne(path, st, stack) == Ok(next) && Shaped(b') && Closes(open', next)
    ensures Shaped(b) && Closes(open, stack)
    ensures [st] + (Flatten(b') + FlattenOpen(open')) == Flatten(b) + FlattenOpen(open)
  {
    var n := |stack|;
    match st.control
    case Command =>
      b, open := Cmd(st, b'), open';
      Assoc([st], Flatten(b'), FlattenOpen(open'));
    case If =>
      b, open := Cond(st, b', open'[n].tail, open'[n].after), open'[..n];
      Regroup4([st], Flatten(b'), FlattenTail(open'[n].tail), Flatten(open'[n].after), FlattenOpen(open));
    case ElseIf =>
      b, open := ExtendTop(Elif(st, b', open'[n - 1].tail), open');
      Regroup([st], Flatten(b'), FlattenTail(open'[n - 1].tail), Below(open'));
    case Else =>
      b, open := ExtendTop(Otherwise(st, b', open'[n - 1].tail.end), open');
      Regroup([st], Flatten(b'), FlattenTail(open'[n - 1].tail), Below(open'));
    case End =>
      b, open := Nil, open' + [Pending(Done(st), b')];
      assert open[..n - 1] == open';
      assert Flatten(b) + FlattenOpen(open) == FlattenOpen(open);
  }

  /** Replaces the innermost pending tail. */
  lemma ExtendTop(tail: Tail, open': seq<Pending>) returns (b: Block, open: seq<Pending>)
    requires |open'| > 0
    ensures b == Nil && open == open'[|open'| - 1 := Pending(tail, open'[|open'| - 1].after)]
    ensures Flatten(b) + FlattenOpen(open)
         == FlattenTail(tail) + Below(open')
  {
    var n := |open'|;
    b, open := Nil, open'[n - 1 := Pending(tail, open'[n - 1].after)];
    assert open[..n - 1] == open'[..n - 1];
    assert [] + FlattenOpen(open) == FlattenOpen(open);
  }

  lemma Assoc(x: seq<Statement>, y: seq<Statement>, z: seq<Statement>)
    ensures (x + y) + z == x + (y + z)
  {
  }

  /** The balance check accepts exactly the lists of the block grammar, whatever the file's name. */
  lemma AcceptsIffWellNested(path: string, stmts: seq<Statement>)
    ensures Check(path, stmts).None? <==> WellNested(stmts)
  {
    if Check(path, stmts).None? {
      var b, open := Decompose(path, stmts, []);
      assert Flatten(b) == stmts;
    }
    if WellNested(stmts) {
      var b :| Shaped(b) && Flatten(b) == stmts;
      assert stmts == Flatten(b) + [];
      ScanBlock(path, b, [], []);
    }
  }

  // ----- which error is reported -----

  /** After a complete block, the next marker without an IF is the error, at its own line. */
  lemma ReportsOutsideIf(path: string, b: Block, st: Statement, rest: seq<Statement>)
    requires Shaped(b) && !st.control.Command? && !st.control.If?
    ensures Check(path, Flatten(b) + ([st] + rest))
         == Some(ParseError(path, st.line, if st.control.End? then EndWithoutIf else OutsideIf(st.control)))
  {
    ScanBlock(path, b, [st] + rest, []);
  }

  /** After an ELSE, another ELSE or ELSE IF of the same IF is the error, at its own line. */
  lemma ReportsAfterElse(path: string, b: Block, head: Statement, body: Block, else_: Statement, other: Block,
                         st: Statement, rest: seq<Statement>)
    requires Shaped(b) && Shaped(body) && Shaped(other) && head.control.If? && else_.control.Else?
    requires st.control.Else? || st.control.ElseIf?
    ensures Check(path, Flatten(b) + ([head] + (Flatten(body) + ([else_] + (Flatten(other) + ([st] + rest))))))
         == Some(ParseError(path, st.line, AfterElse(st.control)))
  {
    var open, closed := [Frame(head.line, false)], [Frame(head.line, true)];
    var r1 := [st] + rest;
    var r2 := [else_] + (Flatten(other) + r1);
    ScanBlock(path, b, [head] + (Flatten(body) + r2), []);
    assert [] + open == open && open[0 := Frame(head.line, true)] == closed;
    ScanBlock(path, body, r2, open);
    assert r2[1..] == Flatten(other) + r1 && ([head] + (Flatten(body) + r2))[1..] == Flatten(body) + r2;
    ScanBlock(path, other, r1, closed);
  }

  /** A list that ends inside an IF is reported at the innermost one. */
  lemma ReportsNotClosed(path: string, b: Block, head: Statement, body: Block)
    requires Shaped(b) && Shaped(body) && head.control.If?
    ensures Check(path, Flatten(b) + ([head] + Flatten(body))) == Some(ParseError(path, head.line, NotClosed))
  {
    ScanBlock(path, b, [head] + Flatten(body), []);
    assert ([head] + Flatten(body))[1..] == Flatten(body) && Flatten(body) + [] == Flatten(body);
    assert [] + [Frame(head.line, false)] == [Frame(head.line, false)];
    ScanBlock(path, body, [], [Frame(head.line, false)]);
  }

  /** Of two open IFs the inner one is reported. */
  lemma ReportsInnermost(path: string, outer: Statement, before: Block, inner: Statement, body: Block)
    requires Shaped(before) && Shaped(body) && outer.control.If? && inner.control.If?
    ensures Check(path, [outer] + (Flatten(before) + ([inner] + Flatten(body))))
         == Some(ParseError(path, inner.line, NotClosed))
  {
    var fo, fi := Frame(outer.line, false), Frame(inner.line, false);
    var r := [inner] + Flatten(body);
    assert ([outer] + (Flatten(before) + r))[1..] == Flatten(before) + r && r[1..] == Flatten(body);
    assert [] + [fo] == [fo] && [fo] + [fi] == [fo, fi] && Flatten(body) + [] == Flatten(body);
    ScanBlock(path, before, r, [fo]);
    ScanBlock(path, body, [], [fo, fi]);
  }

  // ----- the tree is unique -----

  /** A list that cannot continue a block: it is empty or starts with ELSE IF, ELSE or END. */
  predicate Stops(stmts: seq<Statement>) {
    stmts == [] || !(stmts[0].control.Command? || stmts[0].control.If?)
  }

  lemma {:induction false} UniqueBlock(a: Block, b: Block, ra: seq<Statement>, rb: seq<Statement>)
    requires Shaped(a) && Shaped(b) && Stops(ra) && Stops(rb)
    requires Flatten(a) + ra == Flatten(b) + rb
    ensures a == b && ra == rb
    decreases a
  {
    FirstOf(a, ra);
    FirstOf(b, rb);
    match a
    case Nil =>
    case Cmd(st, more) =>
      ConsInjective(st, Flatten(more), ra, b.st, Flatten(b.rest), rb);
      UniqueBlock(more, b.rest, ra, rb);
    case Cond(head, body, tail, more) =>
      var ta, tb := FlattenTail(tail) + (Flatten(more) + ra), FlattenTail(b.tail) + (Flatten(b.rest) + rb);
      ConsInjective(head, Flatten(body) + (FlattenTail(tail) + Flatten(more)), ra,
                    b.head, Flatten(b.body) + (FlattenTail(b.tail) + Flatten(b.rest)), rb);
      Regroup(Flatten(body), FlattenTail(tail), Flatten(more), ra);
      Regroup(Flatten(b.body), FlattenTail(b.tail), Flatten(b.rest), rb);
      StopsAtTail(tail, Flatten(more) + ra);
      StopsAtTail(b.tail, Flatten(b.rest) + rb);
      UniqueBlock(body, b.body, ta, tb);
      UniqueTail(tail, b.tail, Flatten(more) + ra, Flatten(b.rest) + rb);
      UniqueBlock(more, b.rest, ra, rb);
  }

  lemma {:induction false} UniqueTail(a: Tail, b: Tail, ra: seq<Statement>, rb: seq<Statement>)
    requires ShapedTail(a) && ShapedTail(b)
    requires FlattenTail(a) + ra == FlattenTail(b) + rb
    ensures a == b && ra == rb
    decreases a
  {
    assert (FlattenTail(a) + ra)[0] == FlattenTail(a)[0];
    assert (FlattenTail(b) + rb)[0] == FlattenTail(b)[0];
    match a
    case Elif(st, body, tail) =>
      ConsInjective(st, Flatten(body) + FlattenTail(tail), ra, b.st, Flatten(b.body) + FlattenTail(b.tail), rb);
      Assoc(Flatten(body), FlattenTail(tail), ra);
      Assoc(Flatten(b.body), FlattenTail(b.tail), rb);
      StopsAtTail(tail, ra);
      StopsAtTail(b.tail, rb);
      UniqueBlock(body, b.body, FlattenTail(tail) + ra, FlattenTail(b.tail) + rb);
      UniqueTail(tail, b.tail, ra, rb);
    case Otherwise(st, body, end) =>
      ConsInjective(st, Flatten(body) + [end], ra, b.st, Flatten(b.body) + [b.end], rb);
      Assoc(Flatten(body), [end], ra);
      Assoc(Flatten(b.body), [b.end], rb);
      UniqueBlock(body, b.body, [end] + ra, [b.end] + rb);
      assert [end] + [] == [end] && [b.end] + [] == [b.end];
      ConsInjective(end, [], ra, b.end, [], rb);
      assert [] + ra == ra && [] + rb == rb;
    case Done(end) =>
      assert [end] + [] == [end] && [b.end] + [] == [b.end];
      ConsInjective(end, [], ra, b.end, [], rb);
      assert [] + ra == ra && [] + rb == rb;
  }

  lemma FirstOf(b: Block, rest: seq<Statement>)
    requires Shaped(b) && Stops(rest)
    ensures b.Nil? ==> Flatten(b) + rest == rest
    ensures b.Cmd? ==> Flatten(b) + rest != [] && (Flatten(b) + rest)[0].control.Command?
    ensures b.Cond? ==> Flatten(b) + rest != [] && (Flatten(b) + rest)[0].control.If?
  {
  }

  lemma StopsAtTail(t: Tail, rest: seq<Statement>)
    requires ShapedTail(t)
    ensures Stops(FlattenTail(t) + rest)
  {
  }

  lemma Regroup(w: seq<Statement>, x: seq<Statement>, y: seq<Statement>, z: seq<Statement>)
    ensures (w + (x + y)) + z == w + (x + (y + z))
  {
  }

  lemma Regroup4(v: seq<Statement>, w: seq<Statement>, x: seq<Statement>, y: seq<Statement>, z: seq<Statement>)
    ensures v + (w + (x + (y + z))) == (v + (w + (x + y))) + z
  {
  }

  lemma ConsInjective(x: Statement, xs: seq<Statement>, xr: seq<Statement>, y: Statement, ys: seq<Statement>,
                      yr: seq<Statement>)
    requires ([x] + xs) + xr == ([y] + ys) + yr
    ensures x == y && xs + xr == ys + yr
  {
    assert (([x] + xs) + xr)[0] == x && (([y] + ys) + yr)[0] == y;
    assert (([x] + xs) + xr)[1..] == xs + xr;
    assert (([y] + ys) + yr)[1..] == ys + yr;
  }

  /** A list has at most one tree. */
  lemma TreeUnique(a: Block, b: Block)
    requires Shaped(a) && Shaped(b) && Flatten(a) == Flatten(b)
    ensures a == b
  {
    assert Flatten(a) + [] == Flatten(a) && Flatten(b) + [] == Flatten(b);
    UniqueBlock(a, b, [], []);
  }

  // ----- the check as the source runs it -----

  method ValidateControlFlow(path: string, stmts: seq<Statement>) returns (r: Option<ParseError>)
    ensures r == Check(path, stmts)
    ensures r.None? <==> WellNested(stmts)
  {
    AcceptsIffWellNested(path, stmts);
    var stack: seq<Frame> := [];
    for i := 0 to |stmts|
      invariant Scan(path, stmts, []) == Scan(path, stmts[i..], stack)
    {
      var st := stmts[i];
      assert stmts[i..][1..] == stmts[i + 1..];
      var n := |stack|;
      match st.control {
        case Command =>
        case If =>
          stack := stack + [Frame(st.line, false)];
        case ElseIf | Else =>
          if n == 0 {
            return Some(ParseError(path, st.line, OutsideIf(st.control)));
          }
          if stack[n - 1].sawElse {
            return Some(ParseError(path, st.line, AfterElse(st.control)));
          }
          if st.control == Else {
            stack := stack[n - 1 := stack[n - 1].(sawElse := true)];
          }
        case End =>
          if n == 0 {
            return Some(ParseError(path, st.line, EndWithoutIf));
          }
          stack := stack[..n - 1];
      }
    }
    assert stmts[|stmts|..] == [];
    if |stack| > 0 {
      return Some(ParseError(path, stack[|stack| - 1].line, NotClosed));
    }
    return None;
  }
}
