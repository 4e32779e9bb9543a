/** `${path}` expansion: the path walker over nested values, the one-pass substitution over a token,
    and what both mean. */
module RecipeExpand {
  import opened Text
  import opened RecipeSyntax

  /** A value in the recipe's memory: JSON values, and the integers that `.length` makes. */
  datatype Value =
    | Null
    | Bool(b: bool)
    | Int(n: int)
    | Num(x: real)
    | Str(s: string)
    | Arr(elems: seq<Value>)
    | Obj(fields: map<string, Value>)

  type Memory = map<string, Value>

  datatype PathError =
    | EmptyPath
    | ExpectedIdentifier
    | UnknownVariable(name: string)
    | EnvNeedsName
    | EnvContinuation(next: string)
    | NoLength(v: Value)
    | NotAnObject(name: string)
    | FieldNotFound(name: string)
    | UnmatchedBracket
    | InvalidIndex(text: string)
    | NotAnArray
    | OutOfRange(index: int)
    | UnexpectedCharacter(c: char)

  datatype ExpandError = UnterminatedReference | BadPath(error: PathError)

  /** What the platform supplies: the OS environment, and the printed forms of fractional numbers
      and of arrays and objects. */
  datatype Platform = Platform(getenv: string -> string, number: real -> string, composite: Value -> string)

  // ----- one access -----

  datatype Access = Field(name: string) | Index(i: int)

  /** One `.name` or `[i]` step; `length` is synthetic and shadows any field of that name. */
  function Step(v: Value, a: Access): Result<Value, PathError> {
    match a
    case Field(name) =>
      if name == "length" then
        match v
        case Arr(elems) => Ok(Int(|elems|))
        case Str(s) => Ok(Int(|s|))
        case _ => Err(NoLength(v))
      else if !v.Obj? then Err(NotAnObject(name))
      else if name !in v.fields then Err(FieldNotFound(name))
      else Ok(v.fields[name])
    case Index(i) =>
      if !v.Arr? then Err(NotAnArray)
      else if !(0 <= i < |v.elems|) then Err(OutOfRange(i))
      else Ok(v.elems[i])
  }

  /** The accessor on structured chains. */
  function Get(v: Value, chain: seq<Access>): Result<Value, PathError>
    decreases chain
  {
    if chain == [] then Ok(v)
    else
      match Step(v, chain[0])
      case Err(e) => Err(e)
      case Ok(next) => Get(next, chain[1..])
  }

  // ----- the walker over text -----

  /** Length of the longest run of identifier characters. */
  function IdentLength(s: string): (n: nat)
    ensures n <= |s|
    ensures forall i :: 0 <= i < n ==> IsVarChar(s[i])
    ensures n < |s| ==> !IsVarChar(s[n])
  {
    if s == "" || !IsVarChar(s[0]) then 0 else 1 + IdentLength(s[1..])
  }

  /** `splitFirstIdent`: the longest leading identifier and the rest. */
  function SplitFirstIdent(s: string): (r: Result<(string, string), PathError>)
    ensures r.Ok? ==>
      var (name, rest) := r.value;
      IsVarName(name) && name + rest == s && (rest == "" || !IsVarChar(rest[0]))
    ensures r.Err? <==> s == "" || !IsVarFirst(s[0])
  {
    if s == "" || !IsVarFirst(s[0]) then Err(ExpectedIdentifier)
    else Ok((s[..IdentLength(s)], s[IdentLength(s)..]))
  }

  /** The access at the front of a non-empty rest, and what follows it. */
  function NextAccess(rest: string): (r: Result<(Access, string), PathError>)
    requires rest != ""
    ensures r.Ok? ==> |r.value.1| < |rest|
  {
    if rest[0] == '.' then
      match SplitFirstIdent(rest[1..])
      case Err(e) => Err(e)
      case Ok((name, next)) => Ok((Field(name), next))
    else if rest[0] == '[' then
      match IndexOf(rest, ']')
      case None => Err(UnmatchedBracket)
      case Some(close) =>
        assert close > 0;
        var text := TrimSpace(rest[1..close]);
        match ParseInt(text)
        case None => Err(InvalidIndex(text))
        case Some(i) => Ok((Index(i), rest[close + 1..]))
    else Err(UnexpectedCharacter(rest[0]))
  }

  function Walk(v: Value, rest: string): Result<Value, PathError>
    decreases |rest|
  {
    if rest == "" then Ok(v)
    else
      match NextAccess(rest)
      case Err(e) => Err(e)
      case Ok((a, next)) =>
        match Step(v, a)
        case Err(e) => Err(e)
        case Ok(w) => Walk(w, next)
  }

  function EvalPath(p: Platform, memory: Memory, path: string): Result<Value, PathError> {
    var trimmed := TrimSpace(path);
    if trimmed == "" then Err(EmptyPath)
    else
      match SplitFirstIdent(trimmed)
      case Err(e) => Err(e)
      case Ok((root, rest)) =>
        if root == "env" then
          if !HasPrefix(rest, ".") then Err(EnvNeedsName)
          else
            match SplitFirstIdent(rest[1..])
            case Err(e) => Err(e)
            case Ok((name, next)) => if next != "" then Err(EnvContinuation(next)) else Ok(Str(p.getenv(name)))
        else if root !in memory then Err(UnknownVariable(root))
        else Walk(memory[root], rest)
  }

  // ----- paths read without a value -----

  /** The accesses that a text spells, and what is wrong where it stops spelling any; no value is looked
      at. */
  function ReadChain(rest: string): (seq<Access>, Option<PathError>)
    decreases |rest|
  {
    if rest == "" then ([], None)
    else
      match NextAccess(rest)
      case Err(e) => ([], Some(e))
      case Ok((a, next)) =>
        var (more, e) := ReadChain(next);
        ([a] + more, e)
  }

  /** The accessor on a chain, with the error that ends the text after it. */
  function GetRead(v: Value, read: (seq<Access>, Option<PathError>)): Result<Value, PathError> {
    var r := Get(v, read.0);
    if r.Ok? && read.1.Some? then Err(read.1.value) else r
  }

  /** Walking a text along a value is reading its accesses and applying the structured accessor, on
      every text and value: the first failure of either kind is reported. */
  lemma {:induction false} WalkIsRead(v: Value, rest: string)
    ensures Walk(v, rest) == GetRead(v, ReadChain(rest))
    decreases |rest|
  {
    if rest != "" {
      var r := NextAccess(rest);
      if r.Ok? {
        var (a, next) := r.value;
        var step := Step(v, a);
        var more := ReadChain(next).0;
        assert ([a] + more)[1..] == more;
        if step.Ok? { WalkIsRead(step.value, next); }
      }
    }
  }

  /** What a path evaluates to: a variable's value along the accesses that follow the name. */
  lemma PathIsRead(p: Platform, memory: Memory, path: string)
    ensures var trimmed := TrimSpace(path);
      SplitFirstIdent(trimmed).Ok? ==>
        var (root, rest) := SplitFirstIdent(trimmed).value;
        root != "env" ==>
          EvalPath(p, memory, path)
          == if root in memory then GetRead(memory[root], ReadChain(rest)) else Err(UnknownVariable(root))
  {
    hide Walk, GetRead, ReadChain, TrimSpace;
    var split := SplitFirstIdent(TrimSpace(path));
    if split.Ok? && split.value.0 in memory { WalkIsRead(memory[split.value.0], split.value.1); }
  }

  // ----- chains as text -----

  function PrintAccess(a: Access): string {
    match a
    case Field(name) => "." + name
    case Index(i) => "[" + FormatInt(i) + "]"
  }

  function PrintChain(chain: seq<Access>): string {
    if chain == [] then "" else PrintAccess(chain[0]) + PrintChain(chain[1..])
  }

  /** Field names are identifiers and indices are machine integers. */
  predicate Printable(a: Access) {
    match a
    case Field(name) => IsVarName(name)
    case Index(i) => InInt64(i)
  }

  lemma {:induction false} IdentLengthOf(name: string, rest: string)
    requires forall c <- name :: IsVarChar(c)
    requires rest == "" || !IsVarChar(rest[0])
    ensures IdentLength(name + rest) == |name|
  {
    if name == "" {
      assert name + rest == rest;
    } else {
      assert name[0] in name && forall c <- name[1..] :: c in name;
      IdentLengthOf(name[1..], rest);
      assert (name + rest)[1..] == name[1..] + rest;
    }
  }

  /** An identifier is split off exactly. */
  lemma SplitIdent(name: string, rest: string)
    requires IsVarName(name) && (rest == "" || !IsVarChar(rest[0]))
    ensures SplitFirstIdent(name + rest) == Ok((name, rest))
  {
    IdentLengthOf(name, rest);
    assert (name + rest)[..|name|] == name && (name + rest)[|name|..] == rest;
  }

  lemma ChainStart(chain: seq<Access>)
    ensures PrintChain(chain) == "" || !IsVarChar(PrintChain(chain)[0])
  {
  }

  lemma ReadIndex(i: int, rest: string)
    requires InInt64(i)
    ensures NextAccess("[" + FormatInt(i) + "]" + rest) == Ok((Index(i), rest))
  {
    hide FormatInt, ParseInt, TrimSpace;
    var digits := FormatInt(i);
    var text := "[" + digits + "]" + rest;
    FormatIntTrimmed(i);
    assert text == ("[" + digits) + [']'] + rest;
    IndexOfFirst("[" + digits, ']', rest);
    assert text[1..1 + |digits|] == digits && text[|digits| + 2..] == rest;
    ParseFormatInt(i);
  }

  lemma FormatIntTrimmed(i: int)
    ensures ']' !in FormatInt(i) && TrimSpace(FormatInt(i)) == FormatInt(i)
  {
    var digits := FormatInt(i);
    assert digits[0] in digits && digits[|digits| - 1] in digits;
    TrimmedUnchanged(digits);
  }

  lemma ReadAccess(a: Access, rest: string)
    requires Printable(a) && (rest == "" || !IsVarChar(rest[0]))
    ensures PrintAccess(a) != ""
    ensures NextAccess(PrintAccess(a) + rest) == Ok((a, rest))
  {
    match a
    case Field(name) =>
      assert (PrintAccess(a) + rest)[1..] == name + rest;
      SplitIdent(name, rest);
    case Index(i) => ReadIndex(i, rest);
  }

  /** A printed chain reads as itself. */
  lemma {:induction false} ReadPrinted(chain: seq<Access>)
    requires forall a <- chain :: Printable(a)
    ensures ReadChain(PrintChain(chain)) == (chain, None)
    decreases chain
  {
    hide NextAccess, PrintAccess, Printable, ReadChain;
    ReadNothing();
    if chain != [] {
      assert chain[0] in chain && forall a <- chain[1..] :: a in chain;
      var rest := PrintChain(chain[1..]);
      ChainStart(chain[1..]);
      ReadAccess(chain[0], rest);
      ReadPrinted(chain[1..]);
      ReadNext(PrintAccess(chain[0]) + rest, chain[0], rest);
      assert [chain[0]] + chain[1..] == chain;
    }
  }

  lemma ReadNothing()
    ensures ReadChain("") == ([], None)
  {
  }

  lemma ReadNext(rest: string, a: Access, next: string)
    requires rest != "" && NextAccess(rest) == Ok((a, next))
    ensures ReadChain(rest) == ([a] + ReadChain(next).0, ReadChain(next).1)
  {
  }

  /** What a text spells can be printed, and printing it spells the same: a text is a way of writing its
      chain. */
  lemma {:induction false} ReadIsPrintable(rest: string)
    ensures forall a <- ReadChain(rest).0 :: Printable(a)
    ensures ReadChain(PrintChain(ReadChain(rest).0)) == (ReadChain(rest).0, None)
    decreases |rest|
  {
    ReadPrintable(rest);
    ReadPrinted(ReadChain(rest).0);
  }

  lemma {:induction false} ReadPrintable(rest: string)
    ensures forall a <- ReadChain(rest).0 :: Printable(a)
    decreases |rest|
  {
    if rest != "" && NextAccess(rest).Ok? { ReadPrintable(NextAccess(rest).value.1); }
  }

  lemma {:induction false} ChainEnd(chain: seq<Access>)
    requires chain != [] && forall a <- chain :: Printable(a)
    ensures var s := PrintChain(chain); s != "" && !IsSpace(s[|s| - 1])
    decreases chain
  {
    if |chain| == 1 {
      assert PrintChain(chain) == PrintAccess(chain[0]) + "" == PrintAccess(chain[0]) && Printable(chain[0]);
      if chain[0].Field? { assert chain[0].name[|chain[0].name| - 1] in chain[0].name; }
    } else {
      ChainEnd(chain[1..]);
    }
  }

  /** Every printed access chain evaluates as the structured accessor does, failures included. */
  lemma PathMeansChain(p: Platform, memory: Memory, root: string, chain: seq<Access>)
    requires IsVarName(root) && root != "env" && forall a <- chain :: Printable(a)
    ensures EvalPath(p, memory, root + PrintChain(chain))
         == if root !in memory then Err(UnknownVariable(root)) else Get(memory[root], chain)
  {
    hide Walk, Get, ReadChain, EvalPath;
    var path := root + PrintChain(chain);
    assert root[|root| - 1] in root;
    if chain == [] { assert path == root; } else { ChainEnd(chain); }
    TrimmedUnchanged(path);
    ChainStart(chain);
    SplitIdent(root, PrintChain(chain));
    PathIsRead(p, memory, path);
    ReadPrinted(chain);
  }

  // ----- what a path reaches, spelled out -----

  lemma {:induction false} GetLast(v: Value, chain: seq<Access>, a: Access)
    ensures Get(v, chain + [a])
         == match Get(v, chain)
            case Err(e) => Err(e)
            case Ok(w) => Step(w, a)
    decreases chain
  {
    if chain == [] {
      assert chain + [a] == [a] && [a][1..] == [];
    } else {
      assert (chain + [a])[1..] == chain[1..] + [a];
      var next := Step(v, chain[0]);
      if next.Ok? { GetLast(next.value, chain[1..], a); }
    }
  }

  lemma {:induction false} PrintLast(chain: seq<Access>, a: Access)
    ensures PrintChain(chain + [a]) == PrintChain(chain) + PrintAccess(a)
    decreases chain
  {
    if chain == [] {
      assert chain + [a] == [a] && [a][1..] == [];
    } else {
      assert (chain + [a])[1..] == chain[1..] + [a];
      PrintLast(chain[1..], a);
    }
  }

  lemma AllWithLast(chain: seq<Access>, a: Access)
    requires Printable(a) && forall b <- chain :: Printable(b)
    ensures forall b <- chain + [a] :: Printable(b)
  {
    hide Printable;
    assert forall b <- chain + [a] :: b in chain || b == a;
  }

  /** One access more: the value reached without it, then the access. */
  lemma PathLast(p: Platform, memory: Memory, root: string, chain: seq<Access>, a: Access)
    requires IsVarName(root) && root != "env" && Printable(a) && forall b <- chain :: Printable(b)
    ensures EvalPath(p, memory, root + PrintChain(chain) + PrintAccess(a))
         == match EvalPath(p, memory, root + PrintChain(chain))
            case Err(e) => Err(e)
            case Ok(w) => Step(w, a)
  {
    hide EvalPath, Get, Step, Printable, PrintChain, PrintAccess, IsVarName;
    AllWithLast(chain, a);
    PrintLast(chain, a);
    assert root + PrintChain(chain) + PrintAccess(a) == root + (PrintChain(chain) + PrintAccess(a));
    PathMeansChain(p, memory, root, chain);
    PathMeansChain(p, memory, root, chain + [a]);
    if root in memory { GetLast(memory[root], chain, a); }
  }

  /** Indexing selects the element at that position, counted from 0, of an array and nothing else. */
  lemma IndexSelects(p: Platform, memory: Memory, root: string, chain: seq<Access>, i: int)
    requires IsVarName(root) && root != "env" && InInt64(i) && forall b <- chain :: Printable(b)
    ensures var path := root + PrintChain(chain);
      EvalPath(p, memory, path + "[" + FormatInt(i) + "]")
      == match EvalPath(p, memory, path)
         case Err(e) => Err(e)
         case Ok(Arr(elems)) => if 0 <= i < |elems| then Ok(elems[i]) else Err(OutOfRange(i))
         case Ok(_) => Err(NotAnArray)
  {
    hide EvalPath, FormatInt;
    PathLast(p, memory, root, chain, Index(i));
    var path := root + PrintChain(chain);
    assert path + ("[" + FormatInt(i) + "]") == path + "[" + FormatInt(i) + "]";
  }

  /** A field selects that field of an object; `length` counts the elements of an array or the
      characters of a string, and is no field of anything else. */
  lemma FieldSelects(p: Platform, memory: Memory, root: string, chain: seq<Access>, name: string)
    requires IsVarName(root) && root != "env" && IsVarName(name) && forall b <- chain :: Printable(b)
    ensures var path := root + PrintChain(chain);
      EvalPath(p, memory, path + "." + name)
      == match EvalPath(p, memory, path)
         case Err(e) => Err(e)
         case Ok(Arr(elems)) => if name == "length" then Ok(Int(|elems|)) else Err(NotAnObject(name))
         case Ok(Str(s)) => if name == "length" then Ok(Int(|s|)) else Err(NotAnObject(name))
         case Ok(Obj(fields)) =>
           if name == "length" then Err(NoLength(Obj(fields)))
           else if name in fields then Ok(fields[name]) else Err(FieldNotFound(name))
         case Ok(v) => if name == "length" then Err(NoLength(v)) else Err(NotAnObject(name))
  {
    hide EvalPath;
    PathLast(p, memory, root, chain, Field(name));
    var path := root + PrintChain(chain);
    assert path + ("." + name) == path + "." + name;
  }

  /** A name alone is the variable's value. */
  lemma NameSelects(p: Platform, memory: Memory, root: string)
    requires IsVarName(root) && root != "env"
    ensures EvalPath(p, memory, root) == if root in memory then Ok(memory[root]) else Err(UnknownVariable(root))
  {
    hide EvalPath;
    PathMeansChain(p, memory, root, []);
    assert root + PrintChain([]) == root;
  }

  /** The elements and the length of an array, in a variable. */
  lemma ElementReadable(p: Platform, memory: Memory, root: string, elems: seq<Value>, i: int)
    requires IsVarName(root) && root != "env" && InInt64(i) && root in memory && memory[root] == Arr(elems)
    ensures EvalPath(p, memory, root + "[" + FormatInt(i) + "]")
         == if 0 <= i < |elems| then Ok(elems[i]) else Err(OutOfRange(i))
    ensures EvalPath(p, memory, root + ".length") == Ok(Int(|elems|))
  {
    hide EvalPath, FormatInt;
    NameSelects(p, memory, root);
    IndexSelects(p, memory, root, [], i);
    FieldSelects(p, memory, root, [], "length");
    assert root + "." + "length" == root + ".length";
    assert root + PrintChain([]) == root;
  }

  /** Space around a path, or around an index, does not matter. */
  lemma PathTrimmed(p: Platform, memory: Memory, before: string, path: string, after: string)
    requires AllSpaces(before) && AllSpaces(after) && Trimmed(path)
    ensures EvalPath(p, memory, before + path + after) == EvalPath(p, memory, path)
  {
    TrimSpaceIs(before, path, after);
    TrimmedUnchanged(path);
  }

  /** `env.NAME` is the environment variable, whatever memory holds; anything after the name is an
      error. */
  lemma EnvReadable(p: Platform, memory: Memory, name: string, rest: string)
    requires IsVarName(name) && (rest == "" || (!IsVarChar(rest[0]) && !IsSpace(rest[|rest| - 1])))
    ensures EvalPath(p, memory, "env." + name + rest)
         == if rest == "" then Ok(Str(p.getenv(name))) else Err(EnvContinuation(rest))
  {
    hide EvalPath, SplitFirstIdent;
    var tail := name + rest;
    EndsUnspaced(name, rest);
    SplitIdent(name, rest);
    SplitIdent("env", "." + tail);
    assert "env." + name + rest == "env" + ("." + tail) && ("." + tail)[1..] == tail;
    EnvPath(p, memory, tail);
  }

  lemma EndsUnspaced(name: string, rest: string)
    requires IsVarName(name) && (rest == "" || !IsSpace(rest[|rest| - 1]))
    ensures Trimmed("env." + name + rest)
  {
    assert name[|name| - 1] in name;
  }

  lemma EnvPath(p: Platform, memory: Memory, tail: string)
    requires Trimmed("env" + ("." + tail)) && SplitFirstIdent("env" + ("." + tail)) == Ok(("env", "." + tail))
    requires SplitFirstIdent(tail).Ok?
    ensures EvalPath(p, memory, "env" + ("." + tail))
         == if SplitFirstIdent(tail).value.1 == "" then Ok(Str(p.getenv(SplitFirstIdent(tail).value.0)))
            else Err(EnvContinuation(SplitFirstIdent(tail).value.1))
  {
    TrimmedUnchanged("env" + ("." + tail));
    hide SplitFirstIdent, TrimSpace;
    assert ("." + tail)[1..] == tail;
  }

  lemma EnvAlone(p: Platform, memory: Memory)
    ensures EvalPath(p, memory, "env") == Err(EnvNeedsName)
  {
    TrimmedUnchanged("env");
    SplitIdent("env", "");
    assert "env" + "" == "env";
  }

  /** The four ways in which a text fails to spell an access. */
  lemma AccessErrors(text: string, rest: string, c: char)
    ensures ']' !in text ==> NextAccess("[" + text) == Err(UnmatchedBracket)
    ensures ']' !in text && ParseInt(TrimSpace(text)).None? ==>
      NextAccess("[" + text + "]" + rest) == Err(InvalidIndex(TrimSpace(text)))
    ensures text == "" || !IsVarFirst(text[0]) ==> NextAccess("." + text) == Err(ExpectedIdentifier)
    ensures c != '.' && c != '[' ==> NextAccess([c] + text) == Err(UnexpectedCharacter(c))
  {
    hide ParseInt, TrimSpace;
    assert ("." + text)[1..] == text && ([c] + text)[0] == c;
    if ']' !in text {
      assert ']' !in "[" + text;
      var s := "[" + text + "]" + rest;
      assert s == ("[" + text) + [']'] + rest;
      IndexOfFirst("[" + text, ']', rest);
      assert s[1..|text| + 1] == text;
    }
  }

  /** A field of an object can be read exactly when it is not called `length`, which the synthetic field
      shadows, and fails on objects. */
  lemma ObjectFieldReadable(p: Platform, memory: Memory, root: string, field: string)
    requires IsVarName(root) && root != "env" && root in memory && memory[root].Obj?
    requires IsVarName(field) && field in memory[root].fields
    ensures EvalPath(p, memory, root + "." + field) == Ok(memory[root].fields[field]) <==> field != "length"
    ensures field == "length" ==> EvalPath(p, memory, root + "." + field) == Err(NoLength(memory[root]))
  {
    hide EvalPath;
    var chain := [Field(field)];
    assert chain[1..] == [] && PrintChain(chain) == "." + field;
    assert root + PrintChain(chain) == root + "." + field;
    PathMeansChain(p, memory, root, chain);
  }

  // ----- substitution -----

  function Stringify(p: Platform, v: Value): string {
    match v
    case Null => ""
    case Str(s) => s
    case Bool(b) => if b then "true" else "false"
    case Int(n) => FormatInt(n)
    case Num(x) => if x.Floor as real == x && InInt64(x.Floor) then FormatInt(x.Floor) else p.number(x)
    case Arr(_) | Obj(_) => p.composite(v)
  }

  predicate StartsReference(s: string) { |s| >= 2 && s[0] == '$' && s[1] == '{' }

  /** `strings.Contains(s, "${")`. */
  predicate ContainsReference(s: string) {
    s != "" && (StartsReference(s) || ContainsReference(s[1..]))
  }

  function Prepend(prefix: string, r: Result<string, ExpandError>): Result<string, ExpandError> {
    match r
    case Err(e) => Err(e)
    case Ok(s) => Ok(prefix + s)
  }

  /** The path of the reference at the front, and the text after its `}`. */
  function SplitReference(s: string): (r: Option<(string, string)>)
    requires StartsReference(s)
    ensures r.Some? ==>
      var (path, rest) := r.value;
      '}' !in path && s == "${" + path + "}" + rest && |rest| < |s|
  {
    match IndexOf(s[2..], '}')
    case None => None
    case Some(end) => Some((s[2..][..end], s[2..][end + 1..]))
  }

  /** Left-to-right substitution; the text put in for a reference is not looked at again. */
  function Substitute(p: Platform, memory: Memory, s: string): Result<string, ExpandError>
    decreases |s|
  {
    if s == "" then Ok("")
    else if StartsReference(s) then
      match SplitReference(s)
      case None => Err(UnterminatedReference)
      case Some((path, rest)) =>
        match EvalPath(p, memory, path)
        case Err(e) => Err(BadPath(e))
        case Ok(v) => Prepend(Stringify(p, v), Substitute(p, memory, rest))
    else Prepend([s[0]], Substitute(p, memory, s[1..]))
  }

  function ExpandToken(p: Platform, memory: Memory, tok: string): Result<string, ExpandError> {
    if !ContainsReference(tok) then Ok(tok) else Substitute(p, memory, tok)
  }

  function ExpandArgv(p: Platform, memory: Memory, argv: seq<string>): (r: Result<seq<string>, ExpandError>)
    ensures r.Ok? ==> |r.value| == |argv|
    ensures r.Ok? ==> forall i :: 0 <= i < |argv| ==> ExpandToken(p, memory, argv[i]) == Ok(r.value[i])
  {
    if argv == [] then Ok([])
    else
      match ExpandToken(p, memory, argv[0])
      case Err(e) => Err(e)
      case Ok(word) =>
        match ExpandArgv(p, memory, argv[1..])
        case Err(e) => Err(e)
        case Ok(rest) => Ok([word] + rest)
  }

  /** The shortcut for tokens without references agrees with the loop. */
  lemma {:induction false} ShortcutIsSubstitution(p: Platform, memory: Memory, tok: string)
    ensures ExpandToken(p, memory, tok) == Substitute(p, memory, tok)
    decreases |tok|
  {
    if !ContainsReference(tok) && tok != "" {
      ShortcutIsSubstitution(p, memory, tok[1..]);
      assert [tok[0]] + tok[1..] == tok;
    }
  }

  /** Putting `b` after `a` does not make a new `${` at the seam. */
  predicate CleanJoin(a: string, b: string) {
    !(a != "" && a[|a| - 1] == '$' && b != "" && b[0] == '{')
  }

  lemma {:induction false} SubstituteConcat(p: Platform, memory: Memory, a: string, b: string)
    requires CleanJoin(a, b) && Substitute(p, memory, a) != Err(UnterminatedReference)
    ensures Substitute(p, memory, a + b)
         == match Substitute(p, memory, a)
            case Err(e) => Err(e)
            case Ok(x) => Prepend(x, Substitute(p, memory, b))
    decreases |a|
  {
    hide EvalPath, Stringify, SplitReference;
    if a == "" {
      assert a + b == b;
      var r := Substitute(p, memory, b);
      if r.Ok? { assert "" + r.value == r.value; }
    } else if StartsReference(a) {
      var (path, more) := SplitReference(a).value;
      SplitReferenceOf(path, more);
      SplitReferenceOf(path, more + b);
      assert a + b == "${" + path + "}" + (more + b);
      var v := EvalPath(p, memory, path);
      if v.Ok? {
        SubstituteConcat(p, memory, more, b);
        PrependTwice(Stringify(p, v.value), Substitute(p, memory, more), Substitute(p, memory, b));
      }
    } else {
      assert (a + b)[0] == a[0] && (a + b)[1..] == a[1..] + b;
      assert !StartsReference(a + b);
      SubstituteConcat(p, memory, a[1..], b);
      PrependTwice([a[0]], Substitute(p, memory, a[1..]), Substitute(p, memory, b));
    }
  }

  lemma SplitReferenceOf(path: string, rest: string)
    requires '}' !in path
    ensures var s := "${" + path + "}" + rest;
      StartsReference(s) && SplitReference(s) == Some((path, rest))
  {
    var s := "${" + path + "}" + rest;
    assert s[2..] == path + ['}'] + rest;
    IndexOfFirst(path, '}', rest);
    assert s[2..][..|path|] == path && s[2..][|path| + 1..] == rest;
  }

  lemma PrependTwice(x: string, r: Result<string, ExpandError>, s: Result<string, ExpandError>)
    ensures r.Ok? && s.Ok? ==> x + (r.value + s.value) == (x + r.value) + s.value
  {
  }

  /** Expansion works piece by piece: `a` then `b`, whenever the seam makes no new reference and `a`
      leaves none open. */
  lemma ExpandConcat(p: Platform, memory: Memory, a: string, b: string)
    requires CleanJoin(a, b) && ExpandToken(p, memory, a) != Err(UnterminatedReference)
    ensures ExpandToken(p, memory, a + b)
         == match ExpandToken(p, memory, a)
            case Err(e) => Err(e)
            case Ok(x) => Prepend(x, ExpandToken(p, memory, b))
  {
    ShortcutIsSubstitution(p, memory, a);
    ShortcutIsSubstitution(p, memory, b);
    ShortcutIsSubstitution(p, memory, a + b);
    SubstituteConcat(p, memory, a, b);
  }

  /** One reference alone expands to its printed value, verbatim: a value that itself looks like a
      reference is not expanded again. */
  lemma ExpandReference(p: Platform, memory: Memory, path: string)
    requires '}' !in path
    ensures ExpandToken(p, memory, "${" + path + "}")
         == match EvalPath(p, memory, path)
            case Err(e) => Err(BadPath(e))
            case Ok(v) => Ok(Stringify(p, v))
  {
    var tok := "${" + path + "}";
    SplitReferenceOf(path, "");
    assert tok + "" == tok;
    ShortcutIsSubstitution(p, memory, tok);
    var v := EvalPath(p, memory, path);
    if v.Ok? { assert Stringify(p, v.value) + "" == Stringify(p, v.value); }
  }

  /** How the value of a variable is printed. */
  lemma ValuePrinted(p: Platform, memory: Memory, root: string)
    requires IsVarName(root) && root != "env" && root in memory
    ensures ExpandToken(p, memory, "${" + root + "}")
         == Ok(match memory[root]
               case Null => ""
               case Bool(b) => (if b then "true" else "false")
               case Int(n) => FormatInt(n)
               case Num(x) =>
                 if exists n :: n as real == x && InInt64(n) then FormatInt(x.Floor) else p.number(x)
               case Str(s) => s
               case v => p.composite(v))
  {
    hide EvalPath, FormatInt, ExpandToken;
    assert forall c <- root :: IsVarChar(c);
    ExpandReference(p, memory, root);
    NameSelects(p, memory, root);
    var v := memory[root];
    if v.Num? && v.x.Floor as real == v.x && InInt64(v.x.Floor) {
      assert exists n :: n as real == v.x && InInt64(n);
    }
  }

  // ----- templates -----

  /** A token as the author means it: literal text and references. */
  datatype Piece = Lit(text: string) | Ref(path: string)

  function PrintPiece(piece: Piece): string {
    match piece
    case Lit(text) => text
    case Ref(path) => "${" + path + "}"
  }

  function PrintPieces(pieces: seq<Piece>): string {
    if pieces == [] then "" else PrintPiece(pieces[0]) + PrintPieces(pieces[1..])
  }

  /** The text splits back into these pieces: literals hold no `${`, not even across a seam, and
      paths hold no `}`. */
  predicate Unambiguous(pieces: seq<Piece>) {
    pieces != [] ==>
      (match pieces[0]
       case Lit(text) => !ContainsReference(text) && CleanJoin(text, PrintPieces(pieces[1..]))
       case Ref(path) => '}' !in path) &&
      Unambiguous(pieces[1..])
  }

  /** Each piece on its own, in order, up to the first failure. */
  function Meaning(p: Platform, memory: Memory, pieces: seq<Piece>): Result<string, ExpandError> {
    if pieces == [] then Ok("")
    else
      match pieces[0]
      case Lit(text) => Prepend(text, Meaning(p, memory, pieces[1..]))
      case Ref(path) =>
        match EvalPath(p, memory, path)
        case Err(e) => Err(BadPath(e))
        case Ok(v) => Prepend(Stringify(p, v), Meaning(p, memory, pieces[1..]))
  }

  /** Expansion substitutes once: literals stay, references become their values, and nothing that
      came out of a value is looked at again. */
  lemma {:induction false} ExpansionIsOnePass(p: Platform, memory: Memory, pieces: seq<Piece>)
    requires Unambiguous(pieces)
    ensures ExpandToken(p, memory, PrintPieces(pieces)) == Meaning(p, memory, pieces)
    decreases pieces
  {
    if pieces != [] {
      ExpansionIsOnePass(p, memory, pieces[1..]);
      var first, rest := PrintPiece(pieces[0]), PrintPieces(pieces[1..]);
      if pieces[0].Ref? { ExpandReference(p, memory, pieces[0].path); }
      ExpandConcat(p, memory, first, rest);
    }
  }

  /** Every `${` has its `}`. */
  predicate Terminated(s: string)
    decreases |s|
  {
    if s == "" then true
    else if StartsReference(s) then
      match SplitReference(s)
      case None => false
      case Some((_, rest)) => Terminated(rest)
    else Terminated(s[1..])
  }

  lemma ConsRef(path: string, pieces: seq<Piece>)
    requires '}' !in path && Unambiguous(pieces)
    ensures Unambiguous([Ref(path)] + pieces)
    ensures PrintPieces([Ref(path)] + pieces) == "${" + path + "}" + PrintPieces(pieces)
  {
    assert ([Ref(path)] + pieces)[1..] == pieces;
  }

  lemma ConsLit(c: char, pieces: seq<Piece>)
    requires Unambiguous(pieces) && CleanJoin([c], PrintPieces(pieces))
    ensures Unambiguous([Lit([c])] + pieces)
    ensures PrintPieces([Lit([c])] + pieces) == [c] + PrintPieces(pieces)
  {
    assert ([Lit([c])] + pieces)[1..] == pieces;
    assert [c][1..] == "";
  }

  /** Every token whose references are terminated has such pieces. */
  lemma {:induction false} TokenHasPieces(tok: string) returns (pieces: seq<Piece>)
    requires Terminated(tok)
    ensures Unambiguous(pieces) && PrintPieces(pieces) == tok
    decreases |tok|
  {
    hide Unambiguous, PrintPieces, SplitReference;
    if tok == "" {
      return NoPieces();
    }
    if StartsReference(tok) {
      var (path, more) := SplitReference(tok).value;
      var rest := TokenHasPieces(more);
      ConsRef(path, rest);
      pieces := [Ref(path)] + rest;
    } else {
      var rest := TokenHasPieces(tok[1..]);
      ConsLit(tok[0], rest);
      pieces := [Lit([tok[0]])] + rest;
      assert [tok[0]] + tok[1..] == tok;
    }
  }

  function NoPieces(): (pieces: seq<Piece>)
    ensures Unambiguous(pieces) && PrintPieces(pieces) == ""
  {
    []
  }

  // ----- the loops as the source runs them -----

  method RunSplitFirstIdent(s: string) returns (r: Result<(string, string), PathError>)
    ensures r == SplitFirstIdent(s)
  {
    if s == "" { return Err(ExpectedIdentifier); }
    var end := 0;
    while end < |s|
      invariant 0 <= end <= |s|
      invariant end > 0 ==> IsVarFirst(s[0])
      invariant forall c <- s[..end] :: IsVarChar(c)
    {
      var c := s[end];
      if !(IsVarFirst(c) || (end != 0 && IsDigit(c))) {
        if end == 0 { return Err(ExpectedIdentifier); }
        assert s == s[..end] + s[end..];
        IdentLengthOf(s[..end], s[end..]);
        return Ok((s[..end], s[end..]));
      }
      assert s[..end + 1] == s[..end] + [c];
      end := end + 1;
    }
    assert s[..end] == s == s + "";
    IdentLengthOf(s, "");
    return Ok((s, ""));
  }

  method RunEvalPath(p: Platform, memory: Memory, path: string) returns (r: Result<Value, PathError>)
    ensures r == EvalPath(p, memory, path)
  {
    var trimmed := TrimSpace(path);
    if trimmed == "" { return Err(EmptyPath); }
    var split := RunSplitFirstIdent(trimmed);
    if split.Err? { return Err(split.error); }
    var (root, rest) := split.value;
    if root == "env" {
      if !HasPrefix(rest, ".") { return Err(EnvNeedsName); }
      var after := RunSplitFirstIdent(rest[1..]);
      if after.Err? { return Err(after.error); }
      if after.value.1 != "" { return Err(EnvContinuation(after.value.1)); }
      return Ok(Str(p.getenv(after.value.0)));
    }
    if root !in memory { return Err(UnknownVariable(root)); }
    var val := memory[root];
    ghost var goal := Walk(val, rest);
    while rest != ""
      invariant goal == Walk(val, rest)
      decreases |rest|
    {
      var a: Access;
      if rest[0] == '.' {
        var field := RunSplitFirstIdent(rest[1..]);
        if field.Err? { return Err(field.error); }
        a, rest := Field(field.value.0), field.value.1;
      } else if rest[0] == '[' {
        var close := IndexOf(rest, ']');
        if close.None? { return Err(UnmatchedBracket); }
        var text := TrimSpace(rest[1..close.value]);
        var i := ParseInt(text);
        if i.None? { return Err(InvalidIndex(text)); }
        a, rest := Index(i.value), rest[close.value + 1..];
      } else {
        return Err(UnexpectedCharacter(rest[0]));
      }
      var next := Step(val, a);
      if next.Err? { return Err(next.error); }
      val := next.value;
    }
    return Ok(val);
  }

  /** The reference at position `i`, by absolute positions. */
  lemma SplitReferenceAt(tok: string, i: nat)
    requires i < |tok| && StartsReference(tok[i..])
    ensures SplitReference(tok[i..])
         == match IndexOf(tok[i + 2..], '}')
            case None => None
            case Some(end) => Some((tok[i + 2..i + 2 + end], tok[i + 2 + end + 1..]))
  {
    hide IndexOf;
    assert tok[i..][2..] == tok[i + 2..];
    var end := IndexOf(tok[i + 2..], '}');
    if end.Some? {
      assert tok[i + 2..][..end.value] == tok[i + 2..i + 2 + end.value];
      assert tok[i + 2..][end.value + 1..] == tok[i + 2 + end.value + 1..];
    }
  }

  lemma AtReference(p: Platform, memory: Memory, tok: string, i: nat, out: string)
    requires i < |tok| && StartsReference(tok[i..])
    ensures Prepend(out, Substitute(p, memory, tok[i..]))
         == match IndexOf(tok[i + 2..], '}')
            case None => Err(UnterminatedReference)
            case Some(end) =>
              match EvalPath(p, memory, tok[i + 2..i + 2 + end])
              case Err(e) => Err(BadPath(e))
              case Ok(v) => Prepend(out + Stringify(p, v), Substitute(p, memory, tok[i + 2 + end + 1..]))
  {
    hide EvalPath, Stringify, IndexOf, SplitReference;
    SplitReferenceAt(tok, i);
    var split := SplitReference(tok[i..]);
    if split.Some? {
      var (path, rest) := split.value;
      var v := EvalPath(p, memory, path);
      if v.Ok? { PrependTwice(out, Ok(Stringify(p, v.value)), Substitute(p, memory, rest)); }
    }
  }

  lemma AtText(p: Platform, memory: Memory, tok: string, i: nat, out: string)
    requires i < |tok| && !StartsReference(tok[i..])
    ensures Prepend(out, Substitute(p, memory, tok[i..]))
         == Prepend(out + [tok[i]], Substitute(p, memory, tok[i + 1..]))
  {
    assert tok[i..][1..] == tok[i + 1..];
    PrependTwice(out, Ok([tok[i]]), Substitute(p, memory, tok[i + 1..]));
  }

  lemma AtEnds(p: Platform, memory: Memory, tok: string, out: string)
    ensures Prepend("", Substitute(p, memory, tok[0..])) == Substitute(p, memory, tok)
    ensures Prepend(out, Substitute(p, memory, tok[|tok|..])) == Ok(out)
  {
    var r := Substitute(p, memory, tok);
    assert tok[0..] == tok && tok[|tok|..] == "" && out + "" == out;
    if r.Ok? { assert "" + r.value == r.value; }
  }

  method RunExpandToken(p: Platform, memory: Memory, tok: string) returns (r: Result<string, ExpandError>)
    ensures r == ExpandToken(p, memory, tok)
  {
    hide EvalPath, Stringify, ContainsReference, Substitute, Prepend;
    if !ContainsReference(tok) { return Ok(tok); }
    var out, i := "", 0;
    AtEnds(p, memory, tok, out);
    while i < |tok|
      invariant 0 <= i <= |tok|
      invariant Substitute(p, memory, tok) == Prepend(out, Substitute(p, memory, tok[i..]))
    {
      if i + 1 < |tok| && tok[i] == '$' && tok[i + 1] == '{' {
        AtReference(p, memory, tok, i, out);
        var end := IndexOf(tok[i + 2..], '}');
        if end.None? { return Err(UnterminatedReference); }
        var path := tok[i + 2..i + 2 + end.value];
        var val := RunEvalPath(p, memory, path);
        if val.Err? { return Err(BadPath(val.error)); }
        out := out + Stringify(p, val.value);
        i := i + 2 + end.value + 1;
      } else {
        AtText(p, memory, tok, i, out);
        out := out + [tok[i]];
        i := i + 1;
      }
    }
    AtEnds(p, memory, tok, out);
    return Ok(out);
  }
}
