/** Statements of the recipe language and the errors its parser reports. */
module RecipeSyntax {
  import opened Text

  /** What a statement is: an ordinary command, or one of the four control markers. */
  datatype Control = Command | If | ElseIf | Else | End

  /** One parsed unit.  `capture` is "" when the command's output is not captured. */
  datatype Statement = Statement(
    line: nat, argv: seq<string>, capture: string, src: string, control: Control, cond: seq<string>)

  /** A parse error and where it is reported. */
  datatype ParseError = ParseError(src: string, line: nat, kind: ErrorKind)

  datatype ErrorKind =
    | BeginWithoutHeader
    | IfWithoutCondition
    | ElseIfWithoutCondition
    | UnexpectedAfterElse(got: string)
    | UnexpectedBeforeBegin(got: string)
    | UnexpectedBeforeEnd(argv: seq<string>)
    | HeaderWithoutBegin(word: string)
    | UnterminatedQuote
    | UnterminatedStatement
    | OutsideIf(control: Control)
    | AfterElse(control: Control)
    | EndWithoutIf
    | NotClosed

  predicate IsVarFirst(c: char) { c == '_' || 'a' <= c <= 'z' || 'A' <= c <= 'Z' }

  predicate IsVarChar(c: char) { IsVarFirst(c) || IsDigit(c) }

  /** `isVarName`: a letter or underscore, then letters, digits and underscores. */
  predicate IsVarName(s: string) {
    s != "" && IsVarFirst(s[0]) && forall c <- s :: IsVarChar(c)
  }

  /** The characters of names, letter by letter. */
  lemma NameCharacters(c: char)
    ensures IsVarFirst(c) <==> c == '_' || c in SMALLS || c in CAPITALS
    ensures IsVarChar(c) <==> IsVarFirst(c) || c in "0123456789"
  {
    Alphabet(c);
    if IsDigit(c) { assert "0123456789"[(c as int) - ('0' as int)] == c; }
  }
}
