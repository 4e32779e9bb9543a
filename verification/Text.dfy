/** Results, options and the small part of Go's `strings` and `strconv` that the modelled code
    relies on.  A string is a sequence of characters; case folding is ASCII. */
module Text {

  datatype Option<+T> = None | Some(value: T)

  datatype Result<+T, +E> = Ok(value: T) | Err(error: E)

  /** `strings.Join`. */
  function Join(parts: seq<string>, sep: string): string {
    if |parts| == 0 then ""
    else if |parts| == 1 then parts[0]
    else parts[0] + sep + Join(parts[1..], sep)
  }

  /** `strings.Split` with a one-character separator. */
  function Split(s: string, sep: char): (parts: seq<string>)
    ensures |parts| > 0
  {
    if s == "" then [""]
    else
      var rest := Split(s[1..], sep);
      if s[0] == sep then [""] + rest else [[s[0]] + rest[0]] + rest[1..]
  }

  /** A separator-free prefix followed by a separator is the first part. */
  lemma {:induction false} SplitPrefix(a: string, rest: string, sep: char)
    requires sep !in a
    ensures Split(a + [sep] + rest, sep) == [a] + Split(rest, sep)
  {
    if a == "" {
      assert a + [sep] + rest == [sep] + rest;
      assert ([sep] + rest)[1..] == rest;
    } else {
      SplitPrefix(a[1..], rest, sep);
      var whole := a + [sep] + rest;
      assert whole[1..] == a[1..] + [sep] + rest;
      var parts := Split(whole[1..], sep);
      assert parts[0] == a[1..] && parts[1..] == Split(rest, sep);
      assert [whole[0]] + parts[0] == a;
    }
  }

  /** A separator-free string is its own only part. */
  lemma {:induction false} SplitWhole(a: string, sep: char)
    requires sep !in a
    ensures Split(a, sep) == [a]
  {
    if a != "" {
      SplitWhole(a[1..], sep);
      assert [a[0]] + a[1..] == a;
    }
  }

  /** Joining is undone by splitting, unless a part holds the separator. */
  lemma {:induction false} JoinSplit(parts: seq<string>, sep: char)
    requires parts != [] && forall part <- parts :: sep !in part
    ensures Split(Join(parts, [sep]), sep) == parts
  {
    assert parts[0] in parts && forall part <- parts[1..] :: part in parts;
    if |parts| == 1 {
      SplitWhole(parts[0], sep);
    } else {
      JoinSplit(parts[1..], sep);
      SplitPrefix(parts[0], Join(parts[1..], [sep]), sep);
    }
  }

  /** `strings.IndexByte`: the first position of `c`, if any. */
  function IndexOf(s: string, c: char): (r: Option<nat>)
    ensures r.Some? ==> r.value < |s| && s[r.value] == c && c !in s[..r.value]
    ensures r.None? <==> c !in s
  {
    if s == "" then None
    else if s[0] == c then Some(0)
    else
      match IndexOf(s[1..], c)
      case None => None
      case Some(i) => assert s[..i + 1] == [s[0]] + s[1..][..i]; Some(i + 1)
  }

  lemma {:induction false} IndexOfFirst(a: string, c: char, b: string)
    requires c !in a
    ensures IndexOf(a + [c] + b, c) == Some(|a|)
  {
    if a != "" {
      assert (a + [c] + b)[1..] == a[1..] + [c] + b;
      IndexOfFirst(a[1..], c, b);
    }
  }

  predicate HasPrefix(s: string, prefix: string) { prefix <= s }

  function TrimPrefix(s: string, prefix: string): string {
    if HasPrefix(s, prefix) then s[|prefix|..] else s
  }

  predicate IsSpace(c: char) {
    c == ' ' || c == '\t' || c == '\n' || c == '\r' || c == '\U{0B}' || c == '\U{0C}'
  }

  function TrimLeft(s: string): string {
    if s != "" && IsSpace(s[0]) then TrimLeft(s[1..]) else s
  }

  function TrimRight(s: string): string {
    if s != "" && IsSpace(s[|s| - 1]) then TrimRight(s[..|s| - 1]) else s
  }

  /** `strings.TrimSpace`. */
  function TrimSpace(s: string): string { TrimRight(TrimLeft(s)) }

  predicate Trimmed(s: string) { s == "" || (!IsSpace(s[0]) && !IsSpace(s[|s| - 1])) }

  predicate AllSpaces(s: string) { forall c <- s :: IsSpace(c) }

  /** Trimming takes off all the space on both sides, and nothing else. */
  lemma TrimSpaceIs(a: string, t: string, b: string)
    requires AllSpaces(a) && AllSpaces(b) && Trimmed(t)
    ensures TrimSpace(a + t + b) == t
  {
    assert a + t + b == a + (t + b);
    if t == "" {
      assert forall c <- a + b :: c in a || c in b;
      assert a + t + b == (a + b) + "";
      TrimLeftIs(a + b, "");
    } else {
      TrimLeftIs(a, t + b);
      TrimRightIs(t, b);
    }
  }

  lemma {:induction false} TrimLeftIs(a: string, t: string)
    requires AllSpaces(a) && (t == "" || !IsSpace(t[0]))
    ensures TrimLeft(a + t) == t
  {
    if a == "" {
      assert a + t == t;
    } else {
      assert a[0] in a && forall c <- a[1..] :: c in a;
      assert (a + t)[1..] == a[1..] + t;
      TrimLeftIs(a[1..], t);
    }
  }

  lemma {:induction false} TrimRightIs(t: string, b: string)
    requires AllSpaces(b) && t != "" && !IsSpace(t[|t| - 1])
    ensures TrimRight(t + b) == t
  {
    if b == "" {
      assert t + b == t;
    } else {
      var n := |b| - 1;
      assert b[n] in b && forall c <- b[..n] :: c in b;
      assert (t + b)[..|t + b| - 1] == t + b[..n];
      TrimRightIs(t, b[..n]);
    }
  }

  lemma TrimmedUnchanged(s: string)
    requires Trimmed(s)
    ensures TrimSpace(s) == s
  {
  }

  function LowerChar(c: char): char {
    if 'A' <= c <= 'Z' then ((c as int) + 32) as char else c
  }

  function UpperChar(c: char): char {
    if 'a' <= c <= 'z' then ((c as int) - 32) as char else c
  }

  function ToLower(s: string): string { seq(|s|, i requires 0 <= i < |s| => LowerChar(s[i])) }

  function ToUpper(s: string): string { seq(|s|, i requires 0 <= i < |s| => UpperChar(s[i])) }

  const CAPITALS := "ABCDEFGHIJKLMNOPQRSTUVWXYZ"
  const SMALLS := "abcdefghijklmnopqrstuvwxyz"

  /** Letters change case, everything else stays. */
  lemma CaseOfLetters(s: string, i: nat)
    requires i < |s|
    ensures |ToLower(s)| == |s| == |ToUpper(s)|
    ensures s[i] !in CAPITALS ==> ToLower(s)[i] == s[i]
    ensures s[i] !in SMALLS ==> ToUpper(s)[i] == s[i]
    ensures forall k :: 0 <= k < 26 ==>
      (s[i] == CAPITALS[k] ==> ToLower(s)[i] == SMALLS[k]) && (s[i] == SMALLS[k] ==> ToUpper(s)[i] == CAPITALS[k])
  {
    Alphabet(s[i]);
  }

  lemma Alphabet(c: char)
    ensures |CAPITALS| == |SMALLS| == 26
    ensures forall k :: 0 <= k < 26 ==>
      CAPITALS[k] as int == ('A' as int) + k && SMALLS[k] as int == ('a' as int) + k
    ensures 'A' <= c <= 'Z' ==> c in CAPITALS
    ensures 'a' <= c <= 'z' ==> c in SMALLS
  {
    if 'A' <= c <= 'Z' { assert CAPITALS[(c as int) - ('A' as int)] == c; }
    if 'a' <= c <= 'z' { assert SMALLS[(c as int) - ('a' as int)] == c; }
  }

  lemma LowerTwice(s: string)
    ensures ToLower(ToLower(s)) == ToLower(s)
  {
  }

  /** Go's `<` on strings: lexicographic by character. */
  predicate StrLess(a: string, b: string) {
    if b == "" then false
    else if a == "" then true
    else if a[0] != b[0] then a[0] < b[0]
    else StrLess(a[1..], b[1..])
  }

  lemma {:induction false} StrLessAsymmetric(a: string, b: string)
    ensures !(StrLess(a, b) && StrLess(b, a))
  {
    if a != "" && b != "" && a[0] == b[0] { StrLessAsymmetric(a[1..], b[1..]); }
  }

  lemma {:induction false} StrLessTotal(a: string, b: string)
    ensures a == b <==> !StrLess(a, b) && !StrLess(b, a)
  {
    if a != "" && b != "" {
      StrLessTotal(a[1..], b[1..]);
      assert a == [a[0]] + a[1..] && b == [b[0]] + b[1..];
    }
  }

  lemma {:induction false} StrLessTransitive(a: string, b: string, c: string)
    requires StrLess(a, b) && StrLess(b, c)
    ensures StrLess(a, c)
  {
    if a != "" && a[0] == b[0] == c[0] { StrLessTransitive(a[1..], b[1..], c[1..]); }
  }

  /** The first differing character decides, and a proper prefix comes first. */
  lemma {:induction false} FirstDifferenceDecides(p: string, a: string, b: string)
    requires a == "" || b == "" || a[0] != b[0]
    ensures StrLess(p + a, p + b) <==> b != "" && (a == "" || a[0] < b[0])
  {
    if p == "" {
      assert p + a == a && p + b == b;
    } else {
      assert (p + a)[1..] == p[1..] + a && (p + b)[1..] == p[1..] + b;
      FirstDifferenceDecides(p[1..], a, b);
    }
  }

  // ----- integers in text -----

  const INT64_MAX: int := 0x7FFF_FFFF_FFFF_FFFF
  const INT64_MIN: int := -0x8000_0000_0000_0000

  const UINT64_MAX: nat := 0xFFFF_FFFF_FFFF_FFFF

  predicate InInt64(n: int) { INT64_MIN <= n <= INT64_MAX }

  predicate IsDigit(c: char) { '0' <= c <= '9' }

  function DigitsValue(s: string): (n: nat)
    requires forall c <- s :: IsDigit(c)
  {
    if s == "" then 0
    else
      assert IsDigit(s[|s| - 1]);
      10 * DigitsValue(s[..|s| - 1]) + ((s[|s| - 1] as int) - ('0' as int))
  }

  /** `strconv.ParseInt(s, 10, 64)`, which on a 64-bit platform is also `strconv.Atoi`:
      an optional sign, at least one digit, nothing else, and a value in range. */
  function ParseInt(s: string): (r: Option<int>)
    ensures r.Some? ==> InInt64(r.value)
  {
    var digits := if s != "" && (s[0] == '+' || s[0] == '-') then s[1..] else s;
    if digits == "" || exists c <- digits :: !IsDigit(c) then None
    else
      var magnitude: int := DigitsValue(digits);
      var n: int := if s[0] == '-' then -magnitude else magnitude;
      if InInt64(n) then Some(n) else None
  }

  function FormatNat(n: nat): (s: string)
    ensures |s| > 0 && forall c <- s :: IsDigit(c)
  {
    var last := [((n % 10) + ('0' as int)) as char];
    if n < 10 then last else FormatNat(n / 10) + last
  }

  /** `strconv.FormatInt(n, 10)`. */
  function FormatInt(n: int): string { if n < 0 then "-" + FormatNat(-n) else FormatNat(n) }

  lemma {:induction false} FormatNatValue(n: nat)
    ensures DigitsValue(FormatNat(n)) == n
  {
    if n >= 10 {
      FormatNatValue(n / 10);
      var s := FormatNat(n);
      assert s[..|s| - 1] == FormatNat(n / 10);
    }
  }

  /** Every 64-bit integer is read back from its printed form. */
  lemma ParseFormatInt(n: int)
    requires InInt64(n)
    ensures ParseInt(FormatInt(n)) == Some(n)
  {
    if n < 0 {
      FormatNatValue(-n);
      assert FormatInt(n)[1..] == FormatNat(-n);
    } else {
      FormatNatValue(n);
      assert IsDigit(FormatInt(n)[0]);
    }
  }

  /** A sign and leading zeros are read over. */
  lemma Numerals(zeros: string, n: int)
    requires (forall c <- zeros :: c == '0') && 0 <= n <= INT64_MAX
    ensures var d := zeros + FormatNat(n);
      ParseInt(d) == Some(n) && ParseInt("+" + d) == Some(n) && ParseInt("-" + d) == Some(-n)
  {
    FormatNatValue(n);
    ZerosInFront(zeros, FormatNat(n));
    hide DigitsValue, FormatNat, ParseInt;
    SignedNumeral(zeros + FormatNat(n));
  }

  lemma SignedNumeral(d: string)
    requires d != "" && forall c <- d :: IsDigit(c)
    ensures var n: int := DigitsValue(d);
      InInt64(n) ==>
        ParseInt(d) == Some(n) && ParseInt("+" + d) == Some(n) && ParseInt("-" + d) == Some(-n)
  {
    assert d[0] in d && ("+" + d)[1..] == d && ("-" + d)[1..] == d;
    hide DigitsValue;
  }

  lemma {:induction false} ZerosInFront(zeros: string, d: string)
    requires (forall c <- zeros :: c == '0') && forall c <- d :: IsDigit(c)
    ensures (forall c <- zeros + d :: IsDigit(c)) && DigitsValue(zeros + d) == DigitsValue(d)
  {
    assert forall c <- zeros + d :: c in zeros || c in d;
    if d == "" {
      OnlyZeros(zeros);
      assert zeros + d == zeros;
    } else {
      var n := |d| - 1;
      ZerosInFront(zeros, d[..n]);
      assert (zeros + d)[..|zeros + d| - 1] == zeros + d[..n] && (zeros + d)[|zeros + d| - 1] == d[n];
    }
  }

  lemma {:induction false} OnlyZeros(zeros: string)
    requires forall c <- zeros :: c == '0'
    ensures (forall c <- zeros :: IsDigit(c)) && DigitsValue(zeros) == 0
  {
    if zeros != "" {
      var init := zeros[..|zeros| - 1];
      assert zeros[|zeros| - 1] in zeros;
      forall c | c in init ensures c == '0' { assert c in zeros; }
      OnlyZeros(init);
    }
  }

  /** Nothing else is a numeral. */
  lemma NoNumeral(s: string)
    requires s in {"", "+", "-"} || !(IsDigit(s[0]) || s[0] == '+' || s[0] == '-') || exists c <- s[1..] :: !IsDigit(c)
    ensures ParseInt(s).None?
  {
    if s != "" && exists c <- s[1..] :: !IsDigit(c) {
      var c :| c in s[1..] && !IsDigit(c);
      assert c in s;
    } else if s != "" {
      assert s[0] in s;
    }
  }

  /** A printed integer contains only digits and a minus sign. */
  lemma FormatIntChars(n: int)
    ensures forall c <- FormatInt(n) :: c == '-' || IsDigit(c)
  {
  }
}
