/** Version order: the market's lax dotted comparison, the CLI's comparison, and the insertion sort
    that lists versions newest first. */
module MarketSemver {
  import opened Text

  // ----- the lax order -----

  /** Component `0` of a split version; a missing one reads as "". */
  function Head(parts: seq<string>): string { if parts == [] then "" else parts[0] }

  function Rest(parts: seq<string>): seq<string> { if parts == [] then [] else parts[1..] }

  function PartsLess(pa: seq<string>, pb: seq<string>): bool
    decreases |pa| + |pb|
  {
    if pa == [] && pb == [] then false
    else
      var xa, xb := Head(pa), Head(pb);
      var na, nb := ParseInt(xa), ParseInt(xb);
      if na.Some? && nb.Some? then
        if na.value != nb.value then na.value < nb.value else PartsLess(Rest(pa), Rest(pb))
      else if xa != xb then StrLess(xa, xb)
      else PartsLess(Rest(pa), Rest(pb))
  }

  predicate SemverLess(a: string, b: string) { PartsLess(Split(a, '.'), Split(b, '.')) }

  method RunSemverLess(a: string, b: string) returns (r: bool)
    ensures r == SemverLess(a, b)
  {
    hide ParseInt, StrLess, Split;
    var pa, pb := Split(a, '.'), Split(b, '.');
    var i := 0;
    assert From(pa, 0) == pa && From(pb, 0) == pb;
    while i < |pa| || i < |pb|
      invariant i >= 0
      invariant SemverLess(a, b) == PartsLess(From(pa, i), From(pb, i))
      decreases |pa| + |pb| - i
    {
      var xa := if i < |pa| then pa[i] else "";
      var xb := if i < |pb| then pb[i] else "";
      FromNext(pa, i);
      FromNext(pb, i);
      var na, nb := ParseInt(xa), ParseInt(xb);
      if na.Some? && nb.Some? {
        if na.value != nb.value { return na.value < nb.value; }
      } else if xa != xb {
        return StrLess(xa, xb);
      }
      i := i + 1;
    }
    return false;
  }

  function From(parts: seq<string>, i: nat): seq<string> { if i <= |parts| then parts[i..] else [] }

  lemma FromNext(parts: seq<string>, i: nat)
    ensures From(parts, i) == [] <==> i >= |parts|
    ensures Head(From(parts, i)) == if i < |parts| then parts[i] else ""
    ensures Rest(From(parts, i)) == From(parts, i + 1)
  {
  }

  lemma {:induction false} PartsLessAsymmetric(pa: seq<string>, pb: seq<string>)
    ensures !(PartsLess(pa, pb) && PartsLess(pb, pa))
    decreases |pa| + |pb|
  {
    hide ParseInt;
    if pa != [] || pb != [] {
      StrLessAsymmetric(Head(pa), Head(pb));
      PartsLessAsymmetric(Rest(pa), Rest(pb));
    }
  }

  /** No two strings are each below the other. */
  lemma SemverAsymmetric(a: string, b: string)
    ensures !(SemverLess(a, b) && SemverLess(b, a))
  {
    PartsLessAsymmetric(Split(a, '.'), Split(b, '.'));
  }

  /** On arbitrary strings the order has cycles. */
  lemma SemverCycle()
    ensures SemverLess("9", "10") && SemverLess("10", "1a") && SemverLess("1a", "9")
  {
    SplitWhole("9", '.');
    SplitWhole("10", '.');
    SplitWhole("1a", '.');
    ParseFormatInt(9);
    ParseFormatInt(10);
    assert FormatInt(9) == "9" && FormatInt(10) == "10";
    assert "1a"[1] == 'a';
    assert ParseInt("1a").None? by { assert !IsDigit("1a"[1]) && "1a"[1] in "1a"; }
    assert "10"[1..] == "0" && "1a"[1..] == "a";
  }

  // ----- where the order is a strict weak order -----

  predicate IsNumber(x: string) { ParseInt(x).Some? }

  predicate NoDots(parts: seq<string>) { forall p <- parts :: '.' !in p }

  lemma {:induction false} SamePrefix(pre: seq<string>, pa: seq<string>, pb: seq<string>)
    ensures PartsLess(pre + pa, pre + pb) == PartsLess(pa, pb)
  {
    hide ParseInt, StrLess;
    if pre == [] {
      assert pre + pa == pa && pre + pb == pb;
    } else {
      assert (pre + pa)[1..] == pre[1..] + pa && (pre + pb)[1..] == pre[1..] + pb;
      SamePrefix(pre[1..], pa, pb);
    }
  }

  predicate Differ(x: string, y: string) {
    if IsNumber(x) && IsNumber(y) then ParseInt(x).value != ParseInt(y).value else x != y
  }

  lemma PartsDiffer(pre: seq<string>, x: string, y: string, ra: seq<string>, rb: seq<string>)
    requires Differ(x, y)
    ensures PartsLess(pre + ([x] + ra), pre + ([y] + rb))
       <==> if IsNumber(x) && IsNumber(y) then ParseInt(x).value < ParseInt(y).value else StrLess(x, y)
  {
    SamePrefix(pre, [x] + ra, [y] + rb);
    hide ParseInt, StrLess;
    assert Head([x] + ra) == x && Head([y] + rb) == y;
  }

  lemma PartsContinue(pre: seq<string>, x: string, r: seq<string>)
    requires x != ""
    ensures PartsLess(pre, pre + ([x] + r))
  {
    SamePrefix(pre, [], [x] + r);
    EmptyIsNoNumber();
    hide ParseInt;
    assert pre + [] == pre;
  }

  /** The first component that differs decides, as numbers if both are and as text otherwise. */
  lemma FirstComponentDecides(pre: seq<string>, x: string, y: string, ra: seq<string>, rb: seq<string>)
    requires NoDots(pre + ([x] + ra)) && NoDots(pre + ([y] + rb)) && Differ(x, y)
    ensures SemverLess(Join(pre + ([x] + ra), "."), Join(pre + ([y] + rb), "."))
       <==> if IsNumber(x) && IsNumber(y) then ParseInt(x).value < ParseInt(y).value else StrLess(x, y)
  {
    JoinSplit(pre + ([x] + ra), '.');
    JoinSplit(pre + ([y] + rb), '.');
    PartsDiffer(pre, x, y, ra, rb);
    hide PartsLess, Split, Join, ParseInt, StrLess;
  }

  /** A version is below every continuation of it. */
  lemma ContinuationIsAbove(pre: seq<string>, x: string, r: seq<string>)
    requires pre != [] && x != "" && NoDots(pre) && NoDots(pre + ([x] + r))
    ensures SemverLess(Join(pre, "."), Join(pre + ([x] + r), "."))
  {
    JoinSplit(pre, '.');
    JoinSplit(pre + ([x] + r), '.');
    PartsContinue(pre, x, r);
    hide PartsLess, Split, Join;
  }

  predicate HeadSame(x: string, y: string) {
    if IsNumber(x) && IsNumber(y) then ParseInt(x).value == ParseInt(y).value else x == y
  }

  predicate HeadLess(x: string, y: string) {
    if IsNumber(x) && IsNumber(y) then ParseInt(x).value < ParseInt(y).value else StrLess(x, y)
  }

  lemma HeadTotal(x: string, y: string)
    ensures HeadSame(x, y) <==> !HeadLess(x, y) && !HeadLess(y, x)
    ensures !(HeadLess(x, y) && HeadLess(y, x))
  {
    hide ParseInt;
    StrLessTotal(x, y);
    StrLessAsymmetric(x, y);
  }

  /** One step of the comparison, both versions being over included. */
  lemma PartsLessNext(pa: seq<string>, pb: seq<string>)
    ensures PartsLess(pa, pb)
         == if HeadSame(Head(pa), Head(pb)) then PartsLess(Rest(pa), Rest(pb)) else HeadLess(Head(pa), Head(pb))
  {
    hide ParseInt, StrLess;
  }

  /** Three words each below the next, around. */
  predicate HeadCycle(x: string, y: string, z: string) {
    (HeadLess(x, y) && HeadLess(y, z) && HeadLess(z, x)) || (HeadLess(y, x) && HeadLess(z, y) && HeadLess(x, z))
  }

  /** `z` comes between two spellings of the same number only if the rests put the spellings that way. */
  predicate Settled(x: string, y: string, z: string, p: seq<string>, q: seq<string>) {
    (HeadLess(y, z) && HeadLess(z, x) ==> PartsLess(q, p)) && (HeadLess(x, z) && HeadLess(z, y) ==> PartsLess(p, q))
  }

  /** Where three versions first differ, nothing goes around. */
  predicate Straight(pa: seq<string>, pb: seq<string>, pc: seq<string>)
    decreases |pa| + |pb| + |pc|
  {
    var x, y, z := Head(pa), Head(pb), Head(pc);
    if pa == [] && pb == [] && pc == [] then true
    else if HeadSame(x, y) && HeadSame(y, z) then Straight(Rest(pa), Rest(pb), Rest(pc))
    else if HeadSame(x, y) then Settled(x, y, z, Rest(pa), Rest(pb))
    else if HeadSame(y, z) then Settled(y, z, x, Rest(pb), Rest(pc))
    else if HeadSame(x, z) then Settled(x, z, y, Rest(pa), Rest(pc))
    else !HeadCycle(x, y, z)
  }

  predicate StraightVersions(a: string, b: string, c: string) { Straight(Split(a, '.'), Split(b, '.'), Split(c, '.')) }

  /** What is below is below, or above, whatever else there is. */
  predicate Separates(p: seq<string>, q: seq<string>, r: seq<string>) {
    PartsLess(p, r) ==> PartsLess(p, q) || PartsLess(q, r)
  }

  predicate WeaklyOrderedParts(p: seq<string>, q: seq<string>, r: seq<string>) {
    Separates(p, q, r) && Separates(p, r, q) && Separates(q, p, r) &&
    Separates(q, r, p) && Separates(r, p, q) && Separates(r, q, p)
  }

  /** The three versions are in weak order: a version below another is below any third, or that third is
      below the other. */
  predicate WeaklyOrdered(a: string, b: string, c: string) {
    (SemverLess(a, c) ==> SemverLess(a, b) || SemverLess(b, c)) &&
    (SemverLess(a, b) ==> SemverLess(a, c) || SemverLess(c, b)) &&
    (SemverLess(b, c) ==> SemverLess(b, a) || SemverLess(a, c)) &&
    (SemverLess(b, a) ==> SemverLess(b, c) || SemverLess(c, a)) &&
    (SemverLess(c, b) ==> SemverLess(c, a) || SemverLess(a, b)) &&
    (SemverLess(c, a) ==> SemverLess(c, b) || SemverLess(b, a))
  }

  lemma HeadSameTransitive(x: string, y: string, z: string)
    ensures HeadSame(x, y) && HeadSame(y, z) ==> HeadSame(x, z)
    ensures HeadSame(x, y) <==> HeadSame(y, x)
  {
    hide ParseInt;
  }

  lemma {:induction false} StraightPartsIff(pa: seq<string>, pb: seq<string>, pc: seq<string>)
    ensures WeaklyOrderedParts(pa, pb, pc) <==> Straight(pa, pb, pc)
    decreases |pa| + |pb| + |pc|
  {
    if pa != [] || pb != [] || pc != [] {
      var x, y, z := Head(pa), Head(pb), Head(pc);
      StraightPartsIff(Rest(pa), Rest(pb), Rest(pc));
      StepsOf(pa, pb);
      StepsOf(pb, pc);
      StepsOf(pa, pc);
      HeadSameTransitive(x, y, z);
      HeadSameTransitive(y, x, z);
      HeadSameTransitive(x, z, y);
      hide PartsLess, HeadSame, HeadLess;
    }
  }

  /** Both ways of comparing two versions, one step unrolled. */
  lemma StepsOf(pa: seq<string>, pb: seq<string>)
    ensures var x, y := Head(pa), Head(pb);
      PartsLess(pa, pb) == (if HeadSame(x, y) then PartsLess(Rest(pa), Rest(pb)) else HeadLess(x, y)) &&
      PartsLess(pb, pa) == (if HeadSame(x, y) then PartsLess(Rest(pb), Rest(pa)) else HeadLess(y, x)) &&
      (HeadSame(x, y) <==> !HeadLess(x, y) && !HeadLess(y, x)) && !(HeadLess(x, y) && HeadLess(y, x)) &&
      !(PartsLess(pa, pb) && PartsLess(pb, pa)) && !(PartsLess(Rest(pa), Rest(pb)) && PartsLess(Rest(pb), Rest(pa)))
  {
    PartsLessNext(pa, pb);
    PartsLessNext(pb, pa);
    HeadTotal(Head(pa), Head(pb));
    HeadTotal(Head(pb), Head(pa));
    PartsLessAsymmetric(pa, pb);
    PartsLessAsymmetric(Rest(pa), Rest(pb));
    hide PartsLess, HeadSame, HeadLess;
  }

  /** The lax order is a strict weak order on three versions exactly when nothing goes around where they
      first differ. */
  lemma StraightIff(a: string, b: string, c: string)
    ensures WeaklyOrdered(a, b, c) <==> StraightVersions(a, b, c)
  {
    hide PartsLess, Straight, Split;
    StraightPartsIff(Split(a, '.'), Split(b, '.'), Split(c, '.'));
  }

  /** In particular it is transitive there, and so is not being below. */
  lemma StraightTransitive(a: string, b: string, c: string)
    requires StraightVersions(a, b, c)
    ensures SemverLess(a, b) && SemverLess(b, c) ==> SemverLess(a, c)
    ensures !SemverLess(a, b) && !SemverLess(b, c) ==> !SemverLess(a, c)
  {
    StraightIff(a, b, c);
    SemverAsymmetric(a, b);
    SemverAsymmetric(b, c);
    hide SemverLess, StraightVersions;
  }

  /** Text order reverses the numbers `m` and `n`, and the word `w` comes between. */
  predicate Reversed(m: string, w: string, n: string) {
    IsNumber(m) && IsNumber(n) && !IsNumber(w) && ParseInt(m).value < ParseInt(n).value &&
    StrLess(n, w) && StrLess(w, m)
  }

  /** Words go around exactly when one that is no number comes between two numbers that text order
      reverses, as 1a between 9 and 10. */
  lemma HeadCycleIff(x: string, y: string, z: string)
    ensures HeadCycle(x, y, z)
       <==> Reversed(x, y, z) || Reversed(x, z, y) || Reversed(y, x, z) ||
            Reversed(y, z, x) || Reversed(z, x, y) || Reversed(z, y, x)
  {
    hide ParseInt, StrLess;
    TextOrder(x, y, z);
    TextOrder(x, z, y);
    TextOrder(y, x, z);
    TextOrder(y, z, x);
    TextOrder(z, x, y);
    TextOrder(z, y, x);
  }

  lemma TextOrder(x: string, y: string, z: string)
    ensures StrLess(x, y) && StrLess(y, z) ==> StrLess(x, z)
    ensures !(StrLess(x, y) && StrLess(y, x))
    ensures x == y <==> !StrLess(x, y) && !StrLess(y, x)
  {
    if StrLess(x, y) && StrLess(y, z) { StrLessTransitive(x, y, z); }
    StrLessAsymmetric(x, y);
    StrLessTotal(x, y);
  }

  /** The components of one position are all numeric or all not, where missing or empty ones are. */
  predicate Alike(x: string, y: string, z: string) {
    ((IsNumber(x) || x == "") && (IsNumber(y) || y == "") && (IsNumber(z) || z == "")) ||
    (!IsNumber(x) && !IsNumber(y) && !IsNumber(z))
  }

  predicate UniformParts(pa: seq<string>, pb: seq<string>, pc: seq<string>)
    decreases |pa| + |pb| + |pc|
  {
    (pa == [] && pb == [] && pc == []) ||
    (Alike(Head(pa), Head(pb), Head(pc)) && UniformParts(Rest(pa), Rest(pb), Rest(pc)))
  }

  /** No position of the three versions mixes numbers with other words. */
  predicate Uniform(a: string, b: string, c: string) { UniformParts(Split(a, '.'), Split(b, '.'), Split(c, '.')) }

  lemma AlikeSettles(x: string, y: string, z: string)
    requires Alike(x, y, z)
    ensures !HeadCycle(x, y, z)
    ensures HeadSame(x, y) ==> !(HeadLess(y, z) && HeadLess(z, x)) && !(HeadLess(x, z) && HeadLess(z, y))
  {
    EmptyIsNoNumber();
    HeadCycleIff(x, y, z);
    hide ParseInt, HeadCycle;
    StrLessAsymmetric(x, z);
    StrLessAsymmetric(y, z);
  }

  lemma {:induction false} UniformPartsStraight(pa: seq<string>, pb: seq<string>, pc: seq<string>)
    requires UniformParts(pa, pb, pc)
    ensures Straight(pa, pb, pc)
    decreases |pa| + |pb| + |pc|
  {
    if pa != [] || pb != [] || pc != [] {
      var x, y, z := Head(pa), Head(pb), Head(pc);
      UniformPartsStraight(Rest(pa), Rest(pb), Rest(pc));
      AlikeSettles(x, y, z);
      AlikeSettles(y, z, x);
      AlikeSettles(x, z, y);
      hide HeadSame, HeadLess, HeadCycle, PartsLess;
    }
  }

  /** In particular where no position mixes numbers with other words. */
  lemma UniformStraight(a: string, b: string, c: string)
    requires Uniform(a, b, c)
    ensures StraightVersions(a, b, c)
  {
    UniformPartsStraight(Split(a, '.'), Split(b, '.'), Split(c, '.'));
  }

  lemma UniformStrictWeakOrder(a: string, b: string, c: string)
    requires Uniform(a, b, c)
    ensures SemverLess(a, b) && SemverLess(b, c) ==> SemverLess(a, c)
    ensures !SemverLess(a, b) && !SemverLess(b, c) ==> !SemverLess(a, c)
  {
    UniformStraight(a, b, c);
    StraightTransitive(a, b, c);
  }

  // ----- dotted integers -----

  predicate AllNumbers(parts: seq<string>) { forall p <- parts :: ParseInt(p).Some? }

  predicate Dotted(v: string) { AllNumbers(Split(v, '.')) }

  function Numbers(parts: seq<string>): (r: seq<int>)
    requires AllNumbers(parts)
    ensures |r| == |parts|
  {
    seq(|parts|, i requires 0 <= i < |parts| => assert parts[i] in parts; ParseInt(parts[i]).value)
  }

  /** The components of a dotted version. */
  function Nums(v: string): seq<int>
    requires Dotted(v)
  {
    Numbers(Split(v, '.'))
  }

  /** Lexicographic order on components; a proper prefix is smaller. */
  predicate LexLess(x: seq<int>, y: seq<int>) {
    if y == [] then false
    else if x == [] then true
    else if x[0] != y[0] then x[0] < y[0]
    else LexLess(x[1..], y[1..])
  }

  lemma EmptyIsNoNumber()
    ensures ParseInt("").None?
  {
  }

  lemma {:induction false} PartsLessIsLex(pa: seq<string>, pb: seq<string>)
    requires AllNumbers(pa) && AllNumbers(pb)
    ensures PartsLess(pa, pb) == LexLess(Numbers(pa), Numbers(pb))
    decreases |pa| + |pb|
  {
    EmptyIsNoNumber();
    hide ParseInt;
    if pa != [] { assert pa[0] in pa; }
    if pb != [] { assert pb[0] in pb; }
    if pa != [] && pb != [] {
      assert forall p <- pa[1..] :: p in pa;
      assert forall p <- pb[1..] :: p in pb;
      PartsLessIsLex(pa[1..], pb[1..]);
      assert Numbers(pa)[1..] == Numbers(pa[1..]) && Numbers(pb)[1..] == Numbers(pb[1..]);
    }
  }

  /** On dotted integers the lax order is the lexicographic order of the components. */
  lemma DottedOrder(a: string, b: string)
    requires Dotted(a) && Dotted(b)
    ensures SemverLess(a, b) <==> LexLess(Nums(a), Nums(b))
  {
    PartsLessIsLex(Split(a, '.'), Split(b, '.'));
  }

  lemma {:induction false} LexTotal(x: seq<int>, y: seq<int>)
    ensures x == y <==> !LexLess(x, y) && !LexLess(y, x)
  {
    if x != [] && y != [] {
      LexTotal(x[1..], y[1..]);
      assert x == [x[0]] + x[1..] && y == [y[0]] + y[1..];
    }
  }

  lemma {:induction false} NumbersAlike(pa: seq<string>, pb: seq<string>, pc: seq<string>)
    requires AllNumbers(pa) && AllNumbers(pb) && AllNumbers(pc)
    ensures UniformParts(pa, pb, pc)
    decreases |pa| + |pb| + |pc|
  {
    hide ParseInt;
    if pa != [] || pb != [] || pc != [] {
      if pa != [] { assert pa[0] in pa; }
      if pb != [] { assert pb[0] in pb; }
      if pc != [] { assert pc[0] in pc; }
      NumbersAlike(Rest(pa), Rest(pb), Rest(pc));
    }
  }

  lemma DottedStraight(a: string, b: string, c: string)
    requires Dotted(a) && Dotted(b) && Dotted(c)
    ensures StraightVersions(a, b, c)
  {
    NumbersAlike(Split(a, '.'), Split(b, '.'), Split(c, '.'));
    UniformStraight(a, b, c);
  }

  /** On dotted integers the lax order is a strict weak order: transitive, with versions of equal
      components as the only incomparable ones. */
  lemma DottedStrictWeakOrder(a: string, b: string, c: string)
    requires Dotted(a) && Dotted(b) && Dotted(c)
    ensures SemverLess(a, b) && SemverLess(b, c) ==> SemverLess(a, c)
    ensures !SemverLess(a, b) && !SemverLess(b, a) <==> Nums(a) == Nums(b)
    ensures !SemverLess(a, b) && !SemverLess(b, c) ==> !SemverLess(a, c)
  {
    NumbersAlike(Split(a, '.'), Split(b, '.'), Split(c, '.'));
    UniformStrictWeakOrder(a, b, c);
    DottedOrder(a, b);
    DottedOrder(b, a);
    LexTotal(Nums(a), Nums(b));
  }

  // ----- the CLI's comparison -----

  /** The digits in front. */
  function LeadingDigits(s: string): (d: string)
    ensures d <= s && forall c <- d :: IsDigit(c)
  {
    if s == "" || !IsDigit(s[0]) then "" else [s[0]] + LeadingDigits(s[1..])
  }

  function Unsigned(s: string): string { if s != "" && (s[0] == '+' || s[0] == '-') then s[1..] else s }

  /** `strconv.Atoi` with its error ignored.  Out of range it yields the nearest machine integer, and it
      is out of range once the digits read exceed 64 bits, whatever follows them; what is no numeral
      otherwise is 0. */
  function LaxInt(s: string): int {
    match ParseInt(s)
    case Some(n) => n
    case None =>
      var digits := Unsigned(s);
      var read := LeadingDigits(digits);
      if read == "" || (read != digits && DigitsValue(read) <= UINT64_MAX) then 0
      else if s[0] == '-' then INT64_MIN else INT64_MAX
  }

  /** A machine integer counts as itself. */
  lemma LaxInRange(n: int)
    requires InInt64(n)
    ensures LaxInt(FormatInt(n)) == n
  {
    ParseFormatInt(n);
  }

  /** Digits past 64 bits count as the largest or smallest machine integer, whatever follows them. */
  lemma LaxOverflow(digits: string, rest: string)
    requires digits != "" && (forall c <- digits :: IsDigit(c)) && (rest == "" || !IsDigit(rest[0]))
    requires DigitsValue(digits) > UINT64_MAX
    ensures LaxInt(digits + rest) == INT64_MAX && LaxInt("-" + digits + rest) == INT64_MIN
  {
    Leading(digits, rest);
    TooLong(digits, rest);
    Signs(digits, rest);
    hide ParseInt, DigitsValue, LeadingDigits, Unsigned, IsDigit;
  }

  lemma Signs(digits: string, rest: string)
    requires digits != "" && forall c <- digits :: IsDigit(c)
    ensures Unsigned(digits + rest) == digits + rest && Unsigned("-" + digits + rest) == digits + rest
    ensures (digits + rest)[0] != '-' && ("-" + digits + rest)[0] == '-'
  {
    assert digits[0] in digits;
    assert ("-" + digits + rest)[1..] == digits + rest;
  }

  /** Fewer digits with something else behind them, and what has no digit in front, count as 0. */
  lemma LaxGarbage(digits: string, rest: string)
    requires (forall c <- digits :: IsDigit(c)) && rest != "" && !IsDigit(rest[0])
    requires if digits == "" then rest[0] !in "+-" else DigitsValue(digits) <= UINT64_MAX
    ensures LaxInt(digits + rest) == 0
  {
    var s := digits + rest;
    if digits != "" { assert digits[0] in digits && s[0] == digits[0]; } else { assert s == rest; }
    assert s[|digits|] == rest[0] && rest[0] in s;
    Leading(digits, rest);
    hide DigitsValue, LeadingDigits;
  }

  lemma {:induction false} Leading(digits: string, rest: string)
    requires (forall c <- digits :: IsDigit(c)) && (rest == "" || !IsDigit(rest[0]))
    ensures LeadingDigits(digits + rest) == digits
  {
    if digits == "" {
      assert digits + rest == rest;
    } else {
      assert digits[0] in digits && forall c <- digits[1..] :: c in digits;
      assert (digits + rest)[1..] == digits[1..] + rest;
      Leading(digits[1..], rest);
    }
  }

  /** A numeral past 64 bits, whatever follows, is no machine integer. */
  lemma TooLong(digits: string, rest: string)
    requires (forall c <- digits :: IsDigit(c)) && digits != "" && (rest == "" || !IsDigit(rest[0]))
    ensures DigitsValue(digits) > UINT64_MAX ==>
      ParseInt(digits + rest).None? && ParseInt("-" + digits + rest).None?
  {
    assert digits[0] in digits;
    assert ("-" + digits + rest)[1..] == digits + rest;
    if rest == "" {
      assert digits + rest == digits;
    } else {
      assert rest[0] in digits + rest;
    }
  }

  /** `splitVerNums`. */
  function VerNums(v: string): seq<int> {
    var parts := Split(TrimPrefix(v, "v"), '.');
    seq(|parts|, i requires 0 <= i < |parts| => LaxInt(parts[i]))
  }

  /** Component by component, missing ones as 0. */
  function CompareNums(x: seq<int>, y: seq<int>): int
    decreases |x| + |y|
  {
    if x == [] && y == [] then 0
    else if At(x, 0) < At(y, 0) then -1
    else if At(x, 0) > At(y, 0) then 1
    else CompareNums(Tail(x), Tail(y))
  }

  /** Component `i`, 0 when missing. */
  function At(x: seq<int>, i: nat): int { if i < |x| then x[i] else 0 }

  function Tail(x: seq<int>): seq<int> { if x == [] then [] else x[1..] }

  function CompareSemver(a: string, b: string): int { CompareNums(VerNums(a), VerNums(b)) }

  function Drop(x: seq<int>, i: nat): seq<int> { if i <= |x| then x[i..] else [] }

  method RunCompareSemver(a: string, b: string) returns (r: int)
    ensures r == CompareSemver(a, b)
  {
    hide VerNums;
    var aa, bb := VerNums(a), VerNums(b);
    var n := |aa|;
    if |bb| > n { n := |bb|; }
    for i := 0 to n
      invariant CompareSemver(a, b) == CompareNums(Drop(aa, i), Drop(bb, i))
    {
      var av := if i < |aa| then aa[i] else 0;
      var bv := if i < |bb| then bb[i] else 0;
      if av < bv { return -1; }
      if av > bv { return 1; }
      assert i < |aa| ==> Drop(aa, i)[1..] == Drop(aa, i + 1);
      assert i < |bb| ==> Drop(bb, i)[1..] == Drop(bb, i + 1);
    }
    return 0;
  }

  /** The CLI's comparison is antisymmetric, transitive, and 0 exactly on versions whose components
      agree once the shorter is padded with zeros. */
  lemma CompareIsOrder(a: string, b: string, c: string)
    ensures CompareSemver(a, b) == -CompareSemver(b, a)
    ensures CompareSemver(a, b) <= 0 && CompareSemver(b, c) <= 0 ==> CompareSemver(a, c) <= 0
    ensures CompareSemver(a, b) == 0 <==> forall i: nat :: At(VerNums(a), i) == At(VerNums(b), i)
  {
    CompareNumsOrder(VerNums(a), VerNums(b), VerNums(c));
    CompareNumsZero(VerNums(a), VerNums(b));
  }

  lemma {:induction false} CompareNumsOrder(x: seq<int>, y: seq<int>, z: seq<int>)
    ensures CompareNums(x, y) == -CompareNums(y, x)
    ensures CompareNums(x, y) <= 0 && CompareNums(y, z) <= 0 ==> CompareNums(x, z) <= 0
    decreases |x| + |y| + |z|
  {
    if x != [] || y != [] || z != [] { CompareNumsOrder(Tail(x), Tail(y), Tail(z)); }
  }

  lemma {:induction false} CompareNumsZero(x: seq<int>, y: seq<int>)
    ensures CompareNums(x, y) == 0 <==> forall i: nat :: At(x, i) == At(y, i)
    decreases |x| + |y|
  {
    if x != [] || y != [] {
      CompareNumsZero(Tail(x), Tail(y));
      assert forall i: nat :: At(Tail(x), i) == At(x, i + 1) && At(Tail(y), i) == At(y, i + 1);
      if At(x, 0) == At(y, 0) {
        if forall i: nat :: At(Tail(x), i) == At(Tail(y), i) {
          forall i: nat ensures At(x, i) == At(y, i) {
            if i > 0 { assert At(Tail(x), i - 1) == At(Tail(y), i - 1); }
          }
        } else {
          var i: nat :| At(Tail(x), i) != At(Tail(y), i);
          assert At(x, i + 1) != At(y, i + 1);
        }
      }
    }
  }

  /** The first component that differs decides here too, and a leading `v` does not matter. */
  lemma {:induction false} FirstNumberDecides(p: seq<int>, m: int, n: int, x: seq<int>, y: seq<int>)
    requires m != n
    ensures CompareNums(p + [m] + x, p + [n] + y) == if m < n then -1 else 1
  {
    if p == [] {
      assert p + [m] + x == [m] + x && p + [n] + y == [n] + y;
    } else {
      assert (p + [m] + x)[1..] == p[1..] + [m] + x && (p + [n] + y)[1..] == p[1..] + [n] + y;
      FirstNumberDecides(p[1..], m, n, x, y);
    }
  }

  lemma LetterIgnored(a: string, b: string)
    requires !HasPrefix(a, "v")
    ensures CompareSemver("v" + a, b) == CompareSemver(a, b) && CompareSemver(b, "v" + a) == CompareSemver(b, a)
  {
    assert ("v" + a)[1..] == a;
  }

  /** The first component that is not 0 is negative. */
  predicate StartsNegative(x: seq<int>) { x != [] && (x[0] < 0 || (x[0] == 0 && StartsNegative(x[1..]))) }

  /** One version continues the other, with a continuation that starts negative. */
  predicate Clash(x: seq<int>, y: seq<int>) {
    (x <= y && StartsNegative(y[|x|..])) || (y <= x && StartsNegative(x[|y|..]))
  }

  predicate Refines(a: string, b: string) {
    (CompareSemver(a, b) < 0 ==> SemverLess(a, b)) && (SemverLess(a, b) ==> CompareSemver(a, b) <= 0)
  }

  lemma {:induction false} CompareWithNothing(x: seq<int>)
    ensures CompareNums(x, []) == -CompareNums([], x)
    ensures CompareNums(x, []) < 0 <==> StartsNegative(x)
  {
    if x != [] { CompareWithNothing(x[1..]); }
  }

  lemma {:induction false} ComparesUnlessClash(x: seq<int>, y: seq<int>)
    ensures (CompareNums(x, y) < 0 ==> LexLess(x, y)) && (LexLess(x, y) ==> CompareNums(x, y) <= 0) <==> !Clash(x, y)
    decreases |x| + |y|
  {
    if x == [] || y == [] {
      CompareWithNothing(x);
      CompareWithNothing(y);
      assert x[|x|..] == [] && y[|y|..] == [] && x[0..] == x && y[0..] == y;
    } else {
      ComparesUnlessClash(x[1..], y[1..]);
      assert x == [x[0]] + x[1..] && y == [y[0]] + y[1..];
      assert x <= y <==> x[0] == y[0] && x[1..] <= y[1..];
      assert y <= x <==> x[0] == y[0] && y[1..] <= x[1..];
      if x <= y { assert y[|x|..] == y[1..][|x[1..]|..]; }
      if y <= x { assert x[|y|..] == x[1..][|y[1..]|..]; }
    }
  }

  lemma NoLetterPrefix(v: string)
    requires HasPrefix(v, "v")
    ensures !Dotted(v)
  {
    var first := Split(v, '.')[0];
    assert first[0] == 'v' && first[0] in first && first in Split(v, '.');
    assert !IsDigit('v');
  }

  lemma DottedVerNums(v: string)
    requires Dotted(v)
    ensures VerNums(v) == Nums(v)
  {
    var parts := Split(v, '.');
    if HasPrefix(v, "v") { NoLetterPrefix(v); }
    forall i | 0 <= i < |parts| ensures VerNums(v)[i] == Nums(v)[i] { assert parts[i] in parts; }
  }

  /** On dotted versions the market's order refines the CLI's exactly when neither continues the other
      with a negative component, zeros aside. */
  lemma RefinesUnlessClash(a: string, b: string)
    requires Dotted(a) && Dotted(b)
    ensures Refines(a, b) <==> !Clash(Nums(a), Nums(b))
  {
    DottedVerNums(a);
    DottedVerNums(b);
    DottedOrder(a, b);
    ComparesUnlessClash(Nums(a), Nums(b));
  }

  predicate NonNegative(x: seq<int>) { forall n <- x :: n >= 0 }

  lemma {:induction false} NeverStartsNegative(x: seq<int>)
    requires NonNegative(x)
    ensures !StartsNegative(x)
  {
    if x != [] {
      assert x[0] in x && forall n <- x[1..] :: n in x;
      NeverStartsNegative(x[1..]);
    }
  }

  /** In particular, versions without negative components refine. */
  lemma SemverRefinesCompare(a: string, b: string)
    requires Dotted(a) && Dotted(b) && NonNegative(Nums(a)) && NonNegative(Nums(b))
    ensures Refines(a, b)
  {
    RefinesUnlessClash(a, b);
    var x, y := Nums(a), Nums(b);
    hide Nums, Refines, StartsNegative;
    if x <= y {
      assert forall n <- y[|x|..] :: n in y;
      NeverStartsNegative(y[|x|..]);
    }
    if y <= x {
      assert forall n <- x[|y|..] :: n in x;
      NeverStartsNegative(x[|y|..]);
    }
  }

  lemma OneAndMinusOne()
    ensures Dotted("1") && Nums("1") == [1]
    ensures Dotted("1.-1") && Nums("1.-1") == [1, -1]
  {
    assert "1" + ['.'] + "-1" == "1.-1";
    SplitPrefix("1", "-1", '.');
    SplitWhole("1", '.');
    SplitWhole("-1", '.');
    ParseFormatInt(1);
    ParseFormatInt(-1);
    assert FormatInt(1) == "1" && FormatInt(-1) == "-1";
    hide ParseInt, Split;
  }

  /** The smallest clash: the market puts 1.-1 above 1, the CLI below. */
  lemma ClashAtMinusOne()
    ensures SemverLess("1", "1.-1") && CompareSemver("1", "1.-1") > 0
  {
    OneAndMinusOne();
    DottedVerNums("1");
    DottedVerNums("1.-1");
    DottedOrder("1", "1.-1");
    hide SemverLess, VerNums, Nums, Dotted;
    assert [1][1..] == [] && [1, -1][1..] == [-1];
  }

  // ----- listing versions -----

  datatype Version = Version(version: string, sha256: string)

  /** Insertion from the right end: larger versions move left. */
  function Insert(s: seq<Version>, x: Version): seq<Version> {
    if s == [] then [x]
    else
      var last := s[|s| - 1];
      if SemverLess(last.version, x.version) then Insert(s[..|s| - 1], x) + [last] else s + [x]
  }

  function SortDesc(s: seq<Version>): (r: seq<Version>) {
    if s == [] then [] else Insert(SortDesc(s[..|s| - 1]), s[|s| - 1])
  }

  /** The elements of `p` from `j` on are smaller than `x` and stay behind it. */
  predicate Passed(p: seq<Version>, x: Version, j: nat)
    requires j <= |p|
  {
    Insert(p, x) == Insert(p[..j], x) + p[j..]
  }

  lemma PassedAll(p: seq<Version>, x: Version)
    ensures Passed(p, x, |p|)
  {
    assert p[..|p|] == p && p[|p|..] == [];
  }

  lemma PassOne(p: seq<Version>, x: Version, j: nat)
    requires 0 < j <= |p| && SemverLess(p[j - 1].version, x.version) && Passed(p, x, j)
    ensures Passed(p, x, j - 1)
  {
    hide SemverLess;
    var init := p[..j - 1];
    assert p[..j][..j - 1] == init && p[..j][j - 1] == p[j - 1];
    assert Insert(p[..j], x) == Insert(init, x) + [p[j - 1]];
    assert [p[j - 1]] + p[j..] == p[j - 1..];
  }

  lemma PassNoMore(p: seq<Version>, x: Version, j: nat)
    requires j <= |p| && (j > 0 ==> !SemverLess(p[j - 1].version, x.version)) && Passed(p, x, j)
    ensures Insert(p, x) == p[..j] + [x] + p[j..]
  {
    hide SemverLess;
    if j > 0 { assert p[..j][j - 1] == p[j - 1]; }
  }

  /** `x` at position `j` of `p`, and the elements not looked at yet. */
  function Placed(p: seq<Version>, x: Version, rest: seq<Version>, j: nat): seq<Version>
    requires j <= |p|
  {
    p[..j] + [x] + p[j..] + rest
  }

  lemma PlacedAt(p: seq<Version>, x: Version, rest: seq<Version>, j: nat)
    requires j <= |p|
    ensures |Placed(p, x, rest, j)| == |p| + 1 + |rest| && Placed(p, x, rest, j)[j] == x
    ensures j > 0 ==>
      Placed(p, x, rest, j)[j - 1] == p[j - 1] &&
      Placed(p, x, rest, j)[j - 1 := x][j := p[j - 1]] == Placed(p, x, rest, j - 1)
  {
  }

  /** The inner loop: swaps `vs[i]` down to its place in the prefix before it. */
  method SwapDown(vs: array<Version>, i: nat)
    requires i < vs.Length
    modifies vs
    ensures vs[..] == Insert(old(vs[..i]), old(vs[i])) + old(vs[i + 1..])
  {
    hide Insert, SemverLess, Passed, Placed;
    ghost var p, x, rest := vs[..i], vs[i], vs[i + 1..];
    var j := i;
    PassedAll(p, x);
    assert vs[..] == Placed(p, x, rest, i) by { PlacedLast(vs[..], i); }
    PlacedAt(p, x, rest, i);
    while j > 0 && SemverLess(vs[j - 1].version, vs[j].version)
      invariant 0 <= j <= i
      invariant vs[..] == Placed(p, x, rest, j) && Passed(p, x, j)
      invariant vs[j] == x && (j > 0 ==> vs[j - 1] == p[j - 1])
    {
      PassOne(p, x, j);
      PlacedAt(p, x, rest, j);
      PlacedAt(p, x, rest, j - 1);
      ghost var was := vs[..];
      vs[j - 1], vs[j] := vs[j], vs[j - 1];
      assert vs[..] == was[j - 1 := x][j := p[j - 1]];
      j := j - 1;
      assert vs[j] == vs[..][j] && (j > 0 ==> vs[j - 1] == vs[..][j - 1]);
    }
    PassNoMore(p, x, j);
    assert vs[..] == Insert(p, x) + rest by { PlacedIs(p, x, rest, j); }
  }

  lemma PlacedLast(s: seq<Version>, i: nat)
    requires i < |s|
    ensures s == Placed(s[..i], s[i], s[i + 1..], i)
  {
  }

  lemma PlacedIs(p: seq<Version>, x: Version, rest: seq<Version>, j: nat)
    requires j <= |p|
    ensures Placed(p, x, rest, j) == (p[..j] + [x] + p[j..]) + rest
  {
  }

  /** The in-place insertion sort. */
  method SortVersionsDesc(vs: array<Version>)
    modifies vs
    ensures vs[..] == SortDesc(old(vs[..]))
  {
    hide Insert;
    ghost var was := vs[..];
    var i := 1;
    if vs.Length > 0 {
      assert was[..1][..0] == [] && Insert([], was[0]) == [was[0]] by { SortOne(was[0]); }
      assert vs[..] == was[..1] + was[1..];
    }
    while i < vs.Length
      invariant 1 <= i && vs.Length == |was| && (|was| > 0 ==> i <= |was|)
      invariant |was| > 0 ==> vs[..] == SortDesc(was[..i]) + was[i..]
    {
      SortLength(was[..i]);
      assert vs[..i] == SortDesc(was[..i]) && vs[i] == was[i] && vs[i + 1..] == was[i + 1..];
      assert was[..i + 1][..i] == was[..i];
      SwapDown(vs, i);
      i := i + 1;
    }
    if |was| > 0 { assert was[..i] == was && was[i..] == [] && vs[..] == SortDesc(was) + []; }
  }

  lemma SortOne(v: Version)
    ensures Insert([], v) == [v] && SortDesc([v]) == [v]
  {
    assert [v][..0] == [];
  }

  lemma {:induction false} SortLength(s: seq<Version>)
    ensures |SortDesc(s)| == |s|
  {
    if s != [] {
      SortLength(s[..|s| - 1]);
      InsertLength(SortDesc(s[..|s| - 1]), s[|s| - 1]);
    }
  }

  lemma {:induction false} InsertLength(s: seq<Version>, x: Version)
    ensures |Insert(s, x)| == |s| + 1
  {
    if s != [] { InsertLength(s[..|s| - 1], x); }
  }

  lemma {:induction false} InsertPermutes(s: seq<Version>, x: Version)
    ensures multiset(Insert(s, x)) == multiset(s) + multiset{x}
  {
    if s != [] {
      InsertPermutes(s[..|s| - 1], x);
      assert s == s[..|s| - 1] + [s[|s| - 1]];
    }
  }

  /** Listing loses and invents nothing. */
  lemma {:induction false} SortPermutes(s: seq<Version>)
    ensures multiset(SortDesc(s)) == multiset(s)
  {
    hide Insert;
    if s != [] {
      SortPermutes(s[..|s| - 1]);
      InsertPermutes(SortDesc(s[..|s| - 1]), s[|s| - 1]);
      assert s == s[..|s| - 1] + [s[|s| - 1]];
    }
  }

  predicate NoInversion(s: seq<Version>) {
    forall i :: 0 < i < |s| ==> !SemverLess(s[i - 1].version, s[i].version)
  }

  /** Insertion keeps adjacent order; the last element is the inserted one or the old last one. */
  lemma {:induction false} InsertKeepsOrder(s: seq<Version>, x: Version)
    requires NoInversion(s)
    ensures |Insert(s, x)| == |s| + 1 && NoInversion(Insert(s, x))
    ensures Insert(s, x)[|s|] == x || (s != [] && Insert(s, x)[|s|] == s[|s| - 1])
  {
    hide SemverLess;
    if s != [] {
      var init, last := s[..|s| - 1], s[|s| - 1];
      InsertKeepsOrder(init, x);
      SemverAsymmetric(last.version, x.version);
      if SemverLess(last.version, x.version) {
        var r := Insert(init, x);
        assert Insert(s, x) == r + [last] && |r| == |s|;
        if r[|s| - 1] != x { assert r[|s| - 1] == s[|s| - 2] && !SemverLess(s[|s| - 2].version, s[|s| - 1].version); }
      }
    }
  }

  /** For any strings at all, no listed version is directly followed by a larger one. */
  lemma {:induction false} SortHasNoInversion(s: seq<Version>)
    ensures NoInversion(SortDesc(s))
  {
    if s != [] {
      SortHasNoInversion(s[..|s| - 1]);
      InsertKeepsOrder(SortDesc(s[..|s| - 1]), s[|s| - 1]);
    }
  }

  /** Nothing goes around among any three of the versions. */
  predicate AllStraight(s: seq<Version>) {
    forall a, b, c :: a in s && b in s && c in s ==> StraightVersions(a.version, b.version, c.version)
  }

  predicate Descends(s: seq<Version>) {
    forall i, j :: 0 <= i < j < |s| ==> !SemverLess(s[i].version, s[j].version)
  }

  lemma {:induction false} NoInversionIsSorted(s: seq<Version>, i: nat, j: nat)
    requires AllStraight(s) && NoInversion(s) && i < j < |s|
    ensures !SemverLess(s[i].version, s[j].version)
    decreases j - i
  {
    if i + 1 < j {
      NoInversionIsSorted(s, i + 1, j);
      assert !SemverLess(s[i + 1 - 1].version, s[i + 1].version);
      assert s[i] in s && s[i + 1] in s && s[j] in s;
      StraightTransitive(s[i].version, s[i + 1].version, s[j].version);
    }
  }

  lemma SortSortsStraight(s: seq<Version>)
    requires AllStraight(s)
    ensures Descends(SortDesc(s))
  {
    hide StraightVersions, SemverLess, SortDesc;
    var r := SortDesc(s);
    SortHasNoInversion(s);
    SortPermutes(s);
    assert forall v :: v in multiset(r) <==> v in multiset(s);
    assert forall v <- r :: v in s by {
      forall v | v in r ensures v in s { assert v in multiset(r) && v in multiset(s); }
    }
    forall i, j | 0 <= i < j < |r| ensures !SemverLess(r[i].version, r[j].version) {
      NoInversionIsSorted(r, i, j);
    }
  }

  /** Where an insertion puts the new element. */
  lemma {:induction false} InsertAt(s: seq<Version>, x: Version) returns (p: nat)
    ensures p <= |s| && Insert(s, x) == s[..p] + [x] + s[p..]
  {
    hide SemverLess;
    if s == [] || !SemverLess(s[|s| - 1].version, x.version) { return |s|; }
    var init := s[..|s| - 1];
    p := InsertAt(init, x);
    assert s[p..] == init[p..] + [s[|s| - 1]] && s[..p] == init[..p];
  }

  /** Some `a` stands before some `c`. */
  predicate Before(s: seq<Version>, a: Version, c: Version) {
    exists i, j :: 0 <= i < j < |s| && s[i] == a && s[j] == c
  }

  lemma InsertKeepsBefore(s: seq<Version>, x: Version, a: Version, c: Version)
    requires Before(s, a, c)
    ensures Before(Insert(s, x), a, c)
  {
    hide SemverLess, Insert;
    var p := InsertAt(s, x);
    var i, j :| 0 <= i < j < |s| && s[i] == a && s[j] == c;
    Shifted(s, x, p, i);
    Shifted(s, x, p, j);
    var r := s[..p] + [x] + s[p..];
    assert r[if i < p then i else i + 1] == a && r[if j < p then j else j + 1] == c;
  }

  lemma Shifted(s: seq<Version>, x: Version, p: nat, i: nat)
    requires p <= |s| && i < |s|
    ensures (s[..p] + [x] + s[p..])[if i < p then i else i + 1] == s[i]
  {
  }

  /** Three rows read first, of which the second hides that the third is above the first, stay so. */
  lemma {:induction false} SortKeepsViolation(rows: seq<Version>)
    requires |rows| >= 3
    requires !SemverLess(rows[0].version, rows[1].version) && !SemverLess(rows[1].version, rows[2].version)
    ensures Before(SortDesc(rows), rows[0], rows[2])
  {
    hide SemverLess, Before;
    var n := |rows| - 1;
    if n == 2 {
      var a, b, c := rows[0], rows[1], rows[2];
      SortOne(a);
      assert rows == [a, b, c] && rows[..2] == [a, b] && [a, b][..1] == [a];
      assert Insert([a], b) == [a] + [b] == [a, b] && Insert([a, b], c) == [a, b] + [c];
      FirstBeforeThird(a, b, c);
    } else {
      SortKeepsViolation(rows[..n]);
      InsertKeepsBefore(SortDesc(rows[..n]), rows[n], rows[0], rows[2]);
    }
  }

  lemma FirstBeforeThird(a: Version, b: Version, c: Version)
    ensures Before([a, b] + [c], a, c)
  {
    var s := [a, b] + [c];
    assert s[0] == a && s[2] == c;
  }

  lemma {:induction false} Elements(m: multiset<Version>) returns (s: seq<Version>)
    ensures multiset(s) == m
    decreases |m|
  {
    s := [];
    if m != multiset{} {
      var v :| v in m;
      var rest := Elements(m - multiset{v});
      s := [v] + rest;
    }
  }

  /** Three versions out of weak order, in an order that shows it. */
  lemma Violation(a: Version, b: Version, c: Version) returns (x: Version, y: Version, z: Version)
    requires !StraightVersions(a.version, b.version, c.version)
    ensures x in [a, b, c] && y in [a, b, c] && z in [a, b, c] && x != y && y != z && x != z
    ensures SemverLess(x.version, z.version) && !SemverLess(x.version, y.version) && !SemverLess(y.version, z.version)
  {
    StraightIff(a.version, b.version, c.version);
    SemverAsymmetric(a.version, a.version);
    SemverAsymmetric(b.version, b.version);
    SemverAsymmetric(c.version, c.version);
    hide SemverLess, StraightVersions;
    if Hidden(a, b, c) { return a, b, c; }
    if Hidden(a, c, b) { return a, c, b; }
    if Hidden(b, a, c) { return b, a, c; }
    if Hidden(b, c, a) { return b, c, a; }
    if Hidden(c, a, b) { return c, a, b; }
    return c, b, a;
  }

  predicate Hidden(x: Version, y: Version, z: Version) {
    SemverLess(x.version, z.version) && !SemverLess(x.version, y.version) && !SemverLess(y.version, z.version)
  }

  /** An order in which the rows can be read. */
  predicate Reads(rows: seq<Version>, s: seq<Version>) { multiset(rows) == multiset(s) }

  ghost predicate AlwaysDescends(s: seq<Version>) { forall rows | Reads(rows, s) :: Descends(SortDesc(rows)) }

  /** The sort puts every order of the rows in full descending order exactly when nothing goes around
      among any three of them. */
  lemma SortSortsIff(s: seq<Version>)
    ensures AlwaysDescends(s) <==> AllStraight(s)
  {
    hide StraightVersions, SemverLess, SortDesc;
    if AllStraight(s) {
      forall rows | Reads(rows, s) ensures Descends(SortDesc(rows)) {
        SameElements(rows, s);
        SortSortsStraight(rows);
      }
    } else {
      var a, b, c :| a in s && b in s && c in s && !StraightVersions(a.version, b.version, c.version);
      var rows := Unsorted(s, a, b, c);
      assert Reads(rows, s);
    }
  }

  lemma SameElements(s: seq<Version>, r: seq<Version>)
    requires multiset(s) == multiset(r)
    ensures forall v :: v in r <==> v in s
  {
    forall v ensures v in r <==> v in s { assert v in r <==> v in multiset(r); assert v in s <==> v in multiset(s); }
  }

  /** The rows in an order that starts with three given ones. */
  lemma ReadFirst(s: seq<Version>, x: Version, y: Version, z: Version) returns (rest: seq<Version>)
    requires x in s && y in s && z in s && x != y && y != z && x != z
    ensures Reads([x, y, z] + rest, s)
  {
    assert x in multiset(s) && y in multiset(s) && z in multiset(s);
    rest := Elements(multiset(s) - multiset{x, y, z});
  }

  lemma NotDescending(s: seq<Version>, x: Version, z: Version)
    requires Before(s, x, z) && SemverLess(x.version, z.version)
    ensures !Descends(s)
  {
    hide SemverLess;
    var i, j :| 0 <= i < j < |s| && s[i] == x && s[j] == z;
  }

  lemma Unsorted(s: seq<Version>, a: Version, b: Version, c: Version) returns (rows: seq<Version>)
    requires a in s && b in s && c in s && !StraightVersions(a.version, b.version, c.version)
    ensures Reads(rows, s) && !Descends(SortDesc(rows))
  {
    hide SemverLess, SortDesc, StraightVersions, Reads, Before, Descends;
    var x, y, z := Violation(a, b, c);
    assert forall v <- [a, b, c] :: v in s;
    var rest := ReadFirst(s, x, y, z);
    rows := [x, y, z] + rest;
    SortKeepsViolation(rows);
    NotDescending(SortDesc(rows), x, z);
  }

  /** Dotted integers in particular are listed in full descending order. */
  lemma SortSortsDotted(s: seq<Version>)
    requires forall v <- s :: Dotted(v.version)
    ensures Descends(SortDesc(s))
  {
    forall a, b, c | a in s && b in s && c in s ensures StraightVersions(a.version, b.version, c.version) {
      DottedStraight(a.version, b.version, c.version);
    }
    SortSortsStraight(s);
  }

  function Names(s: seq<Version>): seq<string> { seq(|s|, i requires 0 <= i < |s| => s[i].version) }

  predicate OnePerVersion(s: seq<Version>) { forall i, j :: 0 <= i < j < |s| ==> s[i].version != s[j].version }

  lemma Twice(s: seq<Version>, i: nat, j: nat)
    requires i < j < |s| && s[i] == s[j]
    ensures multiset(s)[s[i]] >= 2
  {
    assert s == s[..j] + s[j..] && s[i] in s[..j] && s[j] in s[j..];
  }

  lemma Once(s: seq<Version>, i: nat)
    requires i < |s| && OnePerVersion(s)
    ensures multiset(s)[s[i]] == 1
  {
    assert s == s[..i] + [s[i]] + s[i + 1..];
    assert s[i] !in s[..i] && s[i] !in s[i + 1..];
  }

  /** A permutation of a list without repeated versions repeats none. */
  lemma PermutedOnce(s: seq<Version>, r: seq<Version>)
    requires multiset(s) == multiset(r) && OnePerVersion(s)
    ensures OnePerVersion(r)
  {
    forall i, j | 0 <= i < j < |r| ensures r[i].version != r[j].version {
      assert r[i] in multiset(s) && r[j] in multiset(s);
      var p :| 0 <= p < |s| && s[p] == r[i];
      var q :| 0 <= q < |s| && s[q] == r[j];
      if p == q { Twice(r, i, j); Once(s, p); }
    }
  }
}
