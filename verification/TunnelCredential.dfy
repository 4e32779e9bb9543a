/** The canonical strings of admission credentials and inference grants, built and parsed. */
module TunnelCredential {
  import opened Text

  const CREDENTIAL := "ISANN-CREDENTIAL:"
  const ACCESS := "ISANN-ACCESS:"

  datatype Grant = Grant(who: string, issuedMs: int, expireMs: int)

  /** The message with the given prefix; both kinds have this shape. */
  function Message(prefix: string, g: Grant): string {
    prefix + ToLower(g.who) + ":" + FormatInt(g.issuedMs) + ":" + FormatInt(g.expireMs)
  }

  function Parse(prefix: string, msg: string): Option<Grant> {
    if !HasPrefix(msg, prefix) then None
    else
      var parts := Split(TrimPrefix(msg, prefix), ':');
      if |parts| != 3 then None
      else
        var issued, expire := ParseInt(parts[1]), ParseInt(parts[2]);
        if issued.None? || expire.None? then None
        else Some(Grant(ToLower(TrimSpace(parts[0])), issued.value, expire.value))
  }

  function CredentialMessage(g: Grant): string { Message(CREDENTIAL, g) }

  function ParseCredentialMessage(msg: string): Option<Grant> { Parse(CREDENTIAL, msg) }

  function AccessMessage(g: Grant): string { Message(ACCESS, g) }

  function ParseAccessMessage(msg: string): Option<Grant> { Parse(ACCESS, msg) }

  lemma {:induction false} SplitCount(a: string, b: string, sep: char)
    ensures |Split(a + [sep] + b, sep)| == |Split(a, sep)| + |Split(b, sep)|
  {
    if a == "" {
      assert a + [sep] + b == [sep] + b && ([sep] + b)[1..] == b;
    } else {
      assert (a + [sep] + b)[1..] == a[1..] + [sep] + b;
      SplitCount(a[1..], b, sep);
    }
  }

  lemma {:induction false} SplitSeveral(a: string, sep: char)
    ensures |Split(a, sep)| > 1 <==> sep in a
  {
    if a != "" { SplitSeveral(a[1..], sep); }
  }

  lemma LowerColon(s: string)
    ensures ':' in ToLower(s) <==> ':' in s
  {
    assert forall i :: 0 <= i < |s| ==> (ToLower(s)[i] == ':' <==> s[i] == ':');
  }

  lemma {:induction false} LowerTrimLeft(s: string)
    ensures ToLower(TrimLeft(s)) == TrimLeft(ToLower(s))
  {
    if s != "" && IsSpace(s[0]) {
      assert ToLower(s)[1..] == ToLower(s[1..]);
      LowerTrimLeft(s[1..]);
    }
  }

  lemma {:induction false} LowerTrimRight(s: string)
    ensures ToLower(TrimRight(s)) == TrimRight(ToLower(s))
  {
    if s != "" && IsSpace(s[|s| - 1]) {
      assert ToLower(s)[..|s| - 1] == ToLower(s[..|s| - 1]);
      LowerTrimRight(s[..|s| - 1]);
    }
  }

  /** The name that a parser takes from a message for `who`. */
  lemma LowerTrimLower(who: string)
    ensures ToLower(TrimSpace(ToLower(who))) == ToLower(TrimSpace(who))
  {
    LowerTrimLeft(who);
    LowerTrimRight(TrimLeft(who));
    var t := TrimSpace(who);
    assert ToLower(ToLower(t)) == ToLower(t);
  }

  lemma NoColon(n: int)
    ensures ':' !in FormatInt(n)
  {
    FormatIntChars(n);
  }

  /** A message is parsed back to the trimmed, lowercased name and both times exactly when the name has
      no colon; with a colon in it the message parses to nothing. */
  lemma ParsesBack(prefix: string, g: Grant)
    requires InInt64(g.issuedMs) && InInt64(g.expireMs)
    ensures Parse(prefix, Message(prefix, g))
         == if ':' in g.who then None else Some(g.(who := ToLower(TrimSpace(g.who))))
  {
    hide ToLower, FormatInt, ParseInt, TrimSpace, Split;
    var who, issued, expire := ToLower(g.who), FormatInt(g.issuedMs), FormatInt(g.expireMs);
    var body := who + [':'] + (issued + [':'] + expire);
    assert Message(prefix, g) == prefix + body;
    assert (prefix + body)[|prefix|..] == body;
    LowerColon(g.who);
    LowerTrimLower(g.who);
    NoColon(g.issuedMs);
    NoColon(g.expireMs);
    ParseFormatInt(g.issuedMs);
    ParseFormatInt(g.expireMs);
    SplitCount(who, issued + [':'] + expire, ':');
    SplitCount(issued, expire, ':');
    SplitSeveral(who, ':');
    SplitSeveral(issued, ':');
    SplitSeveral(expire, ':');
    if ':' !in who {
      SplitPrefix(who, issued + [':'] + expire, ':');
      SplitPrefix(issued, expire, ':');
      SplitWhole(expire, ':');
    }
  }

  /** Both kinds of message, on all their inputs. */
  lemma CredentialParsesBack(g: Grant)
    requires InInt64(g.issuedMs) && InInt64(g.expireMs)
    ensures ParseCredentialMessage(CredentialMessage(g))
         == if ':' in g.who then None else Some(g.(who := ToLower(TrimSpace(g.who))))
    ensures ParseAccessMessage(AccessMessage(g))
         == if ':' in g.who then None else Some(g.(who := ToLower(TrimSpace(g.who))))
    ensures Trimmed(g.who) ==> TrimSpace(g.who) == g.who
  {
    ParsesBack(CREDENTIAL, g);
    ParsesBack(ACCESS, g);
    if Trimmed(g.who) { TrimmedUnchanged(g.who); }
  }

  /** What is signed, by example: prefix, name in lower case, time of issue, time of expiry. */
  lemma MessageTexts(credential: Grant)
    requires credential == Grant("0xAbC", 17, -4)
    ensures CredentialMessage(credential) == "ISANN-CREDENTIAL:0xabc:17:-4"
    ensures AccessMessage(credential) == "ISANN-ACCESS:0xabc:17:-4"
  {
    assert ToLower("0xAbC") == "0xabc";
    assert FormatNat(17) == "17" && FormatNat(4) == "4";
    assert FormatInt(17) == "17" && FormatInt(-4) == "-4";
  }

  /** An admission credential is never a grant, nor a grant a credential. */
  lemma NoMessageServesBoth(msg: string)
    ensures !(ParseCredentialMessage(msg).Some? && ParseAccessMessage(msg).Some?)
  {
    hide Split, ParseInt, TrimSpace, ToLower;
    assert CREDENTIAL[6] == 'C' && ACCESS[6] == 'A';
    assert HasPrefix(msg, CREDENTIAL) ==> msg[6] == 'C';
    assert HasPrefix(msg, ACCESS) ==> msg[6] == 'A';
  }

  /** The last separator splits a string in one way. */
  lemma LastSeparator(a: string, b: string, c: string, d: string, sep: char)
    requires sep !in b && sep !in d && a + [sep] + b == c + [sep] + d
    ensures a == c && b == d
  {
    var s := a + [sep] + b;
    assert s[|a|] == sep && s[|c|] == sep;
    assert forall k :: |a| < k < |s| ==> s[k] in b;
    assert forall k :: |c| < k < |s| ==> s[k] in d;
    assert |a| == |c|;
    assert s[..|a|] == a && s[|a| + 1..] == b;
    assert s == c + [sep] + d;
    assert s[..|c|] == c && s[|c| + 1..] == d;
  }

  /** Distinct grants are signed as distinct strings, up to the case of the name, whatever the name. */
  lemma MessageInjective(prefix: string, a: Grant, b: Grant)
    requires InInt64(a.issuedMs) && InInt64(a.expireMs) && InInt64(b.issuedMs) && InInt64(b.expireMs)
    ensures Message(prefix, a) == Message(prefix, b)
       <==> ToLower(a.who) == ToLower(b.who) && a.issuedMs == b.issuedMs && a.expireMs == b.expireMs
  {
    hide ToLower, FormatInt, ParseInt;
    if Message(prefix, a) == Message(prefix, b) {
      var x, y := prefix + ToLower(a.who), prefix + ToLower(b.who);
      NoColon(a.issuedMs);
      NoColon(a.expireMs);
      NoColon(b.issuedMs);
      NoColon(b.expireMs);
      LastSeparator(x + [':'] + FormatInt(a.issuedMs), FormatInt(a.expireMs),
                    y + [':'] + FormatInt(b.issuedMs), FormatInt(b.expireMs), ':');
      LastSeparator(x, FormatInt(a.issuedMs), y, FormatInt(b.issuedMs), ':');
      assert x[|prefix|..] == ToLower(a.who) && y[|prefix|..] == ToLower(b.who);
      ParseFormatInt(a.issuedMs);
      ParseFormatInt(a.expireMs);
      ParseFormatInt(b.issuedMs);
      ParseFormatInt(b.expireMs);
    }
  }
}
