/** Replay protection of signed market requests: the nonce cache, its sweep, and the timestamp window.
    Signatures are opaque: a request carries the address its signature recovers to, if any. */
module MarketNonce {
  import opened Text

  type Seen = map<string, int>

  /** What is kept when sweeping at time `now`. */
  function Sweep(seen: Seen, now: int): Seen { map k | k in seen && seen[k] >= now :: seen[k] }

  /** A nonce is spent once; the cache afterwards, and whether it was unspent. */
  function Spend(seen: Seen, nonce: string, expiry: int, now: int): (Seen, bool) {
    var kept := Sweep(seen, now);
    if nonce in kept then (kept, false) else (kept[nonce := expiry], true)
  }

  /** A signed request: its authorization header is well formed or not, its nonce and timestamp
      headers ("" when missing), and the signer. */
  datatype Request = Request(hasHeader: bool, nonce: string, timestamp: string, signer: Option<string>)

  /** Everything but the nonce is in order at time `now`. */
  predicate InOrder(win: int, r: Request, now: int) {
    r.hasHeader && r.nonce != "" && r.timestamp != "" && ParseInt(r.timestamp).Some? &&
    now - win <= ParseInt(r.timestamp).value <= now + win && r.signer.Some?
  }

  /** The timestamp; a malformed one is never in order, so its value does not matter. */
  function Stamp(r: Request): int { if ParseInt(r.timestamp).Some? then ParseInt(r.timestamp).value else 0 }

  /** `verifyWrite`: the new cache and the accepted signer. */
  function Verify(win: int, seen: Seen, r: Request, now: int): (Seen, Option<string>) {
    if !InOrder(win, r, now) then (seen, None)
    else
      var (next, unspent) := Spend(seen, r.nonce, Stamp(r) + win, now);
      (next, if unspent then Some(ToLower(r.signer.value)) else None)
  }

  class NonceCache {
    var seen: Seen

    constructor ()
      ensures seen == map[]
    {
      seen := map[];
    }

    method UseOnce(nonce: string, expiry: int, now: int) returns (ok: bool)
      modifies this
      ensures (seen, ok) == Spend(old(seen), nonce, expiry, now)
    {
      ghost var was := seen;
      var todo := seen.Keys;
      while todo != {}
        invariant todo <= was.Keys
        invariant seen == map k | k in was && (k in todo || was[k] >= now) :: was[k]
        decreases todo
      {
        var k :| k in todo;
        if seen[k] < now { seen := seen - {k}; }
        todo := todo - {k};
      }
      assert seen == Sweep(was, now);
      if nonce in seen { return false; }
      seen := seen[nonce := expiry];
      return true;
    }

    method VerifyWrite(win: int, r: Request, now: int) returns (signer: Option<string>)
      modifies this
      ensures (seen, signer) == Verify(win, old(seen), r, now)
    {
      if !r.hasHeader || r.nonce == "" || r.timestamp == "" { return None; }
      var ts := ParseInt(r.timestamp);
      if ts.None? || ts.value < now - win || ts.value > now + win { return None; }
      if r.signer.None? { return None; }
      var unspent := UseOnce(r.nonce, ts.value + win, now);
      if !unspent { return None; }
      return Some(ToLower(r.signer.value));
    }
  }

  // ----- runs -----

  /** One request and the clock reading it was checked with.  Calls are listed in the order in which they
      take the cache's lock; each reads the clock before, so the readings may be out of order. */
  datatype Call = Call(r: Request, now: int)

  function After(win: int, calls: seq<Call>): Seen {
    if calls == [] then map[]
    else
      var last := calls[|calls| - 1];
      Verify(win, After(win, calls[..|calls| - 1]), last.r, last.now).0
  }

  /** What call `k` is answered: the signer, or nothing. */
  function Answer(win: int, calls: seq<Call>, k: nat): Option<string>
    requires k < |calls|
  {
    Verify(win, After(win, calls[..k]), calls[k].r, calls[k].now).1
  }

  predicate Accepted(win: int, calls: seq<Call>, k: nat)
    requires k < |calls|
  {
    Answer(win, calls, k).Some?
  }

  /** The readings are in order after all. */
  predicate ClockRuns(calls: seq<Call>) { forall i, j :: 0 <= i < j < |calls| ==> calls[i].now <= calls[j].now }

  lemma AcceptedPrefix(win: int, calls: seq<Call>, n: nat, k: nat)
    requires k < n <= |calls|
    ensures Accepted(win, calls[..n], k) == Accepted(win, calls, k)
  {
    assert calls[..n][..k] == calls[..k];
  }

  // ----- what the cache holds, whatever the readings -----

  function Expiry(win: int, r: Request): int { Stamp(r) + win }

  /** Call `j` is in order, and so sweeps the cache, with a reading past `expiry`. */
  predicate Sweeps(win: int, calls: seq<Call>, j: int, expiry: int) {
    0 <= j < |calls| && InOrder(win, calls[j].r, calls[j].now) && expiry < calls[j].now
  }

  /** Request `i` was accepted, and its nonce has not been swept away since. */
  predicate Alive(win: int, calls: seq<Call>, i: int) {
    0 <= i < |calls| && Accepted(win, calls, i) &&
    forall j :: i < j < |calls| ==> !Sweeps(win, calls, j, Expiry(win, calls[i].r))
  }

  /** A request alive with this nonce and expiry. */
  predicate Holds(win: int, calls: seq<Call>, i: int, nonce: string, expiry: int) {
    Alive(win, calls, i) && calls[i].r.nonce == nonce && expiry == Expiry(win, calls[i].r)
  }

  /** Every cached nonce is that of a request alive; every request alive is cached. */
  ghost predicate Faithful(win: int, calls: seq<Call>, seen: Seen) {
    (forall n <- seen.Keys :: exists i :: Holds(win, calls, i, n, seen[n])) &&
    forall i :: Alive(win, calls, i) ==> Cached(win, seen, calls[i].r)
  }

  predicate Cached(win: int, seen: Seen, r: Request) { r.nonce in seen && seen[r.nonce] == Expiry(win, r) }

  /** A call leaves alive what its own sweep, if it makes one, does not reach. */
  lemma AliveNext(win: int, calls: seq<Call>, i: nat)
    requires i < |calls| - 1
    ensures var n := |calls| - 1;
      Alive(win, calls, i) <==>
        Alive(win, calls[..n], i) && !Sweeps(win, calls, n, Expiry(win, calls[i].r))
  {
    var n := |calls| - 1;
    AcceptedPrefix(win, calls, n, i);
    hide Accepted, Answer, InOrder, Expiry;
    assert forall j :: 0 <= j < n ==> calls[..n][j] == calls[j];
    var e := Expiry(win, calls[i].r);
    assert forall j :: i < j < n ==> Sweeps(win, calls[..n], j, e) == Sweeps(win, calls, j, e);
  }

  /** One call's effect on the cache. */
  lemma VerifyEffect(win: int, seen: Seen, r: Request, now: int)
    ensures var (next, signer) := Verify(win, seen, r, now);
      if !InOrder(win, r, now) then next == seen && signer.None?
      else
        (signer.Some? ==> signer == Some(ToLower(r.signer.value))) &&
        (signer.Some? <==> !(r.nonce in seen && seen[r.nonce] >= now)) &&
        (forall n :: n in next <==> (n in seen && seen[n] >= now) || (signer.Some? && n == r.nonce)) &&
        forall n <- next.Keys :: next[n] == if signer.Some? && n == r.nonce then Expiry(win, r) else seen[n]
  {
    hide ParseInt, ToLower;
  }

  lemma {:induction false} CacheFaithful(win: int, calls: seq<Call>)
    ensures Faithful(win, calls, After(win, calls))
  {
    if calls != [] {
      CacheFaithful(win, calls[..|calls| - 1]);
      HoldersKnown(win, calls);
      AliveCached(win, calls);
    }
  }

  lemma HoldersKnown(win: int, calls: seq<Call>)
    requires calls != [] && Faithful(win, calls[..|calls| - 1], After(win, calls[..|calls| - 1]))
    ensures forall n <- After(win, calls).Keys :: exists i :: Holds(win, calls, i, n, After(win, calls)[n])
  {
    var n, last := |calls| - 1, calls[|calls| - 1];
    var before, seen := After(win, calls[..n]), After(win, calls);
    VerifyEffect(win, before, last.r, last.now);
    hide Verify, InOrder, Expiry, After;
    forall m | m in seen.Keys ensures exists i :: Holds(win, calls, i, m, seen[m]) {
      if Accepted(win, calls, n) && m == last.r.nonce {
        assert Holds(win, calls, n, m, seen[m]);
      } else {
        var i :| Holds(win, calls[..n], i, m, before[m]);
        AliveNext(win, calls, i);
        assert Holds(win, calls, i, m, seen[m]);
      }
    }
  }

  lemma AliveCached(win: int, calls: seq<Call>)
    requires calls != [] && Faithful(win, calls[..|calls| - 1], After(win, calls[..|calls| - 1]))
    ensures forall i :: Alive(win, calls, i) ==> Cached(win, After(win, calls), calls[i].r)
  {
    var n, last := |calls| - 1, calls[|calls| - 1];
    var before, seen := After(win, calls[..n]), After(win, calls);
    VerifyEffect(win, before, last.r, last.now);
    hide Verify, InOrder, Expiry, After;
    forall i | Alive(win, calls, i) ensures Cached(win, seen, calls[i].r) {
      if i < n {
        AliveNext(win, calls, i);
        assert Cached(win, before, calls[..n][i].r);
      }
    }
  }

  // ----- when a request is accepted -----

  /** Some in-order call after `i`, up to `k`, had a reading past the expiry of request `i`. */
  predicate SweptBy(win: int, calls: seq<Call>, i: int, k: int)
    requires 0 <= i < |calls|
  {
    exists j :: i < j <= k && Sweeps(win, calls, j, Expiry(win, calls[i].r))
  }

  /** For any clock readings: a request that is otherwise in order is answered with the address that its
      signature recovers to, in lower case, if every accepted request with its nonce has been swept, at
      the latest by this request itself; and with nothing otherwise. */
  lemma AcceptedExactly(win: int, calls: seq<Call>, k: nat)
    requires k < |calls| && InOrder(win, calls[k].r, calls[k].now)
    ensures Accepted(win, calls, k)
       <==> forall i :: 0 <= i < k && Accepted(win, calls, i) && calls[i].r.nonce == calls[k].r.nonce ==>
              SweptBy(win, calls, i, k)
    ensures Answer(win, calls, k)
         == if Accepted(win, calls, k) then Some(ToLower(calls[k].r.signer.value)) else None
  {
    var init, c := calls[..k], calls[k];
    var seen := After(win, init);
    CacheFaithful(win, init);
    VerifyEffect(win, seen, c.r, c.now);
    hide Verify, After, InOrder, Expiry;
    if Accepted(win, calls, k) {
      forall i | 0 <= i < k && Accepted(win, calls, i) && calls[i].r.nonce == c.r.nonce
        ensures SweptBy(win, calls, i, k)
      {
        AcceptedPrefix(win, calls, k, i);
        if !Alive(win, init, i) { SweptInside(win, calls, i, k); }
        assert Sweeps(win, calls, k, Expiry(win, calls[i].r)) ==> SweptBy(win, calls, i, k);
      }
    } else {
      var i :| Holds(win, init, i, c.r.nonce, seen[c.r.nonce]);
      AcceptedPrefix(win, calls, k, i);
      NotSwept(win, calls, i, k);
      assert 0 <= i < k && calls[i].r.nonce == c.r.nonce && Accepted(win, calls, i);
    }
  }

  lemma SweptInside(win: int, calls: seq<Call>, i: nat, k: nat)
    requires i < k < |calls| && Accepted(win, calls[..k], i) && !Alive(win, calls[..k], i)
    ensures SweptBy(win, calls, i, k)
  {
    hide Accepted, Answer, InOrder, Expiry;
    var init := calls[..k];
    assert init[i] == calls[i];
    var j :| i < j < |init| && Sweeps(win, init, j, Expiry(win, init[i].r));
    assert init[j] == calls[j] && Sweeps(win, calls, j, Expiry(win, calls[i].r));
  }

  lemma NotSwept(win: int, calls: seq<Call>, i: nat, k: nat)
    requires i < k < |calls| && Alive(win, calls[..k], i) && !Sweeps(win, calls, k, Expiry(win, calls[i].r))
    ensures !SweptBy(win, calls, i, k)
  {
    hide Accepted, Answer, InOrder, Expiry;
    var init := calls[..k];
    forall j | i < j <= k ensures !Sweeps(win, calls, j, Expiry(win, calls[i].r)) {
      if j < k {
        assert init[j] == calls[j] && init[i] == calls[i];
        assert !Sweeps(win, init, j, Expiry(win, init[i].r));
      }
    }
  }

  /** Whoever a request is accepted for has signed it. */
  lemma AnswersSigner(win: int, calls: seq<Call>, k: nat)
    requires k < |calls| && Accepted(win, calls, k)
    ensures calls[k].r.signer.Some? && Answer(win, calls, k) == Some(ToLower(calls[k].r.signer.value))
  {
    AcceptedInOrder(win, calls, k);
    AcceptedExactly(win, calls, k);
  }

  /** The first request with its nonce: accepted exactly if everything is there and the timestamp is no
      further from the reading than the window, on either side. */
  lemma FreshRequest(win: int, hasHeader: bool, nonce: string, stamp: int, signer: Option<string>, now: int)
    requires InInt64(stamp)
    ensures Verify(win, map[], Request(hasHeader, nonce, FormatInt(stamp), signer), now)
         == if hasHeader && nonce != "" && signer.Some? && stamp - now <= win && now - stamp <= win
            then (map[nonce := stamp + win], Some(ToLower(signer.value))) else (map[], None)
  {
    ParseFormatInt(stamp);
    hide ParseInt, FormatInt, ToLower;
    var r := Request(hasHeader, nonce, FormatInt(stamp), signer);
    assert FormatInt(stamp) != "" by { FormatIntSome(stamp); }
    assert Sweep(map[], now) == map[];
  }

  lemma FormatIntSome(n: int)
    ensures FormatInt(n) != ""
  {
  }

  /** A timestamp that is missing or no integer is never accepted. */
  lemma BadTimestamp(win: int, seen: Seen, r: Request, now: int)
    requires r.timestamp == "" || ParseInt(r.timestamp).None?
    ensures Verify(win, seen, r, now) == (seen, None)
  {
    hide ParseInt;
  }

  /** A signed request is accepted twice only if another call, between the two, had a reading past the
      request's expiry and the second one a reading not past it: the readings were out of order. */
  lemma ReplayNeedsLateReading(win: int, calls: seq<Call>, i: nat, k: nat)
    requires i < k < |calls| && Accepted(win, calls, i) && Accepted(win, calls, k)
    requires calls[i].r.nonce == calls[k].r.nonce && Stamp(calls[k].r) <= Stamp(calls[i].r)
    ensures exists j :: i < j < k && Sweeps(win, calls, j, Expiry(win, calls[i].r)) &&
                        calls[k].now <= Expiry(win, calls[i].r)
  {
    AcceptedInOrder(win, calls, k);
    AcceptedExactly(win, calls, k);
    assert calls[k].now <= Expiry(win, calls[k].r);
    hide Accepted, Answer;
    var j :| i < j <= k && Sweeps(win, calls, j, Expiry(win, calls[i].r));
    assert j != k;
  }

  /** A repeated request, within its window, is accepted again exactly when such a call came between. */
  lemma ReplayedIff(win: int, calls: seq<Call>, i: nat, k: nat)
    requires i < k < |calls| && Accepted(win, calls, i) && calls[k].r == calls[i].r
    requires InOrder(win, calls[k].r, calls[k].now)
    requires forall l :: i < l < k && calls[l].r.nonce == calls[i].r.nonce ==> !Accepted(win, calls, l)
    ensures Accepted(win, calls, k) <==> exists j :: i < j < k && Sweeps(win, calls, j, Expiry(win, calls[i].r))
  {
    AcceptedInOrder(win, calls, i);
    AcceptedExactly(win, calls, i);
    AcceptedExactly(win, calls, k);
    assert calls[k].now <= Expiry(win, calls[k].r);
    hide Accepted, Answer, InOrder, Expiry;
    if exists j :: i < j < k && Sweeps(win, calls, j, Expiry(win, calls[i].r)) {
      var j :| i < j < k && Sweeps(win, calls, j, Expiry(win, calls[i].r));
      forall l | 0 <= l < k && Accepted(win, calls, l) && calls[l].r.nonce == calls[k].r.nonce
        ensures SweptBy(win, calls, l, k)
      {
        if l < i {
          assert SweptBy(win, calls, l, i);
          var m :| l < m <= i && Sweeps(win, calls, m, Expiry(win, calls[l].r));
        }
      }
    }
  }

  lemma AcceptedInOrder(win: int, calls: seq<Call>, i: nat)
    requires i < |calls| && Accepted(win, calls, i)
    ensures InOrder(win, calls[i].r, calls[i].now)
  {
    hide ParseInt, ToLower;
  }

  /** With readings in order: accepted if and only if no accepted request with its nonce could itself
      still pass the window. */
  lemma AcceptedIff(win: int, calls: seq<Call>, k: nat)
    requires ClockRuns(calls) && k < |calls| && InOrder(win, calls[k].r, calls[k].now)
    ensures Accepted(win, calls, k)
       <==> forall i :: 0 <= i < k && Accepted(win, calls, i) && calls[i].r.nonce == calls[k].r.nonce ==>
              Stamp(calls[i].r) + win < calls[k].now
  {
    AcceptedExactly(win, calls, k);
    forall i | 0 <= i < k ensures SweptBy(win, calls, i, k) <==> Stamp(calls[i].r) + win < calls[k].now {
      hide Accepted, Answer, InOrder;
      if Stamp(calls[i].r) + win < calls[k].now { assert Sweeps(win, calls, k, Expiry(win, calls[i].r)); }
    }
    hide Accepted, Answer, InOrder;
  }

  /** With readings in order no pair of nonce and timestamp is accepted twice. */
  lemma NoReplay(win: int, calls: seq<Call>, i: nat, k: nat)
    requires ClockRuns(calls) && i < k < |calls|
    requires Accepted(win, calls, i) && Accepted(win, calls, k) && calls[i].r.nonce == calls[k].r.nonce
    ensures Stamp(calls[i].r) < Stamp(calls[k].r)
  {
    hide Accepted, Answer, InOrder;
    if Stamp(calls[k].r) <= Stamp(calls[i].r) {
      ReplayNeedsLateReading(win, calls, i, k);
      assert false;
    }
  }

  lemma AfterNext(win: int, calls: seq<Call>, c: Call)
    ensures After(win, calls + [c]) == Verify(win, After(win, calls), c.r, c.now).0
  {
    assert (calls + [c])[..|calls|] == calls;
  }

  lemma StampsRead(r: Request, other: Request)
    requires r.timestamp == "100" && other.timestamp == "111"
    ensures ParseInt(r.timestamp) == Some(100) && ParseInt(other.timestamp) == Some(111)
  {
    ParseFormatInt(100);
    ParseFormatInt(111);
    assert FormatInt(100) == "100" && FormatInt(111) == "111";
  }

  /** The smallest replay: a second request, stamped and read later, sweeps the first one's nonce while
      its repetition, read earlier, waits for the lock. */
  lemma ReplayInput(r: Request, other: Request)
    requires r == Request(true, "n", "100", Some("a")) && other == Request(true, "m", "111", Some("a"))
    ensures var calls := [Call(r, 105), Call(other, 111), Call(r, 110)];
      Accepted(10, calls, 0) && Accepted(10, calls, 2)
  {
    var calls := [Call(r, 105), Call(other, 111), Call(r, 110)];
    StampsRead(r, other);
    hide ParseInt, Verify;
    var c1, c2 := [] + [Call(r, 105)], [Call(r, 105)] + [Call(other, 111)];
    assert calls[..0] == [] && c1 == [Call(r, 105)] && calls[..2] == c2;
    var s1, s2 := After(10, c1), After(10, c2);
    AfterNext(10, [], Call(r, 105));
    AfterNext(10, c1, Call(other, 111));
    VerifyEffect(10, map[], r, 105);
    VerifyEffect(10, s1, other, 111);
    VerifyEffect(10, s2, r, 110);
    hide After;
    assert InOrder(10, r, 105) && InOrder(10, other, 111) && InOrder(10, r, 110);
    assert "n" in s1 && s1["n"] == 110;
  }

  /** After a request that reaches the cache, every expiry lies between now and, with readings in order,
      now + 2·window. */
  lemma {:induction false} ExpiriesBounded(win: int, calls: seq<Call>)
    requires win >= 0 && calls != []
    ensures var last := calls[|calls| - 1];
      forall n <- After(win, calls).Keys ::
        (ClockRuns(calls) ==> After(win, calls)[n] <= last.now + 2 * win) &&
        (InOrder(win, last.r, last.now) ==> last.now <= After(win, calls)[n])
  {
    var k := |calls| - 1;
    var last := calls[k];
    if k > 0 {
      ExpiriesBounded(win, calls[..k]);
      assert calls[..k][k - 1].now <= last.now || !ClockRuns(calls);
      assert ClockRuns(calls) ==> ClockRuns(calls[..k]);
    }
    VerifyEffect(win, After(win, calls[..k]), last.r, last.now);
    hide Verify, ParseInt, ToLower;
  }
}
