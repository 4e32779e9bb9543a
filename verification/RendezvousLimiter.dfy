/** The per-address rate limiter of the health endpoint: a fixed one-second window. */
module RendezvousLimiter {

  /** Nanoseconds since the zero time. */
  type Time = nat

  const SECOND: nat := 1_000_000_000

  /** `Truncate(time.Second)`. */
  function Truncate(t: Time): Time { t - t % SECOND }

  /** The second in which a reading lies. */
  lemma TruncateIsSecond(t: Time)
    ensures Truncate(t) <= t < Truncate(t) + 1_000_000_000 && Truncate(t) % 1_000_000_000 == 0
  {
    var q := t / SECOND;
    assert t == SECOND * q + t % SECOND;
    assert Truncate(t) == SECOND * q;
  }

  datatype State = State(window: Time, hits: map<string, nat>)

  const START := State(0, map[])

  function HitsOf(s: State, ip: string): nat { if ip in s.hits then s.hits[ip] else 0 }

  function Allow(limit: nat, s: State, ip: string, now: Time): (State, bool) {
    var w := Truncate(now);
    var base := if w > s.window then State(w, map[]) else s;
    var n := HitsOf(base, ip) + 1;
    (base.(hits := base.hits[ip := n]), n <= limit)
  }

  class HealthRateLimiter {
    const limit: nat
    var window: Time
    var hits: map<string, nat>

    constructor (limit: nat)
      ensures this.limit == limit && State(window, hits) == START
    {
      this.limit, window, hits := limit, 0, map[];
    }

    method Check(ip: string, now: Time) returns (ok: bool)
      modifies this
      ensures (State(window, hits), ok) == Allow(limit, State(old(window), old(hits)), ip, now)
    {
      var w := Truncate(now);
      if w > window { window, hits := w, map[]; }
      hits := hits[ip := (if ip in hits then hits[ip] else 0) + 1];
      return hits[ip] <= limit;
    }
  }

  // ----- runs -----

  /** One call and its clock reading.  Calls are listed in the order in which they take the lock; each
      reads the clock before, so the readings may be out of order. */
  datatype Call = Call(ip: string, now: Time)

  function After(limit: nat, calls: seq<Call>): State {
    if calls == [] then START
    else
      var n := |calls| - 1;
      Allow(limit, After(limit, calls[..n]), calls[n].ip, calls[n].now).0
  }

  predicate Allowed(limit: nat, calls: seq<Call>, k: nat)
    requires k < |calls|
  {
    Allow(limit, After(limit, calls[..k]), calls[k].ip, calls[k].now).1
  }

  function Max(a: nat, b: nat): nat { if a < b then b else a }

  function Min(a: nat, b: nat): nat { if a < b then a else b }

  /** The latest window read so far. */
  function Epoch(calls: seq<Call>): Time {
    if calls == [] then 0 else Max(Epoch(calls[..|calls| - 1]), Truncate(calls[|calls| - 1].now))
  }

  /** The last call is the address's, in the epoch. */
  predicate CallIn(calls: seq<Call>, ip: string, epoch: Time)
    requires calls != []
  {
    calls[|calls| - 1].ip == ip && Epoch(calls) == epoch
  }

  /** How many calls the address made in the epoch. */
  function Made(calls: seq<Call>, ip: string, epoch: Time): nat {
    if calls == [] then 0 else Made(calls[..|calls| - 1], ip, epoch) + (if CallIn(calls, ip, epoch) then 1 else 0)
  }

  /** How many of them were allowed. */
  function Granted(limit: nat, calls: seq<Call>, ip: string, epoch: Time): nat {
    if calls == [] then 0
    else
      var n := |calls| - 1;
      Granted(limit, calls[..n], ip, epoch) + (if CallIn(calls, ip, epoch) && Allowed(limit, calls, n) then 1 else 0)
  }

  lemma {:induction false} NothingLater(calls: seq<Call>, ip: string, epoch: Time)
    requires Epoch(calls) < epoch
    ensures Made(calls, ip, epoch) == 0
  {
    if calls != [] { NothingLater(calls[..|calls| - 1], ip, epoch); }
  }

  /** Whatever the readings: the window is the epoch, and the map counts exactly the calls of the epoch
      and holds only addresses seen in it. */
  lemma {:induction false} HitsAreMade(limit: nat, calls: seq<Call>)
    ensures var s := After(limit, calls);
      s.window == Epoch(calls) &&
      forall ip :: HitsOf(s, ip) == Made(calls, ip, s.window) && (ip in s.hits <==> Made(calls, ip, s.window) > 0)
  {
    if calls != [] {
      var n := |calls| - 1;
      HitsAreMade(limit, calls[..n]);
      if Truncate(calls[n].now) > Epoch(calls[..n]) {
        forall ip ensures Made(calls[..n], ip, Epoch(calls)) == 0 { NothingLater(calls[..n], ip, Epoch(calls)); }
      }
    }
  }

  /** Whatever the readings: in each epoch an address is allowed exactly as often as it calls, up to the
      limit. */
  lemma {:induction false} GrantedIsMin(limit: nat, calls: seq<Call>, ip: string, epoch: Time)
    ensures Granted(limit, calls, ip, epoch) == Min(Made(calls, ip, epoch), limit)
  {
    if calls != [] {
      var n := |calls| - 1;
      GrantedIsMin(limit, calls[..n], ip, epoch);
      if CallIn(calls, ip, epoch) {
        HitsAreMade(limit, calls);
        assert calls[n].ip == ip;
      }
    }
  }

  // ----- readings in order -----

  predicate ClockRuns(calls: seq<Call>) { forall i, j :: 0 <= i < j < |calls| ==> calls[i].now <= calls[j].now }

  lemma TruncateMonotone(a: Time, b: Time)
    requires a <= b
    ensures Truncate(a) <= Truncate(b)
  {
    var qa, qb := a / SECOND, b / SECOND;
    assert a == SECOND * qa + a % SECOND && b == SECOND * qb + b % SECOND;
    assert SECOND * qa <= SECOND * qb;
  }

  /** Then the epoch is the second of the last reading. */
  lemma {:induction false} EpochIsSecond(calls: seq<Call>)
    requires ClockRuns(calls) && calls != []
    ensures Epoch(calls) == Truncate(calls[|calls| - 1].now)
  {
    var n := |calls| - 1;
    if n > 0 {
      EpochIsSecond(calls[..n]);
      TruncateMonotone(calls[n - 1].now, calls[n].now);
    }
  }

  /** How many calls of the address were allowed in a second that starts at `from`. */
  function GrantedDuring(limit: nat, calls: seq<Call>, ip: string, from: Time): nat {
    if calls == [] then 0
    else
      var n := |calls| - 1;
      GrantedDuring(limit, calls[..n], ip, from)
      + (if calls[n].ip == ip && from <= calls[n].now < from + SECOND && Allowed(limit, calls, n) then 1 else 0)
  }

  lemma TwoWindows(t: Time, from: Time)
    requires from <= t < from + SECOND
    ensures Truncate(t) == Truncate(from) || Truncate(t) == Truncate(from) + SECOND
  {
    TruncateMonotone(from, t);
    TruncateMonotone(t, from + SECOND);
    var q := from / SECOND;
    assert from == SECOND * q + from % SECOND;
    var d := t - (SECOND * q);
    assert 0 <= d < 2 * SECOND;
    if d < SECOND { DivUnique(t, q, d); } else { DivUnique(t, q + 1, d - SECOND); }
  }

  lemma DivUnique(t: Time, q: nat, d: nat)
    requires t == SECOND * q + d && d < SECOND
    ensures t % SECOND == d
  {
    var r := t / SECOND;
    assert t == SECOND * r + t % SECOND;
    assert r == q;
  }

  /** The sum of `Granted` over the epochs that are listed. */
  function GrantedIn(limit: nat, calls: seq<Call>, ip: string, epochs: set<Time>): nat {
    if calls == [] then 0
    else
      var n := |calls| - 1;
      GrantedIn(limit, calls[..n], ip, epochs)
      + (if calls[n].ip == ip && Epoch(calls) in epochs && Allowed(limit, calls, n) then 1 else 0)
  }

  /** The epochs in which the address called with a reading in the second. */
  function EpochsDuring(calls: seq<Call>, ip: string, from: Time): set<Time> {
    if calls == [] then {}
    else
      var n := |calls| - 1;
      EpochsDuring(calls[..n], ip, from)
      + (if calls[n].ip == ip && from <= calls[n].now < from + SECOND then {Epoch(calls)} else {})
  }

  lemma {:induction false} GrantedInSplit(limit: nat, calls: seq<Call>, ip: string, epochs: set<Time>, e: Time)
    requires e !in epochs
    ensures GrantedIn(limit, calls, ip, epochs + {e})
         == GrantedIn(limit, calls, ip, epochs) + Granted(limit, calls, ip, e)
  {
    if calls != [] { GrantedInSplit(limit, calls[..|calls| - 1], ip, epochs, e); }
  }

  lemma {:induction false} GrantedInNone(limit: nat, calls: seq<Call>, ip: string)
    ensures GrantedIn(limit, calls, ip, {}) == 0
  {
    if calls != [] { GrantedInNone(limit, calls[..|calls| - 1], ip); }
  }

  lemma OneMore(n: nat, limit: nat)
    ensures (n + 1) * limit == n * limit + limit
  {
  }

  lemma {:induction false} GrantedInBounded(limit: nat, calls: seq<Call>, ip: string, epochs: set<Time>)
    ensures GrantedIn(limit, calls, ip, epochs) <= |epochs| * limit
    decreases epochs
  {
    hide GrantedIn, Granted;
    if epochs == {} {
      GrantedInNone(limit, calls, ip);
    } else {
      var e :| e in epochs;
      var rest := epochs - {e};
      GrantedInBounded(limit, calls, ip, rest);
      GrantedInSplit(limit, calls, ip, rest, e);
      GrantedIsMin(limit, calls, ip, e);
      assert rest + {e} == epochs;
      var n := |rest|;
      OneMore(n, limit);
      assert |epochs| == n + 1;
    }
  }

  lemma {:induction false} GrantedDuringIn(limit: nat, calls: seq<Call>, ip: string, from: Time, epochs: set<Time>)
    requires EpochsDuring(calls, ip, from) <= epochs
    ensures GrantedDuring(limit, calls, ip, from) <= GrantedIn(limit, calls, ip, epochs)
  {
    if calls != [] { GrantedDuringIn(limit, calls[..|calls| - 1], ip, from, epochs); }
  }

  /** Whatever the readings: what is allowed with a reading in one second is at most the limit times the
      number of epochs in which those calls arrive. */
  lemma AtMostLimitPerEpoch(limit: nat, calls: seq<Call>, ip: string, from: Time)
    ensures GrantedDuring(limit, calls, ip, from) <= |EpochsDuring(calls, ip, from)| * limit
  {
    GrantedDuringIn(limit, calls, ip, from, EpochsDuring(calls, ip, from));
    GrantedInBounded(limit, calls, ip, EpochsDuring(calls, ip, from));
  }

  lemma Next(limit: nat, calls: seq<Call>, c: Call, from: Time)
    ensures var (s, ok) := Allow(limit, After(limit, calls), c.ip, c.now);
      After(limit, calls + [c]) == s &&
      GrantedDuring(limit, calls + [c], c.ip, from)
      == GrantedDuring(limit, calls, c.ip, from) + (if from <= c.now < from + SECOND && ok then 1 else 0)
    ensures forall ip :: ip != c.ip ==>
      GrantedDuring(limit, calls + [c], ip, from) == GrantedDuring(limit, calls, ip, from)
  {
    assert (calls + [c])[..|calls|] == calls;
  }

  lemma {:induction false} TwoEpochs(calls: seq<Call>, ip: string, from: Time)
    requires ClockRuns(calls)
    ensures EpochsDuring(calls, ip, from) <= {Truncate(from), Truncate(from) + SECOND}
  {
    if calls != [] {
      var n := |calls| - 1;
      TwoEpochs(calls[..n], ip, from);
      EpochIsSecond(calls);
      if from <= calls[n].now < from + SECOND { TwoWindows(calls[n].now, from); }
    }
  }

  /** With readings in order, no second whatever sees more than twice the limit. */
  lemma AtMostTwiceTheLimit(limit: nat, calls: seq<Call>, ip: string, from: Time)
    requires ClockRuns(calls)
    ensures GrantedDuring(limit, calls, ip, from) <= 2 * limit
  {
    var two := {Truncate(from), Truncate(from) + SECOND};
    TwoEpochs(calls, ip, from);
    GrantedDuringIn(limit, calls, ip, from, two);
    GrantedInBounded(limit, calls, ip, two);
    assert |two| == 2;
  }

  /** With readings out of order a second can see three times the limit: another address's later reading
      opens a third epoch. */
  lemma ThreeInOneSecond(calls: seq<Call>, tenth: nat)
    requires tenth == SECOND / 10
    requires calls == [Call("a", 9 * tenth), Call("a", 10 * tenth), Call("b", 20 * tenth), Call("a", 18 * tenth)]
    ensures GrantedDuring(1, calls, "a", 9 * tenth) == 3
  {
    var c1 := [] + [calls[0]];
    var c2 := c1 + [calls[1]];
    var c3 := c2 + [calls[2]];
    assert calls == c3 + [calls[3]];
    hide GrantedDuring;
    Next(1, [], calls[0], 9 * tenth);
    Next(1, c1, calls[1], 9 * tenth);
    Next(1, c2, calls[2], 9 * tenth);
    Next(1, c3, calls[3], 9 * tenth);
    NothingYet(9 * tenth);
    Truncations(tenth);
    hide Truncate, After;
    assert After(1, c1) == State(0, map["a" := 1]);
    assert After(1, c2) == State(SECOND, map["a" := 1]);
    assert After(1, c3) == State(2 * SECOND, map["b" := 1]);
  }

  lemma Truncations(tenth: nat)
    requires tenth == SECOND / 10
    ensures Truncate(9 * tenth) == 0 && Truncate(10 * tenth) == SECOND
    ensures Truncate(20 * tenth) == 2 * SECOND && Truncate(18 * tenth) == SECOND
  {
  }

  lemma NothingYet(from: Time)
    ensures After(1, []) == START && GrantedDuring(1, [], "a", from) == 0
  {
  }
}
