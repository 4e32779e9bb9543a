/** The node registry of the rendezvous server: registration, liveness, address learning from punches,
    the purge tick, and the counters kept beside the registry.  Every step runs under one lock. */
module RendezvousRegistry {
  import opened Text

  // ----- keys -----

  /** `nodeKey`: role in upper case, address in lower case. */
  function NodeKey(id: string): string {
    match IndexOf(id, ':')
    case Some(i) => ToUpper(id[..i]) + ":" + ToLower(id[i + 1..])
    case None => ToLower(id)
  }

  lemma UpperLowerStable(s: string)
    ensures ToUpper(ToUpper(s)) == ToUpper(s) && ToLower(ToLower(s)) == ToLower(s)
    ensures ':' in ToUpper(s) <==> ':' in s
    ensures ':' in ToLower(s) <==> ':' in s
  {
    assert forall i :: 0 <= i < |s| ==>
      (ToUpper(s)[i] == ':' <==> s[i] == ':') && (ToLower(s)[i] == ':' <==> s[i] == ':');
  }

  /** A normalised key normalises to itself. */
  lemma NodeKeyStable(id: string)
    ensures NodeKey(NodeKey(id)) == NodeKey(id)
  {
    UpperLowerStable(id);
    match IndexOf(id, ':')
    case None =>
    case Some(i) =>
      var a, b := id[..i], id[i + 1..];
      UpperLowerStable(a);
      UpperLowerStable(b);
      IndexOfFirst(ToUpper(a), ':', ToLower(b));
      var key := NodeKey(id);
      assert key == ToUpper(a) + [':'] + ToLower(b);
      assert key[..i] == ToUpper(a) && key[i + 1..] == ToLower(b);
  }

  /** The role before the first colon in upper case, the rest in lower case. */
  lemma NodeKeyForm(role: string, rest: string)
    requires ':' !in role
    ensures NodeKey(role + ":" + rest) == ToUpper(role) + ":" + ToLower(rest)
    ensures NodeKey(role) == ToLower(role)
  {
    hide ToLower, ToUpper;
    var id := role + [':'] + rest;
    IndexOfFirst(role, ':', rest);
    assert id[..|role|] == role && id[|role| + 1..] == rest;
  }

  /** Two ids name the same node exactly when they differ in letter case only. */
  lemma SameNodeIffSameLetters(a: string, b: string)
    ensures NodeKey(a) == NodeKey(b) <==> ToLower(a) == ToLower(b)
  {
    LowerOfKey(a);
    LowerOfKey(b);
    if ToLower(a) == ToLower(b) {
      SameColon(a, b);
      match IndexOf(a, ':')
      case None =>
      case Some(i) =>
        assert ToLower(a)[..i] == ToLower(a[..i]) && ToLower(b)[..i] == ToLower(b[..i]);
        SameUpper(a[..i], b[..i]);
        assert ToLower(a)[i + 1..] == ToLower(a[i + 1..]) && ToLower(b)[i + 1..] == ToLower(b[i + 1..]);
    }
  }

  lemma LowerOfKey(id: string)
    ensures ToLower(NodeKey(id)) == ToLower(id)
  {
  }

  lemma SameUpper(a: string, b: string)
    requires ToLower(a) == ToLower(b)
    ensures ToUpper(a) == ToUpper(b)
  {
    assert |ToLower(a)| == |ToLower(b)|;
    forall i | 0 <= i < |a| ensures UpperChar(a[i]) == UpperChar(b[i]) {
      assert LowerChar(a[i]) == ToLower(a)[i] == ToLower(b)[i] == LowerChar(b[i]);
    }
  }

  lemma SameColon(a: string, b: string)
    requires ToLower(a) == ToLower(b)
    ensures |a| == |b| && IndexOf(a, ':') == IndexOf(b, ':')
  {
    assert |ToLower(a)| == |ToLower(b)|;
    forall i | 0 <= i < |a| ensures a[i] == ':' <==> b[i] == ':' {
      assert LowerChar(a[i]) == ToLower(a)[i] == ToLower(b)[i] == LowerChar(b[i]);
    }
    SameIndex(a, b, ':');
  }

  lemma {:induction false} SameIndex(a: string, b: string, c: char)
    requires |a| == |b| && forall i :: 0 <= i < |a| ==> (a[i] == c <==> b[i] == c)
    ensures IndexOf(a, c) == IndexOf(b, c)
  {
    if a != "" { SameIndex(a[1..], b[1..], c); }
  }

  // ----- entries and counters -----

  /** A network source: its IP, and its printed form, which is never empty. */
  datatype Endpoint = Endpoint(ip: string, text: string)

  predicate Printed(e: Endpoint) { e.text != "" }

  /** A registered node.  `manual` says that the address was given by the node itself. */
  datatype Entry = Entry(
    id: string, role: string, authMode: string, addr: string, manual: bool,
    udpAddr: Option<string>, controlIP: string, lastSeen: int, registeredAt: int)

  type Registry = map<string, Entry>

  datatype Counters = Counters(station: int, control: int, passenger: int, open: int)

  datatype Bucket = Station | Control | Passenger | Unknown

  function RoleBucket(role: string): Bucket {
    var r := ToLower(role);
    if r == "provider" || r == "station" then Station
    else if r == "broker" || r == "control" then Control
    else if r == "consumer" || r == "passenger" then Passenger
    else Unknown
  }

  /** The role names of the three buckets, in any letter case; all other roles are counted nowhere. */
  lemma RoleNames(role: string)
    ensures RoleBucket(role) == Station <==> ToLower(role) in {"station", "provider"}
    ensures RoleBucket(role) == Control <==> ToLower(role) in {"control", "broker"}
    ensures RoleBucket(role) == Passenger <==> ToLower(role) in {"passenger", "consumer"}
    ensures RoleBucket(role) == Unknown <==>
      ToLower(role) !in {"station", "provider", "control", "broker", "passenger", "consumer"}
  {
    hide ToLower;
  }

  predicate IsPublic(authMode: string) { ToLower(authMode) == "public" }

  /** What one registered node adds to the four counters. */
  lemma OneNodeCounted(k: string, e: Entry)
    ensures Tally(map[k := e])
         == Counters(
              if ToLower(e.role) in {"station", "provider"} then 1 else 0,
              if ToLower(e.role) in {"control", "broker"} then 1 else 0,
              if ToLower(e.role) in {"passenger", "consumer"} then 1 else 0,
              if ToLower(e.role) in {"station", "provider"} && ToLower(e.authMode) == "public" then 1 else 0)
  {
    RoleNames(e.role);
    assert Tally(map[]) == Counters(0, 0, 0, 0) by { TallyEmpty(); }
    assert map[][k := e] == map[k := e];
    TallyUpdate(map[], k, e);
    hide Tally, ToLower;
  }

  function CountDelta(c: Counters, role: string, authMode: string, delta: int): Counters {
    match RoleBucket(role)
    case Station => c.(station := c.station + delta, open := if IsPublic(authMode) then c.open + delta else c.open)
    case Control => c.(control := c.control + delta)
    case Passenger => c.(passenger := c.passenger + delta)
    case Unknown => c
  }

  // ----- steps -----

  /** A register frame as the handler sees it: the connection it came on, and what the signature and
      admission checks would say. */
  datatype RegisterMsg = RegisterMsg(
    connId: string, id: string, role: string, authMode: string, addr: string, source: Endpoint,
    fullSync: bool, signatureOk: bool, admitted: bool)

  datatype Event =
    | Register(m: RegisterMsg, now: int)
    | Ping(id: string, signatureOk: bool, now: int)
    | ServiceEvent(id: string, now: int)
    | Punch(id: string, source: Endpoint)
    | Purge(now: int, cutoff: int)

  datatype State = State(proxies: Registry, counters: Counters)

  /** A full sync must be signed and, in protected mode, admitted; a delta is bound to its connection. */
  predicate Accepts(protected: bool, m: RegisterMsg) {
    m.id == m.connId && (m.fullSync ==> m.signatureOk && (protected ==> m.admitted))
  }

  /** The entry after an accepted register frame. */
  function Registered(proxies: Registry, m: RegisterMsg, now: int): Entry {
    var key := NodeKey(m.id);
    var known := key in proxies;
    var addr := if known then proxies[key].addr else "";
    Entry(
      key, m.role,
      if m.authMode != "" || !known then m.authMode else proxies[key].authMode,
      if m.addr != "" then m.addr else if addr == "" then m.source.text else addr,
      m.addr != "" || (known && proxies[key].manual),
      if known then proxies[key].udpAddr else None,
      m.source.ip, now, if known then proxies[key].registeredAt else now)
  }

  function ApplyRegister(protected: bool, s: State, m: RegisterMsg, now: int): State {
    if !Accepts(protected, m) then s
    else
      var key, e := NodeKey(m.id), Registered(s.proxies, m, now);
      var without :=
        if key !in s.proxies then s.counters
        else CountDelta(s.counters, s.proxies[key].role, s.proxies[key].authMode, -1);
      State(s.proxies[key := e], CountDelta(without, e.role, e.authMode, 1))
  }

  /** A sign of life refreshes an existing entry and nothing else. */
  function Touch(s: State, id: string, now: int): State {
    var key := NodeKey(id);
    if key in s.proxies then s.(proxies := s.proxies[key := s.proxies[key].(lastSeen := now)]) else s
  }

  function ApplyPing(s: State, id: string, signatureOk: bool, now: int): State {
    if id == "" || !signatureOk then s else Touch(s, id, now)
  }

  /** `learnPublicAddr`. */
  function LearnPublicAddr(s: State, id: string, source: Endpoint): State {
    var key := NodeKey(id);
    if key !in s.proxies then s
    else
      var p := s.proxies[key];
      if p.controlIP != "" && p.controlIP != source.ip then s
      else
        var addr := if p.manual then p.addr else source.text;
        s.(proxies := s.proxies[key := p.(udpAddr := Some(source.text), addr := addr)])
  }

  predicate Stale(e: Entry, now: int, cutoff: int) { now - e.lastSeen > cutoff }

  function Fresh(proxies: Registry, now: int, cutoff: int): Registry {
    map k | k in proxies && !Stale(proxies[k], now, cutoff) :: proxies[k]
  }

  function StaleOnes(proxies: Registry, now: int, cutoff: int): Registry {
    map k | k in proxies && Stale(proxies[k], now, cutoff) :: proxies[k]
  }

  /** A purge drops the stale entries and takes them off the counters. */
  function ApplyPurge(s: State, now: int, cutoff: int): State {
    State(Fresh(s.proxies, now, cutoff), Minus(s.counters, Tally(StaleOnes(s.proxies, now, cutoff))))
  }

  function Apply(protected: bool, s: State, e: Event): State {
    match e
    case Register(m, now) => ApplyRegister(protected, s, m, now)
    case Ping(id, ok, now) => ApplyPing(s, id, ok, now)
    case ServiceEvent(id, now) => if id == "" then s else Touch(s, id, now)
    case Punch(id, source) => LearnPublicAddr(s, id, source)
    case Purge(now, cutoff) => ApplyPurge(s, now, cutoff)
  }

  const START := State(map[], Counters(0, 0, 0, 0))

  function Run(protected: bool, events: seq<Event>): State {
    if events == [] then START
    else Apply(protected, Run(protected, events[..|events| - 1]), events[|events| - 1])
  }

  // ----- counting by scan -----

  predicate InBucket(e: Entry, b: Bucket) { RoleBucket(e.role) == b }

  predicate IsOpenStation(e: Entry) { InBucket(e, Station) && IsPublic(e.authMode) }

  function Matching(proxies: Registry, p: Entry -> bool): set<string> { set k | k in proxies && p(proxies[k]) }

  function Count(proxies: Registry, p: Entry -> bool): nat { |Matching(proxies, p)| }

  /** The counters as a scan of the registry gives them. */
  function Tally(proxies: Registry): Counters {
    Counters(
      Count(proxies, e => InBucket(e, Station)), Count(proxies, e => InBucket(e, Control)),
      Count(proxies, e => InBucket(e, Passenger)), Count(proxies, e => IsOpenStation(e)))
  }

  function Minus(a: Counters, b: Counters): Counters {
    Counters(a.station - b.station, a.control - b.control, a.passenger - b.passenger, a.open - b.open)
  }

  function One(b: bool): int { if b then 1 else 0 }

  lemma CountUpdate(proxies: Registry, k: string, e: Entry, p: Entry -> bool)
    ensures Count(proxies[k := e], p) == Count(proxies, p) - One(k in proxies && p(proxies[k])) + One(p(e))
  {
    var before, after := Matching(proxies, p), Matching(proxies[k := e], p);
    assert after == if p(e) then before + {k} else before - {k};
    SizeWithout(before, k);
  }

  lemma SizeWithout(s: set<string>, k: string)
    ensures |s - {k}| == |s| - One(k in s)
    ensures |s + {k}| == |s| - One(k in s) + 1
  {
    if k in s { assert s + {k} == s; } else { assert s - {k} == s; }
  }

  lemma TallyUpdate(proxies: Registry, k: string, e: Entry)
    ensures Tally(proxies[k := e])
         == CountDelta(if k in proxies then CountDelta(Tally(proxies), proxies[k].role, proxies[k].authMode, -1)
                       else Tally(proxies), e.role, e.authMode, 1)
  {
    CountUpdate(proxies, k, e, x => InBucket(x, Station));
    CountUpdate(proxies, k, e, x => InBucket(x, Control));
    CountUpdate(proxies, k, e, x => InBucket(x, Passenger));
    CountUpdate(proxies, k, e, x => IsOpenStation(x));
  }

  lemma CountSplit(proxies: Registry, now: int, cutoff: int, p: Entry -> bool)
    ensures Count(proxies, p) == Count(Fresh(proxies, now, cutoff), p) + Count(StaleOnes(proxies, now, cutoff), p)
  {
    var kept, stale := Matching(Fresh(proxies, now, cutoff), p), Matching(StaleOnes(proxies, now, cutoff), p);
    assert Matching(proxies, p) == kept + stale && kept !! stale;
  }

  lemma TallySplit(proxies: Registry, now: int, cutoff: int)
    ensures Tally(Fresh(proxies, now, cutoff)) == Minus(Tally(proxies), Tally(StaleOnes(proxies, now, cutoff)))
  {
    CountSplit(proxies, now, cutoff, x => InBucket(x, Station));
    CountSplit(proxies, now, cutoff, x => InBucket(x, Control));
    CountSplit(proxies, now, cutoff, x => InBucket(x, Passenger));
    CountSplit(proxies, now, cutoff, x => IsOpenStation(x));
  }

  /** Rewriting an entry's address or time does not move it between buckets. */
  lemma TallySame(proxies: Registry, k: string, e: Entry)
    requires k in proxies && e.role == proxies[k].role && e.authMode == proxies[k].authMode
    ensures Tally(proxies[k := e]) == Tally(proxies)
  {
    TallyUpdate(proxies, k, e);
  }

  // ----- what every run keeps -----

  /** The counters equal a scan; every entry carries its key, and the key is normalised. */
  predicate Exact(s: State) {
    s.counters == Tally(s.proxies) &&
    forall k <- s.proxies.Keys :: s.proxies[k].id == k && NodeKey(k) == k
  }

  lemma StepKeepsExact(protected: bool, s: State, e: Event)
    requires Exact(s)
    ensures Exact(Apply(protected, s, e))
  {
    hide Tally, CountDelta, NodeKey, ToLower;
    match e
    case Register(m, now) =>
      NodeKeyStable(m.id);
      TallyUpdate(s.proxies, NodeKey(m.id), Registered(s.proxies, m, now));
    case Ping(id, _, now) => TouchKeepsExact(s, id, now);
    case ServiceEvent(id, now) => TouchKeepsExact(s, id, now);
    case Punch(id, source) =>
      var key := NodeKey(id);
      if key in s.proxies { TallySame(s.proxies, key, LearnPublicAddr(s, id, source).proxies[key]); }
    case Purge(now, cutoff) => TallySplit(s.proxies, now, cutoff);
  }

  lemma TouchKeepsExact(s: State, id: string, now: int)
    requires Exact(s)
    ensures Exact(Touch(s, id, now))
  {
    hide Tally, NodeKey;
    var key := NodeKey(id);
    if key in s.proxies { TallySame(s.proxies, key, s.proxies[key].(lastSeen := now)); }
  }

  /** In every reachable state the counters equal the counts of a scan, through new registrations,
      re-registrations that change role or mode, rejected ones, and purges of any size. */
  lemma {:induction false} CountersExact(protected: bool, events: seq<Event>)
    ensures Exact(Run(protected, events))
  {
    if events == [] {
      assert Tally(map[]) == START.counters;
    } else {
      CountersExact(protected, events[..|events| - 1]);
      StepKeepsExact(protected, Run(protected, events[..|events| - 1]), events[|events| - 1]);
    }
  }

  // ----- addresses -----

  /** A node's history since its entry was created: when and by which source that was, the role it last
      registered with, the last auth mode and address it gave, the source of its last accepted punch, the
      IP it last registered from, and its last sign of life. */
  datatype Track = Track(
    since: int, creator: string, role: string, authMode: string, registered: Option<string>,
    punched: Option<string>, controlIP: string, lastSign: int)

  /** The precedence rule. */
  function AddressOf(t: Track): string {
    if t.registered.Some? then t.registered.value
    else if t.punched.Some? then t.punched.value
    else t.creator
  }

  predicate PunchFits(controlIP: string, source: Endpoint) { controlIP == "" || controlIP == source.ip }

  predicate PunchAccepted(s: State, id: string, source: Endpoint) {
    NodeKey(id) in s.proxies && PunchFits(s.proxies[NodeKey(id)].controlIP, source)
  }

  function Signed(tracks: map<string, Track>, key: string, now: int): map<string, Track> {
    if key in tracks then tracks[key := tracks[key].(lastSign := now)] else tracks
  }

  /** One event's effect on the tracks. */
  function TrackStep(protected: bool, tracks: map<string, Track>, e: Event): map<string, Track> {
    match e
    case Register(m, now) =>
      var key := NodeKey(m.id);
      var given := if m.addr != "" then Some(m.addr) else None;
      if !Accepts(protected, m) then tracks
      else if key !in tracks then
        tracks[key := Track(now, m.source.text, m.role, m.authMode, given, None, m.source.ip, now)]
      else
        var t := tracks[key].(role := m.role, controlIP := m.source.ip, lastSign := now);
        var t' := if m.authMode != "" then t.(authMode := m.authMode) else t;
        tracks[key := if given.Some? then t'.(registered := given) else t']
    case Ping(id, ok, now) => if id == "" || !ok then tracks else Signed(tracks, NodeKey(id), now)
    case ServiceEvent(id, now) => if id == "" then tracks else Signed(tracks, NodeKey(id), now)
    case Punch(id, source) =>
      var key := NodeKey(id);
      if key in tracks && PunchFits(tracks[key].controlIP, source)
      then tracks[key := tracks[key].(punched := Some(source.text))] else tracks
    case Purge(now, cutoff) => map k | k in tracks && now - tracks[k].lastSign <= cutoff :: tracks[k]
  }

  /** The tracks of all nodes, from the history alone. */
  function Tracks(protected: bool, events: seq<Event>): map<string, Track> {
    if events == [] then map[]
    else TrackStep(protected, Tracks(protected, events[..|events| - 1]), events[|events| - 1])
  }

  predicate SourcePrinted(e: Event) { (e.Register? ==> Printed(e.m.source)) && (e.Punch? ==> Printed(e.source)) }

  /** Every entry is what its history says; its address follows the precedence rule. */
  predicate AddressesRuled(s: State, tracks: map<string, Track>) {
    s.proxies.Keys == tracks.Keys && forall k <- tracks.Keys :: Follows(s.proxies[k], tracks[k])
  }

  predicate Follows(e: Entry, t: Track) {
    e.addr == AddressOf(t) && e.addr != "" && e.manual == t.registered.Some? && e.udpAddr == t.punched &&
    e.controlIP == t.controlIP && e.lastSeen == t.lastSign && e.registeredAt == t.since &&
    e.role == t.role && e.authMode == t.authMode
  }

  /** For every run: a node's address is the last non-empty one it registered since its entry was
      created; failing that the source of its last accepted punch; failing that the control
      connection that created the entry.  Its role is the one of its last registration, its auth mode the
      last non-empty one. */
  lemma {:induction false} AddressRule(protected: bool, events: seq<Event>)
    requires forall e <- events :: SourcePrinted(e)
    ensures AddressesRuled(Run(protected, events), Tracks(protected, events))
  {
    if events != [] {
      var n := |events| - 1;
      assert events[n] in events && forall e <- events[..n] :: e in events;
      AddressRule(protected, events[..n]);
      AddressStep(protected, Run(protected, events[..n]), Tracks(protected, events[..n]), events[n]);
    }
  }

  lemma AddressStep(protected: bool, s: State, tracks: map<string, Track>, e: Event)
    requires AddressesRuled(s, tracks) && SourcePrinted(e)
    ensures AddressesRuled(Apply(protected, s, e), TrackStep(protected, tracks, e))
  {
    hide NodeKey, Tally, CountDelta;
    match e
    case Register(m, now) => RegisterAddress(protected, s, tracks, m, now);
    case Punch(id, source) => PunchAddress(protected, s, tracks, id, source);
    case Purge(now, cutoff) =>
      assert forall k <- tracks.Keys :: Follows(s.proxies[k], tracks[k]);
      assert Apply(protected, s, e).proxies.Keys == TrackStep(protected, tracks, e).Keys;
    case Ping(id, ok, now) =>
    case ServiceEvent(id, now) =>
  }

  lemma RegisterAddress(protected: bool, s: State, tracks: map<string, Track>, m: RegisterMsg, now: int)
    requires AddressesRuled(s, tracks) && Printed(m.source)
    ensures AddressesRuled(ApplyRegister(protected, s, m, now), TrackStep(protected, tracks, Register(m, now)))
  {
    hide NodeKey, CountDelta;
  }

  lemma PunchAddress(protected: bool, s: State, tracks: map<string, Track>, id: string, source: Endpoint)
    requires AddressesRuled(s, tracks) && Printed(source)
    ensures AddressesRuled(LearnPublicAddr(s, id, source), TrackStep(protected, tracks, Punch(id, source)))
  {
    hide NodeKey;
  }

  /** A punch creates no entry, refreshes no liveness, moves no counter, and reaches only the entry
      it names. */
  lemma PunchOnlyMovesAddress(s: State, id: string, source: Endpoint)
    ensures var s' := LearnPublicAddr(s, id, source);
      s'.counters == s.counters && s'.proxies.Keys == s.proxies.Keys &&
      forall k <- s.proxies.Keys ::
        s'.proxies[k].(addr := s.proxies[k].addr, udpAddr := s.proxies[k].udpAddr) == s.proxies[k] &&
        (s'.proxies[k] != s.proxies[k] ==> k == NodeKey(id) && PunchAccepted(s, id, source)) &&
        (s.proxies[k].manual ==> s'.proxies[k].addr == s.proxies[k].addr)
  {
  }

  /** A first registration makes an entry exactly when it is bound to its connection and, if it is a full
      sync, signed and, in protected mode, admitted. */
  lemma RegistersIff(protected: bool, m: RegisterMsg, now: int)
    ensures var s := ApplyRegister(protected, START, m, now);
      if m.id == m.connId && (!m.fullSync || (m.signatureOk && (!protected || m.admitted)))
      then s.proxies.Keys == {NodeKey(m.id)} else s == START
  {
    hide NodeKey, CountDelta;
  }

  // ----- liveness -----

  /** When node `key` last gave a sign of life, from the history alone: an accepted registration, or a
      signed ping or a service event of a node still known.  A purge forgets a node that was silent for
      longer than the cutoff. */
  function LastSign(protected: bool, events: seq<Event>, key: string): Option<int> {
    if events == [] then None
    else
      var before := LastSign(protected, events[..|events| - 1], key);
      match events[|events| - 1]
      case Register(m, now) => if Accepts(protected, m) && NodeKey(m.id) == key then Some(now) else before
      case Ping(id, ok, now) => if before.Some? && id != "" && ok && NodeKey(id) == key then Some(now) else before
      case ServiceEvent(id, now) => if before.Some? && id != "" && NodeKey(id) == key then Some(now) else before
      case Punch(_, _) => before
      case Purge(now, cutoff) => if before.Some? && now - before.value > cutoff then None else before
  }

  /** For every run: a node is registered exactly while its last sign of life is remembered, and its
      entry carries that time. */
  lemma {:induction false} LivenessRule(protected: bool, events: seq<Event>, key: string)
    ensures var proxies := Run(protected, events).proxies;
      LastSign(protected, events, key) == if key in proxies then Some(proxies[key].lastSeen) else None
  {
    hide NodeKey, Tally, CountDelta;
    if events != [] { LivenessRule(protected, events[..|events| - 1], key); }
  }

  /** A punch is learned exactly if the node is known and, where a control connection is known, comes from
      its IP; an address that the node registered itself stays. */
  lemma PunchLearned(s: State, id: string, source: Endpoint)
    requires NodeKey(id) in s.proxies
    ensures var p, q := s.proxies[NodeKey(id)], LearnPublicAddr(s, id, source).proxies[NodeKey(id)];
      if p.controlIP != "" && p.controlIP != source.ip then q == p
      else q.udpAddr == Some(source.text) && q.addr == if p.manual then p.addr else source.text
  {
    hide NodeKey;
  }

  // ----- the registry as the source runs it -----

  class Server {
    const protected: bool
    var proxies: Registry
    var cntStation: int
    var cntControl: int
    var cntPassenger: int
    var cntPublic: int

    ghost function Now(): State
      reads this
    {
      State(proxies, Counters(cntStation, cntControl, cntPassenger, cntPublic))
    }

    constructor (protected: bool)
      ensures this.protected == protected && Now() == START
    {
      this.protected, proxies := protected, map[];
      cntStation, cntControl, cntPassenger, cntPublic := 0, 0, 0, 0;
    }

    method Adjust(role: string, authMode: string, delta: int)
      modifies this`cntStation, this`cntControl, this`cntPassenger, this`cntPublic
      ensures Now().counters == CountDelta(old(Now()).counters, role, authMode, delta)
    {
      match RoleBucket(role) {
        case Station =>
          cntStation := cntStation + delta;
          if IsPublic(authMode) { cntPublic := cntPublic + delta; }
        case Control => cntControl := cntControl + delta;
        case Passenger => cntPassenger := cntPassenger + delta;
        case Unknown =>
      }
    }

    method RegisterFrame(m: RegisterMsg, now: int)
      modifies this
      ensures Now() == ApplyRegister(protected, old(Now()), m, now)
    {
      if m.id != m.connId { return; }
      if m.fullSync {
        if !m.signatureOk { return; }
        if protected && !m.admitted { return; }
      }
      var key := NodeKey(m.id);
      var isNew := key !in proxies;
      var p: Entry;
      var oldRole, oldAuth := "", "";
      if isNew {
        p := Entry("", "", "", "", false, None, "", 0, now);
      } else {
        p := proxies[key];
        oldRole, oldAuth := p.role, p.authMode;
      }
      p := p.(id := key, role := m.role);
      if m.addr != "" {
        p := p.(addr := m.addr, manual := true);
      } else if p.addr == "" {
        p := p.(addr := m.source.text);
      }
      p := p.(controlIP := m.source.ip, lastSeen := now);
      if m.authMode != "" { p := p.(authMode := m.authMode); }
      proxies := proxies[key := p];
      if !isNew { Adjust(oldRole, oldAuth, -1); }
      Adjust(p.role, p.authMode, 1);
    }

    method Refresh(id: string, now: int)
      modifies this`proxies
      ensures Now() == Touch(old(Now()), id, now)
    {
      var key := NodeKey(id);
      if key in proxies { proxies := proxies[key := proxies[key].(lastSeen := now)]; }
    }

    /** Returns whether the node must be asked to register again. */
    method PingFrame(id: string, signatureOk: bool, now: int) returns (needRegister: bool)
      modifies this`proxies
      ensures Now() == ApplyPing(old(Now()), id, signatureOk, now)
      ensures needRegister <==> id != "" && signatureOk && NodeKey(id) !in old(proxies)
    {
      if id == "" || !signatureOk { return false; }
      Refresh(id, now);
      return NodeKey(id) !in proxies;
    }

    method PunchPacket(id: string, source: Endpoint)
      modifies this`proxies
      ensures Now() == LearnPublicAddr(old(Now()), id, source)
    {
      var key := NodeKey(id);
      if key !in proxies { return; }
      var p := proxies[key];
      if p.controlIP != "" && p.controlIP != source.ip { return; }
      p := p.(udpAddr := Some(source.text));
      if !p.manual { p := p.(addr := source.text); }
      proxies := proxies[key := p];
    }

    method PurgeTick(now: int, cutoff: int)
      modifies this
      ensures Now() == ApplyPurge(old(Now()), now, cutoff)
    {
      hide Tally, CountDelta;
      ghost var was, counters := proxies, Now().counters;
      ghost var gone: Registry := map[];
      var todo := proxies.Keys;
      TallyEmpty();
      while todo != {}
        invariant todo <= was.Keys
        invariant proxies == map k | k in was && (k in todo || !Stale(was[k], now, cutoff)) :: was[k]
        invariant gone == map k | k in was && k !in todo && Stale(was[k], now, cutoff) :: was[k]
        invariant Now().counters == Minus(counters, Tally(gone))
        decreases todo
      {
        var id :| id in todo;
        var p := proxies[id];
        if now - p.lastSeen > cutoff {
          TallyUpdate(gone, id, p);
          MinusOne(counters, Tally(gone), p.role, p.authMode);
          Adjust(p.role, p.authMode, -1);
          proxies := proxies - {id};
          gone := gone[id := p];
        }
        todo := todo - {id};
      }
      assert gone == StaleOnes(was, now, cutoff) && proxies == Fresh(was, now, cutoff);
    }
  }

  lemma TallyEmpty()
    ensures Tally(map[]) == Counters(0, 0, 0, 0)
    ensures forall c :: Minus(c, Tally(map[])) == c
  {
  }

  lemma MinusOne(a: Counters, b: Counters, role: string, authMode: string)
    ensures CountDelta(Minus(a, b), role, authMode, -1) == Minus(a, CountDelta(b, role, authMode, 1))
  {
  }
}
