/** The client of the control plane under concurrency: callers of Connect, senders, readers, redials
    and Close interleave.  A step is one critical section, one atomic flag operation, or one network
    operation; the network decides whether it succeeds. */
module TunnelClient {
  import opened Text

  type Conn = nat
  type Tid = nat

  /** A frame on the wire, by the node id it carries ("" for none). */
  datatype Frame = Hello(id: string) | Data(id: string)

  /** What a dial was for: nothing more, or sending a message. */
  datatype Then = Stop | Resume(msg: string)

  /** Where a thread stands. */
  datatype Pc =
    | ConnectCheck(id: string)                    // is the client closed?
    | ConnectSection(id: string)                  // set the identity, look for a connection
    | DialFlag(k: Then)                           // compare-and-swap of the dialing flag
    | DialTake(k: Then)                           // close and clear the old connection, read the identity
    | DialNet(k: Then, id: string)                // open a connection
    | DialHello(k: Then, id: string, c: Conn)     // write hello on it
    | DialPublish(k: Then, c: Conn)               // make it the current connection
    | DialSpawn(k: Then, c: Conn)                 // start its reader
    | DialUnflag(k: Then, ok: bool)               // clear the dialing flag
    | DialReturn(k: Then, ok: bool)
    | SendLock(msg: string)                       // take the write lock
    | SendIdentity(msg: string)                   // adopt or check the identity
    | SendEnsure(msg: string)                     // look for a connection
    | SendReload(msg: string)                     // look again after a dial
    | SendWrite(msg: string, c: Conn)
    | SendDead(c: Conn)                           // the write failed: drop the connection if still current
    | SendUnlock
    | Reading(c: Conn)
    | ReadDead(c: Conn)                           // the read failed: drop the connection if still current
    | CloseFlag
    | CloseTake
    | CloseNet(c: Conn)                           // close the connection taken
    | Finished

  /** The client's fields, and the connections opened so far with the frames written on them, those ever
      published and those closed. */
  datatype Client = Client(
    helloID: string, conn: Option<Conn>, dialing: bool, closing: bool, lock: Option<Tid>,
    frames: map<Conn, seq<Frame>>, published: set<Conn>, closed: set<Conn>)

  datatype State = State(client: Client, pcs: map<Tid, Pc>)

  const START := State(Client("", None, false, false, None, map[], {}, {}), map[])

  /** What a step does: the client after it, and where its thread stands. */
  datatype Move = Move(client: Client, pc: Pc)

  /** `markConnDead`: clears the connection only if it is still the failed one. */
  function MarkDead(s: Client, dead: Conn): Client {
    if s.conn == Some(dead) then s.(conn := None, closed := s.closed + {dead}) else s
  }

  /** `Connect` up to its dial, the reader's loop, and `Close`. */
  function Around(s: Client, pc: Pc, ok: bool): Move {
    match pc
    case ConnectCheck(id) => Move(s, if s.closing then Finished else ConnectSection(id))
    case ConnectSection(id) =>
      if s.helloID != "" && s.helloID != id then Move(s, Finished)
      else Move(s.(helloID := id), if s.conn.Some? then Finished else DialFlag(Stop))
    case Reading(c) => Move(s, if ok then Reading(c) else ReadDead(c))
    case ReadDead(c) => Move(MarkDead(s, c), Finished)
    case CloseFlag => if s.closing then Move(s, Finished) else Move(s.(closing := true), CloseTake)
    case CloseTake => if s.conn.Some? then Move(s.(conn := None), CloseNet(s.conn.value)) else Move(s, Finished)
    case CloseNet(c) => Move(s.(closed := s.closed + {c}), Finished)
    case _ => Move(s, pc)
  }

  /** `dialAndHello`; `n` names the connection that a dial opens. */
  function Dial(s: Client, pc: Pc, ok: bool, n: nat): Move {
    match pc
    case DialFlag(k) =>
      if s.dialing then Move(s, DialReturn(k, true)) else Move(s.(dialing := true), DialTake(k))
    case DialTake(k) =>
      var cleared := if s.conn.Some? then s.(conn := None, closed := s.closed + {s.conn.value}) else s;
      Move(cleared, if s.helloID == "" then DialUnflag(k, false) else DialNet(k, s.helloID))
    case DialNet(k, id) =>
      if ok then Move(s.(frames := s.frames[n := []]), DialHello(k, id, n)) else Move(s, DialUnflag(k, false))
    case DialHello(k, id, c) =>
      if ok && c in s.frames then Move(s.(frames := s.frames[c := s.frames[c] + [Hello(id)]]), DialPublish(k, c))
      else Move(s.(closed := s.closed + {c}), DialUnflag(k, false))
    case DialPublish(k, c) => Move(s.(conn := Some(c), published := s.published + {c}), DialSpawn(k, c))
    case DialSpawn(k, c) => Move(s, DialUnflag(k, true))
    case DialUnflag(k, done) => Move(s.(dialing := false), DialReturn(k, done))
    case DialReturn(k, done) =>
      Move(s, if k.Stop? then Finished else if done then SendReload(k.msg) else SendUnlock)
    case _ => Move(s, pc)
  }

  /** `writeFrame` and `ensureConn` in thread `t`, apart from the dial. */
  function Send(s: Client, pc: Pc, t: Tid, ok: bool): Move {
    match pc
    case SendLock(m) => Move(s.(lock := Some(t)), SendIdentity(m))
    case SendIdentity(m) =>
      if s.helloID == "" && m != "" then Move(s.(helloID := m), SendEnsure(m))
      else if m != "" && s.helloID != m then Move(s, SendUnlock)
      else Move(s, SendEnsure(m))
    case SendEnsure(m) => Move(s, if s.conn.Some? then SendWrite(m, s.conn.value) else DialFlag(Resume(m)))
    case SendReload(m) => Move(s, if s.conn.Some? then SendWrite(m, s.conn.value) else SendUnlock)
    case SendWrite(m, c) =>
      if ok && c in s.frames && c !in s.closed
      then Move(s.(frames := s.frames[c := s.frames[c] + [Data(m)]]), SendUnlock) else Move(s, SendDead(c))
    case SendDead(c) => Move(MarkDead(s, c), SendUnlock)
    case SendUnlock => Move(s.(lock := None), Finished)
    case _ => Move(s, pc)
  }

  predicate OnSend(pc: Pc) {
    pc.SendLock? || pc.SendIdentity? || pc.SendEnsure? || pc.SendReload? || pc.SendWrite? || pc.SendDead? ||
    pc.SendUnlock?
  }

  function Moved(s: Client, pc: Pc, t: Tid, ok: bool, n: nat): Move {
    if OnDial(pc) then Dial(s, pc, ok, n) else if OnSend(pc) then Send(s, pc, t, ok) else Around(s, pc, ok)
  }

  /** A caller enters a method, or a thread takes its next step: `ok` is the network's verdict, and
      `n` names the connection or reader the step creates. */
  datatype Step = Invoke(t: Tid, pc: Pc) | Go(t: Tid, ok: bool, n: nat)

  predicate Entry(pc: Pc) { pc.ConnectCheck? || pc.SendLock? || pc.CloseFlag? }

  predicate MayMove(s: Client, pc: Pc, ok: bool, n: nat) {
    !pc.Finished? && (pc.SendLock? ==> s.lock.None?) && (pc.DialNet? && ok ==> n !in s.frames)
  }

  predicate Enabled(s: State, step: Step) {
    match step
    case Invoke(t, pc) => t !in s.pcs && Entry(pc)
    case Go(t, ok, n) =>
      t in s.pcs && MayMove(s.client, s.pcs[t], ok, n) && (s.pcs[t].DialSpawn? ==> n !in s.pcs)
  }

  function Next(s: State, step: Step): State
    requires Enabled(s, step)
  {
    match step
    case Invoke(t, pc) => s.(pcs := s.pcs[t := pc])
    case Go(t, ok, n) =>
      var pc := s.pcs[t];
      var m := Moved(s.client, pc, t, ok, n);
      State(m.client, if pc.DialSpawn? then s.pcs[n := Reading(pc.c)][t := m.pc] else s.pcs[t := m.pc])
  }

  predicate Feasible(steps: seq<Step>)
    decreases |steps|, 0
  {
    steps == [] || (Feasible(steps[..|steps| - 1]) && Enabled(Run(steps[..|steps| - 1]), steps[|steps| - 1]))
  }

  function Run(steps: seq<Step>): State
    requires Feasible(steps)
    decreases |steps|, 1
  {
    if steps == [] then START else Next(Run(steps[..|steps| - 1]), steps[|steps| - 1])
  }

  // ----- who owns what -----

  /** Between setting and clearing the dialing flag. */
  predicate Dials(pc: Pc) {
    pc.DialTake? || pc.DialNet? || pc.DialHello? || pc.DialPublish? || pc.DialSpawn? || pc.DialUnflag?
  }

  predicate OnDial(pc: Pc) { Dials(pc) || pc.DialFlag? || pc.DialReturn? }

  /** Holds the write lock. */
  predicate Holds(pc: Pc) {
    pc.SendIdentity? || pc.SendEnsure? || pc.SendReload? || pc.SendWrite? || pc.SendDead? || pc.SendUnlock? ||
    (OnDial(pc) && pc.k.Resume?)
  }

  /** At most one thread dials, and only under the flag; at most one holds the write lock. */
  predicate Exclusive(s: State) {
    (forall t <- s.pcs.Keys :: Dials(s.pcs[t]) ==> s.client.dialing) &&
    (forall t, u :: t in s.pcs && u in s.pcs && Dials(s.pcs[t]) && Dials(s.pcs[u]) ==> t == u) &&
    (forall t <- s.pcs.Keys :: Holds(s.pcs[t]) ==> s.client.lock == Some(t))
  }

  // ----- what a thread relies on -----

  /** A message that may go out: it carries the client's identity or none. */
  predicate Fits(s: Client, m: string) { m == "" || m == s.helloID }

  predicate ThreadOk(s: Client, pc: Pc) {
    (OnDial(pc) && pc.k.Resume? ==> Fits(s, pc.k.msg)) &&
    match pc
    case DialNet(_, id) => id == s.helloID && id != "" && s.conn.None?
    case DialHello(_, id, c) =>
      id == s.helloID && id != "" && s.conn.None? && c in s.frames && s.frames[c] == [] && c !in s.published
    case DialPublish(_, c) =>
      s.helloID != "" && s.conn.None? && c in s.frames && s.frames[c] == [Hello(s.helloID)] && c !in s.published
    case SendEnsure(m) => Fits(s, m)
    case SendReload(m) => Fits(s, m)
    case SendWrite(m, c) => Fits(s, m) && c in s.published
    case SendDead(c) => c in s.published
    case CloseNet(c) => c in s.published
    case _ => true
  }

  // ----- what the connections carry -----

  /** Hello first, with the client's identity; every later frame carries that identity or none. */
  predicate FramesOk(id: string, fs: seq<Frame>) {
    fs != [] ==>
      id != "" && fs[0] == Hello(id) &&
      forall i :: 0 < i < |fs| ==> fs[i] == Data("") || fs[i] == Data(id)
  }

  predicate ConnsOk(s: Client) {
    (forall c <- s.frames.Keys :: FramesOk(s.helloID, s.frames[c])) &&
    (forall c <- s.published :: c in s.frames && s.frames[c] != []) &&
    (s.conn.Some? ==> s.conn.value in s.published)
  }

  // ----- what becomes of the connections -----

  /** Some thread is setting this connection up or about to close it. */
  ghost predicate InHand(s: State, c: Conn) {
    exists t :: t in s.pcs && Handles(s.pcs[t], c)
  }

  predicate Handles(pc: Pc, c: Conn) {
    (pc.DialHello? && pc.c == c) || (pc.DialPublish? && pc.c == c) || (pc.CloseNet? && pc.c == c)
  }

  ghost predicate Accounted(s: State) {
    forall c <- s.client.frames.Keys :: s.client.conn == Some(c) || c in s.client.closed || InHand(s, c)
  }

  ghost predicate Inv(s: State) {
    Exclusive(s) && ConnsOk(s.client) && Accounted(s) && forall t <- s.pcs.Keys :: ThreadOk(s.client, s.pcs[t])
  }

  // ----- one move -----

  /** The dialing flag is set only when clear, and cleared only by the thread that dials. */
  predicate FlagHonest(s: Client, pc: Pc, m: Move) {
    (m.client.dialing != s.dialing ==> Dials(pc) || !s.dialing) &&
    (Dials(m.pc) ==> m.client.dialing && (Dials(pc) || !s.dialing))
  }

  /** The write lock is taken only when free, and released only by its holder. */
  predicate LockHonest(s: Client, pc: Pc, m: Move, t: Tid) {
    (m.client.lock != s.lock ==> s.lock.None? || Holds(pc)) &&
    (Holds(m.pc) ==> m.client.lock == Some(t))
  }

  /** What every thread relies on. */
  predicate Grows(s: Client, s': Client) {
    (s.helloID != "" ==> s'.helloID == s.helloID) && s.published <= s'.published && s.closed <= s'.closed
  }

  /** What a dialing thread relies on: nobody else publishes, or touches what is not published. */
  predicate Spares(s: Client, s': Client) {
    s'.published == s.published && (s.conn.None? ==> s'.conn.None?) &&
    forall c <- s.frames.Keys :: c !in s.published ==> c in s'.frames && s'.frames[c] == s.frames[c]
  }

  lemma MoveFlag(s: Client, pc: Pc, t: Tid, ok: bool, n: nat)
    requires Dials(pc) ==> s.dialing
    ensures FlagHonest(s, pc, Moved(s, pc, t, ok, n))
  {
  }

  lemma DialLock(s: Client, pc: Pc, t: Tid, ok: bool, n: nat)
    requires OnDial(pc) && (Holds(pc) ==> s.lock == Some(t))
    ensures LockHonest(s, pc, Dial(s, pc, ok, n), t)
  {
  }

  lemma MoveLock(s: Client, pc: Pc, t: Tid, ok: bool, n: nat)
    requires MayMove(s, pc, ok, n) && (Holds(pc) ==> s.lock == Some(t))
    ensures LockHonest(s, pc, Moved(s, pc, t, ok, n), t)
  {
    if OnDial(pc) { DialLock(s, pc, t, ok, n); }
    hide Dial;
  }

  lemma MoveGrows(s: Client, pc: Pc, t: Tid, ok: bool, n: nat)
    ensures Grows(s, Moved(s, pc, t, ok, n).client)
  {
  }

  lemma MoveSpares(s: Client, pc: Pc, t: Tid, ok: bool, n: nat)
    requires ThreadOk(s, pc) && !Dials(pc)
    ensures Spares(s, Moved(s, pc, t, ok, n).client)
  {
  }

  lemma DialOk(s: Client, pc: Pc, ok: bool, n: nat)
    requires OnDial(pc) && ThreadOk(s, pc) && ConnsOk(s) && MayMove(s, pc, ok, n)
    ensures var m := Dial(s, pc, ok, n); ThreadOk(m.client, m.pc)
  {
    hide FramesOk;
  }

  lemma MoveOk(s: Client, pc: Pc, t: Tid, ok: bool, n: nat)
    requires ThreadOk(s, pc) && ConnsOk(s) && MayMove(s, pc, ok, n)
    ensures var m := Moved(s, pc, t, ok, n); ThreadOk(m.client, m.pc)
  {
    if OnDial(pc) { DialOk(s, pc, ok, n); }
    hide FramesOk, Dial;
  }

  lemma DialConns(s: Client, pc: Pc, ok: bool, n: nat)
    requires ThreadOk(s, pc) && ConnsOk(s) && MayMove(s, pc, ok, n)
    ensures ConnsOk(Dial(s, pc, ok, n).client)
  {
    var s' := Dial(s, pc, ok, n).client;
    forall c | c in s'.frames.Keys ensures FramesOk(s'.helloID, s'.frames[c]) {
      if c in s.frames { assert FramesOk(s.helloID, s.frames[c]); }
    }
  }

  lemma SendConns(s: Client, pc: Pc, t: Tid, ok: bool)
    requires ThreadOk(s, pc) && ConnsOk(s)
    ensures ConnsOk(Send(s, pc, t, ok).client)
  {
    var s' := Send(s, pc, t, ok).client;
    forall c | c in s'.frames.Keys ensures FramesOk(s'.helloID, s'.frames[c]) {
      assert FramesOk(s.helloID, s.frames[c]);
    }
  }

  lemma MoveConns(s: Client, pc: Pc, t: Tid, ok: bool, n: nat)
    requires ThreadOk(s, pc) && ConnsOk(s) && MayMove(s, pc, ok, n)
    ensures ConnsOk(Moved(s, pc, t, ok, n).client)
  {
    DialConns(s, pc, ok, n);
    SendConns(s, pc, t, ok);
    hide Dial, Send;
  }

  /** Somebody answers for the connection after the move. */
  predicate HandedOn(m: Move, c: Conn) {
    m.client.conn == Some(c) || c in m.client.closed || Handles(m.pc, c)
  }

  lemma DialHands(s: Client, pc: Pc, ok: bool, n: nat, c: Conn)
    requires ThreadOk(s, pc) && c in Dial(s, pc, ok, n).client.frames
    requires c !in s.frames || s.conn == Some(c) || Handles(pc, c)
    requires OnDial(pc)
    ensures HandedOn(Dial(s, pc, ok, n), c)
  {
  }

  /** A connection is opened in the hands of its dialer, and handed on only to be current or closed. */
  lemma MoveHands(s: Client, pc: Pc, t: Tid, ok: bool, n: nat, c: Conn)
    requires ThreadOk(s, pc) && c in Moved(s, pc, t, ok, n).client.frames
    requires c !in s.frames || s.conn == Some(c) || Handles(pc, c)
    ensures HandedOn(Moved(s, pc, t, ok, n), c)
  {
    if OnDial(pc) { DialHands(s, pc, ok, n, c); }
    hide ThreadOk, Dial;
  }

  lemma OthersKeep(s: Client, s': Client, pc: Pc)
    requires ThreadOk(s, pc) && Grows(s, s') && (Dials(pc) ==> Spares(s, s'))
    ensures ThreadOk(s', pc)
  {
  }

  // ----- preservation -----

  lemma StepExclusive(s: State, step: Step)
    requires Exclusive(s) && Enabled(s, step)
    ensures Exclusive(Next(s, step))
  {
    if step.Go? {
      MoveFlag(s.client, s.pcs[step.t], step.t, step.ok, step.n);
      MoveLock(s.client, s.pcs[step.t], step.t, step.ok, step.n);
    }
    assert forall c :: !Dials(Reading(c)) && !Holds(Reading(c));
    assert forall pc :: Entry(pc) ==> !Dials(pc) && !Holds(pc);
    hide Moved, Dials, Holds, Entry, MayMove;
  }

  lemma StepThread(s: State, step: Step, t: Tid)
    requires Inv(s) && Enabled(s, step) && t in Next(s, step).pcs
    ensures ThreadOk(Next(s, step).client, Next(s, step).pcs[t])
  {
    if step.Go? {
      var pc := s.pcs[step.t];
      assert ThreadOk(s.client, pc);
      MoveOk(s.client, pc, step.t, step.ok, step.n);
      MoveGrows(s.client, pc, step.t, step.ok, step.n);
      if t in s.pcs && t != step.t {
        assert ThreadOk(s.client, s.pcs[t]);
        if Dials(s.pcs[t]) { MoveSpares(s.client, pc, step.t, step.ok, step.n); }
        OthersKeep(s.client, Next(s, step).client, s.pcs[t]);
      }
    }
    hide Moved, Accounted, FramesOk, ConnsOk;
  }

  lemma StepConns(s: State, step: Step)
    requires Inv(s) && Enabled(s, step)
    ensures ConnsOk(Next(s, step).client)
  {
    if step.Go? {
      assert ThreadOk(s.client, s.pcs[step.t]);
      MoveConns(s.client, s.pcs[step.t], step.t, step.ok, step.n);
    }
    hide Moved, Accounted, FramesOk, ThreadOk;
  }

  lemma StepAccounted(s: State, step: Step)
    requires Inv(s) && Enabled(s, step)
    ensures Accounted(Next(s, step))
  {
    hide Moved, FramesOk, Exclusive, ConnsOk, ThreadOk;
    var s' := Next(s, step);
    forall c | c in s'.client.frames.Keys
      ensures s'.client.conn == Some(c) || c in s'.client.closed || InHand(s', c)
    {
      if step.Go? {
        var pc := s.pcs[step.t];
        assert ThreadOk(s.client, pc);
        MoveGrows(s.client, pc, step.t, step.ok, step.n);
        if c !in s.client.frames || s.client.conn == Some(c) || Handles(pc, c) {
          MoveHands(s.client, pc, step.t, step.ok, step.n, c);
          assert Handles(s'.pcs[step.t], c) ==> InHand(s', c);
        } else if c !in s.client.closed {
          var t :| t in s.pcs && Handles(s.pcs[t], c);
          assert t in s'.pcs && Handles(s'.pcs[t], c);
        }
      } else if s.client.conn != Some(c) && c !in s.client.closed {
        var t :| t in s.pcs && Handles(s.pcs[t], c);
        assert t in s'.pcs && Handles(s'.pcs[t], c);
      }
    }
  }

  lemma {:induction false} InvHolds(steps: seq<Step>)
    requires Feasible(steps)
    ensures Inv(Run(steps))
  {
    if steps != [] {
      var n := |steps| - 1;
      var s, step := Run(steps[..n]), steps[n];
      InvHolds(steps[..n]);
      hide Next;
      StepExclusive(s, step);
      StepConns(s, step);
      StepAccounted(s, step);
      forall t | t in Next(s, step).pcs.Keys ensures ThreadOk(Next(s, step).client, Next(s, step).pcs[t]) {
        StepThread(s, step, t);
      }
    }
  }

  // ----- theorems -----

  /** In every interleaving each connection starts with hello, all hellos carry one node id, and every
      later frame carries that id or none. */
  lemma OneIdentityPerClient(steps: seq<Step>, c: Conn)
    requires Feasible(steps) && c in Run(steps).client.frames
    ensures var s := Run(steps); var fs := s.client.frames[c];
      (fs != [] ==> s.client.helloID != "" && fs[0] == Hello(s.client.helloID)) &&
      forall i :: 0 < i < |fs| ==> fs[i] == Data("") || fs[i] == Data(s.client.helloID)
  {
    InvHolds(steps);
    assert FramesOk(Run(steps).client.helloID, Run(steps).client.frames[c]);
  }

  /** The identity of an earlier moment is the identity ever after. */
  lemma {:induction false} IdentityNeverChanges(steps: seq<Step>, more: seq<Step>)
    requires Feasible(steps + more)
    ensures Feasible(steps)
    ensures Run(steps).client.helloID != "" ==> Run(steps + more).client.helloID == Run(steps).client.helloID
    decreases more
  {
    if more == [] {
      assert steps + more == steps;
    } else {
      var n := |more| - 1;
      assert (steps + more)[..|steps + more| - 1] == steps + more[..n];
      IdentityNeverChanges(steps, more[..n]);
      var s, step := Run(steps + more[..n]), more[n];
      if step.Go? { MoveGrows(s.client, s.pcs[step.t], step.t, step.ok, step.n); }
      hide Moved;
    }
  }

  /** A failure noticed on one connection never clears or closes another. */
  lemma OldFailureSparesNewer(s: State, step: Step, dead: Conn)
    requires Enabled(s, step) && step.Go? && (s.pcs[step.t] == SendDead(dead) || s.pcs[step.t] == ReadDead(dead))
    ensures s.client.conn != Some(dead) ==>
      Next(s, step).client.conn == s.client.conn && Next(s, step).client.closed == s.client.closed
    ensures s.client.conn == Some(dead) ==> Next(s, step).client.conn == None && dead in Next(s, step).client.closed
  {
  }

  /** The next step of the thread takes the connection away if it is the current one. */
  predicate Drops(pc: Pc, c: Conn) {
    pc == SendDead(c) || pc == ReadDead(c) || pc.DialTake? || pc.CloseTake?
  }

  lemma MoveDrops(s: Client, pc: Pc, t: Tid, ok: bool, n: nat, c: Conn)
    requires ThreadOk(s, pc) && s.conn == Some(c)
    ensures Moved(s, pc, t, ok, n).client.conn != Some(c) <==> Drops(pc, c)
  {
  }

  /** In every interleaving the current connection stops being current exactly when a failure was noticed
      on it, a redial puts it aside, or the client closes: no failure of another connection, and no
      finished dial, takes it away. */
  lemma CurrentDroppedIff(steps: seq<Step>, step: Step, c: Conn)
    requires Feasible(steps) && Enabled(Run(steps), step) && Run(steps).client.conn == Some(c)
    ensures Next(Run(steps), step).client.conn != Some(c) <==> step.Go? && Drops(Run(steps).pcs[step.t], c)
  {
    InvHolds(steps);
    var s := Run(steps);
    hide Moved, Drops, Exclusive, ConnsOk, Accounted;
    if step.Go? {
      assert ThreadOk(s.client, s.pcs[step.t]);
      MoveDrops(s.client, s.pcs[step.t], step.t, step.ok, step.n, c);
    }
  }

  /** Every connection ever published is the current one, closed, or about to be closed. */
  lemma PublishedIsCurrentOrClosed(steps: seq<Step>, c: Conn)
    requires Feasible(steps) && c in Run(steps).client.published
    ensures var s := Run(steps);
      s.client.conn == Some(c) || c in s.client.closed || exists t :: t in s.pcs && s.pcs[t] == CloseNet(c)
  {
    InvHolds(steps);
    var s := Run(steps);
    if s.client.conn != Some(c) && c !in s.client.closed {
      assert InHand(s, c);
      var t :| t in s.pcs && Handles(s.pcs[t], c);
      assert ThreadOk(s.client, s.pcs[t]);
    }
  }

  /** No connection is lost: one that was opened is current, closed, being set up or being closed. */
  lemma NoConnectionLeaks(steps: seq<Step>, c: Conn)
    requires Feasible(steps) && c in Run(steps).client.frames
    ensures var s := Run(steps); s.client.conn == Some(c) || c in s.client.closed || InHand(s, c)
  {
    InvHolds(steps);
  }

  // ----- what is sent -----

  /** The message that the thread is to send. */
  function Carried(pc: Pc): Option<string> {
    match pc
    case SendLock(m) => Some(m)
    case SendIdentity(m) => Some(m)
    case SendEnsure(m) => Some(m)
    case SendReload(m) => Some(m)
    case SendWrite(m, _) => Some(m)
    case _ => if OnDial(pc) && pc.k.Resume? then Some(pc.k.msg) else None
  }

  /** A thread keeps its message until it has sent it or given up. */
  lemma MoveCarries(s: Client, pc: Pc, t: Tid, ok: bool, n: nat)
    ensures var m := Moved(s, pc, t, ok, n); Carried(m.pc).None? || Carried(m.pc) == Carried(pc)
  {
  }

  /** A successful write puts exactly the message on exactly that connection; a hello, the identity; no
      other step writes anything. */
  lemma WritesOnly(s: Client, pc: Pc, t: Tid, ok: bool, n: nat, c: Conn)
    requires MayMove(s, pc, ok, n) && c in s.frames
    ensures var s' := Moved(s, pc, t, ok, n).client;
      c in s'.frames &&
      s'.frames[c] ==
        if pc.SendWrite? && pc.c == c && ok && c !in s.closed then s.frames[c] + [Data(pc.msg)]
        else if pc.DialHello? && pc.c == c && ok then s.frames[c] + [Hello(pc.id)]
        else s.frames[c]
  {
  }

  /** A new connection carries nothing. */
  lemma OpensEmpty(s: Client, pc: Pc, t: Tid, ok: bool, n: nat, c: Conn)
    requires c !in s.frames && c in Moved(s, pc, t, ok, n).client.frames
    ensures Moved(s, pc, t, ok, n).client.frames[c] == []
  {
  }

  /** Some caller asked for the message to be sent. */
  ghost predicate Requested(steps: seq<Step>, m: string) { exists t: Tid :: Invoke(t, SendLock(m)) in steps }

  ghost predicate AllRequested(steps: seq<Step>, s: State) {
    (forall t <- s.pcs.Keys :: Carried(s.pcs[t]).Some? ==> Requested(steps, Carried(s.pcs[t]).value)) &&
    forall c <- s.client.frames.Keys :: FramesRequested(steps, s.client.frames[c])
  }

  ghost predicate FramesRequested(steps: seq<Step>, fs: seq<Frame>) {
    forall i :: 0 <= i < |fs| && fs[i].Data? ==> Requested(steps, fs[i].id)
  }

  lemma RequestedMore(steps: seq<Step>, step: Step, m: string)
    requires Requested(steps, m)
    ensures Requested(steps + [step], m)
  {
    var t: Tid :| Invoke(t, SendLock(m)) in steps;
    assert Invoke(t, SendLock(m)) in steps + [step];
  }

  lemma FramesMore(steps: seq<Step>, step: Step, fs: seq<Frame>, more: seq<Frame>)
    requires FramesRequested(steps, fs) && FramesRequested(steps, more)
    ensures FramesRequested(steps + [step], fs + more)
  {
    hide Requested;
    var all := fs + more;
    forall i | 0 <= i < |all| && all[i].Data? ensures Requested(steps + [step], all[i].id) {
      if i < |fs| { assert all[i] == fs[i]; } else { assert all[i] == more[i - |fs|]; }
      RequestedMore(steps, step, all[i].id);
    }
  }

  lemma StepRequested(steps: seq<Step>, s: State, step: Step)
    requires AllRequested(steps, s) && Enabled(s, step)
    ensures AllRequested(steps + [step], Next(s, step))
  {
    var s' := Next(s, step);
    ThreadsRequested(steps, s, step);
    hide Requested, FramesRequested, Carried, Moved;
    forall c | c in s'.client.frames.Keys ensures FramesRequested(steps + [step], s'.client.frames[c]) {
      ConnRequested(steps, s, step, c);
    }
  }

  lemma ThreadsRequested(steps: seq<Step>, s: State, step: Step)
    requires AllRequested(steps, s) && Enabled(s, step)
    ensures var s' := Next(s, step);
      forall t <- s'.pcs.Keys :: Carried(s'.pcs[t]).Some? ==> Requested(steps + [step], Carried(s'.pcs[t]).value)
  {
    var s' := Next(s, step);
    if step.Go? { MoveCarries(s.client, s.pcs[step.t], step.t, step.ok, step.n); }
    hide Moved, FramesRequested;
    forall t | t in s'.pcs.Keys && Carried(s'.pcs[t]).Some?
      ensures Requested(steps + [step], Carried(s'.pcs[t]).value)
    {
      if t in s.pcs && Carried(s.pcs[t]) == Carried(s'.pcs[t]) {
        RequestedMore(steps, step, Carried(s.pcs[t]).value);
      } else {
        assert step == Invoke(t, SendLock(Carried(s'.pcs[t]).value));
        assert step in steps + [step];
      }
    }
  }

  lemma ConnRequested(steps: seq<Step>, s: State, step: Step, c: Conn)
    requires AllRequested(steps, s) && Enabled(s, step) && c in Next(s, step).client.frames
    ensures FramesRequested(steps + [step], Next(s, step).client.frames[c])
  {
    var old_ := if c in s.client.frames then s.client.frames[c] else [];
    assert FramesRequested(steps, old_);
    assert old_ + [] == old_;
    if step.Invoke? {
      FramesMore(steps, step, old_, []);
    } else {
      var pc := s.pcs[step.t];
      if c in s.client.frames {
        WritesOnly(s.client, pc, step.t, step.ok, step.n, c);
      } else {
        OpensEmpty(s.client, pc, step.t, step.ok, step.n, c);
      }
      var writes := pc.SendWrite? && pc.c == c && step.ok && c !in s.client.closed;
      var more := if writes then [Data(pc.msg)]
                  else if pc.DialHello? && pc.c == c && step.ok then [Hello(pc.id)] else [];
      assert FramesRequested(steps, more) by { if writes { assert Carried(pc) == Some(pc.msg); } }
      hide Moved, FramesRequested, Requested, Carried;
      if c in s.client.frames {
        FramesMore(steps, step, old_, more);
      } else {
        FramesMore(steps, step, old_, []);
      }
    }
  }

  /** In every interleaving, every frame behind a hello is a message that some caller asked to send. */
  lemma {:induction false} NothingInvented(steps: seq<Step>)
    requires Feasible(steps)
    ensures AllRequested(steps, Run(steps))
  {
    hide Next;
    if steps != [] {
      var n := |steps| - 1;
      NothingInvented(steps[..n]);
      StepRequested(steps[..n], Run(steps[..n]), steps[n]);
      assert steps == steps[..n] + [steps[n]];
    }
  }

  /** A caller that finds the client closed does nothing; one with another identity neither connects nor
      sends; one with the identity of a connected client has nothing to do. */
  lemma Refusals(s: Client, t: Tid, ok: bool, n: nat, id: string, m: string)
    ensures s.closing ==> Moved(s, ConnectCheck(id), t, ok, n) == Move(s, Finished)
    ensures s.helloID != "" && s.helloID != id ==> Moved(s, ConnectSection(id), t, ok, n) == Move(s, Finished)
    ensures s.helloID == id && s.conn.Some? ==> Moved(s, ConnectSection(id), t, ok, n) == Move(s, Finished)
    ensures m != "" && s.helloID != "" && s.helloID != m ==> Moved(s, SendIdentity(m), t, ok, n) == Move(s, SendUnlock)
    ensures s.dialing ==> Moved(s, DialFlag(Stop), t, ok, n) == Move(s, DialReturn(Stop, true))
    ensures s.closing ==> Moved(s, CloseFlag, t, ok, n) == Move(s, Finished)
  {
  }

  /** A thread on its own, the network willing: `k` steps from here. */
  function Alone(s: Client, pc: Pc, t: Tid, n: nat, k: nat): Move
    decreases k
  {
    if k == 0 then Move(s, pc)
    else
      var m := Moved(s, pc, t, true, n);
      Alone(m.client, m.pc, t, n, k - 1)
  }

  lemma AloneTwo(s: Client, pc: Pc, t: Tid, n: nat, k: nat, l: nat)
    ensures Alone(s, pc, t, n, k + l) == (var m := Alone(s, pc, t, n, k); Alone(m.client, m.pc, t, n, l))
    decreases k
  {
    if k > 0 {
      var m := Moved(s, pc, t, true, n);
      AloneTwo(m.client, m.pc, t, n, k - 1, l);
    }
  }

  /** A dial on its own opens a connection, says hello with the identity, publishes it and frees the flag. */
  lemma DialAlone(s: Client, k: Then, t: Tid, n: nat)
    requires !s.dialing && s.conn.None? && s.helloID != "" && n !in s.frames
    ensures Alone(s, DialFlag(k), t, n, 7)
         == Move(s.(conn := Some(n), frames := s.frames[n := [Hello(s.helloID)]], published := s.published + {n}),
                 DialReturn(k, true))
  {
    var s1 := s.(dialing := true);
    var s2 := s1.(frames := s.frames[n := []]);
    var s3 := s2.(frames := s.frames[n := [Hello(s.helloID)]]);
    var s4 := s3.(conn := Some(n), published := s.published + {n});
    assert [] + [Hello(s.helloID)] == [Hello(s.helloID)];
    assert s2.frames[n := [Hello(s.helloID)]] == s3.frames;
    assert Moved(s, DialFlag(k), t, true, n) == Move(s1, DialTake(k));
    assert Moved(s1, DialTake(k), t, true, n) == Move(s1, DialNet(k, s.helloID));
    assert Moved(s1, DialNet(k, s.helloID), t, true, n) == Move(s2, DialHello(k, s.helloID, n));
    assert Moved(s2, DialHello(k, s.helloID, n), t, true, n) == Move(s3, DialPublish(k, n));
    assert Moved(s3, DialPublish(k, n), t, true, n) == Move(s4, DialSpawn(k, n));
    assert Moved(s4, DialSpawn(k, n), t, true, n) == Move(s4, DialUnflag(k, true));
    assert Moved(s4, DialUnflag(k, true), t, true, n) == Move(s4.(dialing := false), DialReturn(k, true));
    hide Moved;
    assert Alone(s4, DialUnflag(k, true), t, n, 1) == Move(s4.(dialing := false), DialReturn(k, true));
    assert Alone(s3, DialPublish(k, n), t, n, 3) == Alone(s4, DialUnflag(k, true), t, n, 1);
    assert Alone(s1, DialNet(k, s.helloID), t, n, 5) == Alone(s3, DialPublish(k, n), t, n, 3);
  }

  /** `Connect` on its own leaves a fresh client connected under the identity. */
  lemma ConnectAlone(id: string, t: Tid, n: nat)
    requires id != ""
    ensures Alone(START.client, ConnectCheck(id), t, n, 10)
         == Move(Client(id, Some(n), false, false, None, map[n := [Hello(id)]], {n}, {}), Finished)
  {
    var s := START.client.(helloID := id);
    assert Moved(START.client, ConnectCheck(id), t, true, n) == Move(START.client, ConnectSection(id));
    assert Moved(START.client, ConnectSection(id), t, true, n) == Move(s, DialFlag(Stop));
    var done := Client(id, Some(n), false, false, None, map[n := [Hello(id)]], {n}, {});
    assert map[][n := [Hello(id)]] == map[n := [Hello(id)]] && {} + {n} == {n};
    DialAlone(s, Stop, t, n);
    AloneTwo(s, DialFlag(Stop), t, n, 7, 1);
    assert Moved(done, DialReturn(Stop, true), t, true, n) == Move(done, Finished);
    hide Moved;
    assert Alone(done, DialReturn(Stop, true), t, n, 1) == Move(done, Finished);
  }

  lemma SendBegins(m: string, t: Tid, n: nat)
    requires m != ""
    ensures Alone(START.client, SendLock(m), t, n, 3)
         == Move(START.client.(lock := Some(t), helloID := m), DialFlag(Resume(m)))
  {
    var s0 := START.client.(lock := Some(t));
    var s := s0.(helloID := m);
    assert Moved(START.client, SendLock(m), t, true, n) == Move(s0, SendIdentity(m));
    assert Moved(s0, SendIdentity(m), t, true, n) == Move(s, SendEnsure(m));
    assert Moved(s, SendEnsure(m), t, true, n) == Move(s, DialFlag(Resume(m)));
    hide Moved;
    assert Alone(s0, SendIdentity(m), t, n, 2) == Move(s, DialFlag(Resume(m)));
  }

  lemma SendEnds(s: Client, m: string, t: Tid, n: nat)
    requires s.conn == Some(n) && n in s.frames && n !in s.closed
    ensures Alone(s, DialReturn(Resume(m), true), t, n, 4)
         == Move(s.(frames := s.frames[n := s.frames[n] + [Data(m)]], lock := None), Finished)
  {
    var sent := s.(frames := s.frames[n := s.frames[n] + [Data(m)]]);
    assert Moved(s, DialReturn(Resume(m), true), t, true, n) == Move(s, SendReload(m));
    assert Moved(s, SendReload(m), t, true, n) == Move(s, SendWrite(m, n));
    assert Moved(s, SendWrite(m, n), t, true, n) == Move(sent, SendUnlock);
    assert Moved(sent, SendUnlock, t, true, n) == Move(sent.(lock := None), Finished);
    hide Moved;
    assert Alone(s, SendWrite(m, n), t, n, 2) == Move(sent.(lock := None), Finished);
  }

  /** A send on its own, on a fresh client, adopts the message's identity, dials, says hello and delivers
      the message. */
  lemma SendAlone(m: string, t: Tid, n: nat)
    requires m != ""
    ensures Alone(START.client, SendLock(m), t, n, 14)
         == Move(Client(m, Some(n), false, false, None, map[n := [Hello(m), Data(m)]], {n}, {}), Finished)
  {
    hide Moved, Alone;
    var s := START.client.(lock := Some(t), helloID := m);
    var done := Client(m, Some(n), false, false, Some(t), map[n := [Hello(m)]], {n}, {});
    SendBegins(m, t, n);
    DialAlone(s, Resume(m), t, n);
    assert s.frames[n := [Hello(m)]] == map[n := [Hello(m)]] && s.published + {n} == {n};
    SendEnds(done, m, t, n);
    assert [Hello(m)] + [Data(m)] == [Hello(m), Data(m)];
    assert done.frames[n := [Hello(m), Data(m)]] == map[n := [Hello(m), Data(m)]];
    AloneTwo(s, DialFlag(Resume(m)), t, n, 7, 4);
    AloneTwo(START.client, SendLock(m), t, n, 3, 11);
  }

  /** The connection that the thread's next step writes on. */
  predicate WritesOn(pc: Pc, c: Conn) { (pc.DialHello? || pc.SendWrite?) && pc.c == c }

  /** Two threads never dial at once, never send at once, and never write on one connection at once; a
      dial's hello may go out while a sender writes on an older connection. */
  lemma DialsAndWritesAreExclusive(steps: seq<Step>, t: Tid, u: Tid, c: Conn)
    requires Feasible(steps) && t in Run(steps).pcs && u in Run(steps).pcs && t != u
    ensures var s := Run(steps);
      !(Dials(s.pcs[t]) && Dials(s.pcs[u])) && !(s.pcs[t].SendWrite? && s.pcs[u].SendWrite?) &&
      !(WritesOn(s.pcs[t], c) && WritesOn(s.pcs[u], c))
  {
    InvHolds(steps);
    var s := Run(steps);
    hide Run, ConnsOk, Accounted;
    assert Holds(s.pcs[t]) && Holds(s.pcs[u]) ==> Some(t) == Some(u);
    assert ThreadOk(s.client, s.pcs[t]) && ThreadOk(s.client, s.pcs[u]);
  }
}
