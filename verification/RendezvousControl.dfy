/** The control-connection table: handlers of many connections interleave, each hello swaps its
    connection in and closes the one it replaced, each handler removes its own entry when it leaves. */
module RendezvousControl {
  import opened Text
  import Registry = RendezvousRegistry

  type Conn = nat

  /** Where a connection's handler stands.  The two deferred calls run last first: the table entry is
      removed before the connection is closed. */
  datatype Phase =
    | Greeting                // accepted, no hello yet
    | Replacing(prev: Conn)   // in the table; the connection it replaced is still to be closed
    | Serving                 // in the frame loop
    | Leaving                 // out of the loop; its table entry is still to be removed
    | Closing                 // its own connection is still to be closed
    | Ended

  /** `ids` holds the node each connection said hello for. */
  datatype State = State(
    table: map<string, Conn>, phase: map<Conn, Phase>, ids: map<Conn, string>, closed: set<Conn>)

  /** One atomic step of some handler. */
  datatype Step =
    | Accept(c: Conn)
    | Hello(c: Conn, id: string)  // the first frame is a hello with an id: swap it into the table
    | Refuse(c: Conn)             // the first frame is unreadable or no proper hello
    | ClosePrevious(c: Conn)
    | Leave(c: Conn)              // the ack or a later read failed
    | CleanUp(c: Conn)            // compare-and-delete
    | CloseOwn(c: Conn)

  const START := State(map[], map[], map[], {})

  predicate At(s: State, c: Conn, p: Phase) { c in s.phase && s.phase[c] == p }

  /** The step can be taken next. */
  predicate Enabled(s: State, step: Step) {
    match step
    case Accept(c) => c !in s.phase
    case Hello(c, id) => At(s, c, Greeting) && id != ""
    case Refuse(c) => At(s, c, Greeting)
    case ClosePrevious(c) => c in s.phase && s.phase[c].Replacing?
    case Leave(c) => At(s, c, Serving)
    case CleanUp(c) => At(s, c, Leaving)
    case CloseOwn(c) => At(s, c, Closing)
  }

  function KeyOf(s: State, c: Conn): string
    requires c in s.ids
  {
    Registry.NodeKey(s.ids[c])
  }

  function Next(s: State, step: Step): State
    requires Enabled(s, step)
  {
    match step
    case Accept(c) => s.(phase := s.phase[c := Greeting])
    case Hello(c, id) =>
      var key := Registry.NodeKey(id);
      s.(table := s.table[key := c], ids := s.ids[c := id],
         phase := s.phase[c := if key in s.table then Replacing(s.table[key]) else Serving])
    case Refuse(c) => s.(phase := s.phase[c := Closing])
    case ClosePrevious(c) => s.(closed := s.closed + {s.phase[c].prev}, phase := s.phase[c := Serving])
    case Leave(c) => s.(phase := s.phase[c := Leaving])
    case CleanUp(c) =>
      if c !in s.ids then s.(phase := s.phase[c := Closing])
      else
        var key := KeyOf(s, c);
        s.(table := if key in s.table && s.table[key] == c then s.table - {key} else s.table,
           phase := s.phase[c := Closing])
    case CloseOwn(c) => s.(closed := s.closed + {c}, phase := s.phase[c := Ended])
  }

  /** The steps can be taken one after the other from the start. */
  predicate Feasible(steps: seq<Step>)
    decreases |steps|, 0
  {
    steps == [] || (Feasible(steps[..|steps| - 1]) && Enabled(Run(steps[..|steps| - 1]), steps[|steps| - 1]))
  }

  function Run(steps: seq<Step>): State
    requires Feasible(steps)
    decreases |steps|, 1
  {
    if steps == [] then START else Next(Run(steps[..|steps| - 1]), steps[|steps| - 1])
  }

  /** `PushToNode`: the connection a push to `id` goes to. */
  function PushTarget(s: State, id: string): Option<Conn> {
    if Registry.NodeKey(id) in s.table then Some(s.table[Registry.NodeKey(id)]) else None
  }

  // ----- the specification, from the history alone -----

  /** The connection that made the latest hello for `key`. */
  function LatestHello(steps: seq<Step>, key: string): Option<Conn> {
    if steps == [] then None
    else
      var last := steps[|steps| - 1];
      if last.Hello? && Registry.NodeKey(last.id) == key then Some(last.c) else LatestHello(steps[..|steps| - 1], key)
  }

  predicate CleanedUp(steps: seq<Step>, c: Conn) { CleanUp(c) in steps }

  // ----- invariant -----

  predicate Registered(p: Phase) { p.Replacing? || p.Serving? || p.Leaving? }

  /** The phase of a connection tells whether it has said hello, cleaned up and closed. */
  predicate PhaseFits(steps: seq<Step>, s: State, c: Conn) {
    c in s.phase &&
    (Registered(s.phase[c]) ==> c in s.ids && !CleanedUp(steps, c)) &&
    (s.phase[c].Greeting? ==> c !in s.ids && !CleanedUp(steps, c)) &&
    (c in s.ids && (s.phase[c].Closing? || s.phase[c].Ended?) ==> CleanedUp(steps, c)) &&
    (s.phase[c].Ended? ==> c in s.closed)
  }

  /** The connection is closed, or some handler is about to close it. */
  ghost predicate ClosedOrPending(s: State, c: Conn) {
    c in s.closed || At(s, c, Closing) || exists d :: At(s, d, Replacing(c))
  }

  ghost predicate Inv(steps: seq<Step>, s: State) {
    (forall c <- s.phase.Keys :: PhaseFits(steps, s, c)) &&
    (forall c <- s.ids.Keys :: c in s.phase) &&
    (forall c :: CleanedUp(steps, c) ==> c in s.phase && (s.phase[c].Closing? || s.phase[c].Ended?)) &&
    (forall key <- s.table.Keys :: TableFits(steps, s, key)) &&
    (forall c <- s.ids.Keys :: LatestFits(steps, s, c))
  }

  /** A table entry is the latest hello, made by a connection that has not cleaned up. */
  predicate TableFits(steps: seq<Step>, s: State, key: string)
    requires key in s.table
  {
    var c := s.table[key];
    LatestHello(steps, key) == Some(c) && c in s.ids && c in s.phase && KeyOf(s, c) == key && Registered(s.phase[c])
  }

  /** The latest hello of a key is in the table until it cleans up; an earlier one is being closed. */
  ghost predicate LatestFits(steps: seq<Step>, s: State, c: Conn)
    requires c in s.ids
  {
    var key := KeyOf(s, c);
    LatestHello(steps, key).Some? &&
    (LatestHello(steps, key) == Some(c) && c in s.phase && Registered(s.phase[c]) ==>
      key in s.table && s.table[key] == c) &&
    (LatestHello(steps, key) != Some(c) ==> ClosedOrPending(s, c) || At(s, c, Closing) || At(s, c, Ended))
  }

  lemma LatestHelloSnoc(steps: seq<Step>, step: Step, key: string)
    ensures LatestHello(steps + [step], key)
         == if step.Hello? && Registry.NodeKey(step.id) == key then Some(step.c) else LatestHello(steps, key)
  {
    assert (steps + [step])[..|steps|] == steps;
  }

  lemma CleanedUpSnoc(steps: seq<Step>, step: Step, c: Conn)
    ensures CleanedUp(steps + [step], c) <==> CleanedUp(steps, c) || step == CleanUp(c)
  {
  }

  lemma StepPhases(steps: seq<Step>, s: State, step: Step)
    requires Inv(steps, s) && Enabled(s, step)
    ensures var t, more := Next(s, step), steps + [step];
      (forall c <- t.phase.Keys :: PhaseFits(more, t, c)) &&
      (forall c <- t.ids.Keys :: c in t.phase) &&
      (forall c :: CleanedUp(more, c) ==> c in t.phase && (t.phase[c].Closing? || t.phase[c].Ended?))
  {
    hide LatestHello, LatestFits, TableFits;
    var t, more := Next(s, step), steps + [step];
    forall c | c in t.phase.Keys ensures PhaseFits(more, t, c) {
      CleanedUpSnoc(steps, step, c);
      if c in s.phase { assert PhaseFits(steps, s, c); }
    }
    forall c | CleanedUp(more, c) ensures c in t.phase && (t.phase[c].Closing? || t.phase[c].Ended?) {
      CleanedUpSnoc(steps, step, c);
    }
  }

  lemma StepTable(steps: seq<Step>, s: State, step: Step)
    requires Inv(steps, s) && Enabled(s, step)
    ensures var t, more := Next(s, step), steps + [step];
      forall key <- t.table.Keys :: TableFits(more, t, key)
  {
    hide LatestFits, LatestHello, Registry.NodeKey;
    var t, more := Next(s, step), steps + [step];
    forall key | key in t.table.Keys ensures TableFits(more, t, key) {
      LatestHelloSnoc(steps, step, key);
      if key in s.table {
        assert TableFits(steps, s, key);
        assert PhaseFits(steps, s, s.table[key]);
      }
    }
  }

  lemma StepLatest(steps: seq<Step>, s: State, step: Step, c: Conn)
    requires Inv(steps, s) && Enabled(s, step) && c in Next(s, step).ids
    ensures LatestFits(steps + [step], Next(s, step), c)
  {
    hide LatestHello, Registry.NodeKey, TableFits;
    var t, more := Next(s, step), steps + [step];
    LatestHelloSnoc(steps, step, KeyOf(t, c));
    if c in s.ids {
      assert LatestFits(steps, s, c) && PhaseFits(steps, s, c);
      StepKeepsPending(steps, s, step, c);
      if step.Hello? && Registry.NodeKey(step.id) == KeyOf(s, c) {
        assert c != step.c by { assert PhaseFits(steps, s, step.c); }
        if LatestHello(steps, KeyOf(s, c)) == Some(c) && Registered(s.phase[c]) {
          assert At(t, step.c, Replacing(c));
        }
      }
    }
  }

  lemma StepKeepsPending(steps: seq<Step>, s: State, step: Step, c: Conn)
    requires Inv(steps, s) && Enabled(s, step)
    ensures ClosedOrPending(s, c) ==> ClosedOrPending(Next(s, step), c)
    ensures At(s, c, Ended) ==> At(Next(s, step), c, Ended)
  {
    hide LatestFits, LatestHello, TableFits;
    var t := Next(s, step);
    if exists d :: At(s, d, Replacing(c)) {
      var d :| At(s, d, Replacing(c));
      assert step == ClosePrevious(d) || At(t, d, Replacing(c));
    }
  }

  lemma {:induction false} InvHolds(steps: seq<Step>)
    requires Feasible(steps)
    ensures Inv(steps, Run(steps))
  {
    if steps != [] {
      var n := |steps| - 1;
      var init, step := steps[..n], steps[n];
      InvHolds(init);
      assert steps == init + [step];
      StepPhases(init, Run(init), step);
      StepTable(init, Run(init), step);
      forall c | c in Run(steps).ids.Keys ensures LatestFits(steps, Run(steps), c) {
        StepLatest(init, Run(init), step, c);
      }
    }
  }

  // ----- theorems -----

  lemma {:induction false} LatestHelloSaidHello(steps: seq<Step>, key: string)
    requires Feasible(steps) && LatestHello(steps, key).Some?
    ensures var c := LatestHello(steps, key).value;
      c in Run(steps).ids && KeyOf(Run(steps), c) == key
  {
    var n := |steps| - 1;
    var init, step := steps[..n], steps[n];
    assert steps == init + [step];
    LatestHelloSnoc(init, step, key);
    if !(step.Hello? && Registry.NodeKey(step.id) == key) {
      LatestHelloSaidHello(init, key);
      InvHolds(init);
      assert step.Hello? ==> PhaseFits(init, Run(init), step.c);
    }
  }

  /** In every interleaving the table maps a key to a connection exactly when that connection made the
      latest hello for the key and has not run its own cleanup. */
  lemma TableIsLatestHello(steps: seq<Step>, key: string, c: Conn)
    requires Feasible(steps)
    ensures (key in Run(steps).table && Run(steps).table[key] == c)
       <==> LatestHello(steps, key) == Some(c) && !CleanedUp(steps, c)
  {
    InvHolds(steps);
    var s := Run(steps);
    if key in s.table && s.table[key] == c {
      assert TableFits(steps, s, key) && PhaseFits(steps, s, c);
    }
    if LatestHello(steps, key) == Some(c) && !CleanedUp(steps, c) {
      LatestHelloSaidHello(steps, key);
      assert PhaseFits(steps, s, c) && LatestFits(steps, s, c);
    }
  }

  /** A push reaches the connection of the latest hello, unless that one has cleaned up. */
  lemma PushReachesLatest(steps: seq<Step>, id: string)
    requires Feasible(steps)
    ensures PushTarget(Run(steps), id)
         == match LatestHello(steps, Registry.NodeKey(id))
            case None => None
            case Some(c) => if CleanedUp(steps, c) then None else Some(c)
  {
    var key := Registry.NodeKey(id);
    var latest, target := LatestHello(steps, key), PushTarget(Run(steps), id);
    if latest.Some? { TableIsLatestHello(steps, key, latest.value); }
    if target.Some? { TableIsLatestHello(steps, key, target.value); }
  }

  /** The cleanup of a superseded connection removes nothing. */
  lemma SupersededCleanupIsHarmless(steps: seq<Step>, c: Conn)
    requires Feasible(steps) && Enabled(Run(steps), CleanUp(c))
    requires c in Run(steps).ids && LatestHello(steps, KeyOf(Run(steps), c)) != Some(c)
    ensures Next(Run(steps), CleanUp(c)).table == Run(steps).table
  {
    TableIsLatestHello(steps, KeyOf(Run(steps), c), c);
  }

  /** A superseded connection is closed, or some handler still has to close it. */
  lemma SupersededIsClosed(steps: seq<Step>, c: Conn)
    requires Feasible(steps) && c in Run(steps).ids
    requires LatestHello(steps, KeyOf(Run(steps), c)) != Some(c)
    ensures ClosedOrPending(Run(steps), c)
  {
    InvHolds(steps);
    assert LatestFits(steps, Run(steps), c) && PhaseFits(steps, Run(steps), c);
  }

  // ----- the table as the handlers use it -----

  /** `conns` is the shared map; `steps` the handlers' steps so far, of which only hello and cleanup touch
      the map. */
  class ConnTable {
    var conns: map<string, Conn>
    ghost var steps: seq<Step>

    ghost predicate Valid()
      reads this
    {
      Feasible(steps) && conns == Run(steps).table
    }

    constructor ()
      ensures Valid() && steps == []
    {
      conns, steps := map[], [];
    }

    /** A hello takes the key over; the handler has to close the connection that it replaced. */
    method Swap(id: string, c: Conn) returns (prev: Option<Conn>)
      requires Valid() && Enabled(Run(steps), Hello(c, id))
      modifies this
      ensures Valid() && steps == old(steps) + [Hello(c, id)]
      ensures Run(steps).phase[c] == if prev.Some? then Replacing(prev.value) else Serving
    {
      StepTaken(steps, Hello(c, id));
      var key := Registry.NodeKey(id);
      prev := if key in conns then Some(conns[key]) else None;
      conns := conns[key := c];
      steps := steps + [Hello(c, id)];
    }

    /** A handler that leaves removes its entry only if it is still its own. */
    method CompareAndDelete(id: string, c: Conn)
      requires Valid() && Enabled(Run(steps), CleanUp(c)) && c in Run(steps).ids && id == Run(steps).ids[c]
      modifies this
      ensures Valid() && steps == old(steps) + [CleanUp(c)]
    {
      StepTaken(steps, CleanUp(c));
      var key := Registry.NodeKey(id);
      if key in conns && conns[key] == c { conns := conns - {key}; }
      steps := steps + [CleanUp(c)];
    }

    /** The steps that leave the table alone. */
    ghost method Note(step: Step)
      requires Valid() && Enabled(Run(steps), step)
      requires !step.Hello? && (step.CleanUp? ==> step.c !in Run(steps).ids)
      modifies this`steps
      ensures Valid() && steps == old(steps) + [step]
    {
      StepTaken(steps, step);
      steps := steps + [step];
    }

    /** The lookup of a push: the connection of the latest hello, unless it has cleaned up. */
    method Load(id: string) returns (target: Option<Conn>)
      requires Valid()
      ensures target == match LatestHello(steps, Registry.NodeKey(id))
                        case None => None
                        case Some(c) => if CleanedUp(steps, c) then None else Some(c)
    {
      PushReachesLatest(steps, id);
      var key := Registry.NodeKey(id);
      return if key in conns then Some(conns[key]) else None;
    }
  }

  lemma StepTaken(steps: seq<Step>, step: Step)
    requires Feasible(steps) && Enabled(Run(steps), step)
    ensures Feasible(steps + [step]) && Run(steps + [step]) == Next(Run(steps), step)
  {
    assert (steps + [step])[..|steps|] == steps;
  }
}
