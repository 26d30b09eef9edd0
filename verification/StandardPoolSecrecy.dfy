/** The mutex pool and its buffers together: what a holder finds in the buffer it was handed, while
    everybody else goes on using the pool. */
module StandardPoolSecrecy {
  import opened Buffers
  import BufferRuns
  import opened StandardPool

  /** The holder of the `i`-th live buffer uses it or gives it up. */
  predicate Touches(e: Event, i: nat) {
    match e
    case Drop(j) => i == j
    case Leak(j) => i == j
    case DropNow(j) => i == j
    case Use(j, _) => i == j
    case _ => false
  }

  /** Where the `i`-th live buffer is in the list after an event that is not its holder's. */
  function Moved(e: Event, i: nat): nat
    requires !Touches(e, i)
  {
    match e
    case Drop(j) => if j < i then i - 1 else i
    case Leak(j) => if j < i then i - 1 else i
    case DropNow(j) => if j < i then i - 1 else i
    case _ => i
  }

  /** No event but the holder's own changes a live buffer or takes it away. */
  lemma OthersCannotTouch(w: World, e: Event, i: nat)
    requires Possible(w, e) && i < |w.live| && !Touches(e, i)
    ensures var w' := Next(w, e); Moved(e, i) < |w'.live| && w'.live[Moved(e, i)] == w.live[i]
  {}

  datatype Turn = Elsewhere(e: Event) | Mine(op: BufferRuns.Op)

  /** The turns can happen one after the other, while the holder keeps the `i`-th live buffer. */
  predicate Session(w: World, i: nat, turns: seq<Turn>)
    decreases |turns|
  {
    i < |w.live| && w.live[i].Valid() &&
    (turns == [] ||
     match turns[0]
     case Elsewhere(e) => Possible(w, e) && !Touches(e, i) && Session(Next(w, e), Moved(e, i), turns[1..])
     case Mine(op) => OwnStep(w, i, op) && Session(Next(w, Use(i, BufferRuns.Step(w.live[i], op).0)), i, turns[1..]))
  }

  /** An operation of the holder is one of the events of the pool. */
  predicate OwnStep(w: World, i: nat, op: BufferRuns.Op)
    requires i < |w.live| && w.live[i].Valid()
  {
    Possible(w, Use(i, BufferRuns.Step(w.live[i], op).0))
  }

  /** The holder's buffer at the end, and what its operations returned. */
  function Outcome(w: World, i: nat, turns: seq<Turn>): (Buf, seq<BufferRuns.Out>)
    requires Session(w, i, turns)
    decreases |turns|
  {
    if turns == [] then (w.live[i], [])
    else match turns[0]
      case Elsewhere(e) => Outcome(Next(w, e), Moved(e, i), turns[1..])
      case Mine(op) =>
        var (b, out) := BufferRuns.Step(w.live[i], op);
        var (last, outs) := Outcome(Next(w, Use(i, b)), i, turns[1..]);
        (last, [out] + outs)
  }

  function OwnOps(turns: seq<Turn>): seq<BufferRuns.Op> {
    if turns == [] then []
    else (if turns[0].Mine? then [turns[0].op] else []) + OwnOps(turns[1..])
  }

  /** However the turns interleave, the holder gets the answers that it would without anybody else. */
  lemma {:induction false} ExclusiveUse(w: World, i: nat, turns: seq<Turn>)
    requires Session(w, i, turns)
    ensures Outcome(w, i, turns) == BufferRuns.Run(w.live[i], OwnOps(turns))
    decreases |turns|
  {
    if turns != [] {
      match turns[0]
      case Elsewhere(e) =>
        OthersCannotTouch(w, e, i);
        ExclusiveUse(Next(w, e), Moved(e, i), turns[1..]);
        assert OwnOps(turns) == OwnOps(turns[1..]);
      case Mine(op) =>
        BufferRuns.StepValid(w.live[i], op);
        ExclusiveUse(Next(w, Use(i, BufferRuns.Step(w.live[i], op).0)), i, turns[1..]);
        BufferRuns.RunCons(w.live[i], op, OwnOps(turns[1..]));
    }
  }

  /** Over any run of the pool from the acquire on, the buffer handed out acts as a new one of its size;
      in particular an acquirer that has stored nothing sees only zeros. */
  lemma AcquiredActsAsNew(c: PoolConfigs.Config, es: seq<Event>, w: World, turns: seq<Turn>)
    requires Reaches(c, es, w) && Session(Next(w, Acquire), |w.live|, turns)
    ensures var got := AcquireFrom(w.pool).1; var ops := OwnOps(turns);
      var (last, outs) := Outcome(Next(w, Acquire), |w.live|, turns);
      && (last, outs) == BufferRuns.Run(New(|got.data|), ops)
      && ((forall i :: 0 <= i < |ops| ==> !BufferRuns.Stores(ops[i])) ==>
            |outs| == |ops| && forall i :: 0 <= i < |outs| ==> BufferRuns.Blank(outs[i]))
  {
    AcquiredIsClean(c, es, w);
    var got, ops := AcquireFrom(w.pool).1, OwnOps(turns);
    CleanIsNew(got);
    ExclusiveUse(Next(w, Acquire), |w.live|, turns);
    if forall i :: 0 <= i < |ops| ==> !BufferRuns.Stores(ops[i]) {
      BufferRuns.OnlyZerosVisible(got, ops);
    }
  }
}
