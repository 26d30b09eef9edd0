/** The pool and its buffers together: a holder has its buffer to itself for as long as it holds it,
    and what it finds in there is what a new buffer would hold. */
module FastPoolSecrecy {
  import opened Buffers
  import BufferRuns
  import opened FastPool
  import opened FastPoolOwnership
  import opened Sums

  // ---- what an event of somebody else cannot do ----

  /** The holder of buffer `b` uses it or gives it up. */
  predicate Touches(s: State, e: Event, b: nat) {
    e.Start? && match e.call
    case DropHandle(h) => h < |s.handles| && s.handles[h].buf == b
    case Leak(h) => h < |s.handles| && s.handles[h].buf == b
    case DropNow(h) => h < |s.handles| && s.handles[h].buf == b
    case Use(h, _) => h < |s.handles| && s.handles[h].buf == b
    case _ => false
  }

  /** Accesses store only into a cached buffer that `clear_thread_cache` has taken out, or a new one. */
  lemma AccessStores(pool: Pool, th: Thread, store: seq<Buf>, b: nat)
    requires Busy(th, store) && b < |store|
    ensures var x := Access(pool, th, store);
      b < |x.store| && (x.store[b] == store[b] || (th.pc.FlushLen? && th.pc.buf == b))
  {}

  /** No access of any thread stores into a buffer that a holder has, or had leaked to it. */
  lemma GoKeepsBytes(s: State, t: nat, b: nat)
    requires Orderly(s) && Enabled(s, Go(t)) && Held(s, b) && b < |s.store|
    ensures var s' := Advance(s, t); b < |s'.store| && s'.store[b] == s.store[b]
  {
    var th := s.threads[t];
    AccessStores(s.pools[th.pc.pool], th, s.store, b);
    if th.pc.FlushLen? && th.pc.buf == b {
      ThreadCounts(s, t, b);
      QueuesNonNegative(s.pools, b);
      IdleIsClean(s, b);
      assert false;
    }
  }

  lemma InWithout(hs: seq<Handle>, h: nat, hd: Handle)
    requires h < |hs| && hd in hs && hs[h] != hd
    ensures hd in Without(hs, h)
  {
    var i :| 0 <= i < |hs| && hs[i] == hd;
    assert Without(hs, h)[if i < h then i else i - 1] == hd;
  }

  lemma StartKeepsHeld(s: State, t: nat, call: Call, hd: Handle)
    requires Enabled(s, Start(t, call)) && !Touches(s, Start(t, call), hd.buf)
    requires hd in s.handles && hd.buf < |s.store|
    ensures var s' := Begin(s, t, call);
      hd in s'.handles && hd.buf < |s'.store| && s'.store[hd.buf] == s.store[hd.buf]
  {
    match call
    case DropHandle(h) => InWithout(s.handles, h, hd);
    case Leak(h) => InWithout(s.handles, h, hd);
    case DropNow(h) => InWithout(s.handles, h, hd);
    case _ =>
  }

  /** A buffer with a live handle has no other, and was not leaked: the places of a buffer add up to one. */
  lemma OnlyHandle(s: State, hd: Handle)
    requires Orderly(s) && hd in s.handles
    ensures hd.buf < |s.store| && Sum(s.handles, Holds(hd.buf)) == 1 && !HeldIn(s.leaked, hd.buf)
  {
    var b := hd.buf;
    var i :| 0 <= i < |s.handles| && s.handles[i] == hd;
    SumsNonNegative(s, b);
    SumMember(s.handles, i);
    assert Places(s, b) == One(b < |s.store|);
    if HeldIn(s.leaked, b) {
      var j :| 0 <= j < |s.leaked| && s.leaked[j].buf == b;
      SumMember(s.leaked, j);
    }
  }

  /** Exclusive ownership: no event but the holder's own use or release changes a held buffer, takes the
      handle away, or gives anyone else a handle on it - not `clear_thread_cache` burning, nor drops and
      writes elsewhere. */
  lemma OthersCannotTouch(s: State, e: Event, hd: Handle)
    requires Orderly(s) && Enabled(s, e) && !Touches(s, e, hd.buf) && hd in s.handles
    ensures var s' := Apply(s, e);
      && hd in s'.handles && Sum(s'.handles, Holds(hd.buf)) == 1 && !HeldIn(s'.leaked, hd.buf)
      && hd.buf < |s.store| && hd.buf < |s'.store| && s'.store[hd.buf] == s.store[hd.buf]
  {
    OnlyHandle(s, hd);
    match e {
      case NewPool(_) =>
      case Start(t, call) => StartKeepsHeld(s, t, call, hd);
      case Go(t) =>
        assert HeldIn(s.handles, hd.buf);
        GoKeepsBytes(s, t, hd.buf);
    }
    OrderlyKept(s, e);
    OnlyHandle(Apply(s, e), hd);
  }

  /** A buffer handed out by `leak` is out of reach of every event of the pool. */
  lemma LeakedStaysUntouched(s: State, e: Event, hd: Handle)
    requires Orderly(s) && Enabled(s, e) && hd in s.leaked
    ensures var s' := Apply(s, e);
      hd in s'.leaked && hd.buf < |s.store| && hd.buf < |s'.store| && s'.store[hd.buf] == s.store[hd.buf]
  {
    var i :| 0 <= i < |s.leaked| && s.leaked[i] == hd;
    assert HeldIn(s.leaked, hd.buf);
    LeakedExists(s, hd.buf);
    match e
    case NewPool(_) =>
    case Start(t, call) =>
      if call.DropHandle? || call.DropNow? || call.Use? {
        assert s.handles[call.h] in s.handles;
        OnlyHandle(s, s.handles[call.h]);
      }
    case Go(t) => GoKeepsBytes(s, t, hd.buf);
  }

  lemma LeakedExists(s: State, b: nat)
    requires Orderly(s) && HeldIn(s.leaked, b)
    ensures b < |s.store|
  {
    var i :| 0 <= i < |s.leaked| && s.leaked[i].buf == b;
    SumsNonNegative(s, b);
    SumMember(s.leaked, i);
    assert Places(s, b) == One(b < |s.store|);
  }

  // ---- a holder among all the others ----

  /** One turn in the life of a held buffer: an event of anybody that is not its holder's, or an
      operation of the holder, which may call from any thread. */
  datatype Turn = Elsewhere(e: Event) | Mine(t: nat, h: nat, op: BufferRuns.Op)

  /** The event by which the holder's operation changes the state. */
  function OwnEvent(b: Buf, t: nat, h: nat, op: BufferRuns.Op): Event
    requires b.Valid()
  {
    Start(t, Use(h, BufferRuns.Step(b, op).0))
  }

  /** The turns can happen one after the other while the holder keeps buffer `b`. */
  ghost predicate Session(s: State, b: nat, turns: seq<Turn>)
    decreases |turns|
  {
    turns == [] ||
    match turns[0]
    case Elsewhere(e) => Enabled(s, e) && !Touches(s, e, b) && Session(Apply(s, e), b, turns[1..])
    case Mine(t, h, op) =>
      && h < |s.handles| && s.handles[h].buf == b && b < |s.store| && s.store[b].Valid()
      && Enabled(s, OwnEvent(s.store[b], t, h, op))
      && Session(Apply(s, OwnEvent(s.store[b], t, h, op)), b, turns[1..])
  }

  /** What the holder's operations return, and the state at the end. */
  ghost function Outcome(s: State, b: nat, turns: seq<Turn>): (State, seq<BufferRuns.Out>)
    requires Session(s, b, turns)
    decreases |turns|
  {
    if turns == [] then (s, [])
    else match turns[0]
      case Elsewhere(e) => Outcome(Apply(s, e), b, turns[1..])
      case Mine(t, h, op) =>
        var rest := Outcome(Apply(s, OwnEvent(s.store[b], t, h, op)), b, turns[1..]);
        (rest.0, [BufferRuns.Step(s.store[b], op).1] + rest.1)
  }

  function OwnOps(turns: seq<Turn>): seq<BufferRuns.Op> {
    if turns == [] then []
    else (if turns[0].Mine? then [turns[0].op] else []) + OwnOps(turns[1..])
  }

  lemma OwnTurn(s: State, b: nat, t: nat, h: nat, op: BufferRuns.Op)
    requires Orderly(s) && h < |s.handles| && s.handles[h].buf == b && b < |s.store| && s.store[b].Valid()
    requires Enabled(s, OwnEvent(s.store[b], t, h, op))
    ensures var s' := Apply(s, OwnEvent(s.store[b], t, h, op));
      && Orderly(s') && s'.handles == s.handles && b < |s'.store|
      && s'.store[b] == BufferRuns.Step(s.store[b], op).0 && s'.store[b].Valid()
  {
    OrderlyKept(s, OwnEvent(s.store[b], t, h, op));
    BufferRuns.StepValid(s.store[b], op);
  }

  /** However the turns interleave, the holder keeps its handle, gets the answers, and leaves the buffer,
      that it would without anybody else. */
  lemma {:induction false} ExclusiveUse(s: State, hd: Handle, turns: seq<Turn>)
    requires Orderly(s) && hd in s.handles && hd.buf < |s.store| && s.store[hd.buf].Valid()
    requires Session(s, hd.buf, turns)
    ensures var (s', outs) := Outcome(s, hd.buf, turns);
      && hd in s'.handles && hd.buf < |s'.store|
      && BufferRuns.Run(s.store[hd.buf], OwnOps(turns)) == (s'.store[hd.buf], outs)
    decreases |turns|
  {
    if turns != [] {
      match turns[0]
      case Elsewhere(e) =>
        OthersCannotTouch(s, e, hd);
        OrderlyKept(s, e);
        ExclusiveUse(Apply(s, e), hd, turns[1..]);
        assert OwnOps(turns) == OwnOps(turns[1..]);
      case Mine(t, h, op) =>
        OwnTurn(s, hd.buf, t, h, op);
        ExclusiveUse(Apply(s, OwnEvent(s.store[hd.buf], t, h, op)), hd, turns[1..]);
        BufferRuns.RunCons(s.store[hd.buf], op, OwnOps(turns[1..]));
    }
  }

  /** Whatever earlier holders on any thread and of any pool wrote, and whatever all other threads do
      meanwhile: to the thread that an `acquire` hands a buffer to, it acts as a new one of its size. */
  lemma AcquiredActsAsNew(threadCount: nat, es: seq<Event>, s: State, t: nat, turns: seq<Turn>)
    requires Reaches(threadCount, es, s) && Enabled(s, Go(t)) && |Advance(s, t).handles| > |s.handles|
    requires var s' := Advance(s, t); Session(s', s'.handles[|s.handles|].buf, turns)
    ensures var s' := Advance(s, t); var b := s'.handles[|s.handles|].buf;
      var (s'', outs) := Outcome(s', b, turns);
      && b < |s'.store| && b < |s''.store|
      && BufferRuns.Run(New(|s'.store[b].data|), OwnOps(turns)) == (s''.store[b], outs)
  {
    AcquiredIsClean(threadCount, es, s, t);
    ReachedOrderly(threadCount, es, s);
    OrderlyKept(s, Go(t));
    var s' := Advance(s, t);
    var b := s'.handles[|s.handles|].buf;
    CleanIsNew(s'.store[b]);
    ExclusiveUse(s', s'.handles[|s.handles|], turns);
  }

  /** In particular it sees only zeros until it stores something itself. */
  lemma AcquirerSeesOnlyZeros(threadCount: nat, es: seq<Event>, s: State, t: nat, turns: seq<Turn>)
    requires Reaches(threadCount, es, s) && Enabled(s, Go(t)) && |Advance(s, t).handles| > |s.handles|
    requires var s' := Advance(s, t); Session(s', s'.handles[|s.handles|].buf, turns)
    requires forall i :: 0 <= i < |OwnOps(turns)| ==> !BufferRuns.Stores(OwnOps(turns)[i])
    ensures var s' := Advance(s, t); var b := s'.handles[|s.handles|].buf;
      var outs := Outcome(s', b, turns).1;
      |outs| == |OwnOps(turns)| && forall i :: 0 <= i < |outs| ==> BufferRuns.Blank(outs[i])
  {
    AcquiredActsAsNew(threadCount, es, s, t, turns);
    var s' := Advance(s, t);
    BufferRuns.OnlyZerosVisible(New(|s'.store[s'.handles[|s.handles|].buf].data|), OwnOps(turns));
  }
}
