/** The mutex pool: every critical section is one step on the guarded state, whatever the threads. */
module StandardPool {
  import opened Bytes
  import opened Buffers
  import opened PoolConfigs
  import opened Runs
  import opened Sums

  /** What the mutex guards. */
  datatype Inner = Inner(buffers: seq<Buf>, config: Config, allocations: nat, acquired: nat, returned: nat)

  function NewInner(c: Config): Inner {
    Inner(seq(c.minPool, _ => New(c.bufferSize)), c, 0, 0, 0)
  }

  /** `acquire`: the last idle buffer, or a fresh one. */
  function AcquireFrom(p: Inner): (Inner, Buf) {
    if p.buffers == [] then
      (p.(allocations := p.allocations + 1, acquired := p.acquired + 1), New(p.config.bufferSize))
    else
      var last := |p.buffers| - 1;
      (p.(buffers := p.buffers[..last], acquired := p.acquired + 1), p.buffers[last])
  }

  /** The drop of a handle: burned, counted, and kept if there is room. */
  function ReturnTo(p: Inner, b: Buf): Inner {
    p.(returned := p.returned + 1,
       buffers := if |p.buffers| < p.config.maxPool then p.buffers + [b.Burn()] else p.buffers)
  }

  function Shrunk(p: Inner): Inner {
    p.(buffers := p.buffers[..Min(p.config.minPool, |p.buffers|)])
  }

  function Cleared(p: Inner): Inner {
    p.(buffers := [])
  }

  function Grown(p: Inner, target: nat): Inner {
    var goal := Min(target, p.config.maxPool);
    p.(buffers := p.buffers + seq(if |p.buffers| < goal then goal - |p.buffers| else 0, _ => New(p.config.bufferSize)))
  }

  /** `in_use()`, with the saturating subtraction. */
  function InUse(p: Inner): nat {
    if p.acquired >= p.returned then p.acquired - p.returned else 0
  }

  // ---- runs ----

  /** By how much `a` exceeds `b`. */
  function Excess(a: nat, b: nat): nat {
    if a > b then a - b else 0
  }

  /** The pool, the buffers behind live handles, and history that no code keeps: acquires served by an idle
      buffer, buffers added by `grow`, drops made while there was room, and buffers cut off by `shrink`
      or `clear`. */
  datatype World = World(pool: Inner, live: seq<Buf>, leaked: nat, droppedNow: nat,
                         hits: nat, grown: nat, kept: nat, discarded: nat)

  datatype Event =
    | Acquire
    | Drop(i: nat)
    | Leak(i: nat)
    | DropNow(i: nat)
    | Use(i: nat, content: Buf)
    | Shrink
    | Clear
    | Grow(target: nat)

  function Start(c: Config): World {
    World(NewInner(c), [], 0, 0, 0, 0, 0, 0)
  }

  predicate Possible(w: World, e: Event) {
    match e
    case Drop(i) => i < |w.live|
    case Leak(i) => i < |w.live|
    case DropNow(i) => i < |w.live|
    case Use(i, content) => i < |w.live| && content.Valid()
    case _ => true
  }

  function Next(w: World, e: Event): World
    requires Possible(w, e)
  {
    match e
    case Acquire =>
      var (p, b) := AcquireFrom(w.pool);
      w.(pool := p, live := w.live + [b], hits := if w.pool.buffers == [] then w.hits else w.hits + 1)
    case Drop(i) =>
      w.(pool := ReturnTo(w.pool, w.live[i]), live := Without(w.live, i),
         kept := if |w.pool.buffers| < w.pool.config.maxPool then w.kept + 1 else w.kept)
    case Leak(i) => w.(live := Without(w.live, i), leaked := w.leaked + 1)
    case DropNow(i) => w.(live := Without(w.live, i), droppedNow := w.droppedNow + 1)
    case Use(i, content) => w.(live := w.live[i := content])
    case Shrink =>
      w.(pool := Shrunk(w.pool), discarded := w.discarded + Excess(|w.pool.buffers|, w.pool.config.minPool))
    case Clear => w.(pool := Cleared(w.pool), discarded := w.discarded + |w.pool.buffers|)
    case Grow(target) =>
      w.(pool := Grown(w.pool, target),
         grown := w.grown + Excess(Min(target, w.pool.config.maxPool), |w.pool.buffers|))
  }

  ghost function PoolSystem(): System<World, Event> {
    System((w, e) => Possible(w, e), (w, e) => if Possible(w, e) then Next(w, e) else w)
  }

  ghost predicate Reaches(c: Config, es: seq<Event>, w: World) {
    Valid(PoolSystem(), Start(c), es) && w == After(PoolSystem(), Start(c), es)
  }

  predicate IdleClean(p: Inner) {
    forall i :: 0 <= i < |p.buffers| ==> p.buffers[i].Clean()
  }

  predicate Ledger(w: World) {
    var p := w.pool;
    && p.acquired == w.hits + p.allocations
    && p.acquired == p.returned + |w.live| + w.leaked + w.droppedNow
    && |p.buffers| + w.hits + w.discarded == p.config.minPool + w.grown + w.kept
    && |p.buffers| <= Max(p.config.minPool, p.config.maxPool)
    && IdleClean(p)
  }

  lemma LedgerKept(w: World, e: Event)
    requires Ledger(w) && Possible(w, e)
    ensures Ledger(Next(w, e)) && Next(w, e).pool.config == w.pool.config
  {}

  lemma ReachedLedger(c: Config, es: seq<Event>, w: World)
    requires Reaches(c, es, w)
    ensures Ledger(w) && w.pool.config == c
  {
    var inv := (w: World) => Ledger(w) && w.pool.config == c;
    forall w, e | inv(w) && Possible(w, e) ensures inv(Next(w, e)) {
      LedgerKept(w, e);
    }
    Invariance(PoolSystem(), Start(c), es, inv, _ => true);
  }

  /** After every sequence of critical sections by any threads: the size cap is hard, the counters
      balance, the idle count is what came in minus what went out, and every idle buffer is zeroed. */
  lemma MutexPoolLedger(c: Config, es: seq<Event>, w: World)
    requires Reaches(c, es, w)
    ensures |w.pool.buffers| <= Max(c.minPool, c.maxPool)
    ensures w.pool.allocations <= w.pool.acquired && w.pool.acquired == w.hits + w.pool.allocations
    ensures w.pool.acquired == w.pool.returned + |w.live| + w.leaked + w.droppedNow
    ensures |w.pool.buffers| == c.minPool + w.grown + w.kept - w.hits - w.discarded
    ensures forall i :: 0 <= i < |w.pool.buffers| ==> w.pool.buffers[i].Clean()
  {
    ReachedLedger(c, es, w);
  }

  /** `in_use` never saturates; it counts the live handles exactly as long as none was leaked or dropped
      with `drop_now`, and ever after it counts those too. */
  lemma InUseExactIff(c: Config, es: seq<Event>, w: World)
    requires Reaches(c, es, w)
    ensures InUse(w.pool) == w.pool.acquired - w.pool.returned == |w.live| + w.leaked + w.droppedNow
    ensures InUse(w.pool) == |w.live| <==> w.leaked == 0 && w.droppedNow == 0
  {
    ReachedLedger(c, es, w);
  }

  /** The buffer an acquire hands out is clean, whoever held it before. */
  lemma AcquiredIsClean(c: Config, es: seq<Event>, w: World)
    requires Reaches(c, es, w)
    ensures AcquireFrom(w.pool).1.Clean()
  {
    ReachedLedger(c, es, w);
  }

  /** A returned buffer is kept exactly if fewer than `max_pool_size` are idle; then it is the next to be
      handed out, as new, and nothing else has changed. */
  lemma ReturnThenAcquire(p: Inner, b: Buf)
    ensures |ReturnTo(p, b).buffers| == |p.buffers| + (if |p.buffers| < p.config.maxPool then 1 else 0)
    ensures p.buffers <= ReturnTo(p, b).buffers
    ensures |p.buffers| < p.config.maxPool ==>
      AcquireFrom(ReturnTo(p, b)) == (p.(acquired := p.acquired + 1, returned := p.returned + 1), New(|b.data|))
  {
    CleanIsNew(b.Burn());
    if |p.buffers| < p.config.maxPool {
      assert (p.buffers + [b.Burn()])[..|p.buffers|] == p.buffers;
    }
  }

  /** `shrink` leaves min(idle, min_pool_size), `grow(n)` leaves max(idle, min(n, max_pool_size)). */
  lemma ShrinkAndGrow(p: Inner, target: nat)
    ensures |Shrunk(p).buffers| == Min(|p.buffers|, p.config.minPool) && Shrunk(p).buffers <= p.buffers
    ensures |Grown(p, target).buffers| == Max(|p.buffers|, Min(target, p.config.maxPool))
    ensures p.buffers <= Grown(p, target).buffers
  {}
}
