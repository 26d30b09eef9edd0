/** Where buffers are: exactly one place each, and clean wherever nobody holds them. */
module FastPoolOwnership {
  import opened Buffers
  import opened FastPool
  import opened PoolConfigs
  import opened FastPoolCounter
  import opened Sums

  // ---- counting the places of a buffer ----

  function Count(q: seq<nat>, b: nat): nat {
    if q == [] then 0 else (if q[0] == b then 1 else 0) + Count(q[1..], b)
  }

  function One(here: bool): nat {
    if here then 1 else 0
  }

  lemma {:induction false} CountConcat(q: seq<nat>, r: seq<nat>, b: nat)
    ensures Count(q + r, b) == Count(q, b) + Count(r, b)
  {
    if q == [] {
      assert q + r == r;
    } else {
      CountConcat(q[1..], r, b);
      assert (q + r)[1..] == q[1..] + r;
    }
  }

  lemma CountAppend(q: seq<nat>, x: nat, b: nat)
    ensures Count(q + [x], b) == Count(q, b) + One(x == b)
  {
    CountConcat(q, [x], b);
  }

  lemma CountPopBack(q: seq<nat>, b: nat)
    requires q != []
    ensures Count(q, b) == Count(q[..|q| - 1], b) + One(q[|q| - 1] == b)
  {
    assert q == q[..|q| - 1] + [q[|q| - 1]];
    CountAppend(q[..|q| - 1], q[|q| - 1], b);
  }

  lemma {:induction false} CountMember(q: seq<nat>, i: nat)
    requires i < |q|
    ensures Count(q, q[i]) > 0
  {
    if i > 0 { CountMember(q[1..], i - 1); }
  }

  /** Whether a thread has buffer `b` in its hands between two accesses. */
  predicate Carries(pc: Pc, b: nat) {
    (pc.AcqSub? || pc.DropCache? || pc.DropLen? || pc.DropEnq? || pc.ClearSub? || pc.FlushLen? || pc.FlushEnq?)
    && pc.buf == b
  }

  function InQueue(b: nat): Pool -> int {
    (pool: Pool) => Count(pool.queue, b)
  }

  function InThread(b: nat): Thread -> int {
    (th: Thread) => Count(th.cache, b) + One(Carries(th.pc, b))
  }

  function Holds(b: nat): Handle -> int {
    (h: Handle) => One(h.buf == b)
  }

  /** How often buffer `b` occurs over all queues, caches, threads in flight, live handles,
      leaked buffers and destroyed buffers. */
  ghost function Places(s: State, b: nat): int {
    Sum(s.pools, InQueue(b)) + Sum(s.threads, InThread(b))
    + Sum(s.handles, Holds(b)) + Sum(s.leaked, Holds(b)) + Count(s.destroyed, b)
  }

  /** Every buffer ever created is in exactly one place. */
  ghost predicate Partition(s: State) {
    forall b: nat :: Places(s, b) == One(b < |s.store|)
  }

  // ---- one access only moves buffers ----

  ghost function Touched(pool: Pool, th: Thread, b: nat): int {
    Count(pool.queue, b) + Count(th.cache, b) + One(Carries(th.pc, b))
  }

  /** Whatever leaves the queue, the cache or the thread's hands is handed out or destroyed. */
  ghost predicate Moves(pool: Pool, th: Thread, x: Effect, store: seq<Buf>, b: nat) {
    Touched(x.pool, x.thread, b) + Sum(x.gained, Holds(b)) + Count(x.dropped, b) + One(b < |store|)
    == Touched(pool, th, b) + One(b < |x.store|)
  }

  lemma CacheHitMoves(pool: Pool, th: Thread, store: seq<Buf>, b: nat)
    requires th.pc.AcqCache?
    ensures Moves(pool, th, AcquireAccess(pool, th, store), store, b)
  {
    if th.cache != [] {
      CountPopBack(th.cache, b);
      SumSingle(Handle(th.pc.pool, th.cache[|th.cache| - 1]), Holds(b));
    }
  }

  lemma QueueHitMoves(pool: Pool, th: Thread, store: seq<Buf>, b: nat)
    requires th.pc.AcqPop? || th.pc.AcqSub?
    ensures Moves(pool, th, AcquireAccess(pool, th, store), store, b)
  {
    if th.pc.AcqSub? { SumSingle(Handle(th.pc.pool, th.pc.buf), Holds(b)); }
  }

  lemma AllocationMoves(pool: Pool, th: Thread, store: seq<Buf>, b: nat)
    requires th.pc.AcqAlloc?
    ensures Moves(pool, th, AcquireAccess(pool, th, store), store, b)
  {
    SumSingle(Handle(th.pc.pool, |store|), Holds(b));
  }

  lemma AcquireMoves(pool: Pool, th: Thread, store: seq<Buf>, b: nat)
    requires InAcquire(th.pc)
    ensures Moves(pool, th, AcquireAccess(pool, th, store), store, b)
  {
    if th.pc.AcqCache? { CacheHitMoves(pool, th, store, b); }
    else if th.pc.AcqAlloc? { AllocationMoves(pool, th, store, b); }
    else { QueueHitMoves(pool, th, store, b); }
  }

  lemma DropMoves(pool: Pool, th: Thread, store: seq<Buf>, b: nat)
    requires InDrop(th.pc)
    ensures Moves(pool, th, DropAccess(pool, th, store), store, b)
  {
    if th.pc.DropCache? { CountAppend(th.cache, th.pc.buf, b); }
    if th.pc.DropEnq? { CountAppend(pool.queue, th.pc.buf, b); }
  }

  lemma ClearMoves(pool: Pool, th: Thread, store: seq<Buf>, b: nat)
    requires InClear(th.pc)
    ensures Moves(pool, th, ClearAccess(pool, th, store), store, b)
  {}

  lemma WarmMoves(pool: Pool, th: Thread, store: seq<Buf>, b: nat)
    requires InWarm(th.pc)
    ensures Moves(pool, th, WarmAccess(pool, th, store), store, b)
  {
    if th.pc.WarmEnq? { CountAppend(pool.queue, |store|, b); }
  }

  lemma FlushMoves(pool: Pool, th: Thread, store: seq<Buf>, b: nat)
    requires InFlush(th.pc) && Busy(th, store)
    ensures Moves(pool, th, FlushAccess(pool, th, store), store, b)
  {
    match th.pc
    case FlushPop(_) => if th.cache != [] { CountPopBack(th.cache, b); }
    case FlushLen(_, _) =>
    case FlushEnq(_, x) => CountAppend(pool.queue, x, b);
    case FlushAdd(_) =>
  }

  lemma StatsMoves(pool: Pool, th: Thread, store: seq<Buf>, b: nat)
    requires InStats(th.pc)
    ensures Moves(pool, th, StatsAccess(pool, th, store), store, b)
  {}

  lemma AccessMoves(pool: Pool, th: Thread, store: seq<Buf>, b: nat)
    requires Busy(th, store)
    ensures Moves(pool, th, Access(pool, th, store), store, b)
  {
    if InAcquire(th.pc) { AcquireMoves(pool, th, store, b); }
    else if InDrop(th.pc) { DropMoves(pool, th, store, b); }
    else if InClear(th.pc) { ClearMoves(pool, th, store, b); }
    else if InWarm(th.pc) { WarmMoves(pool, th, store, b); }
    else if InFlush(th.pc) { FlushMoves(pool, th, store, b); }
    else { StatsMoves(pool, th, store, b); }
  }

  // ---- one step ----

  lemma GoPlaces(s: State, t: nat, b: nat)
    requires Enabled(s, Go(t))
    ensures var s' := Advance(s, t);
      Places(s', b) - One(b < |s'.store|) == Places(s, b) - One(b < |s.store|)
  {
    var th := s.threads[t];
    var p := th.pc.pool;
    var x := Access(s.pools[p], th, s.store);
    AccessMoves(s.pools[p], th, s.store, b);
    MovedPlaces(s, p, t, x, b);
  }

  /** The sums over the whole state, when one pool and one thread change. */
  lemma MovedPlaces(s: State, p: nat, t: nat, x: Effect, b: nat)
    requires p < |s.pools| && t < |s.threads|
    ensures var s' := State(s.pools[p := x.pool], s.threads[t := x.thread], s.handles + x.gained, s.leaked,
                            s.destroyed + x.dropped, x.store, s.snapshots + x.reported);
      Places(s', b) == Places(s, b) + Touched(x.pool, x.thread, b) - Touched(s.pools[p], s.threads[t], b)
                       + Sum(x.gained, Holds(b)) + Count(x.dropped, b)
  {
    SumUpdate(s.pools, p, x.pool, InQueue(b));
    SumUpdate(s.threads, t, x.thread, InThread(b));
    SumConcat(s.handles, x.gained, Holds(b));
    CountConcat(s.destroyed, x.dropped, b);
  }

  lemma SameQueues(s: State, p: nat, pool: Pool, b: nat)
    requires p < |s.pools| && pool.queue == s.pools[p].queue
    ensures Sum(s.pools[p := pool], InQueue(b)) == Sum(s.pools, InQueue(b))
  {
    SumUpdate(s.pools, p, pool, InQueue(b));
  }

  lemma DropHandlePlaces(s: State, t: nat, h: nat, b: nat)
    requires Enabled(s, Start(t, DropHandle(h)))
    ensures Places(Begin(s, t, DropHandle(h)), b) == Places(s, b)
  {
    var s' := Begin(s, t, DropHandle(h));
    var p := s.handles[h].pool;
    SameQueues(s, p, s'.pools[p], b);
    SumUpdate(s.threads, t, s'.threads[t], InThread(b));
    SumRemove(s.handles, h, Holds(b));
  }

  lemma LeakPlaces(s: State, t: nat, h: nat, b: nat)
    requires Enabled(s, Start(t, Leak(h)))
    ensures Places(Begin(s, t, Leak(h)), b) == Places(s, b)
  {
    SumRemove(s.handles, h, Holds(b));
    SumAppend(s.leaked, s.handles[h], Holds(b));
  }

  lemma DropNowPlaces(s: State, t: nat, h: nat, b: nat)
    requires Enabled(s, Start(t, DropNow(h)))
    ensures Places(Begin(s, t, DropNow(h)), b) == Places(s, b)
  {
    var s' := Begin(s, t, DropNow(h));
    var p := s.handles[h].pool;
    SameQueues(s, p, s'.pools[p], b);
    SumRemove(s.handles, h, Holds(b));
    CountAppend(s.destroyed, s.handles[h].buf, b);
  }

  lemma ExitPlaces(s: State, t: nat, b: nat)
    requires Enabled(s, Start(t, Exit))
    ensures Places(Begin(s, t, Exit), b) == Places(s, b)
  {
    SumUpdate(s.threads, t, Begin(s, t, Exit).threads[t], InThread(b));
    CountConcat(s.destroyed, s.threads[t].cache, b);
  }

  /** Calls that at first only move the thread, and perhaps count in the statistics. */
  lemma OtherPlaces(s: State, t: nat, call: Call, b: nat)
    requires Enabled(s, Start(t, call))
    requires !call.DropHandle? && !call.Leak? && !call.DropNow? && !call.Exit?
    ensures Places(Begin(s, t, call), b) == Places(s, b)
  {
    var s' := Begin(s, t, call);
    SumUpdate(s.threads, t, s'.threads[t], InThread(b));
    assert s'.threads == s.threads[t := s'.threads[t]];
    if call.Acquire? {
      SameQueues(s, call.p, s'.pools[call.p], b);
    }
  }

  lemma {:induction false} CountRange(first: nat, n: nat, b: nat)
    ensures Count(Range(first, n), b) == One(first <= b < first + n)
    decreases n
  {
    if n > 0 { CountRange(first + 1, n - 1, b); }
  }

  lemma NewPoolPlaces(s: State, c: Config, b: nat)
    requires ConfigOk(c)
    ensures var s' := Apply(s, NewPool(c));
      Places(s', b) - One(b < |s'.store|) == Places(s, b) - One(b < |s.store|)
  {
    SumAppend(s.pools, FreshPool(c, |s.store|), InQueue(b));
    CountRange(|s.store|, c.minPool, b);
  }

  lemma PlacesAfter(s: State, e: Event, b: nat)
    requires Enabled(s, e)
    ensures var s' := Apply(s, e);
      Places(s', b) - One(b < |s'.store|) == Places(s, b) - One(b < |s.store|)
  {
    match e
    case NewPool(c) => NewPoolPlaces(s, c, b);
    case Go(t) => GoPlaces(s, t, b);
    case Start(t, call) =>
      StartFrame(s, t, call);
      match call
      case DropHandle(h) => DropHandlePlaces(s, t, h, b);
      case Leak(h) => LeakPlaces(s, t, h, b);
      case DropNow(h) => DropNowPlaces(s, t, h, b);
      case Exit => ExitPlaces(s, t, b);
      case _ => OtherPlaces(s, t, call, b);
  }

  // ---- clean unless held ----

  ghost predicate HeldIn(hs: seq<Handle>, b: nat) {
    exists i :: 0 <= i < |hs| && hs[i].buf == b
  }

  ghost predicate Held(s: State, b: nat) {
    HeldIn(s.handles, b) || HeldIn(s.leaked, b)
  }

  ghost predicate CleanUnlessHeld(s: State) {
    forall b :: 0 <= b < |s.store| && !Held(s, b) ==> s.store[b].Clean()
  }

  lemma AccessStore(pool: Pool, th: Thread, store: seq<Buf>)
    requires Busy(th, store)
    ensures var x := Access(pool, th, store);
      && |store| <= |x.store|
      && (forall b :: 0 <= b < |x.store| ==> (b < |store| && x.store[b] == store[b]) || x.store[b].Clean())
  {}

  lemma GoKeepsClean(s: State, t: nat)
    requires CleanUnlessHeld(s) && Enabled(s, Go(t))
    ensures CleanUnlessHeld(Advance(s, t))
  {
    var s' := Advance(s, t);
    var x := Access(s.pools[s.threads[t].pc.pool], s.threads[t], s.store);
    AccessStore(s.pools[s.threads[t].pc.pool], s.threads[t], s.store);
    forall b | 0 <= b < |s'.store| && !Held(s', b) ensures s'.store[b].Clean() {
      HeldGrows(s.handles, x.gained, b);
    }
  }

  lemma HeldGrows(hs: seq<Handle>, more: seq<Handle>, b: nat)
    ensures HeldIn(hs, b) ==> HeldIn(hs + more, b)
    ensures HeldIn(more, b) ==> HeldIn(hs + more, b)
  {
    if HeldIn(hs, b) {
      var i :| 0 <= i < |hs| && hs[i].buf == b;
      assert (hs + more)[i].buf == b;
    }
    if HeldIn(more, b) {
      var i :| 0 <= i < |more| && more[i].buf == b;
      assert (hs + more)[|hs| + i].buf == b;
    }
  }

  lemma HeldWithout(hs: seq<Handle>, h: nat, b: nat)
    requires h < |hs| && hs[h].buf != b && HeldIn(hs, b)
    ensures HeldIn(Without(hs, h), b)
  {
    var i :| 0 <= i < |hs| && hs[i].buf == b;
    assert Without(hs, h)[if i < h then i else i - 1].buf == b;
  }

  lemma StartKeepsClean(s: State, t: nat, call: Call)
    requires CleanUnlessHeld(s) && Enabled(s, Start(t, call))
    ensures CleanUnlessHeld(Begin(s, t, call))
  {
    var s' := Begin(s, t, call);
    forall b | 0 <= b < |s'.store| && !Held(s', b) ensures s'.store[b].Clean() {
      match call
      case DropHandle(h) => if s.handles[h].buf != b && HeldIn(s.handles, b) { HeldWithout(s.handles, h, b); }
      case DropNow(h) => if s.handles[h].buf != b && HeldIn(s.handles, b) { HeldWithout(s.handles, h, b); }
      case Leak(h) =>
        HeldGrows(s.leaked, [s.handles[h]], b);
        assert HeldIn([s.handles[h]], s.handles[h].buf) by { assert [s.handles[h]][0].buf == s.handles[h].buf; }
        if s.handles[h].buf != b && HeldIn(s.handles, b) { HeldWithout(s.handles, h, b); }
      case Use(h, _) => assert HeldIn(s.handles, s.handles[h].buf);
      case _ =>
    }
  }

  lemma CleanKept(s: State, e: Event)
    requires CleanUnlessHeld(s) && Enabled(s, e)
    ensures CleanUnlessHeld(Apply(s, e))
  {
    match e
    case NewPool(_) =>
    case Start(t, call) => StartKeepsClean(s, t, call);
    case Go(t) => GoKeepsClean(s, t);
  }

  // ---- bookkeeping that keeps every step possible ----

  ghost predicate HandlesInPools(s: State) {
    forall i :: 0 <= i < |s.handles| ==> s.handles[i].pool < |s.pools|
  }

  ghost predicate CachesCapped(s: State) {
    forall t :: 0 <= t < |s.threads| ==> |s.threads[t].cache| <= THREAD_CACHE_CAPACITY
  }

  lemma AccessTidy(pool: Pool, th: Thread, store: seq<Buf>)
    requires Busy(th, store)
    ensures var x := Access(pool, th, store);
      && (|th.cache| <= THREAD_CACHE_CAPACITY ==> |x.thread.cache| <= THREAD_CACHE_CAPACITY)
      && (x.gained == [] || (|x.gained| == 1 && x.gained[0].pool == th.pc.pool))
  {}

  lemma TidyKept(s: State, e: Event)
    requires HandlesInPools(s) && CachesCapped(s) && Enabled(s, e)
    ensures HandlesInPools(Apply(s, e)) && CachesCapped(Apply(s, e))
  {
    match e
    case NewPool(_) =>
    case Start(t, call) =>
      StartFrame(s, t, call);
      StartTidy(s, t, call);
    case Go(t) => AccessTidy(s.pools[s.threads[t].pc.pool], s.threads[t], s.store);
  }

  lemma StartTidy(s: State, t: nat, call: Call)
    requires Enabled(s, Start(t, call))
    ensures var s' := Begin(s, t, call);
      && |s'.threads[t].cache| <= |s.threads[t].cache|
      && (forall i :: 0 <= i < |s'.handles| ==> s'.handles[i] in s.handles)
  {}

  // ---- whole runs ----

  ghost predicate Orderly(s: State) {
    Partition(s) && CleanUnlessHeld(s) && HandlesInPools(s) && CachesCapped(s) && PcsInRange(s)
  }

  lemma InitOrderly(threadCount: nat)
    ensures Orderly(Init(threadCount))
  {
    var s := Init(threadCount);
    forall b: nat ensures Places(s, b) == 0 {
      forall t | 0 <= t < |s.threads| ensures InThread(b)(s.threads[t]) == 0 {}
      SumZero(s.threads, InThread(b));
    }
  }

  lemma OrderlyKept(s: State, e: Event)
    requires Orderly(s) && Enabled(s, e)
    ensures Orderly(Apply(s, e))
  {
    CleanKept(s, e);
    TidyKept(s, e);
    PcsInRangeKept(s, e);
    forall b: nat ensures Places(Apply(s, e), b) == One(b < |Apply(s, e).store|) {
      PlacesAfter(s, e, b);
      assert Places(s, b) == One(b < |s.store|);
    }
  }

  lemma ReachedOrderly(threadCount: nat, es: seq<Event>, s: State)
    requires Reaches(threadCount, es, s)
    ensures Orderly(s)
  {
    InitOrderly(threadCount);
    forall s, e | Orderly(s) && Enabled(s, e) ensures Orderly(Apply(s, e)) {
      OrderlyKept(s, e);
    }
    RunInvariant(threadCount, es, s, Orderly, _ => true);
  }

  /** In every reachable state each buffer ever created is in exactly one place - a queue, a cache,
      a thread's hands, a live handle, leaked or destroyed - and nothing else is anywhere;
      every cache holds at most 16 buffers. */
  lemma OwnershipPartition(threadCount: nat, es: seq<Event>, s: State)
    requires Reaches(threadCount, es, s)
    ensures forall b: nat :: Places(s, b) == One(b < |s.store|)
    ensures forall t :: 0 <= t < |s.threads| ==> |s.threads[t].cache| <= 16
  {
    ReachedOrderly(threadCount, es, s);
  }

  lemma {:induction false} SumMember(hs: seq<Handle>, i: nat)
    requires i < |hs|
    ensures Sum(hs, Holds(hs[i].buf)) >= 1
  {
    SumBounds(hs, Holds(hs[i].buf), 1);
    SumBoundsExcept(hs, i, Holds(hs[i].buf), 1);
  }

  /** No two live handles share a buffer. */
  lemma HandlesDisjoint(threadCount: nat, es: seq<Event>, s: State, i: nat, j: nat)
    requires Reaches(threadCount, es, s) && i < j < |s.handles|
    ensures s.handles[i].buf != s.handles[j].buf
  {
    hide Reaches;
    ReachedOrderly(threadCount, es, s);
    var b := s.handles[i].buf;
    var rest := Without(s.handles, i);
    SumRemove(s.handles, i, Holds(b));
    SumsNonNegative(s, b);
    assert Places(s, b) == One(b < |s.store|);
    assert rest[j - 1] == s.handles[j];
    if b == s.handles[j].buf {
      SumMember(rest, j - 1);
    }
  }

  lemma {:induction false} QueuesNonNegative(pools: seq<Pool>, b: nat)
    ensures Sum(pools, InQueue(b)) >= 0
  {
    if pools != [] { QueuesNonNegative(pools[1..], b); }
  }

  lemma {:induction false} ThreadsNonNegative(threads: seq<Thread>, b: nat)
    ensures Sum(threads, InThread(b)) >= 0
  {
    if threads != [] { ThreadsNonNegative(threads[1..], b); }
  }

  lemma SumsNonNegative(s: State, b: nat)
    ensures Sum(s.pools, InQueue(b)) >= 0 && Sum(s.threads, InThread(b)) >= 0
    ensures Sum(s.handles, Holds(b)) >= 0 && Sum(s.leaked, Holds(b)) >= 0
  {
    QueuesNonNegative(s.pools, b);
    ThreadsNonNegative(s.threads, b);
    SumBounds(s.handles, Holds(b), 1);
    SumBounds(s.leaked, Holds(b), 1);
  }

  /** A buffer that is in a queue, in a cache or in transit is held by nobody, hence clean. */
  lemma IdleIsClean(s: State, b: nat)
    requires Orderly(s) && Sum(s.pools, InQueue(b)) + Sum(s.threads, InThread(b)) > 0
    ensures b < |s.store| && !Held(s, b) && s.store[b].Clean()
  {
    SumsNonNegative(s, b);
    assert Places(s, b) == One(b < |s.store|);
    if HeldIn(s.handles, b) {
      var i :| 0 <= i < |s.handles| && s.handles[i].buf == b;
      SumMember(s.handles, i);
    }
    if HeldIn(s.leaked, b) {
      var i :| 0 <= i < |s.leaked| && s.leaked[i].buf == b;
      SumMember(s.leaked, i);
    }
  }

  lemma QueuedCounts(s: State, p: nat, i: nat)
    requires p < |s.pools| && i < |s.pools[p].queue|
    ensures Sum(s.pools, InQueue(s.pools[p].queue[i])) > 0
  {
    var b := s.pools[p].queue[i];
    CountMember(s.pools[p].queue, i);
    SumSplit(s.pools, p, InQueue(b));
    QueuesNonNegative(s.pools[..p], b);
    QueuesNonNegative(s.pools[p + 1..], b);
  }

  lemma ThreadCounts(s: State, t: nat, b: nat)
    requires t < |s.threads| && InThread(b)(s.threads[t]) > 0
    ensures Sum(s.threads, InThread(b)) > 0
  {
    SumSplit(s.threads, t, InThread(b));
    ThreadsNonNegative(s.threads[..t], b);
    ThreadsNonNegative(s.threads[t + 1..], b);
  }

  /** No stale bytes anywhere idle: every buffer in a queue or a cache is zeroed, whatever its
      earlier holders wrote. This is what lets `clear_thread_cache` push without burning. */
  lemma IdleBuffersClean(threadCount: nat, es: seq<Event>, s: State)
    requires Reaches(threadCount, es, s)
    ensures forall p, i :: 0 <= p < |s.pools| && 0 <= i < |s.pools[p].queue| ==>
      s.pools[p].queue[i] < |s.store| && s.store[s.pools[p].queue[i]].Clean()
    ensures forall t, i :: 0 <= t < |s.threads| && 0 <= i < |s.threads[t].cache| ==>
      s.threads[t].cache[i] < |s.store| && s.store[s.threads[t].cache[i]].Clean()
  {
    ReachedOrderly(threadCount, es, s);
    forall p, i | 0 <= p < |s.pools| && 0 <= i < |s.pools[p].queue|
      ensures s.pools[p].queue[i] < |s.store| && s.store[s.pools[p].queue[i]].Clean()
    {
      QueuedCounts(s, p, i);
      ThreadsNonNegative(s.threads, s.pools[p].queue[i]);
      IdleIsClean(s, s.pools[p].queue[i]);
    }
    forall t, i | 0 <= t < |s.threads| && 0 <= i < |s.threads[t].cache|
      ensures s.threads[t].cache[i] < |s.store| && s.store[s.threads[t].cache[i]].Clean()
    {
      CountMember(s.threads[t].cache, i);
      ThreadCounts(s, t, s.threads[t].cache[i]);
      QueuesNonNegative(s.pools, s.threads[t].cache[i]);
      IdleIsClean(s, s.threads[t].cache[i]);
    }
  }

  /** Whichever tier serves an `acquire`, the buffer it hands out is clean, and it is the only
      handle on that buffer. */
  lemma AcquiredIsClean(threadCount: nat, es: seq<Event>, s: State, t: nat)
    requires Reaches(threadCount, es, s) && Enabled(s, Go(t))
    requires |Advance(s, t).handles| > |s.handles|
    ensures var s' := Advance(s, t); var got := s'.handles[|s.handles|];
      && got.pool == s.threads[t].pc.pool && got.buf < |s'.store| && s'.store[got.buf].Clean()
      && !Held(s, got.buf)
  {
    ReachedOrderly(threadCount, es, s);
    var th := s.threads[t];
    AccessTidy(s.pools[th.pc.pool], th, s.store);
    AcquireSource(s.pools[th.pc.pool], th, s.store);
    var b := Advance(s, t).handles[|s.handles|].buf;
    if th.pc.AcqAlloc? {
      assert Places(s, b) == 0;
      NotHeldIfNowhere(s, b);
    } else {
      if th.pc.AcqCache? { CountMember(th.cache, |th.cache| - 1); }
      ThreadCounts(s, t, b);
      QueuesNonNegative(s.pools, b);
      IdleIsClean(s, b);
    }
  }

  lemma NotHeldIfNowhere(s: State, b: nat)
    requires Places(s, b) == 0
    ensures !Held(s, b)
  {
    SumsNonNegative(s, b);
    if HeldIn(s.handles, b) {
      var i :| 0 <= i < |s.handles| && s.handles[i].buf == b;
      SumMember(s.handles, i);
    }
    if HeldIn(s.leaked, b) {
      var i :| 0 <= i < |s.leaked| && s.leaked[i].buf == b;
      SumMember(s.leaked, i);
    }
  }

  lemma AcquireSource(pool: Pool, th: Thread, store: seq<Buf>)
    requires Busy(th, store) && Access(pool, th, store).gained != []
    ensures var x := Access(pool, th, store);
      && |x.gained| == 1
      && ((th.pc.AcqCache? && th.cache != [] && x.gained[0].buf == th.cache[|th.cache| - 1] && x.store == store)
          || (th.pc.AcqSub? && x.gained[0].buf == th.pc.buf && x.store == store)
          || (th.pc.AcqAlloc? && x.gained[0].buf == |store| && |x.store| == |store| + 1 && x.store[|store|].Clean()))
  {}

  /** No step ever gets stuck: a thread inside a call can always make its next access, and every
      live handle can be dropped, leaked or used. */
  lemma Progress(threadCount: nat, es: seq<Event>, s: State)
    requires Reaches(threadCount, es, s)
    ensures forall t :: 0 <= t < |s.threads| && !s.threads[t].pc.Idle? ==> Enabled(s, Go(t))
    ensures forall h :: 0 <= h < |s.handles| ==> HandleOk(s, h)
  {
    ReachedOrderly(threadCount, es, s);
    forall t | 0 <= t < |s.threads| && !s.threads[t].pc.Idle? ensures Enabled(s, Go(t)) {
      assert PcInRange(s.threads[t].pc, |s.pools|);
      if s.threads[t].pc.FlushLen? {
        ThreadCounts(s, t, s.threads[t].pc.buf);
        QueuesNonNegative(s.pools, s.threads[t].pc.buf);
        IdleIsClean(s, s.threads[t].pc.buf);
      }
    }
    forall h | 0 <= h < |s.handles| ensures HandleOk(s, h) {
      SumMember(s.handles, h);
      SumsNonNegative(s, s.handles[h].buf);
      assert Places(s, s.handles[h].buf) == One(s.handles[h].buf < |s.store|);
    }
  }
}
