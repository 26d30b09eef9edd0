/** The lock-free pool with thread caches (src/pool/fast.rs) as an interleaved step system.
    A step is one access to shared memory: an atomic counter operation, or a push or pop of
    the shared queue. Any number of threads and pools; one cache per thread, shared by all pools. */
module FastPool {
  import opened Buffers
  import opened PoolConfigs
  import opened Runs
  import opened Sums

  const THREAD_CACHE_CAPACITY: nat := 16

  /** `size` is the atomic length counter (mod 2^64). `queueHits` and `droppedNow` are history:
      no code reads them. */
  datatype Pool = Pool(config: Config, queue: seq<nat>, size: nat,
                       acquired: nat, cacheHits: nat, allocs: nat, returned: nat,
                       queueHits: nat, droppedNow: nat)

  /** A live `FastPooledBuffer`: the pool it came from and the buffer it owns. */
  datatype Handle = Handle(pool: nat, buf: nat)

  datatype Snapshot = Snapshot(available: nat, allocs: nat, acquired: nat, returned: nat, cacheHits: nat)

  /** Where a thread stands: the next shared access of the call it is in. */
  datatype Pc =
    | Idle
    // acquire: private cache, queue pop, counter decrement or allocation
    | AcqCache(pool: nat)
    | AcqPop(pool: nat)
    | AcqSub(pool: nat, buf: nat)
    | AcqAlloc(pool: nat)
    // drop of a handle, after burning and counting the return
    | DropCache(pool: nat, buf: nat)
    | DropLen(pool: nat, buf: nat)
    | DropEnq(pool: nat, buf: nat)
    | DropAdd(pool: nat)
    // clear
    | ClearPop(pool: nat)
    | ClearSub(pool: nat, buf: nat)
    // warm; `left` counts the pushes still to enqueue
    | WarmLen(pool: nat, target: nat)
    | WarmEnq(pool: nat, left: nat)
    | WarmAdd(pool: nat, left: nat)
    // clear_thread_cache
    | FlushPop(pool: nat)
    | FlushLen(pool: nat, buf: nat)
    | FlushEnq(pool: nat, buf: nat)
    | FlushAdd(pool: nat)
    // stats: five separate loads
    | StatsLen(pool: nat)
    | StatsAllocated(pool: nat, available: nat)
    | StatsAcquired(pool: nat, available: nat, allocs: nat)
    | StatsReturned(pool: nat, available: nat, allocs: nat, acquired: nat)
    | StatsHits(pool: nat, available: nat, allocs: nat, acquired: nat, returned: nat)

  /** `alive`: the thread's cache still exists (its destructor has not run). */
  datatype Thread = Thread(cache: seq<nat>, pc: Pc, alive: bool)

  /** `store[b]` is the content of buffer `b`; buffers are numbered in order of creation.
      `snapshots` records what the completed `stats` calls returned. */
  datatype State = State(pools: seq<Pool>, threads: seq<Thread>, handles: seq<Handle>,
                         leaked: seq<Handle>, destroyed: seq<nat>, store: seq<Buf>,
                         snapshots: seq<Snapshot>)

  /** What an idle thread may begin. `Use` lets a holder change its buffer in any way. */
  datatype Call =
    | Acquire(p: nat)
    | DropHandle(h: nat)
    | Leak(h: nat)
    | DropNow(h: nat)
    | Use(h: nat, content: Buf)
    | Clear(p: nat)
    | Warm(p: nat, target: nat)
    | ClearThreadCache(p: nat)
    | Stats(p: nat)
    | Exit

  datatype Event = NewPool(config: Config) | Start(t: nat, call: Call) | Go(t: nat)

  function Init(threadCount: nat): State {
    State([], seq(threadCount, _ => Thread([], Idle, true)), [], [], [], [], [])
  }

  // ---- which events can happen ----

  predicate HandleOk(s: State, h: nat) {
    h < |s.handles| && s.handles[h].pool < |s.pools| && s.handles[h].buf < |s.store|
  }

  predicate CanStart(s: State, th: Thread, call: Call) {
    th.pc.Idle? &&
    match call
    case Acquire(p) => p < |s.pools| && th.alive
    case DropHandle(h) => HandleOk(s, h)
    case Leak(h) => HandleOk(s, h)
    case DropNow(h) => HandleOk(s, h)
    case Use(h, content) => HandleOk(s, h) && content.Valid()
    case Clear(p) => p < |s.pools|
    case Warm(p, target) => p < |s.pools| && target < WORD
    case ClearThreadCache(p) => p < |s.pools| && th.alive
    case Stats(p) => p < |s.pools|
    case Exit => th.alive
  }

  predicate CanGo(s: State, pc: Pc) {
    !pc.Idle? && pc.pool < |s.pools| && (pc.FlushLen? ==> pc.buf < |s.store|)
  }

  predicate Enabled(s: State, e: Event) {
    match e
    case NewPool(config) => ConfigOk(config)
    case Start(t, call) => t < |s.threads| && CanStart(s, s.threads[t], call)
    case Go(t) => t < |s.threads| && CanGo(s, s.threads[t].pc)
  }

  // ---- what they do ----

  /** `fetch_add(1)` and `fetch_sub(1)` on a machine word wrap around. */
  function Inc(n: nat): nat {
    if n + 1 == WORD then 0 else n + 1
  }

  function Dec(n: nat): nat {
    if n == 0 then WORD - 1 else n - 1
  }

  function Range(first: nat, n: nat): (r: seq<nat>)
    ensures |r| == n
    decreases n
  {
    if n == 0 then [] else [first] + Range(first + 1, n - 1)
  }

  /** The pool as `new` leaves it: `min_pool_size` fresh buffers, numbered from `first`. */
  function FreshPool(c: Config, first: nat): Pool {
    Pool(c, Range(first, c.minPool), c.minPool, 0, 0, 0, 0, 0, 0)
  }

  function MoveTo(s: State, t: nat, pc: Pc): State
    requires t < |s.threads|
  {
    s.(threads := s.threads[t := s.threads[t].(pc := pc)])
  }

  function SetPool(s: State, p: nat, pool: Pool): State
    requires p < |s.pools|
  {
    s.(pools := s.pools[p := pool])
  }

  function Begin(s: State, t: nat, call: Call): State
    requires t < |s.threads| && CanStart(s, s.threads[t], call)
  {
    var th := s.threads[t];
    match call
    case Acquire(p) =>
      var pool := s.pools[p];
      SetPool(MoveTo(s, t, AcqCache(p)), p, pool.(acquired := pool.acquired + 1))
    case DropHandle(h) =>
      var Handle(p, b) := s.handles[h];
      var pool := s.pools[p];
      SetPool(MoveTo(s, t, DropCache(p, b)), p, pool.(returned := pool.returned + 1))
      .(handles := Without(s.handles, h), store := s.store[b := s.store[b].Burn()])
    case Leak(h) =>
      s.(handles := Without(s.handles, h), leaked := s.leaked + [s.handles[h]])
    case DropNow(h) =>
      var Handle(p, b) := s.handles[h];
      var pool := s.pools[p];
      SetPool(s, p, pool.(droppedNow := pool.droppedNow + 1))
      .(handles := Without(s.handles, h), destroyed := s.destroyed + [b], store := s.store[b := s.store[b].Burn()])
    case Use(h, content) =>
      s.(store := s.store[s.handles[h].buf := content])
    case Clear(p) => MoveTo(s, t, ClearPop(p))
    case Warm(p, target) => MoveTo(s, t, WarmLen(p, target))
    case ClearThreadCache(p) => MoveTo(s, t, FlushPop(p))
    case Stats(p) => MoveTo(s, t, StatsLen(p))
    case Exit =>
      s.(threads := s.threads[t := th.(cache := [], alive := false)], destroyed := s.destroyed + th.cache)
  }

  /** What one shared access changes: the thread that makes it, the pool it reads or writes,
      and whatever it hands out, destroys, creates or reports. */
  datatype Effect = Effect(thread: Thread, pool: Pool, gained: seq<Handle>, dropped: seq<nat>,
                           store: seq<Buf>, reported: seq<Snapshot>)

  function Stay(pool: Pool, th: Thread, store: seq<Buf>): Effect {
    Effect(th, pool, [], [], store, [])
  }

  predicate InAcquire(pc: Pc) { pc.AcqCache? || pc.AcqPop? || pc.AcqSub? || pc.AcqAlloc? }
  predicate InDrop(pc: Pc) { pc.DropCache? || pc.DropLen? || pc.DropEnq? || pc.DropAdd? }
  predicate InClear(pc: Pc) { pc.ClearPop? || pc.ClearSub? }
  predicate InWarm(pc: Pc) { pc.WarmLen? || pc.WarmEnq? || pc.WarmAdd? }
  predicate InFlush(pc: Pc) { pc.FlushPop? || pc.FlushLen? || pc.FlushEnq? || pc.FlushAdd? }
  predicate InStats(pc: Pc) {
    pc.StatsLen? || pc.StatsAllocated? || pc.StatsAcquired? || pc.StatsReturned? || pc.StatsHits?
  }

  /** The three tiers of `acquire`: private cache, shared queue, fresh allocation. */
  function AcquireAccess(pool: Pool, th: Thread, store: seq<Buf>): Effect
    requires InAcquire(th.pc)
  {
    var p := th.pc.pool;
    var stay := Stay(pool, th, store);
    match th.pc
    case AcqCache(_) =>
      if th.cache == [] then stay.(thread := th.(pc := AcqPop(p)))
      else
        var last := |th.cache| - 1;
        stay.(thread := th.(cache := th.cache[..last], pc := Idle),
              pool := pool.(cacheHits := pool.cacheHits + 1), gained := [Handle(p, th.cache[last])])
    case AcqPop(_) =>
      if pool.queue == [] then stay.(thread := th.(pc := AcqAlloc(p)))
      else stay.(thread := th.(pc := AcqSub(p, pool.queue[0])), pool := pool.(queue := pool.queue[1..]))
    case AcqSub(_, b) =>
      stay.(thread := th.(pc := Idle), gained := [Handle(p, b)],
            pool := pool.(size := Dec(pool.size), queueHits := pool.queueHits + 1))
    case AcqAlloc(_) =>
      stay.(thread := th.(pc := Idle), gained := [Handle(p, |store|)],
            store := store + [New(pool.config.bufferSize)], pool := pool.(allocs := pool.allocs + 1))
  }

  /** The drop of a handle, after burning and counting: cache, else queue if the counter shows room. */
  function DropAccess(pool: Pool, th: Thread, store: seq<Buf>): Effect
    requires InDrop(th.pc)
  {
    var p := th.pc.pool;
    var stay := Stay(pool, th, store);
    match th.pc
    case DropCache(_, b) =>
      if th.alive && |th.cache| < THREAD_CACHE_CAPACITY then
        stay.(thread := th.(cache := th.cache + [b], pc := Idle))
      else stay.(thread := th.(pc := DropLen(p, b)))
    case DropLen(_, b) =>
      if pool.size < pool.config.maxPool then stay.(thread := th.(pc := DropEnq(p, b)))
      else stay.(thread := th.(pc := Idle), dropped := [b])
    case DropEnq(_, b) =>
      stay.(thread := th.(pc := DropAdd(p)), pool := pool.(queue := pool.queue + [b]))
    case DropAdd(_) =>
      stay.(thread := th.(pc := Idle), pool := pool.(size := Inc(pool.size)))
  }

  function ClearAccess(pool: Pool, th: Thread, store: seq<Buf>): Effect
    requires InClear(th.pc)
  {
    var p := th.pc.pool;
    var stay := Stay(pool, th, store);
    match th.pc
    case ClearPop(_) =>
      if pool.queue == [] then stay.(thread := th.(pc := Idle))
      else stay.(thread := th.(pc := ClearSub(p, pool.queue[0])), pool := pool.(queue := pool.queue[1..]))
    case ClearSub(_, b) =>
      stay.(thread := th.(pc := ClearPop(p)), dropped := [b], pool := pool.(size := Dec(pool.size)))
  }

  function WarmNext(p: nat, left: nat): Pc {
    if left == 0 then Idle else WarmEnq(p, left)
  }

  /** `warm` reads the counter once; the range `current..target` is empty when current >= target. */
  function WarmAccess(pool: Pool, th: Thread, store: seq<Buf>): Effect
    requires InWarm(th.pc)
  {
    var p := th.pc.pool;
    var stay := Stay(pool, th, store);
    match th.pc
    case WarmLen(_, wanted) =>
      var target := if wanted < pool.config.maxPool then wanted else pool.config.maxPool;
      stay.(thread := th.(pc := WarmNext(p, if pool.size < target then target - pool.size else 0)))
    case WarmEnq(_, left) =>
      stay.(thread := th.(pc := WarmAdd(p, if left == 0 then 0 else left - 1)),
            store := store + [New(pool.config.bufferSize)], pool := pool.(queue := pool.queue + [|store|]))
    case WarmAdd(_, left) =>
      stay.(thread := th.(pc := WarmNext(p, left)), pool := pool.(size := Inc(pool.size)))
  }

  /** `clear_thread_cache`: each cached buffer goes to the queue unburned, or is burned and freed. */
  function FlushAccess(pool: Pool, th: Thread, store: seq<Buf>): Effect
    requires InFlush(th.pc) && (th.pc.FlushLen? ==> th.pc.buf < |store|)
  {
    var p := th.pc.pool;
    var stay := Stay(pool, th, store);
    match th.pc
    case FlushPop(_) =>
      if th.cache == [] then stay.(thread := th.(pc := Idle))
      else
        var last := |th.cache| - 1;
        stay.(thread := th.(cache := th.cache[..last], pc := FlushLen(p, th.cache[last])))
    case FlushLen(_, b) =>
      if pool.size < pool.config.maxPool then stay.(thread := th.(pc := FlushEnq(p, b)))
      else stay.(thread := th.(pc := FlushPop(p)), dropped := [b], store := store[b := store[b].Burn()])
    case FlushEnq(_, b) =>
      stay.(thread := th.(pc := FlushAdd(p)), pool := pool.(queue := pool.queue + [b]))
    case FlushAdd(_) =>
      stay.(thread := th.(pc := FlushPop(p)), pool := pool.(size := Inc(pool.size)))
  }

  function StatsAccess(pool: Pool, th: Thread, store: seq<Buf>): Effect
    requires InStats(th.pc)
  {
    var p := th.pc.pool;
    var stay := Stay(pool, th, store);
    match th.pc
    case StatsLen(_) => stay.(thread := th.(pc := StatsAllocated(p, pool.size)))
    case StatsAllocated(_, av) => stay.(thread := th.(pc := StatsAcquired(p, av, pool.allocs)))
    case StatsAcquired(_, av, al) => stay.(thread := th.(pc := StatsReturned(p, av, al, pool.acquired)))
    case StatsReturned(_, av, al, ac) => stay.(thread := th.(pc := StatsHits(p, av, al, ac, pool.returned)))
    case StatsHits(_, av, al, ac, re) =>
      stay.(thread := th.(pc := Idle), reported := [Snapshot(av, al, ac, re, pool.cacheHits)])
  }

  predicate Busy(th: Thread, store: seq<Buf>) {
    !th.pc.Idle? && (th.pc.FlushLen? ==> th.pc.buf < |store|)
  }

  /** The next access of a thread that is inside a call on `pool`. */
  function Access(pool: Pool, th: Thread, store: seq<Buf>): Effect
    requires Busy(th, store)
  {
    if InAcquire(th.pc) then AcquireAccess(pool, th, store)
    else if InDrop(th.pc) then DropAccess(pool, th, store)
    else if InClear(th.pc) then ClearAccess(pool, th, store)
    else if InWarm(th.pc) then WarmAccess(pool, th, store)
    else if InFlush(th.pc) then FlushAccess(pool, th, store)
    else StatsAccess(pool, th, store)
  }

  function Advance(s: State, t: nat): (s': State)
    requires Enabled(s, Go(t))
    ensures |s'.pools| == |s.pools| && |s'.threads| == |s.threads|
  {
    var p := s.threads[t].pc.pool;
    var x := Access(s.pools[p], s.threads[t], s.store);
    State(s.pools[p := x.pool], s.threads[t := x.thread], s.handles + x.gained, s.leaked,
          s.destroyed + x.dropped, x.store, s.snapshots + x.reported)
  }

  function Apply(s: State, e: Event): State
    requires Enabled(s, e)
  {
    match e
    case NewPool(config) =>
      s.(pools := s.pools + [FreshPool(config, |s.store|)],
      store := s.store + seq(config.minPool, _ => New(config.bufferSize)))
    case Start(t, call) => Begin(s, t, call)
    case Go(t) => Advance(s, t)
  }

  // ---- what a step leaves alone ----

  /** Beginning a call touches no queue and no length counter, and leaves other threads alone. */
  lemma StartFrame(s: State, t: nat, call: Call)
    requires Enabled(s, Start(t, call))
    ensures var s' := Begin(s, t, call);
      && |s'.pools| == |s.pools| && |s'.threads| == |s.threads|
      && s'.threads == s.threads[t := s'.threads[t]]
      && s'.snapshots == s.snapshots && |s'.store| == |s.store|
    ensures var s' := Begin(s, t, call);
      forall p :: 0 <= p < |s.pools| ==>
        && s'.pools[p].queue == s.pools[p].queue && s'.pools[p].size == s.pools[p].size
        && s'.pools[p].config == s.pools[p].config
    ensures var pc := Begin(s, t, call).threads[t].pc;
      || pc.Idle?
      || (pc.pool < |s.pools| &&
          (pc.AcqCache? || pc.DropCache? || pc.ClearPop? || pc.WarmLen? || pc.FlushPop? || pc.StatsLen?))
  {}

  /** The set of threads never changes. */
  lemma ThreadsStay(s: State, e: Event)
    requires Enabled(s, e)
    ensures |Apply(s, e).threads| == |s.threads|
  {
    if e.Start? { StartFrame(s, e.t, e.call); }
  }

  /** A thread stays with the pool of its call, and that pool keeps its configuration. */
  lemma AccessPool(pool: Pool, th: Thread, store: seq<Buf>)
    requires Busy(th, store)
    ensures var x := Access(pool, th, store);
      (x.thread.pc.Idle? || x.thread.pc.pool == th.pc.pool) && x.pool.config == pool.config
  {}

  // ---- runs ----

  ghost function FastSystem(): System<State, Event> {
    System((s, e) => Enabled(s, e), (s, e) => if Enabled(s, e) then Apply(s, e) else s)
  }

  /** Some interleaving of `threadCount` threads leads to `s`. */
  ghost predicate Reaches(threadCount: nat, es: seq<Event>, s: State) {
    Valid(FastSystem(), Init(threadCount), es) && s == After(FastSystem(), Init(threadCount), es)
  }

  lemma Play(threadCount: nat, es: seq<Event>, s: State, e: Event) returns (es': seq<Event>, s': State)
    requires Reaches(threadCount, es, s) && Enabled(s, e)
    ensures es' == es + [e] && s' == Apply(s, e) && Reaches(threadCount, es', s')
  {
    Extend(FastSystem(), Init(threadCount), es, e);
    es', s' := es + [e], Apply(s, e);
  }

  /** Thread `t` begins no call during the run. */
  predicate NoStart(es: seq<Event>, t: nat) {
    forall i :: 0 <= i < |es| ==> es[i].Start? ==> es[i].t != t
  }

  lemma NoStartTail(es: seq<Event>, t: nat)
    requires NoStart(es, t) && es != []
    ensures NoStart(es[1..], t) && (es[0].Start? ==> es[0].t != t)
  {
    forall i | 0 <= i < |es[1..]| && es[1..][i].Start? ensures es[1..][i].t != t { assert es[1..][i] == es[i + 1]; }
  }

  lemma RunInvariant(threadCount: nat, es: seq<Event>, s: State, inv: State -> bool, admitted: Event -> bool)
    requires Reaches(threadCount, es, s) && inv(Init(threadCount))
    requires forall i :: 0 <= i < |es| ==> admitted(es[i])
    requires forall s, e :: inv(s) && admitted(e) && Enabled(s, e) ==> inv(Apply(s, e))
    ensures inv(s)
  {
    Invariance(FastSystem(), Init(threadCount), es, inv, admitted);
  }
}
