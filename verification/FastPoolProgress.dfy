/** How long a call on the lock-free pool can take, in operations of its own on the shared queue and
    the counters: a number that no other thread can prolong, for every call but `clear` - and for
    `clear` exactly what the others feed it. An enqueue or dequeue counts as one operation; what the
    segmented queue does inside it under contention is not part of this model. */
module FastPoolProgress {
  import opened Bytes
  import opened Buffers
  import opened FastPool
  import opened FastPoolCounter
  import opened FastPoolOwnership
  import opened PoolConfigs
  import opened Runs

  /** An upper bound on the accesses a thread still needs, if nobody feeds the queue it drains. */
  function AccessesLeft(th: Thread, pool: Pool): nat {
    match th.pc
    case Idle => 0
    case AcqCache(_) => 3
    case AcqPop(_) => 2
    case AcqSub(_, _) => 1
    case AcqAlloc(_) => 1
    case DropCache(_, _) => 4
    case DropLen(_, _) => 3
    case DropEnq(_, _) => 2
    case DropAdd(_) => 1
    case ClearPop(_) => 2 * |pool.queue| + 1
    case ClearSub(_, _) => 2 * |pool.queue| + 2
    case WarmLen(_, target) => 1 + 2 * Min(target, pool.config.maxPool)
    case WarmEnq(_, left) => 2 * left
    case WarmAdd(_, left) => 2 * left + 1
    case FlushPop(_) => 4 * |th.cache| + 1
    case FlushLen(_, _) => 4 * |th.cache| + 4
    case FlushEnq(_, _) => 4 * |th.cache| + 3
    case FlushAdd(_) => 4 * |th.cache| + 2
    case StatsLen(_) => 5
    case StatsAllocated(_, _) => 4
    case StatsAcquired(_, _, _) => 3
    case StatsReturned(_, _, _, _) => 2
    case StatsHits(_, _, _, _, _) => 1
  }

  /** The same in a state. */
  ghost function Left(s: State, t: nat): nat
    requires t < |s.threads|
  {
    var th := s.threads[t];
    if th.pc.Idle? || th.pc.pool >= |s.pools| then 0 else AccessesLeft(th, s.pools[th.pc.pool])
  }

  lemma AcquireDropCountDown(pool: Pool, th: Thread, store: seq<Buf>)
    requires InAcquire(th.pc) || InDrop(th.pc) || InClear(th.pc)
    ensures var x := Access(pool, th, store); AccessesLeft(x.thread, x.pool) < AccessesLeft(th, pool)
  {}

  lemma WarmFlushCountDown(pool: Pool, th: Thread, store: seq<Buf>)
    requires InWarm(th.pc) || InFlush(th.pc)
    requires Busy(th, store) && (th.pc.WarmEnq? ==> th.pc.left > 0)
    ensures var x := Access(pool, th, store); AccessesLeft(x.thread, x.pool) < AccessesLeft(th, pool)
  {}

  lemma StatsCountDown(pool: Pool, th: Thread, store: seq<Buf>)
    requires InStats(th.pc)
    ensures var x := Access(pool, th, store); AccessesLeft(x.thread, x.pool) < AccessesLeft(th, pool)
  {}

  lemma AccessCountsDown(pool: Pool, th: Thread, store: seq<Buf>)
    requires Busy(th, store) && (th.pc.WarmEnq? ==> th.pc.left > 0)
    ensures var x := Access(pool, th, store); AccessesLeft(x.thread, x.pool) < AccessesLeft(th, pool)
  {
    if InAcquire(th.pc) || InDrop(th.pc) || InClear(th.pc) { AcquireDropCountDown(pool, th, store); }
    else if InWarm(th.pc) || InFlush(th.pc) { WarmFlushCountDown(pool, th, store); }
    else { StatsCountDown(pool, th, store); }
  }

  /** An event of somebody else that enqueues into the pool that thread `t` is clearing. */
  ghost predicate Feeds(s: State, e: Event, t: nat) {
    && e != Go(t) && t < |s.threads| && InClear(s.threads[t].pc) && s.threads[t].pc.pool < |s.pools| && Enabled(s, e)
    && s.threads[t].pc.pool < |Apply(s, e).pools|
    && |Apply(s, e).pools[s.threads[t].pc.pool].queue| > |s.pools[s.threads[t].pc.pool].queue|
  }

  ghost function Fed(s: State, es: seq<Event>, t: nat): nat
    requires Valid(FastSystem(), s, es)
    decreases |es|
  {
    if es == [] then 0 else (if Feeds(s, es[0], t) then 1 else 0) + Fed(Apply(s, es[0]), es[1..], t)
  }

  function AccessesIn(es: seq<Event>, t: nat): nat {
    if es == [] then 0 else (if es[0] == Go(t) then 1 else 0) + AccessesIn(es[1..], t)
  }

  lemma AccessLength(pool: Pool, th: Thread, store: seq<Buf>)
    requires Busy(th, store)
    ensures |Access(pool, th, store).pool.queue| <= |pool.queue| + 1
  {}

  /** No event of another thread changes where a thread stands or what is in its cache; it can only
      make a queue one longer. */
  lemma OthersCannotDelay(s: State, e: Event, t: nat)
    requires Enabled(s, e) && t < |s.threads| && e != Go(t) && (e.Start? ==> e.t != t) && PcsInRange(s)
    ensures var s' := Apply(s, e);
      && t < |s'.threads| && s'.threads[t] == s.threads[t]
      && Left(s', t) <= Left(s, t) + if Feeds(s, e, t) then 2 else 0
  {
    assert PcInRange(s.threads[t].pc, |s.pools|);
    match e
    case NewPool(_) =>
    case Start(u, call) => StartFrame(s, u, call);
    case Go(u) =>
      var th := s.threads[u];
      AccessPool(s.pools[th.pc.pool], th, s.store);
      AccessLength(s.pools[th.pc.pool], th, s.store);
  }

  lemma OwnAccess(s: State, t: nat)
    requires Enabled(s, Go(t)) && PcsInRange(s)
    ensures var s' := Advance(s, t); t < |s'.threads| && Left(s', t) < Left(s, t)
  {
    var th := s.threads[t];
    assert PcInRange(th.pc, |s.pools|);
    AccessCountsDown(s.pools[th.pc.pool], th, s.store);
    AccessPool(s.pools[th.pc.pool], th, s.store);
  }

  /** However the other threads interleave, a thread that is inside a call makes at most `Left` more
      accesses of its own, and two more for every buffer that others enqueue into a pool it clears. */
  lemma {:induction false} OwnAccessesBounded(s: State, es: seq<Event>, t: nat)
    requires PcsInRange(s) && t < |s.threads| && Valid(FastSystem(), s, es) && NoStart(es, t)
    ensures var s' := After(FastSystem(), s, es);
      && t < |s'.threads|
      && AccessesIn(es, t) + Left(s', t) <= Left(s, t) + 2 * Fed(s, es, t)
    decreases |es|
  {
    if es != [] {
      var e := es[0];
      PcsInRangeKept(s, e);
      NoStartTail(es, t);
      if e == Go(t) { OwnAccess(s, t); } else { OthersCannotDelay(s, e, t); }
      OwnAccessesBounded(Apply(s, e), es[1..], t);
    }
  }

  /** What each call can cost when it begins. */
  ghost function CallLimit(s: State, call: Call): nat
    requires call.Clear? || call.Warm? ==> call.p < |s.pools|
  {
    match call
    case Acquire(_) => 3
    case DropHandle(_) => 4
    case Stats(_) => 5
    case ClearThreadCache(_) => 65
    case Warm(p, target) => 1 + 2 * Min(target, s.pools[p].config.maxPool)
    case Clear(p) => 1 + 2 * |s.pools[p].queue|
    case _ => 0
  }

  /** The bounds per call, in every run that follows its beginning: 3 accesses to acquire, 4 to drop, 5
      for statistics, 65 to flush a full cache, two per buffer to warm or clear - and for `clear` alone
      two more per buffer that others enqueue meanwhile. */
  lemma CallBounds(threadCount: nat, es: seq<Event>, s: State, t: nat, call: Call, fs: seq<Event>)
    requires Reaches(threadCount, es, s) && Enabled(s, Start(t, call))
    requires Valid(FastSystem(), Begin(s, t, call), fs) && NoStart(fs, t)
    ensures AccessesIn(fs, t) <= CallLimit(s, call) + 2 * Fed(Begin(s, t, call), fs, t)
    ensures !call.Clear? ==> AccessesIn(fs, t) <= CallLimit(s, call)
  {
    ReachedOrderly(threadCount, es, s);
    assert |s.threads[t].cache| <= THREAD_CACHE_CAPACITY;
    var s' := Begin(s, t, call);
    StartFrame(s, t, call);
    PcsInRangeKept(s, Start(t, call));
    LimitAtStart(s, t, call);
    OwnAccessesBounded(s', fs, t);
    if !call.Clear? { NeverFed(s', fs, t); }
  }

  lemma LimitAtStart(s: State, t: nat, call: Call)
    requires Enabled(s, Start(t, call)) && |s.threads[t].cache| <= THREAD_CACHE_CAPACITY
    ensures var s' := Begin(s, t, call);
      t < |s'.threads| && Left(s', t) <= CallLimit(s, call) && (!call.Clear? ==> !InClear(s'.threads[t].pc))
  {
    StartFrame(s, t, call);
  }

  lemma NoClearing(pool: Pool, th: Thread, store: seq<Buf>)
    requires Busy(th, store) && !InClear(th.pc)
    ensures !InClear(Access(pool, th, store).thread.pc)
  {}

  lemma {:induction false} NeverFed(s: State, fs: seq<Event>, t: nat)
    requires t < |s.threads| && !InClear(s.threads[t].pc) && PcsInRange(s)
    requires Valid(FastSystem(), s, fs) && NoStart(fs, t)
    ensures Fed(s, fs, t) == 0
    decreases |fs|
  {
    if fs != [] {
      NoStartTail(fs, t);
      PcsInRangeKept(s, fs[0]);
      if fs[0] == Go(t) {
        NoClearing(s.pools[s.threads[t].pc.pool], s.threads[t], s.store);
      } else {
        OthersCannotDelay(s, fs[0], t);
      }
      NeverFed(Apply(s, fs[0]), fs[1..], t);
    }
  }

  // ---- when a clear is sure to end ----

  /** With a single thread nobody feeds a queue while it is cleared. */
  lemma {:induction false} SoloNeverFed(s: State, fs: seq<Event>)
    requires |s.threads| == 1 && Valid(FastSystem(), s, fs) && NoStart(fs, 0)
    ensures Fed(s, fs, 0) == 0
    decreases |fs|
  {
    if fs != [] {
      NoStartTail(fs, 0);
      ThreadsStay(s, fs[0]);
      SoloNeverFed(Apply(s, fs[0]), fs[1..]);
    }
  }

  /** In every run of T threads a `clear` that begins on a queue of `q` buffers makes at most `n` accesses. */
  ghost predicate ClearsWithin(threadCount: nat, q: nat, n: nat) {
    forall es, s, t, p, fs ::
      Reaches(threadCount, es, s) && ClearBegins(s, t, p, q, fs) ==> AccessesIn(fs, t) <= n
  }

  /** Thread `t` begins to clear pool `p`, which queues `q` buffers, and `fs` follows. */
  ghost predicate ClearBegins(s: State, t: nat, p: nat, q: nat, fs: seq<Event>) {
    && Enabled(s, Start(t, Clear(p))) && |s.pools[p].queue| == q
    && Valid(FastSystem(), Begin(s, t, Clear(p)), fs) && NoStart(fs, t)
  }

  /** Between the accesses of thread 0, which clears pool 0, thread 1 warms it by one buffer. */
  ghost predicate Feeding(s: State, q: nat, clearer: Pc, feeder: Pc, queued: nat, size: nat) {
    && |s.threads| >= 2 && |s.pools| == 1 && s.pools[0].config == Config(8, q + 1, q)
    && s.threads[0] == Thread([], clearer, true) && s.threads[1] == Thread([], feeder, true)
    && |s.pools[0].queue| == queued && s.pools[0].size == size
  }

  lemma Next(s0: State, fs: seq<Event>, s: State, e: Event) returns (fs': seq<Event>, s': State)
    requires Valid(FastSystem(), s0, fs) && s == After(FastSystem(), s0, fs) && Enabled(s, e)
    requires NoStart(fs, 0) && (e.Start? ==> e.t != 0)
    ensures fs' == fs + [e] && s' == Apply(s, e) && Valid(FastSystem(), s0, fs') && s' == After(FastSystem(), s0, fs')
    ensures NoStart(fs', 0) && AccessesIn(fs', 0) == AccessesIn(fs, 0) + if e == Go(0) then 1 else 0
  {
    Extend(FastSystem(), s0, fs, e);
    AccessesSnoc(fs, e);
    fs', s' := fs + [e], Apply(s, e);
  }

  lemma {:induction false} AccessesSnoc(fs: seq<Event>, e: Event)
    ensures AccessesIn(fs + [e], 0) == AccessesIn(fs, 0) + if e == Go(0) then 1 else 0
  {
    if fs == [] {
      assert [] + [e] == [e] && [e][1..] == [];
    } else {
      AccessesSnoc(fs[1..], e);
      assert (fs + [e])[1..] == fs[1..] + [e];
    }
  }

  lemma FeedOne(s0: State, fs: seq<Event>, s: State, q: nat) returns (fs': seq<Event>, s': State)
    requires Valid(FastSystem(), s0, fs) && s == After(FastSystem(), s0, fs) && NoStart(fs, 0)
    requires q + 1 < WORD && Feeding(s, q, ClearPop(0), Idle, q, q)
    ensures Valid(FastSystem(), s0, fs') && s' == After(FastSystem(), s0, fs') && NoStart(fs', 0)
    ensures Feeding(s', q, ClearPop(0), Idle, q + 1, q + 1) && AccessesIn(fs', 0) == AccessesIn(fs, 0)
  {
    fs', s' := Next(s0, fs, s, Start(1, Warm(0, q + 1)));
    assert Feeding(s', q, ClearPop(0), WarmLen(0, q + 1), q, q);
    fs', s' := Next(s0, fs', s', Go(1));
    fs', s' := PushOne(s0, fs', s', q);
  }

  lemma PushOne(s0: State, fs: seq<Event>, s: State, q: nat) returns (fs': seq<Event>, s': State)
    requires Valid(FastSystem(), s0, fs) && s == After(FastSystem(), s0, fs) && NoStart(fs, 0)
    requires q + 1 < WORD && Feeding(s, q, ClearPop(0), WarmEnq(0, 1), q, q)
    ensures Valid(FastSystem(), s0, fs') && s' == After(FastSystem(), s0, fs') && NoStart(fs', 0)
    ensures Feeding(s', q, ClearPop(0), Idle, q + 1, q + 1) && AccessesIn(fs', 0) == AccessesIn(fs, 0)
  {
    fs', s' := Next(s0, fs, s, Go(1));
    assert Feeding(s', q, ClearPop(0), WarmAdd(0, 0), q + 1, q);
    fs', s' := Next(s0, fs', s', Go(1));
  }

  lemma ClearOne(s0: State, fs: seq<Event>, s: State, q: nat) returns (fs': seq<Event>, s': State)
    requires Valid(FastSystem(), s0, fs) && s == After(FastSystem(), s0, fs) && NoStart(fs, 0)
    requires q + 1 < WORD && Feeding(s, q, ClearPop(0), Idle, q + 1, q + 1)
    ensures Valid(FastSystem(), s0, fs') && s' == After(FastSystem(), s0, fs') && NoStart(fs', 0)
    ensures Feeding(s', q, ClearPop(0), Idle, q, q) && AccessesIn(fs', 0) == AccessesIn(fs, 0) + 2
  {
    var b := s.pools[0].queue[0];
    fs', s' := Next(s0, fs, s, Go(0));
    assert Feeding(s', q, ClearSub(0, b), Idle, q, q + 1);
    fs', s' := Next(s0, fs', s', Go(0));
  }

  lemma {:induction false} FeedFor(s0: State, q: nat, n: nat) returns (fs: seq<Event>, s: State)
    requires q + 1 < WORD && Feeding(s0, q, ClearPop(0), Idle, q, q)
    ensures Valid(FastSystem(), s0, fs) && s == After(FastSystem(), s0, fs) && NoStart(fs, 0)
    ensures Feeding(s, q, ClearPop(0), Idle, q, q) && AccessesIn(fs, 0) == 2 * n
  {
    if n == 0 {
      fs, s := [], s0;
    } else {
      fs, s := FeedFor(s0, q, n - 1);
      fs, s := FeedOne(s0, fs, s, q);
      fs, s := ClearOne(s0, fs, s, q);
    }
  }

  /** With two threads or more there is for every n a run in which a single `clear` makes 2n accesses and
      is where it began: another thread pushes a buffer for each one it takes. */
  lemma ClearCanBeFed(threadCount: nat, q: nat, n: nat) returns (es: seq<Event>, s: State, fs: seq<Event>)
    requires threadCount >= 2 && q + 1 < WORD
    ensures Reaches(threadCount, es, s) && ClearBegins(s, 0, 0, q, fs) && AccessesIn(fs, 0) == 2 * n
    ensures var s' := After(FastSystem(), Begin(s, 0, Clear(0)), fs);
      |s'.threads| > 0 && s'.threads[0] == Thread([], ClearPop(0), true)
  {
    es, s := Play(threadCount, [], Init(threadCount), NewPool(Config(8, q + 1, q)));
    assert Feeding(s, q, Idle, Idle, q, q);
    var s0 := Begin(s, 0, Clear(0));
    assert Feeding(s0, q, ClearPop(0), Idle, q, q);
    var last;
    fs, last := FeedFor(s0, q, n);
  }

  /** Whatever the length of the queue it begins on, a `clear` is bounded if and only if T = 1. */
  lemma ClearBoundedIffSolo(threadCount: nat, q: nat)
    requires threadCount > 0 && q + 1 < WORD
    ensures (exists n :: ClearsWithin(threadCount, q, n)) <==> threadCount == 1
    ensures threadCount == 1 ==> ClearsWithin(1, q, 1 + 2 * q)
  {
    if threadCount == 1 {
      forall es, s, t, p, fs | Reaches(threadCount, es, s) && ClearBegins(s, t, p, q, fs)
        ensures AccessesIn(fs, t) <= 1 + 2 * q
      {
        SoloClear(es, s, t, p, fs);
      }
      assert ClearsWithin(threadCount, q, 1 + 2 * q);
    } else {
      forall n: nat ensures !ClearsWithin(threadCount, q, n) {
        var es, s, fs := ClearCanBeFed(threadCount, q, n + 1);
        assert Reaches(threadCount, es, s) && ClearBegins(s, 0, 0, q, fs) && AccessesIn(fs, 0) > n;
      }
    }
  }

  lemma SoloClear(es: seq<Event>, s: State, t: nat, p: nat, fs: seq<Event>)
    requires Reaches(1, es, s) && p < |s.pools| && ClearBegins(s, t, p, |s.pools[p].queue|, fs)
    ensures AccessesIn(fs, t) <= 1 + 2 * |s.pools[p].queue|
  {
    ReachedThreads(1, es, s);
    CallBounds(1, es, s, t, Clear(p), fs);
    StartFrame(s, t, Clear(p));
    SoloNeverFed(Begin(s, t, Clear(p)), fs);
  }

  lemma ReachedThreads(threadCount: nat, es: seq<Event>, s: State)
    requires Reaches(threadCount, es, s)
    ensures |s.threads| == threadCount
  {
    var inv := (s: State) => |s.threads| == threadCount;
    forall s, e | inv(s) && Enabled(s, e) ensures inv(Apply(s, e)) {
      ThreadsStay(s, e);
    }
    RunInvariant(threadCount, es, s, inv, _ => true);
  }
}
