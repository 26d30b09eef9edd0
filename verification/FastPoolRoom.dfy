/** The size test that decides whether there is room: exactly when it refuses, and what that means
    for `warm`, whose documentation promises approximately `target_size` idle buffers. */
module FastPoolRoom {
  import opened Bytes
  import opened Buffers
  import opened FastPool
  import opened PoolConfigs
  import opened FastPoolCounter
  import opened FastPoolBound
  import opened FastPoolDrift
  import opened Runs
  import opened Sums

  // ---- when the test refuses ----

  /** In every reachable state the size test refuses exactly when the unwrapped counter shows no room, or
      has gone below zero. So a refusal is justified by the buffers queued and those being dequeued,
      unless the counter is below zero. */
  lemma TestRefusesIff(threadCount: nat, es: seq<Event>, s: State, w: nat, p: nat)
    requires threadCount > 0 && w > 0 && Reaches(threadCount, es, s) && AllFit(es, threadCount, w) && p < |s.pools|
    ensures var pool := s.pools[p]; var u := Unwrapped(s, p);
      && (pool.size >= pool.config.maxPool <==> u < 0 || u >= pool.config.maxPool)
      && (pool.size >= pool.config.maxPool ==>
            u < 0 || |pool.queue| + Sum(s.threads, Popping(p)) >= pool.config.maxPool)
  {
    hide Reaches, Unwrapped;
    var c := s.pools[p].config;
    ReachedBounded(threadCount, es, s, w);
    assert PoolBounded(s, p, w);
    PushingWithinOwing(s.threads, p);
    CounterDrift(threadCount, es, s, p);
    if c.maxPool > 0 {
      Grows(threadCount - 1, MostOwed(c, w));
      WrappedTest(Unwrapped(s, p), c.maxPool);
    }
    UnwrappedAtMost(s, p);
  }

  lemma WrappedTest(u: int, max: nat)
    requires max - WORD <= u < WORD && 0 < max
    ensures u % WORD >= max <==> u < 0 || u >= max
  {}

  lemma UnwrappedAtMost(s: State, p: nat)
    requires p < |s.pools|
    ensures Unwrapped(s, p) <= |s.pools[p].queue| + Sum(s.threads, Popping(p))
  {
    SumBounds(s.threads, Pushing(p), 1);
  }

  // ---- a warm that nobody drains ----

  /** A thread that may dequeue from pool `p` before its call is over. */
  predicate Draining(pc: Pc, p: nat) {
    (InAcquire(pc) || InClear(pc)) && pc.pool == p
  }

  predicate StartsDraining(e: Event, p: nat) {
    e.Start? && (e.call == Acquire(p) || e.call == Clear(p))
  }

  ghost predicate Undrained(s: State, p: nat) {
    forall t :: 0 <= t < |s.threads| ==> !Draining(s.threads[t].pc, p)
  }

  /** Nobody drains pool `p`, its counter is at or above zero, and thread `t` is on the way to `goal`. */
  ghost predicate WarmOk(s: State, t: nat, p: nat, goal: nat) {
    && t < |s.threads| && p < |s.pools| && CounterLedger(s) && Undrained(s, p) && Unwrapped(s, p) >= 0
    && WarmOnCourse(s.pools[p], s.threads[t].pc, p, goal)
  }

  predicate WarmOnCourse(pool: Pool, pc: Pc, p: nat, goal: nat) {
    match pc
    case Idle => |pool.queue| >= goal
    case WarmLen(q, target) => q == p && Min(target, pool.config.maxPool) == goal
    case WarmEnq(q, left) => q == p && |pool.queue| + left >= goal
    case WarmAdd(q, left) => q == p && |pool.queue| + left >= goal
    case _ => false
  }

  /** An access of a thread that does not drain pool `p` takes nothing from it and counts nothing out. */
  lemma AccessKeepsQueue(pool: Pool, th: Thread, store: seq<Buf>)
    requires Busy(th, store) && !Draining(th.pc, th.pc.pool)
    ensures var x := Access(pool, th, store);
      && |x.pool.queue| >= |pool.queue| && !Draining(x.thread.pc, th.pc.pool) && CounterChange(th.pc) >= 0
  {}

  /** Without draining, the counter never shows more than is queued. */
  lemma CounterWithinQueue(s: State, p: nat)
    requires p < |s.pools| && CounterLedger(s) && Undrained(s, p) && Unwrapped(s, p) >= 0
    ensures s.pools[p].size <= |s.pools[p].queue|
  {
    forall t | 0 <= t < |s.threads| ensures Popping(p)(s.threads[t]) == 0 {
      assert !Draining(s.threads[t].pc, p);
    }
    SumZero(s.threads, Popping(p));
    SumBounds(s.threads, Pushing(p), 1);
  }

  lemma WarmAccessOnCourse(pool: Pool, th: Thread, store: seq<Buf>, goal: nat)
    requires InWarm(th.pc) && Busy(th, store) && (th.pc.WarmEnq? ==> th.pc.left > 0)
    requires WarmOnCourse(pool, th.pc, th.pc.pool, goal) && pool.size <= |pool.queue|
    ensures var x := Access(pool, th, store); WarmOnCourse(x.pool, x.thread.pc, th.pc.pool, goal)
  {
    assert Access(pool, th, store) == WarmAccess(pool, th, store);
  }

  lemma UndrainedAfterGo(s: State, u: nat, p: nat)
    requires Enabled(s, Go(u)) && CounterLedger(s) && Undrained(s, p) && p < |s.pools|
    ensures var s' := Advance(s, u);
      Undrained(s', p) && |s'.pools[p].queue| >= |s.pools[p].queue| && Unwrapped(s', p) >= Unwrapped(s, p)
      && s'.pools[p].config == s.pools[p].config
  {
    var th := s.threads[u];
    AccessPool(s.pools[th.pc.pool], th, s.store);
    assert !Draining(th.pc, p);
    if th.pc.pool == p {
      AccessKeepsQueue(s.pools[p], th, s.store);
      AccessKeepsLedger(s.pools[p], th, s.store);
      var x := Access(s.pools[p], th, s.store);
      UnwrappedAfterEffect(s, u, p, x.thread, x.pool, CounterChange(th.pc));
    } else {
      UnwrappedAfterOther(s, u, p);
    }
  }

  lemma UndrainedAfterStart(s: State, u: nat, call: Call, p: nat)
    requires Enabled(s, Start(u, call)) && Undrained(s, p) && p < |s.pools| && !StartsDraining(Start(u, call), p)
    ensures var s' := Begin(s, u, call);
      Undrained(s', p) && |s'.pools| == |s.pools| && s'.pools[p].queue == s.pools[p].queue
      && s'.pools[p].config == s.pools[p].config && Unwrapped(s', p) == Unwrapped(s, p)
  {
    StartFrame(s, u, call);
    UnwrappedAfterStart(s, u, call, p);
    StartPc(s, u, call);
  }

  lemma StartPc(s: State, u: nat, call: Call)
    requires Enabled(s, Start(u, call))
    ensures var pc := Begin(s, u, call).threads[u].pc;
      && (InAcquire(pc) ==> call.Acquire? && pc.pool == call.p)
      && (InClear(pc) ==> call.Clear? && pc.pool == call.p)
      && (call.Warm? ==> pc == WarmLen(call.p, call.target))
  {}

  lemma WarmOkKept(s: State, e: Event, t: nat, p: nat, goal: nat)
    requires WarmOk(s, t, p, goal) && Enabled(s, e) && !StartsDraining(e, p) && (e.Start? ==> e.t != t)
    ensures WarmOk(Apply(s, e), t, p, goal)
  {
    CounterLedgerKept(s, e);
    match e
    case NewPool(_) => UnwrappedAfter(s, e, p);
    case Start(u, call) =>
      StartFrame(s, u, call);
      UndrainedAfterStart(s, u, call, p);
    case Go(u) =>
      UndrainedAfterGo(s, u, p);
      if u == t {
        assert PcInRange(s.threads[t].pc, |s.pools|);
        CounterWithinQueue(s, p);
        WarmAccessOnCourse(s.pools[p], s.threads[t], s.store, goal);
      }
  }

  lemma {:induction false} WarmOkAfter(s: State, fs: seq<Event>, t: nat, p: nat, goal: nat)
    requires WarmOk(s, t, p, goal) && Valid(FastSystem(), s, fs) && NoStart(fs, t)
    requires forall i :: 0 <= i < |fs| ==> !StartsDraining(fs[i], p)
    ensures WarmOk(After(FastSystem(), s, fs), t, p, goal)
    decreases |fs|
  {
    if fs != [] {
      NoStartTail(fs, t);
      WarmOkKept(s, fs[0], t, p, goal);
      forall i | 0 <= i < |fs[1..]| ensures !StartsDraining(fs[1..][i], p) { assert fs[1..][i] == fs[i + 1]; }
      WarmOkAfter(Apply(s, fs[0]), fs[1..], t, p, goal);
    }
  }

  /** While nobody dequeues, and from a counter at or above zero, `warm(n)` ends with at least
      min(n, max_pool_size) buffers queued, whatever else the other threads do. */
  lemma WarmReachesTarget(threadCount: nat, es: seq<Event>, s: State, t: nat, p: nat, n: nat, fs: seq<Event>)
    requires Reaches(threadCount, es, s) && Enabled(s, Start(t, Warm(p, n)))
    requires Undrained(s, p) && Unwrapped(s, p) >= 0
    requires Valid(FastSystem(), Begin(s, t, Warm(p, n)), fs) && NoStart(fs, t)
    requires forall i :: 0 <= i < |fs| ==> !StartsDraining(fs[i], p)
    ensures var s' := After(FastSystem(), Begin(s, t, Warm(p, n)), fs);
      && t < |s'.threads| && p < |s'.pools|
      && (s'.threads[t].pc.Idle? ==> |s'.pools[p].queue| >= Min(n, s.pools[p].config.maxPool))
  {
    ReachedLedger(threadCount, es, s);
    CounterLedgerKept(s, Start(t, Warm(p, n)));
    StartFrame(s, t, Warm(p, n));
    UndrainedAfterStart(s, t, Warm(p, n), p);
    StartPc(s, t, Warm(p, n));
    WarmOkAfter(Begin(s, t, Warm(p, n)), fs, t, p, Min(n, s.pools[p].config.maxPool));
  }

  // ---- a warm that leaves an empty pool empty ----

  /** Thread `t` warms the empty pool `p`, undisturbed to the end, and the pool is still empty. */
  ghost predicate WarmMisses(s: State, t: nat, p: nat, n: nat, fs: seq<Event>) {
    && Enabled(s, Start(t, Warm(p, n))) && s.pools[p].queue == [] && Min(n, s.pools[p].config.maxPool) > 0
    && Valid(FastSystem(), Begin(s, t, Warm(p, n)), fs) && (forall i :: 0 <= i < |fs| ==> fs[i] == Go(t))
    && var s' := After(FastSystem(), Begin(s, t, Warm(p, n)), fs);
    && t < |s'.threads| && s'.threads[t].pc.Idle? && p < |s'.pools| && s'.pools[p].queue == []
  }

  /** With two threads or more: the counter stands below zero, so `warm(1)` makes its one load and returns. */
  lemma WarmRefused(threadCount: nat) returns (es: seq<Event>, s: State)
    requires 2 <= threadCount < WORD
    ensures Reaches(threadCount, es, s) && WarmMisses(s, threadCount - 1, 0, 1, [Go(threadCount - 1)])
  {
    var t := threadCount - 1;
    es, s := TakeAll(threadCount, t);
    var s1 := Begin(s, t, Warm(0, 1));
    assert s1.threads == s.threads[t := Thread([], WarmLen(0, 1), true)] && s1.pools == s.pools;
    var s2 := Advance(s1, t);
    assert s2.threads[t].pc.Idle? && s2.pools[0].queue == [];
    Extend(FastSystem(), s1, [], Go(t));
    assert [] + [Go(t)] == [Go(t)];
  }

  lemma SoloWarmWorks(es: seq<Event>, s: State, t: nat, p: nat, n: nat, fs: seq<Event>)
    requires Reaches(1, es, s)
    ensures !WarmMisses(s, t, p, n, fs)
  {
    hide Reaches;
    if WarmMisses(s, t, p, n, fs) {
      SoloUndrained(es, s, t, p);
      WarmReachesTarget(1, es, s, t, p, n, fs);
      assert false;
    }
  }

  lemma SoloUndrained(es: seq<Event>, s: State, t: nat, p: nat)
    requires Reaches(1, es, s) && t < |s.threads| && s.threads[t].pc.Idle? && p < |s.pools|
    ensures Undrained(s, p) && Unwrapped(s, p) >= 0
  {
    hide Reaches;
    ReachedLedger(1, es, s);
    CounterDrift(1, es, s, p);
  }

  /** A `warm` can leave an empty pool empty in some run of T threads if and only if T > 1. */
  lemma WarmMissesIffNotSolo(threadCount: nat)
    requires 0 < threadCount < WORD
    ensures (exists es, s, t: nat, p: nat, n: nat, fs :: Reaches(threadCount, es, s) && WarmMisses(s, t, p, n, fs))
            <==> threadCount > 1
  {
    if threadCount > 1 {
      var es, s := WarmRefused(threadCount);
      assert Reaches(threadCount, es, s) && WarmMisses(s, threadCount - 1, 0, 1, [Go(threadCount - 1)]);
    } else {
      forall es, s, t: nat, p: nat, n: nat, fs | Reaches(threadCount, es, s) ensures !WarmMisses(s, t, p, n, fs) {
        SoloWarmWorks(es, s, t, p, n, fs);
      }
    }
  }
}
