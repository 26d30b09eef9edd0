/** The calls of the lock-free pool when no other thread moves: the drain, warm and flush loops
    run to completion, one shared access at a time, and do exactly what their documentation says. */
module FastPoolSolo {
  import opened Bytes
  import opened Buffers
  import opened FastPool
  import opened FastPoolBound
  import opened FastPoolCounter
  import opened FastPoolOwnership
  import opened PoolConfigs
  import opened Runs
  import opened Sums

  /** A cache is emptied from its end. */
  function Reversed(c: seq<nat>): (r: seq<nat>)
    ensures |r| == |c| && forall i :: 0 <= i < |c| ==> r[i] == c[|c| - 1 - i]
  {
    seq(|c|, i requires 0 <= i < |c| => c[|c| - 1 - i])
  }

  /** How many more buffers a queue takes before it holds `max`. */
  function Room(q: seq<nat>, max: nat): nat {
    if |q| < max then max - |q| else 0
  }

  function NewBuffers(n: nat, size: nat): (bs: seq<Buf>)
    ensures |bs| == n && forall i :: 0 <= i < n ==> bs[i].Clean() && bs[i] == New(size)
  {
    seq(n, _ => New(size))
  }

  /** The store with the buffers in `bs` burned, and all others as they were. */
  function Burned(store: seq<Buf>, bs: seq<nat>): (r: seq<Buf>)
    ensures |r| == |store|
  {
    seq(|store|, b requires 0 <= b < |store| => if b in bs then store[b].Burn() else store[b])
  }

  /** From `s0` to `s1` only thread `t` moved, only pool `p` changed, and nothing was leaked. */
  ghost predicate Moved(s0: State, s1: State, t: nat, p: nat, th: Thread, pool: Pool) {
    && t < |s0.threads| == |s1.threads| && p < |s0.pools| == |s1.pools|
    && s1.threads == s0.threads[t := s1.threads[t]] && s1.threads[t] == th
    && s1.pools == s0.pools[p := s1.pools[p]] && s1.pools[p] == pool
    && s1.leaked == s0.leaked
  }

  /** No handle was handed out or given up, no buffer destroyed, no snapshot taken. */
  predicate SameHolders(s0: State, s1: State) {
    s1.handles == s0.handles && s1.destroyed == s0.destroyed && s1.snapshots == s0.snapshots
  }

  // ---- when the counter can be taken at its word ----

  /** The counter of pool `p` shows the queue as it is. */
  predicate Settled(s: State, p: nat) {
    p < |s.pools| && s.pools[p].size == |s.pools[p].queue| < WORD && s.pools[p].config.maxPool < WORD
  }

  /** In every reachable state in which no thread is inside a push or a pop of the pool. */
  lemma SettledWhenQuiet(threadCount: nat, es: seq<Event>, s: State, w: nat, p: nat)
    requires threadCount > 0 && w > 0 && Reaches(threadCount, es, s) && AllFit(es, threadCount, w)
    requires p < |s.pools| && Quiet(s, p)
    ensures Settled(s, p)
  {
    AvailableExactWhenQuiet(threadCount, es, s, w, p);
    ReachedConfigs(threadCount, es, s);
    ReachedLedger(threadCount, es, s);
  }

  /** And whenever the only thread of a program is idle. */
  lemma SettledWhenAlone(es: seq<Event>, s: State, p: nat)
    requires Reaches(1, es, s) && p < |s.pools|
    requires |s.threads| == 1 ==> s.threads[0].pc.Idle?
    ensures |s.threads| == 1 && Settled(s, p)
  {
    ReachedLedger(1, es, s);
    forall i | 0 <= i < |es| ensures Fits(es[i], 1, WORD) {
      RunArguments(1, es, s, i);
      assert es[i].Start? ==> (es[i].call.Warm? <==> IsWarm(es[i]));
    }
    SettledWhenQuiet(1, es, s, WORD, p);
  }

  // ---- one thread driven through its calls ----

  class Solo {
    const threadCount: nat
    var state: State
    /** The events that led here. */
    ghost var history: seq<Event>

    ghost predicate Valid()
      reads this
    {
      Reaches(threadCount, history, state)
    }

    constructor (threadCount: nat)
      ensures Valid() && state == Init(threadCount) && this.threadCount == threadCount
    {
      this.threadCount, state, history := threadCount, Init(threadCount), [];
    }

    /** Thread `t` is idle and the counter of pool `p` shows the queue as it is. */
    ghost predicate Ready(t: nat, p: nat)
      reads this
    {
      Valid() && t < |state.threads| && state.threads[t].pc.Idle? && Settled(state, p)
    }

    /** A program of one thread is ready for its next call whenever the last one has returned. */
    lemma ReadyWhenAlone(p: nat)
      requires Valid() && threadCount == 1 && p < |state.pools|
      requires |state.threads| == 1 ==> state.threads[0].pc.Idle?
      ensures Ready(0, p)
    {
      SettledWhenAlone(history, state, p);
    }

    method Do(e: Event)
      requires Valid() && Enabled(state, e)
      modifies this
      ensures Valid() && state == Apply(old(state), e) && history == old(history) + [e]
    {
      Extend(FastSystem(), Init(threadCount), history, e);
      state := Apply(state, e);
      history := history + [e];
    }

    /** A new pool holds `min_pool_size` fresh buffers and disturbs no other pool. */
    method NewPool(config: Config) returns (p: nat)
      requires Valid() && ConfigOk(config)
      modifies this
      ensures Valid() && p == |old(state).pools| && Settled(state, p)
      ensures state == old(state).(pools := old(state).pools + [FreshPool(config, |old(state).store|)],
                                   store := old(state).store + NewBuffers(config.minPool, config.bufferSize))
    {
      p := |state.pools|;
      assert NewBuffers(config.minPool, config.bufferSize) == seq(config.minPool, _ => New(config.bufferSize));
      Do(FastPool.NewPool(config));
    }

    // ---- warm ----

    /** `warm(n)` leaves exactly max(old, min(n, max_pool_size)) buffers, the new ones fresh and queued
        behind the old; nothing else changes. */
    method Warm(t: nat, p: nat, target: nat)
      requires Ready(t, p) && target < WORD
      modifies this
      ensures Ready(t, p)
      ensures |state.pools[p].queue| == Max(|old(state).pools[p].queue|, Min(target, state.pools[p].config.maxPool))
      ensures Warmed(old(state), state, t, p, Idle, |state.pools[p].queue| - |old(state).pools[p].queue|)
    {
      hide Reaches, Range;
      ghost var q := state.pools[p].queue;
      ghost var goal := Max(|q|, Min(target, state.pools[p].config.maxPool));
      ghost var k := 0;
      BeginWarm(t, p, target);
      while !state.threads[t].pc.Idle?
        invariant Valid() && |q| + k <= goal
        invariant Warmed(old(state), state, t, p, WarmNext(p, goal - |q| - k), k)
        decreases goal - |q| - k
      {
        ghost var before := state;
        PushFresh(t, p, goal - |q| - k);
        WarmedOnce(old(state), before, state, t, p, goal - |q| - k, k);
        k := k + 1;
      }
    }

    method BeginWarm(t: nat, p: nat, target: nat)
      requires Ready(t, p) && target < WORD
      modifies this
      ensures Valid()
      ensures var size := |old(state).pools[p].queue|;
        var goal := Max(size, Min(target, old(state).pools[p].config.maxPool));
        Warmed(old(state), state, t, p, WarmNext(p, goal - size), 0)
    {
      Do(Start(t, Call.Warm(p, target)));
      Do(Go(t));
      assert state.pools[p].queue == old(state).pools[p].queue + Range(|old(state).store|, 0);
    }

    /** One turn of the `warm` loop. */
    method PushFresh(t: nat, p: nat, ghost left: nat)
      requires Valid() && t < |state.threads| && p < |state.pools|
      requires state.threads[t].pc == WarmNext(p, left) && left > 0
      requires state.pools[p].size == |state.pools[p].queue| < WORD - 1
      modifies this
      ensures Valid() && Warmed(old(state), state, t, p, WarmNext(p, left - 1), 1)
    {
      Do(Go(t));
      Do(Go(t));
      assert Range(|old(state).store|, 1) == [|old(state).store|];
    }

    // ---- clear ----

    /** `clear` leaves the queue empty and the counter at zero; every queued buffer is destroyed in
        order; nothing else changes. */
    method Clear(t: nat, p: nat)
      requires Ready(t, p)
      modifies this
      ensures Ready(t, p)
      ensures var s := old(state);
        && Moved(s, state, t, p, s.threads[t], s.pools[p].(queue := [], size := 0))
        && state == s.(threads := state.threads, pools := state.pools, destroyed := s.destroyed + s.pools[p].queue)
    {
      ghost var s := state;
      ghost var q := state.pools[p].queue;
      ghost var k := 0;
      Do(Start(t, Call.Clear(p)));
      while state.pools[p].queue != []
        invariant Valid() && k <= |q|
        invariant Drained(s, state, t, p, k)
        decreases |q| - k
      {
        DrainOne(t, p, s, k);
        k := k + 1;
      }
      Do(Go(t));
    }

    /** One turn of the drain loop. */
    method DrainOne(t: nat, p: nat, ghost s: State, ghost k: nat)
      requires Valid() && p < |s.pools| && k < |s.pools[p].queue| < WORD && Drained(s, state, t, p, k)
      modifies this
      ensures Valid() && Drained(s, state, t, p, k + 1)
    {
      Do(Go(t));
      Do(Go(t));
    }

    // ---- clear_thread_cache ----

    /** `clear_thread_cache` takes the cache from its end: as many buffers as there is room for go behind
        the queued ones, with their contents untouched; the others are burned and freed. */
    method ClearThreadCache(t: nat, p: nat)
      requires Ready(t, p) && state.threads[t].alive
      modifies this
      ensures Ready(t, p)
      ensures var s := old(state); var c := s.threads[t].cache; var pool := s.pools[p];
        var kept := Min(|c|, Room(pool.queue, pool.config.maxPool));
        && Moved(s, state, t, p, s.threads[t].(cache := []),
                 pool.(queue := pool.queue + Reversed(c)[..kept], size := |pool.queue| + kept))
        && state.destroyed == s.destroyed + Reversed(c)[kept..]
        && state.store == Burned(s.store, Reversed(c)[kept..])
        && state.handles == s.handles && state.snapshots == s.snapshots
    {
      hide Reaches, FlushedTo, Apply, Enabled;
      ghost var s := state;
      ghost var n := |state.threads[t].cache|;
      ghost var done := 0;
      CachedExist(t);
      BeginFlush(t, p);
      while state.threads[t].cache != []
        invariant Valid() && done <= n && FlushedTo(s, state, t, p, done)
        invariant t < |state.threads| && |state.threads[t].cache| == n - done
        decreases n - done
      {
        FlushOne(t, p, s, done);
        done := done + 1;
      }
      EndFlush(t, p, s);
    }

    method BeginFlush(t: nat, p: nat)
      requires Ready(t, p) && state.threads[t].alive
      modifies this
      ensures Valid() && FlushedTo(old(state), state, t, p, 0)
      ensures t < |state.threads| && state.threads[t].cache == old(state).threads[t].cache
    {
      hide Reaches;
      ghost var s := state;
      Do(Start(t, Call.ClearThreadCache(p)));
      FlushStart(s, state, t, p);
    }

    method EndFlush(t: nat, p: nat, ghost s: State)
      requires Valid() && t < |s.threads| && s.threads[t].pc.Idle? && Settled(s, p)
      requires FlushedTo(s, state, t, p, |s.threads[t].cache|)
      modifies this
      ensures Ready(t, p)
      ensures var c := s.threads[t].cache; var pool := s.pools[p];
        var kept := Min(|c|, Room(pool.queue, pool.config.maxPool));
        && Moved(s, state, t, p, s.threads[t].(cache := []),
                 pool.(queue := pool.queue + Reversed(c)[..kept], size := |pool.queue| + kept))
        && state.destroyed == s.destroyed + Reversed(c)[kept..]
        && state.store == Burned(s.store, Reversed(c)[kept..])
        && state.handles == s.handles && state.snapshots == s.snapshots
    {
      hide Reaches;
      ghost var r := Reversed(s.threads[t].cache);
      ghost var kept := Min(|r|, Room(s.pools[p].queue, s.pools[p].config.maxPool));
      assert r[kept..|r|] == r[kept..];
      Do(Go(t));
    }

    lemma CachedExist(t: nat)
      requires Valid() && t < |state.threads|
      ensures forall i :: 0 <= i < |state.threads[t].cache| ==> state.threads[t].cache[i] < |state.store|
    {
      IdleBuffersClean(threadCount, history, state);
    }

    /** One turn of the flush loop. */
    method FlushOne(t: nat, p: nat, ghost s: State, ghost done: nat)
      requires Valid() && t < |s.threads| && Settled(s, p)
      requires done < |s.threads[t].cache| && FlushedTo(s, state, t, p, done)
      requires forall i :: 0 <= i < |s.threads[t].cache| ==> s.threads[t].cache[i] < |s.store|
      modifies this
      ensures Valid() && FlushedTo(s, state, t, p, done + 1)
      ensures t < |state.threads| && |state.threads[t].cache| == |s.threads[t].cache| - (done + 1)
    {
      hide Reaches;
      ghost var before := state;
      FlushLast(t, p);
      FlushedOnce(s, before, state, t, p, done);
    }

    /** The last buffer of the cache: queued if there is room, else burned and destroyed. */
    method FlushLast(t: nat, p: nat)
      requires Valid() && t < |state.threads| && p < |state.pools| && state.threads[t].pc == FlushPop(p)
      requires state.threads[t].cache != [] && state.threads[t].cache[|state.threads[t].cache| - 1] < |state.store|
      requires state.pools[p].size < WORD && state.pools[p].config.maxPool < WORD
      modifies this
      ensures Valid() && FlushedLast(old(state), state, t, p)
    {
      hide Reaches;
      Do(Go(t));
      Do(Go(t));
      if state.threads[t].pc.FlushEnq? {
        PushCarried(t, p);
      }
    }

    method PushCarried(t: nat, p: nat)
      requires Valid() && t < |state.threads| && p < |state.pools|
      requires state.threads[t].pc.FlushEnq? && state.threads[t].pc.pool == p && state.pools[p].size < WORD - 1
      modifies this
      ensures Valid()
      ensures var s := old(state); var pool := s.pools[p];
        && Moved(s, state, t, p, s.threads[t].(pc := FlushPop(p)),
                 pool.(queue := pool.queue + [s.threads[t].pc.buf], size := pool.size + 1))
        && SameHolders(s, state) && state.store == s.store
    {
      Do(Go(t));
      Do(Go(t));
    }

    // ---- acquire ----

    /** `acquire`: the cached buffer used last, else the oldest queued one, else a fresh one of this
        pool's size; the tier is counted, and nothing else changes. */
    method Acquire(t: nat, p: nat) returns (b: nat)
      requires Ready(t, p) && state.threads[t].alive
      modifies this
      ensures Ready(t, p) && state.handles == old(state).handles + [Handle(p, b)]
      ensures state.destroyed == old(state).destroyed && state.snapshots == old(state).snapshots
      ensures var s := old(state); var th := s.threads[t]; var c := th.cache;
        var pool := s.pools[p].(acquired := s.pools[p].acquired + 1);
        if c != [] then
          && b == c[|c| - 1] && state.store == s.store
          && Moved(s, state, t, p, th.(cache := c[..|c| - 1]), pool.(cacheHits := pool.cacheHits + 1))
        else if pool.queue != [] then
          && b == pool.queue[0] && state.store == s.store
          && Moved(s, state, t, p, th,
                   pool.(queue := pool.queue[1..], size := pool.size - 1, queueHits := pool.queueHits + 1))
        else
          && b == |s.store| && state.store == s.store + [New(pool.config.bufferSize)]
          && Moved(s, state, t, p, th, pool.(allocs := pool.allocs + 1))
    {
      Do(Start(t, Call.Acquire(p)));
      Do(Go(t));
      if !state.threads[t].pc.Idle? {
        MissCache(t, p);
      }
      b := state.handles[|state.handles| - 1].buf;
    }

    method MissCache(t: nat, p: nat)
      requires Valid() && t < |state.threads| && p < |state.pools| && state.threads[t].pc == AcqPop(p)
      requires state.pools[p].size == |state.pools[p].queue| < WORD
      modifies this
      ensures Valid() && state.destroyed == old(state).destroyed && state.snapshots == old(state).snapshots
      ensures var s := old(state); var th := s.threads[t].(pc := Idle); var pool := s.pools[p];
        if pool.queue != [] then
          && state.handles == s.handles + [Handle(p, pool.queue[0])] && state.store == s.store
          && Moved(s, state, t, p, th,
                   pool.(queue := pool.queue[1..], size := pool.size - 1, queueHits := pool.queueHits + 1))
        else
          && state.handles == s.handles + [Handle(p, |s.store|)]
          && state.store == s.store + [New(pool.config.bufferSize)]
          && Moved(s, state, t, p, th, pool.(allocs := pool.allocs + 1))
    {
      Do(Go(t));
      Do(Go(t));
    }

    // ---- drop ----

    /** The drop of a handle burns its buffer, then keeps it: in the cache while that holds fewer
        than 16, else behind the queue while that holds fewer than `max_pool_size`, else not at all.
        A thread whose cache is gone goes straight to the queue. Nothing else changes. */
    method Drop(t: nat, h: nat)
      requires h < |state.handles| && Ready(t, state.handles[h].pool)
      modifies this
      ensures var s := old(state); var Handle(p, b) := s.handles[h];
        var th := s.threads[t]; var pool := s.pools[p].(returned := s.pools[p].returned + 1);
        var cached := th.alive && |th.cache| < 16;
        var queued := !cached && |pool.queue| < pool.config.maxPool;
        && Ready(t, p) && b < |s.store|
        && Moved(s, state, t, p,
                 if cached then th.(cache := th.cache + [b]) else th,
                 if queued then pool.(queue := pool.queue + [b], size := pool.size + 1) else pool)
        && state.handles == Without(s.handles, h) && state.snapshots == s.snapshots
        && state.store == s.store[b := s.store[b].Burn()]
        && state.destroyed == s.destroyed + (if cached || queued then [] else [b])
    {
      Progress(threadCount, history, state);
      Do(Start(t, DropHandle(h)));
      Do(Go(t));
      if !state.threads[t].pc.Idle? {
        ReturnToQueue(t, state.threads[t].pc.pool);
      }
    }

    method ReturnToQueue(t: nat, p: nat)
      requires Valid() && t < |state.threads| && p < |state.pools|
      requires state.threads[t].pc.DropLen? && state.threads[t].pc.pool == p && Settled(state, p)
      modifies this
      ensures var s := old(state); var b := s.threads[t].pc.buf; var pool := s.pools[p];
        var room := |pool.queue| < pool.config.maxPool;
        && Valid()
        && Moved(s, state, t, p, s.threads[t].(pc := Idle),
                 if room then pool.(queue := pool.queue + [b], size := pool.size + 1) else pool)
        && state.destroyed == s.destroyed + (if room then [] else [b])
        && state.handles == s.handles && state.store == s.store && state.snapshots == s.snapshots
    {
      Do(Go(t));
      if !state.threads[t].pc.Idle? {
        Do(Go(t));
        Do(Go(t));
      }
    }

    // ---- stats ----

    /** Undisturbed, the five loads of `stats` show one moment, with the true queue length; the state
        is otherwise as it was. */
    method Stats(t: nat, p: nat)
      requires Ready(t, p)
      modifies this
      ensures Ready(t, p)
      ensures var pool := old(state).pools[p];
        state == old(state).(snapshots := old(state).snapshots +
                             [Snapshot(|pool.queue|, pool.allocs, pool.acquired, pool.returned, pool.cacheHits)])
    {
      hide Reaches;
      ghost var s := state;
      Do(Start(t, Call.Stats(p)));
      LoadCounters(t, p);
      Report(t, p);
      assert state.threads == s.threads;
    }

    method Report(t: nat, p: nat)
      requires Valid() && t < |state.threads| && p < |state.pools|
      requires state.threads[t].pc.StatsHits? && state.threads[t].pc.pool == p
      modifies this
      ensures Valid()
      ensures var s := old(state); var StatsHits(_, av, al, ac, re) := s.threads[t].pc;
        && state.threads == s.threads[t := s.threads[t].(pc := Idle)]
        && state == s.(threads := state.threads,
                       snapshots := s.snapshots + [Snapshot(av, al, ac, re, s.pools[p].cacheHits)])
    {
      hide Reaches;
      ghost var s := state;
      Do(Go(t));
      assert state.pools == s.pools;
    }

    method LoadCounters(t: nat, p: nat)
      requires Valid() && t < |state.threads| && p < |state.pools| && state.threads[t].pc == StatsLen(p)
      modifies this
      ensures Valid()
      ensures var s := old(state); var pool := s.pools[p];
        && state.threads == s.threads[t := s.threads[t].(pc :=
             StatsHits(p, pool.size, pool.allocs, pool.acquired, pool.returned))]
        && state == s.(threads := state.threads)
    {
      hide Reaches;
      ghost var s := state;
      LoadOne(t, p);
      LoadOne(t, p);
      LoadOne(t, p);
      LoadOne(t, p);
      assert state.threads == s.threads[t := s.threads[t].(pc := state.threads[t].pc)];
    }

    method LoadOne(t: nat, p: nat)
      requires Valid() && t < |state.threads| && p < |state.pools| && InStats(state.threads[t].pc)
      requires state.threads[t].pc.pool == p && !state.threads[t].pc.StatsHits?
      modifies this
      ensures Valid()
      ensures var s := old(state); var pc := s.threads[t].pc; var pool := s.pools[p];
        && state.threads == s.threads[t := s.threads[t].(pc :=
             match pc
             case StatsLen(_) => StatsAllocated(p, pool.size)
             case StatsAllocated(_, av) => StatsAcquired(p, av, pool.allocs)
             case StatsAcquired(_, av, al) => StatsReturned(p, av, al, pool.acquired)
             case StatsReturned(_, av, al, ac) => StatsHits(p, av, al, ac, pool.returned)
             case _ => pc)]
        && state == s.(threads := state.threads)
    {
      hide Reaches;
      ghost var s := state;
      Do(Go(t));
      assert state.pools == s.pools;
    }
  }

  // ---- how far the loops have come ----

  /** Thread `t`, now at `pc`, put `k` fresh buffers behind those in the queue of `p`, and changed
      nothing else. */
  ghost predicate Warmed(s0: State, s1: State, t: nat, p: nat, pc: Pc, k: nat) {
    && t < |s0.threads| && p < |s0.pools|
    && Moved(s0, s1, t, p, s0.threads[t].(pc := pc),
             s0.pools[p].(queue := s0.pools[p].queue + Range(|s0.store|, k), size := |s0.pools[p].queue| + k))
    && SameHolders(s0, s1)
    && s1.store == s0.store + NewBuffers(k, s0.pools[p].config.bufferSize)
  }

  lemma WarmedOnce(s0: State, s1: State, s2: State, t: nat, p: nat, left: nat, k: nat)
    requires left > 0 && Warmed(s0, s1, t, p, WarmNext(p, left), k) && Warmed(s1, s2, t, p, WarmNext(p, left - 1), 1)
    ensures Warmed(s0, s2, t, p, WarmNext(p, left - 1), k + 1)
  {
    var size := s0.pools[p].config.bufferSize;
    RangeSnoc(|s0.store|, k);
    assert Range(|s1.store|, 1) == [|s1.store|];
    assert NewBuffers(k + 1, size) == NewBuffers(k, size) + NewBuffers(1, size);
    assert s2.pools[p].queue == s0.pools[p].queue + Range(|s0.store|, k + 1);
  }

  /** Thread `t` is in the drain loop and has destroyed the first `k` buffers of the queue of `p`. */
  ghost predicate Drained(s0: State, s1: State, t: nat, p: nat, k: nat) {
    && t < |s0.threads| && p < |s0.pools| && k <= |s0.pools[p].queue|
    && Moved(s0, s1, t, p, s0.threads[t].(pc := ClearPop(p)),
             s0.pools[p].(queue := s0.pools[p].queue[k..], size := |s0.pools[p].queue| - k))
    && s1.handles == s0.handles && s1.snapshots == s0.snapshots && s1.store == s0.store
    && s1.destroyed == s0.destroyed + s0.pools[p].queue[..k]
  }

  /** Thread `t` is in the flush loop and has taken `done` buffers out of its cache. */
  ghost predicate FlushedTo(s0: State, s1: State, t: nat, p: nat, done: nat) {
    && t < |s0.threads| && p < |s0.pools| && done <= |s0.threads[t].cache|
    && var c := s0.threads[t].cache; var pool := s0.pools[p];
    var kept := Min(done, Room(pool.queue, pool.config.maxPool));
    && Moved(s0, s1, t, p, s0.threads[t].(cache := c[..|c| - done], pc := FlushPop(p)),
             pool.(queue := pool.queue + Reversed(c)[..kept], size := |pool.queue| + kept))
    && s1.destroyed == s0.destroyed + Reversed(c)[kept..done]
    && s1.store == Burned(s0.store, Reversed(c)[kept..done])
    && s1.handles == s0.handles && s1.snapshots == s0.snapshots
  }

  lemma FlushStart(s0: State, s1: State, t: nat, p: nat)
    requires t < |s0.threads| && p < |s0.pools| && s0.pools[p].size == |s0.pools[p].queue|
    requires s1 == s0.(threads := s0.threads[t := s0.threads[t].(pc := FlushPop(p))])
    ensures FlushedTo(s0, s1, t, p, 0)
  {
    var c := s0.threads[t].cache;
    assert c[..|c|] == c && Reversed(c)[..0] == [];
    assert Burned(s0.store, []) == s0.store;
  }

  /** One more buffer out of the cache: queued if there was room, else burned and destroyed. */
  ghost predicate FlushedLast(s1: State, s2: State, t: nat, p: nat) {
    && t < |s1.threads| && p < |s1.pools| && s1.threads[t].cache != []
    && var c := s1.threads[t].cache; var b := c[|c| - 1]; var pool := s1.pools[p];
    var room := pool.size < pool.config.maxPool;
    && b < |s1.store|
    && Moved(s1, s2, t, p, s1.threads[t].(cache := c[..|c| - 1]),
             if room then pool.(queue := pool.queue + [b], size := pool.size + 1) else pool)
    && s2.destroyed == s1.destroyed + (if room then [] else [b])
    && s2.store == (if room then s1.store else s1.store[b := s1.store[b].Burn()])
    && s2.handles == s1.handles && s2.snapshots == s1.snapshots
  }

  lemma FlushedOnce(s0: State, s1: State, s2: State, t: nat, p: nat, done: nat)
    requires t < |s0.threads| && p < |s0.pools| && done < |s0.threads[t].cache| && FlushedTo(s0, s1, t, p, done)
    requires FlushedLast(s1, s2, t, p)
    ensures FlushedTo(s0, s2, t, p, done + 1)
  {
    if done < Room(s0.pools[p].queue, s0.pools[p].config.maxPool) {
      FlushedKept(s0, s1, s2, t, p, done);
    } else {
      FlushedFreed(s0, s1, s2, t, p, done);
    }
  }

  lemma FlushedKept(s0: State, s1: State, s2: State, t: nat, p: nat, done: nat)
    requires t < |s0.threads| && p < |s0.pools| && done < |s0.threads[t].cache| && FlushedTo(s0, s1, t, p, done)
    requires FlushedLast(s1, s2, t, p) && done < Room(s0.pools[p].queue, s0.pools[p].config.maxPool)
    ensures FlushedTo(s0, s2, t, p, done + 1)
  {
    var c, r := s0.threads[t].cache, Reversed(s0.threads[t].cache);
    assert c[..|c| - done][..|c| - done - 1] == c[..|c| - (done + 1)];
    assert r[..done + 1] == r[..done] + [c[|c| - done - 1]];
    assert r[done + 1..done + 1] == r[done..done] == [];
  }

  lemma FlushedFreed(s0: State, s1: State, s2: State, t: nat, p: nat, done: nat)
    requires t < |s0.threads| && p < |s0.pools| && done < |s0.threads[t].cache| && FlushedTo(s0, s1, t, p, done)
    requires FlushedLast(s1, s2, t, p) && done >= Room(s0.pools[p].queue, s0.pools[p].config.maxPool)
    ensures FlushedTo(s0, s2, t, p, done + 1)
  {
    hide Burned;
    var c, r := s0.threads[t].cache, Reversed(s0.threads[t].cache);
    var room := Room(s0.pools[p].queue, s0.pools[p].config.maxPool);
    assert c[..|c| - done][..|c| - done - 1] == c[..|c| - (done + 1)];
    SliceSnoc(r, room, done);
    BurnedOnce(s0.store, r[room..done], r[done]);
  }

  lemma SliceSnoc(r: seq<nat>, from: nat, to: nat)
    requires from <= to < |r|
    ensures r[from..to + 1] == r[from..to] + [r[to]]
  {}

  lemma BurnedOnce(store: seq<Buf>, bs: seq<nat>, b: nat)
    requires b < |store|
    ensures Burned(store, bs + [b]) == Burned(store, bs)[b := Burned(store, bs)[b].Burn()]
  {}

  lemma {:induction false} RangeSnoc(first: nat, n: nat)
    ensures Range(first, n + 1) == Range(first, n) + [first + n]
    decreases n
  {
    if n > 0 { RangeSnoc(first + 1, n - 1); }
  }
}
