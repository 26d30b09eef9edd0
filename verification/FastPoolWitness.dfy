/** Runs that attain the bounds on the queue proved in `FastPoolBound`. */
module FastPoolWitness {
  import opened FastPool
  import opened PoolConfigs
  import opened Bytes
  import opened FastPoolBound

  predicate NoWarm(es: seq<Event>) {
    forall i :: 0 <= i < |es| ==> !IsWarm(es[i])
  }

  // ---- what a run consists of ----

  /** Every pool of the run has one of these configurations, and every `warm` a target below `n`. */
  predicate Shaped(es: seq<Event>, n: nat, configs: set<Config>) {
    forall i :: 0 <= i < |es| ==>
      (es[i].NewPool? ==> es[i].config in configs) && (IsWarm(es[i]) ==> es[i].call.target < n)
  }

  /** The configurations of pool 0 and of pool 1, which starts empty. */
  function Both(c: Config): set<Config> {
    {c, c.(minPool := 0)}
  }

  /** `es'` goes on from `es` without a new pool and without a `warm`. */
  predicate Extends(es: seq<Event>, es': seq<Event>) {
    es <= es' && forall i :: |es| <= i < |es'| ==> !es'[i].NewPool? && !IsWarm(es'[i])
  }

  lemma ShapeKept(es: seq<Event>, es': seq<Event>, n: nat, configs: set<Config>)
    requires Shaped(es, n, configs) && Extends(es, es')
    ensures Shaped(es', n, configs)
  {
    forall i | 0 <= i < |es'|
      ensures (es'[i].NewPool? ==> es'[i].config in configs) && (IsWarm(es'[i]) ==> es'[i].call.target < n)
    {
      if i < |es| { assert es'[i] == es[i]; }
    }
  }

  /** From `s0` to `s` only thread `t` moved, and pool 0 stayed as it was; pool 1 is empty. */
  ghost predicate Scenery(s0: State, s: State, t: nat, th: Thread, handles: seq<Handle>) {
    && t < |s0.threads| && s.threads == s0.threads[t := th] && s.handles == handles
    && |s0.pools| == |s.pools| == 2 && s.pools[0] == s0.pools[0] && s.pools[1].queue == []
    && |s0.store| <= |s.store|
  }

  ghost predicate Fresh(s: State, t: nat) {
    Scenery(s, s, t, Thread([], Idle, true), [])
  }

  // ---- carrying a buffer from pool 1 to pool 0 ----

  /** An idle thread acquires from the empty pool 1, drops into its cache, and starts flushing to pool 0. */
  lemma CarryOver(threadCount: nat, es: seq<Event>, s: State, t: nat) returns (es': seq<Event>, s': State, b: nat)
    requires Reaches(threadCount, es, s) && Fresh(s, t)
    ensures Reaches(threadCount, es', s') && Extends(es, es')
    ensures Scenery(s, s', t, Thread([], FlushLen(0, b), true), []) && b < |s'.store|
  {
    hide Reaches;
    es', s' := AcquireFresh(threadCount, es, s, t);
    es', s' := DropIntoCache(threadCount, es', s', s, t);
    b := |s'.store| - 1;
    es', s' := Play(threadCount, es', s', Start(t, ClearThreadCache(0)));
    assert Scenery(s, s', t, Thread([b], FlushPop(0), true), []);
    es', s' := Play(threadCount, es', s', Go(t));
  }

  lemma AcquireFresh(threadCount: nat, es: seq<Event>, s: State, t: nat) returns (es': seq<Event>, s': State)
    requires Reaches(threadCount, es, s) && Fresh(s, t)
    ensures Reaches(threadCount, es', s') && Extends(es, es') && |s'.store| > 0
    ensures Scenery(s, s', t, Thread([], Idle, true), [Handle(1, |s'.store| - 1)])
  {
    hide Reaches;
    es', s' := MissBoth(threadCount, es, s, t);
    es', s' := Play(threadCount, es', s', Go(t));
  }

  lemma MissBoth(threadCount: nat, es: seq<Event>, s: State, t: nat) returns (es': seq<Event>, s': State)
    requires Reaches(threadCount, es, s) && Fresh(s, t)
    ensures Reaches(threadCount, es', s') && Extends(es, es')
    ensures Scenery(s, s', t, Thread([], AcqAlloc(1), true), [])
  {
    es', s' := Play(threadCount, es, s, Start(t, Acquire(1)));
    assert Scenery(s, s', t, Thread([], AcqCache(1), true), []);
    es', s' := Play(threadCount, es', s', Go(t));
    assert Scenery(s, s', t, Thread([], AcqPop(1), true), []);
    es', s' := Play(threadCount, es', s', Go(t));
  }

  lemma DropIntoCache(threadCount: nat, es: seq<Event>, s: State, s0: State, t: nat)
    returns (es': seq<Event>, s': State)
    requires Reaches(threadCount, es, s) && |s.store| > 0
    requires Scenery(s0, s, t, Thread([], Idle, true), [Handle(1, |s.store| - 1)])
    ensures Reaches(threadCount, es', s') && Extends(es, es') && |s'.store| > 0
    ensures Scenery(s0, s', t, Thread([|s'.store| - 1], Idle, true), [])
  {
    es', s' := Play(threadCount, es, s, Start(t, DropHandle(0)));
    assert Scenery(s0, s', t, Thread([], DropCache(1, |s.store| - 1), true), []) && |s'.store| == |s.store|;
    es', s' := Play(threadCount, es', s', Go(t));
    assert s'.threads[t] == Thread([] + [|s'.store| - 1], Idle, true);
    assert [] + [|s'.store| - 1] == [|s'.store| - 1];
  }

  // ---- the bound on the queue, with and without warm ----

  /** The first `k` threads have seen pool 0 empty and owe it `owed` pushes each; all others are at
      their start; the queue and its counter agree on `queued`. */
  ghost predicate Owed(s: State, threadCount: nat, c: Config, k: nat, owed: nat, queued: nat) {
    && |s.threads| == threadCount && |s.pools| == 2 && k <= threadCount && s.handles == []
    && s.pools[0].size == |s.pools[0].queue| == queued && s.pools[0].config == c && s.pools[1].queue == []
    && (forall t :: 0 <= t < k ==> s.threads[t].pc == WarmNext(0, owed))
    && (forall t :: k <= t < threadCount ==> s.threads[t] == Thread([], Idle, true))
  }

  lemma TwoPools(threadCount: nat, c: Config) returns (es: seq<Event>, s: State)
    requires ConfigOk(c)
    ensures Reaches(threadCount, es, s) && Owed(s, threadCount, c, 0, 0, c.minPool) && Shaped(es, 0, Both(c))
  {
    es, s := Play(threadCount, [], Init(threadCount), NewPool(c));
    es, s := Play(threadCount, es, s, NewPool(c.(minPool := 0)));
  }

  /** Thread 0 clears pool 0, which still holds what it was created with. */
  lemma ClearFirst(threadCount: nat, es: seq<Event>, s: State, c: Config) returns (es': seq<Event>, s': State)
    requires Reaches(threadCount, es, s) && threadCount > 0 && ConfigOk(c)
    requires Owed(s, threadCount, c, 0, 0, c.minPool) && Shaped(es, 0, Both(c))
    ensures Reaches(threadCount, es', s') && Owed(s', threadCount, c, 0, 0, 0) && Shaped(es', 0, Both(c))
  {
    es', s' := Play(threadCount, es, s, Start(0, Clear(0)));
    assert s'.threads == s.threads[0 := Thread([], ClearPop(0), true)] && s'.pools == s.pools;
    es', s' := DrainAll(threadCount, es', s', c.minPool);
    es', s' := Play(threadCount, es', s', Go(0));
    ShapeKept(es, es', 0, Both(c));
  }

  lemma {:induction false} DrainAll(threadCount: nat, es: seq<Event>, s: State, left: nat)
    returns (es': seq<Event>, s': State)
    requires Reaches(threadCount, es, s) && |s.threads| > 0 && |s.pools| == 2
    requires s.threads[0] == Thread([], ClearPop(0), true) && s.pools[0].size == |s.pools[0].queue| == left
    ensures Reaches(threadCount, es', s') && Extends(es, es')
    ensures s'.threads == s.threads && s'.handles == s.handles && |s'.pools| == 2 && s'.pools[1] == s.pools[1]
    ensures s'.pools[0].size == |s'.pools[0].queue| == 0 && s'.pools[0].config == s.pools[0].config
    decreases left
  {
    hide Reaches;
    es', s' := es, s;
    if left > 0 {
      es', s' := DrainOne(threadCount, es, s);
      es', s' := DrainAll(threadCount, es', s', left - 1);
    }
  }

  lemma DrainOne(threadCount: nat, es: seq<Event>, s: State) returns (es': seq<Event>, s': State)
    requires Reaches(threadCount, es, s) && |s.threads| > 0 && |s.pools| == 2
    requires s.threads[0] == Thread([], ClearPop(0), true) && s.pools[0].size == |s.pools[0].queue| > 0
    ensures Reaches(threadCount, es', s') && Extends(es, es')
    ensures s'.threads == s.threads && s'.handles == s.handles && |s'.pools| == 2 && s'.pools[1] == s.pools[1]
    ensures s'.pools[0].size == |s'.pools[0].queue| == |s.pools[0].queue| - 1 && s'.pools[0].config == s.pools[0].config
  {
    hide Reaches;
    var b := s.pools[0].queue[0];
    es', s' := Play(threadCount, es, s, Go(0));
    assert s'.threads == s.threads[0 := Thread([], ClearSub(0, b), true)];
    es', s' := Play(threadCount, es', s', Go(0));
    assert s'.threads == s.threads;
  }

  lemma {:induction false} OweAll(threadCount: nat, c: Config, w: nat, k: nat) returns (es: seq<Event>, s: State)
    requires k <= threadCount && threadCount > 0 && ConfigOk(c) && w < WORD
    ensures Reaches(threadCount, es, s) && Owed(s, threadCount, c, k, MostOwed(c, w), 0) && Shaped(es, w + 1, Both(c))
  {
    hide Reaches;
    if k == 0 {
      es, s := TwoPools(threadCount, c);
      es, s := ClearFirst(threadCount, es, s, c);
    } else {
      es, s := OweAll(threadCount, c, w, k - 1);
      var t := k - 1;
      var s0 := s;
      es, s := Play(threadCount, es, s, Start(t, Warm(0, w)));
      assert Scenery(s0, s, t, Thread([], WarmLen(0, w), true), []);
      es, s := Play(threadCount, es, s, Go(t));
    }
  }

  /** The last thread sees room until the queue holds `max_pool_size`, since nobody counts the rest. */
  lemma {:induction false} FillUp(threadCount: nat, c: Config, w: nat, n: nat) returns (es: seq<Event>, s: State)
    requires threadCount > 0 && ConfigOk(c) && w < WORD && n <= c.maxPool
    ensures Reaches(threadCount, es, s) && Owed(s, threadCount, c, threadCount - 1, MostOwed(c, w), n)
    ensures Shaped(es, w + 1, Both(c))
  {
    var t := threadCount - 1;
    if n == 0 {
      es, s := OweAll(threadCount, c, w, t);
    } else {
      es, s := FillUp(threadCount, c, w, n - 1);
      var es0, s0, b := es, s, 0;
      es, s, b := CarryOver(threadCount, es, s, t);
      es, s := FlushInto(threadCount, es, s, t, b);
      ShapeKept(es0, es, w + 1, Both(c));
    }
  }

  /** A thread that is about to test pool 0 and finds room pushes its buffer and ends its flush. */
  lemma FlushInto(threadCount: nat, es: seq<Event>, s: State, t: nat, b: nat) returns (es': seq<Event>, s': State)
    requires Reaches(threadCount, es, s) && t < |s.threads| && |s.pools| == 2
    requires s.threads[t] == Thread([], FlushLen(0, b), true) && b < |s.store|
    requires s.pools[0].size < s.pools[0].config.maxPool < WORD
    ensures Reaches(threadCount, es', s') && Extends(es, es')
    ensures s'.threads == s.threads[t := Thread([], Idle, true)] && s'.handles == s.handles
    ensures |s'.pools| == 2 && s'.pools[1] == s.pools[1]
    ensures s'.pools[0] == s.pools[0].(queue := s.pools[0].queue + [b], size := s.pools[0].size + 1)
  {
    es', s' := Play(threadCount, es, s, Go(t));
    assert s'.threads == s.threads[t := Thread([], FlushEnq(0, b), true)] && s'.pools == s.pools;
    es', s' := Play(threadCount, es', s', Go(t));
    es', s' := CountFlush(threadCount, es', s', t);
  }

  lemma CountFlush(threadCount: nat, es: seq<Event>, s: State, t: nat) returns (es': seq<Event>, s': State)
    requires Reaches(threadCount, es, s) && t < |s.threads| && |s.pools| == 2
    requires s.threads[t] == Thread([], FlushAdd(0), true)
    ensures Reaches(threadCount, es', s') && Extends(es, es')
    ensures s'.threads == s.threads[t := Thread([], Idle, true)] && s'.handles == s.handles
    ensures |s'.pools| == 2 && s'.pools[1] == s.pools[1]
    ensures s'.pools[0] == s.pools[0].(size := Inc(s.pools[0].size))
  {
    es', s' := Play(threadCount, es, s, Go(t));
    assert s'.threads == s.threads[t := Thread([], FlushPop(0), true)] && s'.pools[1] == s.pools[1];
    es', s' := Play(threadCount, es', s', Go(t));
  }

  /** Thread `t` finishes its `left` pushes, whatever the counter says by now. */
  lemma {:induction false} PushRest(threadCount: nat, es: seq<Event>, s: State, t: nat, left: nat)
    returns (es': seq<Event>, s': State)
    requires Reaches(threadCount, es, s) && t < |s.threads| && |s.pools| == 2
    requires s.threads[t].pc == WarmNext(0, left)
    ensures Reaches(threadCount, es', s') && Extends(es, es')
    ensures s'.threads == s.threads[t := s.threads[t].(pc := Idle)]
    ensures |s'.pools| == 2 && s'.pools[0].config == s.pools[0].config
    ensures |s'.pools[0].queue| == |s.pools[0].queue| + left
    decreases left
  {
    hide Reaches;
    es', s' := es, s;
    if left > 0 {
      es', s' := Play(threadCount, es', s', Go(t));
      assert s'.threads == s.threads[t := s.threads[t].(pc := WarmAdd(0, left - 1))];
      es', s' := Play(threadCount, es', s', Go(t));
      assert s'.threads == s.threads[t := s.threads[t].(pc := WarmNext(0, left - 1))];
      es', s' := PushRest(threadCount, es', s', t, left - 1);
    }
  }

  /** The first `k` threads are done; those from `k` to the last still owe their pushes. */
  ghost predicate Settling(s: State, threadCount: nat, c: Config, k: nat, owed: nat, queued: nat) {
    && |s.threads| == threadCount && |s.pools| == 2 && k < threadCount
    && |s.pools[0].queue| == queued && s.pools[0].config == c
    && (forall t :: 0 <= t < k ==> s.threads[t].pc.Idle?)
    && (forall t :: k <= t < threadCount - 1 ==> s.threads[t].pc == WarmNext(0, owed))
    && s.threads[threadCount - 1].pc.Idle?
  }

  /** What is queued when `k` of the threads have paid. */
  function Paid(c: Config, w: nat, k: nat): nat {
    c.maxPool + k * MostOwed(c, w)
  }

  lemma PaidNext(c: Config, w: nat, k: nat)
    ensures Paid(c, w, 0) == c.maxPool && Paid(c, w, k) + MostOwed(c, w) == Paid(c, w, k + 1)
  {
    assert (k + 1) * MostOwed(c, w) == k * MostOwed(c, w) + MostOwed(c, w);
  }

  lemma {:induction false} SettleAll(threadCount: nat, c: Config, w: nat, k: nat) returns (es: seq<Event>, s: State)
    requires k < threadCount && ConfigOk(c) && w < WORD
    ensures Reaches(threadCount, es, s) && Shaped(es, w + 1, Both(c))
    ensures Settling(s, threadCount, c, k, MostOwed(c, w), Paid(c, w, k))
  {
    hide Paid, Reaches;
    if k == 0 {
      es, s := FillUp(threadCount, c, w, c.maxPool);
      PaidNext(c, w, 0);
    } else {
      es, s := SettleAll(threadCount, c, w, k - 1);
      var es0 := es;
      es, s := PushRest(threadCount, es, s, k - 1, MostOwed(c, w));
      ShapeKept(es0, es, w + 1, Both(c));
      PaidNext(c, w, k - 1);
    }
  }

  ghost predicate AllIdle(s: State) {
    forall t :: 0 <= t < |s.threads| ==> s.threads[t].pc.Idle?
  }

  lemma ShapeFits(threadCount: nat, es: seq<Event>, c: Config, w: nat)
    requires threadCount > 0 && Shaped(es, w + 1, Both(c)) && Bound(c, threadCount, w) < WORD
    ensures AllFit(es, threadCount, w)
  {
    forall i | 0 <= i < |es| ensures Fits(es[i], threadCount, w) {
      assert es[i].NewPool? ==> es[i].config in Both(c);
      assert es[i].Start? ==> (es[i].call.Warm? <==> IsWarm(es[i]));
    }
  }

  /** For all T, all configurations and all w, the bound of `QueueBound` is reached, by a run that it
      admits - and since nothing trims the queue, the excess is still there when all threads are idle. */
  lemma QueueBoundAttained(threadCount: nat, c: Config, w: nat) returns (es: seq<Event>, s: State)
    requires threadCount > 0 && ConfigOk(c) && w < WORD
    ensures Reaches(threadCount, es, s) && AllIdle(s) && |s.pools| == 2 && s.pools[0].config == c
    ensures |s.pools[0].queue| == Bound(c, threadCount, w)
    ensures Bound(c, threadCount, w) < WORD ==> AllFit(es, threadCount, w)
  {
    if Paid(c, w, threadCount - 1) <= c.minPool {
      es, s := TwoPools(threadCount, c);
    } else {
      es, s := SettleAll(threadCount, c, w, threadCount - 1);
    }
    if Bound(c, threadCount, w) < WORD {
      ShapeFits(threadCount, es, c, w);
    }
  }

  /** In particular T concurrent `warm` calls can fill the queue to T * max_pool_size. */
  lemma WarmBoundAttained(threadCount: nat, c: Config) returns (es: seq<Event>, s: State)
    requires threadCount > 0 && ConfigOk(c)
    ensures Reaches(threadCount, es, s) && AllIdle(s) && |s.pools| == 2 && s.pools[0].config == c
    ensures |s.pools[0].queue| == Max(c.minPool, threadCount * c.maxPool)
  {
    es, s := QueueBoundAttained(threadCount, c, WORD - 1);
    assert c.maxPool + (threadCount - 1) * c.maxPool == threadCount * c.maxPool;
  }

  // ---- T concurrent cache flushes, no warm ----

  /** Pool 0 holds `queued`; the first `k` threads carry a buffer and are about to test it for room. */
  ghost predicate Gathered(s: State, threadCount: nat, c: Config, k: nat) {
    && |s.threads| == threadCount && |s.pools| == 2 && k <= threadCount && s.handles == []
    && s.pools[0].size == |s.pools[0].queue| == c.minPool && s.pools[0].config == c && s.pools[1].queue == []
    && (forall t :: 0 <= t < k ==> CarriesToFlush(s.threads[t]) && s.threads[t].pc.buf < |s.store|)
    && (forall t :: k <= t < threadCount ==> s.threads[t] == Thread([], Idle, true))
  }

  predicate CarriesToFlush(th: Thread) {
    th.pc.FlushLen? && th.pc.pool == 0 && th.cache == [] && th.alive
  }

  lemma {:induction false} Gather(threadCount: nat, c: Config, k: nat) returns (es: seq<Event>, s: State)
    requires k <= threadCount && ConfigOk(c)
    ensures Reaches(threadCount, es, s) && Gathered(s, threadCount, c, k) && Shaped(es, 0, Both(c))
  {
    if k == 0 {
      es, s := TwoPools(threadCount, c);
    } else {
      es, s := Gather(threadCount, c, k - 1);
      var es0, b := es, 0;
      es, s, b := CarryOver(threadCount, es, s, k - 1);
      ShapeKept(es0, es, 0, Both(c));
    }
  }

  /** The threads before `i` are done, those before `j` have enqueued, those before `k` have seen room. */
  ghost predicate Flushing(s: State, threadCount: nat, c: Config, i: nat, j: nat, k: nat) {
    && |s.threads| == threadCount && |s.pools| == 2 && i <= j <= k <= threadCount
    && (i == j == 0 ==> s.pools[0].size == c.minPool) && s.pools[0].config == c
    && |s.pools[0].queue| == c.minPool + j
    && (forall t :: 0 <= t < i ==> s.threads[t].pc.Idle?)
    && (forall t :: i <= t < j ==> s.threads[t] == Thread([], FlushAdd(0), true))
    && (forall t :: j <= t < k ==>
          s.threads[t].pc.FlushEnq? && s.threads[t] == Thread([], FlushEnq(0, s.threads[t].pc.buf), true))
    && (forall t :: k <= t < threadCount ==> CarriesToFlush(s.threads[t]) && s.threads[t].pc.buf < |s.store|)
  }

  lemma {:induction false} TestAll(threadCount: nat, c: Config, k: nat) returns (es: seq<Event>, s: State)
    requires k <= threadCount && ConfigOk(c) && c.minPool < c.maxPool
    ensures Reaches(threadCount, es, s) && Flushing(s, threadCount, c, 0, 0, k) && Shaped(es, 0, Both(c))
  {
    if k == 0 {
      es, s := Gather(threadCount, c, threadCount);
    } else {
      es, s := TestAll(threadCount, c, k - 1);
      es, s := Play(threadCount, es, s, Go(k - 1));
    }
  }

  lemma {:induction false} EnqueueAll(threadCount: nat, c: Config, j: nat) returns (es: seq<Event>, s: State)
    requires j <= threadCount && ConfigOk(c) && c.minPool < c.maxPool
    ensures Reaches(threadCount, es, s) && Flushing(s, threadCount, c, 0, j, threadCount)
    ensures Shaped(es, 0, Both(c))
  {
    if j == 0 {
      es, s := TestAll(threadCount, c, threadCount);
    } else {
      es, s := EnqueueAll(threadCount, c, j - 1);
      es, s := Play(threadCount, es, s, Go(j - 1));
    }
  }

  lemma {:induction false} FinishAll(threadCount: nat, c: Config, i: nat) returns (es: seq<Event>, s: State)
    requires i <= threadCount && ConfigOk(c) && c.minPool < c.maxPool
    ensures Reaches(threadCount, es, s) && Flushing(s, threadCount, c, i, threadCount, threadCount)
    ensures Shaped(es, 0, Both(c))
  {
    if i == 0 {
      es, s := EnqueueAll(threadCount, c, threadCount);
    } else {
      es, s := FinishAll(threadCount, c, i - 1);
      var es0 := es;
      es, s := CountFlush(threadCount, es, s, i - 1);
      ShapeKept(es0, es, 0, Both(c));
    }
  }

  /** For all T and max_pool_size > 0, without any `warm`, the queue can reach max_pool_size + T - 1:
      T threads flush buffers of another pool into one that is a single buffer short of full. The
      overshoot is not transient: it is still there when every thread is idle again. */
  lemma OvershootAttained(threadCount: nat, max: nat) returns (es: seq<Event>, s: State)
    requires threadCount > 0 && 0 < max < WORD
    ensures Reaches(threadCount, es, s) && NoWarm(es) && AllIdle(s) && |s.pools| == 2
    ensures s.pools[0].config.maxPool == max && s.pools[0].config.minPool < max
    ensures |s.pools[0].queue| == max + threadCount - 1
  {
    var c := Config(8, max, max - 1);
    es, s := FinishAll(threadCount, c, threadCount);
    assert Shaped(es, 0, Both(c));
  }

  /** In all runs of T threads without `warm`, a pool is within its size limits whenever all threads are
      idle, if and only if T = 1. */
  lemma NoLastingOvershootIffSolo(threadCount: nat)
    requires threadCount > 0
    ensures (forall es, s, p ::
               Reaches(threadCount, es, s) && NoWarm(es) && AllIdle(s) && 0 <= p < |s.pools|
               ==> |s.pools[p].queue| <= Max(s.pools[p].config.minPool, s.pools[p].config.maxPool))
            <==> threadCount == 1
  {
    if threadCount == 1 {
      forall es, s, p | Reaches(threadCount, es, s) && NoWarm(es) && AllIdle(s) && 0 <= p < |s.pools|
        ensures |s.pools[p].queue| <= Max(s.pools[p].config.minPool, s.pools[p].config.maxPool)
      {
        SoloWithinLimits(es, s, p);
      }
    } else {
      var es, s := OvershootAttained(threadCount, 1);
      assert |s.pools[0].queue| > Max(s.pools[0].config.minPool, s.pools[0].config.maxPool);
    }
  }

  lemma SoloWithinLimits(es: seq<Event>, s: State, p: nat)
    requires Reaches(1, es, s) && NoWarm(es) && p < |s.pools|
    ensures |s.pools[p].queue| <= Max(s.pools[p].config.minPool, s.pools[p].config.maxPool)
  {
    forall i | 0 <= i < |es| && es[i].NewPool? ensures es[i].config.maxPool <= WORD - 1 {
      RunArguments(1, es, s, i);
    }
    OvershootWithoutWarm(1, es, s, p);
  }
}
