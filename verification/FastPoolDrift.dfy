/** How far the length counter drifts from the queue: exact bounds, the runs that attain them, and
    the exact condition under which the counter never wraps below zero. */
module FastPoolDrift {
  import opened Buffers
  import opened FastPool
  import opened PoolConfigs
  import opened FastPoolCounter
  import opened FastPoolBound
  import opened FastPoolReports
  import opened Sums

  // ---- the lower bound ----

  /** When every thread is between enqueuing and counting, the last buffer enqueued is still there:
      taking it out would put its taker into a pop. */
  ghost predicate LastPushStays(s: State) {
    forall p :: 0 <= p < |s.pools| ==> (AllPushing(s, p) ==> s.pools[p].queue != [])
  }

  ghost predicate AllPushing(s: State, p: nat) {
    forall t :: 0 <= t < |s.threads| ==> Pushing(p)(s.threads[t]) == 1
  }

  /** Only an enqueue makes a thread owe a count. */
  lemma PushingMeansEnqueued(pool: Pool, th: Thread, store: seq<Buf>, p: nat)
    requires Busy(th, store)
    requires var x := Access(pool, th, store); Pushing(p)(x.thread) == 1
    ensures th.pc.pool == p && Access(pool, th, store).pool.queue != []
  {
    AccessPool(pool, th, store);
    if InWarm(th.pc) { assert Access(pool, th, store) == WarmAccess(pool, th, store); }
    else if InDrop(th.pc) { assert Access(pool, th, store) == DropAccess(pool, th, store); }
    else if InFlush(th.pc) { assert Access(pool, th, store) == FlushAccess(pool, th, store); }
    else { NoPushElsewhere(pool, th, store, p); }
  }

  lemma NoPushElsewhere(pool: Pool, th: Thread, store: seq<Buf>, p: nat)
    requires InAcquire(th.pc) || InClear(th.pc) || InStats(th.pc)
    ensures Pushing(p)(Access(pool, th, store).thread) == 0
  {}

  lemma LastPushStaysKept(s: State, e: Event)
    requires LastPushStays(s) && PcsInRange(s) && |s.threads| > 0 && Enabled(s, e)
    ensures LastPushStays(Apply(s, e))
  {
    var s' := Apply(s, e);
    if e.Start? { StartFrame(s, e.t, e.call); }
    forall p | 0 <= p < |s'.pools| ensures AllPushing(s', p) ==> s'.pools[p].queue != [] {
      match e
      case NewPool(_) => if AllPushing(s', p) { SamePool(s, s', p); }
      case Start(t, _) => assert Pushing(p)(s'.threads[t]) == 0;
      case Go(t) =>
        if Pushing(p)(s'.threads[t]) == 1 {
          PushingMeansEnqueued(s.pools[s.threads[t].pc.pool], s.threads[t], s.store, p);
        }
    }
  }

  /** A pool that threads are pushing to has been there before. */
  lemma SamePool(s: State, s': State, p: nat)
    requires PcsInRange(s) && |s.threads| > 0 && s'.threads == s.threads && AllPushing(s', p)
    ensures p < |s.pools| && AllPushing(s, p)
  {
    assert Pushing(p)(s'.threads[0]) == 1 && PcInRange(s.threads[0].pc, |s.pools|);
  }

  lemma ReachedLastPushStays(threadCount: nat, es: seq<Event>, s: State)
    requires threadCount > 0 && Reaches(threadCount, es, s)
    ensures LastPushStays(s) && |s.threads| == threadCount
  {
    var inv := (s: State) => LastPushStays(s) && PcsInRange(s) && |s.threads| == threadCount;
    forall s, e | inv(s) && Enabled(s, e) ensures inv(Apply(s, e)) {
      LastPushStaysKept(s, e);
      PcsInRangeKept(s, e);
      ThreadsStay(s, e);
    }
    RunInvariant(threadCount, es, s, inv, _ => true);
  }

  lemma DriftAtLeast(s: State, p: nat)
    requires LastPushStays(s) && |s.threads| > 0 && p < |s.pools|
    ensures Unwrapped(s, p) >= 1 - |s.threads|
  {
    SumBounds(s.threads, Popping(p), 1);
    SumBounds(s.threads, Pushing(p), 1);
    if !AllPushing(s, p) {
      var t :| 0 <= t < |s.threads| && Pushing(p)(s.threads[t]) != 1;
      SumBoundsExcept(s.threads, t, Pushing(p), 1);
    }
  }

  /** At every step of every run the counter is |queue| + dequeued - enqueued in flight, mod 2^64, and
      the unwrapped value never falls below 1 - T. */
  lemma CounterDrift(threadCount: nat, es: seq<Event>, s: State, p: nat)
    requires threadCount > 0 && Reaches(threadCount, es, s) && p < |s.pools|
    ensures s.pools[p].size == (|s.pools[p].queue| + Sum(s.threads, Popping(p)) - Sum(s.threads, Pushing(p))) % WORD
    ensures Unwrapped(s, p) >= 1 - threadCount
  {
    ReachedLedger(threadCount, es, s);
    ReachedLastPushStays(threadCount, es, s);
    DriftAtLeast(s, p);
  }

  // ---- a run that attains it ----

  /** The machine word that stands for -n. */
  function Below(n: nat): nat {
    (0 - n) % WORD
  }

  lemma OneBelow(n: nat)
    ensures Dec(Below(n)) == Below(n + 1)
  {
    WrapInc(0 - n);
  }

  /** Pool 0 has room for one buffer and holds `queued`, none of them counted but `taken` counted out
      again; the first `k` threads have yet to count theirs, thread `k` stands at `pc`, the rest at the start. */
  ghost predicate Uncounted(s: State, threadCount: nat, k: nat, pc: Pc, queued: nat, taken: nat) {
    && |s.threads| == threadCount && |s.pools| == 1 && k <= threadCount && s.snapshots == []
    && |s.pools[0].queue| == queued && s.pools[0].size == Below(taken) && s.pools[0].config == Config(8, 1, 0)
    && (forall t :: 0 <= t < k ==> s.threads[t].pc == WarmAdd(0, 0))
    && (k < threadCount ==> s.threads[k] == Thread([], pc, true))
    && (forall t :: k < t < threadCount ==> s.threads[t] == Thread([], Idle, true))
  }

  lemma {:induction false} EnqueueUncounted(threadCount: nat, k: nat) returns (es: seq<Event>, s: State)
    requires k <= threadCount
    ensures Reaches(threadCount, es, s) && Uncounted(s, threadCount, k, Idle, k, 0)
  {
    if k == 0 {
      es, s := Play(threadCount, [], Init(threadCount), NewPool(Config(8, 1, 0)));
    } else {
      es, s := EnqueueUncounted(threadCount, k - 1);
      hide Below;
      assert Below(0) == 0;
      es, s := Play(threadCount, es, s, Start(k - 1, Warm(0, 1)));
      assert Uncounted(s, threadCount, k - 1, WarmLen(0, 1), k - 1, 0);
      es, s := Play(threadCount, es, s, Go(k - 1));
      es, s := EnqueueOne(threadCount, es, s, k - 1);
    }
  }

  lemma EnqueueOne(threadCount: nat, es: seq<Event>, s: State, t: nat) returns (es': seq<Event>, s': State)
    requires Reaches(threadCount, es, s) && t < threadCount && Uncounted(s, threadCount, t, WarmEnq(0, 1), t, 0)
    ensures Reaches(threadCount, es', s') && Uncounted(s', threadCount, t + 1, Idle, t + 1, 0)
  {
    hide Below, Reaches;
    es', s' := Play(threadCount, es, s, Go(t));
  }

  /** The idle thread `t` takes one of the uncounted buffers and counts it out. */
  lemma TakeUncounted(threadCount: nat, es: seq<Event>, s: State, t: nat, queued: nat, taken: nat)
    returns (es': seq<Event>, s': State)
    requires Reaches(threadCount, es, s) && t < threadCount && queued > 0
    requires Uncounted(s, threadCount, t, Idle, queued, taken)
    ensures Reaches(threadCount, es', s') && Uncounted(s', threadCount, t, Idle, queued - 1, taken + 1)
  {
    hide Below, Reaches;
    es', s' := Play(threadCount, es, s, Start(t, Acquire(0)));
    assert Uncounted(s', threadCount, t, AcqCache(0), queued, taken);
    es', s' := Play(threadCount, es', s', Go(t));
    var b := s'.pools[0].queue[0];
    es', s' := Play(threadCount, es', s', Go(t));
    es', s' := CountOut(threadCount, es', s', t, b, queued - 1, taken);
  }

  lemma CountOut(threadCount: nat, es: seq<Event>, s: State, t: nat, b: nat, queued: nat, taken: nat)
    returns (es': seq<Event>, s': State)
    requires Reaches(threadCount, es, s) && t < threadCount && Uncounted(s, threadCount, t, AcqSub(0, b), queued, taken)
    ensures Reaches(threadCount, es', s') && Uncounted(s', threadCount, t, Idle, queued, taken + 1)
  {
    hide Below, Reaches;
    OneBelow(taken);
    es', s' := Play(threadCount, es, s, Go(t));
  }

  lemma {:induction false} TakeAll(threadCount: nat, k: nat) returns (es: seq<Event>, s: State)
    requires k < threadCount
    ensures Reaches(threadCount, es, s) && Uncounted(s, threadCount, threadCount - 1, Idle, threadCount - 1 - k, k)
  {
    hide Below, Reaches;
    if k == 0 {
      es, s := EnqueueUncounted(threadCount, threadCount - 1);
    } else {
      es, s := TakeAll(threadCount, k - 1);
      es, s := TakeUncounted(threadCount, es, s, threadCount - 1, threadCount - k, k - 1);
    }
  }

  /** For every T > 0 the bound 1 - T is reached: T - 1 threads have enqueued but not counted, and the
      last has taken all their buffers and counted them out. The counter has wrapped below zero, the
      queue is empty, and 2^64 - (T - 1) is what `stats` reports as available. */
  lemma CounterWrapsBelowZero(threadCount: nat) returns (es: seq<Event>, s: State)
    requires threadCount > 0
    ensures Reaches(threadCount, es, s) && |s.pools| == 1
    ensures s.pools[0].queue == [] && Unwrapped(s, 0) == 1 - threadCount
    ensures s.pools[0].size == Below(threadCount - 1)
    ensures |s.snapshots| == 1 && s.snapshots[0].available == Below(threadCount - 1)
  {
    var t := threadCount - 1;
    es, s := TakeAll(threadCount, t);
    es, s := Play(threadCount, es, s, Start(t, Stats(0)));
    es, s := LoadNext(threadCount, es, s, t);
    es, s := FinishStats(threadCount, es, s, t, Below(threadCount - 1));
    AllUncounted(s, t);
  }

  lemma AllUncounted(s: State, k: nat)
    requires |s.threads| == k + 1 && |s.pools| == 1 && s.pools[0].queue == [] && s.threads[k].pc.Idle?
    requires forall t :: 0 <= t < k ==> s.threads[t].pc == WarmAdd(0, 0)
    ensures Unwrapped(s, 0) == 0 - k
  {
    SumZero(s.threads, Popping(0));
    SumSplit(s.threads, k, Pushing(0));
    SumOnes(s.threads[..k], Pushing(0));
    assert s.threads[k + 1..] == [];
  }

  /** In all runs of T threads the counter stays at or above zero if and only if T = 1. */
  lemma CounterNeverNegativeIffSolo(threadCount: nat)
    requires threadCount > 0
    ensures (forall es, s, p :: Reaches(threadCount, es, s) && 0 <= p < |s.pools| ==> Unwrapped(s, p) >= 0)
            <==> threadCount == 1
  {
    if threadCount == 1 {
      forall es, s, p | Reaches(threadCount, es, s) && 0 <= p < |s.pools| ensures Unwrapped(s, p) >= 0 {
        CounterDrift(threadCount, es, s, p);
      }
    } else {
      var es, s := CounterWrapsBelowZero(threadCount);
      assert Reaches(threadCount, es, s) && Unwrapped(s, 0) < 0;
    }
  }
}
