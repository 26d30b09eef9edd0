/** How far the global queue can exceed `max_pool_size`, in any interleaving. */
module FastPoolBound {
  import opened Bytes
  import opened Buffers
  import opened FastPool
  import opened PoolConfigs
  import opened FastPoolCounter
  import opened Runs
  import opened Sums

  /** The most pushes a single thread can owe a pool when no `warm` asks for more than `w`. */
  function MostOwed(c: Config, w: nat): nat {
    Min(w, c.maxPool)
  }

  /** With T threads: the last tester sees room for `max_pool_size` in all, the others overshoot. */
  function Bound(c: Config, threadCount: nat, w: nat): nat
    requires threadCount > 0
  {
    Max(c.minPool, c.maxPool + (threadCount - 1) * MostOwed(c, w))
  }

  /** The run's `warm` targets are at most `w`, and the bound of every pool fits a machine word. */
  predicate Fits(e: Event, threadCount: nat, w: nat)
    requires threadCount > 0
  {
    match e
    case NewPool(c) => Bound(c, threadCount, w) < WORD
    case Start(_, call) => call.Warm? ==> call.target <= w
    case Go(_) => true
  }

  predicate AllFit(es: seq<Event>, threadCount: nat, w: nat)
    requires threadCount > 0
  {
    forall i :: 0 <= i < |es| ==> Fits(es[i], threadCount, w)
  }

  ghost predicate OwesAtMost(th: Thread, p: nat, c: Config, w: nat) {
    Owing(p)(th) <= MostOwed(c, w)
  }

  /** The counter a size test would read if it never wrapped, plus every push still to be counted. */
  ghost predicate PoolBounded(s: State, p: nat, w: nat)
    requires p < |s.pools| && |s.threads| > 0
  {
    var c := s.pools[p].config;
    && Unwrapped(s, p) + Sum(s.threads, Owing(p)) <= Bound(c, |s.threads|, w) < WORD
    && forall t :: 0 <= t < |s.threads| ==> OwesAtMost(s.threads[t], p, c, w)
  }

  ghost predicate WarmTargetsSmall(s: State, w: nat) {
    forall t :: 0 <= t < |s.threads| ==> s.threads[t].pc.WarmLen? ==> s.threads[t].pc.target <= w
  }

  ghost predicate Bounded(s: State, w: nat)
    requires |s.threads| > 0
  {
    && CounterLedger(s)
    && WarmTargetsSmall(s, w)
    && forall p :: 0 <= p < |s.pools| ==> PoolBounded(s, p, w)
  }

  // ---- sums of the in-flight measures ----

  lemma {:induction false} PushingWithinOwing(threads: seq<Thread>, p: nat)
    ensures 0 <= Sum(threads, Pushing(p)) <= Sum(threads, Owing(p))
  {
    if threads != [] {
      PushingWithinOwing(threads[1..], p);
    }
  }

  /** Neither wrapping below zero nor lagging behind can hide more than the other threads' pushes. */
  lemma UnwrappedRange(s: State, p: nat)
    requires p < |s.pools|
    ensures Unwrapped(s, p) >= |s.pools[p].queue| - Sum(s.threads, Pushing(p))
    ensures Unwrapped(s, p) + Sum(s.threads, Owing(p)) >= |s.pools[p].queue|
  {
    SumBounds(s.threads, Popping(p), 1);
    PushingWithinOwing(s.threads, p);
  }

  /** What the other threads owe and have pending, seen by a thread `t` that owes nothing. */
  lemma OthersOwe(s: State, p: nat, t: nat, top: nat)
    requires t < |s.threads|
    requires forall i :: 0 <= i < |s.threads| ==> 0 <= Owing(p)(s.threads[i]) <= top
    requires Owing(p)(s.threads[t]) == 0
    ensures Sum(s.threads, Owing(p)) <= (|s.threads| - 1) * top
    ensures 0 <= Sum(s.threads, Pushing(p)) <= |s.threads| - 1
  {
    SumBoundsExcept(s.threads, t, Owing(p), top);
    SumBoundsExcept(s.threads, t, Pushing(p), 1);
  }

  // ---- one step ----

  predicate IsTest(pc: Pc) {
    pc.DropLen? || pc.FlushLen? || pc.WarmLen?
  }

  /** A size test makes a thread owe no more than the room it saw. */
  lemma TestOwes(pool: Pool, th: Thread, store: seq<Buf>, w: nat)
    requires IsTest(th.pc) && (th.pc.FlushLen? ==> th.pc.buf < |store|) && w > 0
    requires th.pc.WarmLen? ==> th.pc.target <= w
    ensures var p := th.pc.pool; var x := Access(pool, th, store);
      var owes := Owing(p)(x.thread);
      && 0 <= owes <= MostOwed(pool.config, w) && x.pool == pool
      && Owing(p)(th) == Popping(p)(th) == Pushing(p)(th) == Popping(p)(x.thread) == Pushing(p)(x.thread) == 0
      && (owes == 0 || pool.size + owes <= pool.config.maxPool)
      && !x.thread.pc.WarmLen?
  {}

  /** Any other access pays off what it adds to the unwrapped counter. */
  ghost predicate Pays(pool: Pool, th: Thread, x: Effect, p: nat) {
    && 0 <= Owing(p)(x.thread) <= Owing(p)(th)
    && |x.pool.queue| + Popping(p)(x.thread) - Pushing(p)(x.thread) + Owing(p)(x.thread)
       <= |pool.queue| + Popping(p)(th) - Pushing(p)(th) + Owing(p)(th)
    && !x.thread.pc.WarmLen?
  }

  lemma PushPays(pool: Pool, th: Thread, store: seq<Buf>)
    requires InPush(th.pc) && (th.pc.WarmEnq? ==> th.pc.left > 0)
    ensures Pays(pool, th, Access(pool, th, store), th.pc.pool)
  {}

  lemma NonPushPays(pool: Pool, th: Thread, store: seq<Buf>)
    requires !th.pc.Idle? && !IsTest(th.pc) && !InPush(th.pc)
    ensures Pays(pool, th, Access(pool, th, store), th.pc.pool)
  {}

  lemma AccessPays(pool: Pool, th: Thread, store: seq<Buf>)
    requires !th.pc.Idle? && !IsTest(th.pc)
    requires th.pc.WarmEnq? ==> th.pc.left > 0
    ensures Pays(pool, th, Access(pool, th, store), th.pc.pool)
  {
    if InPush(th.pc) { PushPays(pool, th, store); } else { NonPushPays(pool, th, store); }
  }

  /** A size test that succeeds: the counter it read cannot have wrapped. */
  lemma TestSeesCounter(s: State, p: nat, t: nat, w: nat)
    requires |s.threads| > 0 && w > 0 && Bounded(s, w) && p < |s.pools| && t < |s.threads|
    requires Owing(p)(s.threads[t]) == 0 && s.pools[p].size < s.pools[p].config.maxPool
    ensures Unwrapped(s, p) == s.pools[p].size
    ensures Sum(s.threads, Owing(p)) <= (|s.threads| - 1) * MostOwed(s.pools[p].config, w)
  {
    var c := s.pools[p].config;
    var top := MostOwed(c, w);
    assert PoolBounded(s, p, w);
    forall i | 0 <= i < |s.threads| ensures Owing(p)(s.threads[i]) <= top {
      assert OwesAtMost(s.threads[i], p, c, w);
      assert PcInRange(s.threads[i].pc, |s.pools|);
    }
    OthersOwe(s, p, t, top);
    UnwrappedRange(s, p);
    PushingWithinOwing(s.threads, p);
    assert (|s.threads| - 1) * top >= |s.threads| - 1 by { Grows(|s.threads| - 1, top); }
  }

  lemma Grows(n: nat, k: nat)
    requires k > 0
    ensures n * k >= n
  {}

  lemma AccessKeepsBound(s: State, t: nat, w: nat)
    requires |s.threads| > 0 && w > 0 && Bounded(s, w) && Enabled(s, Go(t))
    ensures var p := s.threads[t].pc.pool; PoolBounded(Advance(s, t), p, w)
  {
    hide Access;
    var th := s.threads[t];
    var p := th.pc.pool;
    var pool := s.pools[p];
    var s' := Advance(s, t);
    assert PoolBounded(s, p, w) && OwesAtMost(th, p, pool.config, w);
    assert PcInRange(th.pc, |s.pools|);
    AccessPool(pool, th, s.store);
    if IsTest(th.pc) { TestOwes(pool, th, s.store, w); } else { AccessPays(pool, th, s.store); }
    SumsAfter(s, Go(t), Popping(p));
    SumsAfter(s, Go(t), Pushing(p));
    SumsAfter(s, Go(t), Owing(p));
    if IsTest(th.pc) && Owing(p)(s'.threads[t]) > 0 {
      TestSeesCounter(s, p, t, w);
    }
    forall i | 0 <= i < |s'.threads| ensures OwesAtMost(s'.threads[i], p, pool.config, w) {
      assert OwesAtMost(s.threads[i], p, pool.config, w);
    }
  }

  lemma OtherPoolsKeepBound(s: State, t: nat, w: nat, p: nat)
    requires |s.threads| > 0 && Bounded(s, w) && Enabled(s, Go(t)) && p < |s.pools| && p != s.threads[t].pc.pool
    ensures PoolBounded(Advance(s, t), p, w)
  {
    assert PoolBounded(s, p, w);
    OwedElsewhere(s.pools[s.threads[t].pc.pool], s.threads[t], s.store, p);
    SumsAfter(s, Go(t), Popping(p));
    SumsAfter(s, Go(t), Pushing(p));
    SumsAfter(s, Go(t), Owing(p));
    forall i | 0 <= i < |s.threads| ensures OwesAtMost(Advance(s, t).threads[i], p, s.pools[p].config, w) {
      assert OwesAtMost(s.threads[i], p, s.pools[p].config, w);
    }
  }

  lemma StartKeepsBound(s: State, t: nat, call: Call, w: nat, p: nat)
    requires |s.threads| > 0 && Bounded(s, w) && Enabled(s, Start(t, call)) && p < |s.pools|
    ensures PoolBounded(Begin(s, t, call), p, w)
  {
    assert PoolBounded(s, p, w);
    StartFrame(s, t, call);
    UnwrappedAfterStart(s, t, call, p);
    SumsAfter(s, Start(t, call), Owing(p));
    forall i | 0 <= i < |s.threads| ensures OwesAtMost(Begin(s, t, call).threads[i], p, s.pools[p].config, w) {
      assert OwesAtMost(s.threads[i], p, s.pools[p].config, w);
    }
  }

  lemma NewPoolKeepsBound(s: State, c: Config, w: nat, p: nat)
    requires |s.threads| > 0 && Bounded(s, w) && Enabled(s, NewPool(c)) && Fits(NewPool(c), |s.threads|, w)
    requires p <= |s.pools|
    ensures PoolBounded(Apply(s, NewPool(c)), p, w)
  {
    UnwrappedAfter(s, NewPool(c), p);
    if p < |s.pools| {
      assert PoolBounded(s, p, w);
    } else {
      forall t | 0 <= t < |s.threads| ensures Owing(p)(s.threads[t]) == 0 {
        assert PcInRange(s.threads[t].pc, |s.pools|);
      }
      SumZero(s.threads, Owing(p));
    }
  }

  lemma WarmTargetsKept(s: State, e: Event, w: nat)
    requires |s.threads| > 0 && w > 0 && Bounded(s, w) && Enabled(s, e) && Fits(e, |s.threads|, w)
    ensures WarmTargetsSmall(Apply(s, e), w)
  {
    match e
    case NewPool(_) =>
    case Start(t, call) => StartWarm(s, t, call);
    case Go(t) =>
      var th := s.threads[t];
      assert PcInRange(th.pc, |s.pools|);
      var pool := s.pools[th.pc.pool];
      if IsTest(th.pc) { TestOwes(pool, th, s.store, w); } else { AccessPays(pool, th, s.store); }
  }

  lemma StartWarm(s: State, t: nat, call: Call)
    requires Enabled(s, Start(t, call))
    ensures var s' := Begin(s, t, call);
      |s'.threads| == |s.threads| && s'.threads == s.threads[t := s'.threads[t]]
      && (s'.threads[t].pc.WarmLen? ==> call.Warm? && s'.threads[t].pc.target == call.target)
  {}

  lemma BoundedKept(s: State, e: Event, w: nat)
    requires |s.threads| > 0 && w > 0 && Bounded(s, w) && Enabled(s, e) && Fits(e, |s.threads|, w)
    ensures |Apply(s, e).threads| == |s.threads| && Bounded(Apply(s, e), w)
  {
    CounterLedgerKept(s, e);
    WarmTargetsKept(s, e, w);
    ThreadsStay(s, e);
    var s' := Apply(s, e);
    if e.Start? { StartFrame(s, e.t, e.call); }
    forall p | 0 <= p < |s'.pools| ensures PoolBounded(s', p, w) {
      match e
      case NewPool(c) => NewPoolKeepsBound(s, c, w, p);
      case Start(t, call) => StartKeepsBound(s, t, call, w, p);
      case Go(t) =>
        if p == s.threads[t].pc.pool { AccessKeepsBound(s, t, w); } else { OtherPoolsKeepBound(s, t, w, p); }
    }
  }

  // ---- whole runs ----

  lemma InitBounded(threadCount: nat, w: nat)
    requires threadCount > 0
    ensures Bounded(Init(threadCount), w)
  {}

  lemma ReachedBounded(threadCount: nat, es: seq<Event>, s: State, w: nat)
    requires threadCount > 0 && w > 0 && Reaches(threadCount, es, s) && AllFit(es, threadCount, w)
    ensures |s.threads| == threadCount && Bounded(s, w)
  {
    var inv := (s: State) => |s.threads| == threadCount && Bounded(s, w);
    var admitted := (e: Event) => Fits(e, threadCount, w);
    InitBounded(threadCount, w);
    forall s, e | inv(s) && admitted(e) && Enabled(s, e) ensures inv(Apply(s, e)) {
      BoundedKept(s, e, w);
    }
    RunInvariant(threadCount, es, s, inv, admitted);
  }

  /** In every interleaving of T threads: no queue ever holds more than
      max(min_pool_size, max_pool_size + (T - 1) * min(w, max_pool_size)) buffers. */
  lemma QueueBound(threadCount: nat, es: seq<Event>, s: State, w: nat, p: nat)
    requires threadCount > 0 && w > 0 && Reaches(threadCount, es, s) && AllFit(es, threadCount, w)
    requires p < |s.pools|
    ensures |s.pools[p].queue| <= Bound(s.pools[p].config, threadCount, w)
  {
    ReachedBounded(threadCount, es, s, w);
    assert PoolBounded(s, p, w);
    UnwrappedRange(s, p);
  }

  predicate IsWarm(e: Event) {
    e.Start? && e.call.Warm?
  }

  /** Only possible configurations and targets get into a run. */
  lemma RunArguments(threadCount: nat, es: seq<Event>, s: State, i: nat)
    requires Reaches(threadCount, es, s) && i < |es|
    ensures es[i].NewPool? ==> ConfigOk(es[i].config)
    ensures IsWarm(es[i]) ==> es[i].call.target < WORD
  {
    var at := WasEnabled(FastSystem(), Init(threadCount), es, i);
    assert Enabled(at, es[i]);
  }

  lemma BoundWithoutWarm(c: Config, threadCount: nat)
    requires threadCount > 0
    ensures Bound(c, threadCount, 1) <= Max(c.minPool, c.maxPool + threadCount - 1)
  {
    assert MostOwed(c, 1) <= 1;
  }

  lemma BoundWithWarm(c: Config, threadCount: nat)
    requires threadCount > 0 && c.maxPool < WORD
    ensures Bound(c, threadCount, WORD) == Max(c.minPool, threadCount * c.maxPool)
  {
    assert MostOwed(c, WORD) == c.maxPool;
    assert c.maxPool + (threadCount - 1) * c.maxPool == threadCount * c.maxPool;
  }

  /** Without `warm`, T racing threads overshoot `max_pool_size` by at most T - 1. */
  lemma OvershootWithoutWarm(threadCount: nat, es: seq<Event>, s: State, p: nat)
    requires threadCount > 0 && Reaches(threadCount, es, s)
    requires forall i :: 0 <= i < |es| ==>
      !IsWarm(es[i]) && (es[i].NewPool? ==> es[i].config.maxPool <= WORD - threadCount)
    requires p < |s.pools|
    ensures |s.pools[p].queue| <= Max(s.pools[p].config.minPool, s.pools[p].config.maxPool + threadCount - 1)
  {
    forall i | 0 <= i < |es| ensures Fits(es[i], threadCount, 1) {
      assert !IsWarm(es[i]);
      if es[i].NewPool? {
        RunArguments(threadCount, es, s, i);
        BoundWithoutWarm(es[i].config, threadCount);
      }
    }
    QueueBound(threadCount, es, s, 1, p);
    BoundWithoutWarm(s.pools[p].config, threadCount);
  }

  ghost predicate ConfigsOk(s: State) {
    forall p :: 0 <= p < |s.pools| ==> ConfigOk(s.pools[p].config)
  }

  lemma ReachedConfigs(threadCount: nat, es: seq<Event>, s: State)
    requires Reaches(threadCount, es, s)
    ensures ConfigsOk(s)
  {
    forall s, e | ConfigsOk(s) && Enabled(s, e) ensures ConfigsOk(Apply(s, e)) {
      if e.Start? { StartFrame(s, e.t, e.call); }
      if e.Go? { AccessPool(s.pools[s.threads[e.t].pc.pool], s.threads[e.t], s.store); }
    }
    RunInvariant(threadCount, es, s, ConfigsOk, _ => true);
  }

  /** With `warm` among the racing calls, the queue holds at most T * max_pool_size. */
  lemma OvershootWithWarm(threadCount: nat, es: seq<Event>, s: State, p: nat)
    requires threadCount > 0 && Reaches(threadCount, es, s)
    requires forall i :: 0 <= i < |es| ==> es[i].NewPool? ==> threadCount * es[i].config.maxPool < WORD
    requires p < |s.pools|
    ensures |s.pools[p].queue| <= Max(s.pools[p].config.minPool, threadCount * s.pools[p].config.maxPool)
  {
    forall i | 0 <= i < |es| ensures Fits(es[i], threadCount, WORD) {
      if es[i].NewPool? {
        RunArguments(threadCount, es, s, i);
        BoundWithWarm(es[i].config, threadCount);
      } else if IsWarm(es[i]) {
        RunArguments(threadCount, es, s, i);
      }
    }
    QueueBound(threadCount, es, s, WORD, p);
    ReachedConfigs(threadCount, es, s);
    BoundWithWarm(s.pools[p].config, threadCount);
  }

  // ---- the counter itself ----

  lemma ReachedLedger(threadCount: nat, es: seq<Event>, s: State)
    requires Reaches(threadCount, es, s)
    ensures CounterLedger(s) && |s.threads| == threadCount
  {
    var inv := (s: State) => CounterLedger(s) && |s.threads| == threadCount;
    forall s, e | inv(s) && Enabled(s, e) ensures inv(Apply(s, e)) {
      CounterLedgerKept(s, e);
      ThreadsStay(s, e);
    }
    RunInvariant(threadCount, es, s, inv, _ => true);
  }

  /** `available()` is exact whenever no thread is between the two halves of a push or a pop. */
  lemma AvailableExactWhenQuiet(threadCount: nat, es: seq<Event>, s: State, w: nat, p: nat)
    requires threadCount > 0 && w > 0 && Reaches(threadCount, es, s) && AllFit(es, threadCount, w)
    requires p < |s.pools| && Quiet(s, p)
    ensures s.pools[p].size == |s.pools[p].queue|
  {
    ReachedBounded(threadCount, es, s, w);
    QuietMeansExact(s, w, p);
  }

  lemma QuietMeansExact(s: State, w: nat, p: nat)
    requires |s.threads| > 0 && Bounded(s, w) && p < |s.pools| && Quiet(s, p)
    ensures s.pools[p].size == |s.pools[p].queue|
  {
    assert PoolBounded(s, p, w);
    PushingWithinOwing(s.threads, p);
    SumZero(s.threads, Popping(p));
    SumZero(s.threads, Pushing(p));
  }
}
