/** The pool's statistics: exact ledgers at every instant of every interleaving. */
module FastPoolStats {
  import opened Buffers
  import opened FastPool
  import opened FastPoolCounter
  import opened FastPoolOwnership
  import opened Sums

  /** Threads between counting an acquire and handing out its buffer. */
  function Acquiring(p: nat): Thread -> int {
    (th: Thread) => One(InAcquire(th.pc) && th.pc.pool == p)
  }

  function OfPool(p: nat): Handle -> int {
    (h: Handle) => One(h.pool == p)
  }

  ghost predicate AcquireLedger(s: State, p: nat)
    requires p < |s.pools|
  {
    var pool := s.pools[p];
    && pool.acquired == pool.cacheHits + pool.queueHits + pool.allocs + Sum(s.threads, Acquiring(p))
    && pool.acquired == pool.returned + Sum(s.handles, OfPool(p)) + Sum(s.leaked, OfPool(p)) + pool.droppedNow
                        + Sum(s.threads, Acquiring(p))
  }

  ghost predicate HandlesKnown(s: State) {
    && (forall i :: 0 <= i < |s.handles| ==> s.handles[i].pool < |s.pools|)
    && (forall i :: 0 <= i < |s.leaked| ==> s.leaked[i].pool < |s.pools|)
  }

  ghost predicate Ledgers(s: State) {
    && PcsInRange(s) && HandlesKnown(s)
    && forall p :: 0 <= p < |s.pools| ==> AcquireLedger(s, p)
  }

  // ---- one access ----

  /** An access that ends an acquire counts exactly one source and hands out exactly one handle. */
  ghost predicate Accounts(pool: Pool, th: Thread, x: Effect, p: nat) {
    var ended := Acquiring(p)(th) - Acquiring(p)(x.thread);
    && x.pool.acquired == pool.acquired && x.pool.returned == pool.returned && x.pool.droppedNow == pool.droppedNow
    && x.pool.cacheHits + x.pool.queueHits + x.pool.allocs == pool.cacheHits + pool.queueHits + pool.allocs + ended
    && |x.gained| == ended && (x.gained != [] ==> x.gained[0].pool == p)
    && x.pool.allocs >= pool.allocs
  }

  lemma AcquireAccounts(pool: Pool, th: Thread, store: seq<Buf>)
    requires InAcquire(th.pc)
    ensures Accounts(pool, th, AcquireAccess(pool, th, store), th.pc.pool)
  {}

  lemma AccessAccounts(pool: Pool, th: Thread, store: seq<Buf>)
    requires Busy(th, store)
    ensures Accounts(pool, th, Access(pool, th, store), th.pc.pool)
  {
    if InAcquire(th.pc) { AcquireAccounts(pool, th, store); }
    else if InDrop(th.pc) || InClear(th.pc) || InWarm(th.pc) { PlainAccounts(pool, th, store); }
    else { FlushStatsAccount(pool, th, store); }
  }

  lemma PlainAccounts(pool: Pool, th: Thread, store: seq<Buf>)
    requires InDrop(th.pc) || InClear(th.pc) || InWarm(th.pc)
    ensures Accounts(pool, th, Access(pool, th, store), th.pc.pool)
  {}

  lemma FlushStatsAccount(pool: Pool, th: Thread, store: seq<Buf>)
    requires InFlush(th.pc) || InStats(th.pc)
    requires Busy(th, store)
    ensures Accounts(pool, th, Access(pool, th, store), th.pc.pool)
  {}

  lemma GainedSum(hs: seq<Handle>, p: nat, q: nat)
    requires |hs| <= 1 && (hs != [] ==> hs[0].pool == p)
    ensures Sum(hs, OfPool(q)) == if p == q then |hs| else 0
  {
    if hs != [] { SumSingle(hs[0], OfPool(q)); assert hs == [hs[0]]; }
  }

  lemma GoKeepsLedger(s: State, t: nat, q: nat)
    requires Enabled(s, Go(t)) && q < |s.pools| && AcquireLedger(s, q)
    ensures AcquireLedger(Advance(s, t), q)
  {
    var th := s.threads[t];
    var p := th.pc.pool;
    var x := Access(s.pools[p], th, s.store);
    AccessAccounts(s.pools[p], th, s.store);
    AccessPool(s.pools[p], th, s.store);
    SumUpdate(s.threads, t, x.thread, Acquiring(q));
    SumConcat(s.handles, x.gained, OfPool(q));
    GainedSum(x.gained, p, q);
  }

  // ---- one call begun ----

  /** Giving up a handle by drop, drop_now or leak. */
  lemma ReleaseKeepsLedger(s: State, t: nat, call: Call, q: nat)
    requires Enabled(s, Start(t, call)) && q < |s.pools| && AcquireLedger(s, q)
    requires call.DropHandle? || call.DropNow? || call.Leak?
    ensures AcquireLedger(Begin(s, t, call), q)
  {
    var s' := Begin(s, t, call);
    assert s'.threads == s.threads[t := s'.threads[t]];
    SumUpdate(s.threads, t, s'.threads[t], Acquiring(q));
    SumRemove(s.handles, call.h, OfPool(q));
    SumAppend(s.leaked, s.handles[call.h], OfPool(q));
  }

  lemma StartKeepsLedger(s: State, t: nat, call: Call, q: nat)
    requires Enabled(s, Start(t, call)) && q < |s.pools| && AcquireLedger(s, q)
    ensures AcquireLedger(Begin(s, t, call), q)
  {
    if call.DropHandle? || call.DropNow? || call.Leak? {
      ReleaseKeepsLedger(s, t, call, q);
    } else {
      var s' := Begin(s, t, call);
      StartFrame(s, t, call);
      SumUpdate(s.threads, t, s'.threads[t], Acquiring(q));
    }
  }

  lemma NewPoolLedger(s: State)
    requires PcsInRange(s) && HandlesKnown(s)
    ensures Sum(s.threads, Acquiring(|s.pools|)) == 0
    ensures Sum(s.handles, OfPool(|s.pools|)) == 0 && Sum(s.leaked, OfPool(|s.pools|)) == 0
  {
    forall t | 0 <= t < |s.threads| ensures Acquiring(|s.pools|)(s.threads[t]) == 0 {
      assert PcInRange(s.threads[t].pc, |s.pools|);
    }
    SumZero(s.threads, Acquiring(|s.pools|));
    SumZero(s.handles, OfPool(|s.pools|));
    SumZero(s.leaked, OfPool(|s.pools|));
  }

  lemma HandlesKnownKept(s: State, e: Event)
    requires HandlesKnown(s) && Enabled(s, e)
    ensures HandlesKnown(Apply(s, e))
  {
    match e
    case NewPool(_) =>
    case Start(t, call) =>
      StartFrame(s, t, call);
      StartHandles(s, t, call);
    case Go(t) => AccessTidy(s.pools[s.threads[t].pc.pool], s.threads[t], s.store);
  }

  lemma StartHandles(s: State, t: nat, call: Call)
    requires Enabled(s, Start(t, call))
    ensures var s' := Begin(s, t, call);
      && (forall i :: 0 <= i < |s'.handles| ==> s'.handles[i] in s.handles)
      && (forall i :: 0 <= i < |s'.leaked| ==> s'.leaked[i] in s.leaked || s'.leaked[i] in s.handles)
  {}

  lemma LedgersKept(s: State, e: Event)
    requires Ledgers(s) && Enabled(s, e)
    ensures Ledgers(Apply(s, e))
  {
    PcsInRangeKept(s, e);
    HandlesKnownKept(s, e);
    var s' := Apply(s, e);
    if e.Start? { StartFrame(s, e.t, e.call); }
    forall p | 0 <= p < |s'.pools| ensures AcquireLedger(s', p) {
      match e
      case NewPool(_) => if p == |s.pools| { NewPoolLedger(s); } else { assert AcquireLedger(s, p); }
      case Start(t, call) => StartKeepsLedger(s, t, call, p);
      case Go(t) => GoKeepsLedger(s, t, p);
    }
  }

  lemma ReachedLedgers(threadCount: nat, es: seq<Event>, s: State)
    requires Reaches(threadCount, es, s)
    ensures Ledgers(s)
  {
    forall s, e | Ledgers(s) && Enabled(s, e) ensures Ledgers(Apply(s, e)) {
      LedgersKept(s, e);
    }
    RunInvariant(threadCount, es, s, Ledgers, _ => true);
  }

  lemma LedgerOrder(s: State, p: nat)
    requires Ledgers(s) && p < |s.pools|
    ensures s.pools[p].cacheHits + s.pools[p].allocs <= s.pools[p].acquired
    ensures s.pools[p].returned <= s.pools[p].acquired
  {
    assert AcquireLedger(s, p);
    SumBounds(s.threads, Acquiring(p), 1);
    SumBounds(s.handles, OfPool(p), 1);
    SumBounds(s.leaked, OfPool(p), 1);
  }

  /** At every interleaving point: each acquire counted has come from a cache, the queue or an
      allocation, or is still under way; and each has been returned, is live, was leaked or dropped. */
  lemma StatisticsLedger(threadCount: nat, es: seq<Event>, s: State, p: nat)
    requires Reaches(threadCount, es, s) && p < |s.pools|
    ensures var pool := s.pools[p]; var mid := Sum(s.threads, Acquiring(p));
      && pool.acquired == pool.cacheHits + pool.queueHits + pool.allocs + mid
      && pool.acquired == pool.returned + Sum(s.handles, OfPool(p)) + Sum(s.leaked, OfPool(p)) + pool.droppedNow + mid
      && 0 <= mid <= |s.threads|
    ensures s.pools[p].cacheHits + s.pools[p].allocs <= s.pools[p].acquired
    ensures s.pools[p].returned <= s.pools[p].acquired
  {
    ReachedLedgers(threadCount, es, s);
    LedgerOrder(s, p);
    assert AcquireLedger(s, p);
    SumBounds(s.threads, Acquiring(p), 1);
  }
}
