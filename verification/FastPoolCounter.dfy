/** The length counter of the lock-free queue: how far it drifts from the queue, and how far
    the queue can overshoot `max_pool_size` because every size test reads that counter. */
module FastPoolCounter {
  import opened Buffers
  import opened FastPool
  import opened PoolConfigs
  import opened Sums

  /** Enqueued, not yet added to the counter. */
  function Pushing(p: nat): Thread -> int {
    (th: Thread) => if (th.pc.DropAdd? || th.pc.WarmAdd? || th.pc.FlushAdd?) && th.pc.pool == p then 1 else 0
  }

  /** Dequeued, not yet subtracted from the counter. */
  function Popping(p: nat): Thread -> int {
    (th: Thread) => if (th.pc.AcqSub? || th.pc.ClearSub?) && th.pc.pool == p then 1 else 0
  }

  /** Pushes a thread is committed to that the counter does not show yet. */
  function Owing(p: nat): Thread -> int {
    (th: Thread) =>
      if th.pc.Idle? || th.pc.pool != p then 0
      else match th.pc
        case DropEnq(_, _) => 1
        case DropAdd(_) => 1
        case FlushEnq(_, _) => 1
        case FlushAdd(_) => 1
        case WarmEnq(_, left) => left
        case WarmAdd(_, left) => left + 1
        case _ => 0
  }

  /** The counter without the wrap-around. */
  ghost function Unwrapped(s: State, p: nat): int
    requires p < |s.pools|
  {
    |s.pools[p].queue| + Sum(s.threads, Popping(p)) - Sum(s.threads, Pushing(p))
  }

  /** Every thread works on an existing pool, and a warm loop that still runs has something to push. */
  ghost predicate PcsInRange(s: State) {
    forall t :: 0 <= t < |s.threads| ==> PcInRange(s.threads[t].pc, |s.pools|)
  }

  ghost predicate PcInRange(pc: Pc, n: nat) {
    (pc.Idle? || pc.pool < n) && (pc.WarmEnq? ==> pc.left > 0)
  }

  ghost predicate CounterLedger(s: State) {
    && PcsInRange(s)
    && forall p :: 0 <= p < |s.pools| ==> s.pools[p].size == Unwrapped(s, p) % WORD
  }

  predicate Quiet(s: State, p: nat) {
    forall t :: 0 <= t < |s.threads| ==> Popping(p)(s.threads[t]) == 0 && Pushing(p)(s.threads[t]) == 0
  }

  // ---- one step ----

  lemma SumsAfter(s: State, e: Event, f: Thread -> int)
    requires Enabled(s, e) && !e.NewPool?
    ensures var s' := Apply(s, e);
      |s'.threads| == |s.threads|
      && Sum(s'.threads, f) == Sum(s.threads, f) - f(s.threads[e.t]) + f(s'.threads[e.t])
  {
    var s' := Apply(s, e);
    assert s'.threads == s.threads[e.t := s'.threads[e.t]];
    SumUpdate(s.threads, e.t, s'.threads[e.t], f);
  }

  lemma WrapInc(u: int)
    ensures Inc(u % WORD) == (u + 1) % WORD
    ensures Dec(u % WORD) == (u - 1) % WORD
  {}

  lemma AccessPcInRange(pool: Pool, th: Thread, store: seq<Buf>, n: nat)
    requires Busy(th, store) && PcInRange(th.pc, n)
    ensures PcInRange(Access(pool, th, store).thread.pc, n)
  {}

  lemma PcsInRangeKept(s: State, e: Event)
    requires PcsInRange(s) && Enabled(s, e)
    ensures PcsInRange(Apply(s, e))
  {
    match e
    case NewPool(_) =>
      forall t | 0 <= t < |s.threads| ensures PcInRange(s.threads[t].pc, |s.pools| + 1) {
        assert PcInRange(s.threads[t].pc, |s.pools|);
      }
    case Start(t, call) => StartFrame(s, t, call);
    case Go(t) => AccessPcInRange(s.pools[s.threads[t].pc.pool], s.threads[t], s.store, |s.pools|);
  }

  predicate InPush(pc: Pc) {
    pc.DropEnq? || pc.DropAdd? || pc.FlushEnq? || pc.FlushAdd? || pc.WarmEnq? || pc.WarmAdd?
  }

  function CounterChange(pc: Pc): int {
    if pc.DropAdd? || pc.WarmAdd? || pc.FlushAdd? then 1 else if pc.AcqSub? || pc.ClearSub? then -1 else 0
  }

  /** One access moves the counter and the unwrapped counter by the same amount. */
  ghost predicate KeepsLedger(pool: Pool, th: Thread, x: Effect, p: nat) {
    var d := CounterChange(th.pc);
    && x.pool.size == (if d == 1 then Inc(pool.size) else if d == -1 then Dec(pool.size) else pool.size)
    && |x.pool.queue| + Popping(p)(x.thread) - Pushing(p)(x.thread)
       == |pool.queue| + Popping(p)(th) - Pushing(p)(th) + d
  }

  lemma AcquireKeepsLedger(pool: Pool, th: Thread, store: seq<Buf>)
    requires InAcquire(th.pc)
    ensures KeepsLedger(pool, th, Access(pool, th, store), th.pc.pool)
  {}

  lemma DropKeepsLedger(pool: Pool, th: Thread, store: seq<Buf>)
    requires InDrop(th.pc)
    ensures KeepsLedger(pool, th, Access(pool, th, store), th.pc.pool)
  {}

  lemma WarmKeepsLedger(pool: Pool, th: Thread, store: seq<Buf>)
    requires InWarm(th.pc) || InClear(th.pc)
    ensures KeepsLedger(pool, th, Access(pool, th, store), th.pc.pool)
  {}

  lemma FlushKeepsLedger(pool: Pool, th: Thread, store: seq<Buf>)
    requires (InFlush(th.pc) || InStats(th.pc)) && Busy(th, store)
    ensures KeepsLedger(pool, th, Access(pool, th, store), th.pc.pool)
  {}

  lemma AccessKeepsLedger(pool: Pool, th: Thread, store: seq<Buf>)
    requires Busy(th, store)
    ensures KeepsLedger(pool, th, Access(pool, th, store), th.pc.pool)
  {
    if InAcquire(th.pc) { AcquireKeepsLedger(pool, th, store); }
    else if InDrop(th.pc) { DropKeepsLedger(pool, th, store); }
    else if InWarm(th.pc) || InClear(th.pc) { WarmKeepsLedger(pool, th, store); }
    else { FlushKeepsLedger(pool, th, store); }
  }

  lemma CounterLedgerKept(s: State, e: Event)
    requires CounterLedger(s) && Enabled(s, e)
    ensures CounterLedger(Apply(s, e))
  {
    PcsInRangeKept(s, e);
    var s' := Apply(s, e);
    forall p | 0 <= p < |s'.pools| ensures s'.pools[p].size == Unwrapped(s', p) % WORD {
      UnwrappedAfter(s, e, p);
    }
  }

  /** The counter after a step, wrapped and unwrapped, from those before it. */
  lemma UnwrappedAfter(s: State, e: Event, p: nat)
    requires PcsInRange(s) && Enabled(s, e) && p < |Apply(s, e).pools|
    requires p < |s.pools| ==> s.pools[p].size == Unwrapped(s, p) % WORD
    ensures var s' := Apply(s, e); s'.pools[p].size == Unwrapped(s', p) % WORD
    ensures e.NewPool? && p == |s.pools| ==> Unwrapped(Apply(s, e), p) == e.config.minPool
    ensures e.NewPool? && p < |s.pools| ==> Unwrapped(Apply(s, e), p) == Unwrapped(s, p)
    ensures e.Start? ==> Unwrapped(Apply(s, e), p) == Unwrapped(s, p)
  {
    match e
    case NewPool(_) =>
      if p == |s.pools| {
        UnknownPool(s);
      }
    case Start(t, call) => UnwrappedAfterStart(s, t, call, p);
    case Go(t) => UnwrappedAfterGo(s, t, p);
  }

  /** No call is in flight on a pool that does not exist yet. */
  lemma UnknownPool(s: State)
    requires PcsInRange(s)
    ensures Sum(s.threads, Popping(|s.pools|)) == 0 && Sum(s.threads, Pushing(|s.pools|)) == 0
  {
    var p := |s.pools|;
    forall t | 0 <= t < |s.threads| ensures Popping(p)(s.threads[t]) == 0 && Pushing(p)(s.threads[t]) == 0 {
      assert PcInRange(s.threads[t].pc, |s.pools|);
    }
    SumZero(s.threads, Popping(p));
    SumZero(s.threads, Pushing(p));
  }

  lemma UnwrappedAfterStart(s: State, t: nat, call: Call, p: nat)
    requires Enabled(s, Start(t, call)) && p < |s.pools|
    ensures var s' := Begin(s, t, call);
      |s'.pools| == |s.pools| && s'.pools[p].size == s.pools[p].size && Unwrapped(s', p) == Unwrapped(s, p)
  {
    StartFrame(s, t, call);
    SumsAfter(s, Start(t, call), Popping(p));
    SumsAfter(s, Start(t, call), Pushing(p));
  }

  lemma UnwrappedAfterGo(s: State, t: nat, p: nat)
    requires Enabled(s, Go(t)) && p < |s.pools| && s.pools[p].size == Unwrapped(s, p) % WORD
    ensures var s' := Advance(s, t); s'.pools[p].size == Unwrapped(s', p) % WORD
  {
    if s.threads[t].pc.pool == p { UnwrappedAfterOwn(s, t, p); } else { UnwrappedAfterOther(s, t, p); }
  }

  lemma UnwrappedAfterOwn(s: State, t: nat, p: nat)
    requires Enabled(s, Go(t)) && p == s.threads[t].pc.pool && s.pools[p].size == Unwrapped(s, p) % WORD
    ensures var s' := Advance(s, t); s'.pools[p].size == Unwrapped(s', p) % WORD
  {
    hide Access;
    var x := Access(s.pools[p], s.threads[t], s.store);
    AccessKeepsLedger(s.pools[p], s.threads[t], s.store);
    UnwrappedAfterEffect(s, t, p, x.thread, x.pool, CounterChange(s.threads[t].pc));
    WrapInc(Unwrapped(s, p));
  }

  lemma UnwrappedAfterOther(s: State, t: nat, p: nat)
    requires Enabled(s, Go(t)) && p < |s.pools| && p != s.threads[t].pc.pool
    ensures Unwrapped(Advance(s, t), p) == Unwrapped(s, p)
  {
    var pool := s.pools[s.threads[t].pc.pool];
    OwedElsewhere(pool, s.threads[t], s.store, p);
    UnwrappedAfterEffect(s, t, p, Access(pool, s.threads[t], s.store).thread, s.pools[p], 0);
  }

  lemma UnwrappedAfterEffect(s: State, t: nat, p: nat, th: Thread, pool: Pool, d: int)
    requires t < |s.threads| && p < |s.pools|
    requires |pool.queue| + Popping(p)(th) - Pushing(p)(th)
      == |s.pools[p].queue| + Popping(p)(s.threads[t]) - Pushing(p)(s.threads[t]) + d
    ensures |pool.queue| + Sum(s.threads[t := th], Popping(p)) - Sum(s.threads[t := th], Pushing(p))
      == Unwrapped(s, p) + d
  {
    SumUpdate(s.threads, t, th, Popping(p));
    SumUpdate(s.threads, t, th, Pushing(p));
  }

  lemma OwedElsewhere(pool: Pool, th: Thread, store: seq<Buf>, q: nat)
    requires Busy(th, store) && q != th.pc.pool
    ensures var th' := Access(pool, th, store).thread;
      && Owing(q)(th') == Owing(q)(th) == 0
      && Pushing(q)(th') == Pushing(q)(th) == 0
      && Popping(q)(th') == Popping(q)(th) == 0
  {
    AccessPool(pool, th, store);
  }
}
