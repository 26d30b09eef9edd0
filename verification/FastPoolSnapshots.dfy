/** What the snapshot taken by `stats`, five loads and not one, still guarantees. */
module FastPoolSnapshots {
  import opened FastPool
  import opened Buffers
  import opened FastPoolCounter
  import opened FastPoolStats
  import opened Runs
  import opened Sums

  // ---- what the loads made so far guarantee ----

  /** What the loads made so far still say about the counters. */
  ghost predicate LoadsOk(s: State, pc: Pc) {
    InStats(pc) && pc.pool < |s.pools| ==>
      var pool := s.pools[pc.pool];
      match pc
      case StatsAcquired(_, _, al) => al <= pool.allocs
      case StatsReturned(_, _, al, ac) => al <= ac <= pool.acquired
      case StatsHits(_, _, al, ac, _) => al <= ac <= pool.acquired
      case _ => true
  }

  /** With one thread nothing can be acquired or returned between its own loads. */
  ghost predicate LoadsCurrent(s: State, pc: Pc) {
    InStats(pc) && pc.pool < |s.pools| ==>
      match pc
      case StatsReturned(_, _, _, ac) => ac == s.pools[pc.pool].acquired
      case StatsHits(_, _, _, ac, re) => ac == s.pools[pc.pool].acquired && re == s.pools[pc.pool].returned
      case _ => true
  }

  ghost predicate SnapshotsOk(s: State) {
    && Ledgers(s)
    && (forall t :: 0 <= t < |s.threads| ==> LoadsOk(s, s.threads[t].pc))
    && (forall i :: 0 <= i < |s.snapshots| ==> s.snapshots[i].allocs <= s.snapshots[i].acquired)
  }

  /** What `cache_hit_rate` and `in_use` take for granted. */
  predicate Consistent(sn: Snapshot) {
    sn.cacheHits <= sn.acquired && sn.returned <= sn.acquired
  }

  ghost predicate SoloSnapshotsOk(s: State) {
    && Ledgers(s) && |s.threads| == 1 && LoadsCurrent(s, s.threads[0].pc)
    && (forall i :: 0 <= i < |s.snapshots| ==> Consistent(s.snapshots[i]))
  }

  lemma AccessLoads(s: State, t: nat)
    requires Enabled(s, Go(t)) && LoadsOk(s, s.threads[t].pc)
    requires s.pools[s.threads[t].pc.pool].allocs <= s.pools[s.threads[t].pc.pool].acquired
    ensures var x := Access(s.pools[s.threads[t].pc.pool], s.threads[t], s.store);
      && LoadsOk(Advance(s, t), x.thread.pc)
      && (forall i :: 0 <= i < |x.reported| ==> x.reported[i].allocs <= x.reported[i].acquired)
  {
    var th := s.threads[t];
    var pool := s.pools[th.pc.pool];
    AccessPool(pool, th, s.store);
    if InStats(th.pc) {
      assert Access(pool, th, s.store) == StatsAccess(pool, th, s.store);
    } else {
      NoLoads(pool, th, s.store);
    }
  }

  lemma NoLoads(pool: Pool, th: Thread, store: seq<Buf>)
    requires Busy(th, store) && !InStats(th.pc)
    ensures !InStats(Access(pool, th, store).thread.pc) && Access(pool, th, store).reported == []
  {}

  lemma StartCounts(s: State, t: nat, call: Call)
    requires Enabled(s, Start(t, call))
    ensures forall p :: 0 <= p < |s.pools| ==>
      var pool, pool' := s.pools[p], Begin(s, t, call).pools[p];
      pool'.allocs == pool.allocs && pool'.acquired >= pool.acquired
  {
    StartFrame(s, t, call);
  }

  lemma CountersGrow(s: State, e: Event, p: nat)
    requires Enabled(s, e) && p < |s.pools|
    ensures var s' := Apply(s, e);
      p < |s'.pools| && s.pools[p].allocs <= s'.pools[p].allocs && s.pools[p].acquired <= s'.pools[p].acquired
  {
    match e
    case NewPool(_) =>
    case Start(t, call) => StartFrame(s, t, call); StartCounts(s, t, call);
    case Go(t) => AccessAccounts(s.pools[s.threads[t].pc.pool], s.threads[t], s.store);
  }

  lemma LoadsKept(s: State, e: Event)
    requires SnapshotsOk(s) && Enabled(s, e) && !e.Go?
    ensures forall t :: 0 <= t < |Apply(s, e).threads| ==> LoadsOk(Apply(s, e), Apply(s, e).threads[t].pc)
    ensures Apply(s, e).snapshots == s.snapshots
  {
    var s' := Apply(s, e);
    if e.Start? { StartFrame(s, e.t, e.call); }
    forall t | 0 <= t < |s'.threads| ensures LoadsOk(s', s'.threads[t].pc) {
      assert PcInRange(s.threads[t].pc, |s.pools|) && LoadsOk(s, s.threads[t].pc);
      if InStats(s.threads[t].pc) { CountersGrow(s, e, s.threads[t].pc.pool); }
    }
  }

  lemma LoadsKeptByGo(s: State, t: nat)
    requires SnapshotsOk(s) && Enabled(s, Go(t))
    ensures forall i :: 0 <= i < |s.threads| ==> LoadsOk(Advance(s, t), Advance(s, t).threads[i].pc)
    ensures forall i :: 0 <= i < |Advance(s, t).snapshots| ==>
      Advance(s, t).snapshots[i].allocs <= Advance(s, t).snapshots[i].acquired
  {
    var p := s.threads[t].pc.pool;
    LedgerOrder(s, p);
    AccessLoads(s, t);
    forall i | 0 <= i < |s.threads| ensures LoadsOk(Advance(s, t), Advance(s, t).threads[i].pc) {
      assert PcInRange(s.threads[i].pc, |s.pools|) && LoadsOk(s, s.threads[i].pc);
      if InStats(s.threads[i].pc) { CountersGrow(s, Go(t), s.threads[i].pc.pool); }
    }
  }

  lemma SnapshotsKept(s: State, e: Event)
    requires SnapshotsOk(s) && Enabled(s, e)
    ensures SnapshotsOk(Apply(s, e))
  {
    LedgersKept(s, e);
    if e.Go? { LoadsKeptByGo(s, e.t); } else { LoadsKept(s, e); }
  }

  lemma SoloKept(s: State, e: Event)
    requires SoloSnapshotsOk(s) && Enabled(s, e)
    ensures SoloSnapshotsOk(Apply(s, e))
  {
    LedgersKept(s, e);
    match e
    case NewPool(_) => assert PcInRange(s.threads[0].pc, |s.pools|);
    case Start(t, call) => StartFrame(s, t, call);
    case Go(t) => SoloAccess(s);
  }

  lemma SoloAccess(s: State)
    requires SoloSnapshotsOk(s) && Enabled(s, Go(0))
    ensures LoadsCurrent(Advance(s, 0), Advance(s, 0).threads[0].pc)
    ensures forall i :: 0 <= i < |Advance(s, 0).snapshots| ==> Consistent(Advance(s, 0).snapshots[i])
  {
    var th := s.threads[0];
    var pool := s.pools[th.pc.pool];
    LedgerOrder(s, th.pc.pool);
    AccessPool(pool, th, s.store);
    if InStats(th.pc) {
      assert Access(pool, th, s.store) == StatsAccess(pool, th, s.store);
    } else {
      NoLoads(pool, th, s.store);
    }
  }

  /** `pool_hit_rate` of every snapshot lies in 0..100%, and its subtraction never saturates:
      allocations are loaded before acquires. */
  lemma SnapshotPoolHitRate(threadCount: nat, es: seq<Event>, s: State, i: nat)
    requires Reaches(threadCount, es, s) && i < |s.snapshots|
    ensures var sn := s.snapshots[i];
      0 <= (sn.acquired - sn.allocs) * 100 <= 100 * sn.acquired
  {
    forall s, e | SnapshotsOk(s) && Enabled(s, e) ensures SnapshotsOk(Apply(s, e)) {
      SnapshotsKept(s, e);
    }
    RunInvariant(threadCount, es, s, SnapshotsOk, _ => true);
  }

  /** In a program of one thread `cache_hit_rate` of every snapshot lies in 0..100% and the subtraction
      of `in_use` never saturates. */
  lemma SoloSnapshots(es: seq<Event>, s: State, i: nat)
    requires Reaches(1, es, s) && i < |s.snapshots|
    ensures s.snapshots[i].cacheHits * 100 <= 100 * s.snapshots[i].acquired
    ensures s.snapshots[i].returned <= s.snapshots[i].acquired
  {
    ReachedSolo(es, s);
  }

  lemma ReachedSolo(es: seq<Event>, s: State)
    requires Reaches(1, es, s)
    ensures SoloSnapshotsOk(s)
  {
    forall s, e | SoloSnapshotsOk(s) && Enabled(s, e) ensures SoloSnapshotsOk(Apply(s, e)) {
      SoloKept(s, e);
    }
    RunInvariant(1, es, s, SoloSnapshotsOk, _ => true);
  }

  // ---- what `in_use` counts ----

  /** Thread `t` is about to load `cache_hits` and to return its snapshot. */
  predicate Reporting(s: State, t: nat) {
    Enabled(s, Go(t)) && s.threads[t].pc.StatsHits?
  }

  function Report(s: State, t: nat): Snapshot
    requires Reporting(s, t)
  {
    var StatsHits(p, available, allocs, acquired, returned) := s.threads[t].pc;
    Snapshot(available, allocs, acquired, returned, s.pools[p].cacheHits)
  }

  lemma ReportIsReturned(s: State, t: nat)
    requires Reporting(s, t)
    ensures Advance(s, t).snapshots == s.snapshots + [Report(s, t)]
  {
    var pool := s.pools[s.threads[t].pc.pool];
    assert Access(pool, s.threads[t], s.store) == StatsAccess(pool, s.threads[t], s.store);
  }

  /** `in_use()`, with the saturating subtraction. */
  function InUse(sn: Snapshot): nat {
    if sn.acquired >= sn.returned then sn.acquired - sn.returned else 0
  }

  /** The buffers of pool `p` in use: its live handles. */
  function Live(s: State, p: nat): int {
    Sum(s.handles, OfPool(p))
  }

  /** The buffers of pool `p` that have left it for good by `leak` or `drop_now`. */
  function Lost(s: State, p: nat): int
    requires p < |s.pools|
  {
    Sum(s.leaked, OfPool(p)) + s.pools[p].droppedNow
  }

  /** In every run of one thread, `in_use` of a snapshot counts the live handles of its pool and all
      buffers ever leaked or dropped with `drop_now`: it is what it is documented to be exactly as
      long as there were none of those. */
  lemma SoloInUse(es: seq<Event>, s: State)
    requires Reaches(1, es, s) && Reporting(s, 0)
    ensures var p := s.threads[0].pc.pool; var sn := Report(s, 0);
      && Advance(s, 0).snapshots == s.snapshots + [sn]
      && sn.acquired - sn.returned == InUse(sn) == Live(s, p) + Lost(s, p)
      && (InUse(sn) == Live(s, p) <==> Lost(s, p) == 0)
  {
    var p := s.threads[0].pc.pool;
    ReachedSolo(es, s);
    ReportIsReturned(s, 0);
    LedgerOrder(s, p);
    assert AcquireLedger(s, p);
    SumZero(s.threads, Acquiring(p));
  }

  // ---- the snapshot among other threads ----

  function AcquiresOn(es: seq<Event>, p: nat): nat {
    if es == [] then 0
    else (if es[0].Start? && es[0].call == Acquire(p) then 1 else 0) + AcquiresOn(es[1..], p)
  }

  /** A reader of pool `p` between its load of `acquired`, which gave `ac`, and its load of `cache_hits`. */
  ghost predicate Reading(s: State, t: nat, p: nat, ac: nat) {
    && t < |s.threads| && p < |s.pools|
    && (s.threads[t].pc.StatsReturned? || s.threads[t].pc.StatsHits?)
    && s.threads[t].pc.pool == p && s.threads[t].pc.acquired == ac
    && (s.threads[t].pc.StatsHits? ==> s.threads[t].pc.returned <= s.pools[p].returned)
  }

  /** One event of a run, as the reader sees it: acquires are counted only where one starts. */
  lemma ReadingStep(s: State, e: Event, t: nat, p: nat, ac: nat)
    requires Reading(s, t, p, ac) && Enabled(s, e) && (e.Start? ==> e.t != t)
    ensures var s' := Apply(s, e);
      && p < |s'.pools| && s'.pools[p].acquired == s.pools[p].acquired + AcquiresOn([e], p)
      && s'.pools[p].returned >= s.pools[p].returned
      && t < |s'.threads| && (Reading(s', t, p, ac) || s'.threads[t].pc.Idle?)
  {
    match e
    case NewPool(_) =>
    case Start(u, call) => StartFrame(s, u, call); StartAcquires(s, u, call, p);
    case Go(u) =>
      var th := s.threads[u];
      AccessAccounts(s.pools[th.pc.pool], th, s.store);
      if u == t { assert Access(s.pools[p], th, s.store) == StatsAccess(s.pools[p], th, s.store); }
  }

  lemma StartAcquires(s: State, t: nat, call: Call, p: nat)
    requires Enabled(s, Start(t, call)) && p < |s.pools|
    ensures Begin(s, t, call).pools[p].acquired == s.pools[p].acquired + if call == Acquire(p) then 1 else 0
    ensures Begin(s, t, call).pools[p].returned >= s.pools[p].returned
  {
    StartFrame(s, t, call);
  }

  /** A thread that has finished its call stays idle until it starts another. */
  lemma {:induction false} StaysIdle(s: State, fs: seq<Event>, t: nat)
    requires Valid(FastSystem(), s, fs) && NoStart(fs, t) && t < |s.threads| && s.threads[t].pc.Idle?
    ensures var s' := After(FastSystem(), s, fs); t < |s'.threads| && s'.threads[t].pc.Idle?
    decreases |fs|
  {
    if fs != [] {
      if fs[0].Start? { StartFrame(s, fs[0].t, fs[0].call); }
      NoStartTail(fs, t);
      StaysIdle(Apply(s, fs[0]), fs[1..], t);
    }
  }

  lemma {:induction false} ReadingRun(s: State, fs: seq<Event>, t: nat, p: nat, ac: nat)
    requires Valid(FastSystem(), s, fs) && NoStart(fs, t) && Reading(s, t, p, ac)
    ensures var s' := After(FastSystem(), s, fs);
      && t < |s'.threads|
      && (s'.threads[t].pc.StatsHits? ==>
            Reading(s', t, p, ac) && s'.pools[p].acquired == s.pools[p].acquired + AcquiresOn(fs, p))
    decreases |fs|
  {
    if fs != [] {
      var s' := Apply(s, fs[0]);
      NoStartTail(fs, t);
      ReadingStep(s, fs[0], t, p, ac);
      assert AcquiresOn([fs[0]], p) == (if fs[0].Start? && fs[0].call == Acquire(p) then 1 else 0) by {
        assert [fs[0]][1..] == [];
      }
      if s'.threads[t].pc.Idle? { StaysIdle(s', fs[1..], t); } else { ReadingRun(s', fs[1..], t, p, ac); }
    }
  }

  /** How far a snapshot can contradict itself, for any number of threads: thread `t` loads `acquired`
      in state `s`; the run `fs` leads to its load of `cache_hits`. Cache hits and returns then exceed
      acquires by at most the number of acquires begun on this pool in between - and by none when
      nobody else acquires from this pool meanwhile. */
  lemma SnapshotWindow(threadCount: nat, es: seq<Event>, s: State, t: nat, fs: seq<Event>)
    requires Reaches(threadCount, es, s) && t < |s.threads| && s.threads[t].pc.StatsAcquired? && Enabled(s, Go(t))
    requires Valid(FastSystem(), Advance(s, t), fs) && NoStart(fs, t)
    requires Reporting(After(FastSystem(), Advance(s, t), fs), t)
    ensures var p := s.threads[t].pc.pool;
      var s2 := After(FastSystem(), Advance(s, t), fs);
      var s3 := Advance(s2, t);
      && |s3.snapshots| == |s2.snapshots| + 1
      && var sn := s3.snapshots[|s2.snapshots|];
      && sn.acquired == s.pools[p].acquired
      && sn.cacheHits <= sn.acquired + AcquiresOn(fs, p)
      && sn.returned <= sn.acquired + AcquiresOn(fs, p)
  {
    var p := s.threads[t].pc.pool;
    var s1 := Advance(s, t);
    var s2 := After(FastSystem(), s1, fs);
    LoadsAcquired(s, t);
    ReadingRun(s1, fs, t, p, s.pools[p].acquired);
    Extend(FastSystem(), Init(threadCount), es, Go(t));
    Concat(FastSystem(), Init(threadCount), es + [Go(t)], fs);
    ReachedLedgers(threadCount, es + [Go(t)] + fs, s2);
    LedgerOrder(s2, p);
    ReportIsReturned(s2, t);
  }

  lemma LoadsAcquired(s: State, t: nat)
    requires Enabled(s, Go(t)) && s.threads[t].pc.StatsAcquired?
    ensures var p := s.threads[t].pc.pool;
      Reading(Advance(s, t), t, p, s.pools[p].acquired) && Advance(s, t).pools == s.pools
  {
    var pool := s.pools[s.threads[t].pc.pool];
    assert Access(pool, s.threads[t], s.store) == StatsAccess(pool, s.threads[t], s.store);
  }
}
