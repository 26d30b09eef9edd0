/** The snapshots that a reader of the statistics can get: runs in which they mislead, and the exact
    conditions under which they do not. */
module FastPoolReports {
  import opened FastPool
  import opened PoolConfigs
  import opened FastPoolSnapshots
  import opened FastPoolStats
  import opened FastPoolWitness
  import opened Sums

  // ---- the loads of a snapshot ----

  lemma FinishStats(threadCount: nat, es: seq<Event>, s: State, t: nat, available: nat)
    returns (es': seq<Event>, s': State)
    requires Reaches(threadCount, es, s) && t < |s.threads| && |s.pools| > 0
    requires s.threads[t].pc == StatsAllocated(0, available)
    ensures Reaches(threadCount, es', s') && s'.pools == s.pools
    ensures |s'.snapshots| == |s.snapshots| + 1 && s'.snapshots[|s.snapshots|].available == available
    ensures |s'.threads| == |s.threads| && s'.threads == s.threads[t := s.threads[t].(pc := Idle)]
  {
    es', s' := LoadNext(threadCount, es, s, t);
    es', s' := LoadNext(threadCount, es', s', t);
    es', s' := LoadNext(threadCount, es', s', t);
    es', s' := LoadNext(threadCount, es', s', t);
  }

  /** An access of `stats` changes nothing but its thread and the list of snapshots. */
  lemma LoadsOnly(s: State, t: nat)
    requires Enabled(s, Go(t)) && InStats(s.threads[t].pc)
    ensures var s' := Advance(s, t);
      var x := StatsAccess(s.pools[s.threads[t].pc.pool], s.threads[t], s.store);
      && s'.pools == s.pools && s'.handles == s.handles && s'.store == s.store && s'.leaked == s.leaked
      && s'.threads == s.threads[t := x.thread] && s'.snapshots == s.snapshots + x.reported
  {
    var pool := s.pools[s.threads[t].pc.pool];
    assert Access(pool, s.threads[t], s.store) == StatsAccess(pool, s.threads[t], s.store);
  }

  lemma LoadNext(threadCount: nat, es: seq<Event>, s: State, t: nat) returns (es': seq<Event>, s': State)
    requires Reaches(threadCount, es, s) && t < |s.threads| && |s.pools| > 0
    requires InStats(s.threads[t].pc) && s.threads[t].pc.pool == 0
    ensures Reaches(threadCount, es', s')
    ensures s'.pools == s.pools && s'.handles == s.handles && s'.store == s.store && s'.leaked == s.leaked
    ensures |s'.threads| == |s.threads| && s'.threads == s.threads[t := s.threads[t].(pc := s'.threads[t].pc)]
    ensures var pc, pool := s.threads[t].pc, s.pools[0];
      match pc
      case StatsLen(_) => s'.threads[t].pc == StatsAllocated(0, pool.size) && s'.snapshots == s.snapshots
      case StatsAllocated(_, av) => s'.threads[t].pc == StatsAcquired(0, av, pool.allocs) && s'.snapshots == s.snapshots
      case StatsAcquired(_, av, al) =>
        s'.threads[t].pc == StatsReturned(0, av, al, pool.acquired) && s'.snapshots == s.snapshots
      case StatsReturned(_, av, al, ac) =>
        s'.threads[t].pc == StatsHits(0, av, al, ac, pool.returned) && s'.snapshots == s.snapshots
      case StatsHits(_, av, al, ac, re) =>
        s'.threads[t].pc == Idle && s'.snapshots == s.snapshots + [Snapshot(av, al, ac, re, pool.cacheHits)]
  {
    hide Reaches, Access;
    LoadsOnly(s, t);
    es', s' := Play(threadCount, es, s, Go(t));
  }

  // ---- with two threads a snapshot can contradict itself ----

  /** Thread 1 stands at `pc` with `cache`; thread 0 is at `reader`; pool 0 has counted `ac` acquires,
      `hits` cache hits and `ret` returns. */
  ghost predicate Scene(s: State, reader: Pc, pc: Pc, cache: seq<nat>, handles: seq<Handle>,
                        ac: nat, hits: nat, ret: nat)
  {
    && |s.threads| >= 2 && |s.pools| == 1 && |s.store| == 1 && s.snapshots == [] && s.handles == handles
    && s.threads[0] == Thread([], reader, true) && s.threads[1] == Thread(cache, pc, true)
    && s.pools[0].acquired == ac && s.pools[0].cacheHits == hits && s.pools[0].returned == ret
    && s.leaked == [] && s.pools[0].droppedNow == 0
  }

  lemma FirstAcquire(threadCount: nat) returns (es: seq<Event>, s: State)
    requires threadCount >= 2
    ensures Reaches(threadCount, es, s) && Scene(s, Idle, Idle, [], [Handle(0, 0)], 1, 0, 0)
  {
    es, s := Play(threadCount, [], Init(threadCount), NewPool(Config(8, 1, 0)));
    es, s := Play(threadCount, es, s, Start(1, Acquire(0)));
    es, s := Play(threadCount, es, s, Go(1));
    es, s := Play(threadCount, es, s, Go(1));
    assert s.threads[1].pc == AcqAlloc(0) && s.pools[0].acquired == 1;
    es, s := Play(threadCount, es, s, Go(1));
  }

  lemma Recycle(threadCount: nat, es: seq<Event>, s: State, reader: Pc, ac: nat, hits: nat, ret: nat)
    returns (es': seq<Event>, s': State)
    requires Reaches(threadCount, es, s) && Scene(s, reader, Idle, [], [Handle(0, 0)], ac, hits, ret)
    ensures Reaches(threadCount, es', s') && Scene(s', reader, Idle, [0], [], ac, hits, ret + 1)
  {
    es', s' := Play(threadCount, es, s, Start(1, DropHandle(0)));
    assert Scene(s', reader, DropCache(0, 0), [], [], ac, hits, ret + 1);
    es', s' := Play(threadCount, es', s', Go(1));
  }

  lemma Reacquire(threadCount: nat, es: seq<Event>, s: State, reader: Pc, ac: nat, hits: nat, ret: nat)
    returns (es': seq<Event>, s': State)
    requires Reaches(threadCount, es, s) && Scene(s, reader, Idle, [0], [], ac, hits, ret)
    ensures Reaches(threadCount, es', s') && Scene(s', reader, Idle, [], [Handle(0, 0)], ac + 1, hits + 1, ret)
  {
    es', s' := Play(threadCount, es, s, Start(1, Acquire(0)));
    assert Scene(s', reader, AcqCache(0), [0], [], ac + 1, hits, ret);
    es', s' := Play(threadCount, es', s', Go(1));
  }

  lemma LoadAcquired(threadCount: nat, es: seq<Event>, s: State) returns (es': seq<Event>, s': State)
    requires Reaches(threadCount, es, s) && Scene(s, Idle, Idle, [], [Handle(0, 0)], 1, 0, 0)
    ensures Reaches(threadCount, es', s') && |s'.threads| >= 2 && s'.threads[0].pc.StatsReturned?
    ensures s'.threads[0].pc.pool == 0 && s'.threads[0].pc.acquired == 1
    ensures Scene(s', s'.threads[0].pc, Idle, [], [Handle(0, 0)], 1, 0, 0)
  {
    es', s' := Play(threadCount, es, s, Start(0, Stats(0)));
    assert Scene(s', StatsLen(0), Idle, [], [Handle(0, 0)], 1, 0, 0);
    es', s' := LoadNext(threadCount, es', s', 0);
    es', s' := LoadNext(threadCount, es', s', 0);
    es', s' := LoadNext(threadCount, es', s', 0);
  }

  /** Thread 0 is about to report a snapshot that shows one acquire and two returns. */
  lemma LoadContradiction(threadCount: nat) returns (es: seq<Event>, s: State)
    requires threadCount >= 2
    ensures Reaches(threadCount, es, s) && |s.threads| > 0 && s.threads[0].pc.StatsHits?
    ensures Scene(s, s.threads[0].pc, Idle, [], [Handle(0, 0)], 3, 2, 2)
    ensures s.threads[0].pc.pool == 0 && s.threads[0].pc.acquired == 1 && s.threads[0].pc.returned == 2
  {
    es, s := FirstAcquire(threadCount);
    es, s := LoadAcquired(threadCount, es, s);
    var reader := s.threads[0].pc;
    es, s := Recycle(threadCount, es, s, reader, 1, 0, 0);
    es, s := Reacquire(threadCount, es, s, reader, 1, 0, 1);
    es, s := Recycle(threadCount, es, s, reader, 2, 1, 1);
    es, s := Reacquire(threadCount, es, s, reader, 2, 1, 2);
    es, s := LoadNext(threadCount, es, s, 0);
  }

  /** For every number of threads above one there is a run whose snapshot shows more cache hits, and
      more returns, than acquires, while a handle is live: `acquired` is loaded first, and another thread
      returns its buffer and hits its cache twice before the other two are loaded. `cache_hit_rate`
      then reports 200%, and `in_use` saturates to 0. */
  lemma SnapshotContradictsItself(threadCount: nat) returns (es: seq<Event>, s: State)
    requires threadCount >= 2
    ensures Reaches(threadCount, es, s) && |s.snapshots| == 1 && |s.handles| == 1
    ensures s.snapshots[0].acquired == 1 && s.snapshots[0].cacheHits == 2 && s.snapshots[0].returned == 2
  {
    es, s := LoadContradiction(threadCount);
    es, s := LoadNext(threadCount, es, s, 0);
  }

  /** Exactly one number of threads makes the documented range of `cache_hit_rate` hold. */
  lemma CacheHitRateInRangeIffSolo(threadCount: nat)
    requires threadCount > 0
    ensures (forall es, s, i ::
               Reaches(threadCount, es, s) && 0 <= i < |s.snapshots|
               ==> s.snapshots[i].cacheHits <= s.snapshots[i].acquired)
            <==> threadCount == 1
  {
    if threadCount == 1 {
      forall es, s, i | Reaches(threadCount, es, s) && 0 <= i < |s.snapshots|
        ensures s.snapshots[i].cacheHits <= s.snapshots[i].acquired
      {
        SoloSnapshots(es, s, i);
      }
    } else {
      var es, s := SnapshotContradictsItself(threadCount);
      assert s.snapshots[0].cacheHits > s.snapshots[0].acquired;
    }
  }

  /** And exactly one keeps the subtraction of `in_use` from saturating. */
  lemma InUseNeverSaturatesIffSolo(threadCount: nat)
    requires threadCount > 0
    ensures (forall es, s, i ::
               Reaches(threadCount, es, s) && 0 <= i < |s.snapshots|
               ==> s.snapshots[i].returned <= s.snapshots[i].acquired)
            <==> threadCount == 1
  {
    if threadCount == 1 {
      forall es, s, i | Reaches(threadCount, es, s) && 0 <= i < |s.snapshots|
        ensures s.snapshots[i].returned <= s.snapshots[i].acquired
      {
        SoloSnapshots(es, s, i);
      }
    } else {
      var es, s := SnapshotContradictsItself(threadCount);
      assert s.snapshots[0].returned > s.snapshots[0].acquired;
    }
  }

  /** Only thread 0 has moved, and stands at `pc`; pool 0 has handed out one fresh buffer. */
  ghost predicate OneOut(s: State, threadCount: nat, pc: Pc, handles: seq<Handle>, droppedNow: nat) {
    && |s.threads| == threadCount > 0 && s.threads == Init(threadCount).threads[0 := Thread([], pc, true)]
    && |s.pools| == 1 && s.pools[0].acquired == 1 && s.pools[0].returned == 0
    && s.handles == handles && s.leaked == [] && |s.store| == 1 && s.pools[0].droppedNow == droppedNow
  }

  lemma AcquireOne(threadCount: nat) returns (es: seq<Event>, s: State)
    requires threadCount > 0
    ensures Reaches(threadCount, es, s) && OneOut(s, threadCount, Idle, [Handle(0, 0)], 0) && s.snapshots == []
  {
    var start := Init(threadCount);
    es, s := Play(threadCount, [], start, NewPool(Config(8, 1, 0)));
    es, s := Play(threadCount, es, s, Start(0, Acquire(0)));
    assert s.threads == start.threads[0 := Thread([], AcqCache(0), true)] && s.pools[0].acquired == 1;
    es, s := Play(threadCount, es, s, Go(0));
    assert s.threads == start.threads[0 := Thread([], AcqPop(0), true)] && s.store == [];
    es, s := Play(threadCount, es, s, Go(0));
    assert s.threads == start.threads[0 := Thread([], AcqAlloc(0), true)] && s.pools[0].acquired == 1;
    es, s := Play(threadCount, es, s, Go(0));
  }

  /** For every number of threads, one included: acquire, `drop_now`, `stats` - and one buffer is
      reported in use, though nobody holds any and all threads are idle. */
  lemma DropNowStaysInUse(threadCount: nat) returns (es: seq<Event>, s: State)
    requires threadCount > 0
    ensures Reaches(threadCount, es, s) && AllIdle(s) && s.handles == [] && s.leaked == []
    ensures |s.snapshots| == 1 && InUse(s.snapshots[0]) == 1
  {
    hide Reaches;
    es, s := AcquireOne(threadCount);
    es, s := Play(threadCount, es, s, Start(0, DropNow(0)));
    assert OneOut(s, threadCount, Idle, [], 1);
    es, s := Play(threadCount, es, s, Start(0, Stats(0)));
    assert OneOut(s, threadCount, StatsLen(0), [], 1);
    es, s := ReportAll(threadCount, es, s);
  }

  lemma ReportAll(threadCount: nat, es: seq<Event>, s: State) returns (es': seq<Event>, s': State)
    requires Reaches(threadCount, es, s) && OneOut(s, threadCount, StatsLen(0), [], 1) && s.snapshots == []
    ensures Reaches(threadCount, es', s') && OneOut(s', threadCount, Idle, [], 1)
    ensures |s'.snapshots| == 1 && s'.snapshots[0].acquired == 1 && s'.snapshots[0].returned == 0
  {
    hide Reaches;
    es', s' := LoadNext(threadCount, es, s, 0);
    es', s' := LoadNext(threadCount, es', s', 0);
    es', s' := LoadNext(threadCount, es', s', 0);
    es', s' := LoadNext(threadCount, es', s', 0);
    es', s' := LoadNext(threadCount, es', s', 0);
  }

  /** In all runs of T threads every snapshot of a pool that has lost no buffer to `leak` or `drop_now`
      counts exactly its live handles, if and only if T = 1. */
  lemma InUseExactIffSolo(threadCount: nat)
    requires threadCount > 0
    ensures (forall es, s, t: nat ::
               Reaches(threadCount, es, s) && Reporting(s, t) && Lost(s, s.threads[t].pc.pool) == 0
               ==> InUse(Report(s, t)) == Live(s, s.threads[t].pc.pool))
            <==> threadCount == 1
  {
    if threadCount == 1 {
      forall es, s, t: nat | Reaches(threadCount, es, s) && Reporting(s, t) && Lost(s, s.threads[t].pc.pool) == 0
        ensures InUse(Report(s, t)) == Live(s, s.threads[t].pc.pool)
      {
        ReachedSolo(es, s);
        SoloInUse(es, s);
      }
    } else {
      var es, s := LoadContradiction(threadCount);
      SumSingle(Handle(0, 0), OfPool(0));
      assert Reporting(s, 0) && InUse(Report(s, 0)) == 0 && Lost(s, 0) == 0 && Live(s, 0) == 1;
    }
  }
}
