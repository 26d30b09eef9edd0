/** What a call has done when it returns, whatever the other threads did in the meantime: which buffers
    it handed out, enqueued or destroyed, and what it must have seen to do so. */
module FastPoolOutcomes {
  import opened Bytes
  import opened Buffers
  import opened FastPool
  import opened FastPoolCounter
  import opened FastPoolProgress
  import opened Runs

  // ---- what a thread did itself, and what was true at some moment ----

  /** What the accesses of one thread handed out, enqueued into the pool of its call, and destroyed. */
  datatype Done = Done(gained: seq<Handle>, queued: seq<nat>, dropped: seq<nat>)

  const Nothing: Done := Done([], [], [])

  function Added(before: seq<nat>, after: seq<nat>): seq<nat> {
    if |before| < |after| then after[|before|..] else []
  }

  function Then(first: Done, rest: Done): Done {
    Done(first.gained + rest.gained, first.queued + rest.queued, first.dropped + rest.dropped)
  }

  function AccessDone(pool: Pool, th: Thread, store: seq<Buf>): Done
    requires Busy(th, store)
  {
    var x := Access(pool, th, store);
    Done(x.gained, Added(pool.queue, x.pool.queue), x.dropped)
  }

  ghost function OwnDone(s: State, fs: seq<Event>, t: nat): Done
    requires Valid(FastSystem(), s, fs)
    decreases |fs|
  {
    if fs == [] then Nothing
    else
      var rest := OwnDone(Apply(s, fs[0]), fs[1..], t);
      if fs[0] == Go(t) then Then(AccessDone(s.pools[s.threads[t].pc.pool], s.threads[t], s.store), rest) else rest
  }

  /** Some state of the run satisfies `holds`. */
  ghost predicate Sometime(s: State, fs: seq<Event>, holds: State -> bool)
    requires Valid(FastSystem(), s, fs)
    decreases |fs|
  {
    holds(s) || (fs != [] && Sometime(Apply(s, fs[0]), fs[1..], holds))
  }

  /** That state is the end of some prefix of the run. */
  lemma {:induction false} SometimeAfterPrefix(s: State, fs: seq<Event>, holds: State -> bool) returns (k: nat)
    requires Valid(FastSystem(), s, fs) && Sometime(s, fs, holds)
    ensures k <= |fs| && Valid(FastSystem(), s, fs[..k]) && holds(After(FastSystem(), s, fs[..k]))
    decreases |fs|
  {
    if holds(s) {
      k := 0;
    } else {
      k := SometimeAfterPrefix(Apply(s, fs[0]), fs[1..], holds);
      k := k + 1;
      assert fs[..k][0] == fs[0] && fs[..k][1..] == fs[1..][..k - 1];
    }
  }

  function QueueEmpty(p: nat): State -> bool {
    (s: State) => p < |s.pools| && s.pools[p].queue == []
  }

  /** Buffer `b` is the next to leave the queue. */
  function AtHead(p: nat, b: nat): State -> bool {
    (s: State) => p < |s.pools| && s.pools[p].queue != [] && s.pools[p].queue[0] == b
  }

  /** The size test finds room, or does not. */
  function RoomSeen(p: nat, room: bool): State -> bool {
    (s: State) => p < |s.pools| && (s.pools[p].size < s.pools[p].config.maxPool <==> room)
  }

  function CounterAt(p: nat, c: nat): State -> bool {
    (s: State) => p < |s.pools| && s.pools[p].size == c
  }

  /** Buffer `b` is the next to be created. */
  function NextNew(b: nat): State -> bool {
    (s: State) => |s.store| == b
  }

  /** Where a thread stands and what it has cached, at the end of a run. */
  ghost function Ends(s: State, fs: seq<Event>, t: nat): Thread
    requires Valid(FastSystem(), s, fs) && t < |After(FastSystem(), s, fs).threads|
  {
    After(FastSystem(), s, fs).threads[t]
  }

  /** The thread is in the run, and begins no further call. */
  ghost predicate Follows(s: State, fs: seq<Event>, t: nat) {
    PcsInRange(s) && t < |s.threads| && Valid(FastSystem(), s, fs) && NoStart(fs, t)
  }

  /** One event of a run: nothing for the thread unless it is its own access. */
  lemma FollowsOn(s: State, fs: seq<Event>, t: nat)
    requires Follows(s, fs, t) && fs != []
    ensures var s' := Apply(s, fs[0]);
      && Follows(s', fs[1..], t) && |s.pools| <= |s'.pools|
      && (fs[0] != Go(t) ==> s'.threads[t] == s.threads[t])
    ensures fs[0] == Go(t) ==>
      var th := s.threads[t];
      && !th.pc.Idle? && th.pc.pool < |s.pools| && Busy(th, s.store)
      && Apply(s, fs[0]).threads[t] == Access(s.pools[th.pc.pool], th, s.store).thread
  {
    PcsInRangeKept(s, fs[0]);
    NoStartTail(fs, t);
    if fs[0] != Go(t) { OthersCannotDelay(s, fs[0], t); }
  }

  lemma {:induction false} ThreadsLast(s: State, fs: seq<Event>, t: nat)
    requires Follows(s, fs, t)
    ensures t < |After(FastSystem(), s, fs).threads|
    decreases |fs|
  {
    if fs != [] {
      FollowsOn(s, fs, t);
      ThreadsLast(Apply(s, fs[0]), fs[1..], t);
    }
  }

  /** A thread that is idle does nothing more. */
  lemma {:induction false} IdleDoesNothing(s: State, fs: seq<Event>, t: nat)
    requires Follows(s, fs, t) && s.threads[t].pc.Idle?
    ensures OwnDone(s, fs, t) == Nothing
    ensures t < |After(FastSystem(), s, fs).threads| && Ends(s, fs, t) == s.threads[t]
    decreases |fs|
  {
    if fs != [] {
      FollowsOn(s, fs, t);
      IdleDoesNothing(Apply(s, fs[0]), fs[1..], t);
    }
  }

  // ---- clear ----

  lemma ClearAccessDone(pool: Pool, th: Thread, store: seq<Buf>)
    requires InClear(th.pc)
    ensures var x := Access(pool, th, store); var done := AccessDone(pool, th, store);
      && done.gained == [] && done.queued == [] && x.thread.cache == th.cache
      && (InClear(x.thread.pc) || x.thread.pc.Idle?)
      && (x.thread.pc.Idle? ==> pool.queue == [])
      && (x.thread.pc.Idle? || x.thread.pc.pool == th.pc.pool)
      && (if th.pc.ClearSub? then done.dropped == [th.pc.buf] else done.dropped == [])
      && (x.thread.pc.ClearSub? ==> pool.queue != [] && x.thread.pc.buf == pool.queue[0])
  {}

  /** Each of these buffers was at the head of the queue at some moment, or in the thread's hands before. */
  ghost predicate AllTaken(s: State, fs: seq<Event>, t: nat, p: nat, bs: seq<nat>)
    requires Valid(FastSystem(), s, fs) && t < |s.threads|
  {
    forall i :: 0 <= i < |bs| ==>
      Sometime(s, fs, AtHead(p, bs[i])) || (s.threads[t].pc.ClearSub? && s.threads[t].pc.buf == bs[i])
  }

  lemma {:induction false} ClearRun(s: State, fs: seq<Event>, t: nat, p: nat)
    requires Follows(s, fs, t) && InClear(s.threads[t].pc) && s.threads[t].pc.pool == p
    ensures t < |After(FastSystem(), s, fs).threads|
    ensures OwnDone(s, fs, t).gained == [] && OwnDone(s, fs, t).queued == []
    ensures AllTaken(s, fs, t, p, OwnDone(s, fs, t).dropped)
    ensures Ends(s, fs, t).pc.Idle? ==> Sometime(s, fs, QueueEmpty(p)) && Ends(s, fs, t).cache == s.threads[t].cache
    decreases |fs|
  {
    if fs != [] {
      FollowsOn(s, fs, t);
      var s' := Apply(s, fs[0]);
      if fs[0] == Go(t) { ClearAccessDone(s.pools[p], s.threads[t], s.store); }
      if s'.threads[t].pc.Idle? {
        IdleDoesNothing(s', fs[1..], t);
      } else {
        ClearRun(s', fs[1..], t, p);
      }
    }
  }

  /** A `clear` that returns has found the queue empty at some moment, in every interleaving; it enqueued
      and handed out nothing, and destroyed only what it took from the head of the queue. */
  lemma ClearReturnsAfterEmpty(threadCount: nat, es: seq<Event>, s: State, t: nat, p: nat, fs: seq<Event>)
    requires Reaches(threadCount, es, s) && Enabled(s, Start(t, Clear(p)))
    requires Valid(FastSystem(), Begin(s, t, Clear(p)), fs) && NoStart(fs, t)
    ensures var s1 := Begin(s, t, Clear(p));
      && t < |After(FastSystem(), s1, fs).threads|
      && OwnDone(s1, fs, t).gained == [] && OwnDone(s1, fs, t).queued == []
      && (Ends(s1, fs, t).pc.Idle? ==> Sometime(s1, fs, QueueEmpty(p)))
      && var d := OwnDone(s1, fs, t).dropped; forall i :: 0 <= i < |d| ==> Sometime(s1, fs, AtHead(p, d[i]))
  {
    CallFollows(threadCount, es, s, t, Clear(p), fs);
    ClearRun(Begin(s, t, Clear(p)), fs, t, p);
  }

  lemma CallFollows(threadCount: nat, es: seq<Event>, s: State, t: nat, call: Call, fs: seq<Event>)
    requires Reaches(threadCount, es, s) && Enabled(s, Start(t, call))
    requires Valid(FastSystem(), Begin(s, t, call), fs) && NoStart(fs, t)
    ensures Follows(Begin(s, t, call), fs, t)
  {
    ReachedRange(threadCount, es, s);
    PcsInRangeKept(s, Start(t, call));
    StartFrame(s, t, call);
  }

  lemma ReachedRange(threadCount: nat, es: seq<Event>, s: State)
    requires Reaches(threadCount, es, s)
    ensures PcsInRange(s)
  {
    forall s, e | PcsInRange(s) && Enabled(s, e) ensures PcsInRange(Apply(s, e)) {
      PcsInRangeKept(s, e);
    }
    RunInvariant(threadCount, es, s, PcsInRange, _ => true);
  }

  /** Somebody enqueues into pool `p` in the course of the run. */
  ghost predicate SomebodyEnqueues(s: State, fs: seq<Event>, p: nat)
    requires Valid(FastSystem(), s, fs)
    decreases |fs|
  {
    fs != [] &&
    ((p < |s.pools| && p < |Apply(s, fs[0]).pools| && |Apply(s, fs[0]).pools[p].queue| > |s.pools[p].queue|)
     || SomebodyEnqueues(Apply(s, fs[0]), fs[1..], p))
  }

  lemma PoolsStay(s: State, e: Event)
    requires Enabled(s, e)
    ensures |s.pools| <= |Apply(s, e).pools|
  {
    if e.Start? { StartFrame(s, e.t, e.call); }
  }

  lemma {:induction false} EmptyStaysEmpty(s: State, fs: seq<Event>, p: nat)
    requires Valid(FastSystem(), s, fs) && Sometime(s, fs, QueueEmpty(p)) && p < |s.pools|
    requires !SomebodyEnqueues(s, fs, p)
    ensures QueueEmpty(p)(After(FastSystem(), s, fs))
    decreases |fs|
  {
    if fs != [] {
      PoolsStay(s, fs[0]);
      EmptyStaysEmpty(Apply(s, fs[0]), fs[1..], p);
    }
  }

  /** So if nobody enqueues meanwhile, the queue is empty when `clear` returns. */
  lemma ClearEmptiesUnlessFed(threadCount: nat, es: seq<Event>, s: State, t: nat, p: nat, fs: seq<Event>)
    requires Reaches(threadCount, es, s) && Enabled(s, Start(t, Clear(p)))
    requires Valid(FastSystem(), Begin(s, t, Clear(p)), fs) && NoStart(fs, t)
    requires !SomebodyEnqueues(Begin(s, t, Clear(p)), fs, p)
    ensures var s' := After(FastSystem(), Begin(s, t, Clear(p)), fs);
      t < |s'.threads| && (s'.threads[t].pc.Idle? ==> p < |s'.pools| && s'.pools[p].queue == [])
  {
    ClearReturnsAfterEmpty(threadCount, es, s, t, p, fs);
    StartFrame(s, t, Clear(p));
    var s1 := Begin(s, t, Clear(p));
    if Ends(s1, fs, t).pc.Idle? { EmptyStaysEmpty(s1, fs, p); }
  }

  // ---- acquire ----

  lemma AcquireAccessDone(pool: Pool, th: Thread, store: seq<Buf>)
    requires InAcquire(th.pc)
    ensures var x := Access(pool, th, store); var done := AccessDone(pool, th, store); var c := th.cache;
      && done.queued == [] && done.dropped == []
      && match th.pc
         case AcqCache(p) =>
           if c != [] then x.thread == th.(cache := c[..|c| - 1], pc := Idle) && done.gained == [Handle(p, c[|c| - 1])]
           else x.thread == th.(pc := AcqPop(p)) && done.gained == []
         case AcqPop(p) =>
           done.gained == [] &&
           x.thread == th.(pc := if pool.queue == [] then AcqAlloc(p) else AcqSub(p, pool.queue[0]))
         case AcqSub(p, b) => x.thread == th.(pc := Idle) && done.gained == [Handle(p, b)]
         case AcqAlloc(p) => x.thread == th.(pc := Idle) && done.gained == [Handle(p, |store|)]
  {}

  /** The buffer came out of the queue, or the queue was found empty and the buffer is new. */
  ghost predicate QueuedOrNew(s: State, fs: seq<Event>, p: nat, b: nat)
    requires Valid(FastSystem(), s, fs)
  {
    Sometime(s, fs, AtHead(p, b)) || (Sometime(s, fs, QueueEmpty(p)) && Sometime(s, fs, NextNew(b)))
  }

  /** What an acquire that stands at `pc` still owes to its caller when it returns. */
  ghost predicate AcquireOwes(s: State, fs: seq<Event>, t: nat, p: nat, done: Done, last: Thread)
    requires Valid(FastSystem(), s, fs) && t < |s.threads|
  {
    var th := s.threads[t];
    && |done.gained| == 1 && done.gained[0].pool == p && done.queued == [] && done.dropped == []
    && var b := done.gained[0].buf; var c := th.cache;
    && (if th.pc.AcqCache? && c != [] then b == c[|c| - 1] && last == th.(cache := c[..|c| - 1], pc := Idle)
        else last == th.(pc := Idle))
    && (th.pc.AcqCache? && c == [] ==> QueuedOrNew(s, fs, p, b))
    && (th.pc.AcqPop? ==> QueuedOrNew(s, fs, p, b))
    && (th.pc.AcqSub? ==> b == th.pc.buf)
    && (th.pc.AcqAlloc? ==> Sometime(s, fs, NextNew(b)))
  }

  lemma {:induction false} AcquireRun(s: State, fs: seq<Event>, t: nat, p: nat)
    requires Follows(s, fs, t) && InAcquire(s.threads[t].pc) && s.threads[t].pc.pool == p
    ensures t < |After(FastSystem(), s, fs).threads|
    ensures Ends(s, fs, t).pc.Idle? ==> AcquireOwes(s, fs, t, p, OwnDone(s, fs, t), Ends(s, fs, t))
    decreases |fs|
  {
    if fs != [] {
      FollowsOn(s, fs, t);
      var s' := Apply(s, fs[0]);
      if fs[0] == Go(t) { AcquireAccessDone(s.pools[p], s.threads[t], s.store); }
      if s'.threads[t].pc.Idle? {
        IdleDoesNothing(s', fs[1..], t);
      } else {
        AcquireRun(s', fs[1..], t, p);
      }
    }
  }

  /** An `acquire` that returns, in every interleaving: exactly one handle and nothing enqueued or
      destroyed; the buffer cached last if there was one; else one that was at the head of the queue at
      some moment; else - and then the queue was found empty - a new one. */
  lemma AcquireOutcome(threadCount: nat, es: seq<Event>, s: State, t: nat, p: nat, fs: seq<Event>)
    requires Reaches(threadCount, es, s) && Enabled(s, Start(t, Acquire(p)))
    requires Valid(FastSystem(), Begin(s, t, Acquire(p)), fs) && NoStart(fs, t)
    ensures var s1 := Begin(s, t, Acquire(p));
      t < |After(FastSystem(), s1, fs).threads|
    ensures var s1 := Begin(s, t, Acquire(p)); var done := OwnDone(s1, fs, t); var c := s.threads[t].cache;
      Ends(s1, fs, t).pc.Idle? ==>
        && |done.gained| == 1 && done.gained[0].pool == p && done.queued == [] && done.dropped == []
        && var b := done.gained[0].buf;
        if c != [] then b == c[|c| - 1] && Ends(s1, fs, t).cache == c[..|c| - 1]
        else QueuedOrNew(s1, fs, p, b) && Ends(s1, fs, t).cache == []
  {
    CallFollows(threadCount, es, s, t, Acquire(p), fs);
    AcquireRun(Begin(s, t, Acquire(p)), fs, t, p);
  }

  // ---- drop ----

  lemma DropAccessDone(pool: Pool, th: Thread, store: seq<Buf>)
    requires InDrop(th.pc)
    ensures var x := Access(pool, th, store); var done := AccessDone(pool, th, store); var c := th.cache;
      && done.gained == []
      && match th.pc
         case DropCache(p, b) =>
           && done.queued == [] && done.dropped == []
           && x.thread == if th.alive && |c| < 16 then th.(cache := c + [b], pc := Idle) else th.(pc := DropLen(p, b))
         case DropLen(p, b) =>
           && done.queued == []
           && if pool.size < pool.config.maxPool then x.thread == th.(pc := DropEnq(p, b)) && done.dropped == []
              else x.thread == th.(pc := Idle) && done.dropped == [b]
         case DropEnq(p, b) => x.thread == th.(pc := DropAdd(p)) && done.queued == [b] && done.dropped == []
         case DropAdd(p) => x.thread == th.(pc := Idle) && done.queued == [] && done.dropped == []
  {}

  /** The buffer was enqueued when the counter showed room, or destroyed when it did not. */
  ghost predicate QueuedOrFreed(s: State, fs: seq<Event>, p: nat, b: nat, done: Done)
    requires Valid(FastSystem(), s, fs)
  {
    || (done.queued == [b] && done.dropped == [] && Sometime(s, fs, RoomSeen(p, true)))
    || (done.queued == [] && done.dropped == [b] && Sometime(s, fs, RoomSeen(p, false)))
  }

  ghost predicate DropOwes(s: State, fs: seq<Event>, t: nat, p: nat, done: Done, last: Thread)
    requires Valid(FastSystem(), s, fs) && t < |s.threads|
  {
    var th := s.threads[t];
    && done.gained == []
    && match th.pc
       case DropCache(_, b) =>
         if th.alive && |th.cache| < 16 then
           done == Nothing && last == th.(cache := th.cache + [b], pc := Idle)
         else QueuedOrFreed(s, fs, p, b, done) && last == th.(pc := Idle)
       case DropLen(_, b) => QueuedOrFreed(s, fs, p, b, done) && last == th.(pc := Idle)
       case DropEnq(_, b) => done.queued == [b] && done.dropped == [] && last == th.(pc := Idle)
       case _ => done == Nothing && last == th.(pc := Idle)
  }

  lemma {:induction false} DropRun(s: State, fs: seq<Event>, t: nat, p: nat)
    requires Follows(s, fs, t) && InDrop(s.threads[t].pc) && s.threads[t].pc.pool == p
    ensures t < |After(FastSystem(), s, fs).threads|
    ensures Ends(s, fs, t).pc.Idle? ==> DropOwes(s, fs, t, p, OwnDone(s, fs, t), Ends(s, fs, t))
    decreases |fs|
  {
    if fs != [] {
      FollowsOn(s, fs, t);
      var s' := Apply(s, fs[0]);
      if fs[0] == Go(t) { DropAccessDone(s.pools[p], s.threads[t], s.store); }
      if s'.threads[t].pc.Idle? {
        IdleDoesNothing(s', fs[1..], t);
      } else {
        DropRun(s', fs[1..], t, p);
      }
    }
  }

  /** The drop of a handle that returns, in every interleaving: its buffer is the last in the thread's cache
      if that had room; else it is in the queue, and the counter showed room at some moment; else it is
      destroyed, and the counter showed none at some moment. */
  lemma DropOutcome(threadCount: nat, es: seq<Event>, s: State, t: nat, h: nat, fs: seq<Event>)
    requires Reaches(threadCount, es, s) && Enabled(s, Start(t, DropHandle(h)))
    requires Valid(FastSystem(), Begin(s, t, DropHandle(h)), fs) && NoStart(fs, t)
    ensures t < |After(FastSystem(), Begin(s, t, DropHandle(h)), fs).threads|
    ensures var s1 := Begin(s, t, DropHandle(h)); var done := OwnDone(s1, fs, t); var th := s.threads[t];
      var Handle(p, b) := s.handles[h];
      Ends(s1, fs, t).pc.Idle? ==>
        && done.gained == []
        && if th.alive && |th.cache| < 16 then done == Nothing && Ends(s1, fs, t).cache == th.cache + [b]
           else QueuedOrFreed(s1, fs, p, b, done) && Ends(s1, fs, t).cache == th.cache
  {
    CallFollows(threadCount, es, s, t, DropHandle(h), fs);
    DropRun(Begin(s, t, DropHandle(h)), fs, t, s.handles[h].pool);
  }

  // ---- clear_thread_cache ----

  /** `c`, taken from its end, went to `queued` and `dropped`, each in that order. */
  predicate Splits(queued: seq<nat>, dropped: seq<nat>, c: seq<nat>)
    decreases |c|
  {
    if c == [] then queued == [] && dropped == []
    else
      var last := |c| - 1;
      || (queued != [] && queued[0] == c[last] && Splits(queued[1..], dropped, c[..last]))
      || (dropped != [] && dropped[0] == c[last] && Splits(queued, dropped[1..], c[..last]))
  }

  /** One access of `clear_thread_cache`, and what it did. */
  predicate FlushMoves(th: Thread, after: Thread, done: Done, room: bool) {
    var c := th.cache;
    match th.pc
    case FlushPop(p) =>
      && done == Nothing
      && after == if c == [] then th.(pc := Idle) else th.(cache := c[..|c| - 1], pc := FlushLen(p, c[|c| - 1]))
    case FlushLen(p, b) =>
      if room then after == th.(pc := FlushEnq(p, b)) && done == Nothing
      else after == th.(pc := FlushPop(p)) && done == Done([], [], [b])
    case FlushEnq(p, b) => after == th.(pc := FlushAdd(p)) && done == Done([], [b], [])
    case FlushAdd(p) => after == th.(pc := FlushPop(p)) && done == Nothing
    case _ => false
  }

  lemma FlushAccessDone(pool: Pool, th: Thread, store: seq<Buf>)
    requires InFlush(th.pc) && Busy(th, store)
    ensures FlushMoves(th, Access(pool, th, store).thread, AccessDone(pool, th, store), pool.size < pool.config.maxPool)
  {}

  /** How what is still to be done splits what the thread has in its cache and in its hands. */
  predicate Splitting(th: Thread, done: Done) {
    match th.pc
    case FlushLen(_, b) => Splits(done.queued, done.dropped, th.cache + [b])
    case FlushEnq(_, b) => done.queued != [] && done.queued[0] == b && Splits(done.queued[1..], done.dropped, th.cache)
    case _ => Splits(done.queued, done.dropped, th.cache)
  }

  lemma SplittingBefore(th: Thread, after: Thread, first: Done, room: bool, done: Done)
    requires FlushMoves(th, after, first, room) && !after.pc.Idle? && Splitting(after, done)
    ensures Splitting(th, Then(first, done))
  {
    hide Splits, Then;
    var c := th.cache;
    match th.pc
    case FlushPop(_) =>
      ThenNothing(done);
      assert c[..|c| - 1] + [c[|c| - 1]] == c;
    case FlushLen(_, b) =>
      if room {
        ThenNothing(done);
        SplitsOne(done.queued[1..], done.dropped, c, b);
        assert [b] + done.queued[1..] == done.queued;
      } else {
        ThenOne(b, done);
        SplitsOne(done.queued, done.dropped, c, b);
      }
    case FlushEnq(_, b) =>
      ThenOne(b, done);
      assert ([b] + done.queued)[1..] == done.queued;
    case FlushAdd(_) => ThenNothing(done);
  }

  lemma ThenNothing(done: Done)
    ensures Then(Nothing, done) == done
  {
    assert [] + done.gained == done.gained && [] + done.queued == done.queued && [] + done.dropped == done.dropped;
  }

  lemma ThenOne(b: nat, done: Done)
    ensures Then(Done([], [], [b]), done) == Done(done.gained, done.queued, [b] + done.dropped)
    ensures Then(Done([], [b], []), done) == Done(done.gained, [b] + done.queued, done.dropped)
  {
    assert [] + done.gained == done.gained && [] + done.queued == done.queued && [] + done.dropped == done.dropped;
  }

  lemma SplitsOne(queued: seq<nat>, dropped: seq<nat>, c: seq<nat>, b: nat)
    requires Splits(queued, dropped, c)
    ensures Splits([b] + queued, dropped, c + [b]) && Splits(queued, [b] + dropped, c + [b])
  {
    assert (c + [b])[|c|] == b && (c + [b])[..|c|] == c;
    assert ([b] + queued)[1..] == queued && ([b] + dropped)[1..] == dropped;
  }

  ghost predicate FlushOwes(s: State, fs: seq<Event>, t: nat, p: nat, done: Done, last: Thread)
    requires Valid(FastSystem(), s, fs) && t < |s.threads|
  {
    var th := s.threads[t];
    && done.gained == [] && last == th.(cache := [], pc := Idle) && Splitting(th, done)
    && (done.dropped != [] ==> Sometime(s, fs, RoomSeen(p, false)))
    && (done.queued != [] && !th.pc.FlushEnq? ==> Sometime(s, fs, RoomSeen(p, true)))
  }

  lemma FlushStep(s: State, fs: seq<Event>, t: nat, p: nat, done: Done, last: Thread)
    requires Follows(s, fs, t) && InFlush(s.threads[t].pc) && s.threads[t].pc.pool == p
    requires fs != [] && fs[0] == Go(t) && !Apply(s, fs[0]).threads[t].pc.Idle?
    requires |Apply(s, fs[0]).threads| == |s.threads| && Valid(FastSystem(), Apply(s, fs[0]), fs[1..])
    requires FlushOwes(Apply(s, fs[0]), fs[1..], t, p, done, last)
    requires Busy(s.threads[t], s.store) && p < |s.pools|
    ensures FlushOwes(s, fs, t, p, Then(AccessDone(s.pools[p], s.threads[t], s.store), done), last)
  {
    hide Splitting, Access, AccessDone, Enabled;
    var pool, th := s.pools[p], s.threads[t];
    var after := Apply(s, fs[0]).threads[t];
    FollowsOn(s, fs, t);
    FlushAccessDone(pool, th, s.store);
    SplittingBefore(th, after, AccessDone(pool, th, s.store), pool.size < pool.config.maxPool, done);
  }

  lemma {:induction false} FlushRun(s: State, fs: seq<Event>, t: nat, p: nat)
    requires Follows(s, fs, t) && InFlush(s.threads[t].pc) && s.threads[t].pc.pool == p
    ensures t < |After(FastSystem(), s, fs).threads|
    ensures Ends(s, fs, t).pc.Idle? ==> FlushOwes(s, fs, t, p, OwnDone(s, fs, t), Ends(s, fs, t))
    decreases |fs|
  {
    if fs != [] {
      FollowsOn(s, fs, t);
      var s' := Apply(s, fs[0]);
      if fs[0] == Go(t) { FlushAccessDone(s.pools[p], s.threads[t], s.store); }
      if s'.threads[t].pc.Idle? {
        IdleDoesNothing(s', fs[1..], t);
      } else {
        FlushRun(s', fs[1..], t, p);
        if fs[0] == Go(t) && Ends(s, fs, t).pc.Idle? {
          ThreadsStay(s, fs[0]);
          FlushStep(s, fs, t, p, OwnDone(s', fs[1..], t), Ends(s', fs[1..], t));
        }
      }
    }
  }

  /** A `clear_thread_cache` that returns, in every interleaving: the cache is empty; its buffers, from the
      end, were enqueued or destroyed, each in that order; one was enqueued only if the counter
      showed room at some moment, and destroyed only if it showed none at some moment. */
  lemma FlushOutcome(threadCount: nat, es: seq<Event>, s: State, t: nat, p: nat, fs: seq<Event>)
    requires Reaches(threadCount, es, s) && Enabled(s, Start(t, ClearThreadCache(p)))
    requires Valid(FastSystem(), Begin(s, t, ClearThreadCache(p)), fs) && NoStart(fs, t)
    ensures t < |After(FastSystem(), Begin(s, t, ClearThreadCache(p)), fs).threads|
    ensures var s1 := Begin(s, t, ClearThreadCache(p)); var done := OwnDone(s1, fs, t);
      Ends(s1, fs, t).pc.Idle? ==>
        && Ends(s1, fs, t).cache == [] && done.gained == []
        && Splits(done.queued, done.dropped, s.threads[t].cache)
        && (done.queued != [] ==> Sometime(s1, fs, RoomSeen(p, true)))
        && (done.dropped != [] ==> Sometime(s1, fs, RoomSeen(p, false)))
  {
    CallFollows(threadCount, es, s, t, ClearThreadCache(p), fs);
    FlushRun(Begin(s, t, ClearThreadCache(p)), fs, t, p);
  }

  // ---- warm ----

  /** The counter is `k` short of min(n, max_pool_size), or not short of it and `k` is 0. */
  function Short(p: nat, n: nat, k: nat): State -> bool {
    (s: State) =>
      && p < |s.pools|
      && var goal := Min(n, s.pools[p].config.maxPool);
         k == if s.pools[p].size < goal then goal - s.pools[p].size else 0
  }

  lemma WarmAccessDone(pool: Pool, th: Thread, store: seq<Buf>)
    requires InWarm(th.pc) && (th.pc.WarmEnq? ==> th.pc.left > 0)
    ensures var x := Access(pool, th, store); var done := AccessDone(pool, th, store);
      && done.gained == [] && done.dropped == [] && x.thread == th.(pc := x.thread.pc)
      && match th.pc
         case WarmLen(p, n) =>
           && done.queued == []
           && var goal := Min(n, pool.config.maxPool);
              x.thread.pc == WarmNext(p, if pool.size < goal then goal - pool.size else 0)
         case WarmEnq(p, left) => done.queued == [|store|] && x.thread.pc == WarmAdd(p, left - 1)
         case WarmAdd(p, left) => done.queued == [] && x.thread.pc == WarmNext(p, left)
  {}

  ghost predicate AllNew(s: State, fs: seq<Event>, bs: seq<nat>)
    requires Valid(FastSystem(), s, fs)
  {
    forall i :: 0 <= i < |bs| ==> Sometime(s, fs, NextNew(bs[i]))
  }

  ghost predicate WarmOwes(s: State, fs: seq<Event>, t: nat, p: nat, done: Done, last: Thread)
    requires Valid(FastSystem(), s, fs) && t < |s.threads|
  {
    var th := s.threads[t];
    && done.gained == [] && done.dropped == [] && last == th.(pc := Idle) && AllNew(s, fs, done.queued)
    && match th.pc
       case WarmLen(_, n) => Sometime(s, fs, Short(p, n, |done.queued|))
       case WarmEnq(_, left) => |done.queued| == left
       case WarmAdd(_, left) => |done.queued| == left
       case _ => false
  }

  lemma {:induction false} WarmRun(s: State, fs: seq<Event>, t: nat, p: nat)
    requires Follows(s, fs, t) && InWarm(s.threads[t].pc) && s.threads[t].pc.pool == p
    ensures t < |After(FastSystem(), s, fs).threads|
    ensures Ends(s, fs, t).pc.Idle? ==> WarmOwes(s, fs, t, p, OwnDone(s, fs, t), Ends(s, fs, t))
    decreases |fs|
  {
    if fs != [] {
      FollowsOn(s, fs, t);
      var s' := Apply(s, fs[0]);
      if fs[0] == Go(t) {
        assert PcInRange(s.threads[t].pc, |s.pools|);
        WarmAccessDone(s.pools[p], s.threads[t], s.store);
      }
      if s'.threads[t].pc.Idle? {
        IdleDoesNothing(s', fs[1..], t);
      } else {
        WarmRun(s', fs[1..], t, p);
        assert NextNew(|s.store|)(s);
      }
    }
  }

  /** A `warm(n)` that returns, in every interleaving: it has enqueued new buffers only, as many as the
      counter was short of min(n, max_pool_size) at some moment. */
  lemma WarmOutcome(threadCount: nat, es: seq<Event>, s: State, t: nat, p: nat, n: nat, fs: seq<Event>)
    requires Reaches(threadCount, es, s) && Enabled(s, Start(t, Warm(p, n)))
    requires Valid(FastSystem(), Begin(s, t, Warm(p, n)), fs) && NoStart(fs, t)
    ensures t < |After(FastSystem(), Begin(s, t, Warm(p, n)), fs).threads|
    ensures var s1 := Begin(s, t, Warm(p, n)); var done := OwnDone(s1, fs, t);
      Ends(s1, fs, t).pc.Idle? ==>
        && done.gained == [] && done.dropped == [] && Ends(s1, fs, t).cache == s.threads[t].cache
        && Sometime(s1, fs, Short(p, n, |done.queued|)) && AllNew(s1, fs, done.queued)
  {
    CallFollows(threadCount, es, s, t, Warm(p, n), fs);
    WarmRun(Begin(s, t, Warm(p, n)), fs, t, p);
  }

  // ---- calls that are over at once ----

  /** `leak` hands the buffer out exactly as its holder left it, and leaves the thread free. */
  lemma LeakOutcome(s: State, t: nat, h: nat)
    requires Enabled(s, Start(t, Leak(h)))
    ensures var s' := Begin(s, t, Leak(h));
      && s'.leaked == s.leaked + [s.handles[h]] && s'.store == s.store && s'.threads == s.threads && s'.pools == s.pools
      && |s'.handles| == |s.handles| - 1
  {}

  /** `drop_now` zeroes the buffer and destroys it; no cache and no queue receives it. */
  lemma DropNowOutcome(s: State, t: nat, h: nat)
    requires Enabled(s, Start(t, DropNow(h)))
    ensures var s' := Begin(s, t, DropNow(h)); var Handle(p, b) := s.handles[h];
      && s'.destroyed == s.destroyed + [b] && s'.store[b].Clean() && |s'.store[b].data| == |s.store[b].data|
      && s'.threads == s.threads && (forall q :: 0 <= q < |s.pools| ==> s'.pools[q].queue == s.pools[q].queue)
      && |s'.handles| == |s.handles| - 1
  {}

  /** A thread that exits takes its cached buffers with it, and can neither acquire nor cache again. */
  lemma ExitOutcome(s: State, t: nat)
    requires Enabled(s, Start(t, Exit))
    ensures var s' := Begin(s, t, Exit);
      && s'.destroyed == s.destroyed + s.threads[t].cache && s'.threads == s.threads[t := Thread([], Idle, false)]
      && s'.pools == s.pools && s'.handles == s.handles && s'.store == s.store
      && (forall p: nat :: !Enabled(s', Start(t, Acquire(p))) && !Enabled(s', Start(t, ClearThreadCache(p))))
  {}
}
