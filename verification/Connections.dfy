/** A connection's buffers: the bounded packet queue with its running byte counter, and the burn guard. */
module Connections {
  import opened Wrappers
  import opened Buffers
  import Rings
  import RingFifo
  import opened Runs
  import opened Sums

  datatype Config = Config(maxPackets: nat, maxBytes: nat)

  datatype QueueFull = TooManyPackets | TooManyBytes

  datatype Conn = Conn(readBuf: Option<Buf>, writeBuf: Option<Buf>, streams: seq<Rings.Ring>,
                       queue: seq<Buf>, config: Config, queueBytes: nat, burned: bool)

  function NewConn(config: Config): Conn {
    Conn(None, None, [], [], config, 0, false)
  }

  // ---- the packet queue ----

  function Enqueue(c: Conn, b: Buf): (Conn, Option<QueueFull>) {
    if |c.queue| >= c.config.maxPackets then (c, Some(TooManyPackets))
    else if c.queueBytes + b.len > c.config.maxBytes then (c, Some(TooManyBytes))
    else (c.(queueBytes := c.queueBytes + b.len, queue := c.queue + [b]), None)
  }

  function SaturatingSub(a: nat, b: nat): nat {
    if a >= b then a - b else 0
  }

  function Dequeue(c: Conn): (Conn, Option<Buf>) {
    if c.queue == [] then (c, None)
    else (c.(queue := c.queue[1..], queueBytes := SaturatingSub(c.queueBytes, c.queue[0].len)), Some(c.queue[0]))
  }

  // ---- lifecycle ----

  function ResetBuf(b: Option<Buf>): Option<Buf> {
    if b.Some? then Some(b.value.Reset()) else None
  }

  function BurnBuf(b: Option<Buf>): Option<Buf> {
    if b.Some? then Some(b.value.Burn()) else None
  }

  function ClearAll(rs: seq<Rings.Ring>): (cleared: seq<Rings.Ring>)
    ensures |cleared| == |rs| && forall i :: 0 <= i < |rs| ==> cleared[i] == Rings.Clear(rs[i])
  {
    seq(|rs|, i requires 0 <= i < |rs| => Rings.Clear(rs[i]))
  }

  function FreeAll(rs: seq<Rings.Ring>): (freed: seq<Rings.Ring>)
    ensures |freed| == |rs| && forall i :: 0 <= i < |rs| ==> freed[i] == Rings.Free(rs[i])
  {
    seq(|rs|, i requires 0 <= i < |rs| => Rings.Free(rs[i]))
  }

  function Reset(c: Conn): Conn {
    Conn(ResetBuf(c.readBuf), ResetBuf(c.writeBuf), ClearAll(c.streams), [], c.config, 0, false)
  }

  /** Guarded: a connection already marked as burned is left alone. */
  function Burn(c: Conn): Conn {
    if c.burned then c
    else Conn(BurnBuf(c.readBuf), BurnBuf(c.writeBuf), FreeAll(c.streams), [], c.config, 0, true)
  }

  /** Nothing of the connection's data is left: linear buffers zeroed, rings unallocated, queue empty. */
  predicate Gone(c: Conn) {
    && (c.readBuf.Some? ==> c.readBuf.value.Clean())
    && (c.writeBuf.Some? ==> c.writeBuf.value.Clean())
    && (forall i :: 0 <= i < |c.streams| ==> c.streams[i].data.None? && c.streams[i].used == 0)
    && c.queue == [] && c.queueBytes == 0
  }

  /** `burn` leaves nothing exactly when the guard lets it run, or nothing was there. */
  lemma BurnClearsIff(c: Conn)
    ensures Gone(Burn(c)) <==> !c.burned || Gone(c)
    ensures Burn(c).burned && Burn(Burn(c)) == Burn(c)
    ensures |Burn(c).streams| == |c.streams| && (Burn(c).readBuf.Some? <==> c.readBuf.Some?)
  {}

  // ---- runs ----

  datatype Event =
    | QueuePacket(b: Buf)
    | DequeuePacket
    | ResetAll
    | BurnAll
    | InitRead(size: nat)
    | InitWrite(size: nat)
    | AddStream(size: nat)
    | UseRead(b: Buf)
    | UseWrite(b: Buf)
    | UseStream(i: nat, r: Rings.Ring)

  /** The connection; the packets it has accepted so far; and those that have left the queue, in order,
      whether dequeued or discarded by reset or burn. */
  datatype World = World(conn: Conn, accepted: seq<Buf>, removed: seq<Buf>)

  predicate Possible(w: World, e: Event) {
    match e
    case InitRead(size) => size <= BUF_MAX_SIZE
    case InitWrite(size) => size <= BUF_MAX_SIZE
    case AddStream(size) => size <= Rings.MAX_CBUF_SIZE
    case UseRead(b) => w.conn.readBuf.Some? && b.Valid()
    case UseWrite(b) => w.conn.writeBuf.Some? && b.Valid()
    case UseStream(i, r) => i < |w.conn.streams| && r.Valid()
    case _ => true
  }

  function Next(w: World, e: Event): World
    requires Possible(w, e)
  {
    var c := w.conn;
    match e
    case QueuePacket(b) =>
      var (c', full) := Enqueue(c, b);
      World(c', if full.None? then w.accepted + [b] else w.accepted, w.removed)
    case DequeuePacket =>
      var (c', b) := Dequeue(c);
      World(c', w.accepted, if b.Some? then w.removed + [b.value] else w.removed)
    case ResetAll => World(Reset(c), w.accepted, w.removed + c.queue)
    case BurnAll => World(Burn(c), w.accepted, if c.burned then w.removed else w.removed + c.queue)
    case InitRead(size) => w.(conn := c.(readBuf := Some(New(size))))
    case InitWrite(size) => w.(conn := c.(writeBuf := Some(New(size))))
    case AddStream(size) => w.(conn := c.(streams := c.streams + [Rings.New(size)]))
    case UseRead(b) => w.(conn := c.(readBuf := Some(b)))
    case UseWrite(b) => w.(conn := c.(writeBuf := Some(b)))
    case UseStream(i, r) => w.(conn := c.(streams := c.streams[i := r]))
  }

  ghost function ConnSystem(): System<World, Event> {
    System((w, e) => Possible(w, e), (w, e) => if Possible(w, e) then Next(w, e) else w)
  }

  ghost predicate Reaches(config: Config, es: seq<Event>, w: World) {
    Valid(ConnSystem(), World(NewConn(config), [], []), es)
    && w == After(ConnSystem(), World(NewConn(config), [], []), es)
  }

  function PacketLen(): Buf -> int {
    (b: Buf) => b.len
  }

  predicate QueueOk(w: World) {
    var c := w.conn;
    && c.queueBytes == Sum(c.queue, PacketLen()) && c.queueBytes <= c.config.maxBytes
    && |c.queue| <= c.config.maxPackets
    && w.accepted == w.removed + c.queue
  }

  lemma QueueOkKept(w: World, e: Event)
    requires QueueOk(w) && Possible(w, e)
    ensures QueueOk(Next(w, e)) && Next(w, e).conn.config == w.conn.config
  {
    var c := w.conn;
    match e
    case QueuePacket(b) => SumAppend(c.queue, b, PacketLen());
    case DequeuePacket => if c.queue != [] { HeadFits(c.queue); assert c.queue == [c.queue[0]] + c.queue[1..]; }
    case _ =>
  }

  lemma {:induction false} LengthsNonNegative(q: seq<Buf>)
    ensures Sum(q, PacketLen()) >= 0
  {
    if q != [] { LengthsNonNegative(q[1..]); }
  }

  lemma HeadFits(q: seq<Buf>)
    requires q != []
    ensures q[0].len <= Sum(q, PacketLen())
  {
    LengthsNonNegative(q[1..]);
  }

  lemma ReachedQueueOk(config: Config, es: seq<Event>, w: World)
    requires Reaches(config, es, w)
    ensures QueueOk(w) && w.conn.config == config
  {
    var inv := (w: World) => QueueOk(w) && w.conn.config == config;
    forall w, e | inv(w) && Possible(w, e) ensures inv(Next(w, e)) {
      QueueOkKept(w, e);
    }
    Invariance(ConnSystem(), World(NewConn(config), [], []), es, inv, _ => true);
  }

  /** After every sequence of calls: the byte counter is the sum of the queued lengths, both limits hold,
      and packets have left the queue in exactly the order in which they were accepted. */
  lemma PacketQueueInvariant(config: Config, es: seq<Event>, w: World)
    requires Reaches(config, es, w)
    ensures w.conn.queueBytes == Sum(w.conn.queue, PacketLen()) <= config.maxBytes
    ensures |w.conn.queue| <= config.maxPackets
    ensures w.accepted == w.removed + w.conn.queue
  {
    ReachedQueueOk(config, es, w);
  }

  /** `dequeue_packet` gives the oldest packet that has not left yet, and its saturating subtraction
      never saturates. */
  lemma DequeueIsFifo(config: Config, es: seq<Event>, w: World)
    requires Reaches(config, es, w)
    ensures var (c, b) := Dequeue(w.conn);
      && (b.None? <==> |w.removed| == |w.accepted|)
      && (b.Some? ==> |w.removed| < |w.accepted| && b.value == w.accepted[|w.removed|]
                       && c.queueBytes == w.conn.queueBytes - b.value.len)
  {
    ReachedQueueOk(config, es, w);
    if w.conn.queue != [] { HeadFits(w.conn.queue); }
  }

  /** A packet is refused exactly when it would break a limit. */
  lemma RefusedIff(config: Config, es: seq<Event>, w: World, b: Buf)
    requires Reaches(config, es, w)
    ensures Enqueue(w.conn, b).1.Some? <==>
      |w.conn.queue| + 1 > config.maxPackets || Sum(w.conn.queue + [b], PacketLen()) > config.maxBytes
  {
    ReachedQueueOk(config, es, w);
    SumAppend(w.conn.queue, b, PacketLen());
  }

  /** The guard is not cleared by `init_*`: burn, attach a new buffer, store a byte, burn again - and
      the byte is still there. */
  lemma SecondBurnLeavesData() returns (es: seq<Event>, w: World)
    ensures Reaches(Config(1, 1), es, w) && es != [] && es[|es| - 1] == BurnAll
    ensures w.conn.readBuf == Some(Buf([7], 1, 1)) && !Gone(w.conn)
  {
    es, w := [], World(NewConn(Config(1, 1)), [], []);
    es, w := Play(Config(1, 1), es, w, BurnAll);
    es, w := Play(Config(1, 1), es, w, InitRead(1));
    es, w := Play(Config(1, 1), es, w, UseRead(Buf([7], 1, 1)));
    es, w := Play(Config(1, 1), es, w, BurnAll);
  }

  lemma Play(config: Config, es: seq<Event>, w: World, e: Event) returns (es': seq<Event>, w': World)
    requires Reaches(config, es, w) && Possible(w, e)
    ensures es' == es + [e] && w' == Next(w, e) && Reaches(config, es', w')
  {
    Extend(ConnSystem(), World(NewConn(config), [], []), es, e);
    es', w' := es + [e], Next(w, e);
  }

  /** Which limit refuses a packet: the count first, then the bytes. */
  lemma RefusalIs(config: Config, es: seq<Event>, w: World, b: Buf)
    requires Reaches(config, es, w)
    ensures var refusal := Enqueue(w.conn, b).1;
      && (refusal == Some(TooManyPackets) <==> |w.conn.queue| == config.maxPackets)
      && (refusal == Some(TooManyBytes) <==>
            |w.conn.queue| < config.maxPackets && Sum(w.conn.queue + [b], PacketLen()) > config.maxBytes)
  {
    ReachedQueueOk(config, es, w);
    SumAppend(w.conn.queue, b, PacketLen());
  }

  // ---- what a reset leaves ----

  /** Buffers and rings are in order, and rings have storage of their size or none. */
  predicate Sound(c: Conn) {
    && (c.readBuf.Some? ==> c.readBuf.value.Valid())
    && (c.writeBuf.Some? ==> c.writeBuf.value.Valid())
    && (forall i :: 0 <= i < |c.streams| ==> c.streams[i].Valid())
  }

  lemma ReachedSound(config: Config, es: seq<Event>, w: World)
    requires Reaches(config, es, w)
    ensures Sound(w.conn)
  {
    var inv := (w: World) => Sound(w.conn);
    forall w, e | inv(w) && Possible(w, e) ensures inv(Next(w, e)) {}
    Invariance(ConnSystem(), World(NewConn(config), [], []), es, inv, _ => true);
  }

  /** Nothing of the valid bytes is left to see, though the storage is as it was. */
  ghost predicate Emptied(before: Option<Buf>, after: Option<Buf>) {
    && (after.Some? <==> before.Some?)
    && (after.Some? ==>
          var a, b := before.value, after.value;
          && b.Valid() && b.data == a.data && b.data[..b.len] == []
          && b.GetByte().result == Err(BufferOverflow)
          && (forall n: nat :: b.GetBytes(n).result.Ok? <==> n == 0))
  }

  /** After `reset` of any connection that calls can lead to: the same streams, each standing for the empty
      queue of its size and as ready as a new ring, with its storage; both linear buffers, with their
      storage, show nothing; the packet queue is empty; and the next burn will do its work. */
  lemma ResetEmpties(config: Config, es: seq<Event>, w: World)
    requires Reaches(config, es, w)
    ensures var c, c' := w.conn, Reset(w.conn);
      && |c'.streams| == |c.streams|
      && (forall i :: 0 <= i < |c.streams| ==>
            var r := c'.streams[i];
            && r.Valid() && RingFifo.Abs(r) == RingFifo.Fifo([], c.streams[i].size)
            && r == Rings.New(r.size).(data := c.streams[i].data, isPow2 := r.isPow2))
      && Emptied(c.readBuf, c'.readBuf) && Emptied(c.writeBuf, c'.writeBuf)
      && c'.queue == [] && c'.queueBytes == 0 && !c'.burned && c'.config == c.config
  {
    ReachedSound(config, es, w);
    forall i | 0 <= i < |w.conn.streams| ensures Rings.Clear(w.conn.streams[i]).Valid() {
      RingFifo.ClearRestarts(w.conn.streams[i]);
    }
  }

  /** After an effective burn: the same buffers and streams, the buffers zeroed at their length, and each
      stream as a new ring of its size. */
  lemma BurnKeepsShape(config: Config, es: seq<Event>, w: World)
    requires Reaches(config, es, w) && !w.conn.burned
    ensures var c, c' := w.conn, Burn(w.conn);
      && |c'.streams| == |c.streams|
      && (forall i :: 0 <= i < |c.streams| ==>
            && c.streams[i].size <= Rings.MAX_CBUF_SIZE
            && c'.streams[i] == Rings.New(c.streams[i].size).(isPow2 := c.streams[i].isPow2))
      && c'.readBuf == (if c.readBuf.Some? then Some(New(|c.readBuf.value.data|)) else None)
      && c'.writeBuf == (if c.writeBuf.Some? then Some(New(|c.writeBuf.value.data|)) else None)
      && c'.queue == [] && c'.queueBytes == 0 && c'.burned && c'.config == c.config
  {
    ReachedSound(config, es, w);
    forall i | 0 <= i < |w.conn.streams| ensures Rings.Free(w.conn.streams[i]).Valid() {
      RingFifo.FreeRestarts(w.conn.streams[i]);
    }
    if w.conn.readBuf.Some? { CleanIsNew(w.conn.readBuf.value.Burn()); }
    if w.conn.writeBuf.Some? { CleanIsNew(w.conn.writeBuf.value.Burn()); }
  }

  // ---- what a burn leaves, over whole runs ----

  predicate NoReset(es: seq<Event>) {
    forall i :: 0 <= i < |es| ==> !es[i].ResetAll?
  }

  /** Some burn follows the last reset. */
  predicate BurnedSince(es: seq<Event>) {
    exists i :: 0 <= i < |es| && es[i].BurnAll? && NoReset(es[i + 1..])
  }

  lemma NoResetCons(es: seq<Event>)
    requires es != []
    ensures NoReset(es) <==> !es[0].ResetAll? && NoReset(es[1..])
  {
    if !es[0].ResetAll? && NoReset(es[1..]) {
      forall i | 0 <= i < |es| ensures !es[i].ResetAll? { if i > 0 { assert es[i] == es[1..][i - 1]; } }
    }
    if NoReset(es) {
      forall i | 0 <= i < |es[1..]| ensures !es[1..][i].ResetAll? { assert es[1..][i] == es[i + 1]; }
    }
  }

  lemma BurnedSinceCons(es: seq<Event>)
    requires es != []
    ensures BurnedSince(es) <==> BurnedSince(es[1..]) || (es[0].BurnAll? && NoReset(es[1..]))
  {
    if BurnedSince(es) {
      var i :| 0 <= i < |es| && es[i].BurnAll? && NoReset(es[i + 1..]);
      if i > 0 { assert es[1..][i - 1] == es[i] && es[1..][i - 1 + 1..] == es[i + 1..]; }
    }
    if BurnedSince(es[1..]) {
      var i :| 0 <= i < |es[1..]| && es[1..][i].BurnAll? && NoReset(es[1..][i + 1..]);
      assert es[i + 1].BurnAll? && es[i + 1 + 1..] == es[1..][i + 1..];
    }
  }

  lemma {:induction false} FlagAfter(w: World, es: seq<Event>)
    requires Valid(ConnSystem(), w, es)
    ensures After(ConnSystem(), w, es).conn.burned <==> BurnedSince(es) || (w.conn.burned && NoReset(es))
    decreases |es|
  {
    if es != [] {
      FlagAfter(Next(w, es[0]), es[1..]);
      NoResetCons(es);
      BurnedSinceCons(es);
    }
  }

  /** After every sequence of calls the flag is set exactly when some burn follows the last reset, and
      then - unless nothing is there - the next burn leaves data in place. */
  lemma BurnClearsIffNotBurnedSince(config: Config, es: seq<Event>, w: World)
    requires Reaches(config, es, w)
    ensures w.conn.burned <==> BurnedSince(es)
    ensures Gone(Burn(w.conn)) <==> !BurnedSince(es) || Gone(w.conn)
  {
    FlagAfter(World(NewConn(config), [], []), es);
    BurnClearsIff(w.conn);
  }

  /** The inbound buffer that the events attach or leave last, if any does. */
  function LastRead(es: seq<Event>): Option<Buf> {
    if es == [] then None
    else if LastRead(es[1..]).Some? then LastRead(es[1..])
    else match es[0]
      case InitRead(size) => Some(New(size))
      case UseRead(b) => Some(b)
      case _ => None
  }

  function LastWrite(es: seq<Event>): Option<Buf> {
    if es == [] then None
    else if LastWrite(es[1..]).Some? then LastWrite(es[1..])
    else match es[0]
      case InitWrite(size) => Some(New(size))
      case UseWrite(b) => Some(b)
      case _ => None
  }

  function StreamsAfter(rs: seq<Rings.Ring>, es: seq<Event>): seq<Rings.Ring>
    decreases |es|
  {
    if es == [] then rs
    else match es[0]
      case AddStream(size) => if size <= Rings.MAX_CBUF_SIZE then StreamsAfter(rs + [Rings.New(size)], es[1..]) else rs
      case UseStream(i, r) => if i < |rs| then StreamsAfter(rs[i := r], es[1..]) else rs
      case _ => StreamsAfter(rs, es[1..])
  }

  function OrElse(a: Option<Buf>, b: Option<Buf>): Option<Buf> {
    if a.Some? then a else b
  }

  /** While the flag is set, burning does nothing: what was attached last is still there. */
  lemma {:induction false} KeptWhileBurned(w: World, es: seq<Event>)
    requires w.conn.burned && Valid(ConnSystem(), w, es) && NoReset(es)
    ensures var c := After(ConnSystem(), w, es).conn;
      && c.burned
      && c.readBuf == OrElse(LastRead(es), w.conn.readBuf)
      && c.writeBuf == OrElse(LastWrite(es), w.conn.writeBuf)
      && c.streams == StreamsAfter(w.conn.streams, es)
    decreases |es|
  {
    if es != [] {
      NoResetCons(es);
      KeptWhileBurned(Next(w, es[0]), es[1..]);
    }
  }

  predicate AllUnallocated(rs: seq<Rings.Ring>) {
    forall i :: 0 <= i < |rs| ==> rs[i].data.None? && rs[i].used == 0
  }

  predicate Harmless(b: Option<Buf>) {
    b.Some? ==> b.value.Clean()
  }

  /** Which events survive the next burn. In state `at` a burn does its work; `since` follows, without
      a reset. The next burn changes nothing, and leaves nothing if and only if the inbound and outbound
      buffers attached or used last since then are zeroed (or none was), every stream since then is
      unallocated, and every packet accepted has left the queue again. */
  lemma SurvivesNextBurn(config: Config, es: seq<Event>, at: World, since: seq<Event>, w: World)
    requires Reaches(config, es, at) && !at.conn.burned && NoReset(since)
    requires Valid(ConnSystem(), Next(at, BurnAll), since) && w == After(ConnSystem(), Next(at, BurnAll), since)
    ensures Burn(w.conn) == w.conn
    ensures w.conn.readBuf == OrElse(LastRead(since), BurnBuf(at.conn.readBuf))
    ensures w.conn.writeBuf == OrElse(LastWrite(since), BurnBuf(at.conn.writeBuf))
    ensures w.conn.streams == StreamsAfter(FreeAll(at.conn.streams), since)
    ensures Gone(Burn(w.conn)) <==>
      && Harmless(LastRead(since)) && Harmless(LastWrite(since))
      && AllUnallocated(StreamsAfter(FreeAll(at.conn.streams), since))
      && w.accepted == w.removed
  {
    Extend(ConnSystem(), World(NewConn(config), [], []), es, BurnAll);
    Concat(ConnSystem(), World(NewConn(config), [], []), es + [BurnAll], since);
    KeptWhileBurned(Next(at, BurnAll), since);
    ReachedQueueOk(config, es + [BurnAll] + since, w);
    assert w.conn.queue == [] ==> Sum(w.conn.queue, PacketLen()) == 0;
    assert w.conn.queue == w.accepted[|w.removed|..];
  }

  // ---- the object ----

  class ConnectionBuffers {
    var readBuf: Option<Buf>
    var writeBuf: Option<Buf>
    var streamBufs: seq<Rings.Ring>
    var packetQueue: seq<Buf>
    const config: Config
    var packetQueueBytes: nat
    var burned: bool

    ghost function View(): Conn
      reads this
    {
      Conn(readBuf, writeBuf, streamBufs, packetQueue, config, packetQueueBytes, burned)
    }

    constructor (config: Config)
      ensures View() == NewConn(config)
    {
      readBuf, writeBuf, streamBufs, packetQueue := None, None, [], [];
      this.config, packetQueueBytes, burned := config, 0, false;
    }

    method QueuePacket(b: Buf) returns (full: Option<QueueFull>)
      modifies this`packetQueue, this`packetQueueBytes
      ensures (View(), full) == Enqueue(old(View()), b)
    {
      if |packetQueue| >= config.maxPackets {
        return Some(TooManyPackets);
      }
      if packetQueueBytes + b.len > config.maxBytes {
        return Some(TooManyBytes);
      }
      packetQueueBytes := packetQueueBytes + b.len;
      packetQueue := packetQueue + [b];
      full := None;
    }

    method DequeuePacket() returns (b: Option<Buf>)
      modifies this`packetQueue, this`packetQueueBytes
      ensures (View(), b) == Dequeue(old(View()))
    {
      if packetQueue == [] {
        return None;
      }
      b := Some(packetQueue[0]);
      packetQueue := packetQueue[1..];
      packetQueueBytes := SaturatingSub(packetQueueBytes, b.value.len);
    }

    method ResetBuffers()
      modifies this
      ensures View() == Reset(old(View()))
    {
      if readBuf.Some? {
        readBuf := Some(readBuf.value.Reset());
      }
      if writeBuf.Some? {
        writeBuf := Some(writeBuf.value.Reset());
      }
      for i := 0 to |streamBufs|
        invariant |streamBufs| == |old(streamBufs)|
        invariant forall j :: 0 <= j < |streamBufs| ==>
          streamBufs[j] == if j < i then Rings.Clear(old(streamBufs)[j]) else old(streamBufs)[j]
        invariant readBuf == ResetBuf(old(readBuf)) && writeBuf == ResetBuf(old(writeBuf))
      {
        streamBufs := streamBufs[i := Rings.Clear(streamBufs[i])];
      }
      packetQueue, packetQueueBytes, burned := [], 0, false;
    }

    /** Frees every ring and burns the queued packets one by one, unless already burned. */
    method BurnBuffers()
      modifies this
      ensures View() == Burn(old(View())) && burned
      ensures !old(burned) ==> Gone(View())
    {
      if burned {
        return;
      }
      if readBuf.Some? {
        readBuf := Some(readBuf.value.Burn());
      }
      if writeBuf.Some? {
        writeBuf := Some(writeBuf.value.Burn());
      }
      for i := 0 to |streamBufs|
        invariant |streamBufs| == |old(streamBufs)|
        invariant forall j :: 0 <= j < |streamBufs| ==>
          streamBufs[j] == if j < i then Rings.Free(old(streamBufs)[j]) else old(streamBufs)[j]
        invariant readBuf == BurnBuf(old(readBuf)) && writeBuf == BurnBuf(old(writeBuf))
      {
        streamBufs := streamBufs[i := Rings.Free(streamBufs[i])];
      }
      while packetQueue != []
        invariant streamBufs == FreeAll(old(streamBufs))
        invariant readBuf == BurnBuf(old(readBuf)) && writeBuf == BurnBuf(old(writeBuf))
        decreases |packetQueue|
      {
        var packet := packetQueue[0].Burn();
        packetQueue := packetQueue[1..];
        assert packet.Clean();
      }
      packetQueueBytes := 0;
      burned := true;
    }

    /** Attaching does not clear the flag: the next burn does all of its work, or nothing at all. */
    method InitReadBuf(size: nat)
      requires size <= BUF_MAX_SIZE
      modifies this`readBuf
      ensures View() == old(View()).(readBuf := Some(New(size)))
      ensures if old(burned) then Burn(View()) == View() else Gone(Burn(View()))
    {
      readBuf := Some(New(size));
    }

    method InitWriteBuf(size: nat)
      requires size <= BUF_MAX_SIZE
      modifies this`writeBuf
      ensures View() == old(View()).(writeBuf := Some(New(size)))
      ensures if old(burned) then Burn(View()) == View() else Gone(Burn(View()))
    {
      writeBuf := Some(New(size));
    }

    method AddStreamBuf(size: nat)
      requires size <= Rings.MAX_CBUF_SIZE
      modifies this`streamBufs
      ensures View() == old(View()).(streams := old(streamBufs) + [Rings.New(size)])
      ensures if old(burned) then Burn(View()) == View() else Gone(Burn(View()))
    {
      streamBufs := streamBufs + [Rings.New(size)];
    }
  }
}
