/** The ring buffer is a byte FIFO: every copying and zero-copy operation, and every run of them. */
module RingFifo {
  import opened Wrappers
  import opened Bytes
  import opened Bits
  import opened Rings

  // ---- the copying operations ----

  /** `write` appends all of `bytes`, or fails and changes nothing; it succeeds exactly when they fit. */
  lemma WriteAppends(r: Ring, bytes: seq<byte>)
    requires r.Valid()
    ensures var o := Write(r, bytes);
      && o.ring.Valid() && (r.Backed() ==> o.ring.Backed())
      && (o.result.Ok? <==> |bytes| <= r.size - r.used)
      && (o.result.Ok? ==> o.result.value == |bytes| && o.ring.Contents() == r.Contents() + bytes)
      && (o.result.Err? ==> o.ring == r && o.result.error == InsufficientSpace)
  {
    var o := Write(r, bytes);
    if bytes == [] {
      assert r.Contents() + bytes == r.Contents();
    } else if |bytes| <= r.Available() {
      WrapFolds(r.writePos, |bytes|, r.size, r.isPow2);
      GatherScatter(r.Storage(), r.readPos, r.used, bytes);
    }
  }

  /** `peek` copies the oldest bytes. */
  lemma PeekIsPrefix(r: Ring, n: nat)
    requires r.Valid() && r.Backed()
    ensures Peek(r, n) == r.Contents()[..Min(n, r.used)]
  {
    if r.used > 0 {
      GatherSuffix(r.data.value, r.readPos, r.used, Min(n, r.used));
    }
  }

  /** `read` removes exactly the bytes it copies. */
  lemma ReadRemovesPrefix(r: Ring, n: nat)
    requires r.Valid() && r.Backed()
    ensures var r' := Read(r, n);
      && r'.Valid() && r'.Backed() && r'.Contents() == r.Contents()[Min(n, r.used)..]
  {
    if r.used > 0 {
      var k := Min(n, r.used);
      WrapFolds(r.readPos, k, r.size, r.isPow2);
      GatherSuffix(r.data.value, r.readPos, r.used, k);
    }
  }

  /** `read` copies the oldest bytes and keeps the rest. */
  lemma ReadSplits(r: Ring, n: nat)
    requires r.Valid() && r.Backed()
    ensures var r' := Read(r, n);
      && r'.Valid() && r'.Backed() && |Peek(r, n)| == Min(n, r.used) && Peek(r, n) + r'.Contents() == r.Contents()
  {
    PeekIsPrefix(r, n);
    ReadRemovesPrefix(r, n);
  }

  // ---- the zero-copy operations ----

  /** The two slices of `read_ptrs`, one after the other, are the whole contents. */
  lemma ReadPtrsAreContents(r: Ring)
    requires r.Valid() && r.Backed()
    ensures var (p1, p2) := ReadPtrs(r); p1 + p2 == r.Contents()
  {
    if r.used > 0 {
      GatherSegments(r.data.value, r.readPos, r.used);
      assert r.used <= r.size - r.readPos ==> r.data.value[..0] == [];
      if r.used == r.size - r.readPos {
        assert r.data.value[r.readPos..r.readPos + r.used] == r.data.value[r.readPos..];
      }
    }
  }

  /** Taking the first `n` bytes of `read_ptrs` and then `incr_read(n)` is `read`. */
  lemma TakeThenAdvanceIsRead(r: Ring, n: nat)
    requires r.Valid() && r.Backed() && n <= r.used && r.size > 0
    ensures var (p1, p2) := ReadPtrs(r);
      (p1 + p2)[..n] == Peek(r, n) && IncrRead(r, n).result.Ok? && IncrRead(r, n).ring == Read(r, n)
  {
    ReadPtrsAreContents(r);
    PeekIsPrefix(r, n);
    if r.used == 0 { WrapFolds(r.readPos, 0, r.size, r.isPow2); }
  }

  /** The caller stores `bytes` through the two slices it was lent. */
  function FillBoth(r: Ring, blocks: (Block, Block), bytes: seq<byte>): Ring
    requires |bytes| == blocks.0.len + blocks.1.len
    requires blocks.0.start + blocks.0.len <= |r.Storage()| && blocks.1.start + blocks.1.len <= |r.Storage()|
  {
    Fill(Fill(r, blocks.0, bytes[..blocks.0.len]), blocks.1, bytes[blocks.0.len..])
  }

  /** The slices of `write_slices_mut` lie in the ring, do not overlap, and cover `n` bytes. */
  lemma SlicesInRange(r: Ring, n: nat)
    requires r.Valid()
    ensures var o := WriteSlices(r, n);
      && (o.result.Ok? <==> n <= r.size - r.used)
      && (o.result.Ok? ==> var (b1, b2) := o.result.value;
          && b1.len + b2.len == n && b1.start + b1.len <= r.size && b2.start + b2.len <= r.size
          && (b2.len > 0 ==> b2.start + b2.len <= b1.start))
  {}

  /** No lent byte is a buffered byte. */
  lemma SlicesAvoidContents(r: Ring, n: nat, i: nat, j: nat)
    requires r.Valid() && WriteSlices(r, n).result.Ok? && j < r.used
    requires var (b1, b2) := WriteSlices(r, n).result.value;
      b1.start <= i < b1.start + b1.len || b2.start <= i < b2.start + b2.len
    ensures i != Fold(r.readPos + j, r.size)
  {}

  /** The ring after `write_slices_mut` and filling what it lent. */
  function LentAndFilled(r: Ring, bytes: seq<byte>): (r': Ring)
    requires r.Valid() && |bytes| <= r.size - r.used
    ensures r'.Valid() && r' == r.(data := r'.data)
  {
    var o := WriteSlices(r, |bytes|);
    FillBoth(o.ring, o.result.value, bytes)
  }

  lemma FilledIsScattered(r: Ring, bytes: seq<byte>)
    requires r.Valid() && 0 < |bytes| <= r.size - r.used
    ensures LentAndFilled(r, bytes).data == Some(Scatter(r.Storage(), r.writePos, bytes))
  {
    ScatterSegments(r.Storage(), r.writePos, bytes);
    if |bytes| <= r.size - r.writePos {
      assert bytes[..|bytes|] == bytes;
    }
  }

  /** Filling the slices of `write_slices_mut(n)` and then `incr_write(n)` is `write`, to the last
      field; and `write_slices_mut` fails exactly when `write` does, with the same error. */
  lemma SlicesThenAdvanceIsWrite(r: Ring, bytes: seq<byte>)
    requires r.Valid() && (r.size > 0 || bytes != [])
    ensures |bytes| <= r.size - r.used ==>
      && WriteSlices(r, |bytes|).result.Ok?
      && IncrWrite(LentAndFilled(r, bytes), |bytes|) == Outcome(Write(r, bytes).ring, Ok(()))
    ensures |bytes| > r.size - r.used ==>
      && WriteSlices(r, |bytes|) == Outcome(r, Err(InsufficientSpace))
      && Write(r, bytes) == Outcome(r, Err(InsufficientSpace))
  {
    if bytes == [] {
      WrapFolds(r.writePos, 0, r.size, r.isPow2);
    } else if |bytes| <= r.size - r.used {
      FilledIsScattered(r, bytes);
    }
  }

  /** `write_ptr` lends a block exactly when the bytes fit without crossing the end; filling it and
      advancing is `write` (an empty block also allocates, which `write` of nothing does not). */
  lemma PtrThenAdvanceIsWrite(r: Ring, bytes: seq<byte>)
    requires r.Valid() && r.size > 0
    ensures WritePtr(r, |bytes|).result.Ok? <==> |bytes| <= r.size - r.used && r.writePos + |bytes| <= r.size
    ensures WritePtr(r, |bytes|).result.Err? ==>
      WritePtr(r, |bytes|) == Outcome(r, Err(if |bytes| > r.size - r.used then InsufficientSpace else InvalidState))
    ensures WritePtr(r, |bytes|).result.Ok? ==>
      var o := WritePtr(r, |bytes|);
      && o.result.value == Block(r.writePos, |bytes|) && o.ring.Valid()
      && IncrWrite(Fill(o.ring, o.result.value, bytes), |bytes|)
         == Outcome(if bytes == [] then Allocate(r) else Write(r, bytes).ring, Ok(()))
  {
    if |bytes| <= r.size - r.used && r.writePos + |bytes| <= r.size {
      if bytes == [] { WrapFolds(r.writePos, 0, r.size, r.isPow2); }
      else { ScatterSegments(r.Storage(), r.writePos, bytes); }
    }
  }

  // ---- advances on their own ----

  /** `incr_read(n)` is refused exactly when fewer than n bytes are buffered, and then changes nothing;
      otherwise exactly the first n bytes are gone. */
  lemma IncrReadRemoves(r: Ring, n: nat)
    requires r.Valid() && (r.size > 0 || n > 0)
    ensures var o := IncrRead(r, n);
      && (o.result.Err? <==> n > r.used)
      && (o.result.Err? ==> o == Outcome(r, Err(BufferOverflow)))
      && (o.result.Ok? ==> o.ring.Valid() && o.ring.Contents() == r.Contents()[n..] && o.ring.data == r.data)
  {
    if n <= r.used {
      WrapFolds(r.readPos, n, r.size, r.isPow2);
      if r.size > 0 { GatherSuffix(r.Storage(), r.readPos, r.used, n); }
    }
  }

  /** `incr_write(n)` is refused exactly when n bytes do not fit, and then changes nothing; otherwise the
      n bytes of the storage behind the write cursor are appended to the contents, as they are. */
  lemma IncrWriteAppends(r: Ring, n: nat)
    requires r.Valid() && (r.size > 0 || n > 0)
    ensures var o := IncrWrite(r, n);
      && (o.result.Err? <==> n > r.size - r.used)
      && (o.result.Err? ==> o == Outcome(r, Err(InsufficientSpace)))
      && (o.result.Ok? ==>
            && o.ring.Valid() && o.ring.data == r.data
            && o.ring.Contents() == r.Contents() + Gather(r.Storage(), r.writePos, n))
  {
    if n <= r.size - r.used {
      WrapFolds(r.writePos, n, r.size, r.isPow2);
      GatherJoin(r.Storage(), r.readPos, r.used, n);
    }
  }

  /** After `clear` the ring is as new but for its storage, which stays: nothing is buffered, and the
      whole of it can be lent as one block. */
  lemma ClearRestarts(r: Ring)
    requires r.Valid()
    ensures var r' := Clear(r);
      && r'.Valid() && r'.Contents() == [] && r' == New(r.size).(data := r.data, isPow2 := r.isPow2)
      && WritePtr(r', r.size).result == Ok(Block(0, r.size)) && ReadPtrs(r') == ([], [])
  {}

  /** After `free` the ring is as new, without storage. */
  lemma FreeRestarts(r: Ring)
    requires r.Valid()
    ensures Free(r).Valid() && Free(r).Contents() == [] && Free(r) == New(r.size).(isPow2 := r.isPow2)
  {}

  // ---- when the fill count runs ahead of the storage ----

  /** `incr_write` does not allocate. It leaves bytes counted but not stored exactly when nothing
      was allocated before: the documented earlier `write_ptr` or `write_slices_mut` is missing. */
  lemma IncrWriteBackedIff(r: Ring, n: nat)
    requires r.Valid() && r.Backed() && 0 < n <= r.size - r.used
    ensures var o := IncrWrite(r, n);
      o.result.Ok? && o.ring.Valid() && (o.ring.Backed() <==> r.data.Some?)
  {
    WrapFolds(r.writePos, n, r.size, r.isPow2);
  }

  /** Then `used` says one byte, and `read` and `read_ptrs` give none. */
  lemma UnbackedRingLosesBytes()
    ensures var r := IncrWrite(New(4), 1).ring;
      r.Valid() && r.used == 1 && Peek(r, 1) == [] && ReadPtrs(r) == ([], []) && Read(r, 1) == r
  {
    assert IsPow2(2);
    WrapFolds(0, 1, 4, true);
  }

  // ---- runs against the reference queue ----

  datatype Fifo = Fifo(queue: seq<byte>, cap: nat)

  /** Calls and correctly paired zero-copy uses. `PtrPut` falls back to `write` when the block would wrap. */
  datatype Op =
    | Put(bytes: seq<byte>)
    | SlicesPut(bytes: seq<byte>)
    | PtrPut(bytes: seq<byte>)
    | Get(n: nat)
    | Look(n: nat)
    | Consume(n: nat)
    | ClearAll
    | FreeAll

  datatype Out = Accepted(n: nat) | Full | TooMany | Bytes(bytes: seq<byte>) | Done

  /** Zero-length advances of a ring of size 0 divide by zero; everything else may be called. */
  predicate Callable(r: Ring, op: Op) {
    r.size > 0 || match op
    case SlicesPut(bytes) => bytes != []
    case PtrPut(bytes) => bytes != []
    case Consume(n) => n > 0
    case _ => true
  }

  function Accept(o: Outcome<nat>): Out {
    if o.result.Ok? then Accepted(o.result.value) else Full
  }

  /** The answer of a zero-copy write is that of its final `incr_write`. */
  function Advanced(o: Outcome<()>, n: nat): (Ring, Out) {
    (o.ring, if o.result.Ok? then Accepted(n) else Full)
  }

  function RingStep(r: Ring, op: Op): (Ring, Out)
    requires r.Valid() && Callable(r, op)
  {
    match op
    case Put(bytes) => (Write(r, bytes).ring, Accept(Write(r, bytes)))
    case SlicesPut(bytes) =>
      if WriteSlices(r, |bytes|).result.Err? then (r, Full)
      else
        SlicesInRange(r, |bytes|);
        Advanced(IncrWrite(LentAndFilled(r, bytes), |bytes|), |bytes|)
    case PtrPut(bytes) =>
      var o := WritePtr(r, |bytes|);
      (match o.result
       case Ok(block) => (Allocated(r); Advanced(IncrWrite(Fill(o.ring, block, bytes), |bytes|), |bytes|))
       case Err(e) => if e == InvalidState then (Write(r, bytes).ring, Accept(Write(r, bytes))) else (r, Full))
    case Get(n) => (Read(r, n), Bytes(Peek(r, n)))
    case Look(n) => (r, Bytes(Peek(r, n)))
    case Consume(n) =>
      var (p1, p2) := ReadPtrs(r);
      var o := IncrRead(r, n);
      (o.ring, if o.result.Ok? then Bytes((p1 + p2)[..Min(n, |p1 + p2|)]) else TooMany)
    case ClearAll => (Clear(r), Done)
    case FreeAll => (Free(r), Done)
  }

  lemma Allocated(r: Ring)
    requires r.Valid()
    ensures Allocate(r).Valid() && Allocate(r).Contents() == r.Contents()
  {}

  function FifoStep(f: Fifo, op: Op): (Fifo, Out)
    requires |f.queue| <= f.cap
  {
    match op
    case Put(bytes) => FifoPut(f, bytes)
    case SlicesPut(bytes) => FifoPut(f, bytes)
    case PtrPut(bytes) => FifoPut(f, bytes)
    case Get(n) => (Fifo(f.queue[Min(n, |f.queue|)..], f.cap), Bytes(f.queue[..Min(n, |f.queue|)]))
    case Look(n) => (f, Bytes(f.queue[..Min(n, |f.queue|)]))
    case Consume(n) =>
      if n > |f.queue| then (f, TooMany) else (Fifo(f.queue[n..], f.cap), Bytes(f.queue[..n]))
    case ClearAll => (Fifo([], f.cap), Done)
    case FreeAll => (Fifo([], f.cap), Done)
  }

  function FifoPut(f: Fifo, bytes: seq<byte>): (r: (Fifo, Out))
    requires |f.queue| <= f.cap
    ensures |r.0.queue| <= r.0.cap
  {
    if |bytes| <= f.cap - |f.queue| then (Fifo(f.queue + bytes, f.cap), Accepted(|bytes|)) else (f, Full)
  }

  function Abs(r: Ring): Fifo
    requires r.Valid()
  {
    Fifo(r.Contents(), r.size)
  }

  /** One call: same answer, and the ring still stands for the queue. */
  lemma StepRefines(r: Ring, op: Op)
    requires r.Valid() && r.Backed() && Callable(r, op)
    ensures var (r', out) := RingStep(r, op);
      r'.Valid() && r'.Backed() && r'.size == r.size && (Abs(r'), out) == FifoStep(Abs(r), op)
  {
    hide Wrap, WritePtr, ReadPtrs, LentAndFilled, Fill;
    match op
    case Put(bytes) => WriteAppends(r, bytes);
    case SlicesPut(bytes) => WriteAppends(r, bytes); SlicesThenAdvanceIsWrite(r, bytes);
    case PtrPut(bytes) => PtrPutRefines(r, bytes);
    case Get(n) => PeekIsPrefix(r, n); ReadRemovesPrefix(r, n);
    case Look(n) => PeekIsPrefix(r, n);
    case Consume(n) =>
      if n <= r.used { ConsumeRefines(r, n); }
    case ClearAll =>
    case FreeAll =>
  }

  lemma PtrPutRefines(r: Ring, bytes: seq<byte>)
    requires r.Valid() && r.Backed() && Callable(r, PtrPut(bytes))
    ensures var (r', out) := RingStep(r, PtrPut(bytes));
      r'.Valid() && r'.Backed() && r'.size == r.size && (Abs(r'), out) == FifoPut(Abs(r), bytes)
  {
    WriteAppends(r, bytes);
    if r.size > 0 {
      PtrThenAdvanceIsWrite(r, bytes);
      Allocated(r);
    }
  }

  lemma ConsumeRefines(r: Ring, n: nat)
    requires r.Valid() && r.Backed() && Callable(r, Consume(n)) && n <= r.used
    ensures var (r', out) := RingStep(r, Consume(n));
      r'.Valid() && r'.Backed() && r'.size == r.size && (Abs(r'), out) == FifoStep(Abs(r), Consume(n))
  {
    hide Ring.Contents, ReadPtrs, IncrRead;
    ConsumeDelivers(r, n);
    ConsumeRemoves(r, n);
  }

  lemma ConsumeDelivers(r: Ring, n: nat)
    requires r.Valid() && r.Backed() && n <= r.used
    ensures var (p1, p2) := ReadPtrs(r);
      |r.Contents()| == r.used && p1 + p2 == r.Contents()
  {
    ReadPtrsAreContents(r);
  }

  lemma ConsumeRemoves(r: Ring, n: nat)
    requires r.Valid() && r.Backed() && n <= r.used && (r.size > 0 || n > 0)
    ensures IncrRead(r, n).result.Ok?
    ensures var r' := IncrRead(r, n).ring;
      r'.Valid() && r'.Backed() && r'.size == r.size && r'.Contents() == r.Contents()[n..]
  {
    hide Gather, Wrap;
    ReadRemovesPrefix(r, n);
    TakeThenAdvanceIsRead(r, n);
  }
}
