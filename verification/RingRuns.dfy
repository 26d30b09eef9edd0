/** Whole runs of the ring buffer: refinement of the queue, conservation of bytes, and the mask
    and modulo rings in lockstep. */
module RingRuns {
  import opened Wrappers
  import opened Bytes
  import opened Bits
  import opened Rings
  import opened RingFifo

  predicate AllCallable(r: Ring, ops: seq<Op>) {
    forall i :: 0 <= i < |ops| ==> Callable(r, ops[i])
  }

  /** The ring after the calls, and their answers. */
  function RingRun(r: Ring, ops: seq<Op>): (x: (Ring, seq<Out>))
    requires r.Valid() && r.Backed() && AllCallable(r, ops)
    ensures x.0.Valid() && x.0.Backed() && |x.1| == |ops|
    decreases |ops|
  {
    if ops == [] then (r, [])
    else
      StepRefines(r, ops[0]);
      var (r', out) := RingStep(r, ops[0]);
      var (r'', outs) := RingRun(r', ops[1..]);
      (r'', [out] + outs)
  }

  function FifoRun(f: Fifo, ops: seq<Op>): (x: (Fifo, seq<Out>))
    requires |f.queue| <= f.cap
    ensures |x.0.queue| <= x.0.cap && |x.1| == |ops|
    decreases |ops|
  {
    if ops == [] then (f, [])
    else
      var (f', out) := FifoStep(f, ops[0]);
      var (f'', outs) := FifoRun(f', ops[1..]);
      (f'', [out] + outs)
  }

  /** For every sequence of calls the ring answers exactly as a bounded byte queue would,
      through wrap-around, lazy allocation, and `free` followed by reuse. */
  lemma {:induction false} RingRefinesFifo(r: Ring, ops: seq<Op>)
    requires r.Valid() && r.Backed() && AllCallable(r, ops)
    ensures RingRun(r, ops).1 == FifoRun(Abs(r), ops).1
    ensures Abs(RingRun(r, ops).0) == FifoRun(Abs(r), ops).0
    decreases |ops|
  {
    if ops != [] {
      StepRefines(r, ops[0]);
      RingRefinesFifo(RingStep(r, ops[0]).0, ops[1..]);
    }
  }

  lemma NewRings(size: nat, k: nat)
    ensures size <= MAX_CBUF_SIZE ==> New(size).Valid() && New(size).Backed() && Abs(New(size)) == Fifo([], size)
    ensures Pow2(k) <= MAX_CBUF_SIZE ==> NewPow2(k) == New(Pow2(k))
  {
    Pow2IsPow2(k);
  }

  lemma CursorsModulo(r: Ring)
    requires r.Valid()
    ensures r.used <= r.size && (r.size > 0 ==> r.writePos == (r.readPos + r.used) % r.size)
  {
    if r.size > 0 { ModFold(r.readPos + r.used, r.size); }
  }

  /** The cursors after any run, in the source's terms. */
  lemma CursorInvariant(r: Ring, ops: seq<Op>)
    requires r.Valid() && r.Backed() && AllCallable(r, ops)
    ensures var r' := RingRun(r, ops).0;
      r'.used <= r'.size && (r'.size > 0 ==> r'.writePos == (r'.readPos + r'.used) % r'.size)
  {
    hide RingRun, Ring.Valid;
    CursorsModulo(RingRun(r, ops).0);
  }

  // ---- conservation ----

  function WrittenBy(op: Op, out: Out): seq<byte> {
    if !out.Accepted? then []
    else match op
      case Put(bytes) => bytes
      case SlicesPut(bytes) => bytes
      case PtrPut(bytes) => bytes
      case _ => []
  }

  function DeliveredBy(op: Op, out: Out): seq<byte> {
    if (op.Get? || op.Consume?) && out.Bytes? then out.bytes else []
  }

  /** The bytes of the accepted writes, in order. */
  function Written(ops: seq<Op>, outs: seq<Out>): seq<byte>
    requires |ops| == |outs|
  {
    if ops == [] then [] else WrittenBy(ops[0], outs[0]) + Written(ops[1..], outs[1..])
  }

  /** The bytes that `read` and zero-copy consumption handed over, in order. */
  function Delivered(ops: seq<Op>, outs: seq<Out>): seq<byte>
    requires |ops| == |outs|
  {
    if ops == [] then [] else DeliveredBy(ops[0], outs[0]) + Delivered(ops[1..], outs[1..])
  }

  predicate Discards(op: Op) {
    op.ClearAll? || op.FreeAll?
  }

  lemma StepConserves(f: Fifo, op: Op)
    requires |f.queue| <= f.cap && !Discards(op)
    ensures var (f', out) := FifoStep(f, op);
      f.queue + WrittenBy(op, out) == DeliveredBy(op, out) + f'.queue
  {
    match op
    case Put(_) =>
    case SlicesPut(_) =>
    case PtrPut(_) =>
    case Get(n) => assert f.queue == f.queue[..Min(n, |f.queue|)] + f.queue[Min(n, |f.queue|)..];
    case Look(_) =>
    case Consume(n) => if n <= |f.queue| { assert f.queue == f.queue[..n] + f.queue[n..]; }
  }

  /** Splicing one step's bytes in front of the rest of a run. */
  lemma Regroup(q: seq<byte>, w: seq<byte>, ws: seq<byte>, d: seq<byte>, ds: seq<byte>, mid: seq<byte>, last: seq<byte>)
    requires q + w == d + mid && mid + ws == ds + last
    ensures q + (w + ws) == (d + ds) + last
  {
    assert q + (w + ws) == (q + w) + ws;
    assert d + mid + ws == d + (mid + ws);
    assert d + (ds + last) == (d + ds) + last;
  }

  lemma {:induction false} FifoConserves(f: Fifo, ops: seq<Op>)
    requires |f.queue| <= f.cap
    requires forall i :: 0 <= i < |ops| ==> !Discards(ops[i])
    ensures var (f', outs) := FifoRun(f, ops);
      f.queue + Written(ops, outs) == Delivered(ops, outs) + f'.queue
    decreases |ops|
  {
    if ops == [] {
    } else {
      var (f', out) := FifoStep(f, ops[0]);
      assert |f'.queue| <= f'.cap;
      var rest := ops[1..];
      var (f'', outs) := FifoRun(f', rest);
      FifoConserves(f', rest);
      StepConserves(f, ops[0]);
      assert ([out] + outs)[1..] == outs;
      Regroup(f.queue, WrittenBy(ops[0], out), Written(rest, outs),
              DeliveredBy(ops[0], out), Delivered(rest, outs), f'.queue, f''.queue);
    }
  }

  /** Bytes written = bytes read out, followed by the current contents: nothing is lost, invented,
      repeated or reordered, whatever mixture of copying and zero-copy calls moved them. */
  lemma BytesConserved(r: Ring, ops: seq<Op>)
    requires r.Valid() && r.Backed() && AllCallable(r, ops) && r.Contents() == []
    requires forall i :: 0 <= i < |ops| ==> !Discards(ops[i])
    ensures var (r', outs) := RingRun(r, ops);
      Written(ops, outs) == Delivered(ops, outs) + r'.Contents()
  {
    RingRefinesFifo(r, ops);
    FifoConserves(Abs(r), ops);
    var outs := RingRun(r, ops).1;
    assert [] + Written(ops, outs) == Written(ops, outs);
  }

  // ---- the cursors count bytes ----

  /** The position of the `x`-th byte. */
  function Turn(x: nat, size: nat): nat
    requires size > 0
  {
    x % size
  }

  lemma TurnAgain(a: nat, b: nat, size: nat)
    requires size > 0
    ensures Turn(Turn(a, size) + b, size) == Turn(a + b, size)
  {
    ModAdd(a, b, size);
  }

  lemma TurnFolds(x: nat, size: nat)
    requires 0 < size && x < 2 * size
    ensures Turn(x, size) == Fold(x, size)
  {
    ModFold(x, size);
  }

  /** The read cursor moves by what a call delivers. */
  lemma StepMovesReader(r: Ring, op: Op)
    requires r.Valid() && r.Backed() && Callable(r, op) && !Discards(op) && r.size > 0
    ensures var (r', out) := RingStep(r, op);
      r'.readPos == Turn(r.readPos + |DeliveredBy(op, out)|, r.size)
  {
    hide Turn, Wrap;
    TurnFolds(r.readPos, r.size);
    match op
    case Put(bytes) =>
    case SlicesPut(bytes) =>
    case PtrPut(bytes) =>
    case Look(n) =>
    case Get(n) => ReadMoves(r, n);
    case Consume(n) =>
      if n <= r.used {
        ReadPtrsAreContents(r);
        WrapFolds(r.readPos, n, r.size, r.isPow2);
        TurnFolds(r.readPos + n, r.size);
      }
  }

  lemma ReadMoves(r: Ring, n: nat)
    requires r.Valid() && r.Backed() && r.size > 0
    ensures Read(r, n).readPos == Turn(r.readPos + |Peek(r, n)|, r.size)
  {
    hide Turn, Wrap;
    TurnFolds(r.readPos, r.size);
    if r.used > 0 {
      WrapFolds(r.readPos, Min(n, r.used), r.size, r.isPow2);
      TurnFolds(r.readPos + Min(n, r.used), r.size);
    }
  }

  lemma {:induction false} RunMovesReader(r: Ring, ops: seq<Op>)
    requires r.Valid() && r.Backed() && AllCallable(r, ops) && r.size > 0
    requires forall i :: 0 <= i < |ops| ==> !Discards(ops[i])
    ensures var (r', outs) := RingRun(r, ops);
      r'.readPos == Turn(r.readPos + |Delivered(ops, outs)|, r.size) && r'.size == r.size
    decreases |ops|
  {
    hide RingStep, Turn;
    if ops == [] {
      TurnFolds(r.readPos, r.size);
    } else {
      var (r', out) := RingStep(r, ops[0]);
      StepRefines(r, ops[0]);
      StepMovesReader(r, ops[0]);
      RunMovesReader(r', ops[1..]);
      var outs := RingRun(r', ops[1..]).1;
      assert ([out] + outs)[1..] == outs;
      TurnAgain(r.readPos + |DeliveredBy(ops[0], out)|, |Delivered(ops[1..], outs)|, r.size);
    }
  }

  /** From a new ring, until the first `clear` or `free`, the cursors are the numbers of bytes read and
      written so far, modulo the size - whichever calls moved them. */
  lemma CursorsCountBytes(size: nat, ops: seq<Op>)
    requires 0 < size <= MAX_CBUF_SIZE && AllCallable(New(size), ops)
    requires forall i :: 0 <= i < |ops| ==> !Discards(ops[i])
    ensures var (r', outs) := RingRun(New(size), ops);
      && r'.readPos == Turn(|Delivered(ops, outs)|, size)
      && r'.writePos == Turn(|Written(ops, outs)|, size)
  {
    hide RingRun, Turn;
    var r := New(size);
    NewRings(size, 0);
    RunMovesReader(r, ops);
    BytesConserved(r, ops);
    var (r', outs) := RingRun(r, ops);
    WriterFollows(r');
    TurnAgain(|Delivered(ops, outs)|, |r'.Contents()|, size);
  }

  lemma WriterFollows(r: Ring)
    requires r.Valid() && r.size > 0
    ensures r.writePos == Turn(r.readPos + |r.Contents()|, r.size)
  {
    CursorsModulo(r);
  }

  // ---- mask and modulo in lockstep ----

  /** Single calls of the interface, paired or not. */
  datatype RawOp =
    | RawWrite(bytes: seq<byte>)
    | RawRead(n: nat)
    | RawPeek(n: nat)
    | RawReadPtrs
    | RawWritePtr(n: nat)
    | RawWriteSlices(n: nat)
    | RawFill(block: Block, bytes: seq<byte>)
    | RawIncrWrite(n: nat)
    | RawIncrRead(n: nat)
    | RawClear
    | RawFree

  datatype RawOut =
    | Wrote(r: Result<nat>)
    | Copied(bytes: seq<byte>)
    | Segments(first: seq<byte>, second: seq<byte>)
    | Lent(one: Result<Block>)
    | LentTwo(two: Result<(Block, Block)>)
    | Advanced(unit: Result<()>)
    | Nothing

  predicate RawCallable(size: nat, op: RawOp) {
    match op
    case RawFill(block, bytes) => |bytes| == block.len && block.start + block.len <= size
    case RawIncrWrite(n) => size > 0 || n > 0
    case RawIncrRead(n) => size > 0 || n > 0
    case _ => true
  }

  function RawStep(r: Ring, op: RawOp): (Ring, RawOut)
    requires r.Valid() && RawCallable(r.size, op)
  {
    match op
    case RawWrite(bytes) => var o := Write(r, bytes); (o.ring, Wrote(o.result))
    case RawRead(n) => (Read(r, n), Copied(Peek(r, n)))
    case RawPeek(n) => (r, Copied(Peek(r, n)))
    case RawReadPtrs => var (p1, p2) := ReadPtrs(r); (r, Segments(p1, p2))
    case RawWritePtr(n) => var o := WritePtr(r, n); (o.ring, Lent(o.result))
    case RawWriteSlices(n) => var o := WriteSlices(r, n); (o.ring, LentTwo(o.result))
    case RawFill(block, bytes) => (Fill(r, block, bytes), Nothing)
    case RawIncrWrite(n) => var o := IncrWrite(r, n); (o.ring, Advanced(o.result))
    case RawIncrRead(n) => var o := IncrRead(r, n); (o.ring, Advanced(o.result))
    case RawClear => (Clear(r), Nothing)
    case RawFree => (Free(r), Nothing)
  }

  /** Every single call, paired or not, keeps cursors, fill count and storage size consistent. */
  lemma RawStepValid(r: Ring, op: RawOp)
    requires r.Valid() && RawCallable(r.size, op)
    ensures RawStep(r, op).0.Valid() && RawStep(r, op).0.size == r.size
  {
    hide Ring.Contents, Read, Peek, IncrWrite, IncrRead, WritePtr, WriteSlices, ReadPtrs, Fill;
    match op
    case RawWrite(bytes) => WriteAppends(r, bytes);
    case RawRead(n) => RawReadValid(r, n);
    case RawIncrWrite(n) => AdvanceValid(r, n);
    case RawIncrRead(n) => AdvanceValid(r, n);
    case RawFill(block, bytes) => FillValid(r, block, bytes);
    case RawWritePtr(n) => LendingValid(r, n);
    case RawWriteSlices(n) => LendingValid(r, n);
    case RawPeek(_) =>
    case RawReadPtrs =>
    case RawClear =>
    case RawFree =>
  }

  lemma AdvanceValid(r: Ring, n: nat)
    requires r.Valid() && (r.size > 0 || n > 0)
    ensures IncrWrite(r, n).ring.Valid() && IncrWrite(r, n).ring.size == r.size
    ensures IncrRead(r, n).ring.Valid() && IncrRead(r, n).ring.size == r.size
  {
    hide Wrap;
    if n <= r.Available() { WrapFolds(r.writePos, n, r.size, r.isPow2); }
    if n <= r.used { WrapFolds(r.readPos, n, r.size, r.isPow2); }
  }

  lemma FillValid(r: Ring, block: Block, bytes: seq<byte>)
    requires r.Valid() && RawCallable(r.size, RawFill(block, bytes))
    ensures Fill(r, block, bytes).Valid() && Fill(r, block, bytes).size == r.size
  {}

  lemma LendingValid(r: Ring, n: nat)
    requires r.Valid()
    ensures WritePtr(r, n).ring.Valid() && WritePtr(r, n).ring.size == r.size
    ensures WriteSlices(r, n).ring.Valid() && WriteSlices(r, n).ring.size == r.size
  {
    Allocated(r);
  }

  lemma RawReadValid(r: Ring, n: nat)
    requires r.Valid()
    ensures Read(r, n).Valid() && Read(r, n).size == r.size
  {
    if r.used > 0 { WrapFolds(r.readPos, Min(n, r.used), r.size, r.isPow2); }
  }

  /** The same ring on the modulo branch. */
  function Modulo(r: Ring): Ring {
    r.(isPow2 := false)
  }

  lemma LockstepWrite(r: Ring, bytes: seq<byte>)
    requires r.Valid() && r.isPow2
    ensures Write(Modulo(r), bytes) == Outcome(Modulo(Write(r, bytes).ring), Write(r, bytes).result)
    ensures Write(r, bytes).ring.isPow2
  {
    hide Wrap, Scatter;
    MaskWrapEqualsModuloWrap(r.writePos, |bytes|, r.size);
  }

  lemma LockstepRead(r: Ring, n: nat)
    requires r.Valid() && r.isPow2
    ensures Read(Modulo(r), n) == Modulo(Read(r, n)) && Peek(Modulo(r), n) == Peek(r, n)
    ensures Read(r, n).isPow2
  {
    hide Wrap, Gather;
    MaskWrapEqualsModuloWrap(r.readPos, Min(n, r.used), r.size);
  }

  lemma LockstepAdvance(r: Ring, n: nat)
    requires r.Valid() && r.isPow2 && (r.size > 0 || n > 0)
    ensures IncrWrite(Modulo(r), n) == Outcome(Modulo(IncrWrite(r, n).ring), IncrWrite(r, n).result)
    ensures IncrRead(Modulo(r), n) == Outcome(Modulo(IncrRead(r, n).ring), IncrRead(r, n).result)
    ensures IncrWrite(r, n).ring.isPow2 && IncrRead(r, n).ring.isPow2
  {
    hide Wrap;
    MaskWrapEqualsModuloWrap(r.writePos, n, r.size);
    MaskWrapEqualsModuloWrap(r.readPos, n, r.size);
  }

  lemma LockstepLend(r: Ring, n: nat)
    requires r.Valid() && r.isPow2
    ensures WritePtr(Modulo(r), n) == Outcome(Modulo(WritePtr(r, n).ring), WritePtr(r, n).result)
    ensures WriteSlices(Modulo(r), n) == Outcome(Modulo(WriteSlices(r, n).ring), WriteSlices(r, n).result)
    ensures WritePtr(r, n).ring.isPow2 && WriteSlices(r, n).ring.isPow2
    ensures ReadPtrs(Modulo(r)) == ReadPtrs(r)
  {}

  lemma LockstepStep(r: Ring, op: RawOp)
    requires r.Valid() && r.isPow2 && RawCallable(r.size, op)
    ensures RawStep(Modulo(r), op) == (Modulo(RawStep(r, op).0), RawStep(r, op).1)
    ensures RawStep(r, op).0.isPow2
  {
    hide Write, Read, Peek, IncrWrite, IncrRead, WritePtr, WriteSlices, ReadPtrs;
    match op
    case RawWrite(bytes) => LockstepWrite(r, bytes);
    case RawRead(n) => LockstepRead(r, n);
    case RawPeek(n) => LockstepRead(r, n);
    case RawIncrWrite(n) => LockstepAdvance(r, n);
    case RawIncrRead(n) => LockstepAdvance(r, n);
    case RawWritePtr(n) => LockstepLend(r, n);
    case RawWriteSlices(n) => LockstepLend(r, n);
    case RawReadPtrs => LockstepLend(r, 0);
    case _ =>
  }

  predicate AllRawCallable(size: nat, ops: seq<RawOp>) {
    forall i :: 0 <= i < |ops| ==> RawCallable(size, ops[i])
  }

  function RawRun(r: Ring, ops: seq<RawOp>): (x: (Ring, seq<RawOut>))
    requires r.Valid() && AllRawCallable(r.size, ops)
    ensures x.0.Valid()
    decreases |ops|
  {
    if ops == [] then (r, [])
    else
      RawStepValid(r, ops[0]);
      var (r', out) := RawStep(r, ops[0]);
      var (r'', outs) := RawRun(r', ops[1..]);
      (r'', [out] + outs)
  }

  /** Two rings of the same power-of-two size, one masking and one dividing, give the same answers and
      have the same cursors and storage after every sequence of calls. */
  lemma {:induction false} MaskAndModuloLockstep(r: Ring, ops: seq<RawOp>)
    requires r.Valid() && r.isPow2 && AllRawCallable(r.size, ops)
    ensures RawRun(Modulo(r), ops) == (Modulo(RawRun(r, ops).0), RawRun(r, ops).1)
    decreases |ops|
  {
    if ops != [] {
      LockstepStep(r, ops[0]);
      RawStepValid(r, ops[0]);
      MaskAndModuloLockstep(RawStep(r, ops[0]).0, ops[1..]);
    }
  }
}
