/** Whole runs of the linear buffer's safe operations, failing ones included. */
module BufferRuns {
  import opened Wrappers
  import opened Bytes
  import opened Buffers

  datatype Op =
    | SetPos(n: nat) | SetLen(n: nat) | IncrPos(n: nat) | DecrPos(n: nat) | IncrLen(n: nat) | IncrWritePos(n: nat)
    | Reset | Burn | ResizeTo(n: nat) | ShrinkToFit
    | PutByte(b: byte) | PutU32(w: u32) | PutU64(d: u64) | PutBytes(bytes: seq<byte>) | PutString(bytes: seq<byte>)
    | GetByte | GetBool | GetU32 | GetU64 | GetBytes(n: nat) | GetString | EatString
    | GetPtr(n: nat) | AsSlice
    // a look into, and a store through, the block of `get_write_ptr`
    | LookWritePtr(n: nat) | FillWritePtr(bytes: seq<byte>)
    // a store through `as_mut_slice`, where the caller's indices allow it
    | StoreAt(at: nat, bytes: seq<byte>)

  datatype Out = Done | Number(n: nat) | Truth(t: bool) | Shown(bytes: seq<byte>) | Failed(error: BufferError)

  function Moved(o: Outcome<()>): (Buf, Out) {
    (o.buf, if o.result.Ok? then Done else Failed(o.result.error))
  }

  function Shows(o: Outcome<seq<byte>>): (Buf, Out) {
    (o.buf, if o.result.Ok? then Shown(o.result.value) else Failed(o.result.error))
  }

  function Step(b: Buf, op: Op): (Buf, Out)
    requires b.Valid()
  {
    match op
    case SetPos(n) => Moved(b.SetPos(n))
    case SetLen(n) => Moved(b.SetLen(n))
    case IncrPos(n) => Moved(b.IncrPos(n))
    case DecrPos(n) => Moved(b.DecrPos(n))
    case IncrLen(n) => Moved(b.IncrLen(n))
    case IncrWritePos(n) => Moved(b.IncrWritePos(n))
    case Reset => (b.Reset(), Done)
    case Burn => (b.Burn(), Done)
    case ResizeTo(n) => Moved(b.Resized(n))
    case ShrinkToFit => (b.ShrinkToFit(), Done)
    case PutByte(v) => Moved(b.PutByte(v))
    case PutU32(v) => Moved(b.PutU32(v))
    case PutU64(v) => Moved(b.PutU64(v))
    case PutBytes(bytes) => Moved(b.PutBytes(bytes))
    case PutString(bytes) => Moved(b.PutString(bytes))
    case GetByte =>
      var o := b.GetByte();
      (o.buf, if o.result.Ok? then Number(o.result.value) else Failed(o.result.error))
    case GetBool =>
      var o := b.GetBool();
      (o.buf, if o.result.Ok? then Truth(o.result.value) else Failed(o.result.error))
    case GetU32 => var o := b.GetU32(); (o.buf, if o.result.Ok? then Number(o.result.value) else Failed(o.result.error))
    case GetU64 => var o := b.GetU64(); (o.buf, if o.result.Ok? then Number(o.result.value) else Failed(o.result.error))
    case GetBytes(n) => Shows(b.GetBytes(n))
    case GetString => Shows(b.GetString())
    case EatString => Moved(b.EatString())
    case GetPtr(n) => (b, if b.GetPtr(n).Ok? then Shown(b.GetPtr(n).value) else Failed(b.GetPtr(n).error))
    case AsSlice => (b, Shown(b.data[..b.len]))
    case LookWritePtr(n) => (b, if b.GetWritePtr(n).Ok? then Shown(b.Readable(n)) else Failed(BufferOverflow))
    case FillWritePtr(bytes) =>
      if b.GetWritePtr(|bytes|).Ok? then (b.Poke(b.pos, bytes), Done) else (b, Failed(BufferOverflow))
    case StoreAt(at, bytes) => if at + |bytes| <= b.len then (b.Poke(at, bytes), Done) else (b, Done)
  }

  /** The cursor invariant, through every safe operation, successful or not. */
  lemma StepValid(b: Buf, op: Op)
    requires b.Valid()
    ensures Step(b, op).0.Valid()
  {}

  function Run(b: Buf, ops: seq<Op>): (x: (Buf, seq<Out>))
    requires b.Valid()
    ensures x.0.Valid() && |x.1| == |ops|
    decreases |ops|
  {
    if ops == [] then (b, [])
    else
      StepValid(b, ops[0]);
      var (b', out) := Step(b, ops[0]);
      var (b'', outs) := Run(b', ops[1..]);
      (b'', [out] + outs)
  }

  lemma RunCons(b: Buf, op: Op, ops: seq<Op>)
    requires b.Valid() && Step(b, op).0.Valid()
    ensures var (b', out) := Step(b, op);
      var (b'', outs) := Run(b', ops);
      Run(b, [op] + ops) == (b'', [out] + outs)
  {
    assert ([op] + ops)[1..] == ops;
  }

  /** Every sequence of safe operations on every kind of new buffer keeps pos <= len <= data.len(). */
  lemma CursorInvariant(size: nat, bytes: seq<byte>, ops: seq<Op>)
    ensures New(size).Valid() && WithCapacity().Valid() && FromVec(bytes).Valid()
    ensures forall b :: b in [New(size), WithCapacity(), FromVec(bytes)] ==>
      var b' := Run(b, ops).0; b'.pos <= b'.len <= |b'.data|
  {}

  // ---- failures ----

  predicate IsStringOp(op: Op) {
    op.PutString? || op.GetString? || op.EatString?
  }

  /** A failing operation changes nothing - except the string operations, which may leave the cursor
      behind the 4-byte length; a failing reader never touches the storage. */
  lemma FailureFrame(b: Buf, op: Op)
    requires b.Valid() && Step(b, op).1.Failed?
    ensures var b' := Step(b, op).0;
      && (!IsStringOp(op) ==> b' == b)
      && (b' == b || b'.pos == b.pos + 4)
      && (op.GetString? || op.EatString? ==> b' == b.At(b'.pos))
      && |b'.data| == |b.data|
      && (forall i :: 0 <= i < |b.data| && !(b.pos <= i < b.pos + 4) ==> b'.data[i] == b.data[i])
  {}

  // ---- what operations keep ----

  predicate Stores(op: Op) {
    op.PutByte? || op.PutU32? || op.PutU64? || op.PutBytes? || op.PutString? || op.FillWritePtr? || op.StoreAt?
  }

  /** Growing, shrinking, seeking and reading never alter a byte that stays, and what they add is zero;
      no shrinking but `resize` cuts into the valid bytes. */
  lemma StoragePreserved(b: Buf, op: Op)
    requires b.Valid() && !Stores(op) && !op.Burn?
    ensures var b' := Step(b, op).0;
      && (forall i :: 0 <= i < |b.data| && i < |b'.data| ==> b'.data[i] == b.data[i])
      && (forall i :: |b.data| <= i < |b'.data| ==> b'.data[i] == 0)
      && (!op.ResizeTo? ==> |b'.data| >= b.len)
  {}

  /** Seeking is exact: `incr_pos` and `decr_pos` undo each other, and `set_pos` undoes both. */
  lemma SeekingUndone(b: Buf, n: nat)
    requires b.Valid()
    ensures b.IncrPos(n).result.Ok? ==> b.IncrPos(n).buf.DecrPos(n) == Outcome(b, Ok(()))
    ensures b.DecrPos(n).result.Ok? && n <= BUF_MAX_INCR ==> b.DecrPos(n).buf.IncrPos(n) == Outcome(b, Ok(()))
    ensures b.SetPos(n).result.Ok? ==> b.SetPos(n).buf.SetPos(b.pos) == Outcome(b, Ok(()))
  {}

  // ---- nothing of an earlier holder ----

  /** An answer that shows nothing but zeros. */
  predicate Blank(out: Out) {
    match out
    case Number(n) => n == 0
    case Truth(t) => !t
    case Shown(bytes) => forall i :: 0 <= i < |bytes| ==> bytes[i] == 0
    case _ => true
  }

  lemma {:induction false} DecodeZeros(s: seq<byte>)
    requires forall i :: 0 <= i < |s| ==> s[i] == 0
    ensures DecodeBE(s) == 0
  {
    if s != [] { DecodeZeros(s[..|s| - 1]); }
  }

  lemma ReadZero(b: Buf, op: Op)
    requires b.Valid() && b.AllZero() && (op.GetU32? || op.GetU64? || op.GetString? || op.EatString?)
    ensures Step(b, op).0.AllZero() && Blank(Step(b, op).1)
  {
    if b.pos + 4 <= b.len { DecodeZeros(b.Readable(4)); }
    if b.pos + 8 <= b.len { DecodeZeros(b.Readable(8)); }
  }

  lemma StepBlank(b: Buf, op: Op)
    requires b.Valid() && b.AllZero() && !Stores(op)
    ensures Step(b, op).0.AllZero() && Blank(Step(b, op).1)
  {
    if op.GetU32? || op.GetU64? || op.GetString? || op.EatString? { ReadZero(b, op); }
  }

  /** Whoever receives a zeroed buffer, and has not stored anything, can see only zeros - through
      `set_len`, `resize`, `get_write_ptr` or any other sequence of operations. */
  lemma {:induction false} OnlyZerosVisible(b: Buf, ops: seq<Op>)
    requires b.Valid() && b.AllZero()
    requires forall i :: 0 <= i < |ops| ==> !Stores(ops[i])
    ensures Run(b, ops).0.AllZero()
    ensures forall i :: 0 <= i < |ops| ==> Blank(Run(b, ops).1[i])
    decreases |ops|
  {
    if ops != [] {
      StepBlank(b, ops[0]);
      StepValid(b, ops[0]);
      OnlyZerosVisible(Step(b, ops[0]).0, ops[1..]);
    }
  }
}
