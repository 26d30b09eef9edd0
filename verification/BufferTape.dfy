/** The linear buffer against a reference: a tape cut in three - the valid bytes before the cursor, those
    after it, and the spare storage behind them - on which every operation moves the cuts. */
module BufferTape {
  import opened Wrappers
  import opened Bytes
  import opened Buffers
  import opened BufferRuns

  datatype Tape = Tape(before: seq<byte>, after: seq<byte>, spare: seq<byte>) {

    function Written(): seq<byte> {
      before + after
    }

    function All(): seq<byte> {
      before + after + spare
    }

    /** The cursor moves to `p` among the valid bytes. */
    function Seek(p: nat): Tape
      requires p <= |Written()|
    {
      Tape(Written()[..p], Written()[p..], spare)
    }

    /** `n` bytes pass under the cursor. */
    function Pass(n: nat): Tape
      requires n <= |after|
    {
      Tape(before + after[..n], after[n..], spare)
    }

    /** `bytes` replace what comes after the cursor, spare storage included, which stands behind them. */
    function Overwrite(bytes: seq<byte>): Tape
      requires |bytes| <= |after| + |spare|
    {
      if |bytes| <= |after| then Tape(before + bytes, after[|bytes|..], spare)
      else Tape(before + bytes, [], spare[|bytes| - |after|..])
    }
  }

  /** `bytes` with zeros behind, at least `n` of them in all. */
  function Padded(bytes: seq<byte>, n: nat): (r: seq<byte>)
    ensures |r| >= n && |r| >= |bytes|
  {
    if n <= |bytes| then bytes else bytes + Zeros(n - |bytes|)
  }

  /** Storage `all` with `len` valid bytes and the cursor at `pos`, or at their end. */
  function Cut(all: seq<byte>, pos: nat, len: nat): Tape
    requires len <= |all|
  {
    var p := Min(pos, len);
    Tape(all[..p], all[p..len], all[len..])
  }

  // ---- the operations on the tape ----

  function TapeWrite(t: Tape, bytes: seq<byte>): (Tape, Out) {
    if |bytes| <= |t.after| + |t.spare| then (t.Overwrite(bytes), Done) else (t, Failed(BufferOverflow))
  }

  function TapeWriteString(t: Tape, bytes: seq<byte>): (Tape, Out) {
    if |bytes| > 400_000 then (t, Failed(InvalidString))
    else
      var (t', out) := TapeWrite(t, EncodeBE(|bytes|, 4));
      if out.Failed? then (t', out) else TapeWrite(t', bytes)
  }

  /** The answer to a read of `n` bytes is made of the next `n` of them. */
  function TapeRead(t: Tape, n: nat, answer: seq<byte> -> Out): (Tape, Out) {
    if n <= |t.after| then (t.Pass(n), answer(t.after[..n])) else (t, Failed(BufferOverflow))
  }

  function TapeReadString(t: Tape, skip: bool): (Tape, Out) {
    if |t.after| < 4 then (t, Failed(BufferOverflow))
    else
      var n := DecodeBE(t.after[..4]);
      var t' := t.Pass(4);
      if n > 400_000 then (t', Failed(InvalidString))
      else if n > |t'.after| then (t', Failed(if skip then IncrementTooLarge else BufferOverflow))
      else (t'.Pass(n), if skip then Done else Shown(t'.after[..n]))
  }

  function TapeSetLen(t: Tape, n: nat): (Tape, Out) {
    if n > 1_000_000_000 then (t, Failed(SizeTooBig)) else (Cut(Padded(t.All(), n), |t.before|, n), Done)
  }

  function TapeIncrLen(t: Tape, n: nat): (Tape, Out) {
    if n > 1_000_000_000 then (t, Failed(IncrementTooLarge))
    else if |t.Written()| + n > 1_000_000_000 then (t, Failed(SizeTooBig))
    else
      var more := Padded(t.spare, n);
      (Tape(t.before, t.after + more[..n], more[n..]), Done)
  }

  function TapeIncrWritePos(t: Tape, n: nat): (Tape, Out) {
    if n > 1_000_000_000 || |t.before| + n > 1_000_000_000 then (t, Failed(IncrementTooLarge))
    else
      var rest := Padded(t.after + t.spare, n);
      var len := Max(n, |t.after|);
      (Tape(t.before + rest[..n], rest[n..len], rest[len..]), Done)
  }

  function TapeResize(t: Tape, n: nat): (Tape, Out) {
    if n > 1_000_000_000 then (t, Failed(SizeTooBig))
    else
      var all := Padded(t.All(), n)[..n];
      (Cut(all, |t.before|, Min(|t.Written()|, n)), Done)
  }

  function One(bytes: seq<byte>): Out {
    if |bytes| == 1 then Number(bytes[0]) else Done
  }

  function NonZero(bytes: seq<byte>): Out {
    if |bytes| == 1 then Truth(bytes[0] != 0) else Done
  }

  function TapeStep(t: Tape, op: Op): (Tape, Out) {
    match op
    case SetPos(n) => if n <= |t.Written()| then (t.Seek(n), Done) else (t, Failed(PositionOutOfBounds))
    case IncrPos(n) =>
      if n <= 1_000_000_000 && n <= |t.after| then (t.Pass(n), Done) else (t, Failed(IncrementTooLarge))
    case DecrPos(n) => if n <= |t.before| then (t.Seek(|t.before| - n), Done) else (t, Failed(PositionOutOfBounds))
    case SetLen(n) => TapeSetLen(t, n)
    case IncrLen(n) => TapeIncrLen(t, n)
    case IncrWritePos(n) => TapeIncrWritePos(t, n)
    case ResizeTo(n) => TapeResize(t, n)
    case Reset => (Tape([], [], t.All()), Done)
    case Burn => (Tape([], [], Zeros(|t.All()|)), Done)
    case ShrinkToFit => (Tape(t.before, t.after, []), Done)
    case PutByte(v) => TapeWrite(t, [v])
    case PutU32(v) => TapeWrite(t, EncodeBE(v, 4))
    case PutU64(v) => TapeWrite(t, EncodeBE(v, 8))
    case PutBytes(bytes) => TapeWrite(t, bytes)
    case PutString(bytes) => TapeWriteString(t, bytes)
    case GetByte => TapeRead(t, 1, One)
    case GetBool => TapeRead(t, 1, NonZero)
    case GetU32 => TapeRead(t, 4, bytes => Number(DecodeBE(bytes)))
    case GetU64 => TapeRead(t, 8, bytes => Number(DecodeBE(bytes)))
    case GetBytes(n) => TapeRead(t, n, bytes => Shown(bytes))
    case GetString => TapeReadString(t, false)
    case EatString => TapeReadString(t, true)
    case GetPtr(n) =>
      (t, if n <= 1_000_000_000 && n <= |t.after| then Shown(t.after[..n]) else Failed(BufferOverflow))
    case AsSlice => (t, Shown(t.Written()))
    case LookWritePtr(n) =>
      (t, if n <= 1_000_000_000 && n <= |t.after| + |t.spare| then Shown((t.after + t.spare)[..n])
          else Failed(BufferOverflow))
    case FillWritePtr(bytes) =>
      if |bytes| <= 1_000_000_000 && |bytes| <= |t.after| + |t.spare| then
        var rest := bytes + (t.after + t.spare)[|bytes|..];
        (Tape(t.before, rest[..|t.after|], rest[|t.after|..]), Done)
      else (t, Failed(BufferOverflow))
    case StoreAt(at, bytes) =>
      if at + |bytes| <= |t.Written()| then
        var w := Splice(t.Written(), at, bytes);
        (Tape(w[..|t.before|], w[|t.before|..], t.spare), Done)
      else (t, Done)
  }

  // ---- the buffer as a tape ----

  function Abs(b: Buf): Tape
    requires b.Valid()
  {
    Tape(b.data[..b.pos], b.data[b.pos..b.len], b.data[b.len..])
  }

  /** `b` stands for `t`. */
  predicate Is(b: Buf, t: Tape) {
    b.Valid() && b.data[..b.pos] == t.before && b.data[b.pos..b.len] == t.after && b.data[b.len..] == t.spare
  }

  lemma AbsParts(b: Buf)
    requires b.Valid()
    ensures var t := Abs(b);
      t.All() == b.data && t.Written() == b.data[..b.len] && t.after + t.spare == b.data[b.pos..]
  {}

  lemma SameIs(b: Buf)
    requires b.Valid()
    ensures Is(b, Abs(b))
  {}

  lemma PutIs(b: Buf, bytes: seq<byte>)
    requires b.Valid() && b.pos + |bytes| <= |b.data|
    ensures Is(b.Put(bytes), Abs(b).Overwrite(bytes))
  {
    var d := b.Put(bytes).data;
    assert d[..b.pos + |bytes|] == b.data[..b.pos] + bytes;
    assert d[b.pos + |bytes|..] == b.data[b.pos + |bytes|..];
  }

  lemma MoveIs(b: Buf, p: nat)
    requires b.Valid() && p <= b.len
    ensures Is(b.At(p), Abs(b).Seek(p))
    ensures b.pos <= p ==> Is(b.At(p), Abs(b).Pass(p - b.pos)) && b.Readable(p - b.pos) == Abs(b).after[..p - b.pos]
  {
    AbsParts(b);
    if b.pos <= p { assert b.data[..p] == b.data[..b.pos] + b.data[b.pos..p]; }
  }

  lemma SetLenIs(b: Buf, n: nat)
    requires b.Valid() && n <= BUF_MAX_SIZE
    ensures Is(b.SetLen(n).buf, Cut(Padded(b.data, n), b.pos, n))
  {
    assert Resize(b.data, Max(n, |b.data|)) == Padded(b.data, n);
  }

  lemma IncrLenIs(b: Buf, n: nat)
    requires b.Valid() && n <= BUF_MAX_INCR && b.len + n <= BUF_MAX_SIZE
    ensures Is(b.IncrLen(n).buf, TapeIncrLen(Abs(b), n).0)
  {
    AbsParts(b);
    var d := b.IncrLen(n).buf.data;
    var more := Padded(b.data[b.len..], n);
    assert d == b.data[..b.len] + more;
  }

  /** Cuts behind `head` are cuts of `rest`. */
  lemma CutsBehind(head: seq<byte>, rest: seq<byte>, i: nat, j: nat)
    requires i <= j <= |rest|
    ensures var d := head + rest;
      && d[..|head| + i] == head + rest[..i] && d[|head| + i..|head| + j] == rest[i..j]
      && d[|head| + j..] == rest[j..]
  {}

  lemma IncrWritePosIs(b: Buf, n: nat)
    requires b.Valid() && n <= BUF_MAX_INCR && b.pos + n <= BUF_MAX_SIZE
    ensures Is(b.IncrWritePos(n).buf, TapeIncrWritePos(Abs(b), n).0)
  {
    AbsParts(b);
    GrownStorage(b, n);
    hide Padded, Resize;
    CutsBehind(b.data[..b.pos], Padded(b.data[b.pos..], n), n, Max(n, b.len - b.pos));
  }

  lemma GrownStorage(b: Buf, n: nat)
    requires b.Valid()
    ensures Resize(b.data, Max(b.pos + n, |b.data|)) == b.data[..b.pos] + Padded(b.data[b.pos..], n)
  {}

  lemma ResizedIs(b: Buf, n: nat)
    requires b.Valid() && n <= BUF_MAX_SIZE
    ensures Is(b.Resized(n).buf, TapeResize(Abs(b), n).0)
  {
    AbsParts(b);
    assert Resize(b.data, n) == Padded(b.data, n)[..n];
  }

  lemma FillIs(b: Buf, bytes: seq<byte>)
    requires b.Valid() && b.pos + |bytes| <= |b.data|
    ensures var t := Abs(b); var rest := bytes + (t.after + t.spare)[|bytes|..];
      Is(b.Poke(b.pos, bytes), Tape(t.before, rest[..|t.after|], rest[|t.after|..]))
  {
    AbsParts(b);
    var t := Abs(b);
    var rest := bytes + (t.after + t.spare)[|bytes|..];
    var d := b.Poke(b.pos, bytes).data;
    assert d == b.data[..b.pos] + rest;
  }

  lemma StoreIs(b: Buf, at: nat, bytes: seq<byte>)
    requires b.Valid() && at + |bytes| <= b.len
    ensures var t := Abs(b); var w := Splice(t.Written(), at, bytes);
      Is(b.Poke(at, bytes), Tape(w[..|t.before|], w[|t.before|..], t.spare))
  {
    AbsParts(b);
    var w := Splice(b.data[..b.len], at, bytes);
    var d := b.Poke(at, bytes).data;
    assert d == w + b.data[b.len..];
  }

  // ---- one operation ----

  /** `b` answers as the tape does. */
  ghost predicate Refines(b: Buf, op: Op)
    requires b.Valid()
  {
    var (b', out) := Step(b, op);
    var (t', out') := TapeStep(Abs(b), op);
    Is(b', t') && out == out'
  }

  predicate IsWriter(op: Op) {
    op.PutByte? || op.PutU32? || op.PutU64? || op.PutBytes? || op.PutString? || op.FillWritePtr? || op.StoreAt?
  }

  predicate IsReader(op: Op) {
    op.GetByte? || op.GetBool? || op.GetU32? || op.GetU64? || op.GetBytes? || op.GetString? || op.EatString?
    || op.GetPtr? || op.AsSlice? || op.LookWritePtr?
  }

  lemma WriteRefines(b: Buf, bytes: seq<byte>)
    requires b.Valid()
    ensures var (t', out) := TapeWrite(Abs(b), bytes);
      if b.pos + |bytes| <= |b.data| then Is(b.Put(bytes), t') && out == Done
      else t' == Abs(b) && Is(b, t') && out == Failed(BufferOverflow)
  {
    if b.pos + |bytes| <= |b.data| { PutIs(b, bytes); }
  }

  lemma StoresRefine(b: Buf, at: nat, bytes: seq<byte>)
    requires b.Valid()
    ensures Refines(b, FillWritePtr(bytes)) && Refines(b, StoreAt(at, bytes))
  {
    hide Is, Splice, Tape.Written;
    AbsParts(b);
    SameIs(b);
    if b.pos + |bytes| <= |b.data| { FillIs(b, bytes); }
    if at + |bytes| <= b.len { StoreIs(b, at, bytes); }
  }

  lemma WriterRefines(b: Buf, op: Op)
    requires b.Valid() && IsWriter(op)
    ensures Refines(b, op)
  {
    hide EncodeBE, TapeWrite, Buf.Put, Is, TapeWriteString;
    match op
    case PutByte(v) => WriteRefines(b, [v]);
    case PutU32(v) => WriteRefines(b, EncodeBE(v, 4));
    case PutU64(v) => WriteRefines(b, EncodeBE(v, 8));
    case PutBytes(bytes) => WriteRefines(b, bytes);
    case PutString(bytes) => PutStringRefines(b, bytes);
    case FillWritePtr(bytes) => StoresRefine(b, 0, bytes);
    case StoreAt(at, bytes) => StoresRefine(b, at, bytes);
  }

  lemma PutStringRefines(b: Buf, bytes: seq<byte>)
    requires b.Valid()
    ensures Refines(b, PutString(bytes))
  {
    if |bytes| <= MAX_STRING_LEN && b.pos + 4 <= |b.data| {
      var b1 := b.Put(EncodeBE(|bytes|, 4));
      PutIs(b, EncodeBE(|bytes|, 4));
      assert Abs(b1) == Abs(b).Overwrite(EncodeBE(|bytes|, 4));
      if b1.pos + |bytes| <= |b1.data| { PutIs(b1, bytes); }
    }
  }

  lemma ByteRefines(b: Buf)
    requires b.Valid()
    ensures Refines(b, GetByte) && Refines(b, GetBool)
  {
    if b.pos + 1 <= b.len { MoveIs(b, b.pos + 1); }
  }

  lemma WordRefines(b: Buf)
    requires b.Valid()
    ensures Refines(b, GetU32) && Refines(b, GetU64)
  {
    hide DecodeBE;
    if b.pos + 4 <= b.len { MoveIs(b, b.pos + 4); }
    if b.pos + 8 <= b.len { MoveIs(b, b.pos + 8); }
  }

  lemma BytesRefine(b: Buf, n: nat)
    requires b.Valid()
    ensures Refines(b, GetBytes(n)) && Refines(b, GetPtr(n))
  {
    hide Is, Tape.Pass;
    SameIs(b);
    if b.pos + n <= b.len { MoveIs(b, b.pos + n); }
  }

  lemma LooksRefine(b: Buf, n: nat)
    requires b.Valid()
    ensures Refines(b, AsSlice) && Refines(b, LookWritePtr(n))
  {
    AbsParts(b);
    if b.pos + n <= |b.data| { assert b.Readable(n) == b.data[b.pos..][..n]; }
  }

  lemma ReaderRefines(b: Buf, op: Op)
    requires b.Valid() && IsReader(op)
    ensures Refines(b, op)
  {
    hide Refines;
    match op
    case GetByte => ByteRefines(b);
    case GetBool => ByteRefines(b);
    case GetU32 => WordRefines(b);
    case GetU64 => WordRefines(b);
    case GetBytes(n) => BytesRefine(b, n);
    case GetPtr(n) => BytesRefine(b, n);
    case AsSlice => LooksRefine(b, 0);
    case LookWritePtr(n) => LooksRefine(b, n);
    case GetString => StringRefines(b);
    case EatString => StringRefines(b);
  }

  lemma StringRefines(b: Buf)
    requires b.Valid()
    ensures Refines(b, GetString) && Refines(b, EatString)
  {
    if b.pos + 4 <= b.len {
      MoveIs(b, b.pos + 4);
      var b1 := b.At(b.pos + 4);
      assert Abs(b1) == Abs(b).Pass(4);
      var n := DecodeBE(b.Readable(4));
      if n <= MAX_STRING_LEN && b1.pos + n <= b1.len { MoveIs(b1, b1.pos + n); }
    }
  }

  /** One operation: same answer, errors included, and the buffer still stands for the tape. */
  lemma StepRefines(b: Buf, op: Op)
    requires b.Valid()
    ensures var (b', out) := Step(b, op); b'.Valid() && (Abs(b'), out) == TapeStep(Abs(b), op)
  {
    hide Step, TapeStep;
    if IsWriter(op) { WriterRefines(b, op); }
    else if IsReader(op) { ReaderRefines(b, op); }
    else { CursorRefines(b, op); }
  }

  lemma SeekRefines(b: Buf, n: nat)
    requires b.Valid()
    ensures Refines(b, SetPos(n)) && Refines(b, IncrPos(n)) && Refines(b, DecrPos(n))
  {
    hide Is, Tape.Seek, Tape.Pass, Tape.Written;
    AbsParts(b);
    SameIs(b);
    if n <= b.len { MoveIs(b, n); }
    if b.pos + n <= b.len { MoveIs(b, b.pos + n); }
    if n <= b.pos { MoveIs(b, b.pos - n); }
  }

  lemma GrowRefines(b: Buf, n: nat)
    requires b.Valid()
    ensures Refines(b, IncrLen(n)) && Refines(b, IncrWritePos(n))
  {
    AbsParts(b);
    if n <= BUF_MAX_INCR && b.len + n <= BUF_MAX_SIZE { IncrLenIs(b, n); }
    if n <= BUF_MAX_INCR && b.pos + n <= BUF_MAX_SIZE { IncrWritePosIs(b, n); }
  }

  lemma ResizeRefines(b: Buf, n: nat)
    requires b.Valid()
    ensures Refines(b, SetLen(n)) && Refines(b, ResizeTo(n))
  {
    AbsParts(b);
    if n <= BUF_MAX_SIZE {
      SetLenIs(b, n);
      ResizedIs(b, n);
    }
  }

  lemma EndRefines(b: Buf)
    requires b.Valid()
    ensures Refines(b, Reset) && Refines(b, Burn) && Refines(b, ShrinkToFit)
  {
    AbsParts(b);
  }

  lemma CursorRefines(b: Buf, op: Op)
    requires b.Valid() && !IsWriter(op) && !IsReader(op)
    ensures Refines(b, op)
  {
    hide Refines;
    match op
    case SetPos(n) => SeekRefines(b, n);
    case IncrPos(n) => SeekRefines(b, n);
    case DecrPos(n) => SeekRefines(b, n);
    case SetLen(n) => ResizeRefines(b, n);
    case ResizeTo(n) => ResizeRefines(b, n);
    case IncrLen(n) => GrowRefines(b, n);
    case IncrWritePos(n) => GrowRefines(b, n);
    case Reset => EndRefines(b);
    case Burn => EndRefines(b);
    case ShrinkToFit => EndRefines(b);
  }

  // ---- whole runs ----

  function TapeRun(t: Tape, ops: seq<Op>): (Tape, seq<Out>)
    decreases |ops|
  {
    if ops == [] then (t, [])
    else
      var (t', out) := TapeStep(t, ops[0]);
      var (t'', outs) := TapeRun(t', ops[1..]);
      (t'', [out] + outs)
  }

  /** For every sequence of safe operations, failing ones included, the buffer answers exactly as the tape
      does, and stands for it at the end: bytes, cursor, valid length and storage. */
  lemma {:induction false} BufferRefinesTape(b: Buf, ops: seq<Op>)
    requires b.Valid()
    ensures var (b', outs) := Run(b, ops); (Abs(b'), outs) == TapeRun(Abs(b), ops)
    decreases |ops|
  {
    if ops != [] {
      StepRefines(b, ops[0]);
      BufferRefinesTape(Step(b, ops[0]).0, ops[1..]);
    }
  }

  /** Different buffers are different tapes: nothing is left out of the comparison. */
  lemma AbsInjective(a: Buf, b: Buf)
    requires a.Valid() && b.Valid()
    ensures Abs(a) == Abs(b) <==> a == b
  {
    AbsParts(a);
    AbsParts(b);
    assert |Abs(a).before| == a.pos && |Abs(a).Written()| == a.len;
    assert |Abs(b).before| == b.pos && |Abs(b).Written()| == b.len;
  }

  /** How buffers begin, and what `into_vec` hands over. */
  lemma NewTapes(size: nat, bytes: seq<byte>, b: Buf)
    requires b.Valid()
    ensures Abs(New(size)) == Tape([], [], Zeros(size)) && Abs(WithCapacity()) == Tape([], [], [])
    ensures Abs(FromVec(bytes)) == Tape([], bytes, [])
    ensures IntoVec(b) == Abs(b).Written()
  {
    AbsParts(b);
  }

  // ---- laws across operations ----

  /** `set_len` leaves the cursor where it is, or at the new end if that comes first. */
  lemma SetLenCursor(b: Buf, n: nat, p: nat)
    requires b.Valid() && n <= BUF_MAX_SIZE
    ensures var b' := b.SetLen(n).buf;
      && b.SetLen(n).result.Ok? && b'.len == n && b'.pos == (if b.pos <= n then b.pos else n)
      && (b'.SetPos(p).result.Ok? <==> p <= n)
  {}

  /** Raising the length disturbs no read: whatever could be read before gives the same answer after, and
      leaves the cursor at the same place. */
  lemma SetLenKeepsReads(b: Buf, n: nat, op: Op)
    requires b.Valid() && b.len <= n <= BUF_MAX_SIZE && IsReader(op) && !op.AsSlice?
    ensures var b' := b.SetLen(n).buf;
      && b.SetLen(n).result.Ok? && b'.Valid()
      && (!Step(b, op).1.Failed? ==>
            Step(b', op).1 == Step(b, op).1 && Step(b', op).0.pos == Step(b, op).0.pos)
  {
    var b' := b.SetLen(n).buf;
    if op.GetString? || op.EatString? {
      SetLenKeepsString(b, n);
    } else {
      forall k: nat | b.pos + k <= |b.data| ensures b'.Readable(k) == b.Readable(k) {}
    }
  }

  lemma SetLenKeepsString(b: Buf, n: nat)
    requires b.Valid() && b.len <= n <= BUF_MAX_SIZE
    ensures b.SetLen(n).buf.Valid()
    ensures var b' := b.SetLen(n).buf;
      b.GetString().result.Ok? ==>
        && b'.GetString().result == b.GetString().result && b'.GetString().buf.pos == b.GetString().buf.pos
        && b'.EatString().result == b.EatString().result && b'.EatString().buf.pos == b.EatString().buf.pos
  {
    hide DecodeBE;
    var b' := b.SetLen(n).buf;
    if b.GetString().result.Ok? {
      assert b'.Readable(4) == b.Readable(4);
      var k := DecodeBE(b.Readable(4));
      assert b'.At(b.pos + 4).Readable(k) == b.At(b.pos + 4).Readable(k);
    }
  }

  /** `get_bool` is false exactly for the byte 0: every other byte reads as true. */
  lemma GetBoolIff(b: Buf)
    requires b.Valid()
    ensures b.GetBool().result.Ok? <==> b.pos < b.len
    ensures b.pos < b.len ==> (b.GetBool().result == Ok(false) <==> b.data[b.pos] == 0)
  {}

  /** `get_ptr(n)` shows exactly what `get_bytes(n)` would read, up to its limit. */
  lemma GetPtrIsGetBytes(b: Buf, n: nat)
    requires b.Valid()
    ensures b.GetPtr(n).Ok? <==> b.GetBytes(n).result.Ok? && n <= 1_000_000_000
    ensures b.GetPtr(n).Ok? ==> b.GetPtr(n) == b.GetBytes(n).result
  {}
}
