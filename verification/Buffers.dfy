/** The linear buffer as a value: what each operation of `Buffer` does to storage, position and length. */
module Buffers {
  import opened Wrappers
  import opened Bytes

  const BUF_MAX_INCR: nat := 1_000_000_000
  const BUF_MAX_SIZE: nat := 1_000_000_000
  const MAX_STRING_LEN: nat := 400_000

  /** The new buffer and what the call returned. */
  datatype Outcome<+T> = Outcome(buf: Buf, result: Result<T>)

  /** `data` is the live part of the vector (`data.len()` bytes), not its spare capacity. */
  datatype Buf = Buf(data: seq<byte>, pos: nat, len: nat) {

    predicate Valid() {
      pos <= len <= |data|
    }

    /** What `burn` leaves behind: nothing but zeros, and both cursors at the start. */
    predicate Clean() {
      AllZero() && pos == 0 && len == 0
    }

    predicate AllZero() {
      forall i :: 0 <= i < |data| ==> data[i] == 0
    }

    function Fail<T>(e: BufferError): Outcome<T> {
      Outcome(this, Err(e))
    }

    function At(p: nat): Buf {
      Buf(data, p, len)
    }

    /** The effect of the unchecked writers. */
    function Put(bytes: seq<byte>): (b: Buf)
      requires pos + |bytes| <= |data|
      ensures Valid() ==> b.Valid()
    {
      Buf(Splice(data, pos, bytes), pos + |bytes|, Max(len, pos + |bytes|))
    }

    function Readable(n: nat): seq<byte>
      requires pos + n <= |data|
    {
      data[pos..pos + n]
    }

    // ---- cursors and storage (src/buffer/core.rs) ----

    function SetPos(p: nat): Outcome<()> {
      if p > len then Fail(PositionOutOfBounds) else Outcome(At(p), Ok(()))
    }

    function SetLen(n: nat): Outcome<()> {
      if n > BUF_MAX_SIZE then Fail(SizeTooBig)
      else Outcome(Buf(Resize(data, Max(n, |data|)), Min(pos, n), n), Ok(()))
    }

    function IncrPos(n: nat): Outcome<()> {
      if n > BUF_MAX_INCR || pos + n > len then Fail(IncrementTooLarge) else Outcome(At(pos + n), Ok(()))
    }

    function DecrPos(n: nat): Outcome<()> {
      if n > pos then Fail(PositionOutOfBounds) else Outcome(At(pos - n), Ok(()))
    }

    function IncrLen(n: nat): Outcome<()> {
      if n > BUF_MAX_INCR then Fail(IncrementTooLarge)
      else if len + n > BUF_MAX_SIZE then Fail(SizeTooBig)
      else Outcome(Buf(Resize(data, Max(len + n, |data|)), pos, len + n), Ok(()))
    }

    function IncrWritePos(n: nat): Outcome<()> {
      if n > BUF_MAX_INCR || pos + n > BUF_MAX_SIZE then Fail(IncrementTooLarge)
      else Outcome(Buf(Resize(data, Max(pos + n, |data|)), pos + n, Max(len, pos + n)), Ok(()))
    }

    function Reset(): Buf {
      Buf(data, 0, 0)
    }

    function Burn(): (b: Buf)
      ensures b.Clean() && |b.data| == |data|
    {
      Buf(Zeros(|data|), 0, 0)
    }

    function Resized(n: nat): Outcome<()> {
      if n > BUF_MAX_SIZE then Fail(SizeTooBig)
      else Outcome(Buf(Resize(data, n), Min(pos, n), Min(len, n)), Ok(()))
    }

    function ShrinkToFit(): Buf {
      Buf(data[..Min(len, |data|)], pos, len)
    }

    // ---- checked writers and readers (src/buffer/ops.rs) ----

    function PutBytes(bytes: seq<byte>): Outcome<()> {
      if pos + |bytes| > |data| then Fail(BufferOverflow) else Outcome(Put(bytes), Ok(()))
    }

    function PutU32(v: u32): Outcome<()> {
      if pos + 4 > |data| then Fail(BufferOverflow) else Outcome(Put(EncodeBE(v, 4)), Ok(()))
    }

    function PutU64(v: u64): Outcome<()> {
      if pos + 8 > |data| then Fail(BufferOverflow) else Outcome(Put(EncodeBE(v, 8)), Ok(()))
    }

    function PutByte(v: byte): Outcome<()> {
      if pos >= |data| then Fail(BufferOverflow) else Outcome(Put([v]), Ok(()))
    }

    /** Not all-or-nothing: when only the length prefix fits, it stays written. */
    function PutString(s: seq<byte>): Outcome<()> {
      if |s| > MAX_STRING_LEN then Fail(InvalidString)
      else
        var prefix := PutU32(|s|);
        if prefix.result.Err? then prefix else prefix.buf.PutBytes(s)
    }

    function GetBytes(n: nat): Outcome<seq<byte>>
      requires Valid()
    {
      if pos + n > len then Fail(BufferOverflow) else Outcome(At(pos + n), Ok(Readable(n)))
    }

    function GetU32(): (o: Outcome<u32>)
      requires Valid()
    {
      Pow256Values();
      if pos + 4 > len then Fail(BufferOverflow) else Outcome(At(pos + 4), Ok(DecodeBE(Readable(4))))
    }

    function GetU64(): Outcome<u64>
      requires Valid()
    {
      Pow256Values();
      if pos + 8 > len then Fail(BufferOverflow) else Outcome(At(pos + 8), Ok(DecodeBE(Readable(8))))
    }

    function GetByte(): Outcome<byte>
      requires Valid()
    {
      if pos >= len then Fail(BufferOverflow) else Outcome(At(pos + 1), Ok(data[pos]))
    }

    function GetBool(): Outcome<bool>
      requires Valid()
    {
      var o := GetByte();
      match o.result
      case Ok(v) => Outcome(o.buf, Ok(v != 0))
      case Err(e) => Outcome(o.buf, Err(e))
    }

    function GetString(): Outcome<seq<byte>>
      requires Valid()
    {
      var prefix := GetU32();
      match prefix.result
      case Err(e) => Outcome(prefix.buf, Err(e))
      case Ok(n) => if n > MAX_STRING_LEN then prefix.buf.Fail(InvalidString) else prefix.buf.GetBytes(n)
    }

    function EatString(): Outcome<()>
      requires Valid()
    {
      var prefix := GetU32();
      match prefix.result
      case Err(e) => Outcome(prefix.buf, Err(e))
      case Ok(n) => if n > MAX_STRING_LEN then prefix.buf.Fail(InvalidString) else prefix.buf.IncrPos(n)
    }

    function GetPtr(n: nat): Result<seq<byte>>
      requires Valid()
    {
      if n > 1_000_000_000 || pos + n > len then Err(BufferOverflow) else Ok(Readable(n))
    }

    /** Whether `get_write_ptr(n)` hands out the block `data[pos..pos + n]`. */
    function GetWritePtr(n: nat): Result<()> {
      if n > 1_000_000_000 || pos + n > |data| then Err(BufferOverflow) else Ok(())
    }

    /** The holder of a write pointer, or of `as_mut_slice`, stores `bytes` at `at`; no cursor moves. */
    function Poke(at: nat, bytes: seq<byte>): Buf
      requires at + |bytes| <= |data|
    {
      Buf(Splice(data, at, bytes), pos, len)
    }
  }

  /** `Buffer::new`: zeroed storage. */
  function New(size: nat): (b: Buf)
    ensures b.Clean() && b.Valid() && |b.data| == size
  {
    Buf(Zeros(size), 0, 0)
  }

  lemma CleanIsNew(b: Buf)
    requires b.Clean()
    ensures b == New(|b.data|)
  {
    assert b.data == New(|b.data|).data;
  }

  /** `Buffer::with_capacity`: no live storage yet. */
  function WithCapacity(): Buf {
    Buf([], 0, 0)
  }

  function FromVec(data: seq<byte>): Buf {
    Buf(data, 0, |data|)
  }

  /** `into_vec`: the valid bytes, handed to the caller. */
  function IntoVec(b: Buf): seq<byte> {
    b.data[..Min(b.len, |b.data|)]
  }
}
