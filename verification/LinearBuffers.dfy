/** The linear buffer as the program has it: an array written in place, byte by byte, and replaced only
    when the storage grows or shrinks, and two cursors. Each method does to its view what the value
    model in `Buffers` says, and says whether the storage stays where it is. */
module LinearBuffers {
  import opened Wrappers
  import opened Bytes
  import opened Copies
  import Buffers

  class Buffer {
    var data: array<byte>
    var pos: nat
    var len: nat

    ghost function View(): Buffers.Buf
      reads this, data
    {
      Buffers.Buf(data[..], pos, len)
    }

    ghost predicate Valid()
      reads this, data
    {
      View().Valid()
    }

    constructor (size: nat)
      requires size <= Buffers.BUF_MAX_SIZE
      ensures Valid() && View() == Buffers.New(size) && fresh(data)
    {
      data, pos, len := new byte[size](_ => 0), 0, 0;
      new;
      assert data[..] == Zeros(size);
    }

    constructor WithCapacity(capacity: nat)
      requires capacity <= Buffers.BUF_MAX_SIZE
      ensures Valid() && View() == Buffers.WithCapacity() && fresh(data)
    {
      data, pos, len := new byte[0], 0, 0;
    }

    /** Takes over the caller's memory. */
    constructor FromVec(bytes: array<byte>)
      ensures Valid() && View() == Buffers.FromVec(bytes[..]) && data == bytes
    {
      data, pos, len := bytes, 0, bytes.Length;
    }

    // ---- unchecked writers and readers ----

    /** The length update that every writer ends with. */
    method Advance(n: nat)
      modifies this`pos, this`len
      ensures pos == old(pos) + n && len == Max(old(len), pos)
    {
      pos := pos + n;
      if pos > len {
        len := pos;
      }
    }

    method PutBytesUnchecked(bytes: seq<byte>)
      requires pos + |bytes| <= data.Length
      modifies this`pos, this`len, data
      ensures View() == old(View()).Put(bytes) && data == old(data)
    {
      CopyIn(data, pos, bytes);
      Advance(|bytes|);
    }

    /** Four stores, most significant byte first. */
    method StoreWord(at: nat, w: u32)
      requires at + 4 <= data.Length
      modifies data
      ensures data[..] == Splice(old(data[..]), at, EncodeBE(w, 4))
    {
      BigEndian4(w);
      data[at] := w / 0x100_0000;
      data[at + 1] := w / 0x1_0000 % 0x100;
      data[at + 2] := w / 0x100 % 0x100;
      data[at + 3] := w % 0x100;
      ghost var s := Splice(old(data[..]), at, EncodeBE(w, 4));
      forall j | 0 <= j < data.Length ensures data[j] == s[j] {
        if at <= j < at + 4 { assert s[at..at + 4][j - at] == EncodeBE(w, 4)[j - at]; }
      }
    }

    /** Four loads, most significant byte first. */
    method LoadWord(at: nat) returns (w: u32)
      requires at + 4 <= data.Length
      ensures w == DecodeBE(data[at..at + 4])
    {
      FromBigEndian4(data[at..at + 4]);
      var b0: int, b1: int, b2: int, b3: int := data[at], data[at + 1], data[at + 2], data[at + 3];
      w := b0 * 0x100_0000 + b1 * 0x1_0000 + b2 * 0x100 + b3;
    }

    method PutU32Unchecked(v: u32)
      requires pos + 4 <= data.Length
      modifies this`pos, this`len, data
      ensures View() == old(View()).Put(EncodeBE(v, 4)) && data == old(data)
    {
      StoreWord(pos, v);
      Advance(4);
    }

    method GetU32Unchecked() returns (v: u32)
      requires Valid() && pos + 4 <= len
      modifies this`pos
      ensures View() == old(View()).At(old(pos) + 4) && v == DecodeBE(old(View()).Readable(4))
    {
      v := LoadWord(pos);
      pos := pos + 4;
    }

    /** Eight stores: the high word, then the low one. */
    method PutU64Unchecked(v: u64)
      requires pos + 8 <= data.Length
      modifies this`pos, this`len, data
      ensures View() == old(View()).Put(EncodeBE(v, 8)) && data == old(data)
      ensures DecodeBE(View().data[old(pos)..pos]) == v
    {
      var high: u32, low: u32 := v / 0x1_0000_0000, v % 0x1_0000_0000;
      EncodeHalves(v);
      SpliceTwice(data[..], pos, EncodeBE(high, 4), EncodeBE(low, 4));
      StoreWord(pos, high);
      StoreWord(pos + 4, low);
      Advance(8);
      Pow256Values();
      DecodeEncodeBE(v, 8);
    }

    /** Eight loads, put together with the first byte as the most significant: whatever value was
        encoded there is the value read. */
    method GetU64Unchecked() returns (v: u64)
      requires Valid() && pos + 8 <= len
      modifies this`pos
      ensures View() == old(View()).At(old(pos) + 8) && v == DecodeBE(old(View()).Readable(8))
      ensures EncodeBE(v, 8) == data[old(pos)..pos]
    {
      var high: int := LoadWord(pos);
      var low: int := LoadWord(pos + 4);
      ghost var s := data[pos..pos + 8];
      assert s[..4] == data[pos..pos + 4] && s[4..] == data[pos + 4..pos + 8] && s == s[..4] + s[4..];
      DecodeConcat(s[..4], s[4..]);
      Pow256Values();
      EncodeDecodeBE(s);
      v := high * 0x1_0000_0000 + low;
      pos := pos + 8;
    }

    method GetBytesUnchecked(n: nat) returns (bytes: seq<byte>)
      requires Valid() && pos + n <= len
      modifies this`pos
      ensures View() == old(View()).At(old(pos) + n) && bytes == old(View()).Readable(n)
    {
      bytes := data[pos..pos + n];
      pos := pos + n;
    }

    // ---- checked writers and readers ----

    method PutU32(v: u32) returns (r: Result<()>)
      modifies this`pos, this`len, data
      ensures data == old(data) && Buffers.Outcome(View(), r) == old(View()).PutU32(v)
    {
      if pos + 4 > data.Length {
        return Err(BufferOverflow);
      }
      PutU32Unchecked(v);
      r := Ok(());
    }

    method GetU32() returns (r: Result<u32>)
      requires Valid()
      modifies this`pos
      ensures Valid() && Buffers.Outcome(View(), r) == old(View()).GetU32()
    {
      if pos + 4 > len {
        return Err(BufferOverflow);
      }
      var v := GetU32Unchecked();
      r := Ok(v);
    }

    method PutU64(v: u64) returns (r: Result<()>)
      modifies this`pos, this`len, data
      ensures data == old(data) && Buffers.Outcome(View(), r) == old(View()).PutU64(v)
    {
      if pos + 8 > data.Length {
        return Err(BufferOverflow);
      }
      PutU64Unchecked(v);
      r := Ok(());
    }

    method GetU64() returns (r: Result<u64>)
      requires Valid()
      modifies this`pos
      ensures Valid() && Buffers.Outcome(View(), r) == old(View()).GetU64()
    {
      if pos + 8 > len {
        return Err(BufferOverflow);
      }
      var v := GetU64Unchecked();
      r := Ok(v);
    }

    method PutBytes(bytes: seq<byte>) returns (r: Result<()>)
      modifies this`pos, this`len, data
      ensures data == old(data) && Buffers.Outcome(View(), r) == old(View()).PutBytes(bytes)
    {
      if pos + |bytes| > data.Length {
        return Err(BufferOverflow);
      }
      PutBytesUnchecked(bytes);
      r := Ok(());
    }

    method GetBytes(n: nat) returns (r: Result<seq<byte>>)
      requires Valid()
      modifies this`pos
      ensures Valid() && Buffers.Outcome(View(), r) == old(View()).GetBytes(n)
    {
      if pos + n > len {
        return Err(BufferOverflow);
      }
      var bytes := GetBytesUnchecked(n);
      r := Ok(bytes);
    }

    method PutByte(v: byte) returns (r: Result<()>)
      modifies this`pos, this`len, data
      ensures data == old(data) && Buffers.Outcome(View(), r) == old(View()).PutByte(v)
    {
      if pos >= data.Length {
        return Err(BufferOverflow);
      }
      data[pos] := v;
      assert data[..] == Splice(old(data[..]), pos, [v]);
      Advance(1);
      r := Ok(());
    }

    method GetByte() returns (r: Result<byte>)
      requires Valid()
      modifies this`pos
      ensures Valid() && Buffers.Outcome(View(), r) == old(View()).GetByte()
    {
      if pos >= len {
        return Err(BufferOverflow);
      }
      r := Ok(data[pos]);
      pos := pos + 1;
    }

    method PutString(s: seq<byte>) returns (r: Result<()>)
      modifies this`pos, this`len, data
      ensures data == old(data) && Buffers.Outcome(View(), r) == old(View()).PutString(s)
    {
      if |s| > Buffers.MAX_STRING_LEN {
        return Err(InvalidString);
      }
      r := PutU32(|s|);
      if r.Err? {
        return;
      }
      r := PutBytes(s);
    }

    method GetString() returns (r: Result<seq<byte>>)
      requires Valid()
      modifies this`pos
      ensures Valid() && Buffers.Outcome(View(), r) == old(View()).GetString()
    {
      var n := GetU32();
      if n.Err? {
        return Err(n.error);
      }
      if n.value > Buffers.MAX_STRING_LEN {
        return Err(InvalidString);
      }
      r := GetBytes(n.value);
    }

    method EatString() returns (r: Result<()>)
      requires Valid()
      modifies this`pos
      ensures Valid() && Buffers.Outcome(View(), r) == old(View()).EatString()
    {
      var n := GetU32();
      if n.Err? {
        return Err(n.error);
      }
      if n.value > Buffers.MAX_STRING_LEN {
        return Err(InvalidString);
      }
      r := IncrPos(n.value);
    }

    // ---- the chunked copy ----

    /** 32 bytes at a time, then the tail: the same storage, position and length as the plain copy. */
    method PutBytesAvx2(bytes: seq<byte>)
      requires pos + |bytes| <= data.Length
      modifies this`pos, this`len, data
      ensures View() == old(View()).Put(bytes) && data == old(data)
    {
      hide Splice;
      var src: nat, dst: nat, remaining: nat := 0, pos, |bytes|;
      while remaining >= 32
        invariant src + remaining == |bytes| && dst == pos + src && pos == old(pos) && len == old(len)
        invariant data == old(data) && dst + remaining <= data.Length
        invariant data[..] == Splice(old(data[..]), pos, bytes[..src])
        decreases remaining
      {
        NextChunk(old(data[..]), pos, bytes, src, src + 32);
        CopyIn(data, dst, bytes[src..src + 32]);
        src, dst, remaining := src + 32, dst + 32, remaining - 32;
      }
      NextChunk(old(data[..]), pos, bytes, src, |bytes|);
      CopyIn(data, dst, bytes[src..|bytes|]);
      Advance(|bytes|);
    }

    /** Whatever the processor supports, `put_bytes_fast` is `put_bytes`. */
    method PutBytesFast(bytes: seq<byte>, avx2: bool) returns (r: Result<()>)
      modifies this`pos, this`len, data
      ensures data == old(data) && Buffers.Outcome(View(), r) == old(View()).PutBytes(bytes)
    {
      if |bytes| < 64 {
        r := PutBytes(bytes);
        return;
      }
      if pos + |bytes| > data.Length {
        return Err(BufferOverflow);
      }
      if avx2 {
        PutBytesAvx2(bytes);
      } else {
        PutBytesUnchecked(bytes);
      }
      r := Ok(());
    }

    // ---- cursors and storage ----

    method SetPos(p: nat) returns (r: Result<()>)
      modifies this`pos
      ensures Buffers.Outcome(View(), r) == old(View()).SetPos(p)
    {
      if p > len {
        return Err(PositionOutOfBounds);
      }
      pos := p;
      r := Ok(());
    }

    method SetLen(n: nat) returns (r: Result<()>)
      modifies this
      ensures (data == old(data) || fresh(data)) && Buffers.Outcome(View(), r) == old(View()).SetLen(n)
    {
      if n > Buffers.BUF_MAX_SIZE {
        return Err(SizeTooBig);
      }
      Grow(n);
      len := n;
      pos := Min(pos, n);
      r := Ok(());
    }

    /** `data.resize(n, 0)`: new storage unless the length is right already. */
    method ResizeStorage(n: nat)
      modifies this`data
      ensures data[..] == Resize(old(data[..]), n)
      ensures if n == old(data.Length) then data == old(data) else fresh(data)
    {
      if n == data.Length {
        return;
      }
      var moved := new byte[n](_ => 0);
      forall i | 0 <= i < Min(n, data.Length) {
        moved[i] := data[i];
      }
      data := moved;
    }

    /** `data.resize(n, 0)` when the storage is too short. */
    method Grow(n: nat)
      modifies this`data
      ensures data[..] == Resize(old(data[..]), Max(n, old(data.Length)))
      ensures data == old(data) || fresh(data)
    {
      if n > data.Length {
        ResizeStorage(n);
      }
    }

    method IncrPos(n: nat) returns (r: Result<()>)
      modifies this`pos
      ensures Buffers.Outcome(View(), r) == old(View()).IncrPos(n)
    {
      if n > Buffers.BUF_MAX_INCR || pos + n > len {
        return Err(IncrementTooLarge);
      }
      pos := pos + n;
      r := Ok(());
    }

    method DecrPos(n: nat) returns (r: Result<()>)
      modifies this`pos
      ensures Buffers.Outcome(View(), r) == old(View()).DecrPos(n)
    {
      if n > pos {
        return Err(PositionOutOfBounds);
      }
      pos := pos - n;
      r := Ok(());
    }

    method IncrLen(n: nat) returns (r: Result<()>)
      modifies this
      ensures (data == old(data) || fresh(data)) && Buffers.Outcome(View(), r) == old(View()).IncrLen(n)
    {
      if n > Buffers.BUF_MAX_INCR {
        return Err(IncrementTooLarge);
      }
      if len + n > Buffers.BUF_MAX_SIZE {
        return Err(SizeTooBig);
      }
      Grow(len + n);
      len := len + n;
      r := Ok(());
    }

    method IncrWritePos(n: nat) returns (r: Result<()>)
      modifies this
      ensures (data == old(data) || fresh(data)) && Buffers.Outcome(View(), r) == old(View()).IncrWritePos(n)
    {
      if n > Buffers.BUF_MAX_INCR || pos + n > Buffers.BUF_MAX_SIZE {
        return Err(IncrementTooLarge);
      }
      Grow(pos + n);
      pos := pos + n;
      if pos > len {
        len := pos;
      }
      r := Ok(());
    }

    method Reset()
      modifies this`pos, this`len
      ensures View() == old(View()).Reset()
    {
      pos, len := 0, 0;
    }

    /** Overwrites the very bytes that held the data; nothing is reallocated. */
    method Burn()
      modifies this`pos, this`len, data
      ensures View() == old(View()).Burn() && View().Clean()
      ensures data == old(data) && forall i :: 0 <= i < data.Length ==> data[i] == 0
    {
      Wipe(data);
      pos, len := 0, 0;
    }

    method ResizeTo(n: nat) returns (r: Result<()>)
      modifies this
      ensures (data == old(data) || fresh(data)) && Buffers.Outcome(View(), r) == old(View()).Resized(n)
    {
      if n > Buffers.BUF_MAX_SIZE {
        return Err(SizeTooBig);
      }
      ResizeStorage(n);
      len, pos := Min(len, n), Min(pos, n);
      r := Ok(());
    }

    method ShrinkToFit()
      modifies this`data
      ensures View() == old(View()).ShrinkToFit()
      ensures if old(len < data.Length) then fresh(data) else data == old(data)
    {
      if len < data.Length {
        ResizeStorage(len);
      }
    }

    /** Hands the valid bytes over - the memory itself, when nothing had to be cut off - and keeps an
        empty storage, so that there is nothing left to zero. */
    method IntoVec() returns (bytes: array<byte>)
      modifies this`data
      ensures bytes[..] == Buffers.IntoVec(old(View())) && data.Length == 0 && fresh(data)
      ensures old(len >= data.Length) ==> bytes == old(data)
    {
      ShrinkToFit();
      bytes := data;
      data := new byte[0];
    }

    method GetPtr(n: nat) returns (r: Result<seq<byte>>)
      requires Valid()
      ensures r == View().GetPtr(n)
    {
      if n > 1_000_000_000 || pos + n > len {
        return Err(BufferOverflow);
      }
      r := Ok(data[pos..pos + n]);
    }

    /** On success the caller may store into `data[pos..pos + n]`, by `Poke`. */
    method GetWritePtr(n: nat) returns (r: Result<()>)
      ensures r == View().GetWritePtr(n)
      ensures r.Ok? ==> pos + n <= data.Length
    {
      if n > 1_000_000_000 || pos + n > data.Length {
        return Err(BufferOverflow);
      }
      r := Ok(());
    }

    /** The caller's stores through a write pointer. */
    method Poke(at: nat, bytes: seq<byte>)
      requires at + |bytes| <= data.Length
      modifies data
      ensures View() == old(View()).Poke(at, bytes)
    {
      CopyIn(data, at, bytes);
    }
  }

  /** Storing the bytes up to `src` and then those from `src` to `to` stores the bytes up to `to`. */
  lemma NextChunk(was: seq<byte>, at: nat, bytes: seq<byte>, src: nat, to: nat)
    requires at + |bytes| <= |was| && src <= to <= |bytes|
    ensures Splice(Splice(was, at, bytes[..src]), at + src, bytes[src..to]) == Splice(was, at, bytes[..to])
    ensures bytes[..|bytes|] == bytes
  {
    SpliceTwice(was, at, bytes[..src], bytes[src..to]);
    assert bytes[..src] + bytes[src..to] == bytes[..to];
  }

  lemma BigEndian4(v: u32)
    ensures EncodeBE(v, 4) == [v / 0x100_0000, v / 0x1_0000 % 0x100, v / 0x100 % 0x100, v % 0x100]
  {
    assert EncodeBE(v / 0x100_0000, 1) == [v / 0x100_0000];
    assert v / 0x100 / 0x100 == v / 0x1_0000 && v / 0x1_0000 / 0x100 == v / 0x100_0000;
    assert EncodeBE(v / 0x1_0000, 2) == [v / 0x100_0000, v / 0x1_0000 % 0x100];
    assert EncodeBE(v / 0x100, 3) == [v / 0x100_0000, v / 0x1_0000 % 0x100, v / 0x100 % 0x100];
  }

  lemma FromBigEndian4(s: seq<byte>)
    requires |s| == 4
    ensures var b0: int, b1: int, b2: int, b3: int := s[0], s[1], s[2], s[3];
      DecodeBE(s) == b0 * 0x100_0000 + b1 * 0x1_0000 + b2 * 0x100 + b3
  {
    assert s[..3][..2] == s[..2] && s[..2][..1] == s[..1] && s[..1][..0] == [];
    assert DecodeBE(s[..2]) == DecodeBE(s[..1]) * 256 + s[1];
    assert DecodeBE(s[..3]) == DecodeBE(s[..2]) * 256 + s[2];
  }
}
