/** The ring buffer as a value: storage indexed modulo its size, two cursors and a fill count. */
module Rings {
  import opened Wrappers
  import opened Bytes
  import opened Bits

  const MAX_CBUF_SIZE: nat := 100_000_000

  /** `data` is None until the first write. */
  datatype Ring = Ring(data: Option<seq<byte>>, size: nat, used: nat, readPos: nat, writePos: nat, isPow2: bool) {

    /** The storage a write would see: allocation is lazy and zero-filled. */
    function Storage(): seq<byte> {
      if data.Some? then data.value else Zeros(size)
    }

    function Available(): int {
      size - used
    }

    predicate Valid() {
      && size <= MAX_CBUF_SIZE
      && (data.Some? ==> |data.value| == size)
      && used <= size
      && (if size == 0 then readPos == writePos == 0
          else readPos < size && writePos == Fold(readPos + used, size))
      && (isPow2 ==> IsPow2(size))
    }

    /** Buffered bytes have storage behind them. */
    predicate Backed() {
      used > 0 ==> data.Some?
    }

    function Contents(): seq<byte>
      requires Valid()
    {
      Gather(Storage(), readPos, used)
    }
  }

  /** The position `x`, less than two turns around, brought back into the ring. */
  function Fold(x: nat, size: nat): nat
    requires size > 0
  {
    if x < size then x else x - size
  }

  /** `n` bytes from `at` on, going around the end. */
  function Gather(data: seq<byte>, at: nat, n: nat): (r: seq<byte>)
    requires n <= |data| && (n > 0 ==> at < |data|)
    ensures |r| == n && forall i :: 0 <= i < n ==> r[i] == data[Fold(at + i, |data|)]
  {
    seq(n, i requires 0 <= i < n => data[Fold(at + i, |data|)])
  }

  /** `data` with `bytes` stored from `at` on, going around the end. */
  function Scatter(data: seq<byte>, at: nat, bytes: seq<byte>): (r: seq<byte>)
    requires |bytes| <= |data| && at < |data|
    ensures |r| == |data|
    ensures forall j :: 0 <= j < |data| ==>
      var off := Fold(j + |data| - at, |data|); r[j] == if off < |bytes| then bytes[off] else data[j]
  {
    seq(|data|, j requires 0 <= j < |data| =>
      var off := Fold(j + |data| - at, |data|);
      if off < |bytes| then bytes[off] else data[j])
  }

  /** The cursor arithmetic of the source, both branches. */
  function Wrap(pos: nat, delta: nat, size: nat, isPow2: bool): nat
    requires size > 0
  {
    if isPow2 then BitAnd(pos + delta, size - 1) else (pos + delta) % size
  }

  // ---- operations ----

  datatype Outcome<+T> = Outcome(ring: Ring, result: Result<T>)

  /** A block of the storage that a zero-copy call hands out. */
  datatype Block = Block(start: nat, len: nat)

  function New(size: nat): Ring
    requires size <= MAX_CBUF_SIZE
  {
    Ring(None, size, 0, 0, 0, IsPow2(size))
  }

  function NewPow2(sizeLog2: nat): Ring
    requires Pow2(sizeLog2) <= MAX_CBUF_SIZE
  {
    Ring(None, Pow2(sizeLog2), 0, 0, 0, true)
  }

  function Allocate(r: Ring): Ring {
    r.(data := Some(r.Storage()))
  }

  function Write(r: Ring, bytes: seq<byte>): Outcome<nat>
    requires r.Valid()
  {
    if bytes == [] then Outcome(r, Ok(0))
    else if r.Available() < |bytes| then Outcome(r, Err(InsufficientSpace))
    else
      Outcome(r.(data := Some(Scatter(r.Storage(), r.writePos, bytes)),
                 writePos := Wrap(r.writePos, |bytes|, r.size, r.isPow2), used := r.used + |bytes|),
              Ok(|bytes|))
  }

  /** What `read` and `peek` copy out: nothing when the ring was never allocated. */
  function Peek(r: Ring, n: nat): seq<byte>
    requires r.Valid()
  {
    if r.used == 0 || r.data.None? then [] else Gather(r.data.value, r.readPos, Min(n, r.used))
  }

  function Read(r: Ring, n: nat): Ring
    requires r.Valid()
  {
    if r.used == 0 || r.data.None? then r
    else
      var k := Min(n, r.used);
      r.(readPos := Wrap(r.readPos, k, r.size, r.isPow2), used := r.used - k)
  }

  function ReadPtrs(r: Ring): (seq<byte>, seq<byte>)
    requires r.Valid()
  {
    if r.used == 0 || r.data.None? then ([], [])
    else
      var len1 := Min(r.used, r.size - r.readPos);
      (r.data.value[r.readPos..r.readPos + len1], r.data.value[..r.used - len1])
  }

  function WritePtr(r: Ring, n: nat): Outcome<Block>
    requires r.Valid()
  {
    if n > r.Available() then Outcome(r, Err(InsufficientSpace))
    else if r.writePos + n > r.size then Outcome(r, Err(InvalidState))
    else Outcome(Allocate(r), Ok(Block(r.writePos, n)))
  }

  function WriteSlices(r: Ring, n: nat): Outcome<(Block, Block)>
    requires r.Valid()
  {
    if n == 0 then Outcome(r, Ok((Block(0, 0), Block(0, 0))))
    else if n > r.Available() then Outcome(r, Err(InsufficientSpace))
    else
      var toEnd := r.size - r.writePos;
      if n <= toEnd then Outcome(Allocate(r), Ok((Block(r.writePos, n), Block(0, 0))))
      else Outcome(Allocate(r), Ok((Block(r.writePos, toEnd), Block(0, n - toEnd))))
  }

  /** The holder of a block stores `bytes` in it. */
  function Fill(r: Ring, block: Block, bytes: seq<byte>): Ring
    requires |bytes| == block.len && block.start + block.len <= |r.Storage()|
  {
    if bytes == [] then r else r.(data := Some(Splice(r.Storage(), block.start, bytes)))
  }

  /** On a ring of size 0, `incr_write(0)` and `incr_read(0)` would divide by zero. */
  function IncrWrite(r: Ring, n: nat): Outcome<()>
    requires r.Valid() && (r.size > 0 || n > 0)
  {
    if n > r.Available() then Outcome(r, Err(InsufficientSpace))
    else Outcome(r.(writePos := Wrap(r.writePos, n, r.size, r.isPow2), used := r.used + n), Ok(()))
  }

  function IncrRead(r: Ring, n: nat): Outcome<()>
    requires r.Valid() && (r.size > 0 || n > 0)
  {
    if n > r.used then Outcome(r, Err(BufferOverflow))
    else Outcome(r.(readPos := Wrap(r.readPos, n, r.size, r.isPow2), used := r.used - n), Ok(()))
  }

  function Clear(r: Ring): Ring {
    r.(used := 0, readPos := 0, writePos := 0)
  }

  function Free(r: Ring): Ring {
    Clear(r).(data := None)
  }

  // ---- arithmetic of the ring ----

  lemma ModFold(x: nat, size: nat)
    requires 0 < size && x < 2 * size
    ensures x % size == Fold(x, size)
  {
    if x < size { ModUnique(x, size, 0, x); } else { ModUnique(x, size, 1, x - size); }
  }

  /** Both branches of `wrap` compute (pos + delta) mod size, when the flag is honest. */
  lemma MaskWrapEqualsModuloWrap(pos: nat, delta: nat, size: nat)
    requires IsPow2(size)
    ensures Wrap(pos, delta, size, true) == Wrap(pos, delta, size, false) == (pos + delta) % size
  {
    var k := IsPow2Exponent(size);
    MaskIsMod(pos + delta, k);
  }

  lemma WrapFolds(pos: nat, delta: nat, size: nat, isPow2: bool)
    requires 0 < size && pos < size && delta <= size && (isPow2 ==> IsPow2(size))
    ensures Wrap(pos, delta, size, isPow2) == Fold(pos + delta, size)
  {
    ModFold(pos + delta, size);
    if isPow2 { MaskWrapEqualsModuloWrap(pos, delta, size); }
  }

  // ---- two segments are one ring ----

  /** Copying out in at most two straight segments gathers around the end. */
  lemma GatherSegments(data: seq<byte>, at: nat, n: nat)
    requires n <= |data| && at < |data|
    ensures n <= |data| - at ==> Gather(data, at, n) == data[at..at + n]
    ensures n > |data| - at ==> Gather(data, at, n) == data[at..] + data[..n - (|data| - at)]
  {
    var g := Gather(data, at, n);
    if n <= |data| - at {
      forall i | 0 <= i < n ensures g[i] == data[at..at + n][i] {}
    } else {
      var t := data[at..] + data[..n - (|data| - at)];
      forall i | 0 <= i < n ensures g[i] == t[i] {}
    }
  }

  /** Copying in in at most two straight segments scatters around the end. */
  lemma ScatterSegments(data: seq<byte>, at: nat, bytes: seq<byte>)
    requires |bytes| <= |data| && at < |data|
    ensures |bytes| <= |data| - at ==> Scatter(data, at, bytes) == Splice(data, at, bytes)
    ensures |bytes| > |data| - at ==>
      var toEnd := |data| - at;
      Scatter(data, at, bytes) == Splice(Splice(data, at, bytes[..toEnd]), 0, bytes[toEnd..])
  {
    var g := Scatter(data, at, bytes);
    if |bytes| <= |data| - at {
      var s := Splice(data, at, bytes);
      forall j | 0 <= j < |data| ensures g[j] == s[j] {
        if j < at { assert Fold(j + |data| - at, |data|) == j + |data| - at; }
      }
    } else {
      var toEnd := |data| - at;
      var one := Splice(data, at, bytes[..toEnd]);
      var s := Splice(one, 0, bytes[toEnd..]);
      forall j | 0 <= j < |data| ensures g[j] == s[j] {
        if j < |bytes| - toEnd {
          assert s[0..|bytes| - toEnd][j] == bytes[toEnd..][j];
        } else if at <= j {
          assert one[at..at + toEnd][j - at] == bytes[..toEnd][j - at];
        }
      }
    }
  }

  /** Scattering just behind `used` gathered bytes appends to them and touches none of them. */
  lemma GatherScatter(data: seq<byte>, at: nat, used: nat, bytes: seq<byte>)
    requires at < |data| && used + |bytes| <= |data| && bytes != []
    ensures Gather(Scatter(data, Fold(at + used, |data|), bytes), at, used + |bytes|) == Gather(data, at, used) + bytes
  {
    var n := |data|;
    var w := Fold(at + used, n);
    var s := Scatter(data, w, bytes);
    var g, h := Gather(s, at, used + |bytes|), Gather(data, at, used) + bytes;
    forall i | 0 <= i < used + |bytes| ensures g[i] == h[i] {
      var j := Fold(at + i, n);
      var off := Fold(j + n - w, n);
      assert s[j] == if off < |bytes| then bytes[off] else data[j];
    }
  }

  /** The bytes gathered next follow those gathered first. */
  lemma GatherJoin(data: seq<byte>, at: nat, used: nat, n: nat)
    requires at < |data| && used + n <= |data|
    ensures Gather(data, at, used + n) == Gather(data, at, used) + Gather(data, Fold(at + used, |data|), n)
  {
    var g := Gather(data, at, used + n);
    var t := Gather(data, at, used) + Gather(data, Fold(at + used, |data|), n);
    forall i | 0 <= i < used + n ensures g[i] == t[i] {}
  }

  lemma GatherSuffix(data: seq<byte>, at: nat, used: nat, k: nat)
    requires at < |data| && k <= used <= |data|
    ensures Gather(data, at, used)[..k] == Gather(data, at, k)
    ensures Gather(data, at, used)[k..] == Gather(data, Fold(at + k, |data|), used - k)
  {
    var g := Gather(data, at, used);
    var t := Gather(data, Fold(at + k, |data|), used - k);
    forall i | 0 <= i < used - k ensures g[k..][i] == t[i] {
      assert g[k..][i] == g[k + i];
    }
  }
}
