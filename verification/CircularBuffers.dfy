/** The ring buffer as the program has it: an array allocated on first write and updated in place,
    copied in at most two straight segments. Every method does to its view what `Rings` says. */
module CircularBuffers {
  import opened Wrappers
  import opened Bytes
  import opened Bits
  import opened Copies
  import Rings
  import RingFifo

  class CircularBuffer {
    var data: array?<byte>
    const size: nat
    var used: nat
    var readPos: nat
    var writePos: nat
    const isPow2: bool

    ghost function View(): Rings.Ring
      reads this, data
    {
      Rings.Ring(if data == null then None else Some(data[..]), size, used, readPos, writePos, isPow2)
    }

    ghost predicate Valid()
      reads this, data
    {
      View().Valid()
    }

    constructor (size: nat)
      requires size <= Rings.MAX_CBUF_SIZE
      ensures Valid() && View() == Rings.New(size) && data == null
    {
      data, used, readPos, writePos := null, 0, 0, 0;
      this.size, isPow2 := size, IsPow2(size);
    }

    constructor Pow2Sized(sizeLog2: nat)
      requires Pow2(sizeLog2) <= Rings.MAX_CBUF_SIZE
      ensures Valid() && View() == Rings.NewPow2(sizeLog2) && data == null
    {
      data, used, readPos, writePos := null, 0, 0, 0;
      size, isPow2 := Pow2(sizeLog2), true;
      new;
      Pow2IsPow2(sizeLog2);
    }

    method EnsureAllocated()
      requires Valid()
      modifies this`data
      ensures data != null && View() == Rings.Allocate(old(View())) && Valid()
      ensures if old(data) == null then fresh(data) else data == old(data)
    {
      if data == null {
        data := new byte[size](_ => 0);
        assert data[..] == Zeros(size);
      }
    }

    /** One straight copy, or two when the bytes cross the end. */
    method CopyAround(bytes: seq<byte>)
      requires Valid() && data != null && 0 < |bytes| <= size - used
      modifies data
      ensures data[..] == Rings.Scatter(old(data[..]), writePos, bytes)
    {
      Rings.ScatterSegments(data[..], writePos, bytes);
      var toEnd := size - writePos;
      if |bytes| <= toEnd {
        CopyIn(data, writePos, bytes);
      } else {
        CopyIn(data, writePos, bytes[..toEnd]);
        CopyIn(data, 0, bytes[toEnd..]);
      }
    }

    method Write(bytes: seq<byte>) returns (r: Result<nat>)
      requires Valid()
      modifies this, data
      ensures Valid() && Rings.Outcome(View(), r) == Rings.Write(old(View()), bytes)
      ensures old(View()).Backed() ==> View().Backed()
      ensures r.Ok? <==> |bytes| <= size - old(used)
      ensures r.Ok? ==> View().Contents() == old(View().Contents()) + bytes
      ensures data == old(data) || (old(data) == null && fresh(data))
    {
      RingFifo.WriteAppends(View(), bytes);
      if bytes == [] {
        return Ok(0);
      }
      if size - used < |bytes| {
        return Err(InsufficientSpace);
      }
      EnsureAllocated();
      CopyAround(bytes);
      writePos := Rings.Wrap(writePos, |bytes|, size, isPow2);
      used := used + |bytes|;
      r := Ok(|bytes|);
    }

    /** The copy shared by `read` and `peek`: the oldest `n` bytes, in one or two segments. */
    method CopyOut(output: array<byte>, n: nat)
      requires Valid() && data != null && output != data && 0 < n <= used && n <= output.Length
      modifies output
      ensures output[..] == Splice(old(output[..]), 0, Rings.Gather(data[..], readPos, n))
    {
      hide Rings.Gather, Splice;
      Rings.GatherSegments(data[..], readPos, n);
      var toEnd := size - readPos;
      if n <= toEnd {
        CopyIn(output, 0, data[readPos..readPos + n]);
      } else {
        CopyIn(output, 0, data[readPos..]);
        SpliceTwice(old(output[..]), 0, data[readPos..], data[..n - toEnd]);
        CopyIn(output, toEnd, data[..n - toEnd]);
      }
    }

    method Read(output: array<byte>) returns (n: nat)
      requires Valid() && output != data
      modifies this, output
      ensures Valid() && View() == Rings.Read(old(View()), output.Length)
      ensures data == old(data)
      ensures var bytes := Rings.Peek(old(View()), output.Length);
        n == |bytes| && output[..] == Splice(old(output[..]), 0, bytes)
      ensures old(View()).Backed() ==>
        View().Backed() && n == Min(output.Length, old(used))
        && Rings.Peek(old(View()), output.Length) + View().Contents() == old(View().Contents())
    {
      ghost var v := View();
      if v.Backed() { RingFifo.ReadSplits(v, output.Length); }
      if used == 0 || data == null {
        assert Splice(output[..], 0, []) == output[..];
        return 0;
      }
      n := Min(output.Length, used);
      Rings.WrapFolds(readPos, n, size, isPow2);
      if n > 0 {
        CopyOut(output, n);
      } else {
        assert Splice(output[..], 0, []) == output[..];
      }
      readPos := Rings.Wrap(readPos, n, size, isPow2);
      used := used - n;
    }

    method Peek(output: array<byte>) returns (n: nat)
      requires Valid() && output != data
      modifies output
      ensures View() == old(View())
      ensures var bytes := Rings.Peek(View(), output.Length);
        n == |bytes| && output[..] == Splice(old(output[..]), 0, bytes)
    {
      assert Splice(output[..], 0, []) == output[..];
      if used == 0 || data == null {
        return 0;
      }
      n := Min(output.Length, used);
      if n > 0 {
        CopyOut(output, n);
      }
    }

    method ReadPtrs() returns (first: seq<byte>, second: seq<byte>)
      requires Valid()
      ensures (first, second) == Rings.ReadPtrs(View())
      ensures View().Backed() ==> first + second == View().Contents()
    {
      if View().Backed() { RingFifo.ReadPtrsAreContents(View()); }
      if used == 0 || data == null {
        return [], [];
      }
      var len1 := Min(used, size - readPos);
      first := data[readPos..readPos + len1];
      second := if len1 < used then data[..used - len1] else [];
    }

    method WritePtr(n: nat) returns (r: Result<Rings.Block>)
      requires Valid()
      modifies this`data
      ensures Valid() && Rings.Outcome(View(), r) == Rings.WritePtr(old(View()), n)
      ensures data == old(data) || (old(data) == null && fresh(data))
    {
      if n > size - used {
        return Err(InsufficientSpace);
      }
      if writePos + n > size {
        return Err(InvalidState);
      }
      EnsureAllocated();
      r := Ok(Rings.Block(writePos, n));
    }

    method WriteSlicesMut(n: nat) returns (r: Result<(Rings.Block, Rings.Block)>)
      requires Valid()
      modifies this`data
      ensures Valid() && Rings.Outcome(View(), r) == Rings.WriteSlices(old(View()), n)
      ensures data == old(data) || (old(data) == null && fresh(data))
    {
      if n == 0 {
        return Ok((Rings.Block(0, 0), Rings.Block(0, 0)));
      }
      if n > size - used {
        return Err(InsufficientSpace);
      }
      EnsureAllocated();
      var toEnd := size - writePos;
      if n <= toEnd {
        r := Ok((Rings.Block(writePos, n), Rings.Block(0, 0)));
      } else {
        r := Ok((Rings.Block(writePos, toEnd), Rings.Block(0, n - toEnd)));
      }
    }

    method IncrWrite(n: nat) returns (r: Result<()>)
      requires Valid() && (size > 0 || n > 0)
      modifies this`writePos, this`used
      ensures Valid() && Rings.Outcome(View(), r) == Rings.IncrWrite(old(View()), n)
    {
      if n > size - used {
        return Err(InsufficientSpace);
      }
      Rings.WrapFolds(writePos, n, size, isPow2);
      writePos := Rings.Wrap(writePos, n, size, isPow2);
      used := used + n;
      r := Ok(());
    }

    method IncrRead(n: nat) returns (r: Result<()>)
      requires Valid() && (size > 0 || n > 0)
      modifies this`readPos, this`used
      ensures Valid() && Rings.Outcome(View(), r) == Rings.IncrRead(old(View()), n)
    {
      if n > used {
        return Err(BufferOverflow);
      }
      Rings.WrapFolds(readPos, n, size, isPow2);
      readPos := Rings.Wrap(readPos, n, size, isPow2);
      used := used - n;
      r := Ok(());
    }

    /** A zero-copy write from end to end: lend, fill both slices, advance. It ends as `write` would. */
    method WriteThroughSlices(bytes: seq<byte>) returns (r: Result<()>)
      requires Valid() && size > 0
      modifies this, data
      ensures Valid() && View() == Rings.Write(old(View()), bytes).ring
      ensures r.Ok? <==> |bytes| <= size - old(used)
      ensures data == old(data) || (old(data) == null && fresh(data))
    {
      ghost var v := View();
      RingFifo.SlicesThenAdvanceIsWrite(v, bytes);
      RingFifo.SlicesInRange(v, |bytes|);
      var lent := WriteSlicesMut(|bytes|);
      if lent.Err? {
        return Err(lent.error);
      }
      var (b1, b2) := lent.value;
      if bytes != [] {
        FillLent(b1, b2, bytes);
      }
      r := IncrWrite(|bytes|);
    }

    /** The caller's two copies into what `write_slices_mut` lent. */
    method FillLent(b1: Rings.Block, b2: Rings.Block, bytes: seq<byte>)
      requires Valid() && data != null && |bytes| == b1.len + b2.len
      requires b1.start + b1.len <= size && b2.start + b2.len <= size
      modifies data
      ensures View() == RingFifo.FillBoth(old(View()), (b1, b2), bytes)
    {
      ghost var v := View();
      CopyIn(data, b1.start, bytes[..b1.len]);
      assert View() == Rings.Fill(v, b1, bytes[..b1.len]) by {
        if b1.len == 0 { assert Splice(v.data.value, b1.start, []) == v.data.value; }
      }
      ghost var w := View();
      CopyIn(data, b2.start, bytes[b1.len..]);
      if b2.len == 0 { assert Splice(w.data.value, b2.start, []) == w.data.value; }
    }

    method Clear()
      requires Valid()
      modifies this`used, this`readPos, this`writePos
      ensures Valid() && View() == Rings.Clear(old(View()))
    {
      used, readPos, writePos := 0, 0, 0;
    }

    /** Zeroes the storage before letting go of it. */
    method Free()
      requires Valid()
      modifies this, data
      ensures Valid() && View() == Rings.Free(old(View())) && data == null
      ensures var was := old(data); was != null ==> forall i :: 0 <= i < was.Length ==> was[i] == 0
    {
      if data != null {
        var taken := data;
        data := null;
        Wipe(taken);
      }
      Clear();
    }
  }
}
