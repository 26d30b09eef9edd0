/** The two memory primitives that both buffers are built on, on arrays. */
module Copies {
  import opened Bytes

  /** `copy_nonoverlapping` into `dst[at..at + |bytes|]`. */
  method CopyIn(dst: array<byte>, at: nat, bytes: seq<byte>)
    requires at + |bytes| <= dst.Length
    modifies dst
    ensures dst[..] == Splice(old(dst[..]), at, bytes)
  {
    forall i | 0 <= i < |bytes| {
      dst[at + i] := bytes[i];
    }
    ghost var s := Splice(old(dst[..]), at, bytes);
    forall j | 0 <= j < dst.Length ensures dst[j] == s[j] {
      if at <= j < at + |bytes| { assert s[at..at + |bytes|][j - at] == bytes[j - at]; }
    }
  }

  /** `zeroize` of a slice: the memory itself is overwritten. */
  method Wipe(dst: array<byte>)
    modifies dst
    ensures dst[..] == Zeros(dst.Length)
  {
    forall i | 0 <= i < dst.Length {
      dst[i] := 0;
    }
  }
}
