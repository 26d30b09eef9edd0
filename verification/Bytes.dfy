/** Byte strings: zero blocks, in-place replacement and big-endian integers. */
module Bytes {

  type byte = b: int | 0 <= b < 0x100
  type u32 = n: int | 0 <= n < 0x1_0000_0000
  type u64 = n: int | 0 <= n < 0x1_0000_0000_0000_0000

  function Zeros(n: nat): (z: seq<byte>)
    ensures |z| == n && forall i :: 0 <= i < n ==> z[i] == 0
  {
    seq(n, _ => 0)
  }

  function Min(a: nat, b: nat): nat {
    if a <= b then a else b
  }

  function Max(a: nat, b: nat): nat {
    if a <= b then b else a
  }

  /** `data` with the bytes from `at` on replaced by `bytes`. */
  function Splice(data: seq<byte>, at: nat, bytes: seq<byte>): (r: seq<byte>)
    requires at + |bytes| <= |data|
    ensures |r| == |data|
    ensures r[at..at + |bytes|] == bytes
    ensures forall i :: 0 <= i < at || at + |bytes| <= i < |data| ==> r[i] == data[i]
  {
    data[..at] + bytes + data[at + |bytes|..]
  }

  lemma SpliceTwice(data: seq<byte>, at: nat, x: seq<byte>, y: seq<byte>)
    requires at + |x| + |y| <= |data|
    ensures Splice(Splice(data, at, x), at + |x|, y) == Splice(data, at, x + y)
  {
    var once := Splice(data, at, x);
    assert once[..at + |x|] == data[..at] + x;
    assert once[at + |x| + |y|..] == data[at + |x| + |y|..];
  }

  /** `Vec::resize(n, 0)`: truncate, or extend with zeros. */
  function Resize(data: seq<byte>, n: nat): (r: seq<byte>)
    ensures |r| == n
    ensures forall i :: 0 <= i < n ==> r[i] == if i < |data| then data[i] else 0
  {
    if n <= |data| then data[..n] else data + Zeros(n - |data|)
  }

  function Pow256(width: nat): (p: nat)
    ensures p > 0
  {
    if width == 0 then 1 else 256 * Pow256(width - 1)
  }

  /** The big-endian image of `n` in `width` bytes (the uint32 and uint64 of RFC 4251, section 5). */
  function EncodeBE(n: nat, width: nat): (s: seq<byte>)
    ensures |s| == width
  {
    if width == 0 then [] else EncodeBE(n / 256, width - 1) + [n % 256]
  }

  function DecodeBE(s: seq<byte>): (n: nat)
    ensures n < Pow256(|s|)
  {
    if s == [] then 0 else DecodeBE(s[..|s| - 1]) * 256 + s[|s| - 1]
  }

  lemma {:induction false} DecodeEncodeBE(n: nat, width: nat)
    requires n < Pow256(width)
    ensures DecodeBE(EncodeBE(n, width)) == n
  {
    if width > 0 {
      var high := EncodeBE(n / 256, width - 1);
      assert (high + [n % 256])[..width - 1] == high;
      assert n / 256 < Pow256(width - 1);
      DecodeEncodeBE(n / 256, width - 1);
    }
  }

  lemma {:induction false} EncodeDecodeBE(s: seq<byte>)
    ensures EncodeBE(DecodeBE(s), |s|) == s
  {
    if s != [] {
      EncodeDecodeBE(s[..|s| - 1]);
      assert DecodeBE(s) / 256 == DecodeBE(s[..|s| - 1]);
    }
  }

  lemma {:induction false} DecodeConcat(s: seq<byte>, t: seq<byte>)
    ensures DecodeBE(s + t) == DecodeBE(s) * Pow256(|t|) + DecodeBE(t)
    decreases |t|
  {
    if t == [] {
      assert s + t == s;
    } else {
      var front, last := t[..|t| - 1], t[|t| - 1];
      assert (s + t)[..|s + t| - 1] == s + front && (s + t)[|s + t| - 1] == last;
      DecodeConcat(s, front);
      assert DecodeBE(s + t) == DecodeBE(s + front) * 256 + last;
      OneMoreByte(DecodeBE(s), Pow256(|front|), DecodeBE(front), last);
    }
  }

  lemma OneMoreByte(high: nat, power: nat, low: nat, last: nat)
    ensures (high * power + low) * 256 + last == high * (256 * power) + (low * 256 + last)
  {
    assert high * (256 * power) == (high * power) * 256;
  }

  /** The image of a word is the image of its high half followed by that of its low half. */
  lemma EncodeHalves(v: u64)
    ensures EncodeBE(v, 8) == EncodeBE(v / 0x1_0000_0000, 4) + EncodeBE(v % 0x1_0000_0000, 4)
  {
    var high, low := EncodeBE(v / 0x1_0000_0000, 4), EncodeBE(v % 0x1_0000_0000, 4);
    Pow256Values();
    DecodeEncodeBE(v / 0x1_0000_0000, 4);
    DecodeEncodeBE(v % 0x1_0000_0000, 4);
    DecodeConcat(high, low);
    EncodeDecodeBE(high + low);
  }

  lemma Pow256Values()
    ensures Pow256(4) == 0x1_0000_0000
    ensures Pow256(8) == 0x1_0000_0000_0000_0000
  {
    assert Pow256(2) == 0x1_0000;
    assert Pow256(4) == 0x1_0000_0000;
    assert Pow256(6) == 0x1_0000_0000_0000;
  }
}
