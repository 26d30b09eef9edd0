/** The wire codec of the linear buffer: typed fields written one after the other (the uint32,
    uint64, boolean and string of section 5 of RFC 4251, single bytes, and raw bytes). */
module Codec {
  import opened Wrappers
  import opened Bytes
  import opened Buffers

  datatype Field =
    | FByte(b: byte)
    | FBool(t: bool)
    | FU32(n: u32)
    | FU64(m: u64)
    | FRaw(raw: seq<byte>)
    | FString(s: seq<byte>)

  /** What a reader knows beforehand: the types, and the lengths of raw fields. */
  datatype Kind = KByte | KBool | KU32 | KU64 | KRaw(n: nat) | KString

  function KindOf(f: Field): Kind {
    match f
    case FByte(_) => KByte
    case FBool(_) => KBool
    case FU32(_) => KU32
    case FU64(_) => KU64
    case FRaw(raw) => KRaw(|raw|)
    case FString(_) => KString
  }

  function Kinds(fs: seq<Field>): (ks: seq<Kind>)
    ensures |ks| == |fs|
  {
    if fs == [] then [] else [KindOf(fs[0])] + Kinds(fs[1..])
  }

  /** A string the writer accepts. */
  predicate Writable(f: Field) {
    f.FString? ==> |f.s| <= MAX_STRING_LEN
  }

  // ---- the wire format ----

  function Encode(f: Field): seq<byte> {
    match f
    case FByte(b) => [b]
    case FBool(t) => [if t then 1 else 0]
    case FU32(n) => EncodeBE(n, 4)
    case FU64(m) => EncodeBE(m, 8)
    case FRaw(raw) => raw
    case FString(s) => EncodeBE(|s|, 4) + s
  }

  function EncodeAll(fs: seq<Field>): seq<byte> {
    if fs == [] then [] else Encode(fs[0]) + EncodeAll(fs[1..])
  }

  // ---- writing and reading with the buffer's operations ----

  function PutField(b: Buf, f: Field): Outcome<()> {
    match f
    case FByte(v) => b.PutByte(v)
    case FBool(t) => b.PutByte(if t then 1 else 0)
    case FU32(n) => b.PutU32(n)
    case FU64(m) => b.PutU64(m)
    case FRaw(raw) => b.PutBytes(raw)
    case FString(s) => b.PutString(s)
  }

  function GetField(b: Buf, k: Kind): Outcome<Field>
    requires b.Valid()
  {
    match k
    case KByte =>
      var o := b.GetByte();
      Outcome(o.buf, if o.result.Ok? then Ok(FByte(o.result.value)) else Err(o.result.error))
    case KBool =>
      var o := b.GetBool();
      Outcome(o.buf, if o.result.Ok? then Ok(FBool(o.result.value)) else Err(o.result.error))
    case KU32 =>
      var o := b.GetU32();
      Outcome(o.buf, if o.result.Ok? then Ok(FU32(o.result.value)) else Err(o.result.error))
    case KU64 =>
      var o := b.GetU64();
      Outcome(o.buf, if o.result.Ok? then Ok(FU64(o.result.value)) else Err(o.result.error))
    case KRaw(n) =>
      var o := b.GetBytes(n);
      Outcome(o.buf, if o.result.Ok? then Ok(FRaw(o.result.value)) else Err(o.result.error))
    case KString =>
      var o := b.GetString();
      Outcome(o.buf, if o.result.Ok? then Ok(FString(o.result.value)) else Err(o.result.error))
  }

  /** Writes the fields in order and stops at the first error. */
  function PutAll(b: Buf, fs: seq<Field>): Outcome<()>
    decreases |fs|
  {
    if fs == [] then Outcome(b, Ok(()))
    else
      var o := PutField(b, fs[0]);
      if o.result.Err? then o else PutAll(o.buf, fs[1..])
  }

  lemma GetFieldValid(b: Buf, k: Kind)
    requires b.Valid()
    ensures var b' := GetField(b, k).buf; b'.Valid() && b' == b.At(b'.pos) && b.pos <= b'.pos
  {}

  function GetAll(b: Buf, ks: seq<Kind>): (o: Outcome<seq<Field>>)
    requires b.Valid()
    ensures o.buf.Valid() && o.buf == b.At(o.buf.pos) && b.pos <= o.buf.pos
    decreases |ks|
  {
    if ks == [] then Outcome(b, Ok([]))
    else
      GetFieldValid(b, ks[0]);
      var o := GetField(b, ks[0]);
      match o.result
      case Err(e) => Outcome(o.buf, Err(e))
      case Ok(f) =>
        var rest := GetAll(o.buf, ks[1..]);
        match rest.result
        case Err(e) => Outcome(rest.buf, Err(e))
        case Ok(fs) => Outcome(rest.buf, Ok([f] + fs))
  }

  // ---- writing ----

  lemma PutTwice(b: Buf, x: seq<byte>, y: seq<byte>)
    requires b.pos + |x| + |y| <= |b.data|
    ensures b.Put(x).Put(y) == b.Put(x + y)
  {
    SpliceTwice(b.data, b.pos, x, y);
  }

  lemma PutNothing(b: Buf)
    requires b.pos <= b.len && b.pos <= |b.data|
    ensures b.Put([]) == b
  {
    assert Splice(b.data, b.pos, []) == b.data;
  }

  /** A field is written exactly when it fits and the writer accepts it, and then as its encoding. */
  lemma PutFieldSpec(b: Buf, f: Field)
    ensures var o := PutField(b, f);
      && (o.result.Ok? <==> Writable(f) && b.pos + |Encode(f)| <= |b.data|)
      && (o.result.Ok? ==> o.buf == b.Put(Encode(f)))
  {
    if f.FString? && |f.s| <= MAX_STRING_LEN && b.pos + 4 + |f.s| <= |b.data| {
      PutTwice(b, EncodeBE(|f.s|, 4), f.s);
    }
  }

  ghost predicate AllWritable(fs: seq<Field>) {
    forall i :: 0 <= i < |fs| ==> Writable(fs[i])
  }

  /** A list of fields is written exactly when all of it fits, and then as its encoding. */
  lemma {:induction false} PutAllSpec(b: Buf, fs: seq<Field>)
    requires b.Valid()
    ensures var o := PutAll(b, fs);
      && (o.result.Ok? <==> AllWritable(fs) && b.pos + |EncodeAll(fs)| <= |b.data|)
      && (o.result.Ok? ==> o.buf == b.Put(EncodeAll(fs)))
    decreases |fs|
  {
    if fs == [] {
      PutNothing(b);
    } else {
      PutFieldSpec(b, fs[0]);
      var o := PutField(b, fs[0]);
      assert AllWritable(fs) <==> Writable(fs[0]) && AllWritable(fs[1..]) by {
        if Writable(fs[0]) && AllWritable(fs[1..]) {
          forall i | 0 <= i < |fs| ensures Writable(fs[i]) {
            if i > 0 { assert fs[i] == fs[1..][i - 1]; }
          }
        }
      }
      if o.result.Ok? {
        PutAllSpec(o.buf, fs[1..]);
        if b.pos + |EncodeAll(fs)| <= |b.data| {
          PutTwice(b, Encode(fs[0]), EncodeAll(fs[1..]));
        }
      }
    }
  }

  // ---- reading what was written ----

  /** The bytes at the cursor start with `bytes`, within the valid length. */
  ghost predicate Ahead(b: Buf, bytes: seq<byte>) {
    b.Valid() && b.pos + |bytes| <= b.len && b.Readable(|bytes|) == bytes
  }

  lemma AheadSplit(b: Buf, x: seq<byte>, y: seq<byte>)
    requires Ahead(b, x + y)
    ensures Ahead(b, x) && Ahead(b.At(b.pos + |x|), y)
  {
    var all := b.Readable(|x| + |y|);
    assert b.Readable(|x|) == all[..|x|] == x;
    assert b.At(b.pos + |x|).Readable(|y|) == all[|x|..] == y;
  }

  lemma U32Reads(b: Buf, n: u32)
    requires Ahead(b, EncodeBE(n, 4))
    ensures b.GetU32() == Outcome(b.At(b.pos + 4), Ok(n))
  {
    Pow256Values();
    DecodeEncodeBE(n, 4);
  }

  lemma U64Reads(b: Buf, m: u64)
    requires Ahead(b, EncodeBE(m, 8))
    ensures b.GetU64() == Outcome(b.At(b.pos + 8), Ok(m))
  {
    Pow256Values();
    DecodeEncodeBE(m, 8);
  }

  lemma StringReads(b: Buf, s: seq<byte>)
    requires |s| <= MAX_STRING_LEN && Ahead(b, EncodeBE(|s|, 4) + s)
    ensures b.GetString() == Outcome(b.At(b.pos + 4 + |s|), Ok(s))
  {
    AheadSplit(b, EncodeBE(|s|, 4), s);
    U32Reads(b, |s|);
  }

  lemma GetFieldReads(b: Buf, f: Field)
    requires Writable(f) && Ahead(b, Encode(f))
    ensures GetField(b, KindOf(f)) == Outcome(b.At(b.pos + |Encode(f)|), Ok(f))
  {
    match f
    case FByte(v) => assert b.data[b.pos] == b.Readable(1)[0];
    case FBool(t) => assert b.data[b.pos] == b.Readable(1)[0];
    case FU32(n) => U32Reads(b, n);
    case FU64(m) => U64Reads(b, m);
    case FRaw(_) =>
    case FString(s) => StringReads(b, s);
  }

  lemma GetAllStep(b: Buf, k: Kind, ks: seq<Kind>, mid: Buf, f: Field, last: Buf, fs: seq<Field>)
    requires b.Valid() && mid.Valid()
    requires GetField(b, k) == Outcome(mid, Ok(f)) && GetAll(mid, ks) == Outcome(last, Ok(fs))
    ensures GetAll(b, [k] + ks) == Outcome(last, Ok([f] + fs))
  {
    assert ([k] + ks)[1..] == ks;
  }

  lemma WritableTail(fs: seq<Field>)
    requires AllWritable(fs) && fs != []
    ensures Writable(fs[0]) && AllWritable(fs[1..])
  {
    forall i | 0 <= i < |fs[1..]| ensures Writable(fs[1..][i]) { assert fs[1..][i] == fs[i + 1]; }
  }

  lemma AheadCons(b: Buf, f: Field, rest: seq<Field>)
    requires AllWritable([f] + rest) && Ahead(b, EncodeAll([f] + rest))
    ensures Writable(f) && AllWritable(rest)
    ensures Ahead(b, Encode(f)) && Ahead(b.At(b.pos + |Encode(f)|), EncodeAll(rest))
    ensures |EncodeAll([f] + rest)| == |Encode(f)| + |EncodeAll(rest)|
  {
    var fs := [f] + rest;
    assert fs[1..] == rest;
    WritableTail(fs);
    AheadSplit(b, Encode(f), EncodeAll(rest));
  }

  lemma {:induction false} GetAllReads(b: Buf, fs: seq<Field>)
    requires AllWritable(fs) && Ahead(b, EncodeAll(fs))
    ensures GetAll(b, Kinds(fs)) == Outcome(b.At(b.pos + |EncodeAll(fs)|), Ok(fs))
    decreases |fs|
  {
    hide GetField, Encode;
    if fs == [] {
    } else {
      assert fs == [fs[0]] + fs[1..];
      AheadCons(b, fs[0], fs[1..]);
      GetAllReads(b.At(b.pos + |Encode(fs[0])|), fs[1..]);
      ConsReads(b, fs[0], fs[1..], |Encode(fs[0])|, |EncodeAll(fs[1..])|);
    }
  }

  lemma ConsReads(b: Buf, f: Field, rest: seq<Field>, n: nat, m: nat)
    requires Writable(f) && n == |Encode(f)| && Ahead(b, Encode(f)) && b.pos + n + m <= b.len
    requires GetAll(b.At(b.pos + n), Kinds(rest)) == Outcome(b.At(b.pos + n + m), Ok(rest))
    ensures GetAll(b, Kinds([f] + rest)) == Outcome(b.At(b.pos + n + m), Ok([f] + rest))
  {
    GetFieldReads(b, f);
    assert ([f] + rest)[1..] == rest;
    GetAllStep(b, KindOf(f), Kinds(rest), b.At(b.pos + n), f, b.At(b.pos + n + m), rest);
  }

  /** Codec round trip: whatever fits is written; seeking back and reading by the same schema returns
      it and ends where the writer ended; and no byte outside the written range has changed. */
  lemma RoundTrip(b: Buf, fs: seq<Field>)
    requires b.Valid() && PutAll(b, fs).result.Ok?
    ensures var w := PutAll(b, fs).buf;
      && w.Valid() && w.SetPos(b.pos) == Outcome(w.At(b.pos), Ok(()))
      && GetAll(w.At(b.pos), Kinds(fs)) == Outcome(w, Ok(fs))
      && w.pos == b.pos + |EncodeAll(fs)|
      && |w.data| == |b.data|
      && (forall i :: 0 <= i < b.pos || w.pos <= i < |b.data| ==> w.data[i] == b.data[i])
  {
    hide PutField, GetField, Encode;
    PutAllSpec(b, fs);
    GetAllReads(PutAll(b, fs).buf.At(b.pos), fs);
  }

  /** What `into_vec` of a freshly filled buffer returns: all that was written, though the cursor
      stands at the end. `shrink_to_fit` keeps exactly the same bytes. */
  lemma IntoVecAfterWrites(size: nat, fs: seq<Field>)
    requires PutAll(New(size), fs).result.Ok?
    ensures var w := PutAll(New(size), fs).buf;
      IntoVec(w) == EncodeAll(fs) && w.ShrinkToFit() == Buf(EncodeAll(fs), w.pos, w.len)
  {
    hide PutField, Encode;
    PutAllSpec(New(size), fs);
  }

  /** The comment on `into_vec` promises the bytes from the cursor to the end of the valid ones. It
      returns those from the start, which is the same exactly when the cursor stands at 0. */
  lemma IntoVecFromPosIff(b: Buf)
    requires b.Valid()
    ensures IntoVec(b) == b.data[b.pos..b.len] <==> b.pos == 0
  {
    assert |IntoVec(b)| == b.len && |b.data[b.pos..b.len]| == b.len - b.pos;
  }

  /** The five bytes of its own example: all five are returned, though none lies after the cursor. */
  lemma IntoVecIgnoresCursor(bytes: seq<byte>)
    requires |bytes| == 5
    ensures var b := New(1024).PutBytes(bytes).buf;
      b.pos == 5 && IntoVec(b) == bytes && b.data[b.pos..b.len] == []
  {}

  // ---- re-encoding what was read ----

  /** A boolean is the one field that several bytes encode: readers take any non-zero byte as true. */
  ghost predicate CanonicalBools(b: Buf, ks: seq<Kind>)
    requires b.Valid()
    decreases |ks|
  {
    ks == [] ||
    (GetFieldValid(b, ks[0]);
     (ks[0].KBool? && b.pos < b.len ==> b.data[b.pos] <= 1) && CanonicalBools(GetField(b, ks[0]).buf, ks[1..]))
  }

  lemma GetFieldConverse(b: Buf, k: Kind)
    requires b.Valid() && GetField(b, k).result.Ok?
    ensures var o := GetField(b, k); var f := o.result.value;
      && KindOf(f) == k && Writable(f)
      && o.buf.pos == b.pos + |Encode(f)| <= b.len
      && (Encode(f) == b.Readable(|Encode(f)|) <==> (k.KBool? ==> b.data[b.pos] <= 1))
  {
    match k
    case KByte => assert b.Readable(1) == [b.data[b.pos]];
    case KBool => assert b.Readable(1) == [b.data[b.pos]];
    case KU32 => EncodeDecodeBE(b.Readable(4));
    case KU64 => EncodeDecodeBE(b.Readable(8));
    case KRaw(_) =>
    case KString => StringConverse(b);
  }

  lemma StringConverse(b: Buf)
    requires b.Valid() && b.GetString().result.Ok?
    ensures var o := b.GetString(); var s := o.result.value;
      && |s| <= MAX_STRING_LEN && o.buf.pos == b.pos + 4 + |s| <= b.len
      && EncodeBE(|s|, 4) + s == b.Readable(4 + |s|)
  {
    EncodeDecodeBE(b.Readable(4));
    var s := b.GetString().result.value;
    assert b.Readable(4 + |s|) == b.Readable(4) + b.At(b.pos + 4).Readable(|s|);
  }

  /** How a successful read of a list splits into its first field and the rest. */
  lemma GetAllSplit(b: Buf, ks: seq<Kind>) returns (mid: Buf, f: Field, rest: seq<Field>)
    requires b.Valid() && ks != [] && GetAll(b, ks).result.Ok?
    ensures mid.Valid() && GetField(b, ks[0]) == Outcome(mid, Ok(f))
    ensures GetAll(mid, ks[1..]) == Outcome(GetAll(b, ks).buf, Ok(rest))
    ensures GetAll(b, ks).result.value == [f] + rest
    ensures CanonicalBools(b, ks) <==>
      (ks[0].KBool? && b.pos < b.len ==> b.data[b.pos] <= 1) && CanonicalBools(mid, ks[1..])
  {
    GetFieldValid(b, ks[0]);
    mid := GetField(b, ks[0]).buf;
    f := GetField(b, ks[0]).result.value;
    rest := GetAll(mid, ks[1..]).result.value;
  }

  lemma JoinEqual(x: seq<byte>, y: seq<byte>, x': seq<byte>, y': seq<byte>)
    requires |x| == |x'|
    ensures x + y == x' + y' <==> x == x' && y == y'
  {
    if x + y == x' + y' {
      assert x == (x + y)[..|x|] && y == (x + y)[|x|..];
      assert x' == (x' + y')[..|x|] && y' == (x' + y')[|x|..];
    }
  }

  lemma ReadableSplit(b: Buf, n: nat, k: nat)
    requires b.pos + n + k <= |b.data|
    ensures b.Readable(n + k) == b.Readable(n) + b.At(b.pos + n).Readable(k)
  {}

  lemma ReadNothing(b: Buf)
    requires b.Valid()
    ensures b.Readable(0) == []
  {}

  lemma JoinReadable(b: Buf, mid: Buf, x: seq<byte>, y: seq<byte>)
    requires mid == b.At(b.pos + |x|) && b.pos + |x| + |y| <= |b.data|
    ensures x + y == b.Readable(|x + y|) <==> x == b.Readable(|x|) && y == mid.Readable(|y|)
  {
    ReadableSplit(b, |x|, |y|);
    JoinEqual(x, y, b.Readable(|x|), mid.Readable(|y|));
  }

  /** Codec converse: re-encoding the fields read gives back exactly the bytes consumed if and only if
      every boolean byte was 0 or 1. */
  lemma {:induction false} ReencodeIff(b: Buf, ks: seq<Kind>)
    requires b.Valid() && GetAll(b, ks).result.Ok?
    ensures var o := GetAll(b, ks); var fs := o.result.value;
      && Kinds(fs) == ks && AllWritable(fs)
      && o.buf.pos == b.pos + |EncodeAll(fs)| <= b.len
      && (EncodeAll(fs) == b.Readable(|EncodeAll(fs)|) <==> CanonicalBools(b, ks))
    decreases |ks|
  {
    hide GetField, Encode, KindOf, Writable, Buf.Readable;
    if ks != [] {
      var mid, f, rest := GetAllSplit(b, ks);
      FirstConverse(b, ks[0], mid, f);
      ReencodeIff(mid, ks[1..]);
      ConsSpec(f, rest);
      JoinReadable(b, mid, Encode(f), EncodeAll(rest));
      assert [ks[0]] + ks[1..] == ks;
    } else {
      ReadNothing(b);
    }
  }

  lemma ConsSpec(f: Field, rest: seq<Field>)
    requires Writable(f)
    ensures Kinds([f] + rest) == [KindOf(f)] + Kinds(rest)
    ensures EncodeAll([f] + rest) == Encode(f) + EncodeAll(rest)
    ensures AllWritable(rest) ==> AllWritable([f] + rest)
  {
    assert ([f] + rest)[1..] == rest;
  }

  lemma FirstConverse(b: Buf, k: Kind, mid: Buf, f: Field)
    requires b.Valid() && GetField(b, k) == Outcome(mid, Ok(f))
    ensures KindOf(f) == k && Writable(f)
    ensures mid == b.At(b.pos + |Encode(f)|) && mid.pos <= b.len && (k.KBool? ==> b.pos < b.len)
    ensures Encode(f) == b.Readable(|Encode(f)|) <==> (k.KBool? ==> b.data[b.pos] <= 1)
  {
    GetFieldValid(b, k);
    GetFieldConverse(b, k);
  }

  predicate BoolFree(ks: seq<Kind>) {
    forall i :: 0 <= i < |ks| ==> !ks[i].KBool?
  }

  lemma {:induction false} BoolFreeIsCanonical(b: Buf, ks: seq<Kind>)
    requires b.Valid() && BoolFree(ks)
    ensures CanonicalBools(b, ks)
    decreases |ks|
  {
    if ks != [] {
      GetFieldValid(b, ks[0]);
      BoolFreeIsCanonical(GetField(b, ks[0]).buf, ks[1..]);
    }
  }

  /** Without booleans the reader accepts only what the writer would have produced. */
  lemma ReencodeBoolFree(b: Buf, ks: seq<Kind>)
    requires b.Valid() && BoolFree(ks) && GetAll(b, ks).result.Ok?
    ensures var o := GetAll(b, ks); EncodeAll(o.result.value) == b.data[b.pos..o.buf.pos]
  {
    ReencodeIff(b, ks);
    BoolFreeIsCanonical(b, ks);
  }

  /** For a fixed schema encodings are injective and no encoding is a proper prefix of another. */
  lemma PrefixFree(fs: seq<Field>, gs: seq<Field>)
    requires AllWritable(fs) && AllWritable(gs) && Kinds(fs) == Kinds(gs)
    requires EncodeAll(fs) <= EncodeAll(gs)
    ensures fs == gs
  {
    var x, y := EncodeAll(fs), EncodeAll(gs);
    var b := FromVec(y);
    assert b.Readable(|y|) == y && b.Readable(|x|) == x;
    GetAllReads(b, gs);
    GetAllReads(b, fs);
  }

  // ---- skipping a string agrees with reading it ----

  /** From every state `eat_string` and `get_string` succeed on the same buffers and leave the same
      position, in success and in failure. */
  lemma EatAgreesWithGet(b: Buf)
    requires b.Valid()
    ensures b.EatString().buf == b.GetString().buf
    ensures b.EatString().result.Ok? <==> b.GetString().result.Ok?
    ensures b.GetString().result.Err? ==>
      (b.EatString().result.error != b.GetString().result.error
       <==> b.GetString().result.error == BufferOverflow && b.pos + 4 <= b.len)
  {}

  function EatMany(b: Buf, k: nat): (o: Outcome<()>)
    requires b.Valid()
    ensures o.buf.Valid()
    decreases k
  {
    if k == 0 then Outcome(b, Ok(()))
    else
      var o := b.EatString();
      if o.result.Err? then o else EatMany(o.buf, k - 1)
  }

  function Strings(ss: seq<seq<byte>>): (fs: seq<Field>)
    ensures |fs| == |ss| && forall i :: 0 <= i < |ss| ==> fs[i] == FString(ss[i])
  {
    if ss == [] then [] else [FString(ss[0])] + Strings(ss[1..])
  }

  lemma FirstString(b: Buf, s: seq<byte>, more: seq<byte>)
    requires |s| <= MAX_STRING_LEN && Ahead(b, Encode(FString(s)) + more)
    ensures b.GetString().result == Ok(s)
    ensures b.EatString() == Outcome(b.GetString().buf, Ok(())) && Ahead(b.GetString().buf, more)
  {
    AheadSplit(b, Encode(FString(s)), more);
    StringReads(b, s);
    EatAgreesWithGet(b);
  }

  lemma StringsCons(ss: seq<seq<byte>>)
    requires ss != []
    ensures EncodeAll(Strings(ss)) == Encode(FString(ss[0])) + EncodeAll(Strings(ss[1..]))
  {
    assert Strings(ss)[1..] == Strings(ss[1..]);
  }

  /** Skipping k strings and then reading gives the (k+1)-th. */
  lemma {:induction false} SkipThenRead(b: Buf, ss: seq<seq<byte>>, k: nat)
    requires k < |ss| && (forall i :: 0 <= i < |ss| ==> |ss[i]| <= MAX_STRING_LEN)
    requires Ahead(b, EncodeAll(Strings(ss)))
    ensures EatMany(b, k).result.Ok? && EatMany(b, k).buf.GetString().result == Ok(ss[k])
    decreases k
  {
    hide Encode, Buf.GetString, Buf.EatString;
    StringsCons(ss);
    FirstString(b, ss[0], EncodeAll(Strings(ss[1..])));
    if k > 0 {
      SkipThenRead(b.EatString().buf, ss[1..], k - 1);
    }
  }

  // ---- failures ----

  /** `put_string` is not all-or-nothing: it fails half-way, with the prefix written and the cursor
      4 bytes on, exactly when the prefix fits and the text does not. */
  lemma PutStringFailure(b: Buf, s: seq<byte>)
    requires b.PutString(s).result.Err?
    ensures b.PutString(s).buf != b <==> |s| <= MAX_STRING_LEN && b.pos + 4 <= |b.data| < b.pos + 4 + |s|
    ensures b.PutString(s).buf != b ==> b.PutString(s).buf == b.Put(EncodeBE(|s|, 4))
  {
    if |s| <= MAX_STRING_LEN && b.pos + 4 <= |b.data| {
      assert b.PutU32(|s|) == Outcome(b.Put(EncodeBE(|s|, 4)), Ok(()));
      assert b.Put(EncodeBE(|s|, 4)).pos == b.pos + 4;
    }
  }

  /** `get_string` fails half-way, with the cursor 4 bytes on, exactly when the prefix was there. */
  lemma GetStringFailure(b: Buf)
    requires b.Valid() && b.GetString().result.Err?
    ensures b.GetString().buf == if b.pos + 4 <= b.len then b.At(b.pos + 4) else b
  {}

  // ---- the zero-copy write ----

  /** Filling the block of `get_write_ptr(n)` and then `incr_write_pos(n)` is `put_bytes`. The two paths
      part exactly where the end lies beyond the maximum buffer size: only `put_bytes` goes there. */
  lemma WritePtrThenAdvanceIsPut(b: Buf, bytes: seq<byte>)
    requires b.Valid()
    ensures b.GetWritePtr(|bytes|).Ok? ==>
      var filled := b.Poke(b.pos, bytes);
      var o := filled.IncrWritePos(|bytes|);
      && b.PutBytes(bytes).result.Ok?
      && (o.result.Ok? <==> b.pos + |bytes| <= BUF_MAX_SIZE)
      && (o.result.Ok? ==> o.buf == b.PutBytes(bytes).buf)
    ensures b.PutBytes(bytes).result.Ok? && |bytes| <= BUF_MAX_INCR ==> b.GetWritePtr(|bytes|).Ok?
  {
    if b.GetWritePtr(|bytes|).Ok? && b.pos + |bytes| <= BUF_MAX_SIZE {
      var filled := b.Poke(b.pos, bytes);
      assert Resize(filled.data, |filled.data|) == filled.data;
    }
  }
}
