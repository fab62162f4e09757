/**
  The primitive wire codec of the named-pipe protocol between the HUD host and the
  game-side client.  Every fixed-width integer is the raw memory image of the value,
  which on the x86 target is little-endian; the compressed forms and the string form
  are built on top of those.  Decoders take the bytes still to be read and return the
  value together with the bytes left over.
*/
module Wire {
  import opened Wrappers

  type uint8 = x: int | 0 <= x < 0x100
  type int8 = x: int | -0x80 <= x < 0x80
  type int16 = x: int | -0x8000 <= x < 0x8000
  type uint32 = x: int | 0 <= x < 0x1_0000_0000
  type int32 = x: int | -0x8000_0000 <= x < 0x8000_0000
  type uint64 = x: int | 0 <= x < 0x1_0000_0000_0000_0000
  type Bytes = seq<uint8>

  /** A `float` travels as its four raw bytes; the model does no arithmetic on it. */
  type Single = s: Bytes | |s| == 4 witness [0, 0, 0, 0]

  const UINT32_LIMIT: int := 0x1_0000_0000

  /** The result of a decoder: the value and the bytes after it. */
  type Decoded<T> = Option<(T, Bytes)>

  // ---------------------------------------------------------------------------
  // Little-endian unsigned integers of n bytes

  function Pow256(n: nat): (r: nat)
    ensures r > 0
  {
    if n == 0 then 1 else 256 * Pow256(n - 1)
  }

  lemma Pow256Values()
    ensures Pow256(1) == 0x100 && Pow256(2) == 0x1_0000
    ensures Pow256(4) == 0x1_0000_0000 && Pow256(8) == 0x1_0000_0000_0000_0000
  {
  }

  function EncodeLE(v: nat, n: nat): (r: Bytes)
    requires v < Pow256(n)
    ensures |r| == n
  {
    if n == 0 then [] else [v % 256] + EncodeLE(v / 256, n - 1)
  }

  function DecodeLE(bs: Bytes): (r: nat)
    ensures r < Pow256(|bs|)
  {
    if bs == [] then 0 else bs[0] + 256 * DecodeLE(bs[1..])
  }

  /** Reading back the memory image of a value gives the value. */
  lemma {:induction false} DecodeEncodeLE(v: nat, n: nat)
    requires v < Pow256(n)
    ensures DecodeLE(EncodeLE(v, n)) == v
  {
    if n > 0 {
      var e := EncodeLE(v, n);
      assert e[1..] == EncodeLE(v / 256, n - 1);
      DecodeEncodeLE(v / 256, n - 1);
    }
  }

  /** Every image of n bytes is the image of the value it decodes to. */
  lemma {:induction false} EncodeDecodeLE(bs: Bytes)
    ensures EncodeLE(DecodeLE(bs), |bs|) == bs
  {
    if bs != [] {
      var d := DecodeLE(bs);
      assert d % 256 == bs[0] && d / 256 == DecodeLE(bs[1..]);
      EncodeDecodeLE(bs[1..]);
    }
  }

  // ---------------------------------------------------------------------------
  // Raw byte runs

  /** `n` raw bytes, as `ReadBytes` delivers them into a buffer. */
  function DecodeRaw(bs: Bytes, n: nat): (r: Decoded<Bytes>)
    ensures r.Some? <==> n <= |bs|
    ensures r.Some? ==> |r.value.0| == n && bs == r.value.0 + r.value.1
  {
    if n <= |bs| then Some((bs[..n], bs[n..])) else None
  }

  lemma DecodeRawPrefix(x: Bytes, rest: Bytes)
    ensures DecodeRaw(x + rest, |x|) == Some((x, rest))
  {
    assert (x + rest)[..|x|] == x;
    assert (x + rest)[|x|..] == rest;
  }

  // ---------------------------------------------------------------------------
  // Fixed-width values

  function EncodeBoolean(b: bool): Bytes { [if b then 1 else 0] }

  function DecodeBoolean(bs: Bytes): (r: Decoded<bool>)
    ensures r.Some? ==> |r.value.1| < |bs|
  {
    if |bs| < 1 then None else Some((bs[0] != 0, bs[1..]))
  }

  function EncodeByte(v: uint8): Bytes { [v] }

  function DecodeByte(bs: Bytes): (r: Decoded<uint8>)
    ensures r.Some? ==> |r.value.1| < |bs|
  {
    if |bs| < 1 then None else Some((bs[0], bs[1..]))
  }

  function EncodeSByte(v: int8): Bytes { [if v < 0 then v + 0x100 else v] }

  function DecodeSByte(bs: Bytes): (r: Decoded<int8>)
    ensures r.Some? ==> |r.value.1| < |bs|
  {
    if |bs| < 1 then None
    else
      var b: int := bs[0];
      var s: int8 := if b < 0x80 then b else b - 0x100;
      Some((s, bs[1..]))
  }

  function EncodeInt16(v: int16): Bytes
  {
    Pow256Values();
    EncodeLE(if v < 0 then v + 0x1_0000 else v, 2)
  }

  function DecodeInt16(bs: Bytes): (r: Decoded<int16>)
    ensures r.Some? ==> |r.value.1| < |bs|
  {
    if |bs| < 2 then None
    else
      Pow256Values();
      var u := DecodeLE(bs[..2]);
      Some((if u < 0x8000 then u else u - 0x1_0000, bs[2..]))
  }

  function EncodeUInt32(v: uint32): Bytes
  {
    Pow256Values();
    EncodeLE(v, 4)
  }

  function DecodeUInt32(bs: Bytes): (r: Decoded<uint32>)
    ensures r.Some? ==> |r.value.1| < |bs|
  {
    if |bs| < 4 then None
    else
      Pow256Values();
      Some((DecodeLE(bs[..4]), bs[4..]))
  }

  function EncodeInt32(v: int32): Bytes
  {
    Pow256Values();
    EncodeLE(if v < 0 then v + 0x1_0000_0000 else v, 4)
  }

  function DecodeInt32(bs: Bytes): (r: Decoded<int32>)
    ensures r.Some? ==> |r.value.1| < |bs|
  {
    if |bs| < 4 then None
    else
      Pow256Values();
      var u := DecodeLE(bs[..4]);
      Some((if u < 0x8000_0000 then u else u - 0x1_0000_0000, bs[4..]))
  }

  function EncodeUInt64(v: uint64): Bytes
  {
    Pow256Values();
    EncodeLE(v, 8)
  }

  function DecodeUInt64(bs: Bytes): (r: Decoded<uint64>)
    ensures r.Some? ==> |r.value.1| < |bs|
  {
    if |bs| < 8 then None
    else
      Pow256Values();
      Some((DecodeLE(bs[..8]), bs[8..]))
  }

  function EncodeSingle(f: Single): Bytes { f }

  function DecodeSingle(bs: Bytes): (r: Decoded<Single>)
    ensures r.Some? ==> |r.value.1| < |bs|
  {
    if |bs| < 4 then None else Some((bs[..4], bs[4..]))
  }

  /** `Vector_s` and `QAngle_s`: three opaque floats each. */
  datatype Vector = Vector(x: Single, y: Single, z: Single)
  datatype QAngle = QAngle(pitch: Single, yaw: Single, roll: Single)

  function EncodeVector(v: Vector): Bytes { v.x + v.y + v.z }
  function EncodeQAngle(a: QAngle): Bytes { a.pitch + a.yaw + a.roll }

  function DecodeVector(bs: Bytes): (r: Decoded<Vector>)
    ensures r.Some? ==> |r.value.1| < |bs|
  {
    var x :- DecodeSingle(bs);
    var y :- DecodeSingle(x.1);
    var z :- DecodeSingle(y.1);
    Some((Vector(x.0, y.0, z.0), z.1))
  }

  function DecodeQAngle(bs: Bytes): (r: Decoded<QAngle>)
    ensures r.Some? ==> |r.value.1| < |bs|
  {
    var pitch :- DecodeSingle(bs);
    var yaw :- DecodeSingle(pitch.1);
    var roll :- DecodeSingle(yaw.1);
    Some((QAngle(pitch.0, yaw.0, roll.0), roll.1))
  }

  lemma VectorRoundTrip(v: Vector, rest: Bytes)
    ensures DecodeVector(EncodeVector(v) + rest) == Some((v, rest))
  {
    assert EncodeVector(v) + rest == v.x + (v.y + (v.z + rest));
    SingleRoundTrip(v.x, v.y + (v.z + rest));
    SingleRoundTrip(v.y, v.z + rest);
    SingleRoundTrip(v.z, rest);
  }

  lemma QAngleRoundTrip(a: QAngle, rest: Bytes)
    ensures DecodeQAngle(EncodeQAngle(a) + rest) == Some((a, rest))
  {
    assert EncodeQAngle(a) + rest == a.pitch + (a.yaw + (a.roll + rest));
    SingleRoundTrip(a.pitch, a.yaw + (a.roll + rest));
    SingleRoundTrip(a.yaw, a.roll + rest);
    SingleRoundTrip(a.roll, rest);
  }

  /** A HANDLE travels as the 32-bit value `HandleToULong` gives. */
  function EncodeHandle(h: uint32): Bytes { EncodeUInt32(h) }

  // ---------------------------------------------------------------------------
  // Round trips of the fixed-width values

  lemma {:induction false} FixedWidthRoundTrip(v: nat, n: nat, rest: Bytes)
    requires v < Pow256(n)
    ensures |EncodeLE(v, n) + rest| >= n
    ensures DecodeLE((EncodeLE(v, n) + rest)[..n]) == v
    ensures (EncodeLE(v, n) + rest)[n..] == rest
  {
    var e := EncodeLE(v, n);
    assert (e + rest)[..n] == e;
    DecodeEncodeLE(v, n);
  }

  lemma BooleanRoundTrip(b: bool, rest: Bytes)
    ensures DecodeBoolean(EncodeBoolean(b) + rest) == Some((b, rest))
  {
    assert (EncodeBoolean(b) + rest)[1..] == rest;
  }

  lemma ByteRoundTrip(v: uint8, rest: Bytes)
    ensures DecodeByte(EncodeByte(v) + rest) == Some((v, rest))
  {
    assert (EncodeByte(v) + rest)[1..] == rest;
  }

  lemma SByteRoundTrip(v: int8, rest: Bytes)
    ensures DecodeSByte(EncodeSByte(v) + rest) == Some((v, rest))
  {
    assert (EncodeSByte(v) + rest)[1..] == rest;
  }

  lemma Int16RoundTrip(v: int16, rest: Bytes)
    ensures DecodeInt16(EncodeInt16(v) + rest) == Some((v, rest))
  {
    Pow256Values();
    FixedWidthRoundTrip(if v < 0 then v + 0x1_0000 else v, 2, rest);
  }

  lemma UInt32RoundTrip(v: uint32, rest: Bytes)
    ensures DecodeUInt32(EncodeUInt32(v) + rest) == Some((v, rest))
  {
    Pow256Values();
    FixedWidthRoundTrip(v, 4, rest);
  }

  lemma Int32RoundTrip(v: int32, rest: Bytes)
    ensures DecodeInt32(EncodeInt32(v) + rest) == Some((v, rest))
  {
    Pow256Values();
    FixedWidthRoundTrip(if v < 0 then v + 0x1_0000_0000 else v, 4, rest);
  }

  lemma UInt64RoundTrip(v: uint64, rest: Bytes)
    ensures DecodeUInt64(EncodeUInt64(v) + rest) == Some((v, rest))
  {
    Pow256Values();
    FixedWidthRoundTrip(v, 8, rest);
  }

  lemma SingleRoundTrip(f: Single, rest: Bytes)
    ensures DecodeSingle(EncodeSingle(f) + rest) == Some((f, rest))
  {
    DecodeRawPrefix(f, rest);
  }

  /** The Int32 image is a bijection: any four bytes are the image of what they decode to. */
  lemma {:induction false} Int32Canonical(bs: Bytes)
    requires |bs| >= 4
    ensures DecodeInt32(bs).Some?
    ensures EncodeInt32(DecodeInt32(bs).value.0) == bs[..4]
  {
    Pow256Values();
    EncodeDecodeLE(bs[..4]);
  }

  // ---------------------------------------------------------------------------
  // Compressed UInt32: one byte for 0..254, otherwise the marker 255 and four bytes

  function EncodeCompressedUInt32(v: uint32): (r: Bytes)
  {
    if v <= 255 - 1 then EncodeByte(v) else EncodeByte(255) + EncodeUInt32(v)
  }

  /** The size rule of the compressed form. */
  lemma CompressedUInt32Shape(v: uint32)
    ensures |EncodeCompressedUInt32(v)| == (if v <= 254 then 1 else 5)
    ensures EncodeCompressedUInt32(v)[0] == 255 <==> 254 < v
  {
  }

  function DecodeCompressedUInt32(bs: Bytes): (r: Decoded<uint32>)
    ensures r.Some? ==> |r.value.1| < |bs|
  {
    match DecodeByte(bs)
    case None => None
    case Some((b, rest)) =>
      if b < 255 then Some((b, rest)) else DecodeUInt32(rest)
  }

  lemma CompressedUInt32RoundTrip(v: uint32, rest: Bytes)
    ensures DecodeCompressedUInt32(EncodeCompressedUInt32(v) + rest) == Some((v, rest))
  {
    if v <= 254 {
      ByteRoundTrip(v, rest);
    } else {
      assert EncodeCompressedUInt32(v) + rest == EncodeByte(255) + (EncodeUInt32(v) + rest);
      ByteRoundTrip(255, EncodeUInt32(v) + rest);
      UInt32RoundTrip(v, rest);
    }
  }

  // ---------------------------------------------------------------------------
  // Compressed Int32: one signed byte for -128..126, otherwise the marker 127 and four bytes

  function EncodeCompressedInt32(v: int32): (r: Bytes)
  {
    if -128 <= v <= 127 - 1 then EncodeSByte(v) else EncodeSByte(127) + EncodeInt32(v)
  }

  /** The reader as intended: any leading signed byte below 127 is the value itself. */
  function DecodeCompressedInt32(bs: Bytes): (r: Decoded<int32>)
    ensures r.Some? ==> |r.value.1| < |bs|
  {
    match DecodeSByte(bs)
    case None => None
    case Some((s, rest)) =>
      if s < 127 then Some((s, rest)) else DecodeInt32(rest)
  }

  /**
    The reader as written: in the short branch the decoded value itself is returned
    as the success flag, so a leading byte 0 reports failure although it was read.
  */
  function DecodeCompressedInt32AsWritten(bs: Bytes): (r: Decoded<int32>)
  {
    match DecodeSByte(bs)
    case None => None
    case Some((s, rest)) =>
      if s < 127 then (if s != 0 then Some((s, rest)) else None) else DecodeInt32(rest)
  }

  lemma CompressedInt32RoundTrip(v: int32, rest: Bytes)
    ensures DecodeCompressedInt32(EncodeCompressedInt32(v) + rest) == Some((v, rest))
  {
    if -128 <= v <= 126 {
      SByteRoundTrip(v, rest);
    } else {
      assert EncodeCompressedInt32(v) + rest == EncodeSByte(127) + (EncodeInt32(v) + rest);
      SByteRoundTrip(127, EncodeInt32(v) + rest);
      Int32RoundTrip(v, rest);
    }
  }

  /** The reader as written agrees with the intended one except on a short-form zero. */
  lemma CompressedInt32AsWrittenDiffers(bs: Bytes)
    ensures DecodeCompressedInt32AsWritten(bs) != DecodeCompressedInt32(bs)
        <==> |bs| >= 1 && bs[0] == 0
  {
  }

  /** The value 0, written correctly, is reported as a failed read. */
  lemma CompressedInt32AsWrittenRejectsZero(rest: Bytes)
    ensures DecodeCompressedInt32AsWritten(EncodeCompressedInt32(0) + rest) == None
    ensures DecodeCompressedInt32(EncodeCompressedInt32(0) + rest) == Some((0, rest))
  {
    CompressedInt32RoundTrip(0, rest);
  }

  /**
    The status `WriteCompressedInt32` returns, as written: the short branch performs
    the write and then falls off the end of the function, so the caller receives an
    indeterminate value.  `firstOk` and `secondOk` are the results of the writes it makes.
  */
  function CompressedInt32WriteStatusAsWritten(v: int32, firstOk: bool, secondOk: bool, indeterminate: bool): bool
  {
    if -128 <= v <= 127 - 1 then indeterminate else firstOk && secondOk
  }

  /** The status as intended: true exactly when every write it made succeeded. */
  function CompressedInt32WriteStatus(v: int32, firstOk: bool, secondOk: bool): (ok: bool)
    ensures ok <==> firstOk && (v < -128 || 126 < v ==> secondOk)
  {
    if -128 <= v <= 127 - 1 then firstOk else firstOk && secondOk
  }

  /** A successful one-byte write can be reported as a failure. */
  lemma CompressedInt32WriteStatusAsWrittenMisreports()
    ensures CompressedInt32WriteStatus(0, true, true)
    ensures !CompressedInt32WriteStatusAsWritten(0, true, true, false)
  {
  }

  // ---------------------------------------------------------------------------
  // UTF-8 strings: the compressed length, then exactly that many raw bytes.
  // The length is cast to UINT32, so a string of 2^32 bytes or more is cut.

  function EncodeString(s: Bytes): (r: Bytes)
  {
    var n := |s| % UINT32_LIMIT;
    EncodeCompressedUInt32(n) + s[..n]
  }

  function DecodeString(bs: Bytes): (r: Decoded<Bytes>)
    ensures r.Some? ==> |r.value.1| < |bs|
  {
    match DecodeCompressedUInt32(bs)
    case None => None
    case Some((n, rest)) => DecodeRaw(rest, n)
  }

  lemma StringRoundTrip(s: Bytes, rest: Bytes)
    requires |s| < UINT32_LIMIT
    ensures DecodeString(EncodeString(s) + rest) == Some((s, rest))
  {
    var n := |s| % UINT32_LIMIT;
    assert n == |s|;
    assert s[..n] == s;
    assert EncodeString(s) == EncodeCompressedUInt32(n) + s;
    AppendAssociative(EncodeCompressedUInt32(n), s, rest);
    CompressedUInt32RoundTrip(n, s + rest);
    assert DecodeCompressedUInt32(EncodeString(s) + rest) == Some((n, s + rest));
    DecodeRawPrefix(s, rest);
  }

  /** A string of 2^32 bytes or more loses everything past its length modulo 2^32. */
  lemma StringTruncated(s: Bytes, rest: Bytes)
    requires UINT32_LIMIT <= |s|
    ensures DecodeString(EncodeString(s) + rest) == Some((s[..|s| % UINT32_LIMIT], rest))
  {
    var n := |s| % UINT32_LIMIT;
    assert EncodeString(s) + rest == EncodeCompressedUInt32(n) + (s[..n] + rest);
    CompressedUInt32RoundTrip(n, s[..n] + rest);
    DecodeRawPrefix(s[..n], rest);
  }

  lemma AppendAssociative(a: Bytes, b: Bytes, c: Bytes)
    ensures a + b + c == a + (b + c)
  {
  }

  // ---------------------------------------------------------------------------
  // Sequences of encoded items, as written by the loops of the protocol

  function Concat<T>(xs: seq<T>, enc: T -> Bytes): Bytes
  {
    if xs == [] then [] else enc(xs[0]) + Concat(xs[1..], enc)
  }

  lemma {:induction false} ConcatAppend<T>(xs: seq<T>, x: T, enc: T -> Bytes)
    ensures Concat(xs + [x], enc) == Concat(xs, enc) + enc(x)
  {
    if xs != [] {
      assert (xs + [x])[1..] == xs[1..] + [x];
      ConcatAppend(xs[1..], x, enc);
    }
  }

  lemma {:induction false} ConcatSplit<T>(xs: seq<T>, ys: seq<T>, enc: T -> Bytes)
    ensures Concat(xs + ys, enc) == Concat(xs, enc) + Concat(ys, enc)
  {
    if xs == [] {
      assert xs + ys == ys;
    } else {
      assert (xs + ys)[1..] == xs[1..] + ys;
      ConcatSplit(xs[1..], ys, enc);
    }
  }

  function EncodeStrings(names: seq<Bytes>): Bytes
  {
    Concat(names, EncodeString)
  }

  /** `n` strings in a row. */
  function DecodeStrings(bs: Bytes, n: nat): (r: Decoded<seq<Bytes>>)
    ensures r.Some? ==> |r.value.0| == n && |r.value.1| <= |bs|
  {
    if n == 0 then Some(([], bs))
    else
      match DecodeString(bs)
      case None => None
      case Some((s, rest)) =>
        match DecodeStrings(rest, n - 1)
        case None => None
        case Some((ss, rest')) => Some(([s] + ss, rest'))
  }

  lemma {:induction false} StringsRoundTrip(names: seq<Bytes>, rest: Bytes)
    requires forall i :: 0 <= i < |names| ==> |names[i]| < UINT32_LIMIT
    ensures DecodeStrings(EncodeStrings(names) + rest, |names|) == Some((names, rest))
  {
    if names != [] {
      var tail := EncodeStrings(names[1..]) + rest;
      assert EncodeStrings(names) + rest == EncodeString(names[0]) + tail;
      StringRoundTrip(names[0], tail);
      assert DecodeString(EncodeStrings(names) + rest) == Some((names[0], tail));
      StringsRoundTrip(names[1..], rest);
      assert DecodeStrings(tail, |names| - 1) == Some((names[1..], rest));
      assert [names[0]] + names[1..] == names;
    } else {
      assert EncodeStrings(names) + rest == rest;
    }
  }

  /** A list of strings: its length, then every string. */
  function EncodeStringList(names: seq<Bytes>): Bytes
  {
    EncodeCompressedUInt32(|names| % UINT32_LIMIT) + EncodeStrings(names)
  }

  function DecodeStringList(bs: Bytes): (r: Decoded<seq<Bytes>>)
    ensures r.Some? ==> |r.value.1| < |bs|
  {
    var count :- DecodeCompressedUInt32(bs);
    DecodeStrings(count.1, count.0)
  }

  lemma StringListRoundTrip(names: seq<Bytes>, rest: Bytes)
    requires |names| < UINT32_LIMIT
    requires forall i :: 0 <= i < |names| ==> |names[i]| < UINT32_LIMIT
    ensures DecodeStringList(EncodeStringList(names) + rest) == Some((names, rest))
  {
    assert |names| % UINT32_LIMIT == |names|;
    AppendAssociative(EncodeCompressedUInt32(|names|), EncodeStrings(names), rest);
    CompressedUInt32RoundTrip(|names|, EncodeStrings(names) + rest);
    StringsRoundTrip(names, rest);
  }

  // ---------------------------------------------------------------------------
  // What a read leaves behind

  /** `after` is what is left of `before` once some bytes were taken from its front. */
  ghost predicate Consumed(before: Bytes, after: Bytes)
  {
    |after| <= |before| && after == before[|before| - |after|..]
  }

  /** Two tails of one stream: the shorter is what is left of the longer. */
  lemma TailsOfOneStream(stream: Bytes, a: Bytes, b: Bytes)
    requires Consumed(stream, a) && Consumed(stream, b) && |b| <= |a|
    ensures Consumed(a, b)
  {
    var k := |stream| - |a|;
    assert a[|a| - |b|..] == stream[k + |a| - |b|..];
  }

  /**
    A read that broke off: `after` is what is left of `before`, short of the end
    of the value `d` that `before` holds, when it holds one in full.
  */
  ghost predicate BrokeOff<T>(before: Bytes, after: Bytes, d: Decoded<T>)
  {
    Consumed(before, after) && (d.Some? ==> |after| > |d.value.1|)
  }

  function Zeros(n: nat): (r: Bytes)
    ensures |r| == n && forall i :: 0 <= i < n ==> r[i] == 0
  {
    seq(n, _ => 0)
  }

  /**
    What a string read that broke off after its length leaves in its target:
    `std::string::resize` to the announced length fills it with zeros, and the
    bytes that arrived before the break (those between the length and `after`)
    are already in place.
  */
  ghost predicate PartialString(before: Bytes, after: Bytes, value: Bytes)
  {
    match DecodeCompressedUInt32(before)
    case None => false
    case Some((n, rest)) =>
      && Consumed(rest, after)
      && |rest| - |after| <= n
      && value == rest[..|rest| - |after|] + Zeros(n - (|rest| - |after|))
  }

  /**
    What a string read that failed leaves in its target: nothing when its
    length did not arrive, otherwise the `PartialString` of a string that did
    not arrive in full (an empty one can still fail, on its empty read).
  */
  ghost predicate BrokenString(before: Bytes, after: Bytes, value: Bytes)
  {
    && Consumed(before, after)
    && match DecodeCompressedUInt32(before)
       case None => value == []
       case Some((n, rest)) =>
         if |after| > |rest| then value == []
         else PartialString(before, after, value) && (n == 0 || |rest| - |after| < n)
  }

  /** A failed string read stops short of the end of the string, or at its end when it is empty. */
  lemma BrokenStringStopsShort(before: Bytes, after: Bytes, value: Bytes)
    requires BrokenString(before, after, value) && DecodeString(before).Some?
    ensures |after| >= |DecodeString(before).value.1|
  {
  }
}
