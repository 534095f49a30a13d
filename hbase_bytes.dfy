/** The parts of HBase's `org.apache.hadoop.hbase.util.Bytes` the codec calls:
    big-endian two's-complement fixed-width integers, the one-byte boolean and
    UTF-8 strings. The readers without offset (`toInt(byte[])` and friends)
    read the first w bytes and throw IllegalArgumentException when the array
    is shorter than w. */
module HBaseBytes {
  import opened JavaLang
  import Utf8

  const SIZEOF_SHORT: nat := 2
  const SIZEOF_INT: nat := 4
  const SIZEOF_LONG: nat := 8

  function Pow256(w: nat): (r: nat)
    ensures r >= 1
  {
    if w == 0 then 1 else 256 * Pow256(w - 1)
  }

  /** The w-byte big-endian representation of an unsigned number. */
  function ToBigEndian(u: nat, w: nat): (r: Bytes)
    requires u < Pow256(w)
    ensures |r| == w
  {
    if w == 0 then []
    else
      assert u / 256 < Pow256(w - 1);
      ToBigEndian(u / 256, w - 1) + [u % 256]
  }

  /** The unsigned number a big-endian byte sequence stands for. */
  function FromBigEndian(s: Bytes): (r: nat)
    ensures r < Pow256(|s|)
  {
    if s == [] then 0
    else
      var hi := FromBigEndian(s[..|s| - 1]);
      assert hi * 256 + 255 < Pow256(|s|) by {
        assert hi + 1 <= Pow256(|s| - 1);
        assert (hi + 1) * 256 <= Pow256(|s| - 1) * 256;
      }
      hi * 256 + s[|s| - 1]
  }

  lemma {:induction false} FromToBigEndian(u: nat, w: nat)
    requires u < Pow256(w)
    ensures FromBigEndian(ToBigEndian(u, w)) == u
  {
    if w > 0 {
      var r := ToBigEndian(u, w);
      assert r[..w - 1] == ToBigEndian(u / 256, w - 1);
      FromToBigEndian(u / 256, w - 1);
    }
  }

  lemma {:induction false} ToFromBigEndian(s: Bytes)
    ensures ToBigEndian(FromBigEndian(s), |s|) == s
  {
    if s != [] {
      var n := |s|;
      var hi := FromBigEndian(s[..n - 1]);
      var u := FromBigEndian(s);
      assert u / 256 == hi && u % 256 == s[n - 1];
      ToFromBigEndian(s[..n - 1]);
      assert s == s[..n - 1] + [s[n - 1]];
    }
  }

  predicate InSignedRange(v: int, w: nat) {
    w > 0 && -(Pow256(w) / 2) <= v < Pow256(w) / 2
  }

  /** `Bytes.toBytes(short|int|long)`: the w-byte two's complement of v. */
  function EncodeSigned(v: int, w: nat): (r: Bytes)
    requires InSignedRange(v, w)
    ensures |r| == w
  {
    ToBigEndian(if v < 0 then v + Pow256(w) else v, w)
  }

  /** The signed number a w-byte two's-complement sequence stands for. */
  function DecodeSigned(s: Bytes): (v: int)
    ensures |s| > 0 ==> InSignedRange(v, |s|)
  {
    var u := FromBigEndian(s);
    if |s| == 0 then u
    else
      var p := Pow256(|s|);
      PowEven(|s|);
      if u >= p / 2 then u - p else u
  }

  lemma PowEven(w: nat)
    requires w > 0
    ensures Pow256(w) % 2 == 0
  {
    var q := Pow256(w - 1);
    assert Pow256(w) == 2 * (128 * q);
  }

  /** Decoding the encoding of a number gives the number back. */
  lemma SignedRoundTrip(v: int, w: nat)
    requires InSignedRange(v, w)
    ensures DecodeSigned(EncodeSigned(v, w)) == v
  {
    var u := if v < 0 then v + Pow256(w) else v;
    FromToBigEndian(u, w);
    PowEven(w);
  }

  /** Encoding a decoded sequence gives the sequence back. */
  lemma SignedRoundTripBytes(s: Bytes)
    requires |s| > 0
    ensures EncodeSigned(DecodeSigned(s), |s|) == s
  {
    ToFromBigEndian(s);
  }

  lemma Widths()
    ensures Pow256(SIZEOF_SHORT) == 0x1_0000
    ensures Pow256(SIZEOF_INT) == 0x1_0000_0000
    ensures Pow256(SIZEOF_LONG) == 0x1_0000_0000_0000_0000
  {
  }

  function ShortToBytes(v: Int16): (r: Bytes)
    ensures |r| == SIZEOF_SHORT
  {
    Widths();
    EncodeSigned(v, SIZEOF_SHORT)
  }

  function IntToBytes(v: Int32): (r: Bytes)
    ensures |r| == SIZEOF_INT
  {
    Widths();
    EncodeSigned(v, SIZEOF_INT)
  }

  function LongToBytes(v: Int64): (r: Bytes)
    ensures |r| == SIZEOF_LONG
  {
    Widths();
    EncodeSigned(v, SIZEOF_LONG)
  }

  /** `Bytes.toBytes(boolean)`: one byte, -1 (0xFF) for true, 0 for false. */
  function BooleanToBytes(b: bool): (r: Bytes)
    ensures |r| == 1
  {
    [if b then 0xFF else 0]
  }

  /** `Bytes.toBytes(String)`. */
  function StringToBytes(s: string): Bytes {
    Utf8.Encode(s)
  }

  /** `Bytes.toShort(byte[])`: reads data[0..2). */
  function ToShort(data: Bytes): (r: Result<Int16>)
    ensures r.Ok? <==> |data| >= SIZEOF_SHORT
  {
    if |data| < SIZEOF_SHORT then Err(IllegalArgument("wrong length or offset"))
    else
      Widths();
      Ok(DecodeSigned(data[..SIZEOF_SHORT]))
  }

  /** `Bytes.toInt(byte[])`: reads data[0..4). */
  function ToInt(data: Bytes): (r: Result<Int32>)
    ensures r.Ok? <==> |data| >= SIZEOF_INT
  {
    if |data| < SIZEOF_INT then Err(IllegalArgument("wrong length or offset"))
    else
      Widths();
      Ok(DecodeSigned(data[..SIZEOF_INT]))
  }

  /** `Bytes.toLong(byte[])`: reads data[0..8). */
  function ToLong(data: Bytes): (r: Result<Int64>)
    ensures r.Ok? <==> |data| >= SIZEOF_LONG
  {
    if |data| < SIZEOF_LONG then Err(IllegalArgument("wrong length or offset"))
    else
      Widths();
      Ok(DecodeSigned(data[..SIZEOF_LONG]))
  }

  /** `Bytes.toBoolean(byte[])`: exactly one byte, true when it is non-zero. */
  function ToBoolean(data: Bytes): (r: Result<bool>)
    ensures r.Ok? <==> |data| == 1
    ensures r.Ok? ==> (r.value <==> data[0] != 0)
  {
    if |data| != 1 then Err(IllegalArgument("wrong size")) else Ok(data[0] != 0)
  }

  /** Whether [offset, offset + length) lies inside data. */
  predicate InBounds(data: Bytes, offset: int, length: int) {
    0 <= offset && 0 <= length && offset + length <= |data|
  }

  /** `Bytes.toString(byte[], int, int)`: "" for a zero length; otherwise the
      UTF-8 decoding of data[offset..offset+length), or
      StringIndexOutOfBoundsException when that range is not inside data. */
  function ToStringRange(data: Bytes, offset: int, length: int): (r: Result<string>)
    ensures length != 0 ==> (r.Ok? <==> InBounds(data, offset, length))
    ensures length != 0 && InBounds(data, offset, length) ==> r.value == Utf8.Decode(data[offset..offset + length])
  {
    if length == 0 then Ok("")
    else if !InBounds(data, offset, length) then Err(IndexOutOfBounds)
    else Ok(Utf8.Decode(data[offset..offset + length]))
  }

  /** `Bytes.toString(byte[])`: the whole array. */
  function ToStringAll(data: Bytes): (r: string)
    ensures r == Utf8.Decode(data)
  {
    if |data| == 0 then "" else assert data[0..|data|] == data; Utf8.Decode(data[0..|data|])
  }

  lemma ShortRoundTrip(v: Int16)
    ensures ToShort(ShortToBytes(v)) == Ok(v)
  {
    Widths();
    SignedRoundTrip(v, SIZEOF_SHORT);
    assert ShortToBytes(v)[..SIZEOF_SHORT] == ShortToBytes(v);
  }

  lemma IntRoundTrip(v: Int32)
    ensures ToInt(IntToBytes(v)) == Ok(v)
  {
    Widths();
    SignedRoundTrip(v, SIZEOF_INT);
    assert IntToBytes(v)[..SIZEOF_INT] == IntToBytes(v);
  }

  lemma LongRoundTrip(v: Int64)
    ensures ToLong(LongToBytes(v)) == Ok(v)
  {
    Widths();
    SignedRoundTrip(v, SIZEOF_LONG);
    assert LongToBytes(v)[..SIZEOF_LONG] == LongToBytes(v);
  }

  lemma BooleanRoundTrip(b: bool)
    ensures ToBoolean(BooleanToBytes(b)) == Ok(b)
  {
  }

  lemma StringRoundTrip(s: string)
    ensures ToStringAll(StringToBytes(s)) == s
  {
    Utf8.DecodeEncode(s);
  }
}
