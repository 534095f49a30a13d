/** The type-directed byte codec of `cn.darkjrong.hbase.HbaseUtils`:
    `toBytes(Serializable)`, `toBytes(Object)` (dispatch on the runtime class)
    `getValue(Class, byte[], int, int)` (dispatch on the declared class) and
    `objectParse`, the row parser built on it. */
module HbaseUtils {
  import opened JavaLang
  import Utf8
  import B = HBaseBytes
  import opened Collaborators
  import opened Entities
  import opened Mapping
  import opened CellParsing

  /** `toBytes(Serializable)`: a Number goes to hutool's numberToBytes; anything
      else is cast to String and encoded with the platform charset (UTF-8
      here); a null String gives a null array; any other class fails the cast. */
  function ToBytesSerializable(v: Value, conv: Conversions): (r: Result<Option<Bytes>>)
    ensures IsNumber(v) ==> r == Ok(Some(conv.numberToBytes(v)))
    ensures v.Str? ==> r.Ok? && r.value.Some? && Utf8.Decode(r.value.value) == v.s
    ensures v == Null ==> r == Ok(None)
    ensures r.Err? <==> v != Null && !v.Str? && !IsNumber(v)
    ensures r.Err? ==> r.error == ClassCast
  {
    if IsNumber(v) then Ok(Some(conv.numberToBytes(v)))
    else match v
      case Str(s) => Utf8.DecodeEncode(s); Ok(Some(Utf8.Encode(s)))
      case Null => Ok(None)
      case _ => Err(ClassCast)
  }

  /** `toBytes(Object)`: dispatch on `value.getClass()`. */
  function ToBytes(v: Value, conv: Conversions): (r: Result<Bytes>)
    ensures v == Null <==> r.Err?
    ensures r.Err? ==> r.error == NullPointer
    ensures v.Str? ==> r.Ok? && Utf8.Decode(r.value) == v.s
    ensures v.Int? ==> r.Ok? && |r.value| == 4 && B.DecodeSigned(r.value) == v.i
    ensures v.Long? ==> r.Ok? && |r.value| == 8 && B.DecodeSigned(r.value) == v.l
    ensures v.Short? ==> r.Ok? && |r.value| == 2 && B.DecodeSigned(r.value) == v.sh
    ensures v.Bool? ==> r.Ok? && |r.value| == 1 && (r.value[0] != 0 <==> v.b)
    ensures v.Double? ==> r.Ok? && |r.value| == 8 && B.DecodeSigned(r.value) == v.doubleBits
    ensures v.Float? ==> r.Ok? && |r.value| == 4 && B.DecodeSigned(r.value) == v.floatBits
    ensures v.Decimal? ==> r == Ok(conv.decimalToBytes(v))
    ensures v.Obj? ==> r == Ok(conv.toPrimitiveByteArray(v))
  {
    B.Widths();
    match v
    case Null => Err(NullPointer)
    case Str(_) => Ok(ToBytesSerializable(v, conv).value.value)
    case Int(i) => B.SignedRoundTrip(i, 4); Ok(B.IntToBytes(i))
    case Long(l) => B.SignedRoundTrip(l, 8); Ok(B.LongToBytes(l))
    case Double(bits) => B.SignedRoundTrip(bits, 8); Ok(B.LongToBytes(bits))
    case Float(bits) => B.SignedRoundTrip(bits, 4); Ok(B.IntToBytes(bits))
    case Decimal(_, _) => Ok(conv.decimalToBytes(v))
    case Bool(b) => Ok(B.BooleanToBytes(b))
    case Short(sh) => B.SignedRoundTrip(sh, 2); Ok(B.ShortToBytes(sh))
    case Obj(_, _) => Ok(conv.toPrimitiveByteArray(v))
  }

  /** The declared classes whose branch reads a fixed number of bytes from
      index 0 of the array. */
  predicate IsFixedWidth(t: JClass) {
    t.IntPrim? || t.IntegerClass? || t.LongClass? || t.LongPrim? || t.DoublePrim? || t.DoubleClass?
    || t.FloatPrim? || t.FloatClass? || t.BoolPrim? || t.BooleanClass? || t.ShortClass? || t.ShortPrim?
  }

  /** `getValue(Class, byte[], int, int)`: dispatch on the declared class. The
      String, BigDecimal and fallback branches decode data[offset..offset+length);
      the int, long, double, float, boolean and short branches call the HBase
      readers without offset, which read from index 0 of the whole array. */
  function GetValue(t: JClass, data: Bytes, offset: int, length: int, conv: Conversions): (r: Result<Value>)
    ensures (t.IntPrim? || t.IntegerClass?) ==> (r.Ok? <==> |data| >= 4)
    ensures (t.LongPrim? || t.LongClass?) ==> (r.Ok? <==> |data| >= 8)
    ensures (t.ShortPrim? || t.ShortClass?) ==> (r.Ok? <==> |data| >= 2)
    ensures (t.BoolPrim? || t.BooleanClass?) ==> (r.Ok? <==> |data| == 1)
    ensures (t.BoolPrim? || t.BooleanClass?) && r.Ok? ==> r.value == Bool(data[0] != 0)
    ensures !IsFixedWidth(t) && !t.BigDecimalClass? && r.Ok? ==> r.value.Str?
    ensures !IsFixedWidth(t) && !t.BigDecimalClass? && length != 0 ==> (r.Ok? <==> B.InBounds(data, offset, length))
  {
    if t.StringClass? then StringValue(B.ToStringRange(data, offset, length))
    else if t.IntPrim? || t.IntegerClass? then
      (match B.ToInt(data) case Ok(i) => Ok(Int(i)) case Err(e) => Err(e))
    else if t.LongClass? || t.LongPrim? then
      (match B.ToLong(data) case Ok(l) => Ok(Long(l)) case Err(e) => Err(e))
    else if t.DoublePrim? || t.DoubleClass? then
      (match B.ToLong(data) case Ok(l) => Ok(Double(l)) case Err(e) => Err(e))
    else if t.FloatPrim? || t.FloatClass? then
      (match B.ToInt(data) case Ok(i) => Ok(Float(i)) case Err(e) => Err(e))
    else if t.BigDecimalClass? then DecimalRange(conv, data, offset, length)
    else if t.BooleanClass? || t.BoolPrim? then
      (match B.ToBoolean(data) case Ok(b) => Ok(Bool(b)) case Err(e) => Err(e))
    else if t.ShortClass? || t.ShortPrim? then
      (match B.ToShort(data) case Ok(s) => Ok(Short(s)) case Err(e) => Err(e))
    else StringValue(B.ToStringRange(data, offset, length))
  }

  /** The fixed-width branches ignore offset and length altogether. */
  lemma FixedWidthIgnoresRange(t: JClass, data: Bytes, o1: int, l1: int, o2: int, l2: int, conv: Conversions)
    requires IsFixedWidth(t)
    ensures GetValue(t, data, o1, l1, conv) == GetValue(t, data, o2, l2, conv)
  {
  }

  /** An int is read from data[0..4) whatever lies after it or where the cell's
      own value starts. */
  lemma IntReadsFromIndexZero(data: Bytes, offset: int, length: int, conv: Conversions)
    requires |data| >= 4
    ensures GetValue(IntegerClass, data, offset, length, conv) == Ok(Int(B.DecodeSigned(data[..4])))
    ensures GetValue(IntegerClass, data, offset, length, conv) == GetValue(IntegerClass, data[..4], 0, 4, conv)
  {
    assert data[..4][..4] == data[..4];
  }

  /** The String, BigDecimal and fallback branches read exactly
      data[offset..offset+length). */
  lemma RangedBranchesReadOnlyTheRange(t: JClass, data: Bytes, offset: int, length: int, conv: Conversions)
    requires !IsFixedWidth(t)
    requires B.InBounds(data, offset, length)
    ensures GetValue(t, data, offset, length, conv) == GetValue(t, data[offset..offset + length], 0, length, conv)
  {
    var slice := data[offset..offset + length];
    assert slice[0..length] == slice;
  }

  /** Cell values stored at a non-zero offset of a shared array: the four
      bytes encoding 2 sit at offset 4, but the int branch answers 1, the
      value in the first four bytes. */
  lemma IntAtOffsetReadsWrongBytes(conv: Conversions)
    ensures GetValue(IntegerClass, [0, 0, 0, 1, 0, 0, 0, 2], 4, 4, conv) == Ok(Int(1))
    ensures GetValue(StringClass, [0x78, 0x41, 0x42], 1, 2, conv) == Ok(Str("AB"))
  {
    var data: Bytes := [0, 0, 0, 1, 0, 0, 0, 2];
    var word: Bytes := [0, 0, 0, 1];
    assert data[..4] == word;
    assert B.FromBigEndian([0]) == 0;
    assert B.FromBigEndian([0, 0]) == 0 by { assert [0, 0][..1] == [0]; }
    assert B.FromBigEndian([0, 0, 0]) == 0 by { assert [0, 0, 0][..2] == [0, 0]; }
    assert B.FromBigEndian(word) == 1 by { assert word[..3] == [0, 0, 0]; }
    assert B.DecodeSigned(word) == 1;
    var s: Bytes := [0x78, 0x41, 0x42];
    assert s[1..3] == [0x41, 0x42];
    assert Utf8.Decode([0x42]) == "B";
    assert Utf8.Decode([0x41, 0x42]) == "AB" by {
      assert [0x41, 0x42][1..] == [0x42];
    }
  }

  /** Encoding a value with `toBytes` and decoding the standalone array with
      `getValue` for the value's class gives the value back, for every class
      the codec handles itself. */
  lemma RoundTrip(v: Value, conv: Conversions)
    requires v.Str? || v.Int? || v.Long? || v.Short? || v.Bool? || v.Double? || v.Float?
    ensures ToBytes(v, conv).Ok?
    ensures GetValue(ClassOf(v), ToBytes(v, conv).value, 0, |ToBytes(v, conv).value|, conv) == Ok(v)
  {
    var b := ToBytes(v, conv).value;
    B.Widths();
    match v {
      case Str(s) =>
        assert b[0..|b|] == b;
        Utf8.DecodeEncode(s);
      case Int(i) =>
        assert b[..4] == b;
        B.IntRoundTrip(i);
      case Long(l) =>
        assert b[..8] == b;
        B.LongRoundTrip(l);
      case Short(sh) =>
        assert b[..2] == b;
        B.ShortRoundTrip(sh);
      case Bool(x) =>
      case Double(bits) =>
        assert b[..8] == b;
        B.LongRoundTrip(bits);
      case Float(bits) =>
        assert b[..4] == b;
        B.IntRoundTrip(bits);
    }
  }

  /** This copy's `getValue`, as the row parsers use it. */
  function CellDecoder(conv: Conversions): Decoder {
    (t, data, offset, length) => GetValue(t, data, offset, length, conv)
  }

  /** `objectParse(clazz, result, statement)`: a null statement fails the
      assertion; a row without cells gives null; otherwise a fresh object
      filled cell by cell. */
  method ObjectParse(cls: ClassDecl, cells: seq<Cell>, statement: Option<Statement>, conv: Conversions)
    returns (r: Result<Option<Instance>>)
    ensures statement.None? ==> r == Err(NOT_MAPPED)
    ensures statement.Some? && cells == [] ==> r == Ok(None)
    ensures statement.Some? && cells != [] ==>
              (r.Ok? <==> ParseRow(cls, cells, statement.value.properties, CellDecoder(conv), conv.convert).Ok?)
    ensures r.Err? && statement.Some? ==> r.error == ParseRow(cls, cells, statement.value.properties, CellDecoder(conv), conv.convert).error
    ensures r.Ok? && r.value.Some? ==>
              fresh(r.value.value) && r.value.value.cls == cls && r.value.value.Valid()
              && r.value.value.values == ParseRow(cls, cells, statement.value.properties, CellDecoder(conv), conv.convert).value
  {
    if statement.None? {
      return Err(NOT_MAPPED);
    }
    if cells == [] {
      return Ok(None);
    }
    var inst := NewInstanceFromRow(cls, cells, statement.value.properties, CellDecoder(conv), conv.convert);
    if inst.Err? {
      return Err(inst.error);
    }
    return Ok(Some(inst.value));
  }
}
