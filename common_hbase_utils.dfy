/** The decoder of `cn.darkjrong.hbase.common.utils.HbaseUtils`: the two
    `getValue` overloads. Unlike the root copy it has no Long branch, so a
    long-typed property falls through to the string fallback. */
module CommonHbaseUtils {
  import opened JavaLang
  import Utf8
  import B = HBaseBytes
  import opened Collaborators
  import Root = HbaseUtils
  import CellParsing
  import Entities
  import Mapping

  /** The declared classes whose branch reads a fixed number of bytes from
      index 0 of the array (no long among them). */
  predicate IsFixedWidth(t: JClass) {
    t.IntPrim? || t.IntegerClass? || t.DoublePrim? || t.DoubleClass? || t.FloatPrim? || t.FloatClass?
    || t.BoolPrim? || t.BooleanClass? || t.ShortClass? || t.ShortPrim?
  }

  /** `getValue(Class, byte[])`: decodes the whole array by declared class. */
  function GetValueAll(t: JClass, data: Bytes, conv: Conversions): (r: Result<Value>)
    ensures (t.IntPrim? || t.IntegerClass?) ==> (r.Ok? <==> |data| >= 4)
    ensures (t.ShortPrim? || t.ShortClass?) ==> (r.Ok? <==> |data| >= 2)
    ensures (t.BoolPrim? || t.BooleanClass?) ==> (r.Ok? <==> |data| == 1)
    ensures !IsFixedWidth(t) && !t.BigDecimalClass? ==> r == Ok(Str(Utf8.Decode(data)))
  {
    if t.StringClass? then Ok(Str(B.ToStringAll(data)))
    else if t.IntPrim? || t.IntegerClass? then
      (match B.ToInt(data) case Ok(i) => Ok(Int(i)) case Err(e) => Err(e))
    else if t.DoublePrim? || t.DoubleClass? then
      (match B.ToLong(data) case Ok(l) => Ok(Double(l)) case Err(e) => Err(e))
    else if t.FloatPrim? || t.FloatClass? then
      (match B.ToInt(data) case Ok(i) => Ok(Float(i)) case Err(e) => Err(e))
    else if t.BigDecimalClass? then DecimalRange(conv, data, 0, |data|)
    else if t.BooleanClass? || t.BoolPrim? then
      (match B.ToBoolean(data) case Ok(b) => Ok(Bool(b)) case Err(e) => Err(e))
    else if t.ShortClass? || t.ShortPrim? then
      (match B.ToShort(data) case Ok(s) => Ok(Short(s)) case Err(e) => Err(e))
    else Ok(Str(B.ToStringAll(data)))
  }

  /** `getValue(Class, byte[], int, int)`: the String, BigDecimal and fallback
      branches decode data[offset..offset+length); the others read from
      index 0 of the whole array. */
  function GetValue(t: JClass, data: Bytes, offset: int, length: int, conv: Conversions): (r: Result<Value>)
    ensures (t.IntPrim? || t.IntegerClass?) ==> (r.Ok? <==> |data| >= 4)
    ensures (t.ShortPrim? || t.ShortClass?) ==> (r.Ok? <==> |data| >= 2)
    ensures (t.BoolPrim? || t.BooleanClass?) ==> (r.Ok? <==> |data| == 1)
    ensures !IsFixedWidth(t) && !t.BigDecimalClass? && r.Ok? ==> r.value.Str?
    ensures !IsFixedWidth(t) && !t.BigDecimalClass? && length != 0 ==> (r.Ok? <==> B.InBounds(data, offset, length))
  {
    if t.StringClass? then StringValue(B.ToStringRange(data, offset, length))
    else if t.IntPrim? || t.IntegerClass? then
      (match B.ToInt(data) case Ok(i) => Ok(Int(i)) case Err(e) => Err(e))
    else if t.DoublePrim? || t.DoubleClass? then
      (match B.ToLong(data) case Ok(l) => Ok(Double(l)) case Err(e) => Err(e))
    else if t.FloatPrim? || t.FloatClass? then
      (match B.ToInt(data) case Ok(i) => Ok(Float(i)) case Err(e) => Err(e))
    else if t.BigDecimalClass? then DecimalRange(conv, data, offset, length)
    else if t.BooleanClass? || t.BoolPrim? then
      (match B.ToBoolean(data) case Ok(b) => Ok(Bool(b)) case Err(e) => Err(e))
    else if t.ShortClass? || t.ShortPrim? then
      (match B.ToShort(data) case Ok(s) => Ok(Short(s)) case Err(e) => Err(e))
    else StringValue(B.ToStringRange(data, offset, length))
  }

  /** A long is decoded as text: the eight bytes of any long come back as a
      String, never as a Long, and the range variant does the same. */
  lemma LongDecodedAsString(v: Int64, conv: Conversions)
    ensures GetValueAll(LongClass, B.LongToBytes(v), conv) == Ok(Str(Utf8.Decode(B.LongToBytes(v))))
    ensures GetValueAll(LongPrim, B.LongToBytes(v), conv).value.Str?
    ensures GetValue(LongClass, B.LongToBytes(v), 0, 8, conv) == Ok(Str(Utf8.Decode(B.LongToBytes(v))))
    ensures Root.GetValue(LongClass, B.LongToBytes(v), 0, 8, conv) == Ok(Long(v))
  {
    var b := B.LongToBytes(v);
    B.Widths();
    assert b[0..8] == b;
    RootReadsLong(v, conv);
  }

  lemma RootReadsLong(v: Int64, conv: Conversions)
    ensures Root.GetValue(LongClass, B.LongToBytes(v), 0, 8, conv) == Ok(Long(v))
  {
    var b := B.LongToBytes(v);
    B.LongRoundTrip(v);
    assert b[..8] == b;
  }

  /** The fixed-width branches ignore offset and length altogether. */
  lemma FixedWidthIgnoresRange(t: JClass, data: Bytes, o1: int, l1: int, o2: int, l2: int, conv: Conversions)
    requires IsFixedWidth(t)
    ensures GetValue(t, data, o1, l1, conv) == GetValue(t, data, o2, l2, conv)
    ensures GetValue(t, data, o1, l1, conv) == GetValueAll(t, data, conv)
  {
  }

  /** The String, BigDecimal and fallback branches read exactly
      data[offset..offset+length). */
  lemma RangedBranchesReadOnlyTheRange(t: JClass, data: Bytes, offset: int, length: int, conv: Conversions)
    requires !IsFixedWidth(t)
    requires B.InBounds(data, offset, length)
    ensures GetValue(t, data, offset, length, conv) == GetValue(t, data[offset..offset + length], 0, length, conv)
  {
    var slice := data[offset..offset + length];
    if t.LongClass? || t.LongPrim? {
      assert slice[0..length] == slice;
    } else {
      AgreesWithRootExceptLong(t, data, offset, length, conv);
      AgreesWithRootExceptLong(t, slice, 0, length, conv);
      Root.RangedBranchesReadOnlyTheRange(t, data, offset, length, conv);
    }
  }

  /** Over the whole array the two overloads agree, for every declared class. */
  lemma OverloadsAgree(t: JClass, data: Bytes, conv: Conversions)
    ensures GetValue(t, data, 0, |data|, conv) == GetValueAll(t, data, conv)
  {
    assert data[0..|data|] == data;
  }

  /** This copy and the root copy decode alike for every class except Long. */
  lemma AgreesWithRootExceptLong(t: JClass, data: Bytes, offset: int, length: int, conv: Conversions)
    requires !t.LongClass? && !t.LongPrim?
    ensures GetValue(t, data, offset, length, conv) == Root.GetValue(t, data, offset, length, conv)
  {
  }

  /** A Long field filled from a cell holding the eight bytes of a long: the
      root codec stores the long itself, while this copy decodes the bytes as
      text and the field gets what hutool's conversion makes of that text —
      a long if it answers one, and a type-mismatch failure if it answers
      null. */
  lemma LongFieldThroughBothCodecs(fields: seq<FieldDecl>, values: map<string, Value>, c: CellParsing.Cell,
                                   props: map<string, Mapping.Property>, conv: Conversions, v: Int64)
    requires CellParsing.QualifierText(c) in props && props[CellParsing.QualifierText(c)].propType == LongClass
    requires CellParsing.QualifierText(c) in Entities.FieldNames(fields)
    requires Entities.FieldType(fields, CellParsing.QualifierText(c)) == LongClass
    requires c.valueArray == B.LongToBytes(v) && c.valueOffset == 0 && c.valueLength == 8
    ensures CellParsing.ApplyCells(fields, values, [c], props, Root.CellDecoder(conv), conv.convert)
         == Ok(values[CellParsing.QualifierText(c) := Long(v)])
    ensures conv.convert(LongClass, Str(Utf8.Decode(B.LongToBytes(v)))) == Null ==>
              CellParsing.ApplyCells(fields, values, [c], props, CellDecoder(conv), conv.convert)
              == Err(Entities.FIELD_TYPE_MISMATCH)
    ensures conv.convert(LongClass, Str(Utf8.Decode(B.LongToBytes(v)))).Long? ==>
              CellParsing.ApplyCells(fields, values, [c], props, CellDecoder(conv), conv.convert)
              == Ok(values[CellParsing.QualifierText(c) := conv.convert(LongClass, Str(Utf8.Decode(B.LongToBytes(v))))])
  {
    LongDecodedAsString(v, conv);
    assert [c][1..] == [];
  }

  /** This copy's `getValue`, as the row parsers use it. */
  function CellDecoder(conv: Conversions): CellParsing.Decoder {
    (t, data, offset, length) => GetValue(t, data, offset, length, conv)
  }
}
