/** Library conversions whose code is not part of this model (hutool's
    `ByteUtil.numberToBytes`, `Convert.toPrimitiveByteArray`, `Convert.toStr`,
    and HBase's BigDecimal layout). They are passed in as functions so that
    every property proved here holds whatever they compute. */
module Collaborators {
  import opened JavaLang

  datatype Conversions = Conversions(
    /** hutool `ByteUtil.numberToBytes(Number)`. */
    numberToBytes: Value -> Bytes,
    /** hutool `Convert.toPrimitiveByteArray(Object)`. */
    toPrimitiveByteArray: Value -> Bytes,
    /** HBase `Bytes.toBytes(BigDecimal)`. */
    decimalToBytes: Value -> Bytes,
    /** HBase `Bytes.toBigDecimal(bytes, offset, length)` applied to the range
        it reads; it may answer null. */
    decimalFromBytes: Bytes -> Value,
    /** hutool `Convert.toStr(Object)` for a non-null value that is not a String. */
    toStr: Value -> string,
    /** hutool `Convert.convert(type, value)`: the value converted to the
        type, or null when it cannot be converted. */
    convert: (JClass, Value) -> Value)

  /** hutool `Convert.toStr`: null stays null, a String is returned as is. */
  function ToStr(conv: Conversions, v: Value): (r: Option<string>)
    ensures r.None? <==> v == Null
    ensures v.Str? ==> r == Some(v.s)
  {
    match v
    case Null => None
    case Str(s) => Some(s)
    case _ => Some(conv.toStr(v))
  }

  /** HBase `Bytes.toBigDecimal(data, offset, length)`: null when the range is
      shorter than the 4-byte scale plus one byte or runs past the end of the
      array; a negative offset indexes outside the array; otherwise the
      decimal the collaborator reads from exactly that range. */
  function DecimalRange(conv: Conversions, data: Bytes, offset: int, length: int): (r: Result<Value>)
    ensures r.Ok? && r.value != Null ==> 0 <= offset && offset + length <= |data|
    ensures length < 5 ==> r == Ok(Null)
  {
    if length < 5 || offset + length > |data| then Ok(Null)
    else if offset < 0 then Err(IndexOutOfBounds)
    else Ok(conv.decimalFromBytes(data[offset..offset + length]))
  }

  /** A decoded string as a Java value, or the error the decoder raised. */
  function StringValue(r: Result<string>): (v: Result<Value>)
    ensures v.Ok? <==> r.Ok?
    ensures v.Ok? ==> v.value == Str(r.value)
  {
    match r
    case Ok(s) => Ok(Str(s))
    case Err(e) => Err(e)
  }
}
