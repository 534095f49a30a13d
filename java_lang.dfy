/** The Java runtime vocabulary the mapping engine works with: nullable values,
    the classes a field can be declared with, reflected field and class
    descriptions, the exceptions the core throws, and the string predicates it
    borrows from hutool (StrUtil) and Spring (StringUtils, ClassUtils). */
module JavaLang {

  datatype Option<+T> = None | Some(value: T)

  /** The exceptions the core raises, as tags; message texts are left out. */
  datatype Error =
    | NullPointer
    | IllegalArgument(reason: string)
    | IndexOutOfBounds
    | ClassCast

  datatype Result<+T> = Ok(value: T) | Err(error: Error)

  /** A void Java call: it either returns or throws. */
  datatype Outcome = Pass | Fail(error: Error)

  /** Java bytes, written unsigned (the bit pattern of the signed byte). */
  type Byte = b: int | 0 <= b < 256
  type Bytes = seq<Byte>

  type Int16 = x: int | -0x8000 <= x < 0x8000
  type Int32 = x: int | -0x8000_0000 <= x < 0x8000_0000
  type Int64 = x: int | -0x8000_0000_0000_0000 <= x < 0x8000_0000_0000_0000

  /** The classes a field or a value can have. `OtherClass` is any class not
      named here; `isNumber` says whether it extends java.lang.Number. */
  datatype JClass =
    | StringClass | ObjectClass | CharSequenceClass | SerializableClass | ComparableClass
    | NumberClass
    | IntPrim | IntegerClass | LongPrim | LongClass | ShortPrim | ShortClass
    | BoolPrim | BooleanClass | DoublePrim | DoubleClass | FloatPrim | FloatClass
    | BigDecimalClass
    | OtherClass(name: string, isNumber: bool)
  {
    predicate IsPrimitive() {
      IntPrim? || LongPrim? || ShortPrim? || BoolPrim? || DoublePrim? || FloatPrim?
    }
  }

  /** `Number.class.isAssignableFrom(t)`: the boxed numeric classes, Number
      itself and its other subclasses; never a primitive. */
  predicate NumberAssignableFrom(t: JClass) {
    t.IntegerClass? || t.LongClass? || t.ShortClass? || t.DoubleClass? || t.FloatClass?
    || t.BigDecimalClass? || t.NumberClass? || (t.OtherClass? && t.isNumber)
  }

  /** `t.isAssignableFrom(String.class)`: String and its supertypes. */
  predicate AssignableFromString(t: JClass) {
    t.StringClass? || t.ObjectClass? || t.CharSequenceClass? || t.SerializableClass? || t.ComparableClass?
  }

  /** `String.class.isAssignableFrom(t)`: String is final, so only String. */
  predicate StringAssignableFrom(t: JClass) {
    t.StringClass?
  }

  /** The run-time class of an object that is none of the values below:
      Object itself or a class not named here (never an interface, an
      abstract class or a class with its own case). */
  type ObjectClassOf = c: JClass | c.ObjectClass? || c.OtherClass? witness ObjectClass

  /** A Java value. Doubles and floats are carried as their raw IEEE-754 bit
      patterns; a BigDecimal as unscaled value and scale; any other object as
      its class and an identity token. */
  datatype Value =
    | Null
    | Str(s: string)
    | Int(i: Int32)
    | Long(l: Int64)
    | Short(sh: Int16)
    | Bool(b: bool)
    | Double(doubleBits: Int64)
    | Float(floatBits: Int32)
    | Decimal(unscaled: int, scale: Int32)
    | Obj(cls: ObjectClassOf, token: nat)

  /** `value.getClass()` for a non-null value (always the boxed class). */
  function ClassOf(v: Value): (c: JClass)
    requires v != Null
    ensures !c.IsPrimitive()
  {
    match v
    case Str(_) => StringClass
    case Int(_) => IntegerClass
    case Long(_) => LongClass
    case Short(_) => ShortClass
    case Bool(_) => BooleanClass
    case Double(_) => DoubleClass
    case Float(_) => FloatClass
    case Decimal(_, _) => BigDecimalClass
    case Obj(c, _) => c
  }

  /** `value instanceof Number`. */
  predicate IsNumber(v: Value) {
    v.Int? || v.Long? || v.Short? || v.Double? || v.Float? || v.Decimal?
    || (v.Obj? && NumberAssignableFrom(v.cls))
  }

  /** The value a freshly constructed object holds in a field of type t. */
  function DefaultValue(t: JClass): (v: Value)
    ensures t.IsPrimitive() <==> v != Null
  {
    match t
    case IntPrim => Int(0)
    case LongPrim => Long(0)
    case ShortPrim => Short(0)
    case BoolPrim => Bool(false)
    case DoublePrim => Double(0)
    case FloatPrim => Float(0)
    case _ => Null
  }

  /** A reflected field: its name, declared type and the two annotations the
      mapper reads (`@ColumnName(value)` and `@TableId`). */
  datatype FieldDecl = FieldDecl(name: string, fieldType: JClass, columnName: Option<string>, tableId: bool)

  /** A reflected class: its fully qualified name, the fields
      `ReflectUtil.getFields` lists (own fields first, then inherited ones), and
      whether it is an interface. */
  datatype ClassDecl = ClassDecl(name: string, fields: seq<FieldDecl>, isInterface: bool)

  /** `ReflectUtil.getField(cls, name)`: the first listed field with that name. */
  function FindField(fields: seq<FieldDecl>, name: string): (r: Option<FieldDecl>)
    ensures r.Some? ==> r.value in fields && r.value.name == name
    ensures r.None? ==> forall f :: f in fields ==> f.name != name
  {
    if fields == [] then None
    else if fields[0].name == name then Some(fields[0])
    else FindField(fields[1..], name)
  }

  /** `Character.isSpaceChar`: the Unicode space, line and paragraph separators. */
  predicate IsSpaceChar(c: char) {
    var x := c as int;
    x == 0x20 || x == 0xA0 || x == 0x1680 || (0x2000 <= x <= 0x200A) || x == 0x2028
    || x == 0x2029 || x == 0x202F || x == 0x205F || x == 0x3000
  }

  /** `Character.isWhitespace`: separators other than the no-break spaces, and
      the ASCII controls TAB, LF, VT, FF, CR and FS..US. */
  predicate IsWhitespace(c: char) {
    var x := c as int;
    (IsSpaceChar(c) && x != 0xA0 && x != 0x2007 && x != 0x202F)
    || (0x09 <= x <= 0x0D) || (0x1C <= x <= 0x1F)
  }

  /** hutool `CharUtil.isBlankChar`. */
  predicate IsBlankChar(c: char) {
    var x := c as int;
    IsWhitespace(c) || IsSpaceChar(c)
    || x == 0xFEFF || x == 0x202A || x == 0 || x == 0x3164 || x == 0x2800 || x == 0x180E
  }

  /** hutool `StrUtil.isBlank`: null, empty, or only blank characters. */
  predicate IsBlank(s: Option<string>) {
    match s
    case None => true
    case Some(t) => forall i :: 0 <= i < |t| ==> IsBlankChar(t[i])
  }

  /** Spring `StringUtils.hasText`: some character is not whitespace. */
  predicate HasText(s: string) {
    exists i :: 0 <= i < |s| && !IsWhitespace(s[i])
  }

  /** hutool `StrUtil.startWith(s, prefix)`; false for a null string. */
  predicate StartsWith(s: Option<string>, prefix: string) {
    s.Some? && |prefix| <= |s.value| && s.value[..|prefix|] == prefix
  }

  /** Index of the last `c` in s, or -1. */
  function LastIndexOf(s: string, c: char): (r: int)
    ensures -1 <= r < |s|
    ensures r >= 0 ==> s[r] == c && forall j :: r < j < |s| ==> s[j] != c
    ensures r == -1 ==> forall j :: 0 <= j < |s| ==> s[j] != c
  {
    if s == [] then -1
    else if s[|s| - 1] == c then |s| - 1
    else LastIndexOf(s[..|s| - 1], c)
  }

  /** Spring `ClassUtils.getPackageName`: everything before the last dot, or
      the empty string for a class in the default package. */
  function PackageName(className: string): (p: string)
    ensures |p| <= |className| && p == className[..|p|]
    ensures '.' !in className ==> p == ""
    ensures '.' in className ==> |p| < |className| && className[|p|] == '.' && '.' !in className[|p| + 1..]
  {
    var i := LastIndexOf(className, '.');
    if i < 0 then "" else className[..i]
  }
}
