/** An entity object as the reflection calls see it: the class it was made
    from and one value per field name. `ReflectUtil.newInstance`,
    `getFieldValue` and `setFieldValue` become the constructor, `FieldValue`
    and `SetFieldValue`. */
module Entities {
  import opened JavaLang

  /** The field names a class lists. */
  function FieldNames(fields: seq<FieldDecl>): (names: set<string>)
    ensures forall f :: f in fields ==> f.name in names
    ensures forall n :: n in names ==> FindField(fields, n).Some?
  {
    set f | f in fields :: f.name
  }

  /** The values a freshly constructed object holds: the Java default of each
      field's declared type (zero or false for primitives, null otherwise). */
  function Defaults(fields: seq<FieldDecl>): (m: map<string, Value>)
    ensures m.Keys == FieldNames(fields)
    ensures forall n :: n in m ==> m[n] == DefaultValue(FindField(fields, n).value.fieldType)
  {
    map n | n in FieldNames(fields) :: DefaultValue(FindField(fields, n).value.fieldType)
  }

  /** The IllegalArgumentException reflection raises for a field the class
      does not declare. */
  const NO_SUCH_FIELD := IllegalArgument("field not declared")

  /** `t.isInstance(v)` for a non-null value: its own class, Object, Number
      for the numbers, the supertypes of String for a String, and
      Serializable and Comparable for the strings, boxed primitives and
      decimals (all of which implement both). A primitive type holds no
      object. */
  predicate IsInstance(t: JClass, v: Value)
    requires v != Null
  {
    ClassOf(v) == t || t.ObjectClass?
    || (t.NumberClass? && IsNumber(v))
    || (v.Str? && AssignableFromString(t))
    || (!v.Obj? && (t.SerializableClass? || t.ComparableClass?))
  }

  /** The wrapper class of a primitive type; any other type is its own. */
  function Boxed(t: JClass): (b: JClass)
    ensures !b.IsPrimitive()
  {
    match t
    case IntPrim => IntegerClass
    case LongPrim => LongClass
    case ShortPrim => ShortClass
    case BoolPrim => BooleanClass
    case DoublePrim => DoubleClass
    case FloatPrim => FloatClass
    case _ => if t.IsPrimitive() then ObjectClass else t
  }

  /** What `Field.set` stores in a field of type t without throwing: null in
      a reference field, an instance of the field's type, or the wrapper of a
      primitive type, which is unboxed. */
  predicate FieldAccepts(t: JClass, v: Value) {
    if v == Null then !t.IsPrimitive()
    else if t.IsPrimitive() then ClassOf(v) == Boxed(t)
    else IsInstance(t, v)
  }

  /** hutool `Convert.convert(type, value)`: the value converted to the type,
      or null when it cannot be converted. */
  type Converter = (JClass, Value) -> Value

  /** The IllegalArgumentException `Field.set` throws for a value the field
      cannot hold. */
  const FIELD_TYPE_MISMATCH := IllegalArgument("value does not fit the field type")

  /** The value `ReflectUtil.setFieldValue` stores in a field of type t, or the
      exception it ends in: null becomes the type's default; a value the type
      is not assignable from is converted, and kept as it was when the
      conversion answers null; `Field.set` then refuses what does not fit. */
  function Assigned(t: JClass, v: Value, convert: Converter): (r: Result<Value>)
    ensures v == Null ==> r == Ok(DefaultValue(t))
    ensures v != Null && IsInstance(t, v) ==> r == Ok(v)
    ensures r.Ok? ==> FieldAccepts(t, r.value)
    ensures r.Ok? && v != Null ==> r.value == v || r.value == convert(t, v)
    ensures r.Err? <==> v != Null && !IsInstance(t, v)
                        && !FieldAccepts(t, if convert(t, v) == Null then v else convert(t, v))
    ensures r.Err? ==> r.error == FIELD_TYPE_MISMATCH
  {
    if v == Null then Ok(DefaultValue(t))
    else if IsInstance(t, v) then Ok(v)
    else
      var w := if convert(t, v) == Null then v else convert(t, v);
      if FieldAccepts(t, w) then Ok(w) else Err(FIELD_TYPE_MISMATCH)
  }

  /** The declared type of a field the class lists. */
  function FieldType(fields: seq<FieldDecl>, n: string): JClass
    requires n in FieldNames(fields)
  {
    FindField(fields, n).value.fieldType
  }

  /** Every declared field of an object holds a value its type accepts. */
  predicate WellTyped(fields: seq<FieldDecl>, values: map<string, Value>) {
    forall n :: n in values && FindField(fields, n).Some? ==> FieldAccepts(FindField(fields, n).value.fieldType, values[n])
  }

  /** A new object is well typed: a primitive's default is its boxed zero
      and a reference field's is null. */
  lemma DefaultsWellTyped(fields: seq<FieldDecl>)
    ensures WellTyped(fields, Defaults(fields))
  {
    forall n | n in Defaults(fields) && FindField(fields, n).Some?
      ensures FieldAccepts(FindField(fields, n).value.fieldType, Defaults(fields)[n])
    {
      var t := FindField(fields, n).value.fieldType;
      assert Defaults(fields)[n] == DefaultValue(t);
    }
  }

  class Instance {
    const cls: ClassDecl
    var values: map<string, Value>

    /** Every field of the class has exactly one slot. */
    ghost predicate Valid()
      reads this
    {
      values.Keys == FieldNames(cls.fields)
    }

    /** `ReflectUtil.newInstance(clazz)` with the implicit no-argument
        constructor: every field holds its default. */
    constructor (c: ClassDecl)
      ensures cls == c && values == Defaults(c.fields)
      ensures Valid()
    {
      cls := c;
      values := Defaults(c.fields);
    }

    /** `ReflectUtil.getFieldValue(obj, field)`: the value of a field of this
        object's class; a field the class does not have is rejected. */
    function FieldValue(f: FieldDecl): (r: Result<Value>)
      reads this
      requires Valid()
      ensures r.Ok? <==> f.name in FieldNames(cls.fields)
      ensures r.Ok? ==> r.value == values[f.name]
    {
      if f.name in values then Ok(values[f.name]) else Err(NO_SUCH_FIELD)
    }

    /** The field lookup of `ReflectUtil.setFieldValue` followed by a plain
        store: writes the field with that name, or throws
        IllegalArgumentException when the class has none. Nothing else
        changes. */
    method SetField(name: string, v: Value) returns (o: Outcome)
      requires Valid()
      modifies this
      ensures Valid()
      ensures o.Pass? <==> name in FieldNames(cls.fields)
      ensures o.Fail? ==> o.error == NO_SUCH_FIELD && values == old(values)
      ensures o.Pass? ==> values == old(values)[name := v]
    {
      if name in values {
        values := values[name := v];
        o := Pass;
      } else {
        o := Fail(NO_SUCH_FIELD);
      }
    }

    /** `ReflectUtil.setFieldValue(obj, name, value)`: the field lookup, then
        the value the field's type receives (`Assigned`), then the store. A
        failure leaves the object as it was. */
    method SetFieldValue(name: string, v: Value, convert: Converter) returns (o: Outcome)
      requires Valid()
      modifies this
      ensures Valid()
      ensures name !in FieldNames(cls.fields) ==> o == Fail(NO_SUCH_FIELD)
      ensures name in FieldNames(cls.fields) ==>
                var a := Assigned(FieldType(cls.fields, name), v, convert);
                (o.Pass? <==> a.Ok?)
                && (a.Ok? ==> values == old(values)[name := a.value])
                && (a.Err? ==> o.error == a.error)
      ensures o.Fail? ==> values == old(values)
      ensures WellTyped(cls.fields, old(values)) ==> WellTyped(cls.fields, values)
    {
      if name !in values {
        return Fail(NO_SUCH_FIELD);
      }
      var a := Assigned(FieldType(cls.fields, name), v, convert);
      if a.Err? {
        return Fail(a.error);
      }
      o := SetField(name, a.value);
    }
  }
}
