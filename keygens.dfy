/** What the row-key generators share: the ids `IdUtil` hands out (random and
    time-based, so they are inputs here), the default key field name, and the
    reflective write `ReflectUtil.setFieldValue(obj, field, value)`. */
module KeyGeneration {
  import opened JavaLang
  import opened Entities

  /** The fresh ids one call may draw: `getSnowflakeNextId()`,
      `getSnowflakeNextIdStr()`, `fastSimpleUUID()` and `objectId()`. */
  datatype IdSource = IdSource(snowflakeId: Int64, snowflakeIdStr: string, simpleUuid: string, objectId: string)

  /** `HbaseConstant.ID`: the field the default path looks up. */
  const ID := "id"

  /** The field a generator writes: the explicit key field, else the class's
      field named `id` (None when the class has none). */
  function KeyField(cls: ClassDecl, field: Option<FieldDecl>): (f: Option<FieldDecl>)
    ensures field.Some? ==> f == field
    ensures field.None? ==> f == FindField(cls.fields, ID)
  {
    if field.Some? then field else FindField(cls.fields, ID)
  }

  /** Writing field f of an object: only a field the object's class declares
      can be set. */
  function Write(values: map<string, Value>, f: FieldDecl, v: Value): (r: Result<map<string, Value>>)
    ensures r.Ok? <==> f.name in values
    ensures r.Err? ==> r.error == NO_SUCH_FIELD
    ensures r.Ok? ==> r.value.Keys == values.Keys && r.value[f.name] == v
                      && forall n :: n in values && n != f.name ==> r.value[n] == values[n]
  {
    if f.name in values then Ok(values[f.name := v]) else Err(NO_SUCH_FIELD)
  }

  /** Only the key field may change; every other field keeps its value. */
  predicate OnlyKeyChanged(before: map<string, Value>, after: map<string, Value>, key: string) {
    after.Keys == before.Keys && forall n :: n in before && n != key ==> after[n] == before[n]
  }
}

/** `SnowflakeIdRowKeyGenerator` (ASSIGN_ID): a numeric key field gets the
    snowflake id, a key field String fits in gets its decimal text, any other
    key type is left alone. */
module SnowflakeIdRowKeyGenerator {
  import opened JavaLang
  import opened Entities
  import opened Mapping
  import opened KeyGeneration

  /** The id a field of type t receives, if any. */
  function IdFor(t: JClass, ids: IdSource): Option<Value> {
    if NumberAssignableFrom(t) then Some(Long(ids.snowflakeId))
    else if AssignableFromString(t) then Some(Str(ids.snowflakeIdStr))
    else None
  }

  /** The two-way type test followed by the write, as in both branches of the
      source. */
  function Assign(values: map<string, Value>, f: FieldDecl, ids: IdSource): Result<map<string, Value>> {
    match IdFor(f.fieldType, ids)
    case None => Ok(values)
    case Some(v) => Write(values, f, v)
  }

  /** `defaultGeneratorKey`: the field named `id` is filled only while it
      holds null. */
  function DefaultGenerated(cls: ClassDecl, values: map<string, Value>, ids: IdSource): (r: Result<map<string, Value>>)
    requires values.Keys == FieldNames(cls.fields)
    ensures FindField(cls.fields, ID).None? ==> r == Err(NullPointer)
    ensures FindField(cls.fields, ID).Some? && values[ID] != Null ==> r == Ok(values)
    ensures FindField(cls.fields, ID).Some? && values[ID] == Null ==>
              match IdFor(FindField(cls.fields, ID).value.fieldType, ids)
              case None => r == Ok(values)
              case Some(v) => r == Ok(values[ID := v])
  {
    match FindField(cls.fields, ID)
    case None => Err(NullPointer)
    case Some(f) => if values[f.name] != Null then Ok(values) else Assign(values, f, ids)
  }

  /** `postProcess(field, obj)` on an object of class cls holding values. */
  function PostProcessed(cls: ClassDecl, values: map<string, Value>, field: Option<FieldDecl>, ids: IdSource)
    : (r: Result<map<string, Value>>)
    requires values.Keys == FieldNames(cls.fields)
    ensures KeyField(cls, field).None? ==> r == Err(NullPointer)
    ensures r.Err? && KeyField(cls, field).Some? ==> r.error == NO_SUCH_FIELD && KeyField(cls, field).value.name !in values
    ensures r.Ok? ==> OnlyKeyChanged(values, r.value, KeyField(cls, field).value.name)
    ensures r.Ok? && r.value != values ==>
              var f := KeyField(cls, field).value;
              (NumberAssignableFrom(f.fieldType) && r.value[f.name] == Long(ids.snowflakeId))
              || (!NumberAssignableFrom(f.fieldType) && AssignableFromString(f.fieldType) && r.value[f.name] == Str(ids.snowflakeIdStr))
    ensures field.None? && KeyField(cls, field).Some? && values[ID] != Null ==> r == Ok(values)
    ensures field.None? && KeyField(cls, field).Some? && values[ID] == Null && IdFor(KeyField(cls, field).value.fieldType, ids).Some?
            ==> r == Ok(values[ID := IdFor(KeyField(cls, field).value.fieldType, ids).value])
    ensures KeyField(cls, field).Some? && IdFor(KeyField(cls, field).value.fieldType, ids).None? ==> r == Ok(values)
    ensures field.Some? && field.value.name in values && IdFor(field.value.fieldType, ids).Some?
            ==> r == Ok(values[field.value.name := IdFor(field.value.fieldType, ids).value])
  {
    if field.None? then DefaultGenerated(cls, values, ids) else Assign(values, field.value, ids)
  }

  /** A primitive key field (`long id`) is never generated: no explicit
      assignment matches its type, and on the default path its zero is not
      null. */
  lemma PrimitiveKeyNeverGenerated(cls: ClassDecl, field: Option<FieldDecl>, ids: IdSource)
    requires KeyField(cls, field).Some? && KeyField(cls, field).value.fieldType.IsPrimitive()
    ensures PostProcessed(cls, Defaults(cls.fields), field, ids) == Ok(Defaults(cls.fields))
  {
    assert IdFor(KeyField(cls, field).value.fieldType, ids).None?;
  }

  /** `getType`. */
  function GetType(): (t: IdType)
    ensures t == ASSIGN_ID
  {
    ASSIGN_ID
  }

  method DefaultGeneratorKey(entity: Instance, ids: IdSource) returns (o: Outcome)
    requires entity.Valid()
    modifies entity
    ensures entity.Valid()
    ensures o.Pass? <==> DefaultGenerated(entity.cls, old(entity.values), ids).Ok?
    ensures o.Pass? ==> entity.values == DefaultGenerated(entity.cls, old(entity.values), ids).value
    ensures o.Fail? ==> o.error == DefaultGenerated(entity.cls, old(entity.values), ids).error
                        && entity.values == old(entity.values)
  {
    var field := FindField(entity.cls.fields, ID);
    if field.None? {
      return Fail(NullPointer);
    }
    o := Pass;
    var f := field.value;
    if entity.values[f.name] == Null {
      if NumberAssignableFrom(f.fieldType) {
        o := entity.SetField(f.name, Long(ids.snowflakeId));
      } else if AssignableFromString(f.fieldType) {
        o := entity.SetField(f.name, Str(ids.snowflakeIdStr));
      }
    }
  }

  method PostProcess(field: Option<FieldDecl>, entity: Instance, ids: IdSource) returns (o: Outcome)
    requires entity.Valid()
    modifies entity
    ensures entity.Valid()
    ensures o.Pass? <==> PostProcessed(entity.cls, old(entity.values), field, ids).Ok?
    ensures o.Pass? ==> entity.values == PostProcessed(entity.cls, old(entity.values), field, ids).value
    ensures o.Fail? ==> o.error == PostProcessed(entity.cls, old(entity.values), field, ids).error
                        && entity.values == old(entity.values)
  {
    if field.None? {
      o := DefaultGeneratorKey(entity, ids);
      return;
    }
    o := Pass;
    var f := field.value;
    if NumberAssignableFrom(f.fieldType) {
      o := entity.SetField(f.name, Long(ids.snowflakeId));
    } else if AssignableFromString(f.fieldType) {
      o := entity.SetField(f.name, Str(ids.snowflakeIdStr));
    }
  }
}

/** `StringUUIDRowKeyGenerator` (ASSIGN_UUID): the key field must be a
    String and gets a simple UUID. */
module StringUUIDRowKeyGenerator {
  import opened JavaLang
  import opened Entities
  import opened Mapping
  import opened KeyGeneration

  /** The IllegalArgumentException for a key field that is not a String. */
  const NOT_STRING_KEY := IllegalArgument("UUID key field must be String")

  /** The type check, then the unconditional write. */
  function Assign(values: map<string, Value>, f: FieldDecl, ids: IdSource): Result<map<string, Value>> {
    if !StringAssignableFrom(f.fieldType) then Err(NOT_STRING_KEY)
    else Write(values, f, Str(ids.simpleUuid))
  }

  /** `defaultGeneratorKey`: acts only while `id` is null; the type check is
      part of acting. */
  function DefaultGenerated(cls: ClassDecl, values: map<string, Value>, ids: IdSource): (r: Result<map<string, Value>>)
    requires values.Keys == FieldNames(cls.fields)
  {
    match FindField(cls.fields, ID)
    case None => Err(NullPointer)
    case Some(f) => if values[f.name] != Null then Ok(values) else Assign(values, f, ids)
  }

  function PostProcessed(cls: ClassDecl, values: map<string, Value>, field: Option<FieldDecl>, ids: IdSource)
    : (r: Result<map<string, Value>>)
    requires values.Keys == FieldNames(cls.fields)
    ensures KeyField(cls, field).None? ==> r == Err(NullPointer)
    ensures field.Some? && !StringAssignableFrom(field.value.fieldType) ==> r == Err(NOT_STRING_KEY)
    ensures field.Some? && StringAssignableFrom(field.value.fieldType) && field.value.name in values
            ==> r == Ok(values[field.value.name := Str(ids.simpleUuid)])
    ensures field.None? && KeyField(cls, field).Some? && values[ID] != Null ==> r == Ok(values)
    ensures field.None? && KeyField(cls, field).Some? && values[ID] == Null ==>
              if StringAssignableFrom(KeyField(cls, field).value.fieldType)
              then r == Ok(values[ID := Str(ids.simpleUuid)])
              else r == Err(NOT_STRING_KEY)
    ensures r.Ok? ==> OnlyKeyChanged(values, r.value, KeyField(cls, field).value.name)
    ensures r.Ok? && r.value != values ==> r.value[KeyField(cls, field).value.name] == Str(ids.simpleUuid)
  {
    if field.None? then DefaultGenerated(cls, values, ids) else Assign(values, field.value, ids)
  }

  function GetType(): (t: IdType)
    ensures t == ASSIGN_UUID
  {
    ASSIGN_UUID
  }

  method DefaultGeneratorKey(entity: Instance, ids: IdSource) returns (o: Outcome)
    requires entity.Valid()
    modifies entity
    ensures entity.Valid()
    ensures o.Pass? <==> DefaultGenerated(entity.cls, old(entity.values), ids).Ok?
    ensures o.Pass? ==> entity.values == DefaultGenerated(entity.cls, old(entity.values), ids).value
    ensures o.Fail? ==> o.error == DefaultGenerated(entity.cls, old(entity.values), ids).error
                        && entity.values == old(entity.values)
  {
    var field := FindField(entity.cls.fields, ID);
    if field.None? {
      return Fail(NullPointer);
    }
    o := Pass;
    var f := field.value;
    if entity.values[f.name] == Null {
      if !StringAssignableFrom(f.fieldType) {
        return Fail(NOT_STRING_KEY);
      }
      o := entity.SetField(f.name, Str(ids.simpleUuid));
    }
  }

  method PostProcess(field: Option<FieldDecl>, entity: Instance, ids: IdSource) returns (o: Outcome)
    requires entity.Valid()
    modifies entity
    ensures entity.Valid()
    ensures o.Pass? <==> PostProcessed(entity.cls, old(entity.values), field, ids).Ok?
    ensures o.Pass? ==> entity.values == PostProcessed(entity.cls, old(entity.values), field, ids).value
    ensures o.Fail? ==> o.error == PostProcessed(entity.cls, old(entity.values), field, ids).error
                        && entity.values == old(entity.values)
  {
    if field.None? {
      o := DefaultGeneratorKey(entity, ids);
      return;
    }
    if !StringAssignableFrom(field.value.fieldType) {
      return Fail(NOT_STRING_KEY);
    }
    o := entity.SetField(field.value.name, Str(ids.simpleUuid));
  }
}

/** `StringObjectIdRowKeyGenerator` (ASSIGN_OBJECT_ID): the key field must be
    a String and gets a new ObjectId. */
module StringObjectIdRowKeyGenerator {
  import opened JavaLang
  import opened Entities
  import opened Mapping
  import opened KeyGeneration

  const NOT_STRING_KEY := IllegalArgument("ObjectId key field must be String")

  function Assign(values: map<string, Value>, f: FieldDecl, ids: IdSource): Result<map<string, Value>> {
    if !StringAssignableFrom(f.fieldType) then Err(NOT_STRING_KEY)
    else Write(values, f, Str(ids.objectId))
  }

  function DefaultGenerated(cls: ClassDecl, values: map<string, Value>, ids: IdSource): (r: Result<map<string, Value>>)
    requires values.Keys == FieldNames(cls.fields)
  {
    match FindField(cls.fields, ID)
    case None => Err(NullPointer)
    case Some(f) => if values[f.name] != Null then Ok(values) else Assign(values, f, ids)
  }

  function PostProcessed(cls: ClassDecl, values: map<string, Value>, field: Option<FieldDecl>, ids: IdSource)
    : (r: Result<map<string, Value>>)
    requires values.Keys == FieldNames(cls.fields)
    ensures KeyField(cls, field).None? ==> r == Err(NullPointer)
    ensures field.Some? && !StringAssignableFrom(field.value.fieldType) ==> r == Err(NOT_STRING_KEY)
    ensures field.Some? && StringAssignableFrom(field.value.fieldType) && field.value.name in values
            ==> r == Ok(values[field.value.name := Str(ids.objectId)])
    ensures field.None? && KeyField(cls, field).Some? && values[ID] != Null ==> r == Ok(values)
    ensures field.None? && KeyField(cls, field).Some? && values[ID] == Null ==>
              if StringAssignableFrom(KeyField(cls, field).value.fieldType)
              then r == Ok(values[ID := Str(ids.objectId)])
              else r == Err(NOT_STRING_KEY)
    ensures r.Ok? ==> OnlyKeyChanged(values, r.value, KeyField(cls, field).value.name)
    ensures r.Ok? && r.value != values ==> r.value[KeyField(cls, field).value.name] == Str(ids.objectId)
  {
    if field.None? then DefaultGenerated(cls, values, ids) else Assign(values, field.value, ids)
  }

  function GetType(): (t: IdType)
    ensures t == ASSIGN_OBJECT_ID
  {
    ASSIGN_OBJECT_ID
  }

  method DefaultGeneratorKey(entity: Instance, ids: IdSource) returns (o: Outcome)
    requires entity.Valid()
    modifies entity
    ensures entity.Valid()
    ensures o.Pass? <==> DefaultGenerated(entity.cls, old(entity.values), ids).Ok?
    ensures o.Pass? ==> entity.values == DefaultGenerated(entity.cls, old(entity.values), ids).value
    ensures o.Fail? ==> o.error == DefaultGenerated(entity.cls, old(entity.values), ids).error
                        && entity.values == old(entity.values)
  {
    var field := FindField(entity.cls.fields, ID);
    if field.None? {
      return Fail(NullPointer);
    }
    o := Pass;
    var f := field.value;
    if entity.values[f.name] == Null {
      if !StringAssignableFrom(f.fieldType) {
        return Fail(NOT_STRING_KEY);
      }
      o := entity.SetField(f.name, Str(ids.objectId));
    }
  }

  method PostProcess(field: Option<FieldDecl>, entity: Instance, ids: IdSource) returns (o: Outcome)
    requires entity.Valid()
    modifies entity
    ensures entity.Valid()
    ensures o.Pass? <==> PostProcessed(entity.cls, old(entity.values), field, ids).Ok?
    ensures o.Pass? ==> entity.values == PostProcessed(entity.cls, old(entity.values), field, ids).value
    ensures o.Fail? ==> o.error == PostProcessed(entity.cls, old(entity.values), field, ids).error
                        && entity.values == old(entity.values)
  {
    if field.None? {
      o := DefaultGeneratorKey(entity, ids);
      return;
    }
    if !StringAssignableFrom(field.value.fieldType) {
      return Fail(NOT_STRING_KEY);
    }
    o := entity.SetField(field.value.name, Str(ids.objectId));
  }
}

/** `InputKeyGenerator` (INPUT): the caller supplies the key; both hooks do
    nothing. */
module InputKeyGenerator {
  import opened JavaLang
  import opened Entities
  import opened Mapping
  import opened KeyGeneration

  /** `postProcess`: succeeds and leaves every field as it was, whatever the
      field and the object. */
  function PostProcessed(cls: ClassDecl, values: map<string, Value>, field: Option<FieldDecl>, ids: IdSource)
    : (r: Result<map<string, Value>>)
    ensures r.Ok? && r.value == values
  {
    Ok(values)
  }

  /** `defaultGeneratorKey`: likewise a no-op. */
  function DefaultGenerated(cls: ClassDecl, values: map<string, Value>, ids: IdSource): (r: Result<map<string, Value>>)
    ensures r.Ok? && r.value == values
  {
    Ok(values)
  }

  function GetType(): (t: IdType)
    ensures t == INPUT
  {
    INPUT
  }
}
