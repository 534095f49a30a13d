/** `RowKeyGeneratorFactory`: files every row-key generator bean under the
    `IdType` it reports, and dispatches an entity to the generator of its
    statement's id type. */
module RowKeyGeneratorFactory {
  import opened JavaLang
  import opened Entities
  import opened Mapping
  import opened KeyGeneration
  import Snowflake = SnowflakeIdRowKeyGenerator
  import Uuid = StringUUIDRowKeyGenerator
  import ObjectIdGen = StringObjectIdRowKeyGenerator
  import InputGen = InputKeyGenerator

  /** The generator beans: the four strategies the library ships. */
  datatype Generator = SnowflakeId | StringUUID | StringObjectId | InputKey

  /** Each bean's `getType()`. */
  function TypeOf(g: Generator): (t: IdType)
    ensures g.SnowflakeId? ==> t == Snowflake.GetType()
    ensures g.StringUUID? ==> t == Uuid.GetType()
    ensures g.StringObjectId? ==> t == ObjectIdGen.GetType()
    ensures g.InputKey? ==> t == InputGen.GetType()
  {
    match g
    case SnowflakeId => Snowflake.GetType()
    case StringUUID => Uuid.GetType()
    case StringObjectId => ObjectIdGen.GetType()
    case InputKey => InputGen.GetType()
  }

  /** No two beans report the same type, so each is filed in a slot of its own. */
  lemma TypesAreDistinct(g: Generator, h: Generator)
    ensures TypeOf(g) == TypeOf(h) <==> g == h
  {
  }

  /** Each bean's `postProcess`, as its effect on the entity's fields. */
  function Handled(g: Generator, cls: ClassDecl, values: map<string, Value>, field: Option<FieldDecl>, ids: IdSource)
    : Result<map<string, Value>>
    requires values.Keys == FieldNames(cls.fields)
  {
    match g
    case SnowflakeId => Snowflake.PostProcessed(cls, values, field, ids)
    case StringUUID => Uuid.PostProcessed(cls, values, field, ids)
    case StringObjectId => ObjectIdGen.PostProcessed(cls, values, field, ids)
    case InputKey => InputGen.PostProcessed(cls, values, field, ids)
  }

  /** Every generator keeps the object's shape and touches at most its key
      field; none adds or removes a field. */
  lemma HandlersTouchOnlyTheKey(g: Generator, cls: ClassDecl, values: map<string, Value>, field: Option<FieldDecl>, ids: IdSource)
    requires values.Keys == FieldNames(cls.fields)
    requires Handled(g, cls, values, field, ids).Ok?
    ensures Handled(g, cls, values, field, ids).value.Keys == values.Keys
    ensures forall n :: n in values && (KeyField(cls, field).None? || n != KeyField(cls, field).value.name)
                        ==> Handled(g, cls, values, field, ids).value[n] == values[n]
  {
    var r := Handled(g, cls, values, field, ids);
    if !g.InputKey? {
      assert KeyField(cls, field).Some?;
      assert OnlyKeyChanged(values, r.value, KeyField(cls, field).value.name);
    }
  }

  /** The types the beans report. */
  function TypesOf(beans: seq<Generator>): (ts: set<IdType>)
    ensures forall b :: b in beans ==> TypeOf(b) in ts
  {
    if beans == [] then {} else TypesOf(beans[..|beans| - 1]) + {TypeOf(beans[|beans| - 1])}
  }

  /** Every generator is filed under its own type. */
  predicate Consistent(m: map<IdType, Generator>) {
    forall t :: t in m ==> TypeOf(m[t]) == t
  }

  /** The map after `put(v.getType(), v)` for each bean in iteration order. */
  function Indexed(m: map<IdType, Generator>, beans: seq<Generator>): (r: map<IdType, Generator>)
    ensures r.Keys == m.Keys + TypesOf(beans)
    ensures forall t :: t in m && t !in TypesOf(beans) ==> r[t] == m[t]
    ensures Consistent(m) ==> Consistent(r)
  {
    if beans == [] then m
    else
      var b := beans[|beans| - 1];
      Indexed(m, beans[..|beans| - 1])[TypeOf(b) := b]
  }

  /** When two beans report the same type, the one iterated later is kept. */
  lemma {:induction false} LaterBeanWins(m: map<IdType, Generator>, beans: seq<Generator>, k: int)
    requires 0 <= k < |beans|
    requires forall j :: k < j < |beans| ==> TypeOf(beans[j]) != TypeOf(beans[k])
    ensures TypeOf(beans[k]) in Indexed(m, beans) && Indexed(m, beans)[TypeOf(beans[k])] == beans[k]
  {
    if k < |beans| - 1 {
      var init := beans[..|beans| - 1];
      assert forall j :: k < j < |init| ==> init[j] == beans[j];
      LaterBeanWins(m, init, k);
    }
  }

  /** What `doHandler` does to an object's fields with a given registry: a
      null type fails the concurrent map's lookup, a type with no generator is
      rejected, any other type runs its generator. */
  function Dispatched(handlers: map<IdType, Generator>, idType: Option<IdType>, cls: ClassDecl,
                      values: map<string, Value>, field: Option<FieldDecl>, ids: IdSource): Result<map<string, Value>>
    requires values.Keys == FieldNames(cls.fields)
  {
    if idType.None? then Err(NullPointer)
    else if idType.value !in handlers then Err(NO_GENERATOR)
    else Handled(handlers[idType.value], cls, values, field, ids)
  }

  /** The generator registry bean. */
  class RowKeyGeneratorFactory {
    var idHandlerMap: map<IdType, Generator>

    constructor ()
      ensures idHandlerMap == map[]
    {
      idHandlerMap := map[];
    }

    /** `afterPropertiesSet`: files each bean found, in the container's
        iteration order, under its type. */
    method AfterPropertiesSet(beans: seq<Generator>)
      modifies this
      ensures idHandlerMap == Indexed(old(idHandlerMap), beans)
      ensures forall b :: b in beans ==> TypeOf(b) in idHandlerMap
      ensures Consistent(old(idHandlerMap)) ==> Consistent(idHandlerMap)
    {
      var i := 0;
      while i < |beans|
        invariant 0 <= i <= |beans|
        invariant idHandlerMap == Indexed(old(idHandlerMap), beans[..i])
      {
        assert beans[..i + 1][..i] == beans[..i];
        idHandlerMap := idHandlerMap[TypeOf(beans[i]) := beans[i]];
        i := i + 1;
      }
      assert beans[..i] == beans;
    }

    /** `doHandler(type, obj, field)`: a null type fails the concurrent map's
        lookup; a type with no generator is rejected before the entity is
        touched; otherwise that generator runs once on the entity. */
    method DoHandler(idType: Option<IdType>, entity: Instance, field: Option<FieldDecl>, ids: IdSource) returns (o: Outcome)
      requires entity.Valid()
      modifies entity
      ensures entity.Valid()
      ensures idType.None? ==> o == Fail(NullPointer) && entity.values == old(entity.values)
      ensures idType.Some? && idType.value !in idHandlerMap ==> o == Fail(NO_GENERATOR) && entity.values == old(entity.values)
      ensures idType.Some? && idType.value in idHandlerMap ==>
                var r := Handled(idHandlerMap[idType.value], entity.cls, old(entity.values), field, ids);
                (o.Pass? <==> r.Ok?)
                && (r.Ok? ==> entity.values == r.value)
                && (r.Err? ==> o.error == r.error && entity.values == old(entity.values))
      ensures var r := Dispatched(idHandlerMap, idType, entity.cls, old(entity.values), field, ids);
              (o.Pass? <==> r.Ok?) && (r.Ok? ==> entity.values == r.value)
              && (r.Err? ==> o.error == r.error && entity.values == old(entity.values))
    {
      if idType.None? {
        return Fail(NullPointer);
      }
      if idType.value !in idHandlerMap {
        return Fail(NO_GENERATOR);
      }
      match idHandlerMap[idType.value]
      case SnowflakeId => o := Snowflake.PostProcess(field, entity, ids);
      case StringUUID => o := Uuid.PostProcess(field, entity, ids);
      case StringObjectId => o := ObjectIdGen.PostProcess(field, entity, ids);
      case InputKey => o := Pass;
    }
  }

  /** The IllegalArgumentException for a type with no generator. */
  const NO_GENERATOR := IllegalArgument("no key generator for the id type")

  /** The registry the tests install by hand. */
  function TestInitMap(): map<IdType, Generator> {
    map[ASSIGN_ID := SnowflakeId, ASSIGN_UUID := StringUUID, INPUT := InputKey, ASSIGN_OBJECT_ID := StringObjectId]
  }

  /** In that registry every id type resolves to its own generator, and it is
      what `afterPropertiesSet` builds from the four beans. */
  lemma TestInitResolvesEveryType()
    ensures forall t: IdType :: t in TestInitMap() && TypeOf(TestInitMap()[t]) == t
    ensures Indexed(map[], [SnowflakeId, StringUUID, InputKey, StringObjectId]) == TestInitMap()
  {
    var b1: seq<Generator> := [SnowflakeId];
    var b2 := b1 + [StringUUID];
    var b3 := b2 + [InputKey];
    var b4 := b3 + [StringObjectId];
    assert b1[..0] == [] && b2[..1] == b1 && b3[..2] == b2 && b4[..3] == b3;
    var m1 := Indexed(map[], b1);
    assert m1 == map[ASSIGN_ID := SnowflakeId];
    var m2 := Indexed(map[], b2);
    assert m2 == m1[ASSIGN_UUID := StringUUID];
    var m3 := Indexed(map[], b3);
    assert m3 == m2[INPUT := InputKey];
    assert Indexed(map[], b4) == m3[ASSIGN_OBJECT_ID := StringObjectId];
    assert b4 == [SnowflakeId, StringUUID, InputKey, StringObjectId];
    forall t: IdType
      ensures t in TestInitMap() && TypeOf(TestInitMap()[t]) == t
    {
      match t
      case INPUT =>
      case ASSIGN_ID =>
      case ASSIGN_UUID =>
      case ASSIGN_OBJECT_ID =>
    }
  }
}
