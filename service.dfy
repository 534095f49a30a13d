/** `HbaseServiceImpl`: the generic entity service. `save` runs the key
    generator of the statement's id type on the entity, then writes one `Put`
    whose row is the key field's bytes and whose cells are every mapped
    column's bytes; the by-id operations check their ids before they look up
    the statement. The template calls that send the requests are left out:
    the model returns what would be sent. */
module HbaseServiceImpl {
  import opened JavaLang
  import opened Entities
  import opened Mapping
  import opened KeyGeneration
  import opened Mutations
  import Root = HbaseUtils
  import Collaborators
  import Gen = RowKeyGeneratorFactory
  import Utf8

  /** `HbaseUtils.toBytes(Object)` as the cell encoder. */
  function Encoder(conv: Collaborators.Conversions): Mutations.Encoder {
    v => Root.ToBytes(v, conv)
  }

  /** The `Put` save builds from the entity's fields after key generation:
      its row and its cells in column-map order, or the exception that ends
      the save. */
  function SaveMutation(st: Statement, values: map<string, Value>, conv: Collaborators.Conversions, order: seq<string>)
    : (r: Result<(Bytes, seq<PutCell>)>)
    requires forall c :: c in order ==> c in st.properties
    ensures st.tableId.name !in values ==> r == Err(NO_SUCH_FIELD)
    ensures st.tableId.name in values && values[st.tableId.name] == Null ==> r == Err(NullPointer)
    ensures r.Ok? ==> st.tableId.name in values && Root.ToBytes(values[st.tableId.name], conv) == Ok(r.value.0)
    ensures r.Ok? ==> 0 < |r.value.0| <= MAX_ROW_LENGTH
    ensures r.Ok? ==> |r.value.1| == |order|
                      && forall i :: 0 <= i < |order| ==>
                           var p := st.properties[order[i]];
                           p.field.name in values
                           && r.value.1[i].family == st.columnFamilyBytes && r.value.1[i].qualifier == p.columnBytes
                           && Root.ToBytes(values[p.field.name], conv) == Ok(r.value.1[i].value)
    ensures (exists i :: 0 <= i < |order| && st.properties[order[i]].field.name in values
                         && values[st.properties[order[i]].field.name] == Null) ==> r.Err?
  {
    if st.tableId.name !in values then Err(NO_SUCH_FIELD)
    else match Root.ToBytes(values[st.tableId.name], conv)
      case Err(e) => Err(e)
      case Ok(row) =>
        match CheckRow(Some(row))
        case Fail(e) => Err(e)
        case Pass =>
          match ColumnCells(values, st.properties, order, st.columnFamilyBytes, Encoder(conv))
          case Err(e) => Err(e)
          case Ok(cells) => Ok((row, cells))
  }

  /** The row names the key: a String key can be read back from the row, so
      two entities with String keys share a row exactly when their keys are
      equal. */
  lemma RowIdentifiesKey(st: Statement, v1: map<string, Value>, v2: map<string, Value>,
                         conv: Collaborators.Conversions, order: seq<string>)
    requires forall c :: c in order ==> c in st.properties
    requires SaveMutation(st, v1, conv, order).Ok? && SaveMutation(st, v2, conv, order).Ok?
    requires v1[st.tableId.name].Str? && v2[st.tableId.name].Str?
    ensures SaveMutation(st, v1, conv, order).value.0 == SaveMutation(st, v2, conv, order).value.0
            <==> v1[st.tableId.name] == v2[st.tableId.name]
  {
    var k1 := v1[st.tableId.name];
    var k2 := v2[st.tableId.name];
    var r1 := SaveMutation(st, v1, conv, order).value.0;
    var r2 := SaveMutation(st, v2, conv, order).value.0;
    assert Utf8.Decode(r1) == k1.s && Utf8.Decode(r2) == k2.s;
    if k1 == k2 {
      assert Root.ToBytes(k1, conv) == Root.ToBytes(k2, conv);
    }
  }

  /** A String key "" gives an empty row, which `new Put` refuses. */
  lemma EmptyStringKeyFails(st: Statement, values: map<string, Value>, conv: Collaborators.Conversions, order: seq<string>)
    requires forall c :: c in order ==> c in st.properties
    requires st.tableId.name in values && values[st.tableId.name] == Str("")
    ensures SaveMutation(st, values, conv, order) == Err(ROW_IS_EMPTY)
  {
    assert Root.ToBytes(Str(""), conv) == Ok([]);
  }

  /** `save(entity)`: the statement of the service's class, the generator of
      its id type run on the entity's key field, then one `Put`. The entity
      keeps what the generator wrote even when the save fails later. */
  method Save(entity: Instance, statement: Option<Statement>, generators: Gen.RowKeyGeneratorFactory, ids: IdSource,
              conv: Collaborators.Conversions, order: seq<string>) returns (r: Result<SaveRequest>)
    requires entity.Valid()
    requires statement.Some? ==> IsOrderOf(order, statement.value.properties)
    modifies entity
    ensures entity.Valid()
    ensures statement.None? ==> r == Err(NullPointer) && entity.values == old(entity.values)
    ensures statement.Some? ==>
              var st := statement.value;
              var g := Gen.Dispatched(generators.idHandlerMap, st.idType, entity.cls, old(entity.values), Some(st.tableId), ids);
              (g.Err? ==> r == Err(g.error) && entity.values == old(entity.values))
              && (g.Ok? ==> entity.values == g.value
                            && (r.Ok? <==> SaveMutation(st, g.value, conv, order).Ok?)
                            && (r.Err? ==> r.error == SaveMutation(st, g.value, conv, order).error))
    ensures statement.Some? && r.Ok? ==>
              var m := SaveMutation(statement.value, entity.values, conv, order).value;
              r.value.tableName == statement.value.tableName && |r.value.mutations| == 1
              && fresh(r.value.mutations[0])
              && r.value.mutations[0].row == m.0 && r.value.mutations[0].cells == m.1
  {
    if statement.None? {
      return Err(NullPointer);
    }
    var st := statement.value;
    var o := generators.DoHandler(st.idType, entity, Some(st.tableId), ids);
    if o.Fail? {
      return Err(o.error);
    }
    var key := entity.FieldValue(st.tableId);
    if key.Err? {
      return Err(key.error);
    }
    var row := Root.ToBytes(key.value, conv);
    if row.Err? {
      return Err(row.error);
    }
    var put := NewPut(Some(row.value));
    if put.Err? {
      return Err(put.error);
    }
    var added := AddColumns(put.value, entity.values, st.properties, order, st.columnFamilyBytes, Encoder(conv));
    if added.Fail? {
      return Err(added.error);
    }
    r := Ok(SaveRequest(st.tableName, [put.value]));
  }

  /** `save` always passes the statement's key field, so the generators'
      "only while null" default path is never taken from here: under
      ASSIGN_UUID a String key is replaced whatever it held. */
  lemma SaveReplacesPresetUuidKey(st: Statement, cls: ClassDecl, values: map<string, Value>, ids: IdSource)
    requires values.Keys == FieldNames(cls.fields)
    requires st.idType == Some(ASSIGN_UUID) && StringAssignableFrom(st.tableId.fieldType) && st.tableId.name in values
    ensures Gen.Dispatched(Gen.TestInitMap(), st.idType, cls, values, Some(st.tableId), ids)
            == Ok(values[st.tableId.name := Str(ids.simpleUuid)])
  {
  }

  /** `HbaseExceptionEnum.ID_IS_REQUIRED`, raised by hutool's `Assert`. */
  const ID_IS_REQUIRED := IllegalArgument("id is required")

  /** `existsById(id)`: the table the existence check goes to. */
  function ExistsById(id: Value, statement: Option<Statement>): (r: Result<string>)
    ensures id == Null ==> r == Err(ID_IS_REQUIRED)
    ensures id != Null && statement.None? ==> r == Err(NullPointer)
    ensures r.Ok? <==> id != Null && statement.Some?
    ensures r.Ok? ==> r.value == statement.value.tableName
  {
    if id == Null then Err(ID_IS_REQUIRED)
    else if statement.None? then Err(NullPointer)
    else Ok(statement.value.tableName)
  }

  /** A by-id read or delete: table, ids and column family. */
  datatype KeyRequest = KeyRequest(tableName: string, ids: set<Value>, columnFamily: string)

  /** `findAllById(ids)`: a null or empty id set is refused before anything
      else. */
  function FindAllById(ids: Option<set<Value>>, statement: Option<Statement>): (r: Result<KeyRequest>)
    ensures ids.None? || ids.value == {} ==> r == Err(ID_IS_REQUIRED)
    ensures r.Ok? <==> ids.Some? && ids.value != {} && statement.Some?
    ensures r.Ok? ==> r.value == KeyRequest(statement.value.tableName, ids.value, statement.value.columnFamily)
  {
    if ids.None? || ids.value == {} then Err(ID_IS_REQUIRED)
    else if statement.None? then Err(NullPointer)
    else Ok(KeyRequest(statement.value.tableName, ids.value, statement.value.columnFamily))
  }

  /** `deleteById(id)`. */
  function DeleteById(id: Value, statement: Option<Statement>): (r: Result<KeyRequest>)
    ensures id == Null ==> r == Err(ID_IS_REQUIRED)
    ensures r.Ok? <==> id != Null && statement.Some?
    ensures r.Ok? ==> r.value == KeyRequest(statement.value.tableName, {id}, statement.value.columnFamily)
  {
    if id == Null then Err(ID_IS_REQUIRED)
    else if statement.None? then Err(NullPointer)
    else Ok(KeyRequest(statement.value.tableName, {id}, statement.value.columnFamily))
  }
}
