/** `SimpleHbaseRepository`: the repository base class. Its `save` writes
    every mapped column as the UTF-8 bytes of the value's string form, under
    the statement's precomputed row key, and returns the entity unchanged. */
module SimpleHbaseRepository {
  import opened JavaLang
  import opened Mapping
  import opened Mutations
  import Collaborators
  import Utf8
  import B = HBaseBytes
  import Registrar = ObjectMappedRegistrar

  /** `Bytes.toBytes(Convert.toStr(value))`: null converts to null and
      `toBytes` then throws. */
  function Encoder(conv: Collaborators.Conversions): Mutations.Encoder {
    v => match Collaborators.ToStr(conv, v)
         case None => Err(NullPointer)
         case Some(s) => Ok(B.StringToBytes(s))
  }

  /** A cell holds the UTF-8 bytes of the value's string form; only null is
      refused. */
  lemma EncoderWritesStringForm(conv: Collaborators.Conversions, v: Value)
    ensures Encoder(conv)(v).Err? <==> v == Null
    ensures Encoder(conv)(v).Ok? ==> Utf8.Decode(Encoder(conv)(v).value) == Collaborators.ToStr(conv, v).value
  {
    if v != Null {
      Utf8.DecodeEncode(Collaborators.ToStr(conv, v).value);
    }
  }

  /** The `Put` save builds: the statement's row key, then one cell per column
      in column-map order. */
  function SaveMutation(st: Statement, values: map<string, Value>, conv: Collaborators.Conversions, order: seq<string>)
    : (r: Result<(Bytes, seq<PutCell>)>)
    requires forall c :: c in order ==> c in st.properties
    ensures st.rowKey.None? ==> r == Err(NullPointer)
    ensures r.Ok? ==> st.rowKey == Some(r.value.0) && 0 < |r.value.0| <= MAX_ROW_LENGTH
    ensures r.Ok? ==> |r.value.1| == |order|
                      && forall i :: 0 <= i < |order| ==>
                           var p := st.properties[order[i]];
                           p.field.name in values && values[p.field.name] != Null
                           && r.value.1[i].family == st.columnFamilyBytes && r.value.1[i].qualifier == p.columnBytes
                           && Utf8.Decode(r.value.1[i].value) == Collaborators.ToStr(conv, values[p.field.name]).value
    ensures (exists i :: 0 <= i < |order| && st.properties[order[i]].field.name in values
                         && values[st.properties[order[i]].field.name] == Null)
            ==> r.Err?
    ensures (CheckRow(st.rowKey).Pass?
             && (forall i :: 0 <= i < |order| ==>
                   st.properties[order[i]].field.name in values && values[st.properties[order[i]].field.name] != Null))
            ==> r.Ok?
  {
    match CheckRow(st.rowKey)
    case Fail(e) => Err(e)
    case Pass =>
      EncodingFacts(conv);
      match ColumnCells(values, st.properties, order, st.columnFamilyBytes, Encoder(conv))
      case Err(e) => Err(e)
      case Ok(cells) =>
        CellsHoldStringForms(st, values, conv, order);
        Ok((st.rowKey.value, cells))
  }

  lemma EncodingFacts(conv: Collaborators.Conversions)
    ensures forall v :: EncodeFacts(conv, v)
  {
    forall v ensures EncodeFacts(conv, v) {
      EncoderWritesStringForm(conv, v);
    }
  }

  lemma CellsHoldStringForms(st: Statement, values: map<string, Value>, conv: Collaborators.Conversions, order: seq<string>)
    requires forall c :: c in order ==> c in st.properties
    requires ColumnCells(values, st.properties, order, st.columnFamilyBytes, Encoder(conv)).Ok?
    ensures var cells := ColumnCells(values, st.properties, order, st.columnFamilyBytes, Encoder(conv)).value;
            forall i :: 0 <= i < |order| ==>
              var p := st.properties[order[i]];
              p.field.name in values && values[p.field.name] != Null
              && Utf8.Decode(cells[i].value) == Collaborators.ToStr(conv, values[p.field.name]).value
  {
    var cells := ColumnCells(values, st.properties, order, st.columnFamilyBytes, Encoder(conv)).value;
    forall i | 0 <= i < |order|
      ensures var p := st.properties[order[i]];
              p.field.name in values && values[p.field.name] != Null
              && Utf8.Decode(cells[i].value) == Collaborators.ToStr(conv, values[p.field.name]).value
    {
      var p := st.properties[order[i]];
      assert ColumnCell(values, p, st.columnFamilyBytes, Encoder(conv)).Ok?;
      EncoderWritesStringForm(conv, values[p.field.name]);
    }
  }

  predicate EncodeFacts(conv: Collaborators.Conversions, v: Value) {
    (Encoder(conv)(v).Err? <==> v == Null)
    && (Encoder(conv)(v).Ok? ==> Utf8.Decode(Encoder(conv)(v).value) == Collaborators.ToStr(conv, v).value)
  }

  /** The row does not depend on the entity: every entity saved through the
      same statement is written to the same row. */
  lemma RowIgnoresEntity(st: Statement, v1: map<string, Value>, v2: map<string, Value>,
                         conv: Collaborators.Conversions, order: seq<string>)
    requires forall c :: c in order ==> c in st.properties
    requires SaveMutation(st, v1, conv, order).Ok? && SaveMutation(st, v2, conv, order).Ok?
    ensures SaveMutation(st, v1, conv, order).value.0 == SaveMutation(st, v2, conv, order).value.0
  {
  }

  /** With a statement the registrar compiled, that row is the 4-byte count of
      the class's mapped columns. */
  lemma RegistrarRowIsColumnCount(className: string, attrs: Registrar.TableNameAttributes, cls: Option<ClassDecl>,
                                  values: map<string, Value>, conv: Collaborators.Conversions, order: seq<string>)
    requires Registrar.Compile(className, attrs, cls).Ok?
    requires forall c :: c in order ==> c in Registrar.Compile(className, attrs, cls).value.properties
    requires SaveMutation(Registrar.Compile(className, attrs, cls).value, values, conv, order).Ok?
    ensures var row := SaveMutation(Registrar.Compile(className, attrs, cls).value, values, conv, order).value.0;
            |row| == 4 && B.DecodeSigned(row) == Registrar.SizeAsInt(|Registrar.ParseProperties(cls)|)
  {
  }

  /** `save(entity)`: the entity itself is not changed. */
  method Save(entity: Entities.Instance, statement: Option<Statement>, conv: Collaborators.Conversions, order: seq<string>)
    returns (r: Result<SaveRequest>)
    requires entity.Valid()
    requires statement.Some? ==> IsOrderOf(order, statement.value.properties)
    ensures statement.None? ==> r == Err(NullPointer)
    ensures statement.Some? ==>
              (r.Ok? <==> SaveMutation(statement.value, entity.values, conv, order).Ok?)
              && (r.Err? ==> r.error == SaveMutation(statement.value, entity.values, conv, order).error)
    ensures statement.Some? && r.Ok? ==>
              var m := SaveMutation(statement.value, entity.values, conv, order).value;
              r.value.tableName == statement.value.tableName && |r.value.mutations| == 1
              && fresh(r.value.mutations[0])
              && r.value.mutations[0].row == m.0 && r.value.mutations[0].cells == m.1
  {
    if statement.None? {
      return Err(NullPointer);
    }
    var st := statement.value;
    var put := NewPut(st.rowKey);
    if put.Err? {
      return Err(put.error);
    }
    var added := AddColumns(put.value, entity.values, st.properties, order, st.columnFamilyBytes, Encoder(conv));
    if added.Fail? {
      return Err(added.error);
    }
    r := Ok(SaveRequest(st.tableName, [put.value]));
  }
}
