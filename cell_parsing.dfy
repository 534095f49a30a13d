/** The per-cell loop shared by every row-to-entity parser: for each cell of
    the row, in order, the qualifier text selects a property, the property's
    declared type decodes the cell value, and the value is written to the
    field whose NAME is the qualifier text. The parsers differ only in the
    decoder they use and in how they treat a missing statement or an empty
    row. */
module CellParsing {
  import opened JavaLang
  import B = HBaseBytes
  import opened Entities
  import opened Mapping

  /** A raw cell: the qualifier bytes, and the value as a window
      [valueOffset, valueOffset + valueLength) of a possibly shared array. */
  datatype Cell = Cell(qualifier: Bytes, valueArray: Bytes, valueOffset: int, valueLength: int)

  /** `getValue(type, valueArray, valueOffset, valueLength)` of one codec copy. */
  type Decoder = (JClass, Bytes, int, int) -> Result<Value>

  /** `Bytes.toString(qualifierArray, qualifierOffset, qualifierLength)`. */
  function QualifierText(c: Cell): string {
    B.ToStringAll(c.qualifier)
  }

  function Decode(c: Cell, p: Property, decode: Decoder): Result<Value> {
    decode(p.propType, c.valueArray, c.valueOffset, c.valueLength)
  }

  /** One iteration: an unmapped qualifier makes `properties.get(qualifier)`
      null and `.getType()` throws; a decoding error propagates; a qualifier
      that names no field makes `setFieldValue` throw, and so does a value
      the field cannot hold even after conversion. */
  function Step(fields: seq<FieldDecl>, values: map<string, Value>, c: Cell, props: map<string, Property>,
                decode: Decoder, convert: Converter)
    : (r: Result<map<string, Value>>)
    ensures r.Ok? <==> QualifierText(c) in props && Decode(c, props[QualifierText(c)], decode).Ok?
                       && QualifierText(c) in FieldNames(fields)
                       && Assigned(FieldType(fields, QualifierText(c)), Decode(c, props[QualifierText(c)], decode).value, convert).Ok?
    ensures r.Ok? ==> r.value == values[QualifierText(c) := Assigned(FieldType(fields, QualifierText(c)),
                                                                      Decode(c, props[QualifierText(c)], decode).value, convert).value]
    ensures QualifierText(c) !in props ==> r == Err(NullPointer)
  {
    var q := QualifierText(c);
    if q !in props then Err(NullPointer)
    else match Decode(c, props[q], decode)
      case Err(e) => Err(e)
      case Ok(v) =>
        if q !in FieldNames(fields) then Err(NO_SUCH_FIELD)
        else match Assigned(FieldType(fields, q), v, convert)
          case Err(e) => Err(e)
          case Ok(w) => Ok(values[q := w])
  }

  /** One step keeps the object well typed. */
  lemma StepWellTyped(fields: seq<FieldDecl>, values: map<string, Value>, c: Cell, props: map<string, Property>,
                      decode: Decoder, convert: Converter)
    requires WellTyped(fields, values)
    requires Step(fields, values, c, props, decode, convert).Ok?
    ensures WellTyped(fields, Step(fields, values, c, props, decode, convert).value)
  {
  }

  /** The whole loop, cells applied first to last; the first failure ends it. */
  function ApplyCells(fields: seq<FieldDecl>, values: map<string, Value>, cells: seq<Cell>, props: map<string, Property>, decode: Decoder, convert: Converter)
    : Result<map<string, Value>>
    decreases |cells|
  {
    if cells == [] then Ok(values)
    else match Step(fields, values, cells[0], props, decode, convert)
      case Err(e) => Err(e)
      case Ok(next) => ApplyCells(fields, next, cells[1..], props, decode, convert)
  }

  /** A row parsed into a freshly constructed object of class cls. */
  function ParseRow(cls: ClassDecl, cells: seq<Cell>, props: map<string, Property>, decode: Decoder, convert: Converter): Result<map<string, Value>> {
    ApplyCells(cls.fields, Defaults(cls.fields), cells, props, decode, convert)
  }

  /** `ReflectUtil.newInstance(clazz)` followed by the cell loop: a fresh
      object holding exactly what the row parses to. */
  method NewInstanceFromRow(cls: ClassDecl, cells: seq<Cell>, props: map<string, Property>, decode: Decoder, convert: Converter)
    returns (r: Result<Instance>)
    ensures r.Ok? <==> ParseRow(cls, cells, props, decode, convert).Ok?
    ensures r.Err? ==> r.error == ParseRow(cls, cells, props, decode, convert).error
    ensures r.Ok? ==> fresh(r.value) && r.value.cls == cls && r.value.Valid()
                      && r.value.values == ParseRow(cls, cells, props, decode, convert).value
  {
    var inst := new Instance(cls);
    var o := ApplyCellsTo(inst, cells, props, decode, convert);
    if o.Fail? {
      return Err(o.error);
    }
    return Ok(inst);
  }

  /** The loop body, run on a live object. The object is left as the loop
      left it when a cell fails; callers then discard it. */
  method ApplyCellsTo(inst: Instance, cells: seq<Cell>, props: map<string, Property>, decode: Decoder, convert: Converter) returns (o: Outcome)
    requires inst.Valid()
    modifies inst
    ensures inst.Valid()
    ensures o.Pass? <==> ApplyCells(inst.cls.fields, old(inst.values), cells, props, decode, convert).Ok?
    ensures o.Pass? ==> inst.values == ApplyCells(inst.cls.fields, old(inst.values), cells, props, decode, convert).value
    ensures o.Fail? ==> o.error == ApplyCells(inst.cls.fields, old(inst.values), cells, props, decode, convert).error
  {
    ghost var fields := inst.cls.fields;
    ghost var target := ApplyCells(fields, inst.values, cells, props, decode, convert);
    var i := 0;
    while i < |cells|
      invariant 0 <= i <= |cells|
      invariant inst.Valid()
      invariant ApplyCells(fields, inst.values, cells[i..], props, decode, convert) == target
    {
      ghost var before := inst.values;
      o := ApplyCell(inst, cells[i], props, decode, convert);
      if o.Fail? {
        StepFailed(fields, before, cells, i, props, decode, convert, o.error);
        return;
      }
      StepDone(fields, before, inst.values, cells, i, props, decode, convert);
      i := i + 1;
    }
    assert cells[i..] == [];
    o := Pass;
  }

  /** A successful step leaves the rest of the row to run on its result. */
  lemma StepDone(fields: seq<FieldDecl>, before: map<string, Value>, after: map<string, Value>, cells: seq<Cell>, i: int,
                 props: map<string, Property>, decode: Decoder, convert: Converter)
    requires 0 <= i < |cells|
    requires Step(fields, before, cells[i], props, decode, convert) == Ok(after)
    ensures ApplyCells(fields, before, cells[i..], props, decode, convert)
         == ApplyCells(fields, after, cells[i + 1..], props, decode, convert)
  {
    assert cells[i..][1..] == cells[i + 1..];
    ApplyCellsCons(fields, before, cells[i..], props, decode, convert);
  }

  /** A failing step is the failure of the rest of the row. */
  lemma StepFailed(fields: seq<FieldDecl>, before: map<string, Value>, cells: seq<Cell>, i: int,
                   props: map<string, Property>, decode: Decoder, convert: Converter, e: Error)
    requires 0 <= i < |cells|
    requires Step(fields, before, cells[i], props, decode, convert) == Err(e)
    ensures ApplyCells(fields, before, cells[i..], props, decode, convert) == Err(e)
  {
    ApplyCellsCons(fields, before, cells[i..], props, decode, convert);
  }

  /** One pass of the loop body on the live object: look the qualifier up,
      decode the value, write the field. */
  method ApplyCell(inst: Instance, c: Cell, props: map<string, Property>, decode: Decoder, convert: Converter) returns (o: Outcome)
    requires inst.Valid()
    modifies inst
    ensures inst.Valid()
    ensures o.Pass? ==> Step(inst.cls.fields, old(inst.values), c, props, decode, convert) == Ok(inst.values)
    ensures o.Fail? ==> Step(inst.cls.fields, old(inst.values), c, props, decode, convert) == Err(o.error)
                        && inst.values == old(inst.values)
  {
    var q := QualifierText(c);
    if q !in props {
      return Fail(NullPointer);
    }
    var v := Decode(c, props[q], decode);
    if v.Err? {
      return Fail(v.error);
    }
    o := inst.SetFieldValue(q, v.value, convert);
  }

  /** The first cell runs one step; the rest runs on its result. */
  lemma ApplyCellsCons(fields: seq<FieldDecl>, values: map<string, Value>, cells: seq<Cell>,
                       props: map<string, Property>, decode: Decoder, convert: Converter)
    requires cells != []
    ensures ApplyCells(fields, values, cells, props, decode, convert)
         == match Step(fields, values, cells[0], props, decode, convert)
            case Ok(next) => ApplyCells(fields, next, cells[1..], props, decode, convert)
            case Err(e) => Err(e)
  {
  }

  /** Appending a cell runs one more step on the result so far. */
  lemma {:induction false} ApplyCellsSnoc(fields: seq<FieldDecl>, values: map<string, Value>, cells: seq<Cell>, c: Cell,
                                          props: map<string, Property>, decode: Decoder, convert: Converter)
    ensures ApplyCells(fields, values, cells + [c], props, decode, convert)
         == match ApplyCells(fields, values, cells, props, decode, convert)
            case Ok(m) => Step(fields, m, c, props, decode, convert)
            case Err(e) => Err(e)
    decreases |cells|
  {
    if cells == [] {
      assert [] + [c] == [c];
    } else {
      assert (cells + [c])[1..] == cells[1..] + [c];
      match Step(fields, values, cells[0], props, decode, convert)
      case Err(_) =>
      case Ok(next) => ApplyCellsSnoc(fields, next, cells[1..], c, props, decode, convert);
    }
  }

  /** Cells are applied in order: whatever came before, the field named by the
      last cell's qualifier holds that cell's decoded value as its type
      receives it. */
  lemma LastCellWins(fields: seq<FieldDecl>, values: map<string, Value>, cells: seq<Cell>, c: Cell,
                     props: map<string, Property>, decode: Decoder, convert: Converter)
    requires ApplyCells(fields, values, cells + [c], props, decode, convert).Ok?
    ensures QualifierText(c) in props && Decode(c, props[QualifierText(c)], decode).Ok?
    ensures QualifierText(c) in FieldNames(fields)
    ensures Assigned(FieldType(fields, QualifierText(c)), Decode(c, props[QualifierText(c)], decode).value, convert).Ok?
    ensures QualifierText(c) in ApplyCells(fields, values, cells + [c], props, decode, convert).value
    ensures ApplyCells(fields, values, cells + [c], props, decode, convert).value[QualifierText(c)]
         == Assigned(FieldType(fields, QualifierText(c)), Decode(c, props[QualifierText(c)], decode).value, convert).value
  {
    ApplyCellsSnoc(fields, values, cells, c, props, decode, convert);
  }

  /** A qualifier with no mapped property anywhere in the row makes the parse
      fail: it is never skipped. */
  lemma {:induction false} UnmappedQualifierFails(fields: seq<FieldDecl>, values: map<string, Value>, cells: seq<Cell>,
                                                  props: map<string, Property>, decode: Decoder, convert: Converter, k: int)
    requires 0 <= k < |cells| && QualifierText(cells[k]) !in props
    ensures ApplyCells(fields, values, cells, props, decode, convert).Err?
    decreases |cells|
  {
    if k > 0 {
      match Step(fields, values, cells[0], props, decode, convert)
      case Err(_) =>
      case Ok(next) =>
        assert cells[1..][k - 1] == cells[k];
        UnmappedQualifierFails(fields, next, cells[1..], props, decode, convert, k - 1);
    }
  }

  /** Only the fields named by some qualifier of the row change; every other
      field keeps its value, and no field is added or removed. */
  lemma {:induction false} OnlyQualifiedFieldsChange(fields: seq<FieldDecl>, values: map<string, Value>, cells: seq<Cell>,
                                                     props: map<string, Property>, decode: Decoder, convert: Converter)
    requires values.Keys == FieldNames(fields)
    requires ApplyCells(fields, values, cells, props, decode, convert).Ok?
    ensures ApplyCells(fields, values, cells, props, decode, convert).value.Keys == values.Keys
    ensures forall n :: n in values && (forall i :: 0 <= i < |cells| ==> QualifierText(cells[i]) != n)
                        ==> ApplyCells(fields, values, cells, props, decode, convert).value[n] == values[n]
    decreases |cells|
  {
    if cells != [] {
      var next := Step(fields, values, cells[0], props, decode, convert).value;
      OnlyQualifiedFieldsChange(fields, next, cells[1..], props, decode, convert);
      forall n | n in values && (forall i :: 0 <= i < |cells| ==> QualifierText(cells[i]) != n)
        ensures ApplyCells(fields, values, cells, props, decode, convert).value[n] == values[n]
      {
        assert QualifierText(cells[0]) != n;
        assert forall i :: 0 <= i < |cells[1..]| ==> QualifierText(cells[1..][i]) == QualifierText(cells[i + 1]);
      }
    }
  }

  /** Every field of a parsed object holds a value its declared type accepts:
      the conversion step never lets a mismatched value through. */
  lemma {:induction false} ApplyCellsWellTyped(fields: seq<FieldDecl>, values: map<string, Value>, cells: seq<Cell>,
                                               props: map<string, Property>, decode: Decoder, convert: Converter)
    requires WellTyped(fields, values)
    requires ApplyCells(fields, values, cells, props, decode, convert).Ok?
    ensures WellTyped(fields, ApplyCells(fields, values, cells, props, decode, convert).value)
    decreases |cells|
  {
    if cells != [] {
      var next := Step(fields, values, cells[0], props, decode, convert).value;
      StepWellTyped(fields, values, cells[0], props, decode, convert);
      ApplyCellsWellTyped(fields, next, cells[1..], props, decode, convert);
    }
  }

  /** A row parsed into a new object leaves every field well typed. */
  lemma ParseRowWellTyped(cls: ClassDecl, cells: seq<Cell>, props: map<string, Property>, decode: Decoder, convert: Converter)
    requires ParseRow(cls, cells, props, decode, convert).Ok?
    ensures WellTyped(cls.fields, ParseRow(cls, cells, props, decode, convert).value)
  {
    DefaultsWellTyped(cls.fields);
    ApplyCellsWellTyped(cls.fields, Defaults(cls.fields), cells, props, decode, convert);
  }

  /** A cell whose decoded value its field cannot hold, before or after
      conversion, fails the parse with the IllegalArgumentException of
      `Field.set`. */
  lemma MismatchedValueFails(fields: seq<FieldDecl>, values: map<string, Value>, c: Cell,
                             props: map<string, Property>, decode: Decoder, convert: Converter)
    requires QualifierText(c) in props && QualifierText(c) in FieldNames(fields)
    requires Decode(c, props[QualifierText(c)], decode).Ok?
    requires var v := Decode(c, props[QualifierText(c)], decode).value;
             var t := FieldType(fields, QualifierText(c));
             v != Null && !FieldAccepts(t, v) && !FieldAccepts(t, convert(t, v))
    ensures ApplyCells(fields, values, [c], props, decode, convert) == Err(FIELD_TYPE_MISMATCH)
  {
  }

  /** A property stored under a column that is not the name of any field (a
      field renamed with `@ColumnName`) cannot be read back: the value is
      written by qualifier text, and no field has that name. */
  lemma RenamedColumnFails(fields: seq<FieldDecl>, values: map<string, Value>, c: Cell,
                           props: map<string, Property>, decode: Decoder, convert: Converter)
    requires QualifierText(c) in props
    requires Decode(c, props[QualifierText(c)], decode).Ok?
    requires forall f :: f in fields ==> f.name != QualifierText(c)
    ensures ApplyCells(fields, values, [c], props, decode, convert) == Err(NO_SUCH_FIELD)
  {
    assert QualifierText(c) !in FieldNames(fields);
  }
}
