/** The HBase client `Put` both save paths build, and the `forEach` over a
    statement's column map that fills it. Only the row checks of `new Put` and
    the cell list of `addColumn` are modelled; the cell timestamp and the
    grouping by family are left out. */
module Mutations {
  import opened JavaLang
  import opened Mapping
  import Entities
  import Utf8

  /** `HConstants.MAX_ROW_LENGTH` (Short.MAX_VALUE). */
  const MAX_ROW_LENGTH := 32767
  const ROW_IS_EMPTY := IllegalArgument("row length is 0")
  const ROW_TOO_LONG := IllegalArgument("row length is greater than the maximum row size")

  /** `new Put(row)`: a null row throws on `row.length`; an empty row or one
      longer than the maximum is refused. */
  function CheckRow(row: Option<Bytes>): (o: Outcome)
    ensures o.Pass? <==> row.Some? && 0 < |row.value| <= MAX_ROW_LENGTH
    ensures row.None? ==> o == Fail(NullPointer)
    ensures row.Some? && row.value == [] ==> o == Fail(ROW_IS_EMPTY)
    ensures row.Some? && |row.value| > MAX_ROW_LENGTH ==> o == Fail(ROW_TOO_LONG)
  {
    if row.None? then Fail(NullPointer)
    else if |row.value| == 0 then Fail(ROW_IS_EMPTY)
    else if |row.value| > MAX_ROW_LENGTH then Fail(ROW_TOO_LONG)
    else Pass
  }

  /** One `addColumn(family, qualifier, value)`; the family may be null. */
  datatype PutCell = PutCell(family: Option<Bytes>, qualifier: Bytes, value: Bytes)

  class Put {
    const row: Bytes
    var cells: seq<PutCell>

    constructor (r: Bytes)
      requires CheckRow(Some(r)).Pass?
      ensures row == r && cells == []
    {
      row := r;
      cells := [];
    }

    /** `addColumn`: appends one cell; nothing is checked here. */
    method AddColumn(family: Option<Bytes>, qualifier: Bytes, value: Bytes)
      modifies this
      ensures cells == old(cells) + [PutCell(family, qualifier, value)]
    {
      cells := cells + [PutCell(family, qualifier, value)];
    }
  }

  /** `new Put(row)` with its checks. */
  method NewPut(row: Option<Bytes>) returns (r: Result<Put>)
    ensures r.Ok? <==> CheckRow(row).Pass?
    ensures r.Err? ==> r.error == CheckRow(row).error
    ensures r.Ok? ==> fresh(r.value) && r.value.row == row.value && r.value.cells == []
  {
    var check := CheckRow(row);
    if check.Fail? {
      return Err(check.error);
    }
    var put := new Put(row.value);
    return Ok(put);
  }

  /** What a save hands to `saveOrUpdate(tableName, mutations)`. */
  datatype SaveRequest = SaveRequest(tableName: string, mutations: seq<Put>)

  /** How one save path turns a field value into cell bytes. */
  type Encoder = Value -> Result<Bytes>

  /** `order` lists the columns of the map once each: the map's iteration
      order. */
  ghost predicate IsOrderOf(order: seq<string>, props: map<string, Property>) {
    (forall c :: c in props <==> c in order)
    && forall i, j :: 0 <= i < j < |order| ==> order[i] != order[j]
  }

  /** The cell one property yields: the field's value of the entity, encoded;
      a field the entity does not have is rejected by reflection. */
  function ColumnCell(values: map<string, Value>, p: Property, family: Option<Bytes>, encode: Encoder): (r: Result<PutCell>)
    ensures p.field.name !in values ==> r == Err(Entities.NO_SUCH_FIELD)
    ensures r.Ok? <==> p.field.name in values && encode(values[p.field.name]).Ok?
    ensures r.Ok? ==> r.value == PutCell(family, p.columnBytes, encode(values[p.field.name]).value)
  {
    if p.field.name !in values then Err(Entities.NO_SUCH_FIELD)
    else match encode(values[p.field.name])
      case Err(e) => Err(e)
      case Ok(b) => Ok(PutCell(family, p.columnBytes, b))
  }

  /** The cells of the columns in iteration order; the first failing column
      ends the `forEach`. */
  function ColumnCells(values: map<string, Value>, props: map<string, Property>, order: seq<string>,
                       family: Option<Bytes>, encode: Encoder): (r: Result<seq<PutCell>>)
    requires forall c :: c in order ==> c in props
    ensures r.Ok? <==> forall i :: 0 <= i < |order| ==> ColumnCell(values, props[order[i]], family, encode).Ok?
    ensures r.Ok? ==> |r.value| == |order|
                      && forall i :: 0 <= i < |order| ==> r.value[i] == ColumnCell(values, props[order[i]], family, encode).value
    ensures r.Err? ==> exists i :: 0 <= i < |order| && ColumnCell(values, props[order[i]], family, encode) == Err(r.error)
  {
    if order == [] then Ok([])
    else
      var n := |order| - 1;
      var init := order[..n];
      assert forall i :: 0 <= i < n ==> init[i] == order[i];
      match ColumnCells(values, props, init, family, encode)
      case Err(e) => Err(e)
      case Ok(cs) =>
        match ColumnCell(values, props[order[n]], family, encode)
        case Err(e) => Err(e)
        case Ok(c) => Ok(cs + [c])
  }

  /** The `forEach` of `addColumn` calls over the column map. */
  method AddColumns(put: Put, values: map<string, Value>, props: map<string, Property>, order: seq<string>,
                    family: Option<Bytes>, encode: Encoder) returns (o: Outcome)
    requires forall c :: c in order ==> c in props
    modifies put
    ensures o.Pass? <==> ColumnCells(values, props, order, family, encode).Ok?
    ensures o.Pass? ==> put.cells == old(put.cells) + ColumnCells(values, props, order, family, encode).value
    ensures o.Fail? ==> o.error == ColumnCells(values, props, order, family, encode).error
  {
    ghost var start := put.cells;
    var i := 0;
    while i < |order|
      invariant 0 <= i <= |order|
      invariant ColumnCells(values, props, order[..i], family, encode).Ok?
      invariant put.cells == start + ColumnCells(values, props, order[..i], family, encode).value
    {
      var cell := ColumnCell(values, props[order[i]], family, encode);
      if cell.Err? {
        ColumnCellsFailAt(values, props, order, family, encode, i);
        return Fail(cell.error);
      }
      ColumnCellsSnoc(values, props, order, family, encode, i);
      put.AddColumn(cell.value.family, cell.value.qualifier, cell.value.value);
      i := i + 1;
    }
    assert order[..i] == order;
    o := Pass;
  }

  /** A column whose cell fails after a successful prefix is the failure of
      the whole loop. */
  lemma ColumnCellsFailAt(values: map<string, Value>, props: map<string, Property>, order: seq<string>,
                          family: Option<Bytes>, encode: Encoder, k: int)
    requires forall c :: c in order ==> c in props
    requires 0 <= k < |order|
    requires ColumnCells(values, props, order[..k], family, encode).Ok?
    requires ColumnCell(values, props[order[k]], family, encode).Err?
    ensures ColumnCells(values, props, order, family, encode) == Err(ColumnCell(values, props[order[k]], family, encode).error)
  {
    ColumnCellsSnoc(values, props, order, family, encode, k);
    ColumnCellsStopAt(values, props, order, family, encode, k + 1);
  }

  /** One more column extends a successful prefix by its cell, or fails. */
  lemma ColumnCellsSnoc(values: map<string, Value>, props: map<string, Property>, order: seq<string>,
                        family: Option<Bytes>, encode: Encoder, k: int)
    requires forall c :: c in order ==> c in props
    requires 0 <= k < |order|
    requires ColumnCells(values, props, order[..k], family, encode).Ok?
    ensures var cell := ColumnCell(values, props[order[k]], family, encode);
            ColumnCells(values, props, order[..k + 1], family, encode)
            == if cell.Ok? then Ok(ColumnCells(values, props, order[..k], family, encode).value + [cell.value])
               else Err(cell.error)
  {
    assert order[..k + 1][..k] == order[..k];
  }

  /** A failing prefix is the failure of the whole loop. */
  lemma {:induction false} ColumnCellsStopAt(values: map<string, Value>, props: map<string, Property>, order: seq<string>,
                                             family: Option<Bytes>, encode: Encoder, k: int)
    requires forall c :: c in order ==> c in props
    requires 0 <= k <= |order|
    requires ColumnCells(values, props, order[..k], family, encode).Err?
    ensures ColumnCells(values, props, order, family, encode) == ColumnCells(values, props, order[..k], family, encode)
    decreases |order|
  {
    if k < |order| {
      var init := order[..|order| - 1];
      assert init[..k] == order[..k];
      assert forall c :: c in init ==> c in order;
      ColumnCellsStopAt(values, props, init, family, encode, k);
      ColumnCellsFailedInit(values, props, order, family, encode);
    } else {
      assert order[..k] == order;
    }
  }

  /** One step of the above: a failing prefix without the last column. */
  lemma ColumnCellsFailedInit(values: map<string, Value>, props: map<string, Property>, order: seq<string>,
                              family: Option<Bytes>, encode: Encoder)
    requires forall c :: c in order ==> c in props
    requires order != [] && ColumnCells(values, props, order[..|order| - 1], family, encode).Err?
    ensures ColumnCells(values, props, order, family, encode) == ColumnCells(values, props, order[..|order| - 1], family, encode)
  {
  }

  /** Each column is written exactly once: when every property's bytes encode
      its own column name, the qualifiers of the cells are pairwise distinct. */
  lemma QualifiersDistinct(values: map<string, Value>, props: map<string, Property>, order: seq<string>,
                           family: Option<Bytes>, encode: Encoder)
    requires IsOrderOf(order, props)
    requires forall c :: c in props ==> props[c].columnBytes == Utf8.Encode(c)
    requires ColumnCells(values, props, order, family, encode).Ok?
    ensures forall i, j :: 0 <= i < j < |order| ==>
              ColumnCells(values, props, order, family, encode).value[i].qualifier
              != ColumnCells(values, props, order, family, encode).value[j].qualifier
  {
    var cs := ColumnCells(values, props, order, family, encode).value;
    forall i, j | 0 <= i < j < |order|
      ensures cs[i].qualifier != cs[j].qualifier
    {
      assert cs[i].qualifier == Utf8.Encode(order[i]);
      assert cs[j].qualifier == Utf8.Encode(order[j]);
      if cs[i].qualifier == cs[j].qualifier {
        Utf8.EncodeInjective(order[i], order[j]);
      }
    }
  }
}
