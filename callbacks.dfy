/** `RowMapper`'s default `mapRow(Result[])`: maps every row of a batch, in
    order and with its row number, and keeps only the non-null objects. */
module RowMapper {
  import opened JavaLang

  /** The per-row `mapRow(result, rowNum)` a caller supplies: it yields an
      object, null, or an HbaseException. */
  type RowMapFn<!R, T> = (R, int) -> Result<Option<T>>

  /** Every row mapped with its index as row number, first to last; the first
      exception ends the batch. */
  function MapAll<R, T>(results: seq<R>, mapRow: RowMapFn<R, T>): (r: Result<seq<Option<T>>>)
    ensures r.Ok? ==> |r.value| == |results|
    ensures r.Ok? ==> forall i :: 0 <= i < |results| ==> mapRow(results[i], i) == Ok(r.value[i])
    ensures r.Err? ==> exists i :: 0 <= i < |results| && mapRow(results[i], i) == Err(r.error)
                                   && forall j :: 0 <= j < i ==> mapRow(results[j], j).Ok?
    ensures (forall i :: 0 <= i < |results| ==> mapRow(results[i], i).Ok?) ==> r.Ok?
  {
    if results == [] then Ok([])
    else
      var n := |results| - 1;
      var init := results[..n];
      assert forall i :: 0 <= i < n ==> init[i] == results[i];
      match MapAll(init, mapRow)
      case Err(e) => Err(e)
      case Ok(xs) =>
        match mapRow(results[n], n)
        case Err(e) => Err(e)
        case Ok(x) => Ok(xs + [x])
  }

  /** The objects of a list, nulls dropped, order kept. */
  function Present<T>(xs: seq<Option<T>>): (ys: seq<T>)
    ensures |ys| <= |xs|
    ensures forall i :: 0 <= i < |ys| ==> Some(ys[i]) in xs
    ensures forall i :: 0 <= i < |xs| && xs[i].Some? ==> xs[i].value in ys
  {
    if xs == [] then []
    else if xs[0].None? then Present(xs[1..])
    else [xs[0].value] + Present(xs[1..])
  }

  /** Dropping nulls distributes over concatenation. */
  lemma {:induction false} PresentAppend<T>(a: seq<Option<T>>, b: seq<Option<T>>)
    ensures Present(a + b) == Present(a) + Present(b)
  {
    if a != [] {
      assert (a + b)[0] == a[0] && (a + b)[1..] == a[1..] + b;
      PresentCons(a + b);
      PresentCons(a);
      PresentAppend(a[1..], b);
    } else {
      assert a + b == b;
    }
  }

  /** The first entry is kept iff it is not null. */
  lemma PresentCons<T>(xs: seq<Option<T>>)
    requires xs != []
    ensures Present(xs) == (if xs[0].None? then [] else [xs[0].value]) + Present(xs[1..])
  {
  }

  /** Nothing is dropped exactly when no row mapped to null. */
  lemma {:induction false} PresentKeepsAll<T>(xs: seq<Option<T>>)
    ensures |Present(xs)| == |xs| <==> forall i :: 0 <= i < |xs| ==> xs[i].Some?
    ensures (forall i :: 0 <= i < |xs| ==> xs[i].Some?) ==>
              forall i :: 0 <= i < |xs| ==> Present(xs)[i] == xs[i].value
  {
    if xs != [] {
      PresentCons(xs);
      PresentKeepsAll(xs[1..]);
      assert forall i :: 1 <= i < |xs| ==> xs[1..][i - 1] == xs[i];
    }
  }

  /** `mapRow(Result[] results)`. */
  method MapRows<R, T>(mapRow: RowMapFn<R, T>, results: array<R>) returns (r: Result<seq<T>>)
    ensures r.Ok? <==> MapAll(results[..], mapRow).Ok?
    ensures r.Ok? ==> r.value == Present(MapAll(results[..], mapRow).value)
    ensures r.Err? ==> r.error == MapAll(results[..], mapRow).error
  {
    var rs: seq<T> := [];
    var rowNum := 0;
    while rowNum < results.Length
      invariant 0 <= rowNum <= results.Length
      invariant MapAll(results[..rowNum], mapRow).Ok?
      invariant rs == Present(MapAll(results[..rowNum], mapRow).value)
    {
      assert results[..rowNum + 1][..rowNum] == results[..rowNum];
      var x := mapRow(results[rowNum], rowNum);
      if x.Err? {
        assert results[..rowNum + 1] == results[..][..rowNum + 1];
        MapAllStopsAt(results[..], mapRow, rowNum + 1);
        return Err(x.error);
      }
      PresentAppend(MapAll(results[..rowNum], mapRow).value, [x.value]);
      if x.value.Some? {
        rs := rs + [x.value.value];
      }
      rowNum := rowNum + 1;
    }
    assert results[..rowNum] == results[..];
    r := Ok(rs);
  }

  /** A failure within a prefix is the failure of the whole batch. */
  lemma {:induction false} MapAllStopsAt<R, T>(results: seq<R>, mapRow: RowMapFn<R, T>, k: int)
    requires 0 <= k <= |results|
    requires MapAll(results[..k], mapRow).Err?
    ensures MapAll(results, mapRow) == MapAll(results[..k], mapRow)
    decreases |results|
  {
    if k < |results| {
      var init := results[..|results| - 1];
      assert init[..k] == results[..k];
      MapAllStopsAt(init, mapRow, k);
      MapAllFailedInit(results, mapRow);
    } else {
      assert results[..k] == results;
    }
  }

  /** One step of the above: a failing batch without its last row. */
  lemma MapAllFailedInit<R, T>(results: seq<R>, mapRow: RowMapFn<R, T>)
    requires results != [] && MapAll(results[..|results| - 1], mapRow).Err?
    ensures MapAll(results, mapRow) == MapAll(results[..|results| - 1], mapRow)
  {
  }
}

/** `RowMapperResultsExtractor`: wraps a row mapper and collects what it
    returns for every row of a scan, nulls included. */
module RowMapperResultsExtractor {
  import opened JavaLang
  import opened RowMapper

  /** The IllegalArgumentException of the constructor's null check. */
  const MAPPER_REQUIRED := IllegalArgument("RowMapper is required")

  datatype Extractor<!R, T> = Extractor(rowMapper: RowMapFn<R, T>) {

    /** `extractData(results)`: one entry per row, in scan order. */
    method ExtractData(results: seq<R>) returns (r: Result<seq<Option<T>>>)
      ensures r == MapAll(results, rowMapper)
      ensures r.Ok? ==> |r.value| == |results|
    {
      var rs: seq<Option<T>> := [];
      var rowNum := 0;
      while rowNum < |results|
        invariant 0 <= rowNum <= |results|
        invariant MapAll(results[..rowNum], rowMapper) == Ok(rs)
      {
        assert results[..rowNum + 1][..rowNum] == results[..rowNum];
        var x := rowMapper(results[rowNum], rowNum);
        if x.Err? {
          MapAllStopsAt(results, rowMapper, rowNum + 1);
          return Err(x.error);
        }
        rs := rs + [x.value];
        rowNum := rowNum + 1;
      }
      assert results[..rowNum] == results;
      r := Ok(rs);
    }
  }

  /** `new RowMapperResultsExtractor(rowMapper)`: a null mapper is refused. */
  function New<R, T>(rowMapper: Option<RowMapFn<R, T>>): (r: Result<Extractor<R, T>>)
    ensures r.Err? <==> rowMapper.None?
    ensures r.Err? ==> r.error == MAPPER_REQUIRED
    ensures r.Ok? ==> r.value.rowMapper == rowMapper.value
  {
    if rowMapper.None? then Err(MAPPER_REQUIRED) else Ok(Extractor(rowMapper.value))
  }
}
