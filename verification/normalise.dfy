/**
 Normalisation of freshly cleaned data: annotation of every row with the
 location and the ingestion time, then the optional per-key restrictions,
 row filter first and column projection second.
 */
module Normalise {
  import opened Rows

  /** The timestamp column never collides with the coordinate columns, so
      annotating one cannot overwrite the others. */
  lemma DateColumnIsNotACoordinate(base: string)
    ensures DateColumn(base) != LatitudeColumn
    ensures DateColumn(base) != LongitudeColumn
  {
    assert DateColumn(base)[|base|] == '_';
  }

  /** A row carrying the instance's coordinates and the given timestamp. */
  predicate Annotated(row: Row, lat: real, lon: real, dateCol: string, now: int)
  {
    && LatitudeColumn in row && row[LatitudeColumn] == Num(lat)
    && LongitudeColumn in row && row[LongitudeColumn] == Num(lon)
    && dateCol in row && row[dateCol] == Time(now)
  }

  function AnnotateRow(row: Row, lat: real, lon: real, dateCol: string, now: int): Row
  {
    row[LatitudeColumn := Num(lat)][LongitudeColumn := Num(lon)][dateCol := Time(now)]
  }

  /** Sets the latitude, longitude and timestamp columns of every row of
      every dataset. Keys, row counts and every other column are kept. */
  function Annotate(data: Dataset, lat: real, lon: real, base: string, now: int): (r: Dataset)
    ensures r.Keys == data.Keys
    ensures forall k :: k in data ==> |r[k]| == |data[k]|
    ensures forall k, i :: k in data && 0 <= i < |data[k]| ==>
      && Annotated(r[k][i], lat, lon, DateColumn(base), now)
      && r[k][i].Keys == data[k][i].Keys + {LatitudeColumn, LongitudeColumn, DateColumn(base)}
    ensures forall k, i, c ::
      (k in data && 0 <= i < |data[k]| && c in data[k][i] &&
       c != LatitudeColumn && c != LongitudeColumn && c != DateColumn(base)) ==> r[k][i][c] == data[k][i][c]
  {
    DateColumnIsNotACoordinate(base);
    map k | k in data :: seq(|data[k]|, i requires 0 <= i < |data[k]| =>
      AnnotateRow(data[k][i], lat, lon, DateColumn(base), now))
  }

  /** `a` is `b` with some elements dropped and the rest kept in order. */
  predicate IsSubsequence<T(==)>(a: seq<T>, b: seq<T>)
    decreases |b|
  {
    if |a| == 0 then true
    else if |b| == 0 then false
    else if a[0] == b[0] then IsSubsequence(a[1..], b[1..])
    else IsSubsequence(a, b[1..])
  }

  /** The row filter of one key: keeps exactly the rows the predicate
      accepts, in their original order, every copy of an accepted row
      included. */
  function FilterRows(rows: seq<Row>, keep: Row -> bool): (r: seq<Row>)
    ensures IsSubsequence(r, rows)
    ensures forall row :: row in r <==> row in rows && keep(row)
    ensures forall row :: multiset(r)[row] == if keep(row) then multiset(rows)[row] else 0
    decreases |rows|
  {
    if |rows| == 0 then []
    else
      var rest := FilterRows(rows[1..], keep);
      assert forall row :: row in rows <==> row == rows[0] || row in rows[1..];
      FilterCountStep(rows, keep, rest);
      if keep(rows[0]) then
        assert ([rows[0]] + rest)[1..] == rest;
        [rows[0]] + rest
      else
        assert |rest| > 0 ==> rest[0] in rest && rest[0] != rows[0];
        rest
  }

  /** One step of the filter: the copies of a row kept from the whole input
      are those kept from the tail, plus the head when it is accepted. */
  lemma FilterCountStep(rows: seq<Row>, keep: Row -> bool, rest: seq<Row>)
    requires |rows| > 0
    requires forall row :: multiset(rest)[row] == if keep(row) then multiset(rows[1..])[row] else 0
    ensures var r := if keep(rows[0]) then [rows[0]] + rest else rest;
      forall row :: multiset(r)[row] == if keep(row) then multiset(rows)[row] else 0
  {
    assert rows == [rows[0]] + rows[1..];
  }

  /** The set of names in a column list. */
  function ColumnSet(cols: seq<string>): set<string>
  {
    set c | c in cols
  }

  /** A column list the row can be projected on. */
  predicate HasColumns(row: Row, cols: seq<string>)
  {
    forall j :: 0 <= j < |cols| ==> cols[j] in row
  }

  /** Every row of a frame can be projected on the column list. */
  predicate HasEachColumns(rows: seq<Row>, cols: seq<string>)
  {
    forall i :: 0 <= i < |rows| ==> HasColumns(rows[i], cols)
  }

  function ProjectRow(row: Row, cols: seq<string>): Row
    requires HasColumns(row, cols)
  {
    map c | c in cols :: row[c]
  }

  /** The column projection of one key: every row keeps exactly the listed
      columns with their values. A listed column missing from a row is a
      KeyError. */
  function ProjectRows(rows: seq<Row>, cols: seq<string>): (r: Result<seq<Row>, Raised>)
    ensures r.Success? <==> HasEachColumns(rows, cols)
    ensures r.Failure? ==> r.error == MissingColumn
    ensures r.Success? ==> |r.value| == |rows|
    ensures r.Success? ==> forall i :: 0 <= i < |rows| ==>
      && r.value[i].Keys == ColumnSet(cols)
      && forall c :: c in r.value[i] ==> r.value[i][c] == rows[i][c]
  {
    if HasEachColumns(rows, cols) then
      Success(seq(|rows|, i requires 0 <= i < |rows| => ProjectRow(rows[i], cols)))
    else
      Failure(MissingColumn)
  }

  /** First stage: filter the keys that have a row predicate. */
  function FilterStage(data: Dataset, filters: map<string, Row -> bool>): (r: Result<Dataset, Raised>)
    ensures r.Success? <==> filters.Keys <= data.Keys
    ensures r.Failure? ==> r.error == MissingDataKey
    ensures r.Success? ==> r.value.Keys == data.Keys
    ensures r.Success? ==> forall k :: k in filters ==> r.value[k] == FilterRows(data[k], filters[k])
    ensures r.Success? ==> forall k :: k in data && k !in filters ==> r.value[k] == data[k]
  {
    if filters.Keys <= data.Keys then
      Success(map k | k in data :: if k in filters then FilterRows(data[k], filters[k]) else data[k])
    else
      Failure(MissingDataKey)
  }

  /** Second stage: project the keys that have a column list. */
  function ProjectStage(data: Dataset, columns: map<string, seq<string>>): (r: Result<Dataset, Raised>)
    ensures r.Success? <==> columns.Keys <= data.Keys && forall k :: k in columns ==> ProjectRows(data[k], columns[k]).Success?
    ensures r.Failure? ==> r.error == MissingDataKey || r.error == MissingColumn
    ensures r.Success? ==> r.value.Keys == data.Keys
    ensures r.Success? ==> forall k :: k in columns ==> r.value[k] == ProjectRows(data[k], columns[k]).value
    ensures r.Success? ==> forall k :: k in data && k !in columns ==> r.value[k] == data[k]
  {
    if !(columns.Keys <= data.Keys) then Failure(MissingDataKey)
    else if exists k :: k in columns && ProjectRows(data[k], columns[k]).Failure? then Failure(MissingColumn)
    else Success(map k | k in data :: if k in columns then ProjectRows(data[k], columns[k]).value else data[k])
  }

  /** Both restrictions, filter before projection. The key set is kept; a
      key with no restriction passes through unchanged; a filtered key keeps
      an in-order subsequence of its rows, namely every copy of each row its
      predicate accepts; a
      projected key's rows have exactly the listed columns, with the values
      of the rows that survived the filter. It fails exactly when a
      restriction names a key that has no dataset, or a projection names a
      column some surviving row lacks. */
  function Restrict(data: Dataset, filters: map<string, Row -> bool>, columns: map<string, seq<string>>): (r: Result<Dataset, Raised>)
    ensures r.Failure? <==>
      || !(filters.Keys <= data.Keys)
      || !(columns.Keys <= data.Keys)
      || (exists k :: k in columns && !HasEachColumns(FilterStage(data, filters).value[k], columns[k]))
    ensures r.Failure? ==> r.error == MissingDataKey || r.error == MissingColumn
    ensures r.Success? ==> r.value.Keys == data.Keys
    ensures r.Success? ==> forall k :: k in data && k !in filters && k !in columns ==> r.value[k] == data[k]
    ensures r.Success? ==> forall k :: k in filters && k !in columns ==>
      && IsSubsequence(r.value[k], data[k])
      && (forall row :: row in r.value[k] <==> row in data[k] && filters[k](row))
      && forall row :: multiset(r.value[k])[row] == if filters[k](row) then multiset(data[k])[row] else 0
    ensures r.Success? ==> forall k :: k in columns ==>
      var kept := FilterStage(data, filters).value[k];
      && |r.value[k]| == |kept|
      && forall i :: 0 <= i < |kept| ==>
           && r.value[k][i].Keys == ColumnSet(columns[k])
           && forall c :: c in r.value[k][i] ==> r.value[k][i][c] == kept[i][c]
  {
    match FilterStage(data, filters)
    case Failure(e) => Failure(e)
    case Success(filtered) => ProjectStage(filtered, columns)
  }

  /** The filter `value > 10` of the restriction example below. */
  predicate LargeValue(row: Row)
  {
    "value" in row && row["value"].Num? && row["value"].x > 10.0
  }

  /** The filter stage of the example below keeps only the large row. */
  lemma RestrictionOrderFilterStage(small: Row, large: Row)
    requires small == map["value" := Num(5.0), "latitude" := Num(1.0)]
    requires large == map["value" := Num(20.0), "latitude" := Num(2.0)]
    ensures FilterStage(map["k" := [small, large]], map["k" := LargeValue]) == Success(map["k" := [large]])
  {
    assert FilterRows([large], LargeValue) == [large];
    assert FilterRows([small, large], LargeValue) == [large] by {
      assert [small, large][1..] == [large];
    }
    assert FilterStage(map["k" := [small, large]], map["k" := LargeValue]).value == map["k" := [large]];
  }

  /** Filter `value > 10`, then projection on `value` and `latitude`: of the
      rows {value: 5, latitude: 1} and {value: 20, latitude: 2} only the
      second survives, unchanged. */
  lemma RestrictionOrderExample()
    ensures
      var small: Row := map["value" := Num(5.0), "latitude" := Num(1.0)];
      var large: Row := map["value" := Num(20.0), "latitude" := Num(2.0)];
      Restrict(map["k" := [small, large]], map["k" := LargeValue], map["k" := ["value", "latitude"]])
        == Success(map["k" := [large]])
  {
    var small: Row := map["value" := Num(5.0), "latitude" := Num(1.0)];
    var large: Row := map["value" := Num(20.0), "latitude" := Num(2.0)];
    RestrictionOrderFilterStage(small, large);
    RestrictionOrderProjectStage(large);
  }

  /** The projection stage of the example above keeps the surviving row
      whole, since it has exactly the listed columns. */
  lemma RestrictionOrderProjectStage(large: Row)
    requires large == map["value" := Num(20.0), "latitude" := Num(2.0)]
    ensures ProjectStage(map["k" := [large]], map["k" := ["value", "latitude"]]) == Success(map["k" := [large]])
  {
    assert ProjectRow(large, ["value", "latitude"]) == large;
    assert ProjectRows([large], ["value", "latitude"]).value == [large];
    assert ProjectStage(map["k" := [large]], map["k" := ["value", "latitude"]]).value == map["k" := [large]];
  }

  /** Every row that has the column holds the value in it. */
  predicate ColumnEverywhere(data: Dataset, col: string, v: Value)
  {
    forall k, row :: k in data && row in data[k] && col in row ==> row[col] == v
  }

  /** The restrictions drop rows and columns but never change a value. */
  lemma RestrictKeepsColumnValue(data: Dataset, filters: map<string, Row -> bool>, columns: map<string, seq<string>>,
                                 col: string, v: Value)
    requires ColumnEverywhere(data, col, v)
    requires Restrict(data, filters, columns).Success?
    ensures ColumnEverywhere(Restrict(data, filters, columns).value, col, v)
  {
    var f := FilterStage(data, filters).value;
    assert ColumnEverywhere(f, col, v);
    var d := Restrict(data, filters, columns).value;
    forall k, row | k in d && row in d[k] && col in row
      ensures row[col] == v
    {
      if k in columns {
        var i :| 0 <= i < |d[k]| && d[k][i] == row;
        assert f[k][i] in f[k];
      }
    }
  }
}
