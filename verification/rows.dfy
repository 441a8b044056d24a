/**
 The values the refresh protocol moves around: scalar cell values, rows
 (column name to value), per-key datasets, and the result wrappers that
 replace the source's exceptions.
 */
module Rows {

  /** A scalar cell. Coordinates are `Num`, ingestion timestamps are `Time`
      (whole seconds), anything else a data source produces is `Num` or `Text`. */
  datatype Value = Num(x: real) | Time(t: int) | Text(s: string)

  /** One row of a table: a mapping from column name to value. */
  type Row = map<string, Value>

  /** Per-key tabular data, as produced by the cleaning hook. */
  type Dataset = map<string, seq<Row>>

  datatype Option<+T> = None | Some(value: T)

  datatype Result<+T, +E> = Success(value: T) | Failure(error: E)

  /** The exceptions the source raises and does not catch.
      - EmptyStore: the "DB should not be empty" KeyError of the per-key read;
      - MissingDataKey: a dataset key named by the configuration is absent (KeyError);
      - MissingColumn: a projection names a column a row does not have (KeyError);
      - NoDataKeys: the first configured key is asked for but there is none (IndexError). */
  datatype Raised = EmptyStore | MissingDataKey | MissingColumn | NoDataKeys

  /** The three columns every annotated row carries. */
  const LatitudeColumn: string := "latitude"
  const LongitudeColumn: string := "longitude"

  /** The timestamp column is named after the BASE table, whichever physical
      table the row lands in. */
  function DateColumn(base: string): string
  {
    base + "_date"
  }
}
