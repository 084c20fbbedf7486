/** The values a query result is made of: one `Datum` per cell, one `Row` per result row. */
module Datums {
  import opened Options

  /** A point of a time series; both fields may be missing. */
  datatype Point = Point(time: Option<string>, value: Option<Datum>)

  /** A cell. A row value records whether its data was set at all. */
  datatype Datum =
    | Scalar(text: string)
    | TimeSeries(points: seq<Point>)
    | Array(items: seq<Datum>)
    | RowOf(isSet: bool, cells: seq<Datum>)
    | Null
    | Unset

  type Row = seq<Datum>
}
