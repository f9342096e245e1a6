/**
 The values exchanged with the analytics reporting backend: the report a
 batch call returns (column headers, aggregate statistics, rows) and the flat
 result that `formatDimensionsByDate` builds from it.
 */
module Report {

  /** A cell of a report as PHP holds it once read: a number, or null, which is
      what PHP yields when an array is indexed past its end. */
  datatype Value = Null | Number(n: int) {
    /** PHP arithmetic reads null as 0. */
    function AsNumber(): int {
      if Null? then 0 else n
    }
  }

  /** An entry of the metric header: the metric's name and its value type. */
  datatype MetricHeaderEntry = MetricHeaderEntry(name: string, valueType: string)

  /** One row of a report: its dimension values, in header order, and for each
      date range of the request the list of its metric values. */
  datatype Row = Row(dimensions: seq<string>, metrics: seq<seq<int>>)

  /** A report as the backend returns it. `totals`, `minimums` and `maximums`
      hold, per date range, one value per metric; `rowCount` is the count the
      backend reports, which need not agree with `rows`. */
  datatype Report = Report(
    dimensionHeaders: seq<string>,
    metricHeaders: seq<MetricHeaderEntry>,
    totals: seq<seq<int>>,
    minimums: seq<seq<int>>,
    maximums: seq<seq<int>>,
    rowCount: int,
    rows: seq<Row>)

  /** `$x[0]['values'][0]` (or `$x[0]->getValues()[0]`) for a list of date
      ranges: the first metric's value in the first date range, or null. */
  function FirstValue(ranges: seq<seq<int>>): Value {
    if |ranges| > 0 && |ranges[0]| > 0 then Number(ranges[0][0]) else Null
  }

  /** The statistics block of the result. `totalByDimensions` maps a secondary
      dimension value to the sum accumulated under it. */
  datatype DateRangeValues = DateRangeValues(
    total: Value,
    min: Value,
    max: Value,
    totalByDimensions: map<string, int>)

  /** The `dimensions` entry of the result. With zero rows it is the PHP list
      `[0]`; with one dimension header (or none) it maps a primary dimension
      value to a metric value; with more it maps a primary value, then a
      secondary value, to a metric value. */
  datatype DimensionTable =
    | Sentinel
    | ByPrimary(values: map<string, Value>)
    | ByPrimaryAndSecondary(pairs: map<string, map<string, Value>>)

  /** The flat result. `metrics` is keyed by row index: a row whose inner loop
      never runs leaves no entry. */
  datatype FlatResult = FlatResult(
    dimensionNames: seq<string>,
    metricNames: seq<string>,
    dateRangeValues: DateRangeValues,
    dimensions: DimensionTable,
    metrics: map<nat, Value>)

  /** Flattening either returns a result or stops with PHP's fatal error for
      calling `getValues()` on the missing first metric entry of a row. */
  datatype Outcome = Flattened(result: FlatResult) | Failed(rowIndex: nat)
}
