/**
 `formatDimensionsByDate`: builds the flat result from a fetched report step
 by step, with the same loops, bounds and lazily initialised entries as the
 PHP code, and is proved to produce `Flatten(report)`.
 */
module Flattener {
  import opened Report
  import opened FlattenerSpec

  /** The foreach loop over the dimension headers that fills `dimensionNames`. */
  method StripDimensionHeaders(headers: seq<string>) returns (names: seq<string>)
    ensures names == DimensionNames(headers)
  {
    names := [];
    for k := 0 to |headers|
      invariant |names| == k
      invariant forall q :: 0 <= q < k ==> names[q] == StripPrefix(headers[q])
    {
      names := names + [StripPrefix(headers[k])];
    }
  }

  /** The foreach loop over the metric header entries that fills `metricNames`. */
  method CopyMetricNames(entries: seq<MetricHeaderEntry>) returns (names: seq<string>)
    ensures names == MetricNames(entries)
  {
    names := [];
    for k := 0 to |entries|
      invariant |names| == k
      invariant forall q :: 0 <= q < k ==> names[q] == entries[q].name
    {
      names := names + [entries[k].name];
    }
  }

  /** Visiting one more secondary value is one more `PairStep`. */
  lemma PairsAccExtend(acc: Acc, j: nat, row: Row, i: nat)
    requires 1 <= i < |row.dimensions|
    ensures PairsAcc(acc, j, row.dimensions[0], row.dimensions[1..i + 1], RowValue(row))
         == PairStep(if i > 1 then PairsAcc(acc, j, row.dimensions[0], row.dimensions[1..i], RowValue(row)) else acc,
                     j, row.dimensions[0], row.dimensions[i], RowValue(row))
  {
    assert row.dimensions[1..i + 1][..i - 1] == row.dimensions[1..i];
  }

  /** The body of the inner loop with several dimension headers: set
      `dimensions[primary][secondary]`, start `totalByDimensions[secondary]` at
      0 when it is missing and add the value to it, and set `metrics[rowIndex]`. */
  method FileUnderPair(acc: Acc, rowIndex: nat, primary: string, secondary: string, value: Value)
    returns (acc': Acc)
    ensures acc' == PairStep(acc, rowIndex, primary, secondary, value)
  {
    var byPair, totalByDimensions, metrics := acc.byPair, acc.totalByDimensions, acc.metrics;
    var inner := if primary in byPair then byPair[primary] else map[];
    byPair := byPair[primary := inner[secondary := value]];
    if secondary !in totalByDimensions {
      totalByDimensions := totalByDimensions[secondary := 0];
    }
    totalByDimensions := totalByDimensions[secondary := totalByDimensions[secondary] + value.AsNumber()];
    metrics := metrics[rowIndex := value];
    acc' := Acc(acc.byPrimary, byPair, totalByDimensions, metrics);
  }

  /** The body of the inner loop with at most one dimension header: set
      `dimensions[primary]` and `metrics[rowIndex]`. */
  method FileUnderPrimary(acc: Acc, rowIndex: nat, primary: string, value: Value) returns (acc': Acc)
    ensures acc' == PrimaryStep(acc, rowIndex, primary, value)
  {
    var byPrimary, metrics := acc.byPrimary, acc.metrics;
    byPrimary := byPrimary[primary := value];
    metrics := metrics[rowIndex := value];
    acc' := Acc(byPrimary, acc.byPair, acc.totalByDimensions, metrics);
  }

  /** The inner loop over a row's dimension values when the report has more
      than one dimension header: from index 1 while `$i <= count($dimensionHeaders)
      && $i < count($dimensions)`, each pass files the row's first metric value
      under the pair of the primary value and the value at index `$i`. */
  method FormatRowByPairs(before: Acc, rowIndex: nat, row: Row, n: nat) returns (after: Acc, crashed: bool)
    requires n > 1
    ensures crashed <==> Crashes(row, n)
    ensures !crashed ==> after == RowAcc(before, rowIndex, row, n)
  {
    var dimensions := row.dimensions;
    after := before;
    var i := 1;
    while i <= n && i < |dimensions|
      invariant 1 <= i
      invariant i > 1 ==> i <= n + 1 && i <= |dimensions| && |row.metrics| > 0
      invariant after == if i > 1 then PairsAcc(before, rowIndex, dimensions[0], dimensions[1..i], RowValue(row)) else before
    {
      if |row.metrics| == 0 {
        // `$metrics[0]` is null and `getValues()` is called on it
        return before, true;
      }
      var value := FirstValue(row.metrics);
      PairsAccExtend(before, rowIndex, row, i);
      after := FileUnderPair(after, rowIndex, dimensions[0], dimensions[i], value);
      i := i + 1;
    }
    crashed := false;
  }

  /** The inner loop over a row's dimension values when the report has at most
      one dimension header: from index 0 while `$i < count($dimensionHeaders)
      && $i < count($dimensions)`, that is at most once, it files the row's
      first metric value under the primary value. */
  method FormatRowByPrimary(before: Acc, rowIndex: nat, row: Row, n: nat) returns (after: Acc, crashed: bool)
    requires n <= 1
    ensures crashed <==> Crashes(row, n)
    ensures !crashed ==> after == RowAcc(before, rowIndex, row, n)
  {
    var dimensions := row.dimensions;
    after := before;
    var i := 0;
    while i < n && i < |dimensions|
      invariant 0 <= i <= n
      invariant i > 0 ==> |dimensions| > 0 && |row.metrics| > 0
      invariant after == if i > 0 then PrimaryStep(before, rowIndex, dimensions[0], RowValue(row)) else before
    {
      if |row.metrics| == 0 {
        // `$metrics[0]` is null and `getValues()` is called on it
        return before, true;
      }
      var value := FirstValue(row.metrics);
      after := FileUnderPrimary(after, rowIndex, dimensions[0], value);
      i := i + 1;
    }
    crashed := false;
  }

  /** `formatDimensionsByDate`: the header names, the aggregate statistics, and
      then either the row loop (when the report claims rows) or the `[0]`
      marker. A row that crashes ends the whole call. */
  method FormatDimensionsByDate(report: Report) returns (o: Outcome)
    ensures o == Flatten(report)
  {
    var dimensionHeaders := report.dimensionHeaders;
    var n := |dimensionHeaders|;

    var dimensionNames := StripDimensionHeaders(dimensionHeaders);
    var metricNames := CopyMetricNames(report.metricHeaders);

    var total := FirstValue(report.totals);
    var min := FirstValue(report.minimums);
    var max := FirstValue(report.maximums);

    var acc := EmptyAcc;
    var dimensions: DimensionTable;
    var metrics: map<nat, Value>;
    if report.rowCount > 0 {
      var rows := report.rows;
      for rowIndex := 0 to |rows|
        invariant acc == RowsAcc(rows, n, rowIndex)
        invariant forall j :: 0 <= j < rowIndex ==> !Crashes(rows[j], n)
      {
        var crashed;
        if n > 1 {
          acc, crashed := FormatRowByPairs(acc, rowIndex, rows[rowIndex], n);
        } else {
          acc, crashed := FormatRowByPrimary(acc, rowIndex, rows[rowIndex], n);
        }
        if crashed {
          assert FirstCrash(rows, n) == rowIndex;
          return Failed(rowIndex);
        }
      }
      dimensions := if n > 1 then ByPrimaryAndSecondary(acc.byPair) else ByPrimary(acc.byPrimary);
      metrics := acc.metrics;
    } else {
      dimensions := Sentinel;
      metrics := map[0 := Number(0)];
    }

    o := Flattened(FlatResult(dimensionNames, metricNames,
                              DateRangeValues(total, min, max, acc.totalByDimensions),
                              dimensions, metrics));
  }
}
