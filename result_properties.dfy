/**
 What a caller of `formatDimensionsByDate` can rely on, stated about the
 whole result: when it fails, the header names, the aggregate statistics,
 the zero-row marker, the per-row `metrics`, and the `dimensions` and
 `totalByDimensions` tables for one and for several dimension headers.
 */
module ResultProperties {
  import opened Report
  import opened RequestExpressions
  import opened FlattenerSpec
  import opened FlattenerProperties

  /** Flattening fails exactly when the report claims rows and one of them has
      its inner loop run with no metric entry; it fails at the first such row. */
  lemma FlattenFailsAtFirstCrash(report: Report)
    ensures Flatten(report).Failed? <==>
              report.rowCount > 0 &&
              exists j :: 0 <= j < |report.rows| && Crashes(report.rows[j], |report.dimensionHeaders|)
    ensures Flatten(report).Failed? ==>
              var k := Flatten(report).rowIndex;
              && k < |report.rows|
              && |report.rows[k].metrics| == 0
              && Visits(report.rows[k], |report.dimensionHeaders|)
              && forall j :: 0 <= j < k ==> !Crashes(report.rows[j], |report.dimensionHeaders|)
  {
  }

  /** `dimensionNames` has one entry per dimension header, in order, with the
      first three characters cut off; `metricNames` is the metric header names
      unchanged. */
  lemma HeaderNames(report: Report)
    requires Flatten(report).Flattened?
    ensures var names := Flatten(report).result.dimensionNames;
      && |names| == |report.dimensionHeaders|
      && forall k :: 0 <= k < |names| ==>
           (|report.dimensionHeaders[k]| >= 3 ==> names[k] == report.dimensionHeaders[k][3..]) &&
           (|report.dimensionHeaders[k]| < 3 ==> names[k] == "")
    ensures var names := Flatten(report).result.metricNames;
      && |names| == |report.metricHeaders|
      && forall k :: 0 <= k < |names| ==> names[k] == report.metricHeaders[k].name
  {
  }

  /** A dimension name sent with the namespace comes back as the bare name. */
  lemma DimensionNameRoundTrip(e: string)
    ensures StripPrefix(CreateDimension(e).name) == e
  {
  }

  /** A metric's alias is its expression without the namespace. */
  lemma MetricAliasRoundTrip(e: string)
    ensures StripPrefix(CreateMetric(e).expression) == CreateMetric(e).alias
  {
  }

  /** When the backend echoes the requested dimensions as the dimension headers,
      `dimensionNames` lists exactly the names the caller asked for, in order. */
  lemma RequestedDimensionNamesComeBack(x: Expressions, report: Report)
    requires GetDimensions(x).Some?
    requires report.dimensionHeaders == DimensionNamesSent(GetDimensions(x).value)
    requires Flatten(report).Flattened?
    ensures Flatten(report).result.dimensionNames == Names(x)
  {
  }

  /** `total`, `min` and `max` are the first metric's values in the first date
      range of the backend's aggregate statistics, or null when there is none. */
  lemma AggregatesOfFirstMetric(report: Report)
    requires Flatten(report).Flattened?
    ensures var d := Flatten(report).result.dateRangeValues;
      && (d.total == if |report.totals| > 0 && |report.totals[0]| > 0 then Number(report.totals[0][0]) else Null)
      && (d.min == if |report.minimums| > 0 && |report.minimums[0]| > 0 then Number(report.minimums[0][0]) else Null)
      && (d.max == if |report.maximums| > 0 && |report.maximums[0]| > 0 then Number(report.maximums[0][0]) else Null)
  {
  }

  /** A report that claims no rows gives the `[0]` marker for `dimensions` and
      `metrics` and no secondary totals, whatever its headers and rows. */
  lemma ZeroRowsMarker(report: Report)
    requires report.rowCount <= 0
    ensures Flatten(report).Flattened?
    ensures Flatten(report).result.dimensions == Sentinel
    ensures Flatten(report).result.metrics == map[0 := Number(0)]
    ensures Flatten(report).result.dateRangeValues.totalByDimensions == map[]
  {
  }

  /** With rows, `metrics` has an entry for row `j` exactly when the row's inner
      loop runs (a dimension value at index 1 with several headers, at index 0
      with one header, never with none), holding the row's first metric value. */
  lemma MetricsPerRow(report: Report)
    requires report.rowCount > 0 && Flatten(report).Flattened?
    ensures var metrics, n := Flatten(report).result.metrics, |report.dimensionHeaders|;
      && (forall j: nat :: j in metrics <==> j < |report.rows| && Visits(report.rows[j], n))
      && (forall j: nat | j in metrics :: metrics[j] == RowValue(report.rows[j]))
  {
    RowsAccMetrics(report.rows, |report.dimensionHeaders|, |report.rows|);
  }

  /** With one dimension header and rows that all carry a dimension value,
      `metrics` has exactly one entry per row, in row order. */
  lemma OneHeaderMetricsForEveryRow(report: Report)
    requires report.rowCount > 0 && Flatten(report).Flattened?
    requires |report.dimensionHeaders| == 1
    requires forall j :: 0 <= j < |report.rows| ==> |report.rows[j].dimensions| >= 1
    ensures forall j: nat :: j in Flatten(report).result.metrics <==> j < |report.rows|
    ensures forall j: nat | j < |report.rows| :: Flatten(report).result.metrics[j] == RowValue(report.rows[j])
  {
    MetricsPerRow(report);
  }

  /** With at most one dimension header and rows, `dimensions` maps each primary
      value some row was filed under to the value of the last such row, and no
      secondary totals are kept. */
  lemma SingleHeaderDimensions(report: Report)
    requires report.rowCount > 0 && Flatten(report).Flattened?
    requires |report.dimensionHeaders| <= 1
    ensures Flatten(report).result.dimensions.ByPrimary?
    ensures var values, rows, n := Flatten(report).result.dimensions.values, report.rows, |report.dimensionHeaders|;
      && (forall p :: p in values <==> exists j :: 0 <= j < |rows| && WritesPrimary(rows[j], n, p))
      && (forall j: nat, p | LastToWritePrimary(rows, n, |rows|, j, p) :: p in values && values[p] == RowValue(rows[j]))
    ensures Flatten(report).result.dateRangeValues.totalByDimensions == map[]
  {
    var rows, n := report.rows, |report.dimensionHeaders|;
    RowsAccPrimary(rows, n, |rows|);
    var totals := RowsAcc(rows, n, |rows|).totalByDimensions;
    forall s | s in totals
      ensures false
    {
      RowsAccTotalKey(rows, n, |rows|, s);
    }
  }

  /** With several dimension headers and rows, `dimensions[p][s]` exists exactly
      when some row wrote that pair and holds the value of the last such row;
      `totalByDimensions[s]` exists exactly when some row visited `s` and holds
      the sum of the rows' first metric values, once per visit. */
  lemma SeveralHeadersDimensions(report: Report)
    requires report.rowCount > 0 && Flatten(report).Flattened?
    requires |report.dimensionHeaders| > 1
    ensures Flatten(report).result.dimensions.ByPrimaryAndSecondary?
    ensures var pairs, rows, n := Flatten(report).result.dimensions.pairs, report.rows, |report.dimensionHeaders|;
      && (forall p :: p in pairs <==> exists j :: 0 <= j < |rows| && WritesKey(rows[j], n, p))
      && (forall p, s | p in pairs :: s in pairs[p] <==> exists j :: 0 <= j < |rows| && WritesPair(rows[j], n, p, s))
      && (forall j: nat, p, s | LastToWritePair(rows, n, |rows|, j, p, s) ::
            p in pairs && s in pairs[p] && pairs[p][s] == RowValue(rows[j]))
    ensures var totals, rows, n := Flatten(report).result.dateRangeValues.totalByDimensions, report.rows, |report.dimensionHeaders|;
      && (forall s :: s in totals <==> exists j :: 0 <= j < |rows| && s in Secondaries(rows[j], n))
      && (forall s | s in totals :: totals[s] == SecondaryTotal(rows, n, s, |rows|))
  {
    var rows, n := report.rows, |report.dimensionHeaders|;
    RowsAccPairs(rows, n, |rows|);
    var totals := RowsAcc(rows, n, |rows|).totalByDimensions;
    forall s
      ensures s in totals <==> exists j :: 0 <= j < |rows| && s in Secondaries(rows[j], n)
      ensures s in totals ==> totals[s] == SecondaryTotal(rows, n, s, |rows|)
    {
      RowsAccTotalKey(rows, n, |rows|, s);
      RowsAccTotalValue(rows, n, |rows|, s);
    }
  }

  /** Reference sum for a report whose rows each carry a primary and one
      secondary value: the first metric values of the first `k` rows whose
      secondary value is `s`. */
  function SumOfRowsWithSecondary(rows: seq<Row>, s: string, k: nat): int
    requires k <= |rows|
    requires forall j :: 0 <= j < |rows| ==> |rows[j].dimensions| == 2
  {
    if k == 0 then 0
    else SumOfRowsWithSecondary(rows, s, k - 1)
         + (if rows[k - 1].dimensions[1] == s then RowValue(rows[k - 1]).AsNumber() else 0)
  }

  /** With two dimension headers and two values per row, the accumulated total
      of a secondary value is the plain sum over the rows sharing it. */
  lemma {:induction false} TwoHeaderSecondaryTotal(rows: seq<Row>, s: string, k: nat)
    requires k <= |rows|
    requires forall j :: 0 <= j < |rows| ==> |rows[j].dimensions| == 2
    ensures SecondaryTotal(rows, 2, s, k) == SumOfRowsWithSecondary(rows, s, k)
  {
    if k > 0 {
      TwoHeaderSecondaryTotal(rows, s, k - 1);
      var row := rows[k - 1];
      assert Secondaries(row, 2) == [row.dimensions[1]];
      if row.dimensions[1] == s {
        assert multiset(Secondaries(row, 2))[s] == 1;
      } else {
        assert multiset(Secondaries(row, 2))[s] == 0;
      }
    }
  }

  /** For a two-dimension report, `totalByDimensions[s]` is the sum of the
      first metric values of all rows whose secondary value is `s`. */
  lemma TwoHeaderTotals(report: Report)
    requires report.rowCount > 0 && Flatten(report).Flattened?
    requires |report.dimensionHeaders| == 2
    requires forall j :: 0 <= j < |report.rows| ==> |report.rows[j].dimensions| == 2
    ensures forall s | s in Flatten(report).result.dateRangeValues.totalByDimensions ::
              Flatten(report).result.dateRangeValues.totalByDimensions[s]
              == SumOfRowsWithSecondary(report.rows, s, |report.rows|)
  {
    SeveralHeadersDimensions(report);
    forall s {
      TwoHeaderSecondaryTotal(report.rows, s, |report.rows|);
    }
  }

  /** A report of two days with one dimension and one metric. */
  const TwoDays: Report := Report(
    ["ga:date"], [MetricHeaderEntry("sessions", "INTEGER")],
    [[30]], [[10]], [[20]], 2,
    [Row(["20240101"], [[10]]), Row(["20240102"], [[20]])])

  /** The flat result of the two-day report, entry by entry. */
  lemma TwoDaysFlattened()
    ensures Flatten(TwoDays) == Flattened(FlatResult(
              ["date"], ["sessions"], DateRangeValues(Number(30), Number(10), Number(20), map[]),
              ByPrimary(map["20240101" := Number(10), "20240102" := Number(20)]),
              map[0 := Number(10), 1 := Number(20)]))
  {
  }
}
