/**
 The meaning of `formatDimensionsByDate` as functions: which dimension indices
 the inner loop of a row visits, the effect of one pass of its body, and the
 fold of those passes over the rows in order. `Flatten` is the whole result;
 the method in module Flattener is proved to compute it, and the lemmas in
 module FlattenerProperties say what it contains.
 */
module FlattenerSpec {
  import opened Report

  function Min(a: int, b: int): int {
    if a <= b then a else b
  }

  /** `mb_strcut(s, 3)` on a header: everything after the first three
      characters, or the empty string when there are not that many. */
  function StripPrefix(s: string): string {
    if |s| >= 3 then s[3..] else ""
  }

  /** The `dimensionNames` entry: every dimension header with its prefix stripped. */
  function DimensionNames(headers: seq<string>): seq<string> {
    seq(|headers|, k requires 0 <= k < |headers| => StripPrefix(headers[k]))
  }

  /** The `metricNames` entry: the name of every metric header entry. */
  function MetricNames(entries: seq<MetricHeaderEntry>): seq<string> {
    seq(|entries|, k requires 0 <= k < |entries| => entries[k].name)
  }

  /** The first metric value of a row, `$metrics[0]->getValues()[0]` (when the
      row has a first metric entry). */
  function RowValue(row: Row): Value {
    FirstValue(row.metrics)
  }

  /** Whether the inner loop body runs at least once for `row` when the report
      has `n` dimension headers: with more than one header it needs a secondary
      value, with exactly one header a primary value, and with none it never runs. */
  predicate Visits(row: Row, n: nat) {
    if n > 1 then |row.dimensions| >= 2 else n == 1 && |row.dimensions| >= 1
  }

  /** The secondary values a row is filed under, in visiting order. With
      more than one dimension header the inner loop runs from index 1 while
      `$i <= count($dimensionHeaders) && $i < count($dimensions)`; otherwise
      there are none. */
  function Secondaries(row: Row, n: nat): seq<string> {
    if n > 1 && |row.dimensions| >= 2 then row.dimensions[1..Min(n + 1, |row.dimensions|)] else []
  }

  /** Row `row` is filed under the primary value `p`: its inner loop runs and
      its first dimension value is `p`. */
  predicate WritesKey(row: Row, n: nat, p: string) {
    Visits(row, n) && row.dimensions[0] == p
  }

  /** Row `row` sets `dimensions[p]` (at most one dimension header). */
  predicate WritesPrimary(row: Row, n: nat, p: string) {
    n <= 1 && WritesKey(row, n, p)
  }

  /** Row `row` sets `dimensions[p][s]` (several dimension headers). */
  predicate WritesPair(row: Row, n: nat, p: string, s: string) {
    n > 1 && WritesKey(row, n, p) && s in Secondaries(row, n)
  }

  /** Row `j` is the last of the first `k` rows to set `dimensions[p]`. */
  predicate LastToWritePrimary(rows: seq<Row>, n: nat, k: nat, j: nat, p: string)
    requires k <= |rows|
  {
    j < k && WritesPrimary(rows[j], n, p) &&
    forall j' | j < j' < k :: !WritesPrimary(rows[j'], n, p)
  }

  /** Row `j` is the last of the first `k` rows to set `dimensions[p][s]`. */
  predicate LastToWritePair(rows: seq<Row>, n: nat, k: nat, j: nat, p: string, s: string)
    requires k <= |rows|
  {
    j < k && WritesPair(rows[j], n, p, s) &&
    forall j' | j < j' < k :: !WritesPair(rows[j'], n, p, s)
  }

  /** What `totalByDimensions[s]` should hold after the first `k` rows: each
      row's first metric value, counted once for every time the row visits
      the secondary value `s`. */
  function SecondaryTotal(rows: seq<Row>, n: nat, s: string, k: nat): int
    requires k <= |rows|
  {
    if k == 0 then 0 else SecondaryTotal(rows, n, s, k - 1) + Contribution(rows[k - 1], n, s)
  }

  /** What one row adds to `totalByDimensions[s]`: its first metric value, once
      for every time it visits `s`. */
  function Contribution(row: Row, n: nat, s: string): int {
    multiset(Secondaries(row, n))[s] * RowValue(row).AsNumber()
  }

  /** Reading the first metric entry of a row fails when the inner loop body
      runs and the row has no metric entry at all. */
  predicate Crashes(row: Row, n: nat) {
    Visits(row, n) && |row.metrics| == 0
  }

  /** The index of the first row that crashes, or `|rows|` when none does. */
  function FirstCrash(rows: seq<Row>, n: nat): (k: nat)
    ensures k <= |rows|
    ensures k < |rows| ==> Crashes(rows[k], n)
    ensures forall j :: 0 <= j < k ==> !Crashes(rows[j], n)
  {
    if rows == [] then 0
    else if Crashes(rows[0], n) then 0
    else 1 + FirstCrash(rows[1..], n)
  }

  /** The parts of `$res` that the row loop updates. Both shapes of the
      `dimensions` entry are kept; only the one the header count selects is
      ever written. */
  datatype Acc = Acc(
    byPrimary: map<string, Value>,
    byPair: map<string, map<string, Value>>,
    totalByDimensions: map<string, int>,
    metrics: map<nat, Value>)

  const EmptyAcc: Acc := Acc(map[], map[], map[], map[])

  /** One pass of the inner loop body with several dimension headers, for row
      number `j`, primary value `p`, secondary value `s` and metric value `v`. */
  function PairStep(acc: Acc, j: nat, p: string, s: string, v: Value): Acc {
    var inner := if p in acc.byPair then acc.byPair[p] else map[];
    var totals := if s in acc.totalByDimensions then acc.totalByDimensions else acc.totalByDimensions[s := 0];
    Acc(acc.byPrimary, acc.byPair[p := inner[s := v]], totals[s := totals[s] + v.AsNumber()], acc.metrics[j := v])
  }

  /** One pass of the inner loop body with at most one dimension header. */
  function PrimaryStep(acc: Acc, j: nat, p: string, v: Value): Acc {
    Acc(acc.byPrimary[p := v], acc.byPair, acc.totalByDimensions, acc.metrics[j := v])
  }

  /** The inner loop of row number `j` with several dimension headers, after
      it has visited the secondary values `ss`, primary value `p`, metric value `v`. */
  function PairsAcc(acc: Acc, j: nat, p: string, ss: seq<string>, v: Value): Acc
    decreases |ss|
  {
    if ss == [] then acc
    else PairStep(PairsAcc(acc, j, p, ss[..|ss| - 1], v), j, p, ss[|ss| - 1], v)
  }

  /** The whole inner loop of row number `j`. */
  function RowAcc(acc: Acc, j: nat, row: Row, n: nat): Acc {
    if !Visits(row, n) then acc
    else if n > 1 then PairsAcc(acc, j, row.dimensions[0], Secondaries(row, n), RowValue(row))
    else PrimaryStep(acc, j, row.dimensions[0], RowValue(row))
  }

  /** The row loop over the first `k` rows. */
  function RowsAcc(rows: seq<Row>, n: nat, k: nat): Acc
    requires k <= |rows|
  {
    if k == 0 then EmptyAcc else RowAcc(RowsAcc(rows, n, k - 1), k - 1, rows[k - 1], n)
  }

  /** `formatDimensionsByDate` as a function of the report. */
  function Flatten(report: Report): Outcome {
    var n := |report.dimensionHeaders|;
    var rows := report.rows;
    var names := DimensionNames(report.dimensionHeaders);
    var metricNames := MetricNames(report.metricHeaders);
    var total := FirstValue(report.totals);
    var min := FirstValue(report.minimums);
    var max := FirstValue(report.maximums);
    if report.rowCount > 0 then
      if FirstCrash(rows, n) < |rows| then Failed(FirstCrash(rows, n))
      else
        var acc := RowsAcc(rows, n, |rows|);
        var dimensions := if n > 1 then ByPrimaryAndSecondary(acc.byPair) else ByPrimary(acc.byPrimary);
        Flattened(FlatResult(names, metricNames,
                             DateRangeValues(total, min, max, acc.totalByDimensions),
                             dimensions, acc.metrics))
    else
      Flattened(FlatResult(names, metricNames, DateRangeValues(total, min, max, map[]),
                           Sentinel, map[0 := Number(0)]))
  }
}
