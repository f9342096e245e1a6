# Google Analytics report flattening, modelled in Dafny

This project models the core of a Symfony service that wraps the Google
Analytics Reporting API v4. It covers two things:

- **Building a request.** Metric and dimension expression names, given as one
  name or as a list, are turned into request entries. Each entry carries the
  name under the `ga:` namespace, and each metric also carries the bare name
  as its alias (`getMetrics`, `createMetric`, `getDimensions`,
  `createDimension`).
- **Flattening a report.** `formatDimensionsByDate` turns the report the
  backend returns into a flat result:
  - the dimension names, with their `ga:` prefix cut off;
  - the metric names;
  - the first metric's total, minimum and maximum;
  - a `dimensions` table, keyed by the primary dimension value, and by the
    secondary value too when there are several dimension headers;
  - per-secondary-value sums in `totalByDimensions`;
  - a `metrics` map keyed by row index.

A report that claims no rows gives the `[0]` marker for both `dimensions`
and `metrics`.

The project has six modules:

- `Report` holds the values exchanged with the backend: the report, its
  rows, and the flat result. A cell is `Null` or a `Number`, because PHP
  yields null when a list is indexed past its end and reads null as 0 in
  `+=`.
- `RequestExpressions` holds the request builders as functions on strings.
- `FlattenerSpec` defines the meaning of the flattening as a fold:
  - `PairStep` or `PrimaryStep` is one pass of the inner loop;
  - `PairsAcc` and `RowAcc` cover one row;
  - `RowsAcc` covers the rows in order;
  - `Flatten` is the whole call.

  The fold is an `Outcome`: either the flat result or `Failed(row)`. A row
  whose inner loop runs but which has no metric entry makes PHP call
  `getValues()` on null, which is a fatal error.
- `Flattener` is the PHP code written as imperative Dafny, with the same
  loops, bounds and lazily created entries. It is proved to compute `Flatten`.
- `FlattenerProperties` and `ResultProperties` say what the result contains
  without reference to the loops:
  - `dimensions`: the last write wins;
  - `totalByDimensions`: a sum counted once per visit;
  - `metrics`: one entry per row whose inner loop runs;
  - a failure happens at the first row that crashes;
  - the header names round-trip through the namespace.

Behaviour of the code worth noting, which the model keeps as written:

- **The secondary-value loop.** It runs while `$i <= count($dimensionHeaders)
  && $i < count($dimensions)`. A row with more values than there are headers
  therefore has its value at index `count($dimensionHeaders)` visited as
  well. `Secondaries` models the bound as written.
- **The `metrics` map.** `metrics` is assigned by row index rather than
  appended to. A row whose inner loop never runs therefore leaves a gap
  instead of shifting later rows down.
- **`getDimensions` on an empty list.** It returns null, because its local
  list is never assigned; `GetDimensions` gives `None`. `getMetrics` on an
  empty list returns an empty list.
- **A row with an empty metric list.** Once the inner loop runs on such a
  row, the call is a fatal error.

## Model

| member | source | states |
|---|---|---|
| RequestExpressions.CreateMetrics | Service/GoogleAnalyticsService.php:108-111 | one metric per name, in order: entry k is `createMetric` of name k |
| RequestExpressions.CreateDimensions | Service/GoogleAnalyticsService.php:138-141 | one dimension per name, in order: entry k is `createDimension` of name k |
| RequestExpressions.GetMetrics | Service/GoogleAnalyticsService.php:105-130 | a scalar gives one metric and a list one per name, in order; each sends `ga:` + name as expression and the bare name as alias |
| RequestExpressions.GetDimensions | Service/GoogleAnalyticsService.php:136-159 | null exactly for the empty list; otherwise one dimension per name, in order, each named `ga:` + name |
| FlattenerSpec.FirstCrash | Service/GoogleAnalyticsService.php:196-203 | the index of the first row whose inner loop runs with no metric entry, or the row count when there is none |
| Flattener.StripDimensionHeaders | Service/GoogleAnalyticsService.php:176-178 | the loop yields every dimension header with its first three characters cut off, in order |
| Flattener.CopyMetricNames | Service/GoogleAnalyticsService.php:180-182 | the loop yields every metric header name unchanged, in order |
| Flattener.PairsAccExtend | Service/GoogleAnalyticsService.php:202 | visiting one more secondary index is one more pass of the loop body |
| Flattener.FileUnderPair | Service/GoogleAnalyticsService.php:203-210 | one pass with several headers: sets the pair entry, creates the secondary total at 0 if missing and adds the value, and sets the row's metrics entry |
| Flattener.FileUnderPrimary | Service/GoogleAnalyticsService.php:214-216 | one pass with at most one header: sets the primary entry and the row's metrics entry |
| Flattener.FormatRowByPairs | Service/GoogleAnalyticsService.php:201-211 | the loop from index 1 while `$i <= n && $i < count`: crashes exactly when it runs on a row without metrics, otherwise has the effect of the row's fold |
| Flattener.FormatRowByPrimary | Service/GoogleAnalyticsService.php:212-217 | the loop from index 0, which runs at most once: crashes exactly when it runs on a row without metrics, otherwise has the effect of the row's fold |
| Flattener.FormatDimensionsByDate | Service/GoogleAnalyticsService.php:166-226 | the whole method computes `Flatten(report)`: names, aggregates, the row loop or the `[0]` marker, and failure at the first crashing row |
| FlattenerProperties.PairsAccOtherKeys | Service/GoogleAnalyticsService.php:202-211 | a row's passes touch only the entry of its own primary value, leave the single-header map alone, and set its metrics entry exactly when it has a pass |
| FlattenerProperties.PairsAccPrimaryEntry | Service/GoogleAnalyticsService.php:203 | after a row's passes, every visited secondary value under its primary value holds the row's value, and the other entries are kept |
| FlattenerProperties.PairsAccTotal | Service/GoogleAnalyticsService.php:204-207 | a row's passes create the total of `s` when they visit it and add the value once per visit |
| FlattenerProperties.RowAccMetrics | Service/GoogleAnalyticsService.php:209-210 | a row sets `metrics[rowIndex]` to its first metric value exactly when its inner loop runs |
| FlattenerProperties.RowAccPrimary | Service/GoogleAnalyticsService.php:214 | a row sets `dimensions[primary]` only with at most one header and when its loop runs |
| FlattenerProperties.RowAccPairs | Service/GoogleAnalyticsService.php:203 | a row sets exactly the pairs it writes, to its value, and keeps every other pair |
| FlattenerProperties.ContributionOfUnvisited | Service/GoogleAnalyticsService.php:207 | a row adds nothing to the total of a value it does not visit |
| FlattenerProperties.RowAccTotalKey | Service/GoogleAnalyticsService.php:204-206 | a row creates the total of `s` exactly when it visits `s` |
| FlattenerProperties.RowAccTotalValue | Service/GoogleAnalyticsService.php:204-207 | a row adds its contribution to the total of `s`, where a missing entry reads as 0 |
| FlattenerProperties.RowsAccMetrics | Service/GoogleAnalyticsService.php:196-219 | after k rows, `metrics[j]` exists exactly for the rows j < k whose loop ran, and holds row j's first metric value |
| FlattenerProperties.RowsAccPrimary | Service/GoogleAnalyticsService.php:196-219 | after k rows, `dimensions[p]` exists exactly when some row was filed under p, and holds the value of the last such row |
| FlattenerProperties.RowsAccPairs | Service/GoogleAnalyticsService.php:196-219 | after k rows, `dimensions[p][s]` exists exactly when some row wrote that pair, and holds the value of the last such row |
| FlattenerProperties.RowsAccTotalKey | Service/GoogleAnalyticsService.php:196-219 | after k rows, the total of `s` exists exactly when some row visited `s` |
| FlattenerProperties.RowsAccTotalValue | Service/GoogleAnalyticsService.php:196-219 | after k rows, the total of `s` is the sum of each row's first metric value times the number of its visits to `s` |
| ResultProperties.FlattenFailsAtFirstCrash | Service/GoogleAnalyticsService.php:192-219 | the call fails exactly when rows are claimed and some row's loop runs with no metric entry; it fails at the first such row |
| ResultProperties.HeaderNames | Service/GoogleAnalyticsService.php:176-182 | `dimensionNames` has one entry per header, with three characters cut off (empty when shorter); `metricNames` holds the metric header names unchanged |
| ResultProperties.DimensionNameRoundTrip | Service/GoogleAnalyticsService.php:153-159 | cutting three characters off a sent dimension name gives back the requested name |
| ResultProperties.MetricAliasRoundTrip | Service/GoogleAnalyticsService.php:123-130 | cutting the namespace off a metric's expression gives its alias |
| ResultProperties.RequestedDimensionNamesComeBack | Service/GoogleAnalyticsService.php:136-178 | when the headers echo the requested dimensions, `dimensionNames` is exactly the requested names, in order |
| ResultProperties.AggregatesOfFirstMetric | Service/GoogleAnalyticsService.php:184-189 | total, min and max are the first value of the first date range of each aggregate block, or null |
| ResultProperties.ZeroRowsMarker | Service/GoogleAnalyticsService.php:220-223 | with no rows claimed, `dimensions` and `metrics` are the `[0]` marker and there are no secondary totals, whatever the headers and rows |
| ResultProperties.MetricsPerRow | Service/GoogleAnalyticsService.php:196-219 | `metrics` has an entry exactly for the rows whose loop runs, holding each one's first metric value |
| ResultProperties.OneHeaderMetricsForEveryRow | Service/GoogleAnalyticsService.php:212-217 | with one header and a dimension value in every row, `metrics` has exactly one entry per row, in row order |
| ResultProperties.SingleHeaderDimensions | Service/GoogleAnalyticsService.php:212-218 | with at most one header, `dimensions` maps each primary value to its last row's value, and there are no secondary totals |
| ResultProperties.SeveralHeadersDimensions | Service/GoogleAnalyticsService.php:201-211 | with several headers, `dimensions[p][s]` holds the last writer's value; `totalByDimensions[s]` exists exactly for visited values and is their sum |
| ResultProperties.TwoHeaderSecondaryTotal | Service/GoogleAnalyticsService.php:202-207 | with two headers and two values per row, the accumulated total equals the plain sum over rows whose secondary value is `s` |
| ResultProperties.TwoHeaderTotals | Service/GoogleAnalyticsService.php:202-207 | for a two-dimension report, `totalByDimensions[s]` is the sum of the first metric values of the rows sharing `s` |
| ResultProperties.TwoDaysFlattened | Service/GoogleAnalyticsService.php:166-226 | a two-day, one-dimension report flattens to names `date`/`sessions`, aggregates 30/10/20, one entry per day and metrics `[10, 20]` |

## Left out

- The constructor, the credential file and the client configuration (Service/GoogleAnalyticsService.php:32-45) are not modelled; they only set up the HTTP client.
- The network call `batchGet` (Service/GoogleAnalyticsService.php:96) is not modelled; the report it returns is an input of `FormatDimensionsByDate`.
- Building the request objects in `getDataDateRange` (Service/GoogleAnalyticsService.php:76-94) is not modelled: view id, date range and request body. Only the expression names those objects carry are modelled.
- The preset queries (Service/GoogleAnalyticsService.php:235-348) are not modelled; they only bind fixed arguments to `getDataDateRange`.
- Backend values are strings holding integers or decimals in PHP; the model takes them as integers, so floating-point sums and numeric-string coercion are not modelled.
- Key order is not modelled. PHP arrays are ordered: `dimensions`, each of its per-primary inner arrays, and `totalByDimensions` list their keys in the order each key was first written (Service/GoogleAnalyticsService.php:203-207, 214). A later write to a key changes its value but keeps its place, so a caller that iterates or JSON-encodes the result sees primary values (such as dates) in first-row order. The model's `map`s are unordered, so `ByPrimary`, `ByPrimaryAndSecondary` and `totalByDimensions` state which keys exist and their values, but not that order. `metrics` needs no order of its own: its keys are row indices, written in increasing order.
- PHP converts numeric-string array keys (such as dates) to integer keys; the model keys every map by the string itself.
- `mb_strcut` counts bytes and keeps multibyte characters whole; the model cuts the first three characters, which agrees for the ASCII `ga:` prefix.
- Entries of the result that PHP leaves unset are modelled as empty: `dimensionNames`, `metricNames` or `dimensions` when nothing is written to them, and `metrics` when no row's loop runs. PHP warnings (an index past the end of a list) are not modelled, beyond the null value they yield.
- The client-library objects (`Google_Service_AnalyticsReporting_Metric`, `..._Dimension`, the report classes) are not part of this model; they are modelled as plain records of the strings and numbers they carry.
