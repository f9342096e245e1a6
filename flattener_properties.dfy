/**
 What the flat result of `formatDimensionsByDate` contains, stated without
 reference to the loops: the effect of one row, then of all rows (last write
 wins for `dimensions`, sums for `totalByDimensions`, one `metrics` entry per
 row whose inner loop runs), then of the whole function.
 */
module FlattenerProperties {
  import opened Report
  import opened FlattenerSpec

  // ---------------------------------------------------------------------------
  // One row with several dimension headers: the passes over its secondary values
  // ---------------------------------------------------------------------------

  /** The passes of one row leave `dimensions[q]` alone for every other primary
      value `q` and leave the single-header map alone. */
  lemma {:induction false} PairsAccOtherKeys(acc: Acc, j: nat, p: string, ss: seq<string>, v: Value)
    ensures PairsAcc(acc, j, p, ss, v).byPrimary == acc.byPrimary
    ensures forall q :: q in PairsAcc(acc, j, p, ss, v).byPair <==> q in acc.byPair || (ss != [] && q == p)
    ensures forall q | q != p && q in acc.byPair :: PairsAcc(acc, j, p, ss, v).byPair[q] == acc.byPair[q]
    ensures ss != [] ==> PairsAcc(acc, j, p, ss, v).metrics == acc.metrics[j := v]
    ensures ss == [] ==> PairsAcc(acc, j, p, ss, v) == acc
    decreases |ss|
  {
    if ss != [] {
      PairsAccOtherKeys(acc, j, p, ss[..|ss| - 1], v);
    }
  }

  /** The passes of one row file `v` under `dimensions[p][s]` for every visited
      secondary value `s`, and keep the earlier entries under `p` for the others. */
  lemma {:induction false} PairsAccPrimaryEntry(acc: Acc, j: nat, p: string, ss: seq<string>, v: Value)
    requires ss != []
    ensures p in PairsAcc(acc, j, p, ss, v).byPair
    ensures forall s :: s in PairsAcc(acc, j, p, ss, v).byPair[p] <==>
                        (p in acc.byPair && s in acc.byPair[p]) || s in ss
    ensures forall s | s in ss :: PairsAcc(acc, j, p, ss, v).byPair[p][s] == v
    ensures forall s | p in acc.byPair && s in acc.byPair[p] && s !in ss ::
              PairsAcc(acc, j, p, ss, v).byPair[p][s] == acc.byPair[p][s]
    decreases |ss|
  {
    var init := ss[..|ss| - 1];
    assert ss == init + [ss[|ss| - 1]];
    if init != [] {
      PairsAccPrimaryEntry(acc, j, p, init, v);
    } else {
      PairsAccOtherKeys(acc, j, p, init, v);
    }
  }

  /** Counting one more visit adds the value once more. */
  lemma OneMoreVisit(c: nat, x: int)
    ensures (c + 1) * x == c * x + x
  {
  }

  /** The passes of one row add `v` to `totalByDimensions[s]` once per visit of
      `s`, creating the entry when it is missing. */
  lemma {:induction false} PairsAccTotal(acc: Acc, j: nat, p: string, ss: seq<string>, v: Value, s: string)
    ensures s in PairsAcc(acc, j, p, ss, v).totalByDimensions <==> s in acc.totalByDimensions || s in ss
    ensures s in PairsAcc(acc, j, p, ss, v).totalByDimensions ==>
              PairsAcc(acc, j, p, ss, v).totalByDimensions[s]
              == (if s in acc.totalByDimensions then acc.totalByDimensions[s] else 0) + multiset(ss)[s] * v.AsNumber()
    decreases |ss|
  {
    if ss != [] {
      var init, last := ss[..|ss| - 1], ss[|ss| - 1];
      assert ss == init + [last];
      PairsAccTotal(acc, j, p, init, v, s);
      var c := multiset(init)[s];
      if s == last {
        assert multiset(ss)[s] == c + 1;
        OneMoreVisit(c, v.AsNumber());
      } else {
        assert multiset(ss)[s] == c;
      }
    }
  }

  // ---------------------------------------------------------------------------
  // One row, either mode
  // ---------------------------------------------------------------------------

  /** A row leaves a `metrics` entry exactly when its inner loop runs. */
  lemma RowAccMetrics(acc: Acc, j: nat, row: Row, n: nat)
    ensures RowAcc(acc, j, row, n).metrics
            == if Visits(row, n) then acc.metrics[j := RowValue(row)] else acc.metrics
  {
    if Visits(row, n) && n > 1 {
      PairsAccOtherKeys(acc, j, row.dimensions[0], Secondaries(row, n), RowValue(row));
    }
  }

  /** A row sets `dimensions[primary]` when there is at most one header and
      touches nothing of that map otherwise. */
  lemma RowAccPrimary(acc: Acc, j: nat, row: Row, n: nat)
    ensures RowAcc(acc, j, row, n).byPrimary
            == if n <= 1 && Visits(row, n) then acc.byPrimary[row.dimensions[0] := RowValue(row)] else acc.byPrimary
  {
    if Visits(row, n) && n > 1 {
      PairsAccOtherKeys(acc, j, row.dimensions[0], Secondaries(row, n), RowValue(row));
    }
  }

  /** A row sets `dimensions[p][s]` for exactly the pairs it writes and keeps
      every other entry. */
  lemma RowAccPairs(acc: Acc, j: nat, row: Row, n: nat)
    ensures var r := RowAcc(acc, j, row, n).byPair;
      && (forall q :: q in r <==> q in acc.byPair || (n > 1 && WritesKey(row, n, q)))
      && (forall q, s | q in r :: s in r[q] <==> (q in acc.byPair && s in acc.byPair[q]) || WritesPair(row, n, q, s))
      && (forall q, s | WritesPair(row, n, q, s) :: q in r && s in r[q] && r[q][s] == RowValue(row))
      && (forall q, s | q in acc.byPair && s in acc.byPair[q] && !WritesPair(row, n, q, s) ::
            q in r && s in r[q] && r[q][s] == acc.byPair[q][s])
  {
    var r := RowAcc(acc, j, row, n).byPair;
    if Visits(row, n) && n > 1 {
      var p, ss, v := row.dimensions[0], Secondaries(row, n), RowValue(row);
      PairsAccOtherKeys(acc, j, p, ss, v);
      PairsAccPrimaryEntry(acc, j, p, ss, v);
      forall q, s | q in r
        ensures s in r[q] <==> (q in acc.byPair && s in acc.byPair[q]) || WritesPair(row, n, q, s)
      {
        if q != p {
          assert !WritesPair(row, n, q, s);
        }
      }
    } else {
      forall q, s ensures !WritesPair(row, n, q, s) {
      }
    }
  }

  /** A row that does not visit `s` contributes nothing to it. */
  lemma ContributionOfUnvisited(row: Row, n: nat, s: string)
    requires s !in Secondaries(row, n)
    ensures Contribution(row, n, s) == 0
  {
  }

  /** A row creates `totalByDimensions[s]` when it visits `s`. */
  lemma RowAccTotalKey(acc: Acc, j: nat, row: Row, n: nat, s: string)
    ensures s in RowAcc(acc, j, row, n).totalByDimensions <==> s in acc.totalByDimensions || s in Secondaries(row, n)
  {
    if Visits(row, n) && n > 1 {
      PairsAccTotal(acc, j, row.dimensions[0], Secondaries(row, n), RowValue(row), s);
    }
  }

  /** A row adds its value to `totalByDimensions[s]` once per visit of `s`. */
  lemma RowAccTotalValue(acc: Acc, j: nat, row: Row, n: nat, s: string)
    ensures (if s in RowAcc(acc, j, row, n).totalByDimensions then RowAcc(acc, j, row, n).totalByDimensions[s] else 0)
            == (if s in acc.totalByDimensions then acc.totalByDimensions[s] else 0) + Contribution(row, n, s)
  {
    if Visits(row, n) && n > 1 {
      PairsAccTotal(acc, j, row.dimensions[0], Secondaries(row, n), RowValue(row), s);
      if s !in acc.totalByDimensions && s !in Secondaries(row, n) {
        ContributionOfUnvisited(row, n, s);
      }
    } else {
      ContributionOfUnvisited(row, n, s);
    }
  }

  // ---------------------------------------------------------------------------
  // All rows, in order
  // ---------------------------------------------------------------------------

  /** After the first `k` rows, `metrics` has an entry for row `j` exactly when
      the inner loop of row `j` ran, and it holds that row's first metric value. */
  lemma {:induction false} RowsAccMetrics(rows: seq<Row>, n: nat, k: nat)
    requires k <= |rows|
    ensures forall j: nat :: j in RowsAcc(rows, n, k).metrics <==> j < k && Visits(rows[j], n)
    ensures forall j: nat | j in RowsAcc(rows, n, k).metrics :: RowsAcc(rows, n, k).metrics[j] == RowValue(rows[j])
  {
    if k > 0 {
      RowsAccMetrics(rows, n, k - 1);
      RowAccMetrics(RowsAcc(rows, n, k - 1), k - 1, rows[k - 1], n);
    }
  }

  /** With at most one dimension header, after the first `k` rows
      `dimensions[p]` exists exactly when some row was filed under `p`, and it
      holds the value of the last such row. */
  lemma {:induction false} RowsAccPrimary(rows: seq<Row>, n: nat, k: nat)
    requires k <= |rows|
    ensures forall p :: p in RowsAcc(rows, n, k).byPrimary <==>
                        exists j :: 0 <= j < k && WritesPrimary(rows[j], n, p)
    ensures forall j: nat, p | LastToWritePrimary(rows, n, k, j, p) ::
              p in RowsAcc(rows, n, k).byPrimary && RowsAcc(rows, n, k).byPrimary[p] == RowValue(rows[j])
  {
    if k > 0 {
      var before, row := RowsAcc(rows, n, k - 1), rows[k - 1];
      RowsAccPrimary(rows, n, k - 1);
      RowAccPrimary(before, k - 1, row, n);
      forall p ensures p in RowsAcc(rows, n, k).byPrimary <==> exists j :: 0 <= j < k && WritesPrimary(rows[j], n, p)
      {
        if exists j :: 0 <= j < k && WritesPrimary(rows[j], n, p) {
          var j :| 0 <= j < k && WritesPrimary(rows[j], n, p);
          if j < k - 1 {
            assert p in before.byPrimary;
          }
        }
      }
      forall j: nat, p | LastToWritePrimary(rows, n, k, j, p)
        ensures p in RowsAcc(rows, n, k).byPrimary && RowsAcc(rows, n, k).byPrimary[p] == RowValue(rows[j])
      {
        if j < k - 1 {
          assert LastToWritePrimary(rows, n, k - 1, j, p);
          assert !WritesPrimary(row, n, p);
        }
      }
    }
  }

  /** With several dimension headers, after the first `k` rows
      `dimensions[p][s]` exists exactly when some row wrote the pair, and it
      holds the value of the last such row; with fewer headers the map stays empty. */
  lemma {:induction false} RowsAccPairs(rows: seq<Row>, n: nat, k: nat)
    requires k <= |rows|
    ensures forall p :: p in RowsAcc(rows, n, k).byPair <==>
                        exists j :: 0 <= j < k && n > 1 && WritesKey(rows[j], n, p)
    ensures forall p, s | p in RowsAcc(rows, n, k).byPair ::
              s in RowsAcc(rows, n, k).byPair[p] <==> exists j :: 0 <= j < k && WritesPair(rows[j], n, p, s)
    ensures forall j: nat, p, s | LastToWritePair(rows, n, k, j, p, s) ::
              p in RowsAcc(rows, n, k).byPair && s in RowsAcc(rows, n, k).byPair[p]
              && RowsAcc(rows, n, k).byPair[p][s] == RowValue(rows[j])
  {
    if k > 0 {
      var before, row := RowsAcc(rows, n, k - 1), rows[k - 1];
      var after := RowsAcc(rows, n, k);
      RowsAccPairs(rows, n, k - 1);
      RowAccPairs(before, k - 1, row, n);
      forall p ensures p in after.byPair <==> exists j :: 0 <= j < k && n > 1 && WritesKey(rows[j], n, p)
      {
        if exists j :: 0 <= j < k && n > 1 && WritesKey(rows[j], n, p) {
          var j :| 0 <= j < k && n > 1 && WritesKey(rows[j], n, p);
          if j < k - 1 {
            assert p in before.byPair;
          }
        }
      }
      forall p, s | p in after.byPair
        ensures s in after.byPair[p] <==> exists j :: 0 <= j < k && WritesPair(rows[j], n, p, s)
      {
        if exists j :: 0 <= j < k && WritesPair(rows[j], n, p, s) {
          var j :| 0 <= j < k && WritesPair(rows[j], n, p, s);
          if j < k - 1 {
            assert p in before.byPair && s in before.byPair[p];
          }
        }
      }
      forall j: nat, p, s | LastToWritePair(rows, n, k, j, p, s)
        ensures p in after.byPair && s in after.byPair[p] && after.byPair[p][s] == RowValue(rows[j])
      {
        if j < k - 1 {
          assert LastToWritePair(rows, n, k - 1, j, p, s);
          assert !WritesPair(row, n, p, s);
        }
      }
    }
  }

  /** After the first `k` rows, `totalByDimensions[s]` exists exactly when some
      row visited the secondary value `s`. */
  lemma {:induction false} RowsAccTotalKey(rows: seq<Row>, n: nat, k: nat, s: string)
    requires k <= |rows|
    ensures s in RowsAcc(rows, n, k).totalByDimensions <==> exists j :: 0 <= j < k && s in Secondaries(rows[j], n)
  {
    if k > 0 {
      var before := RowsAcc(rows, n, k - 1);
      RowsAccTotalKey(rows, n, k - 1, s);
      RowAccTotalKey(before, k - 1, rows[k - 1], n, s);
      if s !in Secondaries(rows[k - 1], n) && exists j :: 0 <= j < k && s in Secondaries(rows[j], n) {
        var j :| 0 <= j < k && s in Secondaries(rows[j], n);
        assert j < k - 1;
      }
    }
  }

  /** After the first `k` rows, `totalByDimensions[s]` holds `SecondaryTotal`;
      a missing entry reads as 0, and so does the total of a value never visited. */
  lemma {:induction false} RowsAccTotalValue(rows: seq<Row>, n: nat, k: nat, s: string)
    requires k <= |rows|
    ensures (if s in RowsAcc(rows, n, k).totalByDimensions then RowsAcc(rows, n, k).totalByDimensions[s] else 0)
            == SecondaryTotal(rows, n, s, k)
  {
    if k > 0 {
      RowsAccTotalValue(rows, n, k - 1, s);
      RowAccTotalValue(RowsAcc(rows, n, k - 1), k - 1, rows[k - 1], n, s);
    }
  }
}
