/** The data analysis page: the missing-value chart, the feature type
    breakdown and the sample table. */
module DataAnalysis {
  import opened Wrappers
  import opened JsObject
  import opened Text
  import opened Dashboard

  const DataAnalysisFallback := "Failed to fetch data summary"

  /** A failed fetch shows the connection message exactly when the backend
      was unreachable, and the page's own message otherwise. */
  lemma FetchErrorMessages(code: Option<string>)
    ensures FetchErrorMessage(code, DataAnalysisFallback) == NetworkMessage <==> code == Some(NetworkCode)
    ensures FetchErrorMessage(code, DataAnalysisFallback) == DataAnalysisFallback <==> code != Some(NetworkCode)
  {
    assert |DataAnalysisFallback| != |NetworkMessage|;
    FetchErrorTellsCause(code, DataAnalysisFallback);
  }

  // Missing values chart

  /** A feature column with missing values. */
  predicate IsChartedMissing(e: Entry<real>) {
    e.key != "id" && e.key != "target" && e.value > 0.0
  }

  /** `missingValuesFiltered`: the first ten feature columns with missing
      values, in the order of `missing_values`. */
  function MissingValuesFiltered(missingValues: seq<Entry<real>>): (r: seq<Entry<real>>)
    ensures |r| <= 10
    ensures |r| == if |Where(missingValues, IsChartedMissing)| < 10 then |Where(missingValues, IsChartedMissing)| else 10
    ensures forall i :: 0 <= i < |r| ==> IsChartedMissing(r[i])
    ensures r <= Where(missingValues, IsChartedMissing)
  {
    Take(Where(missingValues, IsChartedMissing), 10)
  }

  /** The chart is not sorted: it is exactly the filtered entries of some
      prefix of `missing_values`, and it is all of them when ten or fewer
      pass the filter. */
  lemma MissingValuesInOrder(missingValues: seq<Entry<real>>)
    ensures exists j :: 0 <= j <= |missingValues| && MissingValuesFiltered(missingValues) == Where(missingValues[..j], IsChartedMissing)
    ensures |Where(missingValues, IsChartedMissing)| <= 10 ==>
      MissingValuesFiltered(missingValues) == Where(missingValues, IsChartedMissing)
  {
    TakeWhereIsPrefixWhere(missingValues, IsChartedMissing, 10);
  }

  /** Taking the first `n` entries that pass a filter is filtering some
      prefix. */
  lemma {:induction false} TakeWhereIsPrefixWhere(o: seq<Entry<real>>, keep: Entry<real> -> bool, n: nat)
    ensures exists j :: 0 <= j <= |o| && Take(Where(o, keep), n) == Where(o[..j], keep)
  {
    if |Where(o, keep)| <= n {
      assert o[..|o|] == o;
    } else {
      var t := o[..|o| - 1];
      assert |Where(t, keep)| >= n;
      TakeWhereIsPrefixWhere(t, keep, n);
      var j :| 0 <= j <= |t| && Take(Where(t, keep), n) == Where(t[..j], keep);
      assert t[..j] == o[..j];
      assert Where(t, keep) <= Where(o, keep);
      assert Take(Where(o, keep), n) == Take(Where(t, keep), n);
    }
  }

  // Feature type breakdown

  /** The breakdown's three figures. */
  datatype Breakdown = Breakdown(binary: nat, categorical: nat, continuous: int)

  /** `binaryFeatures`, `categoricalFeatures` and `continuousFeatures`:
      the keys with `_bin`, the keys with `_cat`, and the rest of the
      `columns` less 2 for `id` and `target`, not clamped at 0. */
  function FeatureBreakdown(columns: int, missingValues: seq<Entry<real>>): (b: Breakdown)
    ensures b.binary == |KeysContaining(Keys(missingValues), "_bin")|
    ensures b.categorical == |KeysContaining(Keys(missingValues), "_cat")|
    ensures b.binary <= |missingValues| && b.categorical <= |missingValues|
    ensures b.binary + b.categorical + b.continuous + 2 == columns
  {
    var keys := Keys(missingValues);
    var binary := CountContaining(keys, "_bin");
    var categorical := CountContaining(keys, "_cat");
    Breakdown(binary, categorical, columns - binary - categorical - 2)
  }

  /** A continuous feature: neither `id` nor `target`, without `_bin` and
      without `_cat`. */
  predicate IsContinuous(k: string) {
    k != "id" && k != "target" && !Contains(k, "_bin") && !Contains(k, "_cat")
  }

  /** The continuous keys, in order. */
  function ContinuousKeys(keys: seq<string>): (r: seq<string>)
    ensures forall k :: k in r <==> k in keys && IsContinuous(k)
  {
    if keys == [] then []
    else
      var k := keys[|keys| - 1];
      ContinuousKeys(keys[..|keys| - 1]) + (if IsContinuous(k) then [k] else [])
  }

  /** `id` and `target` are neither binary nor categorical. */
  lemma IdTargetPlain()
    ensures !Contains("id", "_bin") && !Contains("id", "_cat")
    ensures !Contains("target", "_bin") && !Contains("target", "_cat")
  {
    NotContainsFirst("id", "_bin");
    NotContainsFirst("id", "_cat");
    NotContainsFirst("target", "_bin");
    NotContainsFirst("target", "_cat");
  }

  /** A key that is not both binary and categorical is exactly one of
      binary, categorical, continuous, `id` and `target`. */
  lemma OneKind(k: string)
    requires !(Contains(k, "_bin") && Contains(k, "_cat"))
    ensures (if Contains(k, "_bin") then 1 else 0) + (if Contains(k, "_cat") then 1 else 0)
      + (if IsContinuous(k) then 1 else 0) + (if k == "id" then 1 else 0) + (if k == "target" then 1 else 0) == 1
  {
    IdTargetPlain();
  }

  /** Every key of distinct keys, none holding both `_bin` and `_cat`, is
      binary, categorical, continuous, `id` or `target`, and exactly one. */
  lemma {:induction false} KeysPartition(keys: seq<string>)
    requires forall i, j :: 0 <= i < j < |keys| ==> keys[i] != keys[j]
    requires forall k :: k in keys ==> !(Contains(k, "_bin") && Contains(k, "_cat"))
    ensures |keys| == |KeysContaining(keys, "_bin")| + |KeysContaining(keys, "_cat")| + |ContinuousKeys(keys)|
      + (if "id" in keys then 1 else 0) + (if "target" in keys then 1 else 0)
  {
    if keys != [] {
      var t, k := keys[..|keys| - 1], keys[|keys| - 1];
      assert keys == t + [k];
      assert k !in t by {
        forall i | 0 <= i < |t| ensures t[i] != k {
          assert keys[i] == t[i];
        }
      }
      KeysPartition(t);
      OneKind(k);
      assert |KeysContaining(keys, "_bin")| == |KeysContaining(t, "_bin")| + (if Contains(k, "_bin") then 1 else 0);
      assert |KeysContaining(keys, "_cat")| == |KeysContaining(t, "_cat")| + (if Contains(k, "_cat") then 1 else 0);
      assert |ContinuousKeys(keys)| == |ContinuousKeys(t)| + (if IsContinuous(k) then 1 else 0);
      assert ("id" in keys) == ("id" in t || k == "id");
      assert ("target" in keys) == ("target" in t || k == "target");
    }
  }

  /** When `columns` is the number of keys and the keys hold `id` and
      `target`, the continuous figure counts the continuous features and is
      never negative; without them it is too small by what is missing, and
      nothing stops it from going below 0. */
  lemma ContinuousCountsFeatures(missingValues: seq<Entry<real>>)
    requires DistinctKeys(missingValues)
    requires forall k :: k in Keys(missingValues) ==> !(Contains(k, "_bin") && Contains(k, "_cat"))
    ensures var keys := Keys(missingValues);
      FeatureBreakdown(|missingValues|, missingValues).continuous ==
        |ContinuousKeys(keys)| + (if "id" in keys then 1 else 0) + (if "target" in keys then 1 else 0) - 2
  {
    var keys := Keys(missingValues);
    forall i, j | 0 <= i < j < |keys| ensures keys[i] != keys[j] {
      assert keys[i] == missingValues[i].key && keys[j] == missingValues[j].key;
    }
    KeysPartition(keys);
  }

  /** An empty summary gives a continuous figure of -2. */
  lemma ContinuousUnclamped()
    ensures FeatureBreakdown(0, []).continuous == -2
  {
  }

  // Sample table

  /** The header: the first nine keys of the first sample row, nothing when
      there is no row. */
  function Header<V>(sampleRows: seq<seq<Entry<V>>>): (h: seq<string>)
    ensures |h| <= 9
    ensures sampleRows == [] ==> h == []
    ensures sampleRows != [] ==> h <= Keys(sampleRows[0])
    ensures sampleRows != [] ==> |h| == if |sampleRows[0]| < 9 then |sampleRows[0]| else 9
  {
    if |sampleRows| > 0 then Take(Keys(sampleRows[0]), 9) else []
  }

  /** The cells of a row: its first nine entries. */
  function RowCells<V>(row: seq<Entry<V>>): (cells: seq<Entry<V>>)
    ensures |cells| <= 9 && cells <= row
    ensures |cells| == if |row| < 9 then |row| else 9
    ensures |row| <= 9 ==> cells == row
  {
    Take(row, 9)
  }

  /** The header names exactly the cells of the first row. */
  lemma HeaderMatchesFirstRow<V>(sampleRows: seq<seq<Entry<V>>>)
    requires sampleRows != []
    ensures Header(sampleRows) == Keys(RowCells(sampleRows[0]))
  {
    var row := sampleRows[0];
    var cells := RowCells(row);
    assert |Keys(cells)| == |Header(sampleRows)|;
    forall i | 0 <= i < |cells|
      ensures Keys(cells)[i] == Header(sampleRows)[i]
    {
      assert cells[i] == row[i];
    }
  }
}
