/** The preprocessing results page: the top features with missing values,
    their counts after imputation, and the summary figures. */
module Preprocessing {
  import opened Wrappers
  import opened JsObject
  import opened Dashboard
  import opened Ranking
  import Backend

  const PreprocessingFallback := "Failed to fetch preprocessing results"

  /** A failed fetch shows the connection message exactly when the backend
      was unreachable, and the page's own message otherwise. */
  lemma FetchErrorMessages(code: Option<string>)
    ensures FetchErrorMessage(code, PreprocessingFallback) == NetworkMessage <==> code == Some(NetworkCode)
    ensures FetchErrorMessage(code, PreprocessingFallback) == PreprocessingFallback <==> code != Some(NetworkCode)
  {
    assert |PreprocessingFallback| != |NetworkMessage|;
    FetchErrorTellsCause(code, PreprocessingFallback);
  }

  predicate HasMissing(e: Entry<real>) {
    e.value > 0.0
  }

  predicate NoMissing(e: Entry<real>) {
    !HasMissing(e)
  }

  /** `topMissingBefore`: the entries with missing values, most first, at
      most six. */
  function TopMissingBefore(missingBefore: seq<Entry<real>>): (r: seq<Entry<real>>)
    ensures |r| <= 6
    ensures |r| == if |Where(missingBefore, HasMissing)| < 6 then |Where(missingBefore, HasMissing)| else 6
    ensures forall i :: 0 <= i < |r| ==> r[i].value > 0.0
    ensures SortedDesc(r)
    ensures multiset(r) <= multiset(Where(missingBefore, HasMissing))
  {
    var p := Where(missingBefore, HasMissing);
    TopKCorrect(p, 6);
    var r := TopK(p, 6);
    assert multiset(r) <= multiset(r) + multiset(SortDesc(p)[|r|..]);
    forall i | 0 <= i < |r|
      ensures r[i].value > 0.0
    {
      assert r[i] in multiset(p);
    }
    r
  }

  /** No feature with missing values that is left out of the chart has more
      of them than one in it, and charted features with equal counts keep
      the order of `missing_before`. */
  lemma TopMissingBeforeIsTop(missingBefore: seq<Entry<real>>, v: real)
    ensures var p := Where(missingBefore, HasMissing);
      var r := TopMissingBefore(missingBefore);
      var rest := SortDesc(p)[|r|..];
      multiset(r) + multiset(rest) == multiset(p) &&
      (forall i, j :: 0 <= i < |r| && 0 <= j < |rest| ==> rest[j].value <= r[i].value) &&
      (v > 0.0 ==> WithValue(r, v) <= WithValue(missingBefore, v))
  {
    var p := Where(missingBefore, HasMissing);
    TopKCorrect(p, 6);
    TopKStable(p, 6, v);
    if v > 0.0 {
      WithValueWhere(missingBefore, v);
    }
  }

  /** For a positive value, filtering out the entries without missing
      values keeps all entries of that value. */
  lemma {:induction false} WithValueWhere(o: seq<Entry<real>>, v: real)
    requires v > 0.0
    ensures WithValue(Where(o, HasMissing), v) == WithValue(o, v)
  {
    if o != [] {
      var t, e := o[..|o| - 1], o[|o| - 1];
      WithValueWhere(t, v);
      assert Where(o, HasMissing) == Where(t, HasMissing) + (if HasMissing(e) then [e] else []);
      assert WithValue(o, v) == WithValue(t, v) + (if e.value == v then [e] else []);
      if HasMissing(e) {
        WithValueSnoc(Where(t, HasMissing), e, v);
      } else {
        assert Where(o, HasMissing) == Where(t, HasMissing);
        assert WithValue(o, v) == WithValue(t, v);
      }
    }
  }

  /** The after-series: for each charted feature, `missing_after[key] || 0`. */
  function AfterSeries(top: seq<Entry<real>>, missingAfter: seq<Entry<real>>): (r: seq<real>)
    ensures |r| == |top|
    ensures forall i :: 0 <= i < |top| ==>
      if top[i].key in Keys(missingAfter) then Lookup(missingAfter, top[i].key) == Some(r[i])
      else r[i] == 0.0
  {
    seq(|top|, i requires 0 <= i < |top| => Lookup(missingAfter, top[i].key).GetOr(0.0))
  }

  /** A total: `Object.values(o).reduce((sum, val) => sum + val, 0)`. */
  function TotalMissing(o: seq<Entry<real>>): real {
    Sum(Values(o))
  }

  /** `featuresWithMissing`: the number of entries with a positive count. */
  function FeaturesWithMissing(missingBefore: seq<Entry<real>>): (n: nat)
    ensures n <= |missingBefore|
    ensures n >= |TopMissingBefore(missingBefore)|
  {
    var p := Where(missingBefore, HasMissing);
    assert |TopMissingBefore(missingBefore)| <= |p| by {
      TopKCorrect(p, 6);
    }
    |p|
  }

  /** Every feature is counted either as having missing values or not. */
  lemma FeaturesWithMissingSplit(missingBefore: seq<Entry<real>>)
    ensures FeaturesWithMissing(missingBefore) + |Where(missingBefore, NoMissing)| == |missingBefore|
  {
    WhereCount(missingBefore, HasMissing, NoMissing);
  }

  /** With counts that are never negative, the total is positive exactly
      when some feature has missing values. */
  lemma {:induction false} TotalPositiveIffSomeMissing(o: seq<Entry<real>>)
    requires forall i :: 0 <= i < |o| ==> o[i].value >= 0.0
    ensures TotalMissing(o) >= 0.0
    ensures TotalMissing(o) > 0.0 <==> FeaturesWithMissing(o) > 0
  {
    PositiveSum(o);
  }

  lemma {:induction false} PositiveSum(o: seq<Entry<real>>)
    requires forall i :: 0 <= i < |o| ==> o[i].value >= 0.0
    ensures Sum(Values(o)) >= 0.0
    ensures Sum(Values(o)) > 0.0 <==> |Where(o, HasMissing)| > 0
  {
    if o != [] {
      var t, e := o[..|o| - 1], o[|o| - 1];
      PositiveSum(t);
      var vs := Values(o);
      assert vs[..|vs| - 1] == Values(t);
      assert Sum(vs) == Sum(Values(t)) + e.value;
      assert Where(o, HasMissing) == Where(t, HasMissing) + (if HasMissing(e) then [e] else []);
    }
  }

  /** The "Missing Values Resolved" figure. */
  datatype Resolved =
    | AllResolved                  // "100%"
    | ResolvedPercent(percent: real)
    | NegativeInfinity             // a positive after-total over a zero before-total
    | PositiveInfinity             // a negative after-total over a zero before-total

  function ResolvedFigure(totalBefore: real, totalAfter: real): (r: Resolved)
    ensures r == AllResolved <==> totalAfter == 0.0
    ensures r == NegativeInfinity <==> totalAfter > 0.0 && totalBefore == 0.0
    ensures r == PositiveInfinity <==> totalAfter < 0.0 && totalBefore == 0.0
    ensures r.ResolvedPercent? ==> r.percent * totalBefore == (totalBefore - totalAfter) * 100.0
  {
    if totalAfter == 0.0 then AllResolved
    else if totalBefore == 0.0 then (if totalAfter > 0.0 then NegativeInfinity else PositiveInfinity)
    else ResolvedPercent((1.0 - totalAfter / totalBefore) * 100.0)
  }

  /** When imputation left fewer missing values than there were, the figure
      is a percentage in [0, 100); it reaches "100%" only when none is left. */
  lemma ResolvedBounds(totalBefore: real, totalAfter: real)
    requires 0.0 < totalAfter <= totalBefore
    ensures var r := ResolvedFigure(totalBefore, totalAfter);
      r.ResolvedPercent? && 0.0 <= r.percent < 100.0
  {
    var q := totalAfter / totalBefore;
    assert q * totalBefore == totalAfter;
    ScaleByPositive(q, 1.0, totalBefore);
    ScaleByPositive(0.0, q, totalBefore);
  }

  // "Features processed"

  /** The figure as written: `Object.keys(missing_before).length - 2`. */
  function FeaturesProcessedAsWritten(missingBefore: seq<Entry<real>>): int {
    |missingBefore| - 2
  }

  /** The figure as intended: the number of features, which are the keys of
      `missing_before` (the back end has already dropped `id` and
      `target`). */
  function FeaturesProcessed(missingBefore: seq<Entry<real>>): (n: nat)
    ensures n == |Keys(missingBefore)|
  {
    |missingBefore|
  }

  /** For training columns with `id` and `target`, the corrected figure is
      the number of feature columns the encoder and scaler process, while
      the figure as written is two short. */
  lemma FeaturesProcessedCounts(columns: seq<string>, minusOnes: string -> nat)
    requires Backend.Distinct(columns) && "id" in columns && "target" in columns
    ensures var mb := Backend.MissingBefore(columns, minusOnes);
      FeaturesProcessed(mb) == |Backend.FeatureColumns(columns)| == |columns| - 2 &&
      FeaturesProcessedAsWritten(mb) == |Backend.FeatureColumns(columns)| - 2
  {
    Backend.FeatureColumnsCount(columns);
  }

  /** The smallest training table, columns `id`, `target` and one feature:
      one feature is processed, and the page as written shows -1. */
  lemma FeaturesProcessedExample(minusOnes: string -> nat)
    ensures var mb := Backend.MissingBefore(["id", "target", "ps_ind_01"], minusOnes);
      FeaturesProcessed(mb) == 1 && FeaturesProcessedAsWritten(mb) == -1
  {
    var columns := ["id", "target", "ps_ind_01"];
    assert Backend.Distinct(columns);
    FeaturesProcessedCounts(columns, minusOnes);
  }
}
