/** The visualization page's figures other than the histogram: the top
    importance and the per-category tallies of the top features. */
module Visualization {
  import opened Wrappers
  import opened JsObject
  import opened Dashboard
  import opened Ranking
  import opened Text
  import Histogram

  const VisualizationFallback := "Failed to fetch visualization data"

  /** A failed fetch shows the connection message exactly when the backend
      was unreachable, and the page's own message otherwise. */
  lemma FetchErrorMessages(code: Option<string>)
    ensures FetchErrorMessage(code, VisualizationFallback) == NetworkMessage <==> code == Some(NetworkCode)
    ensures FetchErrorMessage(code, VisualizationFallback) == VisualizationFallback <==> code != Some(NetworkCode)
  {
    assert |VisualizationFallback| != |NetworkMessage|;
    FetchErrorTellsCause(code, VisualizationFallback);
  }

  /** `Math.max(...Object.values(feature_importance))`; `None` for no
      features, where the page gets -Infinity. */
  function MaxImportance(importance: seq<Entry<real>>): (m: Option<real>)
    ensures m.Some? <==> importance != []
    ensures m.Some? ==> exists i :: 0 <= i < |importance| && importance[i].value == m.value
    ensures m.Some? ==> forall i :: 0 <= i < |importance| ==> importance[i].value <= m.value
  {
    if importance == [] then None
    else
      var vs := Values(importance);
      var m := Histogram.SeqMax(vs);
      assert exists i :: 0 <= i < |vs| && vs[i] == m;
      Some(m)
  }

  /** For importances listed highest first, the maximum is the first one. */
  lemma MaxImportanceOfRanked(importance: seq<Entry<real>>)
    requires importance != [] && SortedDesc(importance)
    ensures MaxImportance(importance) == Some(importance[0].value)
  {
    var m := MaxImportance(importance).value;
    var i :| 0 <= i < |importance| && importance[i].value == m;
    assert importance[0].value >= importance[i].value;
  }

  /** The three "in top features" tallies. */
  datatype Tallies = Tallies(individual: nat, car: nat, regional: nat)

  /** The number of importance keys with `_ind_`, `_car_` and `_reg_`. */
  function CategoryTallies(importance: seq<Entry<real>>): (t: Tallies)
    ensures t.individual <= |importance| && t.car <= |importance| && t.regional <= |importance|
    ensures t.individual == |KeysContaining(Keys(importance), "_ind_")|
    ensures t.car == |KeysContaining(Keys(importance), "_car_")|
    ensures t.regional == |KeysContaining(Keys(importance), "_reg_")|
  {
    var keys := Keys(importance);
    Tallies(CountContaining(keys, "_ind_"), CountContaining(keys, "_car_"), CountContaining(keys, "_reg_"))
  }

  /** The tallies add up over the entries: the tallies of two lists of
      entries one after the other are the sums of their tallies. */
  lemma TalliesAppend(a: seq<Entry<real>>, b: seq<Entry<real>>)
    ensures var t, ta, tb := CategoryTallies(a + b), CategoryTallies(a), CategoryTallies(b);
      t.individual == ta.individual + tb.individual &&
      t.car == ta.car + tb.car &&
      t.regional == ta.regional + tb.regional
  {
    KeysAppend(a, b);
    KeysContainingAppend(Keys(a), Keys(b), "_ind_");
    KeysContainingAppend(Keys(a), Keys(b), "_car_");
    KeysContainingAppend(Keys(a), Keys(b), "_reg_");
  }

  /** One entry counts once in each tally whose marker its key contains. */
  lemma TallyOfOne(e: Entry<real>)
    ensures var t := CategoryTallies([e]);
      t.individual == (if Contains(e.key, "_ind_") then 1 else 0) &&
      t.car == (if Contains(e.key, "_car_") then 1 else 0) &&
      t.regional == (if Contains(e.key, "_reg_") then 1 else 0)
  {
    assert Keys([e]) == [e.key];
    KeysContainingOne(e.key, "_ind_");
    KeysContainingOne(e.key, "_car_");
    KeysContainingOne(e.key, "_reg_");
  }

  /** Keys with at most one category marker each: the tallies together
      count no key twice. */
  lemma TalliesAtMostKeys(importance: seq<Entry<real>>)
    requires forall k :: k in Keys(importance) ==> MarkerCount(k) <= 1
    ensures var t := CategoryTallies(importance);
      t.individual + t.car + t.regional <= |importance|
  {
    MarkedKeys(Keys(importance));
  }

  /** The number of category markers in a key. */
  function MarkerCount(k: string): nat {
    (if Contains(k, "_ind_") then 1 else 0) + (if Contains(k, "_car_") then 1 else 0)
      + (if Contains(k, "_reg_") then 1 else 0)
  }

  lemma {:induction false} MarkedKeys(keys: seq<string>)
    requires forall k :: k in keys ==> MarkerCount(k) <= 1
    ensures |KeysContaining(keys, "_ind_")| + |KeysContaining(keys, "_car_")|
      + |KeysContaining(keys, "_reg_")| <= |keys|
  {
    if keys != [] {
      var t, k := keys[..|keys| - 1], keys[|keys| - 1];
      assert forall x :: x in t ==> x in keys;
      MarkedKeys(t);
      assert k in keys;
    }
  }
}
