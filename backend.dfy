/** The Flask back end: validation of a `/predict` request, the risk label,
    the top feature importances, class counts and the `ps_reg_03` series. */
module Backend {
  import opened Wrappers
  import opened JsObject
  import opened Text
  import opened Ranking

  // Lists and names

  /** The names of `xs` that are not in `ys`, in `xs`'s order:
      `[f for f in xs if f not in ys]`. */
  function NotIn(xs: seq<string>, ys: seq<string>): (r: seq<string>)
    ensures |r| <= |xs|
    ensures forall x :: x in r <==> x in xs && x !in ys
    ensures (forall x :: x in xs ==> x in ys) ==> r == []
  {
    if xs == [] then []
    else NotIn(xs[..|xs| - 1], ys) + (if xs[|xs| - 1] in ys then [] else [xs[|xs| - 1]])
  }

  /** The comprehension keeps order: it distributes over concatenation. */
  lemma {:induction false} NotInAppend(a: seq<string>, b: seq<string>, ys: seq<string>)
    ensures NotIn(a + b, ys) == NotIn(a, ys) + NotIn(b, ys)
  {
    if b == [] {
      assert a + b == a;
    } else {
      var b', x := b[..|b| - 1], b[|b| - 1];
      var tail := if x in ys then [] else [x];
      calc {
        NotIn(a + b, ys);
      == { assert (a + b)[..|a + b| - 1] == a + b' && (a + b)[|a + b| - 1] == x; }
        NotIn(a + b', ys) + tail;
      == { NotInAppend(a, b', ys); }
        (NotIn(a, ys) + NotIn(b', ys)) + tail;
      ==
        NotIn(a, ys) + (NotIn(b', ys) + tail);
      }
    }
  }

  /** No repeated name. */
  predicate Distinct(xs: seq<string>) {
    forall i, j :: 0 <= i < j < |xs| ==> xs[i] != xs[j]
  }

  /** A list of distinct names has as many elements as its set. */
  lemma {:induction false} DistinctCard(xs: seq<string>)
    requires Distinct(xs)
    ensures |set x | x in xs| == |xs|
  {
    if xs != [] {
      var t := xs[..|xs| - 1];
      DistinctCard(t);
      assert (set x | x in xs) == (set x | x in t) + {xs[|xs| - 1]};
    }
  }

  /** Two lists of distinct names with the same length, one holding all of
      the other's names, hold the same names. */
  lemma SameNames(expected: seq<string>, keys: seq<string>)
    requires Distinct(expected) && Distinct(keys) && |expected| == |keys|
    requires forall x :: x in expected ==> x in keys
    ensures forall x :: x in keys ==> x in expected
  {
    var E, K := set x | x in expected, set x | x in keys;
    DistinctCard(expected);
    DistinctCard(keys);
    forall x | x in keys
      ensures x in expected
    {
      if x !in expected {
        SubsetCard(E, K - {x});
        assert false;
      }
    }
  }

  /** A subset is no larger than its superset. */
  lemma SubsetCard(a: set<string>, b: set<string>)
    requires a <= b
    ensures |a| <= |b|
    decreases a
  {
    if a != {} {
      var x :| x in a;
      SubsetCard(a - {x}, b - {x});
    }
  }

  // Messages

  /** `f'Expected {n} features, got {m}'`. */
  function CountMessage(expected: nat, got: nat): string {
    "Expected " + (NatToString(expected) + (" features, got " + NatToString(got)))
  }

  /** In `d + x == e + y` with `d` and `e` made of digits and `x` and `y`
      starting with a non-digit, `d == e` and `x == y`. */
  lemma DigitsPrefix(d: string, x: string, e: string, y: string)
    requires forall i :: 0 <= i < |d| ==> '0' <= d[i] <= '9'
    requires forall i :: 0 <= i < |e| ==> '0' <= e[i] <= '9'
    requires |x| > 0 && |y| > 0 && !('0' <= x[0] <= '9') && !('0' <= y[0] <= '9')
    requires d + x == e + y
    ensures d == e && x == y
  {
    var k := if |d| < |e| then |d| else |e|;
    assert (d + x)[k] == (e + y)[k];
    assert d == (d + x)[..|d|] == (e + y)[..|e|] == e;
    assert x == (d + x)[|d|..] == (e + y)[|e|..] == y;
  }

  /** Equal strings with a common prefix agree after it. */
  lemma StripPrefix(p: string, s: string, t: string)
    requires p + s == p + t
    ensures s == t
  {
    assert s == (p + s)[|p|..];
    assert t == (p + t)[|p|..];
  }

  /** The count message tells both counts: different counts give different
      messages. */
  lemma CountMessageInjective(n: nat, m: nat, n': nat, m': nat)
    requires CountMessage(n, m) == CountMessage(n', m')
    ensures n == n' && m == m'
  {
    var a, b := NatToString(n), NatToString(m);
    var a', b' := NatToString(n'), NatToString(m');
    var mid := " features, got ";
    StripPrefix("Expected ", a + (mid + b), a' + (mid + b'));
    DigitsPrefix(a, mid + b, a', mid + b');
    StripPrefix(mid, b, b');
    NatToStringInjective(n, n');
    NatToStringInjective(m, m');
  }

  /** The risk label of a predicted class. */
  function Label(pred: int): (l: string)
    ensures l == "High Risk" || l == "Low Risk"
  {
    if pred == 1 then "High Risk" else "Low Risk"
  }

  /** "High Risk" exactly for class 1. */
  lemma LabelHighIffOne(pred: int)
    ensures Label(pred) == "High Risk" <==> pred == 1
    ensures Label(pred) == "Low Risk" <==> pred != 1
  {
    if pred != 1 {
      assert Label(pred)[0] == 'L';
    }
  }

  // /predict

  /** The JSON body of a response. */
  datatype Body =
    | Failure(error: string)
    | CountMismatch(error: string, missingFeatures: seq<string>, unexpectedFeatures: seq<string>)
    | Prediction(riskLabel: string)

  datatype Response = Response(status: nat, body: Body)

  /** What the encoder, scaler and model do with a row: a predicted class,
      or an exception whose text is given. */
  datatype Outcome = Predicted(predictedClass: int) | Raised(text: string)

  /** The request's values in the expected column order:
      `pd.DataFrame([data])[EXPECTED_FEATURES]`. */
  function Row<V>(data: seq<Entry<V>>, expected: seq<string>): (row: seq<V>)
    requires forall x :: x in expected ==> x in Keys(data)
    ensures |row| == |expected|
    ensures forall i :: 0 <= i < |expected| ==> Lookup(data, expected[i]) == Some(row[i])
  {
    seq(|expected|, i requires 0 <= i < |expected| => Lookup(data, expected[i]).value)
  }

  /** The `/predict` handler. `data` is the parsed body, `None` when it is
      absent; `selectError` is the text of the exception column selection
      raises for the absent names, and `run` stands for the encoder, the
      scaler and the model. */
  function Predict<V>(data: Option<seq<Entry<V>>>, expected: seq<string>,
                      selectError: seq<string> -> string, run: seq<V> -> Outcome): (r: Response)
    requires data.Some? ==> DistinctKeys(data.value)
    ensures r.status == 400 <==> data.None? || data.value == [] || |data.value| != |expected|
    ensures (data.None? || data.value == []) ==> r == Response(400, Failure("No input data provided"))
    ensures r.status == 200 ==> r.body.Prediction? && (r.body.riskLabel == "High Risk" || r.body.riskLabel == "Low Risk")
    ensures r.status == 200 || r.status == 400 || r.status == 500
  {
    if data.None? || data.value == [] then
      Response(400, Failure("No input data provided"))
    else
      var keys := Keys(data.value);
      if |keys| != |expected| then
        Response(400, CountMismatch(CountMessage(|expected|, |keys|), NotIn(expected, keys), NotIn(keys, expected)))
      else
        var absent := NotIn(expected, keys);
        if absent != [] then Response(500, Failure(selectError(absent)))
        else
          match run(Row(data.value, expected))
          case Predicted(c) => Response(200, Prediction(Label(c)))
          case Raised(text) => Response(500, Failure(text))
  }

  /** A count mismatch reports both counts and the names on each side; with
      distinct names at least one of the two lists is non-empty. */
  lemma CountMismatchReport<V>(data: seq<Entry<V>>, expected: seq<string>,
                               selectError: seq<string> -> string, run: seq<V> -> Outcome)
    requires DistinctKeys(data) && Distinct(expected) && data != [] && |data| != |expected|
    ensures var r := Predict(Some(data), expected, selectError, run);
      r.status == 400 && r.body.CountMismatch? &&
      r.body.error == CountMessage(|expected|, |data|) &&
      (forall x :: x in r.body.missingFeatures <==> x in expected && x !in Keys(data)) &&
      (forall x :: x in r.body.unexpectedFeatures <==> x in Keys(data) && x !in expected) &&
      (r.body.missingFeatures != [] || r.body.unexpectedFeatures != [])
  {
    var keys := Keys(data);
    KeysDistinct(data);
    PredictOnMismatch(data, expected, selectError, run);
    MismatchNamesDiffer(expected, keys);
  }

  /** The names of an object are distinct. */
  lemma KeysDistinct<V>(data: seq<Entry<V>>)
    requires DistinctKeys(data)
    ensures Distinct(Keys(data))
  {
    var keys := Keys(data);
    forall i, j | 0 <= i < j < |keys| ensures keys[i] != keys[j] {
      assert keys[i] == data[i].key && keys[j] == data[j].key;
    }
  }

  /** A non-empty body with the wrong number of names takes the 400 branch. */
  lemma PredictOnMismatch<V>(data: seq<Entry<V>>, expected: seq<string>,
                             selectError: seq<string> -> string, run: seq<V> -> Outcome)
    requires DistinctKeys(data) && data != [] && |data| != |expected|
    ensures Predict(Some(data), expected, selectError, run)
      == Response(400, CountMismatch(CountMessage(|expected|, |data|),
                                     NotIn(expected, Keys(data)), NotIn(Keys(data), expected)))
  {
  }

  /** Two lists of distinct names of different lengths do not hold the same
      names: one of them has a name the other lacks. */
  lemma MismatchNamesDiffer(xs: seq<string>, ys: seq<string>)
    requires Distinct(xs) && Distinct(ys) && |xs| != |ys|
    ensures NotIn(xs, ys) != [] || NotIn(ys, xs) != []
  {
    if NotIn(xs, ys) == [] && NotIn(ys, xs) == [] {
      var X, Y := set x | x in xs, set y | y in ys;
      assert X == Y by {
        forall x | x in xs ensures x in ys {
          assert x !in NotIn(xs, ys);
        }
        forall y | y in ys ensures y in xs {
          assert y !in NotIn(ys, xs);
        }
      }
      DistinctCard(xs);
      DistinctCard(ys);
      assert false;
    }
  }

  /** With the right number of keys but a name that is not expected, column
      selection fails and the handler answers 500 with the exception text. */
  lemma WrongNamesGive500<V>(data: seq<Entry<V>>, expected: seq<string>,
                             selectError: seq<string> -> string, run: seq<V> -> Outcome, name: string)
    requires DistinctKeys(data) && Distinct(expected) && data != [] && |data| == |expected|
    requires name in Keys(data) && name !in expected
    ensures var r := Predict(Some(data), expected, selectError, run);
      r.status == 500 && r.body == Failure(selectError(NotIn(expected, Keys(data))))
  {
    var keys := Keys(data);
    KeysDistinct(data);
    if NotIn(expected, keys) == [] {
      SameNames(expected, keys);
    }
  }

  /** With exactly the expected names the model sees the values in the
      expected order, and its class decides the label. */
  lemma ExpectedNamesPredict<V>(data: seq<Entry<V>>, expected: seq<string>,
                                selectError: seq<string> -> string, run: seq<V> -> Outcome)
    requires DistinctKeys(data) && data != [] && |data| == |expected|
    requires forall x :: x in expected ==> x in Keys(data)
    ensures var r := Predict(Some(data), expected, selectError, run);
      var out := run(Row(data, expected));
      (out.Predicted? ==> r == Response(200, Prediction(Label(out.predictedClass)))) &&
      (out.Raised? ==> r == Response(500, Failure(out.text)))
  {
  }

  // /visualizations and friends

  /** `dict(zip(columns, importances))`, in column order. */
  function Zip(names: seq<string>, values: seq<real>): (r: seq<Entry<real>>)
    ensures |r| == if |names| < |values| then |names| else |values|
    ensures forall i :: 0 <= i < |r| ==> r[i] == Entry(names[i], values[i])
  {
    if names == [] || values == [] then []
    else [Entry(names[0], values[0])] + Zip(names[1..], values[1..])
  }

  /** `top_features`: the five highest importances, highest first. */
  function TopFeatures(names: seq<string>, importances: seq<real>): (r: seq<Entry<real>>)
    ensures |r| <= 5
    ensures |r| == if |Zip(names, importances)| < 5 then |Zip(names, importances)| else 5
    ensures SortedDesc(r)
    ensures multiset(r) <= multiset(Zip(names, importances))
  {
    var all := Zip(names, importances);
    TopKCorrect(all, 5);
    var r := TopK(all, 5);
    assert multiset(r) <= multiset(r) + multiset(SortDesc(all)[|r|..]);
    r
  }

  /** The five kept features are the most important ones: no pair left out
      has a higher importance than one kept, kept and left-out pairs
      together are all the pairs, and kept features of equal importance
      keep the columns' order. */
  lemma TopFeaturesIsTop(names: seq<string>, importances: seq<real>, v: real)
    ensures var all := Zip(names, importances);
      var r := TopFeatures(names, importances);
      var rest := SortDesc(all)[|r|..];
      multiset(r) + multiset(rest) == multiset(all) &&
      (forall i, j :: 0 <= i < |r| && 0 <= j < |rest| ==> rest[j].value <= r[i].value) &&
      WithValue(r, v) <= WithValue(all, v)
  {
    var all := Zip(names, importances);
    TopKCorrect(all, 5);
    TopKStable(all, 5, v);
  }

  /** A class count, 0 when the class is absent: `counts.get(c, 0)`. */
  function ClassCount(counts: map<int, nat>, c: int): nat {
    if c in counts then counts[c] else 0
  }

  /** `{'class_0': ..., 'class_1': ...}`. */
  datatype ClassCounts = ClassCounts(class0: nat, class1: nat)

  function TargetCounts(counts: map<int, nat>): ClassCounts {
    ClassCounts(ClassCount(counts, 0), ClassCount(counts, 1))
  }

  /** How many times `c` occurs in `ys`. */
  function Occurrences(ys: seq<int>, c: int): (n: nat)
    ensures n <= |ys|
    ensures n == 0 <==> c !in ys
  {
    if ys == [] then 0
    else Occurrences(ys[..|ys| - 1], c) + (if ys[|ys| - 1] == c then 1 else 0)
  }

  /** `value_counts().to_dict()`: the classes that occur, with their counts. */
  function ValueCounts(ys: seq<int>): (m: map<int, nat>)
    ensures forall c :: c in m <==> c in ys
  {
    map c | c in ys :: Occurrences(ys, c)
  }

  /** On binary labels the two class counts are the numbers of 0s and 1s,
      a missing class counting 0, and they add up to the number of labels. */
  lemma {:induction false} TargetCountsOfLabels(ys: seq<int>)
    requires forall i :: 0 <= i < |ys| ==> ys[i] == 0 || ys[i] == 1
    ensures TargetCounts(ValueCounts(ys)) == ClassCounts(Occurrences(ys, 0), Occurrences(ys, 1))
    ensures Occurrences(ys, 0) + Occurrences(ys, 1) == |ys|
  {
    if ys != [] {
      TargetCountsOfLabels(ys[..|ys| - 1]);
    }
  }

  /** `train_df['ps_reg_03'].replace(-1, median).tolist()[:1000]`, the median
      being given. */
  function PsReg03Series(column: seq<real>, median: real): (r: seq<real>)
    ensures |r| == if |column| < 1000 then |column| else 1000
  {
    var replaced := seq(|column|, i requires 0 <= i < |column| =>
      if column[i] == -1.0 then median else column[i]);
    Take(replaced, 1000)
  }

  /** The series is the column's first 1000 values with each -1 replaced by
      the median: no -1 is left unless the median is -1 itself. */
  lemma PsReg03SeriesReplaces(column: seq<real>, median: real)
    ensures var r := PsReg03Series(column, median);
      forall i :: 0 <= i < |r| ==>
        (column[i] == -1.0 ==> r[i] == median) &&
        (column[i] != -1.0 ==> r[i] == column[i]) &&
        (r[i] == -1.0 ==> median == -1.0)
  {
  }

  // /data_summary and /preprocessing_results

  /** The training columns without `id` and `target`:
      `train_df.drop(['id', 'target'], axis=1).columns`. */
  function FeatureColumns(columns: seq<string>): (r: seq<string>)
    ensures |r| <= |columns|
    ensures forall c :: c in r <==> c in columns && c != "id" && c != "target"
  {
    if columns == [] then []
    else
      var c := columns[|columns| - 1];
      FeatureColumns(columns[..|columns| - 1]) + (if c == "id" || c == "target" then [] else [c])
  }

  /** Dropping `id` and `target` from distinct columns removes exactly the
      ones present. */
  lemma {:induction false} FeatureColumnsCount(columns: seq<string>)
    requires Distinct(columns)
    ensures |FeatureColumns(columns)| ==
      |columns| - (if "id" in columns then 1 else 0) - (if "target" in columns then 1 else 0)
  {
    if columns != [] {
      var t, c := columns[..|columns| - 1], columns[|columns| - 1];
      assert columns == t + [c];
      assert c !in t by {
        forall i | 0 <= i < |t| ensures t[i] != c {
          assert columns[i] == t[i];
        }
      }
      FeatureColumnsCount(t);
    }
  }

  /** `missing_before`: for every feature column, its number of -1 cells,
      `minusOnes` standing for the pandas count. */
  function MissingBefore(columns: seq<string>, minusOnes: string -> nat): (r: seq<Entry<real>>)
    ensures Keys(r) == FeatureColumns(columns)
    ensures forall i :: 0 <= i < |r| ==> r[i].value == minusOnes(r[i].key) as real
  {
    var fs := FeatureColumns(columns);
    var r := seq(|fs|, i requires 0 <= i < |fs| => Entry(fs[i], minusOnes(fs[i]) as real));
    assert Keys(r) == fs;
    r
  }
}
