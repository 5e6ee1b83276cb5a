/** The prediction form's static catalogue of 57 input features, each either
    a choice among listed options or a bounded number, and its grouping by
    category for display. */
module FeatureCatalogue {
  import opened Wrappers
  import opened JsObject
  import opened Rounding

  /** One declared input: a `select` with its options or a bounded `number`
      with an optional step. */
  datatype Feature =
    | Select(name: string, options: seq<real>, category: string)
    | Number(name: string, min: real, max: real, step: Option<real>, category: string)

  /** `Array.from({ length: n }, (_, i) => i)`: the options 0, 1, ..., n - 1. */
  function Range(n: nat): (r: seq<real>)
    ensures |r| == n && forall i :: 0 <= i < n ==> r[i] == i as real
  {
    if n == 0 then [] else Range(n - 1) + [(n - 1) as real]
  }

  const Individual: seq<Feature> := [
    Number("ps_ind_01", 0.0, 7.0, None, "Individual"),
    Select("ps_ind_02_cat", [1.0, 2.0, 3.0, 4.0], "Individual"),
    Number("ps_ind_03", 0.0, 11.0, None, "Individual"),
    Select("ps_ind_04_cat", [0.0, 1.0], "Individual"),
    Select("ps_ind_05_cat", [0.0, 1.0, 2.0, 3.0, 4.0, 5.0, 6.0], "Individual"),
    Select("ps_ind_06_bin", [0.0, 1.0], "Individual"),
    Select("ps_ind_07_bin", [0.0, 1.0], "Individual"),
    Select("ps_ind_08_bin", [0.0, 1.0], "Individual"),
    Select("ps_ind_09_bin", [0.0, 1.0], "Individual"),
    Select("ps_ind_10_bin", [0.0, 1.0], "Individual"),
    Select("ps_ind_11_bin", [0.0, 1.0], "Individual"),
    Select("ps_ind_12_bin", [0.0, 1.0], "Individual"),
    Select("ps_ind_13_bin", [0.0, 1.0], "Individual"),
    Number("ps_ind_14", 0.0, 4.0, None, "Individual"),
    Number("ps_ind_15", 0.0, 13.0, None, "Individual"),
    Select("ps_ind_16_bin", [0.0, 1.0], "Individual"),
    Select("ps_ind_17_bin", [0.0, 1.0], "Individual"),
    Select("ps_ind_18_bin", [0.0, 1.0], "Individual")
  ]

  const Regional: seq<Feature> := [
    Number("ps_reg_01", 0.0, 0.9, Some(0.1), "Regional"),
    Number("ps_reg_02", 0.0, 1.8, Some(0.1), "Regional"),
    Number("ps_reg_03", 0.0, 4.0, Some(0.1), "Regional")
  ]

  /** The car group: its `select` features, then its numbers. */
  const Car: seq<Feature> := CarSelects + CarNumbers

  const CarSelects: seq<Feature> := [
    Select("ps_car_01_cat", Range(12), "Car"),
    Select("ps_car_02_cat", [0.0, 1.0], "Car"),
    Select("ps_car_03_cat", [-1.0, 0.0, 1.0], "Car"),
    Select("ps_car_04_cat", Range(10), "Car"),
    Select("ps_car_05_cat", [-1.0, 0.0, 1.0], "Car"),
    Select("ps_car_06_cat", Range(18), "Car"),
    Select("ps_car_07_cat", [-1.0, 0.0, 1.0], "Car"),
    Select("ps_car_08_cat", [0.0, 1.0], "Car"),
    Select("ps_car_09_cat", [0.0, 1.0, 2.0, 3.0, 4.0], "Car"),
    Select("ps_car_10_cat", [0.0, 1.0, 2.0], "Car"),
    Select("ps_car_11_cat", Range(104), "Car")
  ]

  const CarNumbers: seq<Feature> := [
    Number("ps_car_11", -1.0, 3.0, None, "Car"),
    Number("ps_car_12", 0.0, 1.0, Some(0.01), "Car"),
    Number("ps_car_13", 0.0, 3.0, Some(0.01), "Car"),
    Number("ps_car_14", 0.0, 1.0, Some(0.01), "Car"),
    Number("ps_car_15", 0.0, 3.7, Some(0.01), "Car")
  ]

  const Calculated: seq<Feature> := [
    Number("ps_calc_01", 0.0, 0.9, Some(0.1), "Calculated"),
    Number("ps_calc_02", 0.0, 0.9, Some(0.1), "Calculated"),
    Number("ps_calc_03", 0.0, 0.9, Some(0.1), "Calculated"),
    Number("ps_calc_04", 0.0, 5.0, None, "Calculated"),
    Number("ps_calc_05", 0.0, 6.0, None, "Calculated"),
    Number("ps_calc_06", 0.0, 10.0, None, "Calculated"),
    Number("ps_calc_07", 0.0, 9.0, None, "Calculated"),
    Number("ps_calc_08", 0.0, 10.0, None, "Calculated"),
    Number("ps_calc_09", 0.0, 7.0, None, "Calculated"),
    Number("ps_calc_10", 0.0, 25.0, None, "Calculated"),
    Number("ps_calc_11", 0.0, 19.0, None, "Calculated"),
    Number("ps_calc_12", 0.0, 10.0, None, "Calculated"),
    Number("ps_calc_13", 0.0, 13.0, None, "Calculated"),
    Number("ps_calc_14", 0.0, 23.0, None, "Calculated"),
    Select("ps_calc_15_bin", [0.0, 1.0], "Calculated"),
    Select("ps_calc_16_bin", [0.0, 1.0], "Calculated"),
    Select("ps_calc_17_bin", [0.0, 1.0], "Calculated"),
    Select("ps_calc_18_bin", [0.0, 1.0], "Calculated"),
    Select("ps_calc_19_bin", [0.0, 1.0], "Calculated"),
    Select("ps_calc_20_bin", [0.0, 1.0], "Calculated")
  ]

  /** The catalogue in declaration order. */
  const Features: seq<Feature> := Individual + Regional + Car + Calculated

  /** No two features share a name. */
  predicate DistinctNames(fs: seq<Feature>) {
    forall i, j :: 0 <= i < j < |fs| ==> fs[i].name != fs[j].name
  }

  /** The letters at positions 3 and 5 of a name, which tell the four
      groups' prefixes apart: `ps_ind_`, `ps_reg_`, `ps_car_`, `ps_calc`. */
  function Tag(name: string): (char, char) {
    if |name| > 5 then (name[3], name[5]) else (' ', ' ')
  }

  /** Every feature's name has tag `t`. */
  predicate TaggedAs(fs: seq<Feature>, t: (char, char)) {
    forall i :: 0 <= i < |fs| ==> Tag(fs[i].name) == t
  }

  /** No feature's name has tag `t`. */
  predicate NoneTagged(fs: seq<Feature>, t: (char, char)) {
    forall i :: 0 <= i < |fs| ==> Tag(fs[i].name) != t
  }

  /** The value of a decimal digit character. */
  function Digit(c: char): int {
    (c as int) - ('0' as int)
  }

  /** A sort key read off a catalogue name: twice the two-digit number at
      position `at`, plus one when nothing follows the number (so that
      `ps_car_11_cat` and `ps_car_11` differ). */
  function NameKey(name: string, at: nat): int {
    if |name| < at + 2 then 0
    else 2 * (10 * Digit(name[at]) + Digit(name[at + 1])) + (if |name| == at + 2 then 1 else 0)
  }

  /** The keys of the names grow with the position in the list: the key of
      the `i`-th name lies in `[2i + c, 2i + c + 1]`. */
  predicate KeysGrow(fs: seq<Feature>, at: nat, c: int) {
    forall i :: 0 <= i < |fs| ==> 2 * i + c <= NameKey(fs[i].name, at) <= 2 * i + c + 1
  }

  lemma KeysGrowDistinct(fs: seq<Feature>, at: nat, c: int)
    requires KeysGrow(fs, at, c)
    ensures DistinctNames(fs)
  {
    forall i, j | 0 <= i < j < |fs|
      ensures fs[i].name != fs[j].name
    {
      assert NameKey(fs[i].name, at) < NameKey(fs[j].name, at);
    }
  }

  /** Names with one tag do not have another. */
  lemma OtherTag(fs: seq<Feature>, t: (char, char), u: (char, char))
    requires TaggedAs(fs, t) && t != u
    ensures NoneTagged(fs, u)
  {
  }

  /** Two lists of distinct names, the first all with one tag and the
      second with none of it, concatenate to a list of distinct names. */
  lemma DistinctConcat(a: seq<Feature>, b: seq<Feature>, t: (char, char))
    requires DistinctNames(a) && DistinctNames(b)
    requires TaggedAs(a, t) && NoneTagged(b, t)
    ensures DistinctNames(a + b)
  {
    forall i, j | 0 <= i < j < |a + b|
      ensures (a + b)[i].name != (a + b)[j].name
    {
      if i < |a| && |a| <= j {
        assert Tag(a[i].name) == t;
        assert Tag(b[j - |a|].name) != t;
      }
    }
  }

  /** Two lists without a tag concatenate to a list without it. */
  lemma NoneTaggedConcat(a: seq<Feature>, b: seq<Feature>, t: (char, char))
    requires NoneTagged(a, t) && NoneTagged(b, t)
    ensures NoneTagged(a + b, t)
  {
    forall i | 0 <= i < |a + b| ensures Tag((a + b)[i].name) != t {
      if i < |a| {
        assert (a + b)[i] == a[i];
      } else {
        assert (a + b)[i] == b[i - |a|];
      }
    }
  }

  /** Key growth carries over a concatenation whose second part continues
      the first's keys. */
  lemma KeysGrowConcat(a: seq<Feature>, b: seq<Feature>, at: nat, c: int)
    requires KeysGrow(a, at, c) && KeysGrow(b, at, c + 2 * |a|)
    ensures KeysGrow(a + b, at, c)
  {
    forall i | 0 <= i < |a + b|
      ensures 2 * i + c <= NameKey((a + b)[i].name, at) <= 2 * i + c + 1
    {
      if i < |a| {
        assert (a + b)[i] == a[i];
      } else {
        assert (a + b)[i] == b[i - |a|];
      }
    }
  }

  /** Two lists with one tag concatenate to a list with that tag. */
  lemma TaggedConcat(a: seq<Feature>, b: seq<Feature>, t: (char, char))
    requires TaggedAs(a, t) && TaggedAs(b, t)
    ensures TaggedAs(a + b, t)
  {
    forall i | 0 <= i < |a + b| ensures Tag((a + b)[i].name) == t {
      if i < |a| {
        assert (a + b)[i] == a[i];
      } else {
        assert (a + b)[i] == b[i - |a|];
      }
    }
  }

  const IndTag := ('i', 'd')
  const RegTag := ('r', 'g')
  const CarTag := ('c', 'r')
  const CalcTag := ('c', 'l')

  lemma IndividualKeysGrow() ensures KeysGrow(Individual, 7, 2) {}
  lemma IndividualTagged() ensures TaggedAs(Individual, IndTag) {}
  lemma RegionalKeysGrow() ensures KeysGrow(Regional, 7, 2) {}
  lemma RegionalTagged() ensures TaggedAs(Regional, RegTag) {}
  lemma CarKeysGrow() ensures KeysGrow(Car, 7, 1) {
    CarSelectsKeysGrow(); CarNumbersKeysGrow();
    KeysGrowConcat(CarSelects, CarNumbers, 7, 1);
  }
  lemma CarSelectsKeysGrow() ensures KeysGrow(CarSelects, 7, 1) {}
  lemma CarNumbersKeysGrow() ensures KeysGrow(CarNumbers, 7, 23) {}
  lemma CarTagged() ensures TaggedAs(Car, CarTag) {
    CarSelectsTagged(); CarNumbersTagged();
    TaggedConcat(CarSelects, CarNumbers, CarTag);
  }
  lemma CarSelectsTagged() ensures TaggedAs(CarSelects, CarTag) {}
  lemma CarNumbersTagged() ensures TaggedAs(CarNumbers, CarTag) {}
  lemma CalculatedKeysGrow() ensures KeysGrow(Calculated, 8, 2) {}
  lemma CalculatedTagged() ensures TaggedAs(Calculated, CalcTag) {}

  /** The car and calculated features have distinct names, none tagged as
      regional or individual. */
  lemma CarCalculatedDistinct()
    ensures DistinctNames(Car + Calculated)
    ensures NoneTagged(Car + Calculated, RegTag)
    ensures NoneTagged(Car + Calculated, IndTag)
  {
    CarKeysGrow(); CarTagged(); CalculatedKeysGrow(); CalculatedTagged();
    KeysGrowDistinct(Car, 7, 1);
    KeysGrowDistinct(Calculated, 8, 2);
    OtherTag(Calculated, CalcTag, CarTag);
    DistinctConcat(Car, Calculated, CarTag);
    OtherTag(Car, CarTag, RegTag);
    OtherTag(Calculated, CalcTag, RegTag);
    NoneTaggedConcat(Car, Calculated, RegTag);
    OtherTag(Car, CarTag, IndTag);
    OtherTag(Calculated, CalcTag, IndTag);
    NoneTaggedConcat(Car, Calculated, IndTag);
  }

  /** Adding the regional features keeps the names distinct and none
      tagged as individual. */
  lemma RegionalOnwardDistinct()
    ensures DistinctNames(Regional + (Car + Calculated))
    ensures NoneTagged(Regional + (Car + Calculated), IndTag)
  {
    CarCalculatedDistinct();
    RegionalKeysGrow(); RegionalTagged();
    KeysGrowDistinct(Regional, 7, 2);
    DistinctConcat(Regional, Car + Calculated, RegTag);
    OtherTag(Regional, RegTag, IndTag);
    NoneTaggedConcat(Regional, Car + Calculated, IndTag);
  }

  /** The catalogue declares 57 features under 57 different names. */
  lemma CatalogueNamesDistinct()
    ensures |Features| == 57
    ensures DistinctNames(Features)
  {
    RegionalOnwardDistinct();
    IndividualKeysGrow(); IndividualTagged();
    KeysGrowDistinct(Individual, 7, 2);
    DistinctConcat(Individual, Regional + (Car + Calculated), IndTag);
    FeaturesInGroups();
  }

  /** The catalogue is the four groups one after the other: 18 individual,
      3 regional, 16 car and 20 calculated features. */
  lemma FeaturesInGroups()
    ensures Features == Individual + (Regional + (Car + Calculated))
    ensures |Features| == 57
  {
    assert |Individual| == 18 && |Regional| == 3 && |Car| == 16 && |Calculated| == 20;
  }

  /** What the catalogue promises of each declared domain: a `select` offers
      at least one option and a `number` has `min <= max`. */
  predicate WellFormed(f: Feature) {
    match f
    case Select(_, options, _) => |options| > 0
    case Number(_, lo, hi, _, _) => lo <= hi
  }

  /** A value the form may hold for a feature: one of the options of a
      `select`, a number within the bounds of a `number`. */
  predicate InDomain(f: Feature, x: real) {
    match f
    case Select(_, options, _) => x in options
    case Number(_, lo, hi, _, _) => lo <= x <= hi
  }

  /** The facts about a `number` feature that the sample filler relies on:
      its bounds are whole hundredths and its maximum is not 0 (so that
      `max || 1` is the maximum itself). */
  predicate SampleReady(f: Feature) {
    f.Number? ==> f.max != 0.0 && OnCentGrid(f.min) && OnCentGrid(f.max)
  }

  predicate AllWellFormed(fs: seq<Feature>) {
    forall i :: 0 <= i < |fs| ==> WellFormed(fs[i]) && SampleReady(fs[i])
  }

  lemma IndividualWellFormed() ensures AllWellFormed(Individual) {}
  lemma RegionalWellFormed() ensures AllWellFormed(Regional) {}
  lemma CarWellFormed() ensures AllWellFormed(Car) {
    CarSelectsWellFormed(); CarNumbersWellFormed();
    forall i | 0 <= i < |Car| ensures WellFormed(Car[i]) && SampleReady(Car[i]) {
      if i < |CarSelects| {
        assert Car[i] == CarSelects[i];
      } else {
        assert Car[i] == CarNumbers[i - |CarSelects|];
      }
    }
  }
  lemma CarSelectsWellFormed() ensures AllWellFormed(CarSelects) {}
  lemma CarNumbersWellFormed() ensures AllWellFormed(CarNumbers) {}
  lemma CalculatedWellFormed() ensures AllWellFormed(Calculated) {}

  /** Every `select` in the catalogue has options and every `number` has
      `min <= max`, with bounds in whole hundredths and a non-zero maximum. */
  lemma CatalogueWellFormed()
    ensures forall i :: 0 <= i < |Features| ==> WellFormed(Features[i]) && SampleReady(Features[i])
  {
    IndividualWellFormed(); RegionalWellFormed(); CarWellFormed(); CalculatedWellFormed();
    assert Features == Individual + Regional + Car + Calculated;
    forall i | 0 <= i < |Features|
      ensures WellFormed(Features[i]) && SampleReady(Features[i])
    {
      var a, b, c := |Individual|, |Individual| + |Regional|, |Individual| + |Regional| + |Car|;
      if i < a { assert Features[i] == Individual[i]; }
      else if i < b { assert Features[i] == Regional[i - a]; }
      else if i < c { assert Features[i] == Car[i - b]; }
      else { assert Features[i] == Calculated[i - c]; }
    }
  }

}
