/** JavaScript's `toFixed(2)` read back as a number, on exact reals. */
module Rounding {

  /** `x` is a whole number of hundredths. */
  predicate OnCentGrid(x: real) {
    (x * 100.0).Floor as real == x * 100.0
  }

  /** Rounding a non-negative number to hundredths, halves upwards. */
  function RoundCentsUp(y: real): real
    requires y >= 0.0
  {
    (y * 100.0 + 0.5).Floor as real / 100.0
  }

  /** `parseFloat(x.toFixed(2))`: the nearest hundredth, halves away from 0
      (`toFixed` rounds the magnitude and restores the sign). */
  function ToFixed2(x: real): real {
    if x < 0.0 then -RoundCentsUp(-x) else RoundCentsUp(x)
  }

  /** A number between two whole hundredths stays between them when rounded
      to hundredths. */
  lemma RoundCentsUpBetween(y: real, lo: real, hi: real)
    requires 0.0 <= y && lo <= y <= hi && OnCentGrid(lo) && OnCentGrid(hi)
    ensures lo <= RoundCentsUp(y) <= hi
  {
    var n := (y * 100.0 + 0.5).Floor;
    var m, M := (lo * 100.0).Floor, (hi * 100.0).Floor;
    assert m as real == lo * 100.0 && M as real == hi * 100.0;
    assert m <= n <= M;
  }

  lemma ToFixed2Between(x: real, lo: real, hi: real)
    requires lo <= x <= hi && OnCentGrid(lo) && OnCentGrid(hi)
    ensures lo <= ToFixed2(x) <= hi
  {
    if x < 0.0 {
      assert OnCentGrid(-hi) && OnCentGrid(-lo) by {
        assert (-hi * 100.0).Floor == -(hi * 100.0).Floor;
        assert (-lo * 100.0).Floor == -(lo * 100.0).Floor;
      }
      RoundCentsUpBetween(-x, -hi, -lo);
    } else {
      RoundCentsUpBetween(x, lo, hi);
    }
  }

  /** Rounding to hundredths keeps the order of numbers. */
  lemma RoundCentsUpMonotone(x: real, y: real)
    requires 0.0 <= x <= y
    ensures RoundCentsUp(x) <= RoundCentsUp(y)
  {
    assert (x * 100.0 + 0.5).Floor <= (y * 100.0 + 0.5).Floor;
  }

  lemma ToFixed2Monotone(x: real, y: real)
    requires x <= y
    ensures ToFixed2(x) <= ToFixed2(y)
  {
    if x < 0.0 && y < 0.0 {
      RoundCentsUpMonotone(-y, -x);
    } else if 0.0 <= x {
      RoundCentsUpMonotone(x, y);
    }
  }
}
