/** The visualization page's `createHistogram`: equal-width binning of a
    numeric sample into `bins` bins labelled by their lower bounds. */
module Histogram {
  import opened Wrappers
  import opened Rounding

  /** `Math.min(...xs)` for a non-empty list. */
  function SeqMin(xs: seq<real>): (m: real)
    requires |xs| > 0
    ensures m in xs && forall i :: 0 <= i < |xs| ==> m <= xs[i]
  {
    if |xs| == 1 then xs[0]
    else
      var m := SeqMin(xs[..|xs| - 1]);
      if xs[|xs| - 1] < m then xs[|xs| - 1] else m
  }

  /** `Math.max(...xs)` for a non-empty list. */
  function SeqMax(xs: seq<real>): (m: real)
    requires |xs| > 0
    ensures m in xs && forall i :: 0 <= i < |xs| ==> xs[i] <= m
  {
    if |xs| == 1 then xs[0]
    else
      var m := SeqMax(xs[..|xs| - 1]);
      if xs[|xs| - 1] > m then xs[|xs| - 1] else m
  }

  /** `(max - min) / bins`. */
  function BinWidth(lo: real, hi: real, bins: nat): real
    requires bins > 0
  {
    (hi - lo) / bins as real
  }

  /** The label of bin `i`: its lower bound `min + i * binWidth`. */
  function BinLabel(lo: real, hi: real, bins: nat, i: int): real
    requires bins > 0
  {
    lo + i as real * BinWidth(lo, hi, bins)
  }

  /** The bin of a value `v` of a sample spanning `[lo, hi]`:
      `Math.min(Math.floor((v - min) / binWidth), bins - 1)`, the clamp
      taking the maximum into the last bin. A sample whose values are all
      equal has width 0; its values all go to the first bin. */
  function BinOf(v: real, lo: real, hi: real, bins: nat): (b: int)
    requires bins > 0 && lo <= v <= hi
    ensures 0 <= b < bins
  {
    if hi == lo then 0
    else
      var w := BinWidth(lo, hi, bins);
      RatioBounds(v, lo, hi, bins);
      var f := ((v - lo) / w).Floor;
      if f < bins - 1 then f else bins - 1
  }

  /** `0 <= (v - min) / binWidth <= bins` for a value of the sample. */
  lemma RatioBounds(v: real, lo: real, hi: real, bins: nat)
    requires bins > 0 && lo <= v <= hi && lo < hi
    ensures BinWidth(lo, hi, bins) > 0.0
    ensures 0.0 <= (v - lo) / BinWidth(lo, hi, bins) <= bins as real
  {
    var w := BinWidth(lo, hi, bins);
    var n := bins as real;
    assert w * n == hi - lo;
    var q := (v - lo) / w;
    assert q * w == v - lo;
    assert q * w <= n * w;
  }

  /** `(max - min) / binWidth == bins` for a sample that is not constant. */
  lemma SpanIsBins(lo: real, hi: real, bins: nat)
    requires bins > 0 && lo < hi
    ensures BinWidth(lo, hi, bins) > 0.0
    ensures (hi - lo) / BinWidth(lo, hi, bins) == bins as real
  {
    var w := BinWidth(lo, hi, bins);
    assert w * bins as real == hi - lo;
  }

  /** Counting one more value adds one to its bin and nothing elsewhere. */
  lemma CountInStep(xs: seq<real>, i: nat, lo: real, hi: real, bins: nat, b: int)
    requires bins > 0 && i < |xs| && forall j :: 0 <= j < |xs| ==> lo <= xs[j] <= hi
    ensures CountIn(xs[..i + 1], lo, hi, bins, b)
      == CountIn(xs[..i], lo, hi, bins, b) + (if BinOf(xs[i], lo, hi, bins) == b then 1 else 0)
  {
    assert xs[..i + 1][..i] == xs[..i];
  }

  /** The number of values of `xs` that fall into bin `b`. */
  function CountIn(xs: seq<real>, lo: real, hi: real, bins: nat, b: int): nat
    requires bins > 0 && forall i :: 0 <= i < |xs| ==> lo <= xs[i] <= hi
  {
    if xs == [] then 0
    else
      CountIn(xs[..|xs| - 1], lo, hi, bins, b)
        + (if BinOf(xs[|xs| - 1], lo, hi, bins) == b then 1 else 0)
  }

  /** The sum of a list of counts. */
  function SumCounts(cs: seq<int>): int {
    if cs == [] then 0 else SumCounts(cs[..|cs| - 1]) + cs[|cs| - 1]
  }

  /** `binCounts[k]++` adds one to the total. */
  lemma {:induction false} SumCountsIncrement(cs: seq<int>, k: int)
    requires 0 <= k < |cs|
    ensures SumCounts(cs[k := cs[k] + 1]) == SumCounts(cs) + 1
  {
    var ds := cs[k := cs[k] + 1];
    if k < |cs| - 1 {
      assert ds[..|ds| - 1] == cs[..|cs| - 1][k := cs[k] + 1];
      SumCountsIncrement(cs[..|cs| - 1], k);
    } else {
      assert ds[..|ds| - 1] == cs[..|cs| - 1];
    }
  }

  /** A list of zeros sums to zero. */
  lemma {:induction false} SumCountsZeros(cs: seq<int>)
    requires forall i :: 0 <= i < |cs| ==> cs[i] == 0
    ensures SumCounts(cs) == 0
  {
    if cs != [] {
      SumCountsZeros(cs[..|cs| - 1]);
    }
  }

  /** The chart data: one label (the lower bound of the bin, to two
      decimals) and one count per bin. */
  datatype HistogramData = HistogramData(labels: seq<real>, counts: seq<int>)

  /** `createHistogram(values, bins)`. The labels are `min + i * binWidth`
      and every value is counted once, in its bin, so the counts add up to
      the number of values. */
  method CreateHistogram(values: seq<real>, bins: nat) returns (h: HistogramData)
    requires |values| > 0 && bins > 0
    ensures |h.labels| == bins && |h.counts| == bins
    ensures forall i :: 0 <= i < bins ==>
      h.labels[i] == ToFixed2(BinLabel(SeqMin(values), SeqMax(values), bins, i))
    ensures forall b :: 0 <= b < bins ==>
      h.counts[b] == CountIn(values, SeqMin(values), SeqMax(values), bins, b)
    ensures SumCounts(h.counts) == |values|
  {
    var min := SeqMin(values);
    var max := SeqMax(values);
    var binCounts := new int[bins](_ => 0);
    var binLabels := [];
    for i := 0 to bins
      invariant |binLabels| == i
      invariant forall j :: 0 <= j < i ==> binLabels[j] == ToFixed2(BinLabel(min, max, bins, j))
    {
      binLabels := binLabels + [ToFixed2(BinLabel(min, max, bins, i))];
    }
    SumCountsZeros(binCounts[..]);
    for i := 0 to |values|
      invariant forall b :: 0 <= b < bins ==> binCounts[b] == CountIn(values[..i], min, max, bins, b)
      invariant SumCounts(binCounts[..]) == i
    {
      var value := values[i];
      var binIndex := BinOf(value, min, max, bins);
      forall b | 0 <= b < bins {
        CountInStep(values, i, min, max, bins, b);
      }
      SumCountsIncrement(binCounts[..], binIndex);
      binCounts[binIndex] := binCounts[binIndex] + 1;
    }
    assert values[..|values|] == values;
    h := HistogramData(binLabels, binCounts[..]);
  }

  /** The minimum lands in the first bin. */
  lemma MinInFirstBin(values: seq<real>, bins: nat)
    requires |values| > 0 && bins > 0
    ensures BinOf(SeqMin(values), SeqMin(values), SeqMax(values), bins) == 0
  {
    var lo, hi := SeqMin(values), SeqMax(values);
    assert lo <= values[0] <= hi;
    if lo != hi {
      RatioBounds(lo, lo, hi, bins);
      var w := BinWidth(lo, hi, bins);
      assert (lo - lo) / w == 0.0;
      assert ((lo - lo) / w).Floor == 0;
    }
  }

  /** The maximum of a non-constant sample lands in the last bin, through
      the clamp: without it its index would be `bins`. */
  lemma MaxInLastBin(values: seq<real>, bins: nat)
    requires |values| > 0 && bins > 0 && SeqMin(values) < SeqMax(values)
    ensures BinOf(SeqMax(values), SeqMin(values), SeqMax(values), bins) == bins - 1
    ensures ((SeqMax(values) - SeqMin(values)) / BinWidth(SeqMin(values), SeqMax(values), bins)).Floor == bins
  {
    var lo, hi := SeqMin(values), SeqMax(values);
    SpanIsBins(lo, hi, bins);
    var q := (hi - lo) / BinWidth(lo, hi, bins);
    assert q == bins as real;
    assert q.Floor == bins;
  }

  /** The bin of a value is the one whose range holds it: its label is at
      most the value, and the next label is above it unless it is the last
      bin, which ends at the maximum. */
  lemma BinHoldsValue(v: real, lo: real, hi: real, bins: nat)
    requires bins > 0 && lo <= v <= hi && lo < hi
    ensures var b := BinOf(v, lo, hi, bins);
      BinLabel(lo, hi, bins, b) <= v && (b < bins - 1 ==> v < BinLabel(lo, hi, bins, b + 1))
  {
    var b, w := BinOf(v, lo, hi, bins), BinWidth(lo, hi, bins);
    RatioBounds(v, lo, hi, bins);
    var q := (v - lo) / w;
    assert q * w == v - lo;
    var f := q.Floor;
    assert b <= f;
    assert b as real <= q;
    assert b as real * w <= q * w;
    if b < bins - 1 {
      assert b == f;
      assert q < (b + 1) as real;
      assert q * w < (b + 1) as real * w;
    }
  }

  /** The labels rise from bin to bin (or stay put for a constant sample),
      starting at the minimum. */
  lemma LabelsOrdered(lo: real, hi: real, bins: nat, i: int, j: int)
    requires bins > 0 && lo <= hi && i <= j
    ensures ToFixed2(BinLabel(lo, hi, bins, i)) <= ToFixed2(BinLabel(lo, hi, bins, j))
    ensures BinLabel(lo, hi, bins, 0) == lo
  {
    var w := BinWidth(lo, hi, bins);
    assert w >= 0.0;
    assert (j - i) as real * w >= 0.0;
    ToFixed2Monotone(BinLabel(lo, hi, bins, i), BinLabel(lo, hi, bins, j));
  }

  // The code as written, on a sample whose values are all equal

  /** The bin index the code computes. When all values are equal the width
      is 0 and `(value - min) / binWidth` is `0 / 0`, which is NaN; so is
      the index, and `binCounts[NaN]++` touches no bin: `None` here. */
  function BinOfAsWritten(v: real, lo: real, hi: real, bins: nat): (b: Option<int>)
    requires bins > 0 && lo <= v <= hi
    ensures b.Some? ==> 0 <= b.value < bins
  {
    var w := BinWidth(lo, hi, bins);
    if w == 0.0 then None
    else
      RatioBounds(v, lo, hi, bins);
      var f := ((v - lo) / w).Floor;
      Some(if f < bins - 1 then f else bins - 1)
  }

  /** The number of values the code as written puts into bin `b`. */
  function CountInAsWritten(xs: seq<real>, lo: real, hi: real, bins: nat, b: int): nat
    requires bins > 0 && forall i :: 0 <= i < |xs| ==> lo <= xs[i] <= hi
  {
    if xs == [] then 0
    else
      CountInAsWritten(xs[..|xs| - 1], lo, hi, bins, b)
        + (if BinOfAsWritten(xs[|xs| - 1], lo, hi, bins) == Some(b) then 1 else 0)
  }

  /** The counts the code as written returns. */
  function CountsAsWritten(values: seq<real>, bins: nat): (cs: seq<int>)
    requires |values| > 0 && bins > 0
    ensures |cs| == bins
  {
    seq(bins, b requires 0 <= b < bins =>
      CountInAsWritten(values, SeqMin(values), SeqMax(values), bins, b))
  }

  /** On a sample that is not constant the code as written agrees with the
      corrected binning. */
  lemma {:induction false} AsWrittenAgreesWhenSpread(xs: seq<real>, lo: real, hi: real, bins: nat, b: int)
    requires bins > 0 && lo < hi && forall i :: 0 <= i < |xs| ==> lo <= xs[i] <= hi
    ensures CountInAsWritten(xs, lo, hi, bins, b) == CountIn(xs, lo, hi, bins, b)
  {
    if xs != [] {
      AsWrittenAgreesWhenSpread(xs[..|xs| - 1], lo, hi, bins, b);
      RatioBounds(xs[|xs| - 1], lo, hi, bins);
    }
  }

  /** On a constant sample the code as written counts nothing. */
  lemma {:induction false} AsWrittenDropsConstant(xs: seq<real>, lo: real, bins: nat, b: int)
    requires bins > 0 && forall i :: 0 <= i < |xs| ==> xs[i] == lo
    ensures CountInAsWritten(xs, lo, lo, bins, b) == 0
  {
    if xs != [] {
      AsWrittenDropsConstant(xs[..|xs| - 1], lo, bins, b);
    }
  }

  /** On a constant sample the corrected binning puts every value into the
      first bin. */
  lemma {:induction false} ConstantInFirstBin(xs: seq<real>, lo: real, bins: nat)
    requires bins > 0 && forall i :: 0 <= i < |xs| ==> xs[i] == lo
    ensures CountIn(xs, lo, lo, bins, 0) == |xs|
  {
    if xs != [] {
      ConstantInFirstBin(xs[..|xs| - 1], lo, bins);
    }
  }

  /** The discrepancy: the sample `[5, 5, 5, 5]` in the default 20 bins
      gives an empty histogram as written, while the corrected binning
      counts all four values. */
  lemma ConstantSampleLost()
    ensures SumCounts(CountsAsWritten([5.0, 5.0, 5.0, 5.0], 20)) == 0
    ensures CountIn([5.0, 5.0, 5.0, 5.0], 5.0, 5.0, 20, 0) == 4
  {
    var xs := [5.0, 5.0, 5.0, 5.0];
    assert SeqMin(xs) == 5.0 && SeqMax(xs) == 5.0;
    var cs := CountsAsWritten(xs, 20);
    forall b | 0 <= b < 20
      ensures cs[b] == 0
    {
      AsWrittenDropsConstant(xs, 5.0, 20, b);
    }
    SumCountsZeros(cs);
    ConstantInFirstBin(xs, 5.0, 20);
  }
}
