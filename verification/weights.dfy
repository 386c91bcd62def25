/** The inverse-frequency weights of `_calculate_weighted_count`: each frontier gene gets a weight
    that falls as the number of times it has been in a population grows, scaled to sum to one.
    The arithmetic is on reals; the source's floats are not modelled. */
module Weights {
  import opened Wrappers

  /** `max()` of a non-empty list; `max([])` raises `ValueError`. */
  function Max(s: seq<nat>): (m: nat)
    requires |s| > 0
    ensures m in s && forall i | 0 <= i < |s| :: s[i] <= m
  {
    if |s| == 1 then s[0]
    else
      var rest := Max(s[1..]);
      assert s == [s[0]] + s[1..];
      if s[0] >= rest then s[0] else rest
  }

  /** `min()` of a non-empty list. */
  function Min(s: seq<nat>): (m: nat)
    requires |s| > 0
    ensures m in s && forall i | 0 <= i < |s| :: m <= s[i]
  {
    if |s| == 1 then s[0]
    else
      var rest := Min(s[1..]);
      assert s == [s[0]] + s[1..];
      if s[0] <= rest then s[0] else rest
  }

  function Sum(xs: seq<real>): real
  {
    if xs == [] then 0.0 else xs[0] + Sum(xs[1..])
  }

  /** `counts_max if counts_max == counts_min else counts_max - counts_min` */
  function CountRange(counts: seq<nat>): nat
    requires |counts| > 0
  {
    if Max(counts) == Min(counts) then Max(counts) else Max(counts) - Min(counts)
  }

  /** `(count - counts_min) / counts_range` for every count. */
  function Scaled(counts: seq<nat>): (r: seq<real>)
    requires |counts| > 0 && CountRange(counts) > 0
    ensures |r| == |counts|
  {
    seq(|counts|, i requires 0 <= i < |counts| => (counts[i] - Min(counts)) as real / CountRange(counts) as real)
  }

  /** `1.0 / (scaled_count + 1)` for every scaled count. */
  function Inverse(scaled: seq<real>): (r: seq<real>)
    requires forall i | 0 <= i < |scaled| :: scaled[i] >= 0.0
    ensures |r| == |scaled|
  {
    seq(|scaled|, i requires 0 <= i < |scaled| => 1.0 / (scaled[i] + 1.0))
  }

  /** Every element divided by `d`. */
  function DivideAll(xs: seq<real>, d: real): (r: seq<real>)
    requires d != 0.0
    ensures |r| == |xs| && forall i | 0 <= i < |xs| :: r[i] == xs[i] / d
  {
    if xs == [] then [] else [xs[0] / d] + DivideAll(xs[1..], d)
  }

  datatype WeightError =
    | EmptyFrontier  // `max()` of the empty list of frontier counts
    | ZeroRange      // every count is zero, so the division by `counts_range` fails

  /** `_calculate_weighted_count` on the frontier's counts. */
  function WeightedCount(counts: seq<nat>): (r: Result<seq<real>, WeightError>)
    ensures r == Err(EmptyFrontier) <==> |counts| == 0
    ensures r == Err(ZeroRange) <==> |counts| > 0 && CountRange(counts) == 0
    ensures r.Ok? ==> |r.value| == |counts|
  {
    if |counts| == 0 then Err(EmptyFrontier)
    else if CountRange(counts) == 0 then Err(ZeroRange)
    else
      var scaled := Scaled(counts);
      ScaledInUnit(counts);
      var inverse := Inverse(scaled);
      InversePositive(scaled);
      SumPositive(inverse);
      Ok(DivideAll(inverse, Sum(inverse)))
  }

  /** Every scaled count lies in [0, 1]. */
  lemma ScaledInUnit(counts: seq<nat>)
    requires |counts| > 0 && CountRange(counts) > 0
    ensures forall i | 0 <= i < |counts| :: 0.0 <= Scaled(counts)[i] <= 1.0
  {
    var lo, range := Min(counts), CountRange(counts);
    forall i | 0 <= i < |counts|
      ensures 0.0 <= Scaled(counts)[i] <= 1.0
    {
      var num := (counts[i] - lo) as real;
      assert 0.0 <= num <= range as real;
      DivideInUnit(num, range as real);
    }
  }

  lemma DivideInUnit(num: real, den: real)
    requires 0.0 <= num <= den && den > 0.0
    ensures 0.0 <= num / den <= 1.0
  {
  }

  lemma InversePositive(scaled: seq<real>)
    requires forall i | 0 <= i < |scaled| :: scaled[i] >= 0.0
    ensures forall i | 0 <= i < |scaled| :: 0.0 < Inverse(scaled)[i] <= 1.0
  {
  }

  lemma {:induction false} SumPositive(xs: seq<real>)
    requires |xs| > 0 && forall i | 0 <= i < |xs| :: xs[i] > 0.0
    ensures Sum(xs) > 0.0
    decreases |xs|
  {
    if |xs| > 1 {
      SumPositive(xs[1..]);
    } else {
      assert xs[1..] == [];
    }
  }

  lemma {:induction false} SumDivideAll(xs: seq<real>, d: real)
    requires d != 0.0
    ensures Sum(DivideAll(xs, d)) == Sum(xs) / d
    decreases |xs|
  {
    if xs != [] {
      SumDivideAll(xs[1..], d);
      assert DivideAll(xs, d)[1..] == DivideAll(xs[1..], d);
      calc {
        Sum(DivideAll(xs, d));
        xs[0] / d + Sum(DivideAll(xs[1..], d));
        xs[0] / d + Sum(xs[1..]) / d;
        { DivisionAdds(xs[0], Sum(xs[1..]), d); }
        (xs[0] + Sum(xs[1..])) / d;
      }
    }
  }

  lemma DivisionAdds(a: real, b: real, d: real)
    requires d != 0.0
    ensures a / d + b / d == (a + b) / d
  {
  }

  /** The weights exist exactly when the frontier is not empty and some count is positive. */
  lemma WeightedCountSucceeds(counts: seq<nat>)
    ensures WeightedCount(counts).Ok? <==> |counts| > 0 && Max(counts) > 0
  {
    if |counts| > 0 && Max(counts) > 0 && Max(counts) != Min(counts) {
      assert Min(counts) < Max(counts);
    }
  }

  /** One weight per frontier gene; every weight is positive and they sum to one. */
  lemma WeightsDistribution(counts: seq<nat>)
    requires WeightedCount(counts).Ok?
    ensures var w := WeightedCount(counts).value;
            && |w| == |counts|
            && (forall i | 0 <= i < |w| :: w[i] > 0.0)
            && Sum(w) == 1.0
  {
    var scaled := Scaled(counts);
    ScaledInUnit(counts);
    var inverse := Inverse(scaled);
    InversePositive(scaled);
    SumPositive(inverse);
    assert WeightedCount(counts).value == DivideAll(inverse, Sum(inverse));
    Normalised(inverse);
  }

  /** Positive numbers divided by their sum are positive and sum to one. */
  lemma Normalised(xs: seq<real>)
    requires |xs| > 0 && forall i | 0 <= i < |xs| :: xs[i] > 0.0
    ensures Sum(xs) > 0.0
    ensures var w := DivideAll(xs, Sum(xs));
            && (forall i | 0 <= i < |w| :: w[i] > 0.0)
            && Sum(w) == 1.0
  {
    SumPositive(xs);
    var total := Sum(xs);
    SumDivideAll(xs, total);
    var w := DivideAll(xs, total);
    forall i | 0 <= i < |w|
      ensures w[i] > 0.0
    {
      PositiveQuotient(xs[i], total);
    }
    SelfQuotient(total);
  }

  lemma SelfQuotient(t: real)
    requires t != 0.0
    ensures t / t == 1.0
  {
  }

  lemma PositiveQuotient(a: real, b: real)
    requires a > 0.0 && b > 0.0
    ensures a / b > 0.0
  {
  }

  /** A gene counted less often never gets a smaller weight. */
  lemma WeightsMonotone(counts: seq<nat>, i: nat, j: nat)
    requires WeightedCount(counts).Ok?
    requires i < |counts| && j < |counts| && counts[i] <= counts[j]
    ensures WeightedCount(counts).value[i] >= WeightedCount(counts).value[j]
  {
    var lo, range := Min(counts), CountRange(counts) as real;
    var scaled := Scaled(counts);
    ScaledInUnit(counts);
    var inverse := Inverse(scaled);
    InversePositive(scaled);
    SumPositive(inverse);
    var total := Sum(inverse);
    QuotientMonotone((counts[i] - lo) as real, (counts[j] - lo) as real, range);
    assert scaled[i] <= scaled[j];
    ReciprocalAntitone(scaled[i] + 1.0, scaled[j] + 1.0);
    assert inverse[i] >= inverse[j];
    QuotientMonotone(inverse[j], inverse[i], total);
  }

  lemma QuotientMonotone(a: real, b: real, d: real)
    requires a <= b && d > 0.0
    ensures a / d <= b / d
  {
  }

  lemma ReciprocalAntitone(a: real, b: real)
    requires 0.0 < a <= b
    ensures 1.0 / a >= 1.0 / b
  {
  }

  /** When every count is the same positive number, the range is that count and every gene gets the
      same weight, one over the frontier size. */
  lemma EqualCountsUniform(counts: seq<nat>)
    requires |counts| > 0 && counts[0] > 0
    requires forall i | 0 <= i < |counts| :: counts[i] == counts[0]
    ensures CountRange(counts) == Max(counts) == counts[0]
    ensures WeightedCount(counts).Ok?
    ensures forall i | 0 <= i < |counts| :: WeightedCount(counts).value[i] == 1.0 / |counts| as real
  {
    EqualCountsUnscaled(counts);
    var inverse := Inverse(Scaled(counts));
    SumOnes(inverse);
    var n := |counts| as real;
    assert WeightedCount(counts) == Ok(DivideAll(inverse, n));
  }

  /** When every count equals the first, so do the maximum, the minimum and the range. */
  lemma EqualCountsBounds(counts: seq<nat>)
    requires |counts| > 0 && counts[0] > 0
    requires forall i | 0 <= i < |counts| :: counts[i] == counts[0]
    ensures Max(counts) == counts[0] && Min(counts) == counts[0] && CountRange(counts) == counts[0]
  {
    var hi, lo := Max(counts), Min(counts);
    var j :| 0 <= j < |counts| && counts[j] == hi;
    var k :| 0 <= k < |counts| && counts[k] == lo;
  }

  /** Equal counts all scale to zero, so every inverse is one. */
  lemma EqualCountsUnscaled(counts: seq<nat>)
    requires |counts| > 0 && counts[0] > 0
    requires forall i | 0 <= i < |counts| :: counts[i] == counts[0]
    ensures Max(counts) == counts[0] && Min(counts) == counts[0] && CountRange(counts) == counts[0]
    ensures forall i | 0 <= i < |counts| :: Scaled(counts)[i] == 0.0
    ensures forall i | 0 <= i < |counts| :: Scaled(counts)[i] >= 0.0 && Inverse(Scaled(counts))[i] == 1.0
  {
    EqualCountsBounds(counts);
    var scaled := Scaled(counts);
    var range := CountRange(counts) as real;
    forall i | 0 <= i < |counts| ensures scaled[i] == 0.0 {
      assert (counts[i] - Min(counts)) as real == 0.0;
      assert scaled[i] == 0.0 / range;
    }
    forall i | 0 <= i < |counts| ensures Inverse(scaled)[i] == 1.0 {
      assert Inverse(scaled)[i] == 1.0 / (0.0 + 1.0);
    }
  }

  lemma {:induction false} SumOnes(xs: seq<real>)
    requires forall i | 0 <= i < |xs| :: xs[i] == 1.0
    ensures Sum(xs) == |xs| as real
    decreases |xs|
  {
    if xs != [] {
      SumOnes(xs[1..]);
    }
  }

  /** Every frontier gene has been counted at least once, so the weights always exist for a
      non-empty frontier. */
  lemma CountedFrontierHasWeights(counts: seq<nat>)
    requires |counts| > 0 && forall i | 0 <= i < |counts| :: counts[i] >= 1
    ensures WeightedCount(counts).Ok?
  {
    WeightedCountSucceeds(counts);
    assert Max(counts) >= counts[0] >= 1;
  }
}
