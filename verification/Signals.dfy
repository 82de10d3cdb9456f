/**
 * The fraud signals of a time slice: input that is too uniform for a person, and a mouse that moves without a
 * key ever being pressed. A quotient of a square root is compared by its square.
 */
module Signals {

  datatype Sample = Sample(at: int, keyboard: int, mouse: int, distance: int)

  // ---------------------------------------------------------------------------------------------
  // Uniform input
  // ---------------------------------------------------------------------------------------------

  function Sq(x: real): (y: real)
    ensures y >= 0.0
  {
    x * x
  }

  function Sum(xs: seq<real>): real { if xs == [] then 0.0 else Sum(xs[..|xs| - 1]) + xs[|xs| - 1] }

  /** How many buckets saw input. */
  function Busy(xs: seq<real>): nat {
    if xs == [] then 0 else Busy(xs[..|xs| - 1]) + if xs[|xs| - 1] > 0.01 then 1 else 0
  }

  function Mean(xs: seq<real>): real
    requires xs != []
  {
    Sum(xs) / |xs| as real
  }

  function SquaredDeviations(xs: seq<real>, mean: real): (d: real)
    ensures d >= 0.0
  {
    if xs == [] then 0.0 else SquaredDeviations(xs[..|xs| - 1], mean) + Sq(xs[|xs| - 1] - mean)
  }

  /** The standard deviation is below one percent of the mean, in five or more buckets most of which saw input. */
  predicate TooUniform(xs: seq<real>) {
    && |xs| >= 5 && Busy(xs) >= |xs| / 2 && Mean(xs) >= 0.05
    && SquaredDeviations(xs, Mean(xs)) / |xs| as real < Sq(0.01 * Mean(xs))
  }

  method IsTooUniform(xs: seq<real>) returns (r: bool)
    ensures r <==> TooUniform(xs)
  {
    if |xs| < 5 {
      return false;
    }
    var sum, nonzero := 0.0, 0;
    for i := 0 to |xs|
      invariant sum == Sum(xs[..i]) && nonzero == Busy(xs[..i])
    {
      assert xs[..i + 1][..i] == xs[..i];
      sum := sum + xs[i];
      if xs[i] > 0.01 {
        nonzero := nonzero + 1;
      }
    }
    assert xs[..|xs|] == xs;
    if nonzero < |xs| / 2 {
      return false;
    }
    var mean := sum / |xs| as real;
    if mean < 0.05 {
      return false;
    }
    var variance := 0.0;
    for i := 0 to |xs|
      invariant variance == SquaredDeviations(xs[..i], mean)
    {
      assert xs[..i + 1][..i] == xs[..i];
      variance := variance + Sq(xs[i] - mean);
    }
    assert xs[..|xs|] == xs;
    variance := variance / |xs| as real;
    r := variance < Sq(0.01 * mean);
  }

  lemma {:induction false} EachDeviationCounts(xs: seq<real>, mean: real, k: nat)
    requires k < |xs|
    ensures Sq(xs[k] - mean) <= SquaredDeviations(xs, mean)
  {
    hide Sq;
    if k < |xs| - 1 {
      EachDeviationCounts(xs[..|xs| - 1], mean, k);
    }
  }

  /** One bucket without input clears a slice of up to ten thousand buckets of this suspicion. */
  lemma {:induction false} OneIdleBucketClears(xs: seq<real>, k: nat)
    requires k < |xs| <= 10_000 && xs[k] == 0.0
    ensures !TooUniform(xs)
  {
    if TooUniform(xs) {
      EachDeviationCounts(xs, Mean(xs), k);
      TooFarOut(Mean(xs), SquaredDeviations(xs, Mean(xs)), |xs|);
    }
  }

  lemma TooFarOut(mean: real, deviations: real, n: nat)
    requires 0 < n <= 10_000 && Sq(0.0 - mean) <= deviations && mean >= 0.05
    ensures deviations / n as real >= Sq(0.01 * mean)
  {
    assert Sq(0.01 * mean) == Sq(mean) / 10_000.0 && Sq(0.0 - mean) == Sq(mean);
    hide Sq;
    Shares(Sq(mean), deviations, n as real);
  }

  lemma Shares(a: real, d: real, n: real)
    requires 0.0 <= a <= d && 0.0 < n <= 10_000.0
    ensures a / 10_000.0 <= d / n
  {
    var q := d / n;
    assert q * n == d;
    NotNegative(q, n);
    assert q * 10_000.0 >= q * n;
  }

  lemma NotNegative(q: real, n: real)
    requires n > 0.0 && q * n >= 0.0
    ensures q >= 0.0
  {
  }

  function Steady(n: nat, x: real): seq<real> { seq(n, _ => x) }

  lemma {:induction false} SteadySums(n: nat, x: real)
    ensures Sum(Steady(n, x)) == n as real * x && SquaredDeviations(Steady(n, x), x) == 0.0
    ensures x > 0.01 ==> Busy(Steady(n, x)) == n
  {
    if n > 0 {
      assert Steady(n, x)[..n - 1] == Steady(n - 1, x);
      SteadySums(n - 1, x);
    }
  }

  /** Input that never varies is flagged exactly if it goes on for five buckets and is not negligible. */
  lemma {:induction false} SteadyInputIsFlagged(n: nat, x: real)
    ensures TooUniform(Steady(n, x)) <==> n >= 5 && x >= 0.05
  {
    if n >= 5 {
      SteadySums(n, x);
      assert Mean(Steady(n, x)) == x by { Averages(n as real, x); }
      if x >= 0.05 {
        assert Sq(0.01 * x) > 0.0;
      }
    }
  }

  lemma Averages(n: real, x: real)
    requires n > 0.0
    ensures n * x / n == x
  {
  }

  // ---------------------------------------------------------------------------------------------
  // A mouse without keys
  // ---------------------------------------------------------------------------------------------

  function Keys(samples: seq<Sample>): int {
    if samples == [] then 0 else Keys(samples[..|samples| - 1]) + samples[|samples| - 1].keyboard
  }

  function Moves(samples: seq<Sample>): int {
    if samples == [] then 0
    else Moves(samples[..|samples| - 1]) + samples[|samples| - 1].mouse + samples[|samples| - 1].distance
  }

  predicate MouseOnly(samples: seq<Sample>) { |samples| >= 5 && Keys(samples) == 0 && Moves(samples) > 0 }

  method IsMouseOnly(samples: seq<Sample>) returns (r: bool)
    ensures r <==> MouseOnly(samples)
  {
    if |samples| < 5 {
      return false;
    }
    var keys, mouse := 0, 0;
    for i := 0 to |samples|
      invariant keys == Keys(samples[..i]) && mouse == Moves(samples[..i])
    {
      assert samples[..i + 1][..i] == samples[..i];
      keys := keys + samples[i].keyboard;
      mouse := mouse + samples[i].mouse + samples[i].distance;
    }
    assert samples[..|samples|] == samples;
    r := keys == 0 && mouse > 0;
  }

  /** Counts are not negative. */
  predicate Counted(samples: seq<Sample>) {
    forall k :: 0 <= k < |samples| ==> samples[k].keyboard >= 0 && samples[k].mouse >= 0 && samples[k].distance >= 0
  }

  lemma {:induction false} TotalsOfCounts(samples: seq<Sample>)
    requires Counted(samples)
    ensures Keys(samples) >= 0 && Moves(samples) >= 0
    ensures Keys(samples) == 0 <==> forall k :: 0 <= k < |samples| ==> samples[k].keyboard == 0
    ensures Moves(samples) == 0 <==>
      forall k :: 0 <= k < |samples| ==> samples[k].mouse == 0 && samples[k].distance == 0
  {
    if samples != [] {
      var init := samples[..|samples| - 1];
      TotalsOfCounts(init);
      assert forall k :: 0 <= k < |init| ==> init[k] == samples[k];
    }
  }

  /** The flag says that no sample has a key and some sample has the mouse, in five samples or more. */
  lemma {:induction false} MouseOnlyMeans(samples: seq<Sample>)
    requires Counted(samples)
    ensures MouseOnly(samples) <==>
      && |samples| >= 5 && (forall k :: 0 <= k < |samples| ==> samples[k].keyboard == 0)
      && (exists k :: 0 <= k < |samples| && (samples[k].mouse > 0 || samples[k].distance > 0))
  {
    TotalsOfCounts(samples);
  }

  // ---------------------------------------------------------------------------------------------
  // What the thresholds are
  // ---------------------------------------------------------------------------------------------

  /** Sums, busy buckets and deviations are counted bucket by bucket; a bucket is busy above one percent. */
  lemma OneMoreIntensity(xs: seq<real>, x: real, mean: real)
    ensures Sum(xs + [x]) == Sum(xs) + x && Sum([]) == 0.0
    ensures Busy(xs + [x]) == Busy(xs) + (if 100.0 * x > 1.0 then 1 else 0) && Busy([]) == 0
    ensures SquaredDeviations(xs + [x], mean) == SquaredDeviations(xs, mean) + (x - mean) * (x - mean)
    ensures SquaredDeviations([], mean) == 0.0
  {
    assert (xs + [x])[..|xs|] == xs;
  }

  lemma OneMoreSampleCounts(samples: seq<Sample>, s: Sample)
    ensures Keys(samples + [s]) == Keys(samples) + s.keyboard && Keys([]) == 0
    ensures Moves(samples + [s]) == Moves(samples) + s.mouse + s.distance && Moves([]) == 0
  {
    assert (samples + [s])[..|samples|] == samples;
  }

  /** Five buckets, half of them busy, a mean of five percent, and a deviation below a hundredth of the mean. */
  lemma UniformMeans(xs: seq<real>)
    ensures |xs| < 5 ==> !TooUniform(xs)
    ensures |xs| >= 5 ==>
      var n, mean := |xs| as real, Sum(xs) / |xs| as real;
      TooUniform(xs) <==>
        && 2 * Busy(xs) + 1 >= |xs| && 20.0 * Sum(xs) >= n
        && 10_000.0 * (SquaredDeviations(xs, mean) / n) < mean * mean
  {
    if |xs| >= 5 {
      Thresholds(Sum(xs), |xs| as real, SquaredDeviations(xs, Mean(xs)));
      hide Sq, Sum, Busy, SquaredDeviations;
    }
  }

  lemma Thresholds(sum: real, n: real, deviations: real)
    requires n > 0.0
    ensures sum / n >= 0.05 <==> 20.0 * sum >= n
    ensures deviations / n < Sq(0.01 * (sum / n)) <==> 10_000.0 * (deviations / n) < (sum / n) * (sum / n)
  {
    var mean := sum / n;
    assert mean * n == sum;
    MeanAbove(mean, n);
    hide Sq;
    Hundredth(mean);
  }

  lemma Hundredth(x: real)
    ensures 10_000.0 * Sq(0.01 * x) == x * x
  {
  }

  lemma MeanAbove(mean: real, n: real)
    requires n > 0.0
    ensures mean >= 0.05 <==> 20.0 * (mean * n) >= n
  {
    var over := mean - 0.05;
    assert mean * n == over * n + 0.05 * n;
    assert over >= 0.0 ==> over * n >= 0.0;
    assert over < 0.0 ==> over * n < 0.0;
  }
}
