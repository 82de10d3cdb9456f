/**
 * Activity scoring of one time slice: sorting the samples into buckets, the walk over the buckets
 * with its incremental idle counter, and the percentage. Intensities are given reals; times are in
 * nanoseconds.
 */
module Activity {
  import opened Basics
  import opened Signals

  datatype Params = Params(
    sampleSeconds: int, idleThreshold: int, activeFloor: real, fullActiveAt: real, excusedIdleCap: real)

  datatype SliceResult = SliceResult(
    pct: int, activeSeconds: int, idleSeconds: int, suspicious: bool, reasons: seq<string>)

  const NO_RESULT := SliceResult(0, 0, 0, false, [])

  /** One step of the walk: its length and the intensity of its sample, zero if there is none. */
  datatype Bucket = Bucket(seg: nat, intensity: real)

  const SECOND := 1_000_000_000

  // ---------------------------------------------------------------------------------------------
  // Buckets
  // ---------------------------------------------------------------------------------------------

  function Score(s: Sample): int { s.keyboard + s.mouse + TruncDiv(s.distance, 100) }

  /** Both divisions truncate, so a sample less than a step early falls into bucket 0. */
  function IndexOf(s: Sample, start: int, step: int): int
    requires step > 0
  {
    TruncDiv(TruncDiv(s.at - start, SECOND), step)
  }

  /** Sample k is the first of the busiest among the samples of its bucket. */
  ghost predicate Busiest(samples: seq<Sample>, start: int, step: int, k: nat)
    requires step > 0 && k < |samples|
  {
    forall l :: 0 <= l < |samples| && IndexOf(samples[l], start, step) == IndexOf(samples[k], start, step) ==>
      Score(samples[l]) <= Score(samples[k]) && (l < k ==> Score(samples[l]) < Score(samples[k]))
  }

  /** A bucket holds the first of its busiest samples, and is missing when no sample falls into it. */
  ghost predicate Buckets(m: map<int, Sample>, samples: seq<Sample>, start: int, step: int)
    requires step > 0
  {
    && (forall idx :: idx in m ==>
          idx >= 0 && exists k :: 0 <= k < |samples| && samples[k] == m[idx] && IndexOf(samples[k], start, step) == idx
                       && Busiest(samples, start, step, k))
    && (forall k :: 0 <= k < |samples| && IndexOf(samples[k], start, step) >= 0 ==>
          IndexOf(samples[k], start, step) in m)
  }

  /** A sample takes its bucket if the bucket is empty or the sample is strictly busier. */
  function Placed(m: map<int, Sample>, s: Sample, start: int, step: int): map<int, Sample>
    requires step > 0
  {
    var idx := IndexOf(s, start, step);
    if idx >= 0 && (idx !in m || Score(s) > Score(m[idx])) then m[idx := s] else m
  }

  function BucketsOf(samples: seq<Sample>, start: int, step: int): map<int, Sample>
    requires step > 0
  {
    if samples == [] then map[]
    else Placed(BucketsOf(samples[..|samples| - 1], start, step), samples[|samples| - 1], start, step)
  }

  method BucketSamples(samples: seq<Sample>, start: int, step: int) returns (m: map<int, Sample>)
    requires step > 0
    ensures m == BucketsOf(samples, start, step)
    ensures Buckets(m, samples, start, step)
  {
    m := map[];
    for i := 0 to |samples|
      invariant m == BucketsOf(samples[..i], start, step)
    {
      assert samples[..i + 1][..i] == samples[..i];
      var s := samples[i];
      var idx := IndexOf(s, start, step);
      if idx >= 0 {
        if idx !in m || Score(s) > Score(m[idx]) {
          m := m[idx := s];
        }
      }
    }
    assert samples[..|samples|] == samples;
    BucketsHoldTheBusiest(samples, start, step);
  }

  lemma {:induction false} BucketsHoldTheBusiest(samples: seq<Sample>, start: int, step: int)
    requires step > 0
    ensures Buckets(BucketsOf(samples, start, step), samples, start, step)
  {
    if samples != [] {
      var init, last := samples[..|samples| - 1], samples[|samples| - 1];
      BucketsHoldTheBusiest(init, start, step);
      hide Buckets;
      OneMoreSample(BucketsOf(init, start, step), init, last, start, step);
      assert init + [last] == samples;
    }
  }

  lemma OneMoreSample(m: map<int, Sample>, samples: seq<Sample>, s: Sample, start: int, step: int)
    requires step > 0 && Buckets(m, samples, start, step)
    ensures Buckets(Placed(m, s, start, step), samples + [s], start, step)
  {
    var m' := Placed(m, s, start, step);
    hide IndexOf, Score;
    var all, idx := samples + [s], IndexOf(s, start, step);
    forall i | i in m'
      ensures i >= 0 && exists k :: 0 <= k < |all| && all[k] == m'[i] && IndexOf(all[k], start, step) == i
                         && Busiest(all, start, step, k)
    {
      if i in m {
        var k :| 0 <= k < |samples| && samples[k] == m[i] && IndexOf(samples[k], start, step) == i
          && Busiest(samples, start, step, k);
        assert all[k] == samples[k];
        if m'[i] == m[i] {
          assert Busiest(all, start, step, k);
        } else {
          assert all[|samples|] == s && Busiest(all, start, step, |samples|);
        }
      } else {
        assert all[|samples|] == s && Busiest(all, start, step, |samples|);
      }
    }
    forall k | 0 <= k < |all| && IndexOf(all[k], start, step) >= 0 ensures IndexOf(all[k], start, step) in m' {
      assert k < |samples| ==> all[k] == samples[k];
    }
  }

  // ---------------------------------------------------------------------------------------------
  // Grading
  // ---------------------------------------------------------------------------------------------

  function BillableFraction(p: Params, intensity: real): (frac: real)
    ensures 0.0 <= frac <= 1.0
  {
    if intensity < p.activeFloor then 0.0
    else
      var span := p.fullActiveAt - p.activeFloor;
      if span <= 0.0 then 1.0
      else
        QuotientSign(intensity - p.activeFloor, span);
        if (intensity - p.activeFloor) / span < 1.0 then (intensity - p.activeFloor) / span else 1.0
  }

  lemma QuotientSign(a: real, b: real)
    requires a >= 0.0 && b > 0.0
    ensures a / b >= 0.0
  {
  }

  predicate Billable(p: Params, b: Bucket) { BillableFraction(p, b.intensity) > 0.0 }

  /** math.Round: to the nearest, halves away from zero. */
  function Round(x: real): int { if x >= 0.0 then (x + 0.5).Floor else -(0.5 - x).Floor }

  lemma RoundIsNearest(x: real)
    ensures x - 0.5 <= Round(x) as real <= x + 0.5
    ensures x >= 0.0 ==> Round(x) as real - 0.5 <= x < Round(x) as real + 0.5
    ensures Round(-x) == -Round(x)
  {
  }

  /** Below the floor nothing is billed, from full activity on everything, in between the bill is a straight line. */
  lemma GradingIsARamp(p: Params, x: real)
    requires p.activeFloor < p.fullActiveAt
    ensures x < p.activeFloor ==> BillableFraction(p, x) == 0.0
    ensures x >= p.fullActiveAt ==> BillableFraction(p, x) == 1.0
    ensures p.activeFloor <= x <= p.fullActiveAt ==>
      BillableFraction(p, x) * (p.fullActiveAt - p.activeFloor) == x - p.activeFloor
  {
    var span := p.fullActiveAt - p.activeFloor;
    if x >= p.activeFloor {
      var q := (x - p.activeFloor) / span;
      assert q * span == x - p.activeFloor;
      if x >= p.fullActiveAt {
        AtLeastOne(q, span);
      } else {
        AtMostOne(q, span);
      }
    }
  }

  lemma AtLeastOne(q: real, span: real)
    requires span > 0.0 && q * span >= span
    ensures q >= 1.0
  {
  }

  lemma AtMostOne(q: real, span: real)
    requires span > 0.0 && q * span < span
    ensures q < 1.0
  {
  }

  /** Without a ramp, everything from the floor on is billed in full. */
  lemma NoRampBillsInFull(p: Params, x: real)
    requires p.activeFloor >= p.fullActiveAt
    ensures BillableFraction(p, x) == if x < p.activeFloor then 0.0 else 1.0
  {
  }

  /** The graded billable seconds of the buckets. */
  function ActiveAcc(p: Params, bs: seq<Bucket>): real {
    if bs == [] then 0.0
    else ActiveAcc(p, bs[..|bs| - 1]) + bs[|bs| - 1].seg as real * BillableFraction(p, bs[|bs| - 1].intensity)
  }

  function Span(bs: seq<Bucket>, i: nat, j: nat): nat
    requires i <= j <= |bs|
  {
    if i == j then 0 else Span(bs, i, j - 1) + bs[j - 1].seg
  }

  // ---------------------------------------------------------------------------------------------
  // Idle time: the specification
  // ---------------------------------------------------------------------------------------------

  /** Buckets i … j-1 are not billable and cannot be extended to either side. */
  ghost predicate MaximalRun(p: Params, bs: seq<Bucket>, i: nat, j: nat) {
    && i < j <= |bs|
    && (forall k :: i <= k < j ==> !Billable(p, bs[k]))
    && (i > 0 ==> Billable(p, bs[i - 1]))
    && (j < |bs| ==> Billable(p, bs[j]))
  }

  /** A maximal run without input that reaches the idle threshold. */
  ghost predicate IdleRun(p: Params, bs: seq<Bucket>, i: nat, j: nat) {
    MaximalRun(p, bs, i, j) && Span(bs, i, j) >= p.idleThreshold
  }

  ghost predicate CountsAsIdle(p: Params, bs: seq<Bucket>, k: nat) {
    exists i: nat, j: nat :: IdleRun(p, bs, i, j) && i <= k < j
  }

  /** The seconds among buckets lo … hi-1 that count as idle in the whole sequence. */
  ghost function IdleIn(p: Params, bs: seq<Bucket>, lo: nat, hi: nat): nat
    requires lo <= hi <= |bs|
  {
    if lo == hi then 0
    else IdleIn(p, bs, lo, hi - 1) + if CountsAsIdle(p, bs, hi - 1) then bs[hi - 1].seg else 0
  }

  /** The total length of the maximal runs that reach the threshold. */
  ghost function IdleSeconds(p: Params, bs: seq<Bucket>): nat { IdleIn(p, bs, 0, |bs|) }

  // ---------------------------------------------------------------------------------------------
  // Idle time: the incremental counter refines it
  // ---------------------------------------------------------------------------------------------

  /** Where the run at the end starts; |bs| if the last bucket is billable. */
  function TailStart(p: Params, bs: seq<Bucket>): (i: nat)
    ensures i <= |bs|
    ensures forall k :: i <= k < |bs| ==> !Billable(p, bs[k])
    ensures i > 0 ==> Billable(p, bs[i - 1])
  {
    if bs == [] || Billable(p, bs[|bs| - 1]) then |bs| else TailStart(p, bs[..|bs| - 1])
  }

  lemma {:induction false} SpanSplits(bs: seq<Bucket>, i: nat, j: nat, k: nat)
    requires i <= j <= k <= |bs|
    ensures Span(bs, i, k) == Span(bs, i, j) + Span(bs, j, k)
    decreases k
  {
    if j < k {
      SpanSplits(bs, i, j, k - 1);
    }
  }

  lemma {:induction false} SpanPrefix(bs: seq<Bucket>, b: Bucket, i: nat, j: nat)
    requires i <= j <= |bs|
    ensures Span(bs + [b], i, j) == Span(bs, i, j)
  {
    if i < j {
      SpanPrefix(bs, b, i, j - 1);
    }
  }

  /** A bucket lies in at most one maximal run. */
  lemma RunIsUnique(p: Params, bs: seq<Bucket>, k: nat, i: nat, j: nat, i': nat, j': nat)
    requires MaximalRun(p, bs, i, j) && MaximalRun(p, bs, i', j') && i <= k < j && i' <= k < j'
    ensures i == i' && j == j'
  {
    hide Billable;
    assert i' > 0 ==> !(i <= i' - 1 < j);
    assert i > 0 ==> !(i' <= i - 1 < j');
    assert j < |bs| ==> !(i' <= j < j');
    assert j' < |bs| ==> !(i <= j' < j);
  }

  /** The run at the end counts as idle as a whole or not at all. */
  lemma TailCounts(p: Params, bs: seq<Bucket>, k: nat)
    requires TailStart(p, bs) <= k < |bs|
    ensures CountsAsIdle(p, bs, k) <==> Span(bs, TailStart(p, bs), |bs|) >= p.idleThreshold
  {
    var i := TailStart(p, bs);
    assert MaximalRun(p, bs, i, |bs|);
    assert Span(bs, i, |bs|) >= p.idleThreshold ==> IdleRun(p, bs, i, |bs|);
    if CountsAsIdle(p, bs, k) {
      var i': nat, j': nat :| IdleRun(p, bs, i', j') && i' <= k < j';
      RunIsUnique(p, bs, k, i, |bs|, i', j');
    }
  }

  /** A run that ends before the last bucket, or before a billable one, stays maximal when a bucket is appended. */
  lemma RunStays(p: Params, bs: seq<Bucket>, b: Bucket, i: nat, j: nat)
    requires MaximalRun(p, bs, i, j) && (j < |bs| || Billable(p, b))
    ensures MaximalRun(p, bs + [b], i, j) && Span(bs + [b], i, j) == Span(bs, i, j)
  {
    hide Billable;
    SpanPrefix(bs, b, i, j);
  }

  lemma RunWasThere(p: Params, bs: seq<Bucket>, b: Bucket, i: nat, j: nat)
    requires MaximalRun(p, bs + [b], i, j) && j <= |bs|
    ensures MaximalRun(p, bs, i, j) && Span(bs + [b], i, j) == Span(bs, i, j)
  {
    hide Billable;
    SpanPrefix(bs, b, i, j);
    var all := bs + [b];
    assert forall k :: 0 <= k < |bs| ==> bs[k] == all[k];
  }

  /** A run does not reach past a billable bucket. */
  lemma RunEndsBefore(p: Params, bs: seq<Bucket>, i: nat, j: nat, k: nat, stop: nat)
    requires MaximalRun(p, bs, i, j) && i <= k < j && k <= stop < |bs| && Billable(p, bs[stop])
    ensures j <= stop
  {
    hide Billable;
  }

  /** Whether an earlier bucket counts does not change when a bucket is appended. */
  lemma EarlierCountsTheSame(p: Params, bs: seq<Bucket>, b: Bucket, k: nat)
    requires k < TailStart(p, bs) || (k < |bs| && Billable(p, b))
    ensures CountsAsIdle(p, bs + [b], k) <==> CountsAsIdle(p, bs, k)
  {
    var all, tail := bs + [b], TailStart(p, bs);
    hide Billable, MaximalRun, TailStart, Span;
    if CountsAsIdle(p, bs, k) {
      var i: nat, j: nat :| IdleRun(p, bs, i, j) && i <= k < j;
      if k < tail {
        RunEndsBefore(p, bs, i, j, k, tail - 1);
      }
      RunStays(p, bs, b, i, j);
      assert IdleRun(p, all, i, j);
    }
    if CountsAsIdle(p, all, k) {
      var i: nat, j: nat :| IdleRun(p, all, i, j) && i <= k < j;
      RunEndsBefore(p, all, i, j, k, if k < tail then tail - 1 else |bs|);
      RunWasThere(p, bs, b, i, j);
      assert IdleRun(p, bs, i, j);
    }
  }

  lemma {:induction false} IdleSplits(p: Params, bs: seq<Bucket>, i: nat, j: nat, k: nat)
    requires i <= j <= k <= |bs|
    ensures IdleIn(p, bs, i, k) == IdleIn(p, bs, i, j) + IdleIn(p, bs, j, k)
    decreases k
  {
    hide CountsAsIdle;
    if j < k {
      IdleSplits(p, bs, i, j, k - 1);
    }
  }

  lemma {:induction false} EarlierIdleTheSame(p: Params, bs: seq<Bucket>, b: Bucket, hi: nat)
    requires hi <= TailStart(p, bs) || (hi <= |bs| && Billable(p, b))
    ensures IdleIn(p, bs + [b], 0, hi) == IdleIn(p, bs, 0, hi)
  {
    if hi > 0 {
      EarlierIdleTheSame(p, bs, b, hi - 1);
      EarlierCountsTheSame(p, bs, b, hi - 1);
    }
  }

  /** The run at the end contributes its whole length or nothing. */
  lemma {:induction false} TailIdle(p: Params, bs: seq<Bucket>, hi: nat)
    requires TailStart(p, bs) <= hi <= |bs|
    ensures var i := TailStart(p, bs);
      IdleIn(p, bs, i, hi) == if Span(bs, i, |bs|) >= p.idleThreshold then Span(bs, i, hi) else 0
    decreases hi
  {
    hide CountsAsIdle;
    if hi > TailStart(p, bs) {
      TailIdle(p, bs, hi - 1);
      TailCounts(p, bs, hi - 1);
    }
  }

  /** The counter's step: what one more bucket adds to the idle seconds and to the run at the end. */
  lemma OneMoreBucket(p: Params, bs: seq<Bucket>, b: Bucket)
    ensures var all, run := bs + [b], Span(bs, TailStart(p, bs), |bs|);
      var run' := Span(all, TailStart(p, all), |all|);
      if Billable(p, b) then run' == 0 && IdleSeconds(p, all) == IdleSeconds(p, bs)
      else
        && run' == run + b.seg
        && IdleSeconds(p, all) == IdleSeconds(p, bs) +
             if run' < p.idleThreshold then 0 else if run < p.idleThreshold then run' else b.seg
  {
    var all, i, n := bs + [b], TailStart(p, bs), |bs|;
    assert all[..n] == bs;
    if Billable(p, b) {
      EarlierIdleTheSame(p, bs, b, n);
      assert !CountsAsIdle(p, all, n);
    } else {
      assert TailStart(p, all) == i;
      hide Billable, CountsAsIdle, TailStart;
      SpanPrefix(bs, b, i, n);
      EarlierIdleTheSame(p, bs, b, i);
      TailIdle(p, bs, n);
      TailIdle(p, all, n + 1);
      IdleSplits(p, bs, 0, i, n);
      IdleSplits(p, all, 0, i, n + 1);
    }
  }

  // ---------------------------------------------------------------------------------------------
  // The walk over a slice
  // ---------------------------------------------------------------------------------------------

  /** The step of the walk that starts at this offset; the last one may be shorter. */
  function BucketAt(offset: nat, total: nat, step: int, m: map<int, Sample>, intensity: Sample -> real): Bucket
    requires step > 0 && offset < total
  {
    Bucket(if step < total - offset then step else total - offset,
           if offset / step in m then intensity(m[offset / step]) else 0.0)
  }

  /** The buckets the walk visits from this offset on. */
  function Visited(offset: nat, total: nat, step: int, m: map<int, Sample>, intensity: Sample -> real): seq<Bucket>
    requires step > 0
    decreases total - offset
  {
    if offset >= total then []
    else [BucketAt(offset, total, step, m, intensity)] + Visited(offset + step, total, step, m, intensity)
  }

  lemma {:induction false} SpanFront(b: Bucket, rest: seq<Bucket>, n: nat)
    requires n <= |rest|
    ensures Span([b] + rest, 0, n + 1) == b.seg + Span(rest, 0, n)
  {
    if n > 0 {
      SpanFront(b, rest, n - 1);
    }
  }

  /** The walk covers the slice. */
  lemma {:induction false} VisitedCovers(offset: nat, total: nat, step: int, m: map<int, Sample>,
                                         intensity: Sample -> real)
    requires step > 0
    ensures var bs := Visited(offset, total, step, m, intensity);
      Span(bs, 0, |bs|) == if offset < total then total - offset else 0
    decreases total - offset
  {
    if offset < total {
      var rest := Visited(offset + step, total, step, m, intensity);
      VisitedCovers(offset + step, total, step, m, intensity);
      SpanFront(BucketAt(offset, total, step, m, intensity), rest, |rest|);
    }
  }

  /** Idle seconds that are allowed without penalty. */
  function Excused(p: Params, total: int): int { Truncated(total as real * p.excusedIdleCap) }

  /** The excused part of the idle time leaves the denominator; the rest counts against activity. */
  function Denominator(p: Params, total: int, idle: int): int {
    var excused := Excused(p, total);
    var penalized := if idle - excused > 0 then idle - excused else 0;
    if total - (idle - penalized) > 1 then total - (idle - penalized) else 1
  }

  function Percentage(active: int, denominator: int): int
    requires denominator > 0
  {
    Round(100.0 * active as real / denominator as real)
  }

  /** The seconds of the billable buckets among the first n. */
  function BillableSpan(p: Params, bs: seq<Bucket>, n: nat): nat
    requires n <= |bs|
  {
    if n == 0 then 0 else BillableSpan(p, bs, n - 1) + if Billable(p, bs[n - 1]) then bs[n - 1].seg else 0
  }

  lemma Scaled(x: real, f: real)
    requires x >= 0.0 && 0.0 <= f <= 1.0
    ensures 0.0 <= x * f <= x
    ensures f == 0.0 ==> x * f == 0.0
  {
  }

  /** Only billable buckets are billed, each for at most its length. */
  lemma {:induction false} ActiveIsBillable(p: Params, bs: seq<Bucket>, n: nat)
    requires n <= |bs|
    ensures 0.0 <= ActiveAcc(p, bs[..n]) <= BillableSpan(p, bs, n) as real
  {
    if n > 0 {
      ActiveIsBillable(p, bs, n - 1);
      assert bs[..n][..n - 1] == bs[..n - 1];
      Scaled(bs[n - 1].seg as real, BillableFraction(p, bs[n - 1].intensity));
      hide BillableFraction;
    }
  }

  /** Idle time and billable time are disjoint. */
  lemma {:induction false} IdleIsNotBillable(p: Params, bs: seq<Bucket>, n: nat)
    requires n <= |bs|
    ensures IdleIn(p, bs, 0, n) + BillableSpan(p, bs, n) <= Span(bs, 0, n)
  {
    if n > 0 {
      IdleIsNotBillable(p, bs, n - 1);
    }
  }

  lemma RoundBelow(x: real, n: int)
    requires 0.0 <= x <= n as real
    ensures 0 <= Round(x) <= n
  {
  }

  /** Active and idle seconds fit in the slice together. */
  lemma ActiveAndIdleFit(p: Params, bs: seq<Bucket>)
    ensures 0 <= Round(ActiveAcc(p, bs))
    ensures Round(ActiveAcc(p, bs)) + IdleSeconds(p, bs) <= Span(bs, 0, |bs|)
  {
    assert bs[..|bs|] == bs;
    ActiveIsBillable(p, bs, |bs|);
    IdleIsNotBillable(p, bs, |bs|);
    RoundBelow(ActiveAcc(p, bs), BillableSpan(p, bs, |bs|));
  }

  lemma Quotient(a: int, d: int)
    requires 0 <= a <= d && d > 0
    ensures 0.0 <= 100.0 * a as real / d as real <= 100.0
  {
    var x := 100.0 * a as real / d as real;
    assert x * d as real == 100.0 * a as real;
    if x > 100.0 {
      Above(x, d as real);
    } else if x < 0.0 {
      Below(x, d as real);
    }
  }

  lemma Above(x: real, d: real)
    requires x > 100.0 && d > 0.0
    ensures x * d > 100.0 * d
  {
  }

  lemma Below(x: real, d: real)
    requires x < 0.0 && d > 0.0
    ensures x * d < 0.0
  {
  }

  /** The clamp to 0 … 100 has nothing to do, whatever the parameters and intensities. */
  lemma ClampNeverBites(p: Params, bs: seq<Bucket>, total: int)
    requires Span(bs, 0, |bs|) == total > 0
    ensures var active, idle := Round(ActiveAcc(p, bs)), IdleSeconds(p, bs);
      && active <= Denominator(p, total, idle)
      && 0 <= Percentage(active, Denominator(p, total, idle)) <= 100
  {
    ActiveAndIdleFit(p, bs);
    hide ActiveAcc, IdleSeconds, Span, Round, Excused;
    var active, idle := Round(ActiveAcc(p, bs)), IdleSeconds(p, bs);
    Quotient(active, Denominator(p, total, idle));
    RoundBelow(100.0 * active as real / Denominator(p, total, idle) as real, 100);
  }

  lemma {:induction false} AccIsMonotone(p: Params, bs: seq<Bucket>, cs: seq<Bucket>)
    requires |bs| == |cs| && forall k :: 0 <= k < |bs| ==> bs[k].seg == cs[k].seg && bs[k].intensity <= cs[k].intensity
    ensures ActiveAcc(p, bs) <= ActiveAcc(p, cs)
  {
    hide BillableFraction;
    if bs != [] {
      var n := |bs| - 1;
      AccIsMonotone(p, bs[..n], cs[..n]);
      FractionIsMonotone(p, bs[n].intensity, cs[n].intensity);
      ScaledMonotone(bs[n].seg as real, BillableFraction(p, bs[n].intensity), BillableFraction(p, cs[n].intensity));
    }
  }

  /** More intensity in any bucket never lowers the active seconds. */
  lemma ActiveSecondsAreMonotone(p: Params, bs: seq<Bucket>, cs: seq<Bucket>)
    requires |bs| == |cs| && forall k :: 0 <= k < |bs| ==> bs[k].seg == cs[k].seg && bs[k].intensity <= cs[k].intensity
    ensures Round(ActiveAcc(p, bs)) <= Round(ActiveAcc(p, cs))
  {
    hide Round, ActiveAcc;
    AccIsMonotone(p, bs, cs);
    RoundMonotone(ActiveAcc(p, bs), ActiveAcc(p, cs));
  }

  lemma FractionIsMonotone(p: Params, x: real, y: real)
    requires x <= y
    ensures BillableFraction(p, x) <= BillableFraction(p, y)
  {
    if x >= p.activeFloor && p.fullActiveAt > p.activeFloor {
      QuotientMonotone(x - p.activeFloor, y - p.activeFloor, p.fullActiveAt - p.activeFloor);
    }
  }

  lemma QuotientMonotone(a: real, b: real, d: real)
    requires a <= b && d > 0.0
    ensures a / d <= b / d
  {
    QuotientSign(b - a, d);
    assert (b - a) / d == b / d - a / d;
  }

  lemma ScaledMonotone(x: real, f: real, g: real)
    requires x >= 0.0 && f <= g
    ensures x * f <= x * g
  {
  }

  lemma RoundMonotone(x: real, y: real)
    requires x <= y
    ensures Round(x) <= Round(y)
  {
  }

  lemma AccSnoc(p: Params, bs: seq<Bucket>, b: Bucket)
    ensures ActiveAcc(p, bs + [b]) == ActiveAcc(p, bs) + b.seg as real * BillableFraction(p, b.intensity)
    ensures BillableFraction(p, b.intensity) == 0.0 ==> ActiveAcc(p, bs + [b]) == ActiveAcc(p, bs)
  {
    assert (bs + [b])[..|bs|] == bs;
    hide BillableFraction;
  }

  /** The loop over the buckets, with the incremental idle counter. */
  method Walk(p: Params, total: nat, byBucket: map<int, Sample>, intensity: Sample -> real)
    returns (activeAcc: real, idle: int, intensities: seq<real>)
    requires p.sampleSeconds > 0
    ensures activeAcc == ActiveAcc(p, Visited(0, total, p.sampleSeconds, byBucket, intensity))
    ensures idle == IdleSeconds(p, Visited(0, total, p.sampleSeconds, byBucket, intensity))
    ensures intensities == Intensities(Visited(0, total, p.sampleSeconds, byBucket, intensity))
  {
    hide BillableFraction, Reached, Visited, CountsAsIdle, ActiveAcc, TailStart, Span, IdleSeconds, Intensities;
    var step := p.sampleSeconds;
    ghost var all := Visited(0, total, step, byBucket, intensity);
    ghost var bs: seq<Bucket> := [];
    var consecutive, offset := 0, 0;
    activeAcc, idle, intensities := 0.0, 0, [];
    NothingWalked(p, total, step, byBucket, intensity);
    while offset < total
      invariant Reached(all, bs, offset, total, step, byBucket, intensity)
      invariant activeAcc == ActiveAcc(p, bs) && idle == IdleSeconds(p, bs)
      invariant consecutive == Span(bs, TailStart(p, bs), |bs|)
      invariant intensities == Intensities(bs)
      decreases total - offset
    {
      var seg := if step < total - offset then step else total - offset;
      var x := if offset / step in byBucket then intensity(byBucket[offset / step]) else 0.0;
      intensities := intensities + [x];
      var frac := BillableFraction(p, x);
      ghost var b := Bucket(seg, x);
      IntensitiesSnoc(bs, b);
      ReachedStep(all, bs, b, offset, total, step, byBucket, intensity);
      OneMoreBucket(p, bs, b);
      AccSnoc(p, bs, b);
      if frac > 0.0 {
        activeAcc := activeAcc + seg as real * frac;
        consecutive := 0;
      } else {
        var prev := consecutive;
        consecutive := consecutive + seg;
        if consecutive >= p.idleThreshold {
          if prev < p.idleThreshold {
            idle := idle + consecutive;
          } else {
            idle := idle + seg;
          }
        }
      }
      bs := bs + [b];
      offset := offset + step;
    }
    ReachedEnd(all, bs, offset, total, step, byBucket, intensity);
  }

  /** The walk has visited these buckets of the slice and stands at this offset. */
  ghost predicate Reached(all: seq<Bucket>, bs: seq<Bucket>, offset: int, total: nat, step: int, m: map<int, Sample>,
                          intensity: Sample -> real)
    requires step > 0
  {
    0 <= offset && all == bs + Visited(offset, total, step, m, intensity)
  }

  lemma ReachedStep(all: seq<Bucket>, bs: seq<Bucket>, b: Bucket, offset: int, total: nat, step: int, m: map<int,
                    Sample>, intensity: Sample -> real)
    requires step > 0 && offset < total && Reached(all, bs, offset, total, step, m, intensity)
    requires b.seg == if step < total - offset then step else total - offset
    requires b.intensity == if offset / step in m then intensity(m[offset / step]) else 0.0
    ensures Reached(all, bs + [b], offset + step, total, step, m, intensity)
  {
    assert b == BucketAt(offset, total, step, m, intensity);
  }

  lemma ReachedEnd(all: seq<Bucket>, bs: seq<Bucket>, offset: int, total: nat, step: int, m: map<int, Sample>,
                   intensity: Sample -> real)
    requires step > 0 && offset >= total && Reached(all, bs, offset, total, step, m, intensity)
    ensures all == bs
  {
  }

  function Intensities(bs: seq<Bucket>): seq<real> { seq(|bs|, k requires 0 <= k < |bs| => bs[k].intensity) }

  lemma IntensitiesSnoc(bs: seq<Bucket>, b: Bucket)
    ensures Intensities(bs + [b]) == Intensities(bs) + [b.intensity]
  {
  }

  lemma NothingWalked(p: Params, total: nat, step: int, m: map<int, Sample>, intensity: Sample -> real)
    requires step > 0
    ensures Reached(Visited(0, total, step, m, intensity), [], 0, total, step, m, intensity)
    ensures ActiveAcc(p, []) == 0.0 && IdleSeconds(p, []) == 0 && Span([], TailStart(p, []), 0) == 0
    ensures Intensities([]) == []
  {
  }

  /** The buckets of a slice that lasts this many seconds. */
  function SliceBuckets(p: Params, samples: seq<Sample>, start: int, total: nat, intensity: Sample -> real): seq<Bucket>
    requires p.sampleSeconds > 0
  {
    Visited(0, total, p.sampleSeconds, BucketsOf(samples, start, p.sampleSeconds), intensity)
  }

  // ---------------------------------------------------------------------------------------------
  // Slices of constant intensity
  // ---------------------------------------------------------------------------------------------

  ghost predicate AllAt(bs: seq<Bucket>, x: real) { forall k :: 0 <= k < |bs| ==> bs[k].intensity == x }

  lemma {:induction false} ConstantAcc(p: Params, bs: seq<Bucket>, x: real)
    requires AllAt(bs, x)
    ensures ActiveAcc(p, bs) == Span(bs, 0, |bs|) as real * BillableFraction(p, x)
  {
    hide BillableFraction;
    if bs != [] {
      var n := |bs| - 1;
      ConstantAcc(p, bs[..n], x);
      assert bs == bs[..n] + [bs[n]];
      SpanPrefix(bs[..n], bs[n], 0, n);
      Together(Span(bs, 0, n) as real, bs[n].seg as real, BillableFraction(p, x));
    }
  }

  lemma Together(a: real, b: real, f: real)
    ensures a * f + b * f == (a + b) * f
  {
  }

  /** Every step of the slice has a sample, and all samples have this intensity. */
  ghost predicate Constant(samples: seq<Sample>, start: int, step: int, total: nat, intensity: Sample -> real, x: real)
    requires step > 0
  {
    && (forall k :: 0 <= k < |samples| ==> intensity(samples[k]) == x)
    && (forall offset: nat {:trigger offset / step} :: offset < total ==>
          exists k :: 0 <= k < |samples| && IndexOf(samples[k], start, step) == offset / step)
  }

  lemma InConstant(samples: seq<Sample>, start: int, step: int, total: nat, intensity: Sample -> real, x: real,
                   offset: nat)
    requires step > 0 && Constant(samples, start, step, total, intensity, x) && offset < total
    ensures var m := BucketsOf(samples, start, step); offset / step in m && intensity(m[offset / step]) == x
  {
    BucketsHoldTheBusiest(samples, start, step);
    hide IndexOf, Busiest, BucketsOf;
    var idx := offset / step;
    NotNegative(offset, step);
    var k :| 0 <= k < |samples| && IndexOf(samples[k], start, step) == idx;
    var m := BucketsOf(samples, start, step);
    assert idx in m;
    var l :| 0 <= l < |samples| && samples[l] == m[idx] && IndexOf(samples[l], start, step) == idx
      && Busiest(samples, start, step, l);
  }

  lemma NotNegative(a: nat, b: int)
    requires b > 0
    ensures a / b >= 0
  {
  }

  lemma {:induction false} ConstantVisited(samples: seq<Sample>, start: int, step: int, total: nat,
                                           intensity: Sample -> real, x: real, offset: nat)
    requires step > 0 && Constant(samples, start, step, total, intensity, x)
    ensures AllAt(Visited(offset, total, step, BucketsOf(samples, start, step), intensity), x)
    decreases total - offset
  {
    hide Constant, BucketsOf;
    if offset < total {
      var m := BucketsOf(samples, start, step);
      InConstant(samples, start, step, total, intensity, x, offset);
      ConstantVisited(samples, start, step, total, intensity, x, offset + step);
      assert Visited(offset, total, step, m, intensity)
        == [BucketAt(offset, total, step, m, intensity)] + Visited(offset + step, total, step, m, intensity);
    }
  }

  /** A slice of constant intensity on the ramp bills its share of the slice, to half a second. */
  ghost predicate Billed(p: Params, total: nat, x: real, active: int) {
    var ramp := p.fullActiveAt - p.activeFloor;
    -ramp <= 2.0 * (active as real * ramp - total as real * (x - p.activeFloor)) <= ramp
  }

  lemma ConstantSlice(p: Params, samples: seq<Sample>, start: int, total: nat, intensity: Sample -> real, x: real)
    requires p.sampleSeconds > 0 && p.activeFloor < p.fullActiveAt && p.activeFloor <= x <= p.fullActiveAt
    requires Constant(samples, start, p.sampleSeconds, total, intensity, x)
    ensures Billed(p, total, x, Round(ActiveAcc(p, SliceBuckets(p, samples, start, total, intensity))))
  {
    hide BillableFraction, Round, Constant, ActiveAcc, Visited;
    var bs := SliceBuckets(p, samples, start, total, intensity);
    ConstantVisited(samples, start, p.sampleSeconds, total, intensity, x, 0);
    ConstantAcc(p, bs, x);
    VisitedCovers(0, total, p.sampleSeconds, BucketsOf(samples, start, p.sampleSeconds), intensity);
    GradingIsARamp(p, x);
    RoundIsNearest(ActiveAcc(p, bs));
    assert Span(bs, 0, |bs|) == total;
    hide SliceBuckets, Span;
    assert ActiveAcc(p, bs) == total as real * BillableFraction(p, x);
    Regrouped(total as real, BillableFraction(p, x), p.fullActiveAt - p.activeFloor);
    var exact, active := ActiveAcc(p, bs), Round(ActiveAcc(p, bs)) as real;
    Stretched(exact, active - exact, active, p.fullActiveAt - p.activeFloor, total as real * (x - p.activeFloor));
  }

  lemma Stretched(exact: real, e: real, active: real, ramp: real, billed: real)
    requires ramp > 0.0 && exact * ramp == billed && -0.5 <= e <= 0.5 && active == exact + e
    ensures -ramp <= 2.0 * (active * ramp - billed) <= ramp
  {
    var over := e * ramp;
    Between(e, ramp);
    assert active * ramp == billed + over by { Together(exact, e, ramp); }
  }

  lemma Regrouped(t: real, f: real, ramp: real)
    ensures t * f * ramp == t * (f * ramp)
  {
  }

  lemma Between(e: real, ramp: real)
    requires ramp > 0.0 && -0.5 <= e <= 0.5
    ensures -ramp <= 2.0 * (e * ramp) <= ramp
  {
  }

  /** The reasons to suspect a slice, in the order in which they are reported. */
  function Reasons(xs: seq<real>, samples: seq<Sample>, total: int, pct: int, idle: int): seq<string> {
    (if TooUniform(xs) then ["uniform_input_pattern"] else [])
    + (if pct >= 99 && idle == 0 && total >= 600 then ["implausible_full_activity"] else [])
    + (if MouseOnly(samples) then ["mouse_only_no_keys"] else [])
  }

  /**
   * The slice's result, stated by the specification: idle seconds are the maximal runs that reach the
   * threshold, active seconds the rounded graded total, the percentage needs no clamp, and the slice is
   * suspicious exactly if there is a reason.
   */
  method Compute(p: Params, samples: seq<Sample>, start: int, end: int, intensity: Sample -> real)
    returns (r: SliceResult)
    requires p.sampleSeconds > 0
    ensures TruncDiv(end - start, SECOND) <= 0 ==> r == NO_RESULT
    ensures TruncDiv(end - start, SECOND) > 0 ==>
      var total := TruncDiv(end - start, SECOND);
      var bs := SliceBuckets(p, samples, start, total, intensity);
      && r.activeSeconds == Round(ActiveAcc(p, bs))
      && r.idleSeconds == IdleSeconds(p, bs)
      && r.pct == Percentage(r.activeSeconds, Denominator(p, total, r.idleSeconds))
      && r.reasons == Reasons(Intensities(bs), samples, total, r.pct, r.idleSeconds)
      && (r.suspicious <==> r.reasons != [])
      && (forall x | p.activeFloor < p.fullActiveAt && p.activeFloor <= x <= p.fullActiveAt ::
            Constant(samples, start, p.sampleSeconds, total, intensity, x) ==> Billed(p, total, x, r.activeSeconds))
  {
    hide Buckets, Visited, BucketsOf, ActiveAcc, IdleSeconds, Span, Round, Excused, TooUniform, MouseOnly, Intensities;
    var total := TruncDiv(end - start, SECOND);
    if total <= 0 {
      return NO_RESULT;
    }
    var byBucket := BucketSamples(samples, start, p.sampleSeconds);
    var activeAcc, idle, intensities := Walk(p, total, byBucket, intensity);
    var active := Round(activeAcc);
    var excused := Excused(p, total);
    var penalized := if idle - excused > 0 then idle - excused else 0;
    var denom := if total - (idle - penalized) > 1 then total - (idle - penalized) else 1;
    VisitedCovers(0, total, p.sampleSeconds, byBucket, intensity);
    ClampNeverBites(p, SliceBuckets(p, samples, start, total, intensity), total);
    var pct := Round(100.0 * active as real / denom as real);
    if pct < 0 {
      pct := 0;
    }
    if pct > 100 {
      pct := 100;
    }
    var suspicious, reasons := false, [];
    var uniform := IsTooUniform(intensities);
    if uniform {
      suspicious, reasons := true, reasons + ["uniform_input_pattern"];
    }
    if pct >= 99 && idle == 0 && total >= 600 {
      suspicious, reasons := true, reasons + ["implausible_full_activity"];
    }
    var mouseOnly := IsMouseOnly(samples);
    if mouseOnly {
      suspicious, reasons := true, reasons + ["mouse_only_no_keys"];
    }
    r := SliceResult(pct, active, idle, suspicious, reasons);
    hide Constant, Billed;
    forall x | p.activeFloor < p.fullActiveAt && p.activeFloor <= x <= p.fullActiveAt
      && Constant(samples, start, p.sampleSeconds, total, intensity, x)
      ensures Billed(p, total, x, r.activeSeconds)
    {
      ConstantSlice(p, samples, start, total, intensity, x);
    }
  }
}
