/** The parts of activity scoring, each pinned down without its definition. */
module ActivityLaws {
  import opened Basics
  import opened Signals
  import opened Activity

  /** A bucket is billed exactly if its intensity is above the floor, or reaches it where there is no ramp. */
  lemma BillableAboveTheFloor(p: Params, b: Bucket)
    ensures p.activeFloor < p.fullActiveAt ==> (Billable(p, b) <==> b.intensity > p.activeFloor)
    ensures p.activeFloor >= p.fullActiveAt ==> (Billable(p, b) <==> b.intensity >= p.activeFloor)
  {
    if p.activeFloor < p.fullActiveAt {
      GradingIsARamp(p, b.intensity);
      hide BillableFraction;
      ZeroOnlyAtZero(BillableFraction(p, b.intensity), p.fullActiveAt - p.activeFloor);
    }
  }

  lemma ZeroOnlyAtZero(f: real, ramp: real)
    requires ramp > 0.0 && f >= 0.0
    ensures f * ramp > 0.0 <==> f > 0.0
  {
  }

  /** The active seconds of one bucket are its graded length, and those of two stretches add up. */
  lemma {:induction false} ActiveSecondsAdd(p: Params, a: seq<Bucket>, b: seq<Bucket>)
    ensures ActiveAcc(p, a + b) == ActiveAcc(p, a) + ActiveAcc(p, b)
    ensures |b| == 1 ==> ActiveAcc(p, b) == b[0].seg as real * BillableFraction(p, b[0].intensity)
  {
    hide BillableFraction;
    if b == [] {
      assert a + b == a;
    } else {
      assert (a + b)[..|a + b| - 1] == a + b[..|b| - 1];
      ActiveSecondsAdd(p, a, b[..|b| - 1]);
    }
  }

  function Run(p: Params, bs: seq<Bucket>): nat { Span(bs, TailStart(p, bs), |bs|) }

  /** A stretch without a billable bucket is idle as a whole if it reaches the threshold, and not at all otherwise. */
  lemma {:induction false} OneGap(p: Params, bs: seq<Bucket>)
    requires forall k :: 0 <= k < |bs| ==> !Billable(p, bs[k])
    ensures IdleSeconds(p, bs) == if Span(bs, 0, |bs|) >= p.idleThreshold then Span(bs, 0, |bs|) else 0
    ensures Run(p, bs) == Span(bs, 0, |bs|)
  {
    if bs != [] {
      var n := |bs| - 1;
      hide Billable, TailStart, CountsAsIdle;
      OneGap(p, bs[..n]);
      OneMoreBucket(p, bs[..n], bs[n]);
      SpanPrefix(bs[..n], bs[n], 0, n);
      assert bs == bs[..n] + [bs[n]];
      hide IdleSeconds;
    }
  }

  /** Idle time on the two sides of a billable bucket adds up. With OneGap this determines it for every slice. */
  lemma {:induction false} GapsAreApart(p: Params, a: seq<Bucket>, b: Bucket, c: seq<Bucket>)
    requires Billable(p, b)
    ensures IdleSeconds(p, a + [b] + c) == IdleSeconds(p, a) + IdleSeconds(p, c)
    ensures Run(p, a + [b] + c) == Run(p, c)
  {
    hide Billable, CountsAsIdle, IdleSeconds, TailStart, Span;
    if c == [] {
      OneMoreBucket(p, a, b);
      assert a + [b] + c == a + [b];
      NoIdle(p);
    } else {
      var init, last := c[..|c| - 1], c[|c| - 1];
      GapsAreApart(p, a, b, init);
      OneMoreBucket(p, init, last);
      OneMoreBucket(p, a + [b] + init, last);
      assert init + [last] == c && a + [b] + init + [last] == a + [b] + c;
    }
  }

  lemma NoIdle(p: Params)
    ensures IdleSeconds(p, []) == 0 && Run(p, []) == 0
  {
  }

  /** Idle time up to the excused share of the slice leaves the denominator, which is never below one. */
  lemma ExcusedIdleLeaves(p: Params, total: nat, idle: nat)
    requires p.excusedIdleCap >= 0.0
    ensures var excused := (total as real * p.excusedIdleCap).Floor;
      var counted := total - if idle < excused then idle else excused;
      Denominator(p, total, idle) == if counted > 1 then counted else 1
  {
    NonNegativeProduct(total as real, p.excusedIdleCap);
  }

  lemma NonNegativeProduct(a: real, b: real)
    requires a >= 0.0 && b >= 0.0
    ensures a * b >= 0.0
  {
  }

  /** The percentage is the nearest to a hundred times active over denominator. */
  lemma PercentageIsNearest(active: int, denominator: int)
    requires denominator > 0
    ensures var d := denominator as real;
      -d <= 2.0 * (Percentage(active, denominator) as real * d - 100.0 * active as real) <= d
  {
    var d, a := denominator as real, 100.0 * active as real;
    var q := a / d;
    assert q * d == a;
    RoundIsNearest(q);
    hide Round;
    var pct := Round(q) as real;
    Stretched(q, pct - q, pct, d, a);
  }

  /** A sample scores one for each key and click, and one for every full hundred pixels. */
  lemma ScoreCounts(s: Sample)
    requires s.distance >= 0
    ensures 100 * (Score(s) - s.keyboard - s.mouse) <= s.distance < 100 * (Score(s) - s.keyboard - s.mouse + 1)
  {
  }

  /**
   * A sample falls into the step of the slice that its whole seconds since the start lie in; one that is less than
   * a step early falls into the first, and an earlier one into none.
   */
  lemma SamplesFallInTheirStep(s: Sample, start: int, step: int)
    requires step > 0
    ensures s.at >= start ==> exists secs: nat ::
      && secs * 1_000_000_000 <= s.at - start < (secs + 1) * 1_000_000_000
      && IndexOf(s, start, step) >= 0
      && IndexOf(s, start, step) * step <= secs < (IndexOf(s, start, step) + 1) * step
    ensures s.at < start ==>
      if start - s.at < step * 1_000_000_000 then IndexOf(s, start, step) == 0 else IndexOf(s, start, step) < 0
  {
    var d := s.at - start;
    var secs := TruncDiv(d, SECOND);
    if d >= 0 {
      assert IndexOf(s, start, step) >= 0 by { QuotientIsNat(secs, step); }
    } else {
      EarlySeconds(d, step);
      EarlyIndex(secs, step);
    }
  }

  lemma QuotientIsNat(a: int, b: int)
    requires a >= 0 && b > 0
    ensures TruncDiv(a, b) >= 0
  {
  }

  lemma EarlySeconds(d: int, step: int)
    requires d < 0 && step > 0
    ensures TruncDiv(d, SECOND) <= 0
    ensures -d < step * SECOND <==> -TruncDiv(d, SECOND) < step
  {
  }

  lemma EarlyIndex(secs: int, step: int)
    requires secs <= 0 && step > 0
    ensures TruncDiv(secs, step) <= 0
    ensures TruncDiv(secs, step) == 0 <==> -secs < step
  {
    ZeroQuotient(-secs, step);
  }

  lemma ZeroQuotient(a: int, b: int)
    requires a >= 0 && b > 0
    ensures a / b >= 0 && (a / b == 0 <==> a < b)
  {
    var q := a / b;
    assert a == q * b + a % b;
    if q >= 1 {
      Multiple(q, b);
    }
  }

  lemma Multiple(q: int, b: int)
    requires q >= 1 && b > 0
    ensures q * b >= b
  {
  }

  /** Each reason is given exactly for its cause. */
  lemma ReasonsHaveCauses(xs: seq<real>, samples: seq<Sample>, total: int, pct: int, idle: int)
    ensures var reasons := Reasons(xs, samples, total, pct, idle);
      && ("uniform_input_pattern" in reasons <==> TooUniform(xs))
      && ("implausible_full_activity" in reasons <==> pct >= 99 && idle == 0 && total >= 600)
      && ("mouse_only_no_keys" in reasons <==> MouseOnly(samples))
      && forall r :: r in reasons ==>
           r in {"uniform_input_pattern", "implausible_full_activity", "mouse_only_no_keys"}
  {
    hide TooUniform, MouseOnly;
  }

  lemma {:induction false} NothingSampled(offset: nat, total: nat, step: int, intensity: Sample -> real)
    requires step > 0
    ensures AllAt(Visited(offset, total, step, map[], intensity), 0.0)
    decreases total - offset
  {
    if offset < total {
      NothingSampled(offset + step, total, step, intensity);
    }
  }

  /** A slice without samples bills nothing and is idle as a whole, if it lasts as long as the threshold. */
  lemma {:induction false} MissingSamplesAreIdle(p: Params, start: int, total: nat, intensity: Sample -> real)
    requires p.sampleSeconds > 0 && 0.0 < p.activeFloor
    ensures var bs := SliceBuckets(p, [], start, total, intensity);
      && Round(ActiveAcc(p, bs)) == 0 && IdleSeconds(p, bs) == if total >= p.idleThreshold then total else 0
  {
    var bs := SliceBuckets(p, [], start, total, intensity);
    NothingSampled(0, total, p.sampleSeconds, intensity);
    VisitedCovers(0, total, p.sampleSeconds, map[], intensity);
    forall k | 0 <= k < |bs| ensures !Billable(p, bs[k]) { BillableAboveTheFloor(p, bs[k]); }
    ConstantAcc(p, bs, 0.0);
    OneGap(p, bs);
    assert BillableFraction(p, 0.0) == 0.0;
    hide Billable, IdleSeconds, ActiveAcc, Visited;
  }
}
