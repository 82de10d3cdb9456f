/**
 * A key shared by a set of policies: when expiry of the key and denied requests cannot be noticed, when
 * Retry-After is exact, and what a clock that goes backwards is worth.
 */
module RateLimiterLaws {
  import opened Basics
  import opened RateLimiter

  ghost predicate Positive(policies: set<Policy>) { forall p :: p in policies ==> p.capacity >= 1 }

  /** Under no policy does the key expire before the bucket of any policy has refilled. */
  ghost predicate Kept(policies: set<Policy>) {
    forall p, q :: p in policies && q in policies ==> ExpiresFull(q, p.capacity as real, Rate(p))
  }

  /** A positive capacity refills at a positive rate. */
  lemma PositiveRate(p: Policy)
    requires p.capacity >= 1
    ensures Rate(p) > 0.0 && Sane(p)
  {
    if p.window > 0.0 {
      DivPositive(p.capacity as real, p.window);
    }
  }

  lemma AllPositive(tr: seq<Request>, policies: set<Policy>)
    requires Over(tr, policies) && Positive(policies)
    ensures forall k :: 0 <= k < |tr| ==> tr[k].policy.capacity >= 1 && Sane(tr[k].policy)
  {
    forall k | 0 <= k < |tr| ensures tr[k].policy.capacity >= 1 && Sane(tr[k].policy) { PositiveRate(tr[k].policy); }
  }

  /** Refilling at no less than 0.0001 tokens a second is enough for one policy. */
  lemma FastEnough(p: Policy)
    requires p.capacity >= 1 && Rate(p) >= 0.0001
    ensures Kept({p})
  {
    var rate, n := Rate(p), p.capacity as real;
    assert Max(rate, 0.0001) == rate;
    NonNegativeQuotient(n, rate);
    GainMonotone(rate, rate, n / rate, Ttl(p) as real);
    assert Gain(rate, n / rate) == n;
  }

  /** So it is for policies with one window, as the gateway configures its two. */
  lemma OneWindowIsKept(policies: set<Policy>, window: real)
    requires window > 0.0
    requires forall p :: p in policies ==> p.window == window && p.capacity >= 1 && Rate(p) >= 0.0001
    ensures Positive(policies) && Kept(policies)
  {
    forall p, q | p in policies && q in policies ensures ExpiresFull(q, p.capacity as real, Rate(p)) {
      QuotientOfQuotient(q.capacity as real, window);
      assert Max(Rate(q), 0.0001) == Rate(q);
      assert Ttl(q) as real >= window;
      TimesQuotient(p.capacity as real, window, Ttl(q) as real);
    }
  }

  // ---------------------------------------------------------------------------------------------
  // Expiry
  // ---------------------------------------------------------------------------------------------

  /** A key that has expired holds a bucket that would have been full. */
  lemma ExpiredIsFull(e: Entry, q: Policy, p: Policy, now: real)
    requires p.capacity >= 1 && q.capacity >= 1 && ExpiresFull(q, p.capacity as real, Rate(p))
    requires e.tokens >= 0.0 && e.expires == e.ts + Ttl(q) as real
    ensures Found(Live(Some(e), now), p, now) == Found(Some(e), p, now)
  {
    PositiveRate(p);
    PositiveRate(q);
    TtlIsPositive(q);
    if now >= e.expires {
      FullWhenMissing(p, now);
      GainMonotone(Rate(p), Rate(p), Ttl(q) as real, now - e.ts);
    }
    hide Gain, Ttl, Rate;
  }

  /** Request k finds the same tokens in what the trace before it has left, whether or not that may have expired. */
  lemma LiveOrSame(tr: seq<Request>, k: nat, policies: set<Policy>)
    requires k < |tr| && Over(tr, policies) && Positive(policies) && Kept(policies)
    ensures Found(Live(After(tr[..k], false), tr[k].at), tr[k].policy, tr[k].at)
         == Found(After(tr[..k], false), tr[k].policy, tr[k].at)
  {
    AllPositive(tr, policies);
    if k > 0 {
      assert ExpiresFull(tr[k - 1].policy, tr[k].policy.capacity as real, Rate(tr[k].policy));
      hide ExpiresFull, Found, Rate, Ttl, Live, Kept, Positive;
      TokensStayPositive(tr, k, false);
      AfterPrefix(tr, k - 1, false);
      ExpiredIsFull(After(tr[..k], false).value, tr[k - 1].policy, tr[k].policy, tr[k].at);
    }
  }

  lemma {:induction false} ExpiryChangesNothing(tr: seq<Request>, policies: set<Policy>)
    requires Over(tr, policies) && Positive(policies) && Kept(policies)
    ensures After(tr, true) == After(tr, false)
  {
    if tr != [] {
      var n := |tr| - 1;
      hide Kept, Positive, Found, Ttl, Rate, Live, After;
      ExpiryChangesNothing(tr[..n], policies);
      assert tr[..n + 1] == tr;
      LiveOrSame(tr, n, policies);
      AfterPrefix(tr, n, true);
      AfterPrefix(tr, n, false);
    }
  }

  ghost predicate SameDecisions(tr: seq<Request>) {
    forall k :: 0 <= k < |tr| ==> Admitted(tr, k, true) == Admitted(tr, k, false)
  }

  lemma ExpiryIsInvisible(tr: seq<Request>, policies: set<Policy>)
    requires Over(tr, policies) && Positive(policies) && Kept(policies)
    ensures SameDecisions(tr)
  {
    hide Kept, Positive, Found, Rate, Live, After;
    forall k | 0 <= k < |tr| ensures Admitted(tr, k, true) == Admitted(tr, k, false) {
      ExpiryChangesNothing(tr[..k], policies);
      LiveOrSame(tr, k, policies);
    }
  }

  /** A fresh bucket that has just been emptied. */
  lemma Emptied(p: Policy, at: real, forgets: bool)
    requires p.capacity >= 1
    ensures After(Burst(p, p.capacity, at), forgets) == Some(Entry(0.0, at, at + Ttl(p) as real))
  {
    var n := p.capacity;
    PositiveRate(p);
    FullWhenMissing(p, at);
    assert [] + Burst(p, n - 1, at) == Burst(p, n - 1, at);
    BurstDrains([], p, n - 1, at, forgets, n as real);
    assert Burst(p, n, at) == Burst(p, n - 1, at) + [Request(at, p)];
    hide After, Found, Rate, Ttl, Burst;
    AfterSnoc(Burst(p, n - 1, at), Request(at, p), forgets);
  }

  /** A request that comes when nothing is left is denied, and the key now expires by its policy. */
  lemma EmptyStays(tr: seq<Request>, q: Policy, at: real, expires: real, forgets: bool)
    requires q.capacity >= 1 && After(tr, forgets) == Some(Entry(0.0, at, expires)) && at < expires
    ensures After(tr + [Request(at, q)], forgets) == Some(Entry(0.0, at, at + Ttl(q) as real))
  {
    GainAdds(Rate(q), 0.0, 0.0);
    hide After, Ttl, Rate, Gain;
    AfterSnoc(tr, Request(at, q), forgets);
  }

  /** Drain the bucket of p, let q set the time of expiry, and drain it again then: that takes a full bucket. */
  lemma ExpiryShows(p: Policy, q: Policy) returns (tr: seq<Request>)
    requires p.capacity >= 1 && q.capacity >= 1 && !ExpiresFull(q, p.capacity as real, Rate(p))
    ensures Over(tr, {p, q}) && Ordered(tr) && !SameDecisions(tr)
  {
    hide Gain, Rate, Ttl, Found, After;
    var n, later := p.capacity, Ttl(q) as real;
    PositiveRate(p);
    PositiveRate(q);
    TtlIsPositive(p);
    TtlIsPositive(q);
    var first := Burst(p, n, 0.0) + [Request(0.0, q)];
    tr := first + Burst(p, n, later);
    var x := Gain(Rate(p), later);
    GainMonotone(Rate(p), Rate(p), 0.0, later);
    Emptied(p, 0.0, false);
    EmptyStays(Burst(p, n, 0.0), q, 0.0, Ttl(p) as real, false);
    GoneAtExpiry(first);
    FullWhenMissing(p, later);
    HeldByThen(p, After(first, false).value, later);
    hide ExpiresFull;
    var k := x.Floor;
    BurstAdmits(first, p, n, later, true, n as real, k);
    BurstAdmits(first, p, n, later, false, x, k);
    assert Admitted(tr, n + 1 + k, true) && !Admitted(tr, n + 1 + k, false);
  }

  lemma HeldByThen(p: Policy, e: Entry, later: real)
    requires e.tokens == 0.0 && later >= e.ts && Gain(Rate(p), later - e.ts) <= p.capacity as real
    ensures Found(Some(e), p, later) == Gain(Rate(p), later - e.ts)
  {
    hide Gain, Rate;
  }

  /**
   * Expiry cannot be noticed by any sequence of requests under the policies that share a key exactly when no
   * policy lets the key expire before the bucket of any of them has refilled.
   */
  lemma ExpiryIsInvisibleExactly(policies: set<Policy>)
    requires Positive(policies)
    ensures Kept(policies) <==> forall tr :: Over(tr, policies) && Ordered(tr) ==> SameDecisions(tr)
  {
    hide SameDecisions, Ordered, ExpiresFull;
    if Kept(policies) {
      forall tr | Over(tr, policies) && Ordered(tr) ensures SameDecisions(tr) { ExpiryIsInvisible(tr, policies); }
    } else {
      var p, q :| p in policies && q in policies && !ExpiresFull(q, p.capacity as real, Rate(p));
      var tr := ExpiryShows(p, q);
      assert Over(tr, policies);
    }
  }

  // ---------------------------------------------------------------------------------------------
  // Denied requests
  // ---------------------------------------------------------------------------------------------

  ghost predicate EqualRates(policies: set<Policy>) {
    forall p, q :: p in policies && q in policies ==> Rate(p) == Rate(q)
  }

  /** After a denied request the bucket holds at any later time what it would have held without it. */
  lemma DeniedLeavesNoTrace(e: Option<Entry>, p: Policy, q: Policy, at: real, now: real)
    requires p.capacity >= 1 && q.capacity >= 1 && Rate(p) == Rate(q)
    requires (e.Some? ==> e.value.ts <= at) && at <= now && Found(e, p, at) < 1.0
    ensures e.Some? && Found(Some(Spend(Found(e, p, at), p, at)), q, now) == Found(e, q, now)
  {
    PositiveRate(p);
    if e.None? {
      FullWhenMissing(p, at);
    } else {
      GainAdds(Rate(p), at - e.value.ts, now - at);
      GainMonotone(Rate(p), Rate(p), 0.0, now - at);
      hide Gain, Rate, Ttl;
    }
  }

  function Without(tr: seq<Request>, i: nat): seq<Request>
    requires i < |tr|
  {
    tr[..i] + tr[i + 1..]
  }

  /** Dropping request i changes no other decision. */
  ghost predicate Unnoticed(tr: seq<Request>, i: nat)
    requires i < |tr|
  {
    && (forall k :: 0 <= k < i ==> Admitted(Without(tr, i), k, true) == Admitted(tr, k, true))
    && (forall k :: i < k < |tr| ==> Admitted(Without(tr, i), k - 1, true) == Admitted(tr, k, true))
  }

  lemma TimesNeverBack(tr: seq<Request>, k: nat, forgets: bool)
    requires Ordered(tr) && k < |tr|
    ensures After(tr[..k], forgets).Some? ==> After(tr[..k], forgets).value.ts <= tr[k].at
  {
    if k > 0 {
      AfterPrefix(tr, k - 1, forgets);
    }
    hide Found, Ttl, Rate;
  }

  /** Every later request finds the same tokens with the denied request and without it. */
  lemma {:induction false} LaterFindTheSame(tr: seq<Request>, policies: set<Policy>, i: nat, k: nat)
    requires Over(tr, policies) && Ordered(tr) && Positive(policies) && EqualRates(policies)
    requires i < k < |tr| && !Admitted(tr, i, false)
    ensures TokensAt(tr, k, false) == TokensAt(Without(tr, i), k - 1, false)
    decreases k
  {
    hide After, Found, Rate, Ttl;
    var less := Without(tr, i);
    assert less[k - 1] == tr[k];
    if k == i + 1 {
      TimesNeverBack(tr, i, false);
      AfterPrefix(tr, i, false);
      assert less[..k - 1] == tr[..i];
      DeniedLeavesNoTrace(After(tr[..i], false), tr[i].policy, tr[k].policy, tr[i].at, tr[k].at);
    } else {
      LaterFindTheSame(tr, policies, i, k - 1);
      assert less[k - 2] == tr[k - 1];
      AfterPrefix(tr, k - 1, false);
      AfterPrefix(less, k - 2, false);
    }
  }

  /** Dropping a denied request from a trace changes no other decision, if all policies refill alike. */
  lemma DeniedIsInvisible(tr: seq<Request>, policies: set<Policy>, i: nat)
    requires Over(tr, policies) && Ordered(tr) && Positive(policies) && Kept(policies) && EqualRates(policies)
    requires i < |tr| && !Admitted(tr, i, true)
    ensures Unnoticed(tr, i)
  {
    hide Kept, Positive, EqualRates, Rate;
    var less := Without(tr, i);
    ExpiryIsInvisible(tr, policies);
    ExpiryIsInvisible(less, policies);
    hide After, Found;
    forall k | 0 <= k < i ensures Admitted(less, k, true) == Admitted(tr, k, true) {
      assert less[..k] == tr[..k] && less[k] == tr[k];
    }
    forall k: nat | i < k < |tr| ensures Admitted(less, k - 1, true) == Admitted(tr, k, true) {
      LaterFindTheSame(tr, policies, i, k);
    }
  }

  /** Two different rates can be told apart: after x seconds at one of them, s more at the other are enough or not. */
  lemma Gap(rp: real, rq: real) returns (x: real, s: real)
    requires rp > 0.0 && rq > 0.0 && rp != rq
    ensures x >= 0.0 && s >= 0.0 && Gain(rp, x) < 1.0
    ensures Gain(rp, x) + Gain(rq, s) >= 1.0 <==> !(Gain(rq, x) + Gain(rq, s) >= 1.0)
  {
    var faster := Max(rp, rq);
    x, s := 0.5 / faster, 0.5 / rq;
    DivPositive(0.5, faster);
    DivPositive(0.5, rq);
    assert faster * x == 0.5 && rq * s == 0.5;
    assert faster == rp ==> rq * x < rp * x;
    assert faster == rq ==> rp * x < rq * x;
  }

  /** The bucket of p is emptied; x seconds later p is denied; then q comes, with and without that denial before it. */
  lemma DenialFindings(p: Policy, q: Policy, x: real, s: real)
    requires p.capacity >= 1 && q.capacity >= 1 && x >= 0.0 && s >= 0.0 && Gain(Rate(p), x) < 1.0
    ensures var n, empty := p.capacity, Burst(p, p.capacity, 0.0);
      var tr := empty + [Request(x, p), Request(x + s, q)];
      && |tr| == n + 2 && Without(tr, n) == empty + [Request(x + s, q)]
      && !Admitted(tr, n, false)
      && (Admitted(tr, n + 1, false) <==> Gain(Rate(p), x) + Gain(Rate(q), s) >= 1.0)
      && (Admitted(empty + [Request(x + s, q)], n, false) <==> Gain(Rate(q), x) + Gain(Rate(q), s) >= 1.0)
  {
    var n, empty := p.capacity, Burst(p, p.capacity, 0.0);
    var tr, less := empty + [Request(x, p), Request(x + s, q)], empty + [Request(x + s, q)];
    BurstLength(p, n, 0.0);
    PositiveRate(p);
    PositiveRate(q);
    Emptied(p, 0.0, false);
    assert tr[..n] == empty && less[..n] == empty && tr[..n + 1] == empty + [Request(x, p)];
    hide After, Ttl, Burst, Rate;
    GainMonotone(Rate(p), Rate(p), 0.0, x);
    GainAdds(Rate(q), x, s);
    AfterSnoc(empty, Request(x, p), false);
    hide Gain;
  }

  /** With different rates a denied request is noticed. */
  lemma DenialShows(p: Policy, q: Policy, policies: set<Policy>) returns (tr: seq<Request>, i: nat)
    requires p in policies && q in policies && Rate(p) != Rate(q) && Positive(policies) && Kept(policies)
    ensures Over(tr, policies) && Ordered(tr) && i < |tr| && !Admitted(tr, i, true) && !Unnoticed(tr, i)
  {
    PositiveRate(p);
    PositiveRate(q);
    var x, s := Gap(Rate(p), Rate(q));
    var empty := Burst(p, p.capacity, 0.0);
    tr, i := empty + [Request(x, p), Request(x + s, q)], p.capacity;
    DenialFindings(p, q, x, s);
    var less := empty + [Request(x + s, q)];
    assert Over(tr, policies) && Over(less, policies) && Ordered(tr);
    hide Kept, Positive, Admitted, Rate, Gain;
    ExpiryIsInvisible(tr, policies);
    ExpiryIsInvisible(less, policies);
    assert Admitted(Without(tr, i), i, true) != Admitted(tr, i + 1, true);
  }

  /**
   * Denied requests cannot be noticed on a shared key exactly when all its policies refill at one rate. (That the
   * key is kept long enough is the condition of the law above.)
   */
  lemma DeniedIsInvisibleExactly(policies: set<Policy>)
    requires Positive(policies) && Kept(policies)
    ensures EqualRates(policies) <==>
      forall tr, i: nat :: Over(tr, policies) && Ordered(tr) && i < |tr| && !Admitted(tr, i, true) ==> Unnoticed(tr, i)
  {
    hide Positive, Kept, Over, Ordered, Admitted, Unnoticed;
    if EqualRates(policies) {
      forall tr, i: nat | Over(tr, policies) && Ordered(tr) && i < |tr| && !Admitted(tr, i, true)
        ensures Unnoticed(tr, i)
      {
        DeniedIsInvisible(tr, policies, i);
      }
    } else {
      var p, q :| p in policies && q in policies && Rate(p) != Rate(q);
      var tr, i := DenialShows(p, q, policies);
    }
  }

  /** With one window and two capacities, denied requests of one bucket can change decisions of the other. */
  lemma SharedWindowIsNoticed(general: Policy, auth: Policy) returns (tr: seq<Request>, i: nat)
    requires general.window == auth.window > 0.0 && general.capacity != auth.capacity
    requires general.capacity >= 1 && auth.capacity >= 1 && Rate(general) >= 0.0001 && Rate(auth) >= 0.0001
    ensures Over(tr, {general, auth}) && Ordered(tr) && i < |tr| && !Admitted(tr, i, true) && !Unnoticed(tr, i)
  {
    OneWindowIsKept({general, auth}, general.window);
    DifferentQuotients(general.capacity as real, auth.capacity as real, general.window);
    hide Kept, Positive, Over, Ordered, Admitted, Unnoticed;
    tr, i := DenialShows(general, auth, {general, auth});
  }

  lemma DifferentQuotients(a: real, b: real, w: real)
    requires a != b && w > 0.0
    ensures a / w != b / w
  {
    assert (a / w) * w == a && (b / w) * w == b;
  }

  // ---------------------------------------------------------------------------------------------
  // Retry-After
  // ---------------------------------------------------------------------------------------------

  /** n seconds bring the missing tokens exactly when n is at least the quotient rounded up. */
  lemma EnoughSeconds(missing: real, rate: real, n: int)
    requires missing > 0.0 && rate > 0.0
    ensures Gain(rate, n as real) >= missing <==> n >= Ceil(missing / rate)
  {
    var q := missing / rate;
    assert q * rate == missing;
    if n >= Ceil(q) {
      DivPositive(missing, rate);
      GainMonotone(rate, rate, q, n as real);
    } else {
      assert (q - n as real) * rate > 0.0;
    }
  }

  /** A request n whole seconds after a denied one passes exactly when n is at least the retry. */
  lemma WaitingPays(e: Option<Entry>, p: Policy, now: real, n: nat)
    requires p.capacity >= 1 && (e.Some? ==> e.value.ts <= now) && Found(e, p, now) < 1.0
    ensures Found(e, p, now + n as real) >= 1.0 <==> n >= Ceil((1.0 - Found(e, p, now)) / Rate(p))
  {
    PositiveRate(p);
    var later := now + n as real;
    DeniedLeavesNoTrace(e, p, p, now, later);
    EnoughSeconds(1.0 - Found(e, p, now), Rate(p), n);
    hide Gain, Rate, Ttl, Ceil;
    var denied := Spend(Found(e, p, now), p, now);
    assert Found(Some(denied), p, later) == Found(e, p, later);
  }

  /** Denied requests in between do not change what is found later. */
  lemma {:induction false} PollingChangesNothing(tr: seq<Request>, policies: set<Policy>, p: Policy, i: nat, j: nat,
                                                 now: real)
    requires Over(tr, policies) && Ordered(tr) && Positive(policies) && EqualRates(policies) && p in policies
    requires i <= j <= |tr| && forall k :: i <= k < j ==> !Admitted(tr, k, false) && tr[k].at <= now
    ensures Found(After(tr[..j], false), p, now) == Found(After(tr[..i], false), p, now)
    decreases j
  {
    hide After, Found, Rate, Ttl;
    if i < j {
      PollingChangesNothing(tr, policies, p, i, j - 1, now);
      TimesNeverBack(tr, j - 1, false);
      AfterPrefix(tr, j - 1, false);
      DeniedLeavesNoTrace(After(tr[..j - 1], false), tr[j - 1].policy, p, tr[j - 1].at, now);
    }
  }

  /**
   * Retry-After is exact. Request i is denied with some retry; the requests after it are denied too, under any
   * policy that refills alike; then a request n whole seconds after request i, under its policy, is admitted if
   * and only if n is at least that retry.
   */
  lemma RetryAfterIsExact(tr: seq<Request>, policies: set<Policy>, i: nat, n: nat)
    requires Over(tr, policies) && Ordered(tr) && Positive(policies) && Kept(policies) && EqualRates(policies)
    requires i < |tr| && forall k :: i <= k < |tr| ==> !Admitted(tr, k, true)
    requires tr[|tr| - 1].at <= tr[i].at + n as real
    ensures var p := tr[i].policy;
      Allows(After(tr, true), p, tr[i].at + n as real) <==> n >= RetryAfter(After(tr[..i], true), p, tr[i].at)
  {
    hide Kept, EqualRates, Rate, After, Found, Live, Ceil;
    var p, now, later := tr[i].policy, tr[i].at, tr[i].at + n as real;
    BothFindTheSame(tr[..i], policies, p, now);
    BothFindTheSame(tr, policies, p, later);
    assert forall k :: i <= k < |tr| ==> !Admitted(tr, k, false) by { ExpiryIsInvisible(tr, policies); }
    RetryWithoutExpiry(tr, policies, i, n);
    PositiveRate(p);
  }

  /** What a request finds now, whether or not idle keys are forgotten. */
  lemma BothFindTheSame(tr: seq<Request>, policies: set<Policy>, p: Policy, now: real)
    requires Over(tr, policies) && Positive(policies) && Kept(policies) && p in policies
    ensures Refilled(After(tr, true), p, now) == Found(After(tr, false), p, now)
  {
    hide Kept, Positive, Rate, After, Found, Live;
    var all := tr + [Request(now, p)];
    assert all[..|tr|] == tr;
    ExpiryChangesNothing(tr, policies);
    LiveOrSame(all, |tr|, policies);
  }

  lemma RetryWithoutExpiry(tr: seq<Request>, policies: set<Policy>, i: nat, n: nat)
    requires Over(tr, policies) && Ordered(tr) && Positive(policies) && EqualRates(policies)
    requires i < |tr| && forall k :: i <= k < |tr| ==> !Admitted(tr, k, false)
    requires tr[|tr| - 1].at <= tr[i].at + n as real
    ensures var p := tr[i].policy;
      && Found(After(tr[..i], false), p, tr[i].at) < 1.0
      && (Found(After(tr, false), p, tr[i].at + n as real) >= 1.0
          <==> n >= Ceil((1.0 - Found(After(tr[..i], false), p, tr[i].at)) / Rate(p)))
  {
    hide EqualRates, Rate, After, Found, Live, Ceil;
    assert tr[..|tr|] == tr;
    PollingChangesNothing(tr, policies, tr[i].policy, i, |tr|, tr[i].at + n as real);
    TimesNeverBack(tr, i, false);
    assert !Admitted(tr, i, false);
    WaitingPays(After(tr[..i], false), tr[i].policy, tr[i].at, n);
  }

  // ---------------------------------------------------------------------------------------------
  // A clock that goes backwards
  // ---------------------------------------------------------------------------------------------

  /** Empty the bucket at time 0, then n times: a request one refill earlier, and one at time 0 again. */
  function BackAndForth(p: Policy, n: nat): seq<Request>
    requires p.capacity >= 1
  {
    if n == 0 then Burst(p, p.capacity, 0.0)
    else BackAndForth(p, n - 1) + [Request(-TimeForOne(p), p), Request(0.0, p)]
  }

  function TimeForOne(p: Policy): real
    requires p.capacity >= 1
  {
    PositiveRate(p);
    1.0 / Rate(p)
  }

  lemma OneFlowsIn(p: Policy)
    requires p.capacity >= 1
    ensures TimeForOne(p) > 0.0 && Gain(Rate(p), TimeForOne(p)) == 1.0
  {
    PositiveRate(p);
    DivPositive(1.0, Rate(p));
    assert TimeForOne(p) * Rate(p) == 1.0;
  }

  /** The request that comes too early finds nothing, the one after it one token. */
  lemma RoundFindings(p: Policy)
    requires p.capacity >= 1 && Kept({p})
    ensures var back, ttl := -TimeForOne(p), Ttl(p) as real;
      && Refilled(Some(Entry(0.0, 0.0, ttl)), p, back) == 0.0
      && Refilled(Some(Entry(0.0, back, back + ttl)), p, 0.0) == 1.0
  {
    OneFlowsIn(p);
    PositiveRate(p);
    TtlIsPositive(p);
    GainAdds(Rate(p), 0.0, 0.0);
    assert ExpiresFull(p, p.capacity as real, Rate(p));
    hide ExpiresFull, Gain, Rate, Ttl, Kept, TimeForOne;
    ExpiredIsFull(Entry(0.0, -TimeForOne(p), -TimeForOne(p) + Ttl(p) as real), p, p, 0.0);
  }

  /** A round leaves the bucket as it was and admits one request. */
  lemma OneRound(tr: seq<Request>, p: Policy)
    requires p.capacity >= 1 && Kept({p}) && tr != []
    requires After(tr, true) == Some(Entry(0.0, 0.0, Ttl(p) as real))
    ensures var all := tr + [Request(-TimeForOne(p), p), Request(0.0, p)];
      && After(all, true) == Some(Entry(0.0, 0.0, Ttl(p) as real))
      && Count(all, 0, |all|) == Count(tr, 0, |tr|) + 1
  {
    var back, now := Request(-TimeForOne(p), p), Request(0.0, p);
    var one := tr + [back];
    var all := tr + [back, now];
    assert all == one + [now] && all[..|tr|] == tr && all[..|tr| + 1] == one;
    RoundFindings(p);
    hide TimeForOne, Found, Live, Ttl, After, Kept, Count;
    AfterSnoc(tr, back, true);
    AfterSnoc(one, now, true);
    TwoMore(all, |tr|);
    assert !Admitted(all, |tr|, true) && Admitted(all, |tr| + 1, true);
    assert all == tr + [back, now];
    CountPrefix(tr, [back, now], 0, |tr|);
  }

  lemma TwoMore(tr: seq<Request>, k: nat)
    requires k + 2 == |tr|
    ensures Count(tr, 0, k + 2) == Count(tr, 0, k)
      + (if Admitted(tr, k, true) then 1 else 0) + if Admitted(tr, k + 1, true) then 1 else 0
  {
    hide Admitted;
  }

  lemma {:induction false} DriftPrefix(a: seq<Request>, b: seq<Request>, j: nat)
    requires 0 < j <= |a|
    ensures Drift(a + b, 0, j) == Drift(a, 0, j)
  {
    if j > 1 {
      DriftPrefix(a, b, j - 1);
    }
  }

  lemma {:induction false} BurstHasNoDrift(p: Policy, n: nat, j: nat)
    requires 0 < j <= n
    ensures Drift(Burst(p, n, 0.0), 0, j) == 0.0
  {
    if j > 1 {
      BurstHasNoDrift(p, n, j - 1);
    }
  }

  lemma {:induction false} BackAndForthEndsAtZero(p: Policy, n: nat)
    requires p.capacity >= 1
    ensures var tr := BackAndForth(p, n);
      && |tr| == p.capacity + 2 * n && tr[0].at == tr[|tr| - 1].at == 0.0 && Over(tr, {p})
      && Drift(tr, 0, |tr|) == n as real * TimeForOne(p)
  {
    hide TimeForOne;
    if n == 0 {
      BurstHasNoDrift(p, p.capacity, p.capacity);
    } else {
      var before := BackAndForth(p, n - 1);
      var round := [Request(-TimeForOne(p), p), Request(0.0, p)];
      BackAndForthEndsAtZero(p, n - 1);
      OneFlowsIn(p);
      DriftPrefix(before, round, |before|);
      var tr := before + round;
      assert tr[|before|] == round[0] && tr[|before| + 1] == round[1] && tr[|before| - 1] == before[|before| - 1];
      assert Drift(tr, 0, |before| + 1) == Drift(tr, 0, |before|) + TimeForOne(p);
      assert Drift(tr, 0, |before| + 2) == Drift(tr, 0, |before| + 1);
    }
  }

  lemma FirstBurst(p: Policy)
    requires p.capacity >= 1
    ensures var tr := Burst(p, p.capacity, 0.0);
      |tr| == p.capacity && Count(tr, 0, |tr|) == p.capacity
      && After(tr, true) == Some(Entry(0.0, 0.0, Ttl(p) as real))
  {
    PositiveRate(p);
    BurstLength(p, p.capacity, 0.0);
    Emptied(p, 0.0, true);
    hide After, Ttl, Burst, Rate, Count;
    FreshBurst(p, 0.0, []);
    assert Burst(p, p.capacity, 0.0) + [] == Burst(p, p.capacity, 0.0);
  }

  lemma {:induction false} BackAndForthAdmits(p: Policy, n: nat)
    requires p.capacity >= 1 && Kept({p})
    ensures var tr := BackAndForth(p, n);
      tr != [] && After(tr, true) == Some(Entry(0.0, 0.0, Ttl(p) as real)) && Count(tr, 0, |tr|) == p.capacity + n
  {
    hide After, Count, Ttl, Kept, TimeForOne, Burst;
    if n == 0 {
      FirstBurst(p);
    } else {
      BackAndForthAdmits(p, n - 1);
      OneRound(BackAndForth(p, n - 1), p);
    }
  }

  lemma TimesMany(p: Policy, n: nat)
    requires p.capacity >= 1
    ensures Gain(Rate(p), n as real * TimeForOne(p)) == n as real
  {
    OneFlowsIn(p);
    var t := TimeForOne(p);
    assert Gain(Rate(p), n as real * t) == n as real * Gain(Rate(p), t);
  }

  /**
   * What a clock gives back it pays out: for every policy and every n there is a trace, all in one instant but
   * for the requests that came too early, that admits n requests more than an ordered clock would, and so exactly
   * as many as the bound with drift allows.
   */
  lemma BackwardClockMints(p: Policy, n: nat) returns (tr: seq<Request>)
    requires p.capacity >= 1 && Kept({p})
    ensures Over(tr, {p}) && tr != [] && tr[0].at == tr[|tr| - 1].at
    ensures Count(tr, 0, |tr|) == p.capacity + n
    ensures Count(tr, 0, |tr|) as real
      == p.capacity as real + Gain(Rate(p), tr[|tr| - 1].at - tr[0].at + Drift(tr, 0, |tr|))
    ensures n > 0 ==> !Bounded(tr, p.capacity as real, Rate(p))
  {
    tr := BackAndForth(p, n);
    BackAndForthEndsAtZero(p, n);
    BackAndForthAdmits(p, n);
    TimesMany(p, n);
    GainAdds(Rate(p), 0.0, 0.0);
    hide BackAndForth, Gain, Kept, TimeForOne, Rate;
    assert Count(tr, 0, |tr|) as real == p.capacity as real + n as real;
    assert Gain(Rate(p), tr[|tr| - 1].at - tr[0].at) == 0.0;
  }
}
