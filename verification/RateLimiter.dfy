/**
 * The token bucket behind the gateway's rate limit: the script that runs atomically in Redis, the
 * expiry of idle keys, and the Go caller. Times and token counts are reals; Redis and the gateways
 * share one clock.
 */
module RateLimiter {
  import opened Basics

  /** Window is the time, in seconds, in which the capacity is refilled. */
  datatype Policy = Policy(capacity: int, window: real)

  /** A key's hash, and when it expires. */
  datatype Entry = Entry(tokens: real, ts: real, expires: real)

  datatype Reply = Reply(allowed: bool, remaining: int, retry: int)

  function Rate(p: Policy): real {
    if p.window <= 0.0 then p.capacity as real else p.capacity as real / p.window
  }

  function Ceil(x: real): (n: int)
    ensures n as real - 1.0 < x <= n as real
  {
    -(-x).Floor
  }

  function Min(a: real, b: real): real { if a < b then a else b }

  function Max(a: real, b: real): real { if a < b then b else a }

  /** Seconds after which an untouched key is dropped. */
  function Ttl(p: Policy): int { Ceil(p.capacity as real / Max(Rate(p), 0.0001)) + 1 }

  /** The tokens that flow in during this many seconds. */
  function Gain(rate: real, seconds: real): real { seconds * rate }

  /** An expired key is missing. */
  function Live(e: Option<Entry>, now: real): Option<Entry> { if e.Some? && now < e.value.expires then e else None }

  /** The tokens found in a key; a missing one is a full bucket. */
  function Found(e: Option<Entry>, p: Policy, now: real): real {
    var (tokens, ts) := if e.Some? then (e.value.tokens, e.value.ts) else (p.capacity as real, now);
    Min(p.capacity as real, tokens + Gain(Rate(p), Max(0.0, now - ts)))
  }

  function Refilled(e: Option<Entry>, p: Policy, now: real): real { Found(Live(e, now), p, now) }

  function Spend(tokens: real, p: Policy, now: real): Entry {
    Entry(if tokens >= 1.0 then tokens - 1.0 else tokens, now, now + Ttl(p) as real)
  }

  predicate Allows(e: Option<Entry>, p: Policy, now: real) { Refilled(e, p, now) >= 1.0 }

  function AfterRequest(e: Option<Entry>, p: Policy, now: real): Entry { Spend(Refilled(e, p, now), p, now) }

  function RetryAfter(e: Option<Entry>, p: Policy, now: real): int {
    if Allows(e, p, now) then 0
    else if Rate(p) > 0.0 then Ceil((1.0 - Refilled(e, p, now)) / Rate(p))
    else 1
  }

  // ---------------------------------------------------------------------------------------------
  // The gateway
  // ---------------------------------------------------------------------------------------------

  function Classify(path: string, user: Option<string>, ip: string, general: Policy, auth: Policy): (Policy, string) {
    (if "/v1/auth" <= path then auth else general,
     if user.Some? then "rl:user:" + user.value else "rl:ip:" + ip)
  }

  /**
   * A client has one key whatever it asks for, so both buckets share it; different clients have
   * different keys; and the stricter bucket applies exactly to the auth endpoints.
   */
  lemma ClientsHaveOneKey(path: string, path': string, user: Option<string>, user': Option<string>, ip: string,
                          ip': string,
                          general: Policy, auth: Policy)
    ensures Classify(path, user, ip, general, auth).1 == Classify(path', user', ip', general, auth).1
      <==> user == user' && (user.None? ==> ip == ip')
    ensures general != auth ==> (Classify(path, user, ip, general, auth).0 == auth <==> "/v1/auth" <= path)
  {
    var (_, k) := Classify(path, user, ip, general, auth);
    var (_, k') := Classify(path', user', ip', general, auth);
    assert k[3] == (if user.Some? then 'u' else 'i') && k'[3] == (if user'.Some? then 'u' else 'i');
    if k == k' && user.Some? {
      assert k[8..] == user.value && k'[8..] == user'.value;
    } else if k == k' {
      assert k[6..] == ip && k'[6..] == ip';
    }
  }

  /** The keys in Redis and the script's effect on them. */
  class Limiter {
    var keys: map<string, Entry>
    const general: Policy
    const auth: Policy

    constructor (general: Policy, auth: Policy)
      ensures this.general == general && this.auth == auth && keys == map[]
    {
      this.general, this.auth, keys := general, auth, map[];
    }

    function Lookup(key: string): Option<Entry> reads this { if key in keys then Some(keys[key]) else None }

    /** The script, run atomically. */
    method TokenBucket(key: string, p: Policy, now: real) returns (r: Reply)
      modifies this
      ensures keys == old(keys)[key := AfterRequest(old(Lookup(key)), p, now)]
      ensures r.allowed == Allows(old(Lookup(key)), p, now)
      ensures r.retry == RetryAfter(old(Lookup(key)), p, now)
      ensures r.remaining == AfterRequest(old(Lookup(key)), p, now).tokens.Floor
    {
      hide Gain, Rate, Ttl;
      var tokens, ts := p.capacity as real, now;
      if key in keys && now < keys[key].expires {
        tokens, ts := keys[key].tokens, keys[key].ts;
      }
      var delta := Max(0.0, now - ts);
      tokens := Min(p.capacity as real, tokens + Gain(Rate(p), delta));
      var allowed, retry := false, 0;
      if tokens >= 1.0 {
        allowed := true;
        tokens := tokens - 1.0;
      } else if Rate(p) > 0.0 {
        retry := Ceil((1.0 - tokens) / Rate(p));
      } else {
        retry := 1;
      }
      keys := keys[key := Entry(tokens, now, now + Ttl(p) as real)];
      r := Reply(allowed, tokens.Floor, retry);
    }

    /** None lets the request pass; Some is a 429 with that Retry-After. An unavailable Redis lets everything pass. */
    method Middleware(path: string, user: Option<string>, ip: string, now: real, available: bool)
      returns (denied: Option<int>)
      modifies this
      ensures var (p, key) := Classify(path, user, ip, general, auth);
        && (denied.Some? <==> available && !Allows(old(Lookup(key)), p, now))
        && (denied.Some? ==> denied.value == RetryAfter(old(Lookup(key)), p, now) >= 1)
        && keys == if available then old(keys)[key := AfterRequest(old(Lookup(key)), p, now)] else old(keys)
    {
      if !available {
        return None;
      }
      var (p, key) := Classify(path, user, ip, general, auth);
      ghost var before := Lookup(key);
      var reply := TokenBucket(key, p, now);
      if reply.allowed {
        return None;
      }
      // The caller's clamp to one second has nothing to do.
      RetryIsPositive(before, p, now);
      assert reply.retry >= 1;
      denied := Some(if reply.retry < 1 then 1 else reply.retry);
    }
  }

  lemma DivPositive(a: real, b: real)
    requires a > 0.0 && b > 0.0
    ensures a / b > 0.0
  {
  }

  lemma RetryIsPositive(e: Option<Entry>, p: Policy, now: real)
    requires !Allows(e, p, now)
    ensures RetryAfter(e, p, now) >= 1
  {
    if Rate(p) > 0.0 {
      DivPositive(1.0 - Refilled(e, p, now), Rate(p));
    }
  }

  // ---------------------------------------------------------------------------------------------
  // Traces of requests on one key
  // ---------------------------------------------------------------------------------------------

  datatype Request = Request(at: real, policy: Policy)

  /** The clock does not go backwards. */
  ghost predicate Ordered(tr: seq<Request>) { forall i, j :: 0 <= i < j < |tr| ==> tr[i].at <= tr[j].at }

  /** What a request sees of a key: the bucket that forgets idle keys, or one that never does. */
  function Seen(e: Option<Entry>, now: real, forgets: bool): Option<Entry> { if forgets then Live(e, now) else e }

  /** The key after the whole trace. */
  function After(tr: seq<Request>, forgets: bool): Option<Entry> {
    if tr == [] then None
    else
      var q := tr[|tr| - 1];
      Some(Spend(Found(Seen(After(tr[..|tr| - 1], forgets), q.at, forgets), q.policy, q.at), q.policy, q.at))
  }

  /** The tokens request k finds. */
  function TokensAt(tr: seq<Request>, k: nat, forgets: bool): real
    requires k < |tr|
  {
    Found(Seen(After(tr[..k], forgets), tr[k].at, forgets), tr[k].policy, tr[k].at)
  }

  predicate Admitted(tr: seq<Request>, k: nat, forgets: bool)
    requires k < |tr|
  {
    TokensAt(tr, k, forgets) >= 1.0
  }

  /** How many of the requests i … j-1 are admitted. */
  function Count(tr: seq<Request>, i: nat, j: nat): nat
    requires i <= j <= |tr|
  {
    if i == j then 0 else Count(tr, i, j - 1) + if Admitted(tr, j - 1, true) then 1 else 0
  }

  lemma AfterPrefix(tr: seq<Request>, k: nat, forgets: bool)
    requires k < |tr|
    ensures After(tr[..k + 1], forgets) == Some(Spend(TokensAt(tr, k, forgets), tr[k].policy, tr[k].at))
  {
    assert tr[..k + 1][..k] == tr[..k];
  }

  lemma GainMonotone(a: real, b: real, x: real, y: real)
    requires 0.0 <= a <= b && 0.0 <= x <= y
    ensures 0.0 <= Gain(a, x) <= Gain(b, y)
  {
    assert Gain(b, y) - Gain(a, x) == (y - x) * b + x * (b - a);
  }

  lemma GainAdds(r: real, x: real, y: real)
    ensures Gain(r, x) + Gain(r, y) == Gain(r, x + y)
    ensures Gain(r, 0.0) == 0.0
  {
  }

  predicate Sane(p: Policy) { p.capacity >= 0 && Rate(p) >= 0.0 }

  /** A request finds no more than the capacity and no less than nothing. */
  lemma FoundInRange(e: Option<Entry>, p: Policy, now: real)
    requires Sane(p) && (e.Some? ==> e.value.tokens >= 0.0)
    ensures 0.0 <= Found(e, p, now) <= p.capacity as real
  {
    var elapsed := if e.Some? then Max(0.0, now - e.value.ts) else 0.0;
    GainMonotone(Rate(p), Rate(p), elapsed, elapsed);
    hide Gain, Rate;
  }

  lemma {:induction false} TokensStayPositive(tr: seq<Request>, k: nat, forgets: bool)
    requires k <= |tr| && forall i :: 0 <= i < |tr| ==> Sane(tr[i].policy)
    ensures k > 0 <==> After(tr[..k], forgets).Some?
    ensures k > 0 ==> After(tr[..k], forgets).value.tokens >= 0.0
  {
    if k > 0 {
      TokensStayPositive(tr, k - 1, forgets);
      AfterPrefix(tr, k - 1, forgets);
      FoundInRange(Seen(After(tr[..k - 1], forgets), tr[k - 1].at, forgets), tr[k - 1].policy, tr[k - 1].at);
      hide Found, Gain, Rate, Ttl;
    }
  }

  // ---------------------------------------------------------------------------------------------
  // The window bound
  // ---------------------------------------------------------------------------------------------

  /** Policies with at most this capacity and this rate. */
  ghost predicate Within(p: Policy, c: real, r: real) { Sane(p) && p.capacity as real <= c && Rate(p) <= r }

  /** In the time after which a key under this policy expires, the largest bucket fills up anyway. */
  ghost predicate ExpiresFull(p: Policy, c: real, r: real) { Gain(r, Ttl(p) as real) >= c }

  /** What a request finds was left by the one before, or has flowed in since at the largest rate. */
  lemma FoundWasLeftOrFlowedIn(e: Entry, q: Policy, p: Policy, now: real, c: real, r: real)
    requires Within(p, c, r) && ExpiresFull(q, c, r) && e.tokens >= 0.0 && e.expires == e.ts + Ttl(q) as real
    requires r >= 0.0 && Ttl(q) >= 0
    ensures Refilled(Some(e), p, now) <= e.tokens + Gain(r, Max(0.0, now - e.ts))
  {
    GainMonotone(Rate(p), r, Max(0.0, now - e.ts), Max(0.0, now - e.ts));
    GainMonotone(0.0, Rate(p), 0.0, 0.0);
    if now >= e.expires {
      GainMonotone(r, r, Ttl(q) as real, now - e.ts);
    }
    GainAdds(Rate(p), 0.0, 0.0);
    hide Gain, Rate, Ttl;
  }

  lemma TtlIsPositive(p: Policy)
    requires Sane(p)
    ensures Ttl(p) >= 1
  {
    var m := Max(Rate(p), 0.0001);
    NonNegativeQuotient(p.capacity as real, m);
    hide Rate;
  }

  lemma NonNegativeQuotient(a: real, b: real)
    requires a >= 0.0 && b > 0.0
    ensures a / b >= 0.0
  {
  }

  ghost predicate AllWithin(tr: seq<Request>, c: real, r: real) {
    forall k :: 0 <= k < |tr| ==> Within(tr[k].policy, c, r) && ExpiresFull(tr[k].policy, c, r)
  }

  lemma AllSane(tr: seq<Request>, c: real, r: real)
    requires AllWithin(tr, c, r)
    ensures forall k :: 0 <= k < |tr| ==> Sane(tr[k].policy)
  {
  }

  /** The first request of a window. */
  lemma FirstInWindow(tr: seq<Request>, i: nat, c: real, r: real)
    requires i < |tr| && AllWithin(tr, c, r)
    ensures Count(tr, i, i + 1) as real + After(tr[..i + 1], true).value.tokens <= c
  {
    AllSane(tr, c, r);
    TokensStayPositive(tr, i, true);
    AfterPrefix(tr, i, true);
    FoundInRange(Live(After(tr[..i], true), tr[i].at), tr[i].policy, tr[i].at);
    hide Found, Gain, Rate, Ttl, Live, After;
  }

  /** What request k finds, and so what it leaves and whether it is admitted. */
  lemma NextInWindow(tr: seq<Request>, k: nat, c: real, r: real)
    requires 0 < k < |tr| && AllWithin(tr, c, r)
    ensures After(tr[..k], true).Some?
    ensures TokensAt(tr, k, true) <= After(tr[..k], true).value.tokens + Gain(r, Max(0.0, tr[k].at - tr[k - 1].at))
  {
    AllSane(tr, c, r);
    TokensStayPositive(tr, k, true);
    AfterPrefix(tr, k - 1, true);
    TtlIsPositive(tr[k - 1].policy);
    assert Within(tr[k].policy, c, r);
    hide Found, Gain, Rate, Ttl, Live, ExpiresFull;
    FoundWasLeftOrFlowedIn(After(tr[..k], true).value, tr[k - 1].policy, tr[k].policy, tr[k].at, c, r);
  }

  /** How far the clock has gone backwards, in all, between the requests i … j-1. */
  function Drift(tr: seq<Request>, i: nat, j: nat): (d: real)
    requires i < j <= |tr|
    ensures d >= 0.0
  {
    if j == i + 1 then 0.0 else Drift(tr, i, j - 1) + Max(0.0, tr[j - 2].at - tr[j - 1].at)
  }

  /** How far it has gone forwards. */
  function Advance(tr: seq<Request>, i: nat, j: nat): real
    requires i < j <= |tr|
  {
    tr[j - 1].at - tr[i].at + Drift(tr, i, j)
  }

  lemma {:induction false} AdmittedPlusLeft(tr: seq<Request>, i: nat, j: nat, c: real, r: real)
    requires i < j <= |tr| && AllWithin(tr, c, r)
    ensures After(tr[..j], true).Some?
    ensures Count(tr, i, j) as real + After(tr[..j], true).value.tokens <= c + Gain(r, Advance(tr, i, j))
    decreases j
  {
    hide AllWithin, Gain, Ttl, After, TokensAt;
    GainAdds(r, 0.0, 0.0);
    AfterPrefix(tr, j - 1, true);
    if j == i + 1 {
      FirstInWindow(tr, i, c, r);
    } else {
      var more := Max(0.0, tr[j - 1].at - tr[j - 2].at);
      AdmittedPlusLeft(tr, i, j - 1, c, r);
      NextInWindow(tr, j - 1, c, r);
      GainAdds(r, Advance(tr, i, j - 1), more);
      assert Advance(tr, i, j) == Advance(tr, i, j - 1) + more;
      OneMoreRequest(Count(tr, i, j - 1), After(tr[..j - 1], true).value.tokens, TokensAt(tr, j - 1, true),
        Count(tr, i, j), After(tr[..j], true).value.tokens, c + Gain(r, Advance(tr, i, j - 1)), Gain(r, more));
    }
  }

  lemma OneMoreRequest(count: nat, left: real, found: real, count': nat, left': real, bound: real, gain: real)
    requires count as real + left <= bound && found <= left + gain
    requires count' == count + (if found >= 1.0 then 1 else 0) && left' == (if found >= 1.0 then found - 1.0 else found)
    ensures count' as real + left' <= bound + gain
  {
  }

  ghost predicate Bounded(tr: seq<Request>, c: real, r: real) {
    forall i, j :: 0 <= i < j <= |tr| ==> Count(tr, i, j) as real <= c + Gain(r, tr[j - 1].at - tr[i].at)
  }

  /**
   * The window bound on any clock: the requests admitted on one key in any window number at most the largest
   * capacity plus the largest rate times the window's length and whatever the clock went back in between.
   */
  lemma WindowBoundWithDrift(tr: seq<Request>, i: nat, j: nat, c: real, r: real)
    requires AllWithin(tr, c, r) && i < j <= |tr|
    ensures Count(tr, i, j) as real <= c + Gain(r, tr[j - 1].at - tr[i].at + Drift(tr, i, j))
  {
    AllSane(tr, c, r);
    AdmittedPlusLeft(tr, i, j, c, r);
    TokensStayPositive(tr, j, true);
  }

  lemma {:induction false} OrderedHasNoDrift(tr: seq<Request>, i: nat, j: nat)
    requires Ordered(tr) && i < j <= |tr|
    ensures Drift(tr, i, j) == 0.0
  {
    if i + 1 < j {
      OrderedHasNoDrift(tr, i, j - 1);
    }
  }

  /** With a clock that does not go backwards only the window's length counts. */
  lemma WindowBound(tr: seq<Request>, c: real, r: real)
    requires Ordered(tr) && AllWithin(tr, c, r)
    ensures Bounded(tr, c, r)
  {
    hide AllWithin, Ordered, Count, Gain;
    forall i: nat, j: nat | i < j <= |tr|
      ensures Count(tr, i, j) as real <= c + Gain(r, tr[j - 1].at - tr[i].at)
    {
      WindowBoundWithDrift(tr, i, j, c, r);
      OrderedHasNoDrift(tr, i, j);
    }
  }

  // ---------------------------------------------------------------------------------------------
  // The condition of the bound is exact
  // ---------------------------------------------------------------------------------------------

  function Burst(p: Policy, n: nat, at: real): seq<Request> { seq(n, _ => Request(at, p)) }

  lemma {:induction false} CountPrefix(a: seq<Request>, b: seq<Request>, i: nat, j: nat)
    requires i <= j <= |a|
    ensures Count(a + b, i, j) == Count(a, i, j)
  {
    if i < j {
      CountPrefix(a, b, i, j - 1);
      assert (a + b)[..j - 1] == a[..j - 1] && (a + b)[j - 1] == a[j - 1];
    }
  }

  lemma {:induction false} CountSplits(tr: seq<Request>, i: nat, j: nat, k: nat)
    requires i <= j <= k <= |tr|
    ensures Count(tr, i, k) == Count(tr, i, j) + Count(tr, j, k)
    decreases k
  {
    if j < k {
      CountSplits(tr, i, j, k - 1);
    }
  }

  /** At the same instant the next request finds what the last one left. */
  lemma SameInstant(x: real, p: Policy, at: real, forgets: bool)
    requires Sane(p) && 1.0 <= x <= p.capacity as real
    ensures Found(Seen(Some(Spend(x, p, at)), at, forgets), p, at) == x - 1.0
  {
    TtlIsPositive(p);
    GainAdds(Rate(p), 0.0, 0.0);
    hide Gain, Rate, Ttl;
  }

  lemma AfterSnoc(tr: seq<Request>, q: Request, forgets: bool)
    ensures After(tr + [q], forgets)
      == Some(Spend(Found(Seen(After(tr, forgets), q.at, forgets), q.policy, q.at), q.policy, q.at))
  {
    assert (tr + [q])[..|tr|] == tr;
  }

  lemma BurstSnoc(tr: seq<Request>, p: Policy, n: nat, at: real)
    requires n > 0
    ensures tr + Burst(p, n, at) == tr + Burst(p, n - 1, at) + [Request(at, p)]
  {
  }

  /** No time passes within a burst, so each request of it takes one of the tokens that were there. */
  lemma {:induction false} BurstDrains(tr: seq<Request>, p: Policy, n: nat, at: real, forgets: bool, tokens: real)
    requires Sane(p) && tokens <= p.capacity as real && n as real <= tokens
    requires Found(Seen(After(tr, forgets), at, forgets), p, at) == tokens
    ensures Found(Seen(After(tr + Burst(p, n, at), forgets), at, forgets), p, at) == tokens - n as real
    decreases n
  {
    if n == 0 {
      assert tr + Burst(p, n, at) == tr;
    } else {
      hide Found, Seen, Spend, Rate, Burst, After;
      BurstDrains(tr, p, n - 1, at, forgets, tokens);
      BurstSnoc(tr, p, n, at);
      AfterSnoc(tr + Burst(p, n - 1, at), Request(at, p), forgets);
      SameInstant(tokens - (n - 1) as real, p, at, forgets);
    }
  }

  /** Request k of a burst is admitted exactly when there were more than k tokens to begin with. */
  lemma BurstAdmits(tr: seq<Request>, p: Policy, n: nat, at: real, forgets: bool, tokens: real, k: nat)
    requires Sane(p) && tokens <= p.capacity as real && k < n && k as real <= tokens
    requires Found(Seen(After(tr, forgets), at, forgets), p, at) == tokens
    ensures Admitted(tr + Burst(p, n, at), |tr| + k, forgets) <==> k as real + 1.0 <= tokens
  {
    var all := tr + Burst(p, n, at);
    assert all[..|tr| + k] == tr + Burst(p, k, at);
    BurstDrains(tr, p, k, at, forgets, tokens);
    hide Found, Seen, After, Rate;
  }

  lemma {:induction false} BurstCounts(tr: seq<Request>, p: Policy, n: nat, m: nat, at: real)
    requires Sane(p) && m <= n <= p.capacity
    requires Refilled(After(tr, true), p, at) == p.capacity as real
    ensures Count(tr + Burst(p, n, at), |tr|, |tr| + m) == m
    decreases m
  {
    if m > 0 {
      BurstLength(p, n, at);
      hide After, Found, Live, Rate, Burst, Admitted;
      BurstCounts(tr, p, n, m - 1, at);
      BurstAdmits(tr, p, n, at, true, p.capacity as real, m - 1);
    }
  }

  ghost predicate Over(tr: seq<Request>, policies: set<Policy>) {
    forall i :: 0 <= i < |tr| ==> tr[i].policy in policies
  }

  /** c is the largest capacity and r bounds the rates. */
  ghost predicate Bounds(policies: set<Policy>, c: int, r: real) {
    && c >= 1 && r >= 0.0
    && (forall p :: p in policies ==> Within(p, c as real, r))
    && (exists p :: p in policies && p.capacity == c)
  }

  /** All of a burst that empties a fresh bucket is admitted. */
  lemma FreshBurst(g: Policy, at: real, rest: seq<Request>)
    requires Sane(g)
    ensures Count(Burst(g, g.capacity, at) + rest, 0, g.capacity) == g.capacity
  {
    FullWhenMissing(g, at);
    assert [] + Burst(g, g.capacity, at) == Burst(g, g.capacity, at);
    BurstCounts([], g, g.capacity, g.capacity, at);
    CountPrefix(Burst(g, g.capacity, at), rest, 0, g.capacity);
  }

  /** So is one that finds the bucket expired. */
  lemma BurstAfterExpiry(tr: seq<Request>, g: Policy)
    requires Sane(g) && tr != []
    ensures var q := tr[|tr| - 1];
      var all := tr + Burst(g, g.capacity, q.at + Ttl(q.policy) as real);
      Count(all, |tr|, |all|) == g.capacity
  {
    hide After, Ttl, Found, Rate, Live, Burst, Count;
    var q := tr[|tr| - 1];
    var at := q.at + Ttl(q.policy) as real;
    GoneAtExpiry(tr);
    FullWhenMissing(g, at);
    assert Refilled(After(tr, true), g, at) == g.capacity as real;
    BurstCounts(tr, g, g.capacity, g.capacity, at);
    BurstLength(g, g.capacity, at);
  }

  lemma BurstLength(p: Policy, n: nat, at: real)
    ensures |Burst(p, n, at)| == n
  {
  }

  lemma GoneAtExpiry(tr: seq<Request>)
    requires tr != []
    ensures Live(After(tr, true), tr[|tr| - 1].at + Ttl(tr[|tr| - 1].policy) as real).None?
  {
    hide Found, Ttl, Rate;
  }

  /** A drained bucket that a request under p lets expire early can be drained once more. */
  lemma EarlyExpiryBreaksBound(g: Policy, p: Policy, c: int, r: real) returns (tr: seq<Request>)
    requires Within(g, c as real, r) && Within(p, c as real, r) && g.capacity == c >= 1 && !ExpiresFull(p, c as real, r)
    ensures Over(tr, {g, p}) && Ordered(tr) && !Bounded(tr, c as real, r)
  {
    hide Count, Ttl, Rate;
    var first := Burst(g, c, 0.0) + [Request(0.0, p)];
    var second := Burst(g, c, Ttl(p) as real);
    tr := first + second;
    TtlIsPositive(p);
    assert tr == Burst(g, c, 0.0) + ([Request(0.0, p)] + second);
    FreshBurst(g, 0.0, [Request(0.0, p)] + second);
    BurstAfterExpiry(first, g);
    CountSplits(tr, 0, c, c + 1);
    CountSplits(tr, 0, c + 1, |tr|);
    assert Count(tr, 0, |tr|) >= c + c;
    assert tr[|tr| - 1].at - tr[0].at == Ttl(p) as real;
  }

  lemma FullWhenMissing(p: Policy, now: real)
    requires Sane(p)
    ensures Found(None, p, now) == p.capacity as real
  {
    GainAdds(Rate(p), 0.0, 0.0);
  }

  /** The bound holds for all traces over some policies exactly when none of them lets a key expire too early. */
  lemma WindowBoundIsExact(policies: set<Policy>, c: int, r: real)
    requires Bounds(policies, c, r)
    ensures (forall p :: p in policies ==> ExpiresFull(p, c as real, r))
      <==> (forall tr :: Over(tr, policies) && Ordered(tr) ==> Bounded(tr, c as real, r))
  {
    hide ExpiresFull, Bounded, Ordered, Within;
    if forall p :: p in policies ==> ExpiresFull(p, c as real, r) {
      forall tr | Over(tr, policies) && Ordered(tr) ensures Bounded(tr, c as real, r) {
        WindowBound(tr, c as real, r);
      }
    } else {
      var p :| p in policies && !ExpiresFull(p, c as real, r);
      var g :| g in policies && g.capacity == c;
      var tr := EarlyExpiryBreaksBound(g, p, c, r);
      assert forall i :: 0 <= i < |tr| ==> tr[i].policy in {g, p};
      assert Over(tr, policies);
    }
  }

  /** Policies with one window, as the gateway configures its two, meet the condition unless they refill too slowly. */
  lemma OneWindowIsEnough(p: Policy, c: int, window: real)
    requires window > 0.0 && p.window == window && 1 <= p.capacity <= c && Rate(p) >= 0.0001
    ensures ExpiresFull(p, c as real, c as real / window)
  {
    QuotientOfQuotient(p.capacity as real, window);
    assert Max(Rate(p), 0.0001) == Rate(p);
    assert Ttl(p) as real >= window;
    TimesQuotient(c as real, window, Ttl(p) as real);
  }

  lemma QuotientOfQuotient(a: real, w: real)
    requires a > 0.0 && w > 0.0
    ensures a / (a / w) == w
  {
    assert (a / w) * w == a;
    DivPositive(a, w);
  }

  lemma TimesQuotient(c: real, w: real, t: real)
    requires c >= 0.0 && w > 0.0 && t >= w
    ensures Gain(c / w, t) >= c
  {
    NonNegativeQuotient(c, w);
    GainMonotone(c / w, c / w, w, t);
    assert Gain(c / w, w) == c;
  }

  // ---------------------------------------------------------------------------------------------
  // What a policy means
  // ---------------------------------------------------------------------------------------------

  /** An empty bucket is full after exactly its window; without a window it fills up in one second. */
  lemma FullAfterTheWindow(p: Policy, since: real, expires: real, now: real)
    requires p.capacity >= 1 && now >= since
    ensures Found(Some(Entry(0.0, since, expires)), p, now) == p.capacity as real <==>
      now - since >= if p.window > 0.0 then p.window else 1.0
  {
    var c := p.capacity as real;
    if p.window > 0.0 {
      var r := c / p.window;
      assert r * p.window == c;
      DivPositive(c, p.window);
      Outgrows(now - since, p.window, r);
    } else {
      Outgrows(now - since, 1.0, c);
    }
  }

  lemma Outgrows(t: real, window: real, r: real)
    requires r > 0.0
    ensures t * r >= window * r <==> t >= window
  {
    assert t >= window ==> (t - window) * r >= 0.0;
    assert t < window ==> (window - t) * r > 0.0;
  }

  /** An untouched key outlives the refill of its bucket by between one second and two. */
  lemma KeysOutliveRefills(p: Policy)
    requires p.capacity >= 1 && p.window > 0.0 && Rate(p) >= 0.0001
    ensures p.window + 1.0 <= Ttl(p) as real < p.window + 2.0
  {
    QuotientOfQuotient(p.capacity as real, p.window);
    assert Max(Rate(p), 0.0001) == Rate(p);
  }

  /** A request that passes need not wait; a denied one waits a second where nothing ever flows in. */
  lemma NoWaitOrOneSecond(e: Option<Entry>, p: Policy, now: real)
    ensures Allows(e, p, now) ==> RetryAfter(e, p, now) == 0
    ensures !Allows(e, p, now) && p.capacity <= 0 ==> RetryAfter(e, p, now) == 1
  {
    if p.capacity <= 0 && p.window > 0.0 {
      NotPositive(p.capacity as real, p.window);
    }
  }

  lemma NotPositive(a: real, b: real)
    requires a <= 0.0 && b > 0.0
    ensures a / b <= 0.0
  {
    var q := a / b;
    assert q * b == a;
    assert q > 0.0 ==> q * b > 0.0;
  }

  /** A bucket that holds a token gives exactly one away. */
  lemma OneTokenEach(e: Option<Entry>, p: Policy, now: real)
    ensures var found, left := Refilled(e, p, now), AfterRequest(e, p, now).tokens;
      left == if Allows(e, p, now) then found - 1.0 else found
    ensures Allows(e, p, now) <==> Refilled(e, p, now) >= 1.0
    ensures AfterRequest(e, p, now).ts == now && AfterRequest(e, p, now).expires == now + Ttl(p) as real
  {
    hide Found, Live, Ttl;
  }
}
