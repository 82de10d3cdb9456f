/**
 * The analytics rollups: what one event adds to them, the sums they hold after any sequence of
 * events, and the ingestion that updates them in place inside one transaction.
 */
module Rollups {
  import opened Basics

  /** An event as it is counted: its id, the UTC day it is consumed on, and what the payload says. */
  datatype Counted = Counted(eventId: string, day: int, eventType: string, amount: int, currency: string)

  datatype Gmv = Gmv(gross: int, fee: int, net: int, contracts: nat)

  datatype Funnel = Funnel(projects: nat, proposals: nat, contracts: nat)

  datatype Rollups = Rollups(counts: map<(int, string), nat>, gmv: map<(int, string), Gmv>, funnel: map<int, Funnel>)

  const NO_ROLLUPS := Rollups(map[], map[], map[])
  const FEE_BPS := 1000

  /** Days since the epoch; instants before it belong to the day that has begun. */
  function DayOf(seconds: int): int { seconds / 86400 }

  function Fee(amount: int): int { TruncDiv(amount * FEE_BPS, 10000) }

  function GmvIn(m: map<(int, string), Gmv>, key: (int, string)): Gmv { if key in m then m[key] else Gmv(0, 0, 0, 0) }

  function FunnelIn(m: map<int, Funnel>, day: int): Funnel { if day in m then m[day] else Funnel(0, 0, 0) }

  function CountIn(m: map<(int, string), nat>, key: (int, string)): nat { if key in m then m[key] else 0 }

  // The upserts: insert the row, or add to the row that is there.

  function PlusCount(m: map<(int, string), nat>, key: (int, string)): map<(int, string), nat> {
    m[key := CountIn(m, key) + 1]
  }

  function PlusGmv(m: map<(int, string), Gmv>, key: (int, string), d: Gmv): map<(int, string), Gmv> {
    var g := GmvIn(m, key);
    m[key := Gmv(g.gross + d.gross, g.fee + d.fee, g.net + d.net, g.contracts + d.contracts)]
  }

  function PlusFunnel(m: map<int, Funnel>, day: int, d: Funnel): map<int, Funnel> {
    var f := FunnelIn(m, day);
    m[day := Funnel(f.projects + d.projects, f.proposals + d.proposals, f.contracts + d.contracts)]
  }

  function AddMoney(m: map<(int, string), Gmv>, c: Counted): map<(int, string), Gmv> {
    if c.eventType == "payment.captured" then
      PlusGmv(m, (c.day, c.currency), Gmv(c.amount, Fee(c.amount), c.amount - Fee(c.amount), 0))
    else if c.eventType == "contract.activated" then PlusGmv(m, (c.day, c.currency), Gmv(0, 0, 0, 1))
    else m
  }

  function AddStage(m: map<int, Funnel>, c: Counted): map<int, Funnel> {
    if c.eventType == "project.published" then PlusFunnel(m, c.day, Funnel(1, 0, 0))
    else if c.eventType == "proposal.submitted" then PlusFunnel(m, c.day, Funnel(0, 1, 0))
    else if c.eventType == "contract.activated" then PlusFunnel(m, c.day, Funnel(0, 0, 1))
    else m
  }

  /** Everything one event adds. */
  function Add(r: Rollups, c: Counted): Rollups {
    Rollups(PlusCount(r.counts, (c.day, c.eventType)), AddMoney(r.gmv, c), AddStage(r.funnel, c))
  }

  function Fold(counted: seq<Counted>): Rollups {
    if counted == [] then NO_ROLLUPS else Add(Fold(counted[..|counted| - 1]), counted[|counted| - 1])
  }

  // ---------------------------------------------------------------------------------------------
  // What the tables hold: sums over the counted events
  // ---------------------------------------------------------------------------------------------

  /** The counted events of one day and type. */
  function OfType(counted: seq<Counted>, day: int, eventType: string): seq<Counted> {
    if counted == [] then []
    else
      var last := counted[|counted| - 1];
      OfType(counted[..|counted| - 1], day, eventType)
        + if last.day == day && last.eventType == eventType then [last] else []
  }

  function InCurrency(counted: seq<Counted>, currency: string): seq<Counted> {
    if counted == [] then []
    else
      var last := counted[|counted| - 1];
      InCurrency(counted[..|counted| - 1], currency) + if last.currency == currency then [last] else []
  }

  function Gross(counted: seq<Counted>): int {
    if counted == [] then 0 else Gross(counted[..|counted| - 1]) + counted[|counted| - 1].amount
  }

  function Fees(counted: seq<Counted>): int {
    if counted == [] then 0 else Fees(counted[..|counted| - 1]) + Fee(counted[|counted| - 1].amount)
  }

  /** The payments of a bucket. */
  function Payments(counted: seq<Counted>, day: int, currency: string): seq<Counted> {
    InCurrency(OfType(counted, day, "payment.captured"), currency)
  }

  function Activations(counted: seq<Counted>, day: int, currency: string): seq<Counted> {
    InCurrency(OfType(counted, day, "contract.activated"), currency)
  }

  lemma InCurrencySnoc(counted: seq<Counted>, c: Counted, currency: string)
    ensures InCurrency(counted + [c], currency)
         == InCurrency(counted, currency) + if c.currency == currency then [c] else []
  {
    assert (counted + [c])[..|counted|] == counted;
  }

  /** event_counts holds, for each day and type, the number of counted events of that day and type. */
  lemma {:induction false} CountsAreNumbersOfEvents(counted: seq<Counted>, day: int, eventType: string)
    ensures CountIn(Fold(counted).counts, (day, eventType)) == |OfType(counted, day, eventType)|
  {
    if counted != [] {
      CountsAreNumbersOfEvents(counted[..|counted| - 1], day, eventType);
    }
  }

  lemma GrossSnoc(counted: seq<Counted>, c: Counted)
    ensures Gross(counted + [c]) == Gross(counted) + c.amount
    ensures Fees(counted + [c]) == Fees(counted) + Fee(c.amount)
  {
    assert (counted + [c])[..|counted|] == counted;
  }

  lemma BucketSnoc(init: seq<Counted>, c: Counted, day: int, eventType: string, currency: string)
    ensures InCurrency(OfType(init + [c], day, eventType), currency)
      == InCurrency(OfType(init, day, eventType), currency)
       + if c.day == day && c.eventType == eventType && c.currency == currency then [c] else []
  {
    assert (init + [c])[..|init|] == init;
    InCurrencySnoc(OfType(init, day, eventType), c, currency);
    hide InCurrency;
    var here := OfType(init, day, eventType);
    assert here + [] == here && InCurrency(here, currency) + [] == InCurrency(here, currency);
  }

  lemma MoneySnoc(m: map<(int, string), Gmv>, init: seq<Counted>, c: Counted, day: int, currency: string)
    requires var g, p := GmvIn(m, (day, currency)), Payments(init, day, currency);
      && g.gross == Gross(p) && g.fee == Fees(p) && g.net == Gross(p) - Fees(p)
      && g.contracts == |Activations(init, day, currency)|
    ensures var g, p := GmvIn(AddMoney(m, c), (day, currency)), Payments(init + [c], day, currency);
      && g.gross == Gross(p) && g.fee == Fees(p) && g.net == Gross(p) - Fees(p)
      && g.contracts == |Activations(init + [c], day, currency)|
  {
    MoneyAt(m, c, day, currency);
    hide AddMoney, GmvIn, Fee, Gross, Fees, InCurrency, OfType;
    BucketSnoc(init, c, day, "payment.captured", currency);
    BucketSnoc(init, c, day, "contract.activated", currency);
    GrossSnoc(Payments(init, day, currency), c);
    assert Payments(init, day, currency) + [] == Payments(init, day, currency);
  }

  /** What an event adds to the money of one bucket. */
  lemma MoneyAt(m: map<(int, string), Gmv>, c: Counted, day: int, currency: string)
    ensures var g, g' := GmvIn(m, (day, currency)), GmvIn(AddMoney(m, c), (day, currency));
      var here := c.day == day && c.currency == currency;
      if c.eventType == "payment.captured" && here
      then g' == Gmv(g.gross + c.amount, g.fee + Fee(c.amount), g.net + c.amount - Fee(c.amount), g.contracts)
      else if c.eventType == "contract.activated" && here then g' == g.(contracts := g.contracts + 1)
      else g' == g
  {
    hide Fee;
  }

  /** gmv_daily holds, for each day and currency, the payments' sums and the number of activations. */
  lemma {:induction false} GmvIsTheSumOfPayments(counted: seq<Counted>, day: int, currency: string)
    ensures var g, p := GmvIn(Fold(counted).gmv, (day, currency)), Payments(counted, day, currency);
      && g.gross == Gross(p) && g.fee == Fees(p) && g.net == Gross(p) - Fees(p)
      && g.contracts == |Activations(counted, day, currency)|
  {
    if counted != [] {
      var init, c := counted[..|counted| - 1], counted[|counted| - 1];
      GmvIsTheSumOfPayments(init, day, currency);
      MoneySnoc(Fold(init).gmv, init, c, day, currency);
      assert init + [c] == counted;
      hide AddMoney, Payments, Activations;
    }
  }

  /** funnel_daily holds the number of events of each lifecycle stage. */
  lemma {:induction false} FunnelCountsTheStages(counted: seq<Counted>, day: int)
    ensures FunnelIn(Fold(counted).funnel, day) == Funnel(|OfType(counted, day, "project.published")|,
      |OfType(counted, day, "proposal.submitted")|, |OfType(counted, day, "contract.activated")|)
  {
    if counted != [] {
      var init, c := counted[..|counted| - 1], counted[|counted| - 1];
      FunnelCountsTheStages(init, day);
    }
  }

  /** A fee differs from the exact tenth by less than a cent, whatever the sign of the amount. */
  lemma FeeIsATenth(amount: int)
    ensures amount - 10 < 10 * Fee(amount) < amount + 10
    ensures amount >= 0 ==> 10 * Fee(amount) <= amount
    ensures amount <= 0 ==> 10 * Fee(amount) >= amount
  {
  }

  lemma {:induction false} FeesAreATenth(payments: seq<Counted>)
    ensures payments != [] ==>
      Gross(payments) - 10 * |payments| < 10 * Fees(payments) < Gross(payments) + 10 * |payments|
  {
    if payments != [] {
      FeesAreATenth(payments[..|payments| - 1]);
      FeeIsATenth(payments[|payments| - 1].amount);
    }
  }

  /** In every bucket gross is fee plus net, and n payments put the fee within n cents of a tenth. */
  lemma RoundingNeverDrifts(counted: seq<Counted>, day: int, currency: string)
    ensures var g, n := GmvIn(Fold(counted).gmv, (day, currency)), |Payments(counted, day, currency)|;
      && g.gross == g.fee + g.net
      && (if n == 0 then g.fee == 0 && g.net == 0 else g.gross - 10 * n < 10 * g.fee < g.gross + 10 * n)
  {
    GmvIsTheSumOfPayments(counted, day, currency);
    FeesAreATenth(Payments(counted, day, currency));
  }

  // ---------------------------------------------------------------------------------------------
  // The order of the events does not matter
  // ---------------------------------------------------------------------------------------------

  lemma PlusGmvCommutes(m: map<(int, string), Gmv>, k: (int, string), d: Gmv, k': (int, string), d': Gmv)
    ensures PlusGmv(PlusGmv(m, k, d), k', d') == PlusGmv(PlusGmv(m, k', d'), k, d)
  {
  }

  lemma MoneyCommutes(m: map<(int, string), Gmv>, a: Counted, b: Counted)
    ensures AddMoney(AddMoney(m, a), b) == AddMoney(AddMoney(m, b), a)
  {
    hide PlusGmv, Fee;
    forall k, d, k', d' ensures PlusGmv(PlusGmv(m, k, d), k', d') == PlusGmv(PlusGmv(m, k', d'), k, d) {
      PlusGmvCommutes(m, k, d, k', d');
    }
  }

  lemma PlusFunnelCommutes(m: map<int, Funnel>, k: int, d: Funnel, k': int, d': Funnel)
    ensures PlusFunnel(PlusFunnel(m, k, d), k', d') == PlusFunnel(PlusFunnel(m, k', d'), k, d)
  {
  }

  lemma StagesCommute(m: map<int, Funnel>, a: Counted, b: Counted)
    ensures AddStage(AddStage(m, a), b) == AddStage(AddStage(m, b), a)
  {
    hide PlusFunnel;
    forall k, d, k', d' ensures PlusFunnel(PlusFunnel(m, k, d), k', d') == PlusFunnel(PlusFunnel(m, k', d'), k, d) {
      PlusFunnelCommutes(m, k, d, k', d');
    }
  }

  lemma AddCommutes(r: Rollups, a: Counted, b: Counted)
    ensures Add(Add(r, a), b) == Add(Add(r, b), a)
  {
    MoneyCommutes(r.gmv, a, b);
    StagesCommute(r.funnel, a, b);
    hide AddMoney, AddStage;
    assert Add(Add(r, a), b).counts == Add(Add(r, b), a).counts;
  }

  function Without(s: seq<Counted>, i: nat): seq<Counted>
    requires i < |s|
  {
    s[..i] + s[i + 1..]
  }

  /** An event can be counted last instead of where it was. */
  lemma {:induction false} MoveToTheEnd(s: seq<Counted>, i: nat)
    requires i < |s|
    ensures Fold(s) == Add(Fold(Without(s, i)), s[i])
  {
    hide Add;
    var n := |s| - 1;
    if i < n {
      var init := s[..n];
      MoveToTheEnd(init, i);
      AddCommutes(Fold(Without(init, i)), s[i], s[n]);
      assert Without(s, i) == Without(init, i) + [s[n]];
      assert Without(s, i)[..n - 1] == Without(init, i);
    } else {
      assert Without(s, i) == s[..n];
    }
  }

  /** The rollups depend only on which events were counted, not on their order. */
  lemma {:induction false} OrderDoesNotMatter(a: seq<Counted>, b: seq<Counted>)
    requires multiset(a) == multiset(b)
    ensures Fold(a) == Fold(b)
  {
    if a == [] {
      assert |b| == |multiset(b)|;
    } else {
      var n := |a| - 1;
      assert a == a[..n] + [a[n]];
      assert a[n] in multiset(b);
      var i :| 0 <= i < |b| && b[i] == a[n];
      assert b == b[..i] + [b[i]] + b[i + 1..];
      assert multiset(Without(b, i)) == multiset(b) - multiset{b[i]};
      assert multiset(a[..n]) == multiset(a) - multiset{a[n]};
      hide Add, Without;
      OrderDoesNotMatter(a[..n], Without(b, i));
      MoveToTheEnd(b, i);
    }
  }

  // ---------------------------------------------------------------------------------------------
  // What one event adds
  // ---------------------------------------------------------------------------------------------

  /** A day is 86400 seconds, counted from the epoch. */
  lemma DaysAreUtc(seconds: int, day: int)
    ensures DayOf(seconds) == day <==> 86400 * day <= seconds < 86400 * (day + 1)
  {
  }

  /** An event adds to its own day only: a payment its amount and fee, an activation a contract, a stage its count. */
  lemma OneEventAdds(r: Rollups, c: Counted, day: int, currency: string, eventType: string)
    ensures var after := Add(r, c);
      var pays := c.eventType == "payment.captured" && c.day == day && c.currency == currency;
      var activates := c.eventType == "contract.activated" && c.day == day;
      var (g, g') := (GmvIn(r.gmv, (day, currency)), GmvIn(after.gmv, (day, currency)));
      var (f, f') := (FunnelIn(r.funnel, day), FunnelIn(after.funnel, day));
      && g'.gross == g.gross + (if pays then c.amount else 0)
      && g'.fee == g.fee + (if pays then Fee(c.amount) else 0)
      && g'.net == g.net + (if pays then c.amount - Fee(c.amount) else 0)
      && g'.contracts == g.contracts + (if activates && c.currency == currency then 1 else 0)
      && f'.projects == f.projects + (if c.eventType == "project.published" && c.day == day then 1 else 0)
      && f'.proposals == f.proposals + (if c.eventType == "proposal.submitted" && c.day == day then 1 else 0)
      && f'.contracts == f.contracts + (if activates then 1 else 0)
      && CountIn(after.counts, (day, eventType))
           == CountIn(r.counts, (day, eventType)) + if c.day == day && c.eventType == eventType then 1 else 0
  {
    MoneyAt(r.gmv, c, day, currency);
    hide Fee, AddMoney;
  }
}
