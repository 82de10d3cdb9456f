/** The weekly rollup of billable time: each closed session adds its seconds and their rounded price. */
module Timesheets {
  import opened Basics

  datatype Row = Row(totalSeconds: int, billableSeconds: int, amount: int, avgPct: int)

  /** A closed session. */
  datatype Accrual = Accrual(seconds: int, avgPct: int)

  /** Cents, at a rate of cents per hour. */
  function Price(rate: int, seconds: int): int { TruncDiv(rate * seconds, 3600) }

  function Accrued(row: Option<Row>, a: Accrual, rate: int): Row {
    var amount := Price(rate, a.seconds);
    match row
    case None => Row(a.seconds, a.seconds, amount, a.avgPct)
    case Some(r) => Row(r.totalSeconds + a.seconds, r.billableSeconds + a.seconds, r.amount + amount, a.avgPct)
  }

  class Store {
    var rows: map<(string, string), Row>

    constructor ()
      ensures rows == map[]
    {
      rows := map[];
    }

    function Lookup(contract: string, week: string): Option<Row> reads this {
      if (contract, week) in rows then Some(rows[(contract, week)]) else None
    }

    /** INSERT … ON CONFLICT (contract_id, billing_week) DO UPDATE. */
    method AccrueTimesheet(contract: string, week: string, seconds: int, avgPct: int, rate: int)
      modifies this
      ensures rows ==
        old(rows)[(contract, week) := Accrued(old(Lookup(contract, week)), Accrual(seconds, avgPct), rate)]
    {
      var amount := TruncDiv(rate * seconds, 3600);
      if (contract, week) in rows {
        var r := rows[(contract, week)];
        rows := rows[(contract, week) :=
          Row(r.totalSeconds + seconds, r.billableSeconds + seconds, r.amount + amount, avgPct)];
      } else {
        rows := rows[(contract, week) := Row(seconds, seconds, amount, avgPct)];
      }
    }
  }

  /** The row of one contract and week after these sessions, at a rate that does not change. */
  function AfterAll(sessions: seq<Accrual>, rate: int): Option<Row> {
    if sessions == [] then None
    else Some(Accrued(AfterAll(sessions[..|sessions| - 1], rate), sessions[|sessions| - 1], rate))
  }

  function Seconds(sessions: seq<Accrual>): int {
    if sessions == [] then 0 else Seconds(sessions[..|sessions| - 1]) + sessions[|sessions| - 1].seconds
  }

  lemma PriceRoundsDown(rate: int, seconds: int)
    requires rate >= 0 && seconds >= 0
    ensures 3600 * Price(rate, seconds) <= rate * seconds < 3600 * Price(rate, seconds) + 3600
  {
    assert rate * seconds >= 0;
  }

  /** n sessions put the amount less than n cents below the exact price of the accumulated time, and never above it. */
  lemma {:induction false} RoundingNeverDrifts(sessions: seq<Accrual>, rate: int)
    requires rate >= 0 && sessions != [] && forall i :: 0 <= i < |sessions| ==> sessions[i].seconds >= 0
    ensures var row := AfterAll(sessions, rate).value;
      && row.totalSeconds == row.billableSeconds == Seconds(sessions)
      && 3600 * row.amount <= rate * row.billableSeconds < 3600 * (row.amount + |sessions|)
  {
    var init, last := sessions[..|sessions| - 1], sessions[|sessions| - 1];
    PriceRoundsDown(rate, last.seconds);
    hide Price;
    if init != [] {
      RoundingNeverDrifts(init, rate);
      var before := AfterAll(init, rate).value;
      Distributes(rate, before.billableSeconds, last.seconds);
    }
  }

  lemma Distributes(a: int, x: int, y: int)
    ensures a * (x + y) == a * x + a * y
  {
  }

  /** A week starts with its first session; each further one adds its seconds and its price, and sets the average. */
  lemma SessionsAccrue(row: Option<Row>, a: Accrual, rate: int)
    requires rate >= 0 && a.seconds >= 0
    ensures var before, after := if row.Some? then row.value else Row(0, 0, 0, 0), Accrued(row, a, rate);
      && after.totalSeconds == before.totalSeconds + a.seconds
      && after.billableSeconds == before.billableSeconds + a.seconds && after.avgPct == a.avgPct
      && 3600 * (after.amount - before.amount) <= rate * a.seconds < 3600 * (after.amount - before.amount + 1)
  {
    PriceRoundsDown(rate, a.seconds);
    hide Price;
  }
}
