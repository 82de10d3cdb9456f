/**
 * The append-only double-entry table `transactions` that escrow and payment share. Debits are
 * negative, credits positive, and the legs of one group sum to zero.
 */
module Ledger {
  import opened Basics

  datatype AccountKind = StripeClearing | ClientFunding | Escrow | EscrowContract | FreelancerBalance | Refunds

  datatype LegType = Deposit | EscrowHold | EscrowRelease | Refund

  datatype Leg = Leg(
    group: nat, legType: LegType, kind: AccountKind, ref: Option<nat>, contract: Option<string>,
    amount: int, currency: string, payment: Option<nat>)

  /** Which rows a balance query adds up. */
  datatype Filter =
    | All
    | OfKind(kind: AccountKind, currency: Option<string>)
    | OfRef(ref: nat)
    | OfKindAndRef(kind: AccountKind, ref: nat)
    | OfGroup(group: nat)
    | OfPayment(payment: nat)

  /** No currency asked for means all of them. */
  predicate IsIn(currency: string, wanted: Option<string>) { wanted.None? || wanted.value == currency }

  predicate Matches(f: Filter, leg: Leg) {
    match f
    case All => true
    case OfKind(k, currency) => leg.kind == k && IsIn(leg.currency, currency)
    case OfRef(r) => leg.ref == Some(r)
    case OfKindAndRef(k, r) => leg.kind == k && leg.ref == Some(r)
    case OfGroup(g) => leg.group == g
    case OfPayment(p) => leg.payment == Some(p)
  }

  /** SELECT coalesce(sum(amount_cents), 0) FROM transactions WHERE f. */
  function Total(rows: seq<Leg>, f: Filter): int {
    if rows == [] then 0
    else
      var last := rows[|rows| - 1];
      Total(rows[..|rows| - 1], f) + if Matches(f, last) then last.amount else 0
  }

  lemma {:induction false} TotalAppend(a: seq<Leg>, b: seq<Leg>, f: Filter)
    ensures Total(a + b, f) == Total(a, f) + Total(b, f)
  {
    if b == [] {
      assert a + b == a;
    } else {
      var n := |b| - 1;
      assert (a + b)[..|a| + n] == a + b[..n];
      TotalAppend(a, b[..n], f);
    }
  }

  lemma {:induction false} TotalNoMatch(rows: seq<Leg>, f: Filter)
    requires forall leg :: leg in rows ==> !Matches(f, leg)
    ensures Total(rows, f) == 0
  {
    if rows != [] {
      assert rows[|rows| - 1] in rows;
      TotalNoMatch(rows[..|rows| - 1], f);
    }
  }

  /** The two-leg group that escrow writes for every movement of money. */
  function Pair(debit: Leg, credit: Leg): seq<Leg> { [debit, credit] }

  lemma TotalPair(rows: seq<Leg>, debit: Leg, credit: Leg, f: Filter)
    ensures Total(rows + Pair(debit, credit), f)
         == Total(rows, f) + (if Matches(f, debit) then debit.amount else 0)
                           + (if Matches(f, credit) then credit.amount else 0)
  {
    TotalAppend(rows, Pair(debit, credit), f);
    assert Pair(debit, credit)[..1] == [debit];
    assert Total([debit], f) == Total([debit][..0], f) + if Matches(f, debit) then debit.amount else 0;
  }

  /** Every group in the table is balanced, as the deferred trigger of migration 000011 demands. */
  ghost predicate Balanced(rows: seq<Leg>) {
    forall g: nat :: Total(rows, OfGroup(g)) == 0
  }

  /** The table `transactions` and the one way rows get into it. */
  class Transactions {
    var rows: seq<Leg>

    constructor ()
      ensures rows == []
    {
      rows := [];
    }

    /** Appends a balanced set of legs; an unbalanced set is refused before anything is written. */
    method WriteLegs(legs: seq<Leg>) returns (ok: bool)
      modifies this
      ensures ok <==> Total(legs, All) == 0
      ensures rows == if ok then old(rows) + legs else old(rows)
    {
      var sum := 0;
      for i := 0 to |legs|
        invariant sum == Total(legs[..i], All)
      {
        assert legs[..i + 1][..i] == legs[..i];
        sum := sum + legs[i].amount;
      }
      assert legs[..|legs|] == legs;
      if sum != 0 {
        return false;
      }
      for i := 0 to |legs|
        invariant rows == old(rows) + legs[..i]
      {
        assert legs[..i + 1] == legs[..i] + [legs[i]];
        rows := rows + [legs[i]];
      }
      assert legs[..|legs|] == legs;
      return true;
    }
  }

  /** A query over an account kind selects the rows of that kind, in the currency asked for. */
  lemma FiltersSelect(leg: Leg, kind: AccountKind, ref: nat, currency: string)
    ensures Matches(OfKind(kind, Some(currency)), leg) <==> leg.kind == kind && leg.currency == currency
    ensures Matches(OfKind(kind, None), leg) <==> leg.kind == kind
    ensures Matches(OfRef(ref), leg) <==> leg.ref == Some(ref)
    ensures Matches(OfKindAndRef(kind, ref), leg) <==> leg.kind == kind && leg.ref == Some(ref)
    ensures Matches(OfGroup(ref), leg) <==> leg.group == ref
    ensures Matches(OfPayment(ref), leg) <==> leg.payment == Some(ref)
    ensures Matches(All, leg)
  {
  }
}
