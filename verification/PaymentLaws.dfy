/**
 * What each payment call answers and does, in terms of the tables before it and its own arguments, wherever the
 * invariant of runs holds; and that every payment and every deposit of a run is what a call asked for.
 */
module PaymentLaws {
  import opened Basics
  import opened Ledger
  import opened PaymentModel

  /** A deposit of this amount: four ledger rows that take the cash from Stripe through client funding to escrow. */
  ghost predicate Deposited(db: Db, after: Db, id: nat) {
    id < |db.payments| && id < |after.payments| &&
    var (p, g) := (db.payments[id], db.groups);
    && after.payments == db.payments[id := p.(status := Succeeded)]
    && after.ledger == db.ledger + [
         Leg(g, Deposit, StripeClearing, None, p.contract, -p.amount, p.currency, Some(id)),
         Leg(g, Deposit, ClientFunding, None, p.contract, p.amount, p.currency, Some(id)),
         Leg(g, Deposit, ClientFunding, None, p.contract, -p.amount, p.currency, Some(id)),
         Leg(g, Deposit, Escrow, None, p.contract, p.amount, p.currency, Some(id))]
    && after.outbox == db.outbox + [id] && after.groups == g + 1
  }

  /** The payment that a creation asks for. */
  function Requested(op: Op): Payment
    requires op.Create?
  {
    Payment(op.payer, op.contract, op.amount, if op.currency == "" then "USD" else op.currency, op.intent,
            if op.key == "" then None else Some(op.key), Processing)
  }

  /** A positive payment is recorded as asked for, once per key and once per intent. */
  lemma CreationRecords(db: Db, op: Op)
    requires Inv(db) && op.Create?
    ensures var (after, reply) := Apply(db, op);
      && (op.amount <= 0 ==> after == db && reply == Failed(BadAmount))
      && (op.amount > 0 ==>
            && (forall i :: 0 <= i < |db.payments| && op.key != "" && db.payments[i].key == Some(op.key) ==>
                  after == db && reply == GotPayment(i, db.payments[i]))
            && ((forall i :: 0 <= i < |db.payments| ==> op.key == "" || db.payments[i].key != Some(op.key)) ==>
                  if exists i :: 0 <= i < |db.payments| && db.payments[i].intent == op.intent
                  then after == db && reply == Failed(DuplicateKey)
                  else
                    && after == db.(payments := db.payments + [Requested(op)])
                    && reply == GotPayment(|db.payments|, Requested(op))))
  {
    assert RowsOk(db.payments);
    hide Inv;
    forall i | 0 <= i < |db.payments| && op.key != "" && db.payments[i].key == Some(op.key)
      ensures FindKey(db.payments, op.key) == Some(i)
    {
      var j := FindKey(db.payments, op.key).value;
      assert db.payments[j].key == db.payments[i].key;
    }
  }

  /** A confirm captures exactly a payment that is processing. */
  lemma ConfirmCaptures(db: Db, id: nat)
    ensures var (after, reply) := Apply(db, Confirm(id));
      if id < |db.payments| && db.payments[id].status.Processing?
      then
        && Deposited(db, after, id) && after.events == db.events
        && reply == GotPayment(id, db.payments[id].(status := Succeeded))
      else after == db && reply == Failed(NotFound)
  {
  }

  /** A webhook is recorded once; a success captures its payment if that is processing, and is refused before then. */
  lemma WebhookCaptures(db: Db, op: Op)
    requires Inv(db) && op.Webhook?
    ensures var (after, reply) := Apply(db, op);
      var events := db.events[op.event := StripeEvent(op.eventType, op.intent)];
      if op.event == "" then after == db && reply == Failed(BadEvent)
      else if op.event in db.events then after == db && reply == Acknowledged
      else if op.eventType != "payment_intent.succeeded" then after == db.(events := events) && reply == Acknowledged
      else
        && ((forall i :: 0 <= i < |db.payments| ==> db.payments[i].intent != op.intent) ==>
              after == db && reply == Failed(NotFound))
        && (forall i :: 0 <= i < |db.payments| && db.payments[i].intent == op.intent ==>
              && reply == Acknowledged
              && if db.payments[i].status.Processing? then Deposited(db, after, i) && after.events == events
                 else after == db.(events := events))
  {
    assert RowsOk(db.payments);
    hide Inv;
    forall i | 0 <= i < |db.payments| && db.payments[i].intent == op.intent
      ensures FindIntent(db.payments, op.intent) == Some(i)
    {
      var j := FindIntent(db.payments, op.intent).value;
      assert db.payments[j].intent == db.payments[i].intent;
    }
  }

  /** Call k of the run created this payment. */
  ghost predicate CreatedBy(ops: seq<Op>, k: nat, id: nat) {
    && k < |ops| && ops[k].Create? && ops[k].amount > 0
    && |Exec(EMPTY, ops[..k]).payments| == id
    && Apply(Exec(EMPTY, ops[..k]), ops[k]).1 == GotPayment(id, Requested(ops[k]))
  }

  lemma PaymentsStay(db: Db, op: Op, id: nat)
    requires id < |Apply(db, op).0.payments|
    ensures var after := Apply(db, op).0.payments[id];
      if id < |db.payments| then after.(status := Processing) == db.payments[id].(status := Processing)
      else
        && op.Create? && op.amount > 0 && id == |db.payments| && after == Requested(op)
        && Apply(db, op).1 == GotPayment(id, after)
  {
  }

  /** Over any run, every payment is what a call of the run asked for, but for its status. */
  lemma {:induction false} PaymentsAreAskedFor(ops: seq<Op>, id: nat)
    requires id < |Exec(EMPTY, ops).payments|
    ensures exists k: nat ::
      CreatedBy(ops, k, id) && Exec(EMPTY, ops).payments[id].(status := Processing) == Requested(ops[k])
  {
    if ops != [] {
      var n := |ops| - 1;
      var db := Exec(EMPTY, ops[..n]);
      PaymentsStay(db, ops[n], id);
      hide Apply;
      if id < |db.payments| {
        PaymentsAreAskedFor(ops[..n], id);
        var k: nat :| CreatedBy(ops[..n], k, id) && db.payments[id].(status := Processing) == Requested(ops[..n][k]);
        assert ops[..n][..k] == ops[..k] && ops[..n][k] == ops[k];
        assert CreatedBy(ops, k, id);
      } else {
        assert CreatedBy(ops, n, id);
      }
    }
  }
}
