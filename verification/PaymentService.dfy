/**
 * The payment service as it is written: every call opens a transaction, runs its statements on the
 * mutable tables and rolls back where the source does. Each call is proved to do exactly what the
 * atomic operation of PaymentModel does.
 */
module PaymentService {
  import opened Basics
  import opened Ledger
  import opened PaymentModel

  class Service {
    var payments: seq<Payment>
    var events: map<string, StripeEvent>
    const transactions: Transactions
    var outbox: seq<nat>
    var groups: nat

    ghost function Contents(): Db
      reads this, transactions
    {
      Db(payments, events, transactions.rows, outbox, groups)
    }

    constructor ()
      ensures Contents() == EMPTY && fresh(transactions)
    {
      payments, events, outbox, groups := [], map[], [], 0;
      transactions := new Transactions();
    }

    // ── store ──────────────────────────────────────────────────────────────────

    /** INSERT INTO payments; a taken idempotency key or intent is ErrDuplicateKey. */
    method InsertPayment(p: Payment) returns (id: Option<nat>)
      modifies this`payments
      ensures id.None? <==>
        FindIntent(old(payments), p.intent).Some? || (p.key.Some? && FindKey(old(payments), p.key.value).Some?)
      ensures id.None? ==> payments == old(payments)
      ensures id.Some? ==> id.value == |old(payments)| && payments == old(payments) + [p]
    {
      if FindIntent(payments, p.intent).Some? || (p.key.Some? && FindKey(payments, p.key.value).Some?) {
        return None;
      }
      id := Some(|payments|);
      payments := payments + [p];
    }

    /** UPDATE payments SET status='succeeded' … WHERE id=$1 AND status='processing' RETURNING …. */
    method MarkSucceeded(id: nat) returns (marked: Option<Payment>)
      modifies this`payments
      ensures marked.Some? <==> id < |old(payments)| && old(payments)[id].status.Processing?
      ensures marked.None? ==> payments == old(payments)
      ensures marked.Some? ==>
        marked.value == old(payments)[id].(status := Succeeded) && payments == old(payments)[id := marked.value]
    {
      if id >= |payments| || !payments[id].status.Processing? {
        return None;
      }
      payments := payments[id := payments[id].(status := Succeeded)];
      marked := Some(payments[id]);
    }

    /** ON CONFLICT (id) DO NOTHING: whether the event is new. */
    method InsertStripeEvent(event: string, row: StripeEvent) returns (isNew: bool)
      modifies this`events
      ensures isNew <==> event !in old(events)
      ensures events == if isNew then old(events)[event := row] else old(events)
    {
      isNew := event !in events;
      if isNew {
        events := events[event := row];
      }
    }

    // ── service ────────────────────────────────────────────────────────────────

    /** The four legs of a capture under a new group, and payment.captured. */
    method WriteDepositLedger(id: nat, p: Payment)
      modifies this`outbox, this`groups, transactions
      ensures transactions.rows == old(transactions.rows) + DepositLegs(old(groups), id, p)
      ensures outbox == old(outbox) + [id] && groups == old(groups) + 1
    {
      var legs := DepositLegs(groups, id, p);
      DepositTotals(groups, id, p, All);
      groups := groups + 1;
      var balanced := transactions.WriteLegs(legs);
      assert balanced;
      outbox := outbox + [id];
    }

    method CreatePaymentIntent(payer: string, contract: Option<string>, amount: int, currency: string, key: string,
                               intent: string) returns (reply: Reply)
      modifies this, transactions
      ensures (Contents(), reply) == Apply(old(Contents()), Create(payer, contract, amount, currency, key, intent))
    {
      if amount <= 0 {
        return Failed(BadAmount);
      }
      if key != "" {
        var existing := FindKey(payments, key);
        if existing.Some? {
          return GotPayment(existing.value, payments[existing.value]);
        }
      }
      var p := Payment(payer, contract, amount, if currency == "" then "USD" else currency, intent,
                       if key == "" then None else Some(key), Processing);
      var id := InsertPayment(p);
      if id.None? {
        // Alone, only the intent can be taken: the key was looked up above.
        assert key != "" ==> FindKey(payments, key).None?;
        return Failed(DuplicateKey);
      }
      reply := GotPayment(id.value, p);
    }

    method ConfirmPayment(id: nat) returns (reply: Reply)
      modifies this, transactions
      ensures (Contents(), reply) == Apply(old(Contents()), Confirm(id))
    {
      var p := MarkSucceeded(id);
      if p.None? {
        return Failed(NotFound);
      }
      WriteDepositLedger(id, p.value);
      reply := GotPayment(id, p.value);
    }

    method HandleWebhook(event: string, eventType: string, intent: string) returns (reply: Reply)
      modifies this, transactions
      ensures (Contents(), reply) == Apply(old(Contents()), Webhook(event, eventType, intent))
    {
      if event == "" {
        return Failed(BadEvent);
      }
      ghost var before := Contents();
      var saved := events;
      var isNew := InsertStripeEvent(event, StripeEvent(eventType, intent));
      if !isNew {
        return Acknowledged;
      }
      if eventType == SUCCEEDED {
        var found := FindIntent(payments, intent);
        if found.None? {
          events := saved;
          return Failed(NotFound);
        }
        if payments[found.value].status.Processing? {
          var p := MarkSucceeded(found.value);
          assert p.Some?;
          WriteDepositLedger(found.value, p.value);
          assert DepositLegs(before.groups, found.value, p.value)
              == DepositLegs(before.groups, found.value, before.payments[found.value]);
        }
      }
      reply := Acknowledged;
    }
  }
}
