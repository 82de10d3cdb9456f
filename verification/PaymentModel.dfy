/**
 * Payments: creating an intent, and the two ways a capture arrives (the caller's confirm and
 * Stripe's webhook), each as one atomic step; and what every run of them keeps. A payment id is the
 * position of its row.
 */
module PaymentModel {
  import opened Basics
  import opened Ledger

  datatype Status = Processing | Succeeded

  datatype Payment = Payment(
    payer: string, contract: Option<string>, amount: int, currency: string, intent: string, key: Option<string>,
    status: Status)

  /** A recorded webhook event: its type and the intent it is about. */
  datatype StripeEvent = StripeEvent(eventType: string, intent: string)

  /** outbox lists the payments announced as captured. */
  datatype Db = Db(
    payments: seq<Payment>, events: map<string, StripeEvent>, ledger: seq<Leg>, outbox: seq<nat>, groups: nat)

  datatype Op =
    | Create(payer: string, contract: Option<string>, amount: int, currency: string, key: string, intent: string)
    | Confirm(id: nat)
    | Webhook(event: string, eventType: string, intent: string)

  datatype Error = BadAmount | BadEvent | NotFound | DuplicateKey

  datatype Reply = GotPayment(id: nat, payment: Payment) | Acknowledged | Failed(error: Error)

  const EMPTY := Db([], map[], [], [], 0)
  const SUCCEEDED := "payment_intent.succeeded"

  /** The payment with this idempotency key. */
  function FindKey(payments: seq<Payment>, key: string): (found: Option<nat>)
    ensures found.Some? ==> found.value < |payments| && payments[found.value].key == Some(key)
    ensures found.None? ==> forall i :: 0 <= i < |payments| ==> payments[i].key != Some(key)
  {
    if payments == [] then None
    else
      var n := |payments| - 1;
      var earlier := FindKey(payments[..n], key);
      if earlier.Some? then earlier else if payments[n].key == Some(key) then Some(n) else None
  }

  /** The payment with this Stripe intent. */
  function FindIntent(payments: seq<Payment>, intent: string): (found: Option<nat>)
    ensures found.Some? ==> found.value < |payments| && payments[found.value].intent == intent
    ensures found.Some? ==> forall i :: 0 <= i < found.value ==> payments[i].intent != intent
    ensures found.None? ==> forall i :: 0 <= i < |payments| ==> payments[i].intent != intent
  {
    if payments == [] then None
    else
      var n := |payments| - 1;
      var earlier := FindIntent(payments[..n], intent);
      if earlier.Some? then earlier else if payments[n].intent == intent then Some(n) else None
  }

  function KeyOf(key: string): Option<string> { if key == "" then None else Some(key) }

  function NewPayment(op: Op): Payment
    requires op.Create?
  {
    Payment(op.payer, op.contract, op.amount, if op.currency == "" then "USD" else op.currency, op.intent,
            KeyOf(op.key), Processing)
  }

  /** The capture of a payment: cash from Stripe through client funding into escrow, in one group. */
  function DepositLegs(group: nat, id: nat, p: Payment): seq<Leg> {
    [Leg(group, Deposit, StripeClearing, None, p.contract, -p.amount, p.currency, Some(id)),
     Leg(group, Deposit, ClientFunding, None, p.contract, p.amount, p.currency, Some(id)),
     Leg(group, Deposit, ClientFunding, None, p.contract, -p.amount, p.currency, Some(id)),
     Leg(group, Deposit, Escrow, None, p.contract, p.amount, p.currency, Some(id))]
  }

  function Capture(db: Db, id: nat): Db
    requires id < |db.payments|
  {
    var p := db.payments[id];
    db.(payments := db.payments[id := p.(status := Succeeded)], ledger := db.ledger + DepositLegs(db.groups, id, p),
        outbox := db.outbox + [id], groups := db.groups + 1)
  }

  function ApplyCreate(db: Db, op: Op): (Db, Reply)
    requires op.Create?
  {
    var byKey := if op.key == "" then None else FindKey(db.payments, op.key);
    if op.amount <= 0 then (db, Failed(BadAmount))
    else if byKey.Some? then (db, GotPayment(byKey.value, db.payments[byKey.value]))
    else if FindIntent(db.payments, op.intent).Some? then (db, Failed(DuplicateKey))
    else (db.(payments := db.payments + [NewPayment(op)]), GotPayment(|db.payments|, NewPayment(op)))
  }

  function ApplyConfirm(db: Db, op: Op): (Db, Reply)
    requires op.Confirm?
  {
    if op.id >= |db.payments| || !db.payments[op.id].status.Processing? then (db, Failed(NotFound))
    else (Capture(db, op.id), GotPayment(op.id, db.payments[op.id].(status := Succeeded)))
  }

  function Record(db: Db, op: Op): Db
    requires op.Webhook?
  {
    db.(events := db.events[op.event := StripeEvent(op.eventType, op.intent)])
  }

  /** An event whose payment does not exist yet is not recorded, so that Stripe sends it again. */
  function ApplyWebhook(db: Db, op: Op): (Db, Reply)
    requires op.Webhook?
  {
    if op.event == "" then (db, Failed(BadEvent))
    else if op.event in db.events then (db, Acknowledged)
    else if op.eventType != SUCCEEDED then (Record(db, op), Acknowledged)
    else
      match FindIntent(db.payments, op.intent)
      case None => (db, Failed(NotFound))
      case Some(id) =>
        (Record(if db.payments[id].status.Processing? then Capture(db, id) else db, op), Acknowledged)
  }

  /** One call run alone. */
  function Apply(db: Db, op: Op): (Db, Reply) {
    match op
    case Create(_, _, _, _, _, _) => ApplyCreate(db, op)
    case Confirm(_) => ApplyConfirm(db, op)
    case Webhook(_, _, _) => ApplyWebhook(db, op)
  }

  function Exec(db: Db, ops: seq<Op>): Db {
    if ops == [] then db else Apply(Exec(db, ops[..|ops| - 1]), ops[|ops| - 1]).0
  }

  // ---------------------------------------------------------------------------------------------
  // What every run keeps
  // ---------------------------------------------------------------------------------------------

  /** The ledger rows of one payment. */
  function LegsOf(rows: seq<Leg>, id: nat): seq<Leg> {
    if rows == [] then []
    else LegsOf(rows[..|rows| - 1], id) + if rows[|rows| - 1].payment == Some(id) then [rows[|rows| - 1]] else []
  }

  lemma {:induction false} LegsOfAppend(a: seq<Leg>, b: seq<Leg>, id: nat)
    ensures LegsOf(a + b, id) == LegsOf(a, id) + LegsOf(b, id)
  {
    if b == [] {
      assert a + b == a;
    } else {
      assert (a + b)[..|a| + |b| - 1] == a + b[..|b| - 1];
      LegsOfAppend(a, b[..|b| - 1], id);
    }
  }

  lemma {:induction false} LegsOfAll(rows: seq<Leg>, id: nat)
    requires forall leg :: leg in rows ==> leg.payment == Some(id)
    ensures LegsOf(rows, id) == rows
  {
    if rows != [] {
      LegsOfAll(rows[..|rows| - 1], id);
      assert rows[|rows| - 1] in rows;
    }
  }

  lemma {:induction false} LegsOfNone(rows: seq<Leg>, id: nat)
    requires forall leg :: leg in rows ==> leg.payment != Some(id)
    ensures LegsOf(rows, id) == []
  {
    if rows != [] {
      LegsOfNone(rows[..|rows| - 1], id);
      assert rows[|rows| - 1] in rows;
    }
  }

  /** A deposit's legs: all of the one payment. */
  lemma DepositLegsOf(group: nat, id: nat, p: Payment, other: nat)
    ensures LegsOf(DepositLegs(group, id, p), other) == if other == id then DepositLegs(group, id, p) else []
  {
    var legs := DepositLegs(group, id, p);
    if other == id {
      LegsOfAll(legs, other);
    } else {
      LegsOfNone(legs, other);
    }
  }

  function Deposits(outbox: seq<nat>, id: nat): nat {
    if outbox == [] then 0
    else Deposits(outbox[..|outbox| - 1], id) + if outbox[|outbox| - 1] == id then 1 else 0
  }

  /** One deposit group and one captured event if the payment succeeded, none otherwise. */
  ghost predicate OneDeposit(db: Db, id: nat)
    requires id < |db.payments|
  {
    var p := db.payments[id];
    if p.status.Succeeded? then
      && Deposits(db.outbox, id) == 1
      && exists group :: 0 <= group < db.groups && LegsOf(db.ledger, id) == DepositLegs(group, id, p)
    else LegsOf(db.ledger, id) == [] && Deposits(db.outbox, id) == 0
  }

  ghost predicate RowsOk(payments: seq<Payment>) {
    && (forall i :: 0 <= i < |payments| ==> payments[i].amount > 0)
    && (forall i, j :: 0 <= i < j < |payments| ==> payments[i].intent != payments[j].intent)
    && (forall i, j :: 0 <= i < j < |payments| && payments[i].key.Some? ==> payments[i].key != payments[j].key)
  }

  /** A recorded success means the deposit is there. */
  ghost predicate EventsOk(db: Db) {
    forall e :: e in db.events && db.events[e].eventType == SUCCEEDED ==>
      exists i ::
        0 <= i < |db.payments| && db.payments[i].intent == db.events[e].intent && db.payments[i].status.Succeeded?
  }

  ghost predicate Inv(db: Db) {
    && RowsOk(db.payments)
    && (forall i :: 0 <= i < |db.payments| ==> OneDeposit(db, i))
    && (forall leg :: leg in db.ledger ==>
          leg.payment.Some? && leg.payment.value < |db.payments| && leg.group < db.groups)
    && (forall k :: 0 <= k < |db.outbox| ==> db.outbox[k] < |db.payments|)
    && EventsOk(db)
  }

  lemma CaptureDeposits(db: Db, id: nat, other: nat)
    requires id < |db.payments| && other < |db.payments| && db.payments[id].status.Processing?
    requires OneDeposit(db, id) && OneDeposit(db, other)
    ensures OneDeposit(Capture(db, id), other)
  {
    var after, p := Capture(db, id), db.payments[id];
    LegsOfAppend(db.ledger, DepositLegs(db.groups, id, p), other);
    DepositLegsOf(db.groups, id, p, other);
    assert after.outbox[..|db.outbox|] == db.outbox;
    assert DepositLegs(db.groups, id, p) == DepositLegs(db.groups, id, after.payments[id]);
    hide DepositLegs;
    if other == id {
      assert LegsOf(after.ledger, id) == [] + DepositLegs(db.groups, id, p);
      assert LegsOf(after.ledger, id) == DepositLegs(db.groups, id, after.payments[id]);
    } else {
      assert LegsOf(after.ledger, other) == LegsOf(db.ledger, other) + [];
      assert LegsOf(after.ledger, other) == LegsOf(db.ledger, other);
    }
  }

  lemma CaptureKeepsInv(db: Db, id: nat)
    requires Inv(db) && id < |db.payments| && db.payments[id].status.Processing?
    ensures Inv(Capture(db, id))
  {
    var after := Capture(db, id);
    forall other | 0 <= other < |after.payments| ensures OneDeposit(after, other) {
      CaptureDeposits(db, id, other);
    }
    forall e | e in after.events && after.events[e].eventType == SUCCEEDED
      ensures exists i :: 0 <= i < |after.payments| && after.payments[i].intent == after.events[e].intent
                       && after.payments[i].status.Succeeded?
    {
      var i :| 0 <= i < |db.payments| && db.payments[i].intent == db.events[e].intent
        && db.payments[i].status.Succeeded?;
      assert after.payments[i] == db.payments[i];
    }
    hide OneDeposit;
  }

  lemma {:induction false} NoRowsOfNew(db: Db, id: nat)
    requires forall k :: 0 <= k < |db.outbox| ==> db.outbox[k] != id
    ensures Deposits(db.outbox, id) == 0
    decreases |db.outbox|
  {
    if db.outbox != [] {
      NoRowsOfNew(db.(outbox := db.outbox[..|db.outbox| - 1]), id);
    }
  }

  lemma CreateKeepsInv(db: Db, op: Op)
    requires Inv(db) && op.Create?
    ensures Inv(ApplyCreate(db, op).0)
  {
    var after := ApplyCreate(db, op).0;
    if after != db {
      var n := |db.payments|;
      LegsOfNone(db.ledger, n);
      NoRowsOfNew(db, n);
      forall i | 0 <= i < |after.payments| ensures OneDeposit(after, i) {
        if i < n {
          assert OneDeposit(db, i) && after.payments[i] == db.payments[i];
        }
      }
      forall e | e in after.events && after.events[e].eventType == SUCCEEDED
        ensures exists i :: 0 <= i < |after.payments| && after.payments[i].intent == after.events[e].intent
                         && after.payments[i].status.Succeeded?
      {
        var i :| 0 <= i < n && db.payments[i].intent == db.events[e].intent && db.payments[i].status.Succeeded?;
        assert after.payments[i] == db.payments[i];
      }
      hide OneDeposit, LegsOf;
    }
  }

  lemma RecordKeepsInv(db: Db, op: Op)
    requires Inv(db) && op.Webhook?
    requires op.eventType == SUCCEEDED ==>
      exists i :: 0 <= i < |db.payments| && db.payments[i].intent == op.intent && db.payments[i].status.Succeeded?
    ensures Inv(Record(db, op))
  {
    forall i | 0 <= i < |db.payments| ensures OneDeposit(Record(db, op), i) {
      assert OneDeposit(db, i);
    }
    hide OneDeposit;
  }

  lemma WebhookKeepsInv(db: Db, op: Op)
    requires Inv(db) && op.Webhook?
    ensures Inv(ApplyWebhook(db, op).0)
  {
    hide Inv;
    if op.event != "" && op.event !in db.events {
      if op.eventType != SUCCEEDED {
        RecordKeepsInv(db, op);
      } else {
        match FindIntent(db.payments, op.intent)
        case None =>
        case Some(id) =>
          if db.payments[id].status.Processing? {
            CaptureKeepsInv(db, id);
            assert Capture(db, id).payments[id].intent == op.intent;
            RecordKeepsInv(Capture(db, id), op);
          } else {
            RecordKeepsInv(db, op);
          }
      }
    }
  }

  lemma ApplyKeepsInv(db: Db, op: Op)
    requires Inv(db)
    ensures Inv(Apply(db, op).0)
  {
    hide Inv;
    match op
    case Create(_, _, _, _, _, _) => CreateKeepsInv(db, op);
    case Confirm(id) =>
      if id < |db.payments| && db.payments[id].status.Processing? {
        CaptureKeepsInv(db, id);
      }
    case Webhook(_, _, _) => WebhookKeepsInv(db, op);
  }

  lemma {:induction false} EveryRunKeepsInv(ops: seq<Op>)
    ensures Inv(Exec(EMPTY, ops))
  {
    if ops != [] {
      EveryRunKeepsInv(ops[..|ops| - 1]);
      hide Inv, Apply;
      ApplyKeepsInv(Exec(EMPTY, ops[..|ops| - 1]), ops[|ops| - 1]);
    }
  }

  /** Each payment has exactly one balanced deposit group if it succeeded, and none otherwise. */
  lemma OneDepositPerPayment(ops: seq<Op>, id: nat)
    requires id < |Exec(EMPTY, ops).payments|
    ensures OneDeposit(Exec(EMPTY, ops), id)
    ensures Total(LegsOf(Exec(EMPTY, ops).ledger, id), All) == 0
  {
    EveryRunKeepsInv(ops);
    var db := Exec(EMPTY, ops);
    assert OneDeposit(db, id);
    if db.payments[id].status.Succeeded? {
      var group :| 0 <= group < db.groups && LegsOf(db.ledger, id) == DepositLegs(group, id, db.payments[id]);
      DepositTotals(group, id, db.payments[id], All);
    }
  }

  /** What a deposit adds to each balance. */
  lemma DepositTotals(group: nat, id: nat, p: Payment, f: Filter)
    requires f == All || f.OfKind?
    ensures Total(DepositLegs(group, id, p), f) ==
      if f.All? || !IsIn(p.currency, f.currency) then 0
      else if f.kind.StripeClearing? then -p.amount else if f.kind.Escrow? then p.amount else 0
  {
    var legs := DepositLegs(group, id, p);
    assert legs == Pair(legs[0], legs[1]) + Pair(legs[2], legs[3]);
    assert [] + Pair(legs[0], legs[1]) == Pair(legs[0], legs[1]);
    TotalPair([], legs[0], legs[1], f);
    TotalPair(Pair(legs[0], legs[1]), legs[2], legs[3], f);
  }
}
