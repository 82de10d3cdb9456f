/**
 * Contracts: how the terms are derived from the accepted proposal, the milestone state machine, and
 * the log of status transitions. A contract's id is its position, a milestone's its position in the
 * contract.
 */
module ContractModel {
  import opened Basics

  datatype Status = PendingFunding | Active | Paused | Completed | Cancelled | Disputed

  datatype MilestoneStatus = Pending | Funded | Submitted | Approved

  datatype Milestone = Milestone(seqNo: int, amount: int, status: MilestoneStatus)

  /** One row of contract_events. */
  datatype Event = Event(from: Option<Status>, to: Status, name: string, actor: string)

  datatype Contract = Contract(
    project: string, client: string, freelancer: string, budgetType: string, currency: string,
    total: Option<int>, hourlyRate: Option<int>, feeBps: int, status: Status,
    milestones: seq<Milestone>, events: seq<Event>, disputes: seq<string>)

  /** What the outbox announces. */
  datatype Message =
    | ContractActivated(contract: nat)
    | MilestoneApproved(contract: nat, milestone: nat, amount: int, freelancer: string)
    | ContractDisputed(contract: nat, raisedBy: string)

  datatype Db = Db(contracts: seq<Contract>, outbox: seq<Message>)

  /** The proposal as the proposal service reports it. */
  datatype Proposal = Proposal(
    project: string, projectClient: string, status: string, freelancer: string, currency: string, bid: int)

  /** What asking the proposal service came to. */
  datatype Lookup = Found(proposal: Proposal) | Missing | Unreachable

  datatype Input = Input(
    proposal: string, project: string, client: string, freelancer: string, budgetType: string, currency: string,
    total: Option<int>, hourlyRate: Option<int>, feeBps: int, milestones: seq<Milestone>)

  datatype Error =
    | ProposalRequired | InvalidParties | NotFound | Forbidden | ProposalNotSelected | NoMilestones | ProposalMismatch
    | InvalidState | InvalidMilestoneState | DatabaseRefused

  datatype Op =
    | Create(input: Input, lookup: Lookup)
    | Activate(contract: nat, actor: string)
    | FundMilestone(contract: nat, milestone: nat, caller: string)
    | SubmitMilestone(contract: nat, milestone: nat, caller: string)
    | ApproveMilestone(contract: nat, milestone: nat, caller: string)
    | RaiseDispute(contract: nat, raisedBy: string, reason: string)

  datatype Reply = Done | Created(id: nat) | Failed(error: Error)

  datatype Derived = Terms(input: Input) | Refused(error: Error)

  const EMPTY := Db([], [])
  const PLATFORM_FEE_BPS := 1000

  // ---------------------------------------------------------------------------------------------
  // Terms
  // ---------------------------------------------------------------------------------------------

  function Sum(ms: seq<Milestone>): int { if ms == [] then 0 else Sum(ms[..|ms| - 1]) + ms[|ms| - 1].amount }

  /** The currency of the contract: the proposal's, the request's, or dollars. */
  function CurrencyOf(input: Input, p: Proposal): string {
    if p.currency != "" then p.currency else if input.currency != "" then input.currency else "USD"
  }

  /** Everything the client must not control comes from the proposal. */
  function Overridden(input: Input, p: Proposal): Input {
    input.(project := p.project, freelancer := p.freelancer, feeBps := PLATFORM_FEE_BPS,
           currency := CurrencyOf(input, p),
           total := if input.budgetType == "fixed" then Some(p.bid) else if input.budgetType == "hourly" then None
                    else input.total,
           hourlyRate := if input.budgetType == "fixed" then None else if input.budgetType == "hourly" then Some(p.bid)
                         else input.hourlyRate)
  }

  function DerivedTerms(input: Input, p: Proposal): Derived {
    if p.projectClient == "" || p.projectClient != input.client then Refused(Forbidden)
    else if p.status == "withdrawn" || p.status == "declined" then Refused(ProposalNotSelected)
    else if input.client == p.freelancer || p.freelancer == "" then Refused(InvalidParties)
    else if input.budgetType == "fixed" && input.milestones == [] then Refused(NoMilestones)
    else if input.budgetType == "fixed" && Sum(input.milestones) != p.bid then Refused(ProposalMismatch)
    else Terms(Overridden(input, p))
  }

  /** The caller owns the project, the proposal is open, and the freelancer is somebody else. */
  predicate Contractable(input: Input, p: Proposal) {
    && p.projectClient == input.client != "" && p.status !in {"withdrawn", "declined"}
    && p.freelancer !in {"", input.client}
  }

  /** Two requests of one client for one proposal, with the same milestones; the rest may be forged. */
  predicate SameRequest(a: Input, b: Input) {
    && a.proposal == b.proposal && a.client == b.client && a.budgetType == b.budgetType && a.milestones == b.milestones
  }

  /**
   * Nothing the client must not control gets into the contract: for a known budget type, whatever a request says
   * about project, freelancer, fee, total or rate, and about the currency if the proposal has one, the outcome and
   * the terms are the same.
   */
  lemma RequestCannotForge(honest: Input, forged: Input, p: Proposal)
    requires SameRequest(honest, forged) && (honest.budgetType == "fixed" || honest.budgetType == "hourly")
    requires p.currency == "" ==> honest.currency == forged.currency
    ensures DerivedTerms(honest, p) == DerivedTerms(forged, p)
  {
  }

  /** What the tables accept: known budget types, positive amounts, one milestone per number. */
  ghost predicate Storable(input: Input) {
    && (input.budgetType == "fixed" || input.budgetType == "hourly")
    && (input.budgetType == "fixed" ==>
          && (forall i :: 0 <= i < |input.milestones| ==> input.milestones[i].amount > 0)
          && (forall i, j :: 0 <= i < j < |input.milestones| ==>
                input.milestones[i].seqNo != input.milestones[j].seqNo))
  }

  function Fresh(ms: seq<Milestone>): seq<Milestone> {
    seq(|ms|, i requires 0 <= i < |ms| => ms[i].(status := Pending))
  }

  function NewContract(t: Input): Contract {
    Contract(t.project, t.client, t.freelancer, t.budgetType, t.currency, t.total, t.hourlyRate, t.feeBps,
             PendingFunding,
             if t.budgetType == "fixed" then Fresh(t.milestones) else [],
             [Event(None, PendingFunding, "create", t.client)], [])
  }

  // ---------------------------------------------------------------------------------------------
  // The operations
  // ---------------------------------------------------------------------------------------------

  ghost function ApplyCreate(db: Db, op: Op): (Db, Reply)
    requires op.Create?
  {
    if op.input.proposal == "" then (db, Failed(ProposalRequired))
    else if op.input.client == "" then (db, Failed(InvalidParties))
    else if op.lookup.Missing? then (db, Failed(NotFound))
    else if op.lookup.Unreachable? then (db, Failed(Forbidden))
    else
      match DerivedTerms(op.input, op.lookup.proposal)
      case Refused(e) => (db, Failed(e))
      case Terms(t) =>
        if !Storable(t) then (db, Failed(DatabaseRefused))
        else (db.(contracts := db.contracts + [NewContract(t)]), Created(|db.contracts|))
  }

  /** A status transition, with its row in the log. */
  function Transition(c: Contract, to: Status, name: string, actor: string): Contract {
    c.(status := to, events := c.events + [Event(Some(c.status), to, name, actor)])
  }

  function Put(db: Db, id: nat, c: Contract): Db
    requires id < |db.contracts|
  {
    db.(contracts := db.contracts[id := c])
  }

  function ApplyActivate(db: Db, op: Op): (Db, Reply)
    requires op.Activate?
  {
    if op.contract >= |db.contracts| || db.contracts[op.contract].status != PendingFunding then
      (db, Failed(InvalidState))
    else
      var c := db.contracts[op.contract];
      (Put(db, op.contract, Transition(c, Active, "activate", op.actor)).(
         outbox := db.outbox + [ContractActivated(op.contract)]),
       Done)
  }

  function Moved(c: Contract, m: nat, to: MilestoneStatus): Contract
    requires m < |c.milestones|
  {
    c.(milestones := c.milestones[m := c.milestones[m].(status := to)])
  }

  /** The three milestone moves: who may make them, from where, and to where. */
  function PartyOf(op: Op, c: Contract): string { if op.SubmitMilestone? then c.freelancer else c.client }

  function FromOf(op: Op): MilestoneStatus {
    if op.FundMilestone? then Pending else if op.SubmitMilestone? then Funded else Submitted
  }

  function ToOf(op: Op): MilestoneStatus {
    if op.FundMilestone? then Funded else if op.SubmitMilestone? then Submitted else Approved
  }

  function ApplyMilestone(db: Db, op: Op): (Db, Reply)
    requires op.FundMilestone? || op.SubmitMilestone? || op.ApproveMilestone?
  {
    if op.contract >= |db.contracts| || op.milestone >= |db.contracts[op.contract].milestones| then
      (db, Failed(NotFound))
    else
      var c := db.contracts[op.contract];
      var m := c.milestones[op.milestone];
      if m.status != FromOf(op) then (db, Failed(InvalidMilestoneState))
      else if op.caller != PartyOf(op, c) then (db, Failed(Forbidden))
      else
        (Put(db, op.contract, Moved(c, op.milestone, ToOf(op))).(
           outbox := if op.ApproveMilestone?
                     then db.outbox + [MilestoneApproved(op.contract, op.milestone, m.amount, c.freelancer)]
                     else db.outbox),
         Done)
  }

  /** A party can force a dispute from any status. */
  function ApplyDispute(db: Db, op: Op): (Db, Reply)
    requires op.RaiseDispute?
  {
    if op.contract >= |db.contracts| then (db, Failed(NotFound))
    else
      var c := db.contracts[op.contract];
      if op.raisedBy != c.client && op.raisedBy != c.freelancer then (db, Failed(Forbidden))
      else
        var c' := Transition(c.(disputes := c.disputes + [op.reason]), Disputed, "dispute", op.raisedBy);
        (Put(db, op.contract, c').(outbox := db.outbox + [ContractDisputed(op.contract, op.raisedBy)]), Done)
  }

  ghost function Apply(db: Db, op: Op): (Db, Reply) {
    match op
    case Create(_, _) => ApplyCreate(db, op)
    case Activate(_, _) => ApplyActivate(db, op)
    case RaiseDispute(_, _, _) => ApplyDispute(db, op)
    case _ => ApplyMilestone(db, op)
  }

  ghost function Exec(db: Db, ops: seq<Op>): Db {
    if ops == [] then db else Apply(Exec(db, ops[..|ops| - 1]), ops[|ops| - 1]).0
  }

  // ---------------------------------------------------------------------------------------------
  // The log replays to the status
  // ---------------------------------------------------------------------------------------------

  /** Follows the log from the start; None where an entry does not continue the one before it. */
  function Replay(events: seq<Event>): Option<Status> {
    if events == [] then None
    else
      var last := events[|events| - 1];
      if Replay(events[..|events| - 1]) == last.from && (last.from.Some? || |events| == 1) then Some(last.to) else None
  }

  lemma TransitionReplays(c: Contract, to: Status, name: string, actor: string)
    requires Replay(c.events) == Some(c.status)
    ensures Replay(Transition(c, to, name, actor).events) == Some(to)
  {
    var after := Transition(c, to, name, actor).events;
    assert after[..|c.events|] == c.events;
  }

  // ---------------------------------------------------------------------------------------------
  // Approved money
  // ---------------------------------------------------------------------------------------------

  function ApprovedSum(ms: seq<Milestone>): int {
    if ms == [] then 0
    else ApprovedSum(ms[..|ms| - 1]) + if ms[|ms| - 1].status.Approved? then ms[|ms| - 1].amount else 0
  }

  /** What the outbox announced as approved for a contract. */
  function ApprovedCents(outbox: seq<Message>, id: nat): int {
    if outbox == [] then 0
    else
      var last := outbox[|outbox| - 1];
      ApprovedCents(outbox[..|outbox| - 1], id)
        + if last.MilestoneApproved? && last.contract == id then last.amount else 0
  }

  function Approvals(outbox: seq<Message>, id: nat, m: nat): nat {
    if outbox == [] then 0
    else
      var last := outbox[|outbox| - 1];
      Approvals(outbox[..|outbox| - 1], id, m)
        + if last.MilestoneApproved? && last.contract == id && last.milestone == m then 1 else 0
  }

  ghost predicate Positive(ms: seq<Milestone>) { forall i :: 0 <= i < |ms| ==> ms[i].amount > 0 }

  ghost predicate ContractOk(db: Db, id: nat)
    requires id < |db.contracts|
  {
    var c := db.contracts[id];
    && Replay(c.events) == Some(c.status)
    && c.client != c.freelancer
    && Positive(c.milestones)
    && (c.milestones != [] ==> c.total == Some(Sum(c.milestones)))
    && ApprovedCents(db.outbox, id) == ApprovedSum(c.milestones)
    && (forall m: nat :: Approvals(db.outbox, id, m)
          == if m < |c.milestones| && c.milestones[m].status.Approved? then 1 else 0)
  }

  ghost predicate Inv(db: Db) {
    && (forall id :: 0 <= id < |db.contracts| ==> ContractOk(db, id))
    && (forall k :: 0 <= k < |db.outbox| ==> db.outbox[k].contract < |db.contracts|)
  }

  lemma {:induction false} ApprovedWithin(ms: seq<Milestone>)
    requires Positive(ms)
    ensures 0 <= ApprovedSum(ms) <= Sum(ms)
  {
    if ms != [] {
      ApprovedWithin(ms[..|ms| - 1]);
    }
  }

  lemma {:induction false} MovedSums(ms: seq<Milestone>, i: nat, to: MilestoneStatus)
    requires i < |ms|
    ensures var after := ms[i := ms[i].(status := to)];
      && Sum(after) == Sum(ms)
      && ApprovedSum(after) == ApprovedSum(ms) - (if ms[i].status.Approved? then ms[i].amount else 0)
                                               + (if to.Approved? then ms[i].amount else 0)
  {
    var n := |ms| - 1;
    var after := ms[i := ms[i].(status := to)];
    if i == n {
      assert after[..n] == ms[..n];
    } else {
      assert after[..n] == ms[..n][i := ms[i].(status := to)];
      MovedSums(ms[..n], i, to);
    }
  }

  lemma {:induction false} FreshSums(ms: seq<Milestone>)
    ensures Sum(Fresh(ms)) == Sum(ms) && ApprovedSum(Fresh(ms)) == 0
  {
    if ms != [] {
      var n := |ms| - 1;
      assert Fresh(ms)[..n] == Fresh(ms[..n]);
      FreshSums(ms[..n]);
    }
  }

  lemma {:induction false} NothingAnnounced(outbox: seq<Message>, id: nat)
    requires forall k :: 0 <= k < |outbox| ==> outbox[k].contract != id
    ensures ApprovedCents(outbox, id) == 0 && forall m: nat :: Approvals(outbox, id, m) == 0
  {
    if outbox != [] {
      NothingAnnounced(outbox[..|outbox| - 1], id);
    }
  }

  lemma OutboxSnoc(outbox: seq<Message>, x: Message, id: nat, m: nat)
    ensures ApprovedCents(outbox + [x], id)
      == ApprovedCents(outbox, id) + if x.MilestoneApproved? && x.contract == id then x.amount else 0
    ensures Approvals(outbox + [x], id, m)
      == Approvals(outbox, id, m) + if x.MilestoneApproved? && x.contract == id && x.milestone == m then 1 else 0
  {
    assert (outbox + [x])[..|outbox|] == outbox;
  }

  lemma OthersStayOk(db: Db, db': Db, id: nat, x: Message)
    requires id < |db.contracts| <= |db'.contracts| && ContractOk(db, id) && db'.contracts[id] == db.contracts[id]
    requires db'.outbox == db.outbox || (db'.outbox == db.outbox + [x] && !(x.MilestoneApproved? && x.contract == id))
    ensures ContractOk(db', id)
  {
    forall m: nat ensures Approvals(db'.outbox, id, m) == Approvals(db.outbox, id, m) {
      OutboxSnoc(db.outbox, x, id, m);
    }
    OutboxSnoc(db.outbox, x, id, 0);
  }

  lemma CreateKeepsInv(db: Db, op: Op)
    requires Inv(db) && op.Create?
    ensures Inv(ApplyCreate(db, op).0)
  {
    var db', n := ApplyCreate(db, op).0, |db.contracts|;
    if db' != db {
      NewContractIsOk(db, op);
      hide ContractOk;
      forall id | 0 <= id < |db'.contracts| ensures ContractOk(db', id) {
        if id < n {
          OthersStayOk(db, db', id, ContractActivated(n));
        }
      }
    }
  }

  lemma NewContractStarts(t: Input)
    ensures var c := NewContract(t);
      && Replay(c.events) == Some(c.status)
      && ApprovedSum(c.milestones) == 0
      && (t.budgetType == "fixed" ==> Sum(c.milestones) == Sum(t.milestones))
      && forall m: nat :: m < |c.milestones| ==> !c.milestones[m].status.Approved?
  {
    FreshSums(t.milestones);
    var first := Event(None, PendingFunding, "create", t.client);
    assert [first][..0] == [];
    assert Replay([first]) == Some(PendingFunding);
  }

  lemma NewContractIsOk(db: Db, op: Op)
    requires Inv(db) && op.Create? && ApplyCreate(db, op).0 != db
    ensures ContractOk(ApplyCreate(db, op).0, |db.contracts|)
  {
    var n, t := |db.contracts|, Overridden(op.input, op.lookup.proposal);
    NothingAnnounced(db.outbox, n);
    NewContractStarts(t);
    hide Sum, ApprovedSum, ApprovedCents, Approvals, Replay;
    assert ApplyCreate(db, op).0.contracts[n] == NewContract(t);
  }

  lemma StatusChangeKeepsInv(db: Db, id: nat, c': Contract, to: Status, name: string, actor: string, x: Message)
    requires Inv(db) && id < |db.contracts| && !x.MilestoneApproved? && x.contract == id
    requires exists c: Contract ::
      c.(disputes := []) == db.contracts[id].(disputes := []) && c' == Transition(c, to, name, actor)
    ensures Inv(Put(db, id, c').(outbox := db.outbox + [x]))
  {
    var db' := Put(db, id, c').(outbox := db.outbox + [x]);
    assert ContractOk(db, id);
    TransitionReplays(db.contracts[id], to, name, actor);
    forall m: nat ensures Approvals(db'.outbox, id, m) == Approvals(db.outbox, id, m) {
      OutboxSnoc(db.outbox, x, id, m);
    }
    OutboxSnoc(db.outbox, x, id, 0);
    forall k | 0 <= k < |db'.contracts| ensures ContractOk(db', k) {
      if k != id {
        OthersStayOk(db, db', k, x);
      }
    }
  }

  lemma MoveKeepsContractOk(db: Db, op: Op)
    requires Inv(db) && (op.FundMilestone? || op.SubmitMilestone? || op.ApproveMilestone?)
    requires ApplyMilestone(db, op).1 == Done
    ensures ContractOk(ApplyMilestone(db, op).0, op.contract)
  {
    hide Replay, Sum, ApprovedSum, ApprovedCents, Approvals;
    var db', c := ApplyMilestone(db, op).0, db.contracts[op.contract];
    assert ContractOk(db, op.contract);
    MovedSums(c.milestones, op.milestone, ToOf(op));
    MoveCounts(db, op, 0);
    forall m: nat
      ensures Approvals(db'.outbox, op.contract, m)
        == if m < |db'.contracts[op.contract].milestones| && db'.contracts[op.contract].milestones[m].status.Approved?
           then 1 else 0
    {
      MoveCounts(db, op, m);
    }
  }

  /** What a move announces. */
  lemma MoveCounts(db: Db, op: Op, m: nat)
    requires (op.FundMilestone? || op.SubmitMilestone? || op.ApproveMilestone?) && ApplyMilestone(db, op).1 == Done
    ensures var db', amount := ApplyMilestone(db, op).0, db.contracts[op.contract].milestones[op.milestone].amount;
      && Approvals(db'.outbox, op.contract, m)
           == Approvals(db.outbox, op.contract, m) + (if op.ApproveMilestone? && m == op.milestone then 1 else 0)
      && ApprovedCents(db'.outbox, op.contract)
           == ApprovedCents(db.outbox, op.contract) + (if op.ApproveMilestone? then amount else 0)
  {
    var c := db.contracts[op.contract];
    OutboxSnoc(db.outbox,
      MilestoneApproved(op.contract, op.milestone, c.milestones[op.milestone].amount, c.freelancer), op.contract, m);
    hide ApprovedCents, Approvals;
  }

  lemma MilestoneKeepsInv(db: Db, op: Op)
    requires Inv(db) && (op.FundMilestone? || op.SubmitMilestone? || op.ApproveMilestone?)
    ensures Inv(ApplyMilestone(db, op).0)
  {
    var db' := ApplyMilestone(db, op).0;
    if ApplyMilestone(db, op).1 == Done {
      MoveKeepsContractOk(db, op);
      var c := db.contracts[op.contract];
      var x := MilestoneApproved(op.contract, op.milestone, c.milestones[op.milestone].amount, c.freelancer);
      forall k | 0 <= k < |db'.contracts| ensures ContractOk(db', k) {
        if k != op.contract {
          OthersStayOk(db, db', k, x);
        }
      }
      hide ContractOk;
    }
  }

  lemma ApplyKeepsInv(db: Db, op: Op)
    requires Inv(db)
    ensures Inv(Apply(db, op).0)
  {
    hide Inv;
    match op
    case Create(_, _) => CreateKeepsInv(db, op);
    case Activate(id, actor) =>
      if id < |db.contracts| && db.contracts[id].status == PendingFunding {
        StatusChangeKeepsInv(db, id, Transition(db.contracts[id], Active, "activate", actor), Active, "activate", actor,
          ContractActivated(id));
      }
    case RaiseDispute(id, party, reason) =>
      if id < |db.contracts| && (party == db.contracts[id].client || party == db.contracts[id].freelancer) {
        var c := db.contracts[id];
        var c0 := c.(disputes := c.disputes + [reason]);
        assert c0.(disputes := []) == c.(disputes := []);
        StatusChangeKeepsInv(db, id, Transition(c0, Disputed, "dispute", party), Disputed, "dispute", party,
          ContractDisputed(id, party));
      }
    case _ => MilestoneKeepsInv(db, op);
  }

  lemma {:induction false} EveryRunKeepsInv(ops: seq<Op>)
    ensures Inv(Exec(EMPTY, ops))
  {
    if ops != [] {
      EveryRunKeepsInv(ops[..|ops| - 1]);
      hide Inv, Apply;
      ApplyKeepsInv(Exec(EMPTY, ops[..|ops| - 1]), ops[|ops| - 1]);
    }
  }

  /** Each entry starts where the one before it ended; only the first starts nowhere. */
  ghost predicate Path(events: seq<Event>) {
    && events != [] && events[0].from.None?
    && forall i :: 0 < i < |events| ==> events[i].from == Some(events[i - 1].to)
  }

  /** Replaying a log succeeds exactly on paths, and ends where the path ends. */
  lemma {:induction false} ReplayFollowsPaths(events: seq<Event>)
    ensures Replay(events).Some? <==> Path(events)
    ensures Path(events) ==> Replay(events) == Some(events[|events| - 1].to)
  {
    if events != [] {
      var n := |events| - 1;
      var init := events[..n];
      ReplayFollowsPaths(init);
      assert forall i :: 0 <= i < n ==> init[i] == events[i];
    }
  }

  /** In every reachable state the log of a contract is a path that ends at its stored status. */
  lemma {:induction false} LogReplaysToStatus(ops: seq<Op>, id: nat)
    requires id < |Exec(EMPTY, ops).contracts|
    ensures var c := Exec(EMPTY, ops).contracts[id];
      Path(c.events) && c.events[|c.events| - 1].to == c.status && Replay(c.events) == Some(c.status)
  {
    EveryRunKeepsInv(ops);
    assert ContractOk(Exec(EMPTY, ops), id);
    ReplayFollowsPaths(Exec(EMPTY, ops).contracts[id].events);
  }

  // ---------------------------------------------------------------------------------------------
  // Contracts keep the terms of their proposals
  // ---------------------------------------------------------------------------------------------

  /** The contract has the terms of this proposal. */
  ghost predicate TermsOf(c: Contract, p: Proposal) {
    && c.project == p.project && c.client == p.projectClient != "" && c.freelancer == p.freelancer
    && c.feeBps == 1000 && (p.currency != "" ==> c.currency == p.currency)
    && match c.budgetType
       case "fixed" => c.total == Some(p.bid) && c.hourlyRate.None? && c.milestones != []
       case "hourly" => c.hourlyRate == Some(p.bid) && c.total.None? && c.milestones == []
       case _ => false
  }

  /** Call k of the run created contract id from this proposal. */
  ghost predicate CreatedBy(ops: seq<Op>, k: nat, id: nat, p: Proposal) {
    && k < |ops| && ops[k].Create? && ops[k].lookup == Found(p)
    && Apply(Exec(EMPTY, ops[..k]), ops[k]).1 == Created(id)
  }

  lemma CreationFollowsProposal(db: Db, op: Op, p: Proposal)
    requires op.Create? && op.lookup == Found(p) && Apply(db, op).1.Created?
    ensures var after := Apply(db, op).0.contracts;
      Apply(db, op).1 == Created(|db.contracts|) && |after| == |db.contracts| + 1 && TermsOf(after[|db.contracts|], p)
  {
    hide Sum;
  }

  /** No call changes what a contract was concluded on. */
  lemma TermsStay(db: Db, op: Op, id: nat, p: Proposal)
    requires id < |db.contracts| && TermsOf(db.contracts[id], p)
    ensures var after := Apply(db, op).0.contracts; id < |after| && TermsOf(after[id], p)
  {
    hide DerivedTerms, Storable;
  }

  lemma {:induction false} ContractKeepsTerms(ops: seq<Op>, k: nat, id: nat, p: Proposal)
    requires CreatedBy(ops, k, id, p)
    ensures var contracts := Exec(EMPTY, ops).contracts; id < |contracts| && TermsOf(contracts[id], p)
  {
    var n := |ops| - 1;
    var db := Exec(EMPTY, ops[..n]);
    if k == n {
      CreationFollowsProposal(db, ops[n], p);
    } else {
      assert ops[..n][..k] == ops[..k] && ops[..n][k] == ops[k];
      hide Apply, TermsOf;
      ContractKeepsTerms(ops[..n], k, id, p);
      TermsStay(db, ops[n], id, p);
    }
  }

  lemma OnlyCreationAdds(db: Db, op: Op, id: nat)
    requires |db.contracts| <= id < |Apply(db, op).0.contracts|
    ensures op.Create? && op.lookup.Found? && Apply(db, op).1 == Created(id)
  {
    hide DerivedTerms, Storable;
  }

  lemma CreatedInPrefix(ops: seq<Op>, n: nat, k: nat, id: nat, p: Proposal)
    requires n <= |ops| && CreatedBy(ops[..n], k, id, p)
    ensures CreatedBy(ops, k, id, p)
  {
    hide Exec, Apply;
    assert ops[..n][..k] == ops[..k] && ops[..n][k] == ops[k];
  }

  /** Every contract was created by a call, from a proposal. */
  lemma {:induction false} EveryContractWasCreated(ops: seq<Op>, id: nat)
    requires id < |Exec(EMPTY, ops).contracts|
    ensures exists k: nat, p :: CreatedBy(ops, k, id, p)
  {
    if ops != [] {
      var n := |ops| - 1;
      var db := Exec(EMPTY, ops[..n]);
      hide Apply;
      if id < |db.contracts| {
        EveryContractWasCreated(ops[..n], id);
        hide Exec, CreatedBy;
        var k: nat, p :| CreatedBy(ops[..n], k, id, p);
        CreatedInPrefix(ops, n, k, id, p);
      } else {
        OnlyCreationAdds(db, ops[n], id);
        assert CreatedBy(ops, n, id, ops[n].lookup.proposal);
      }
    }
  }

  /**
   * The approvals of a contract never exceed the bid that was accepted when it was created, its terms are still
   * those of that proposal, and no milestone is approved twice.
   */
  lemma {:induction false} ApprovalsWithinBid(ops: seq<Op>, k: nat, id: nat, p: Proposal)
    requires CreatedBy(ops, k, id, p)
    ensures var db := Exec(EMPTY, ops);
      && id < |db.contracts| && TermsOf(db.contracts[id], p)
      && 0 <= ApprovedCents(db.outbox, id)
      && (ApprovedCents(db.outbox, id) <= if db.contracts[id].budgetType == "fixed" then p.bid else 0)
      && forall m: nat :: Approvals(db.outbox, id, m)
           == if m < |db.contracts[id].milestones| && db.contracts[id].milestones[m].status.Approved? then 1 else 0
  {
    ContractKeepsTerms(ops, k, id, p);
    EveryRunKeepsInv(ops);
    hide CreatedBy, Apply;
    var db := Exec(EMPTY, ops);
    assert ContractOk(db, id);
    ApprovedWithin(db.contracts[id].milestones);
  }
}
