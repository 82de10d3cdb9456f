/**
 * What each contract call answers and does, in terms of the tables before it and its own arguments; and the calls
 * that must lie behind a milestone's status in any run.
 */
module ContractLaws {
  import opened Basics
  import opened ContractModel

  // ---------------------------------------------------------------------------------------------
  // Single calls
  // ---------------------------------------------------------------------------------------------

  /** Milestone m of contract id exists and has this status. */
  predicate HasStatus(db: Db, id: nat, m: nat, status: MilestoneStatus) {
    id < |db.contracts| && m < |db.contracts[id].milestones| && db.contracts[id].milestones[m].status == status
  }

  /** Only this milestone's status changes, and these announcements are made. */
  ghost predicate StatusBecomes(db: Db, after: Db, id: nat, m: nat, status: MilestoneStatus, news: seq<Message>)
    requires id < |db.contracts| && m < |db.contracts[id].milestones|
  {
    var c := db.contracts[id];
    && after.contracts == db.contracts[id :=
         c.(milestones := c.milestones[m := c.milestones[m].(status := status)])]
    && after.outbox == db.outbox + news
  }

  /** A milestone call: what it needs of the milestone and the caller, what it answers otherwise, and what it does. */
  ghost predicate MilestoneCall(db: Db, op: Op, id: nat, m: nat, from: MilestoneStatus, byFreelancer: bool,
                                to: MilestoneStatus)
    requires op.FundMilestone? || op.SubmitMilestone? || op.ApproveMilestone?
  {
    var (after, reply) := Apply(db, op);
    if id >= |db.contracts| || m >= |db.contracts[id].milestones| then after == db && reply == Failed(NotFound)
    else if !HasStatus(db, id, m, from) then after == db && reply == Failed(InvalidMilestoneState)
    else
      var c := db.contracts[id];
      if op.caller != (if byFreelancer then c.freelancer else c.client) then after == db && reply == Failed(Forbidden)
      else
        && reply == Done
        && StatusBecomes(db, after, id, m, to, if to != Approved then []
             else [MilestoneApproved(id, m, c.milestones[m].amount, c.freelancer)])
  }

  /** The client funds what is pending, the freelancer submits what is funded, the client approves what is submitted. */
  lemma MilestonesMoveInTurn(db: Db, id: nat, m: nat, caller: string)
    ensures MilestoneCall(db, FundMilestone(id, m, caller), id, m, Pending, false, Funded)
    ensures MilestoneCall(db, SubmitMilestone(id, m, caller), id, m, Funded, true, Submitted)
    ensures MilestoneCall(db, ApproveMilestone(id, m, caller), id, m, Submitted, false, Approved)
  {
  }

  /** A contract that waits for its funding is activated, with its log entry and its announcement; no other is. */
  lemma ActivationNeedsPending(db: Db, id: nat, actor: string)
    ensures var (after, reply) := Apply(db, Activate(id, actor));
      if id < |db.contracts| && db.contracts[id].status == PendingFunding
      then
        var c := db.contracts[id];
        && reply == Done && after.outbox == db.outbox + [ContractActivated(id)]
        && after.contracts == db.contracts[id := c.(status := Active,
             events := c.events + [Event(Some(PendingFunding), Active, "activate", actor)])]
      else after == db && reply == Failed(InvalidState)
  {
  }

  /** Exactly a party can dispute, from any status; the status before it goes into the log. */
  lemma PartiesDispute(db: Db, id: nat, raisedBy: string, reason: string)
    ensures var (after, reply) := Apply(db, RaiseDispute(id, raisedBy, reason));
      if id >= |db.contracts| then after == db && reply == Failed(NotFound)
      else if raisedBy !in {db.contracts[id].client, db.contracts[id].freelancer} then
        after == db && reply == Failed(Forbidden)
      else
        var c := db.contracts[id];
        && reply == Done && after.outbox == db.outbox + [ContractDisputed(id, raisedBy)]
        && after.contracts == db.contracts[id := c.(status := Disputed, disputes := c.disputes + [reason],
             events := c.events + [Event(Some(c.status), Disputed, "dispute", raisedBy)])]
  {
  }

  /** The milestones asked for, none of them funded yet. */
  ghost predicate Unfunded(ms: seq<Milestone>, asked: seq<Milestone>) {
    |ms| == |asked| && forall i :: 0 <= i < |ms| ==> ms[i] == Milestone(asked[i].seqNo, asked[i].amount, Pending)
  }

  /** Creating a contract: each refusal has its reason, and what is stored starts at the beginning. */
  lemma CreationAnswers(db: Db, op: Op)
    requires op.Create?
    ensures var (after, reply) := Apply(db, op);
      var input := op.input;
      && (reply == Failed(ProposalRequired) <==> input.proposal == "")
      && (input.proposal != "" && input.client == "" ==> reply == Failed(InvalidParties))
      && (input.proposal != "" && input.client != "" && op.lookup.Missing? ==> reply == Failed(NotFound))
      && (input.proposal != "" && input.client != "" && op.lookup.Unreachable? ==> reply == Failed(Forbidden))
      && (reply.Created? <==>
            && input.proposal != "" && input.client != "" && op.lookup.Found?
            && Contractable(input, op.lookup.proposal) && input.budgetType in {"fixed", "hourly"}
            && (input.budgetType == "fixed" ==>
                  && input.milestones != [] && Sum(input.milestones) == op.lookup.proposal.bid
                  && (forall i :: 0 <= i < |input.milestones| ==> input.milestones[i].amount > 0)
                  && (forall i, j :: 0 <= i < j < |input.milestones| ==>
                        input.milestones[i].seqNo != input.milestones[j].seqNo)))
      && (input.proposal != "" && input.client != "" && op.lookup.Found? ==>
            match DerivedTerms(input, op.lookup.proposal)
            case Refused(e) => reply == Failed(e)
            case Terms(_) => reply.Created? || reply == Failed(DatabaseRefused))
      && (reply.Failed? ==> after == db)
      && (reply.Created? ==>
            var c := after.contracts[|db.contracts|];
            && reply == Created(|db.contracts|) && after.outbox == db.outbox
            && |after.contracts| == |db.contracts| + 1 && after.contracts[..|db.contracts|] == db.contracts
            && TermsOf(c, op.lookup.proposal) && c.budgetType == input.budgetType && c.status == PendingFunding
            && c.currency == (if op.lookup.proposal.currency != "" then op.lookup.proposal.currency
                              else if input.currency != "" then input.currency else "USD")
            && Unfunded(c.milestones, if input.budgetType == "fixed" then input.milestones else [])
            && c.events == [Event(None, PendingFunding, "create", input.client)] && c.disputes == [])
  {
    hide Sum;
  }

  // ---------------------------------------------------------------------------------------------
  // Behind a milestone's status
  // ---------------------------------------------------------------------------------------------

  /** Call k of the run is this one, and it succeeded. */
  ghost predicate Did(ops: seq<Op>, k: nat, op: Op) {
    k < |ops| && ops[k] == op && Apply(Exec(EMPTY, ops[..k]), ops[k]).1 == Done
  }

  ghost predicate WasFunded(ops: seq<Op>, id: nat, m: nat, client: string) {
    exists f: nat :: Did(ops, f, FundMilestone(id, m, client))
  }

  ghost predicate WasSubmitted(ops: seq<Op>, id: nat, m: nat, client: string, freelancer: string) {
    exists f: nat, s: nat :: f < s && Did(ops, f, FundMilestone(id, m, client))
      && Did(ops, s, SubmitMilestone(id, m, freelancer))
  }

  ghost predicate WasApproved(ops: seq<Op>, id: nat, m: nat, client: string, freelancer: string) {
    exists f: nat, s: nat, a: nat :: f < s < a && Did(ops, f, FundMilestone(id, m, client))
      && Did(ops, s, SubmitMilestone(id, m, freelancer)) && Did(ops, a, ApproveMilestone(id, m, client))
  }

  lemma DidBefore(ops: seq<Op>, n: nat, k: nat, op: Op)
    requires n <= |ops| && Did(ops[..n], k, op)
    ensures Did(ops, k, op)
  {
    hide Apply, Exec;
    assert ops[..n][..k] == ops[..k] && ops[..n][k] == ops[k];
  }

  lemma StillSo(ops: seq<Op>, n: nat, id: nat, m: nat, client: string, freelancer: string)
    requires n <= |ops|
    ensures WasFunded(ops[..n], id, m, client) ==> WasFunded(ops, id, m, client)
    ensures WasSubmitted(ops[..n], id, m, client, freelancer) ==> WasSubmitted(ops, id, m, client, freelancer)
    ensures WasApproved(ops[..n], id, m, client, freelancer) ==> WasApproved(ops, id, m, client, freelancer)
  {
    forall k: nat, op: Op | Did(ops[..n], k, op) ensures Did(ops, k, op) { DidBefore(ops, n, k, op); }
    hide Did;
  }

  /** The calls behind the status of a milestone. */
  ghost predicate Earned(ops: seq<Op>, id: nat, m: nat, c: Contract)
    requires m < |c.milestones|
  {
    match c.milestones[m].status
    case Pending => true
    case Funded => WasFunded(ops, id, m, c.client)
    case Submitted => WasSubmitted(ops, id, m, c.client, c.freelancer)
    case Approved => WasApproved(ops, id, m, c.client, c.freelancer)
  }

  /** One call: a milestone keeps its status, is new, or moves by the call that is due, from the party that owes it. */
  lemma OneMove(db: Db, op: Op, id: nat, m: nat)
    requires var after := Apply(db, op).0; id < |after.contracts| && m < |after.contracts[id].milestones|
    ensures var (after, reply) := Apply(db, op);
      var to := after.contracts[id];
      if id >= |db.contracts| then to.milestones[m].status == Pending
      else
        var c := db.contracts[id];
        && m < |c.milestones| && to.client == c.client && to.freelancer == c.freelancer
        && (to.milestones[m].status == c.milestones[m].status
            || (reply == Done && c.milestones[m].status == Pending && to.milestones[m].status == Funded
                && op == FundMilestone(id, m, c.client))
            || (reply == Done && c.milestones[m].status == Funded && to.milestones[m].status == Submitted
                && op == SubmitMilestone(id, m, c.freelancer))
            || (reply == Done && c.milestones[m].status == Submitted && to.milestones[m].status == Approved
                && op == ApproveMilestone(id, m, c.client)))
  {
    hide DerivedTerms, Storable;
  }

  lemma EarnedByLast(ops: seq<Op>, id: nat, m: nat, c: Contract, to: Contract)
    requires ops != [] && m < |c.milestones| && m < |to.milestones|
    requires to.client == c.client && to.freelancer == c.freelancer
    requires Earned(ops[..|ops| - 1], id, m, c)
    requires var (n, from, now) := (|ops| - 1, c.milestones[m].status, to.milestones[m].status);
      || now == from
      || (from == Pending && now == Funded && Did(ops, n, FundMilestone(id, m, c.client)))
      || (from == Funded && now == Submitted && Did(ops, n, SubmitMilestone(id, m, c.freelancer)))
      || (from == Submitted && now == Approved && Did(ops, n, ApproveMilestone(id, m, c.client)))
    ensures Earned(ops, id, m, to)
  {
    var n := |ops| - 1;
    StillSo(ops, n, id, m, c.client, c.freelancer);
    forall k: nat, op: Op | Did(ops[..n], k, op) ensures Did(ops, k, op) && k < n { DidBefore(ops, n, k, op); }
    hide Did;
  }

  /**
   * In any run a milestone is funded, submitted or approved only if the run holds, in this order, a successful
   * funding by the contract's client, a successful submission by its freelancer and a successful approval by its
   * client.
   */
  lemma {:induction false} MilestonesAreEarned(ops: seq<Op>, id: nat, m: nat)
    requires var contracts := Exec(EMPTY, ops).contracts; id < |contracts| && m < |contracts[id].milestones|
    ensures Earned(ops, id, m, Exec(EMPTY, ops).contracts[id])
  {
    if ops != [] {
      var n := |ops| - 1;
      var db := Exec(EMPTY, ops[..n]);
      OneMove(db, ops[n], id, m);
      hide Apply, Earned;
      if id < |db.contracts| {
        MilestonesAreEarned(ops[..n], id, m);
        EarnedByLast(ops, id, m, db.contracts[id], Exec(EMPTY, ops).contracts[id]);
      } else {
        NewIsEarned(ops, id, m, Exec(EMPTY, ops).contracts[id]);
      }
    }
  }

  lemma NewIsEarned(ops: seq<Op>, id: nat, m: nat, c: Contract)
    requires m < |c.milestones| && c.milestones[m].status == Pending
    ensures Earned(ops, id, m, c)
  {
  }
}
