/**
 * The contract service as it is written. Milestone moves write first and check the caller afterwards,
 * relying on the rollback; each call is proved to do exactly what ContractModel says, so a call that
 * is refused leaves everything as it was.
 */
module ContractService {
  import opened Basics
  import opened ContractModel

  /**
   * deriveContractTerms: who works, where, for how much and at what fee is the proposal's, the milestones sum to
   * the accepted bid, and each refusal has its own reason.
   */
  method DeriveContractTerms(input: Input, p: Proposal) returns (r: Derived)
    ensures r == DerivedTerms(input, p)
    ensures r.Terms? ==>
      && r.input.project == p.project && r.input.freelancer == p.freelancer && r.input.feeBps == 1000
      && r.input.client == p.projectClient == input.client != p.freelancer
      && r.input.currency ==
           (if p.currency != "" then p.currency else if input.currency != "" then input.currency else "USD")
      && r.input.budgetType == input.budgetType && r.input.milestones == input.milestones
    ensures r.Terms? && input.budgetType == "fixed" ==>
      r.input.total == Some(Sum(input.milestones)) == Some(p.bid) && r.input.hourlyRate == None
    ensures r.Terms? && input.budgetType == "hourly" ==> r.input.hourlyRate == Some(p.bid) && r.input.total == None
    ensures r == Refused(Forbidden) <==> p.projectClient == "" || p.projectClient != input.client
    ensures r == Refused(ProposalNotSelected) <==>
      p.projectClient == input.client != "" && p.status in {"withdrawn", "declined"}
    ensures r == Refused(InvalidParties) <==>
      && p.projectClient == input.client != "" && p.status !in {"withdrawn", "declined"}
      && p.freelancer in {"", input.client}
    ensures r == Refused(NoMilestones) <==>
      Contractable(input, p) && input.budgetType == "fixed" && input.milestones == []
    ensures r == Refused(ProposalMismatch) <==>
      && Contractable(input, p) && input.budgetType == "fixed" && input.milestones != []
      && Sum(input.milestones) != p.bid
  {
    var t := input;
    if p.projectClient == "" || p.projectClient != t.client {
      return Refused(Forbidden);
    }
    if p.status == "withdrawn" || p.status == "declined" {
      return Refused(ProposalNotSelected);
    }
    t := t.(project := p.project, freelancer := p.freelancer, feeBps := 1000);
    if p.currency != "" {
      t := t.(currency := p.currency);
    }
    if t.client == t.freelancer || t.freelancer == "" {
      return Refused(InvalidParties);
    }
    if t.currency == "" {
      t := t.(currency := "USD");
    }
    if t.budgetType == "fixed" {
      if |t.milestones| == 0 {
        return Refused(NoMilestones);
      }
      var sum := 0;
      for i := 0 to |t.milestones|
        invariant sum == Sum(t.milestones[..i])
      {
        assert t.milestones[..i + 1][..i] == t.milestones[..i];
        sum := sum + t.milestones[i].amount;
      }
      assert t.milestones[..|t.milestones|] == t.milestones;
      if sum != p.bid {
        return Refused(ProposalMismatch);
      }
      t := t.(total := Some(p.bid), hourlyRate := None);
    } else if t.budgetType == "hourly" {
      t := t.(hourlyRate := Some(p.bid), total := None);
    }
    r := Terms(t);
  }

  class Service {
    var contracts: seq<Contract>
    var outbox: seq<Message>

    constructor ()
      ensures Contents() == EMPTY
    {
      contracts, outbox := [], [];
    }

    function Contents(): Db reads this { Db(contracts, outbox) }

    method Rollback(saved: Db)
      modifies this
      ensures Contents() == saved
    {
      contracts, outbox := saved.contracts, saved.outbox;
    }

    /** INSERT INTO milestones: refused for an amount that is not positive or a number already taken. */
    method InsertMilestone(id: nat, m: Milestone) returns (ok: bool)
      requires id < |contracts|
      modifies this`contracts
      ensures ok <==> m.amount > 0 && forall i :: 0 <= i < |old(contracts[id].milestones)| ==>
        old(contracts[id].milestones)[i].seqNo != m.seqNo
      ensures contracts == if ok
        then old(contracts)[id :=
          old(contracts)[id].(milestones := old(contracts)[id].milestones + [m.(status := Pending)])]
        else old(contracts)
    {
      if m.amount <= 0 {
        return false;
      }
      var ms := contracts[id].milestones;
      for i := 0 to |ms|
        invariant forall j :: 0 <= j < i ==> ms[j].seqNo != m.seqNo
      {
        if ms[i].seqNo == m.seqNo {
          return false;
        }
      }
      contracts := contracts[id := contracts[id].(milestones := ms + [m.(status := Pending)])];
      ok := true;
    }

    /** The milestones of a new contract, one after the other. */
    method InsertMilestones(id: nat, ms: seq<Milestone>) returns (ok: bool)
      requires id < |contracts| && contracts[id].milestones == []
      modifies this`contracts
      ensures ok <==>
        && (forall i :: 0 <= i < |ms| ==> ms[i].amount > 0)
        && (forall i, j :: 0 <= i < j < |ms| ==> ms[i].seqNo != ms[j].seqNo)
      ensures ok ==> contracts == old(contracts)[id := old(contracts)[id].(milestones := Fresh(ms))]
      ensures !ok ==>
        exists k :: 0 <= k < |ms| &&
          contracts == old(contracts)[id := old(contracts)[id].(milestones := Fresh(ms[..k]))]
    {
      assert Fresh(ms[..0]) == [] && old(contracts)[id := old(contracts)[id].(milestones := [])] == contracts;
      for i := 0 to |ms|
        invariant |contracts| == |old(contracts)|
        invariant contracts == old(contracts)[id := old(contracts)[id].(milestones := Fresh(ms[..i]))]
        invariant forall k :: 0 <= k < i ==> ms[k].amount > 0
        invariant forall k, l :: 0 <= k < l < i ==> ms[k].seqNo != ms[l].seqNo
      {
        assert Fresh(ms[..i + 1]) == Fresh(ms[..i]) + [ms[i].(status := Pending)];
        assert forall k :: 0 <= k < i ==> Fresh(ms[..i])[k].seqNo == ms[k].seqNo;
        var inserted := InsertMilestone(id, ms[i]);
        if !inserted {
          return false;
        }
      }
      assert ms[..|ms|] == ms;
      ok := true;
    }

    method CreateFromProposal(input: Input, lookup: Lookup) returns (reply: Reply)
      modifies this
      ensures (Contents(), reply) == Apply(old(Contents()), Create(input, lookup))
    {
      if input.proposal == "" {
        return Failed(ProposalRequired);
      }
      if input.client == "" {
        return Failed(InvalidParties);
      }
      if lookup.Missing? {
        return Failed(NotFound);
      }
      // Fail closed: without an answer there is no contract.
      if lookup.Unreachable? {
        return Failed(Forbidden);
      }
      var derived := DeriveContractTerms(input, lookup.proposal);
      if derived.Refused? {
        return Failed(derived.error);
      }
      var t := derived.input;
      if t.budgetType != "fixed" && t.budgetType != "hourly" {
        return Failed(DatabaseRefused);
      }
      var saved := Contents();
      var id := |contracts|;
      var row := NewContract(t).(milestones := [], events := []);
      contracts := contracts + [row];
      if t.budgetType != "hourly" {
        var ok := InsertMilestones(id, t.milestones);
        if !ok {
          Rollback(saved);
          return Failed(DatabaseRefused);
        }
      }
      contracts := contracts[id := contracts[id].(events := [Event(None, PendingFunding, "create", input.client)])];
      assert contracts[id] == NewContract(t);
      assert contracts == saved.contracts + [NewContract(t)];
      reply := Created(id);
    }

    method ActivateContract(id: nat, actor: string) returns (reply: Reply)
      modifies this
      ensures (Contents(), reply) == Apply(old(Contents()), Activate(id, actor))
    {
      // The guarded update and its row count.
      if id >= |contracts| || contracts[id].status != PendingFunding {
        return Failed(InvalidState);
      }
      contracts := contracts[id := contracts[id].(status := Active)];
      var c := contracts[id];
      contracts := contracts[id := c.(events := c.events + [Event(Some(PendingFunding), Active, "activate", actor)])];
      outbox := outbox + [ContractActivated(id)];
      assert contracts == old(contracts)[id := Transition(old(contracts)[id], Active, "activate", actor)];
      reply := Done;
    }

    /** milestoneInfo and the update: a milestone that is not in the required status is left alone. */
    method MoveMilestone(id: nat, m: nat, from: MilestoneStatus, to: MilestoneStatus) returns (moved: Option<bool>)
      modifies this`contracts
      ensures moved.None? <==> id >= |old(contracts)| || m >= |old(contracts)[id].milestones|
      ensures moved == Some(true) <==>
        id < |old(contracts)| && m < |old(contracts)[id].milestones| && old(contracts)[id].milestones[m].status == from
      ensures contracts ==
        if moved == Some(true) then old(contracts)[id := Moved(old(contracts)[id], m, to)] else old(contracts)
    {
      if id >= |contracts| || m >= |contracts[id].milestones| {
        return None;
      }
      if contracts[id].milestones[m].status != from {
        return Some(false);
      }
      contracts := contracts[id := Moved(contracts[id], m, to)];
      moved := Some(true);
    }

    method FundMilestone(id: nat, m: nat, caller: string) returns (reply: Reply)
      modifies this
      ensures (Contents(), reply) == Apply(old(Contents()), ContractModel.FundMilestone(id, m, caller))
    {
      var saved := Contents();
      var moved := MoveMilestone(id, m, Pending, Funded);
      if moved.None? {
        return Failed(NotFound);
      }
      if !moved.value {
        return Failed(InvalidMilestoneState);
      }
      if caller != contracts[id].client {
        Rollback(saved);
        return Failed(Forbidden);
      }
      reply := Done;
    }

    method SubmitMilestone(id: nat, m: nat, caller: string) returns (reply: Reply)
      modifies this
      ensures (Contents(), reply) == Apply(old(Contents()), ContractModel.SubmitMilestone(id, m, caller))
    {
      var saved := Contents();
      var moved := MoveMilestone(id, m, Funded, Submitted);
      if moved.None? {
        return Failed(NotFound);
      }
      if !moved.value {
        return Failed(InvalidMilestoneState);
      }
      if caller != contracts[id].freelancer {
        Rollback(saved);
        return Failed(Forbidden);
      }
      reply := Done;
    }

    method ApproveMilestone(id: nat, m: nat, caller: string) returns (reply: Reply)
      modifies this
      ensures (Contents(), reply) == Apply(old(Contents()), ContractModel.ApproveMilestone(id, m, caller))
    {
      var saved := Contents();
      var moved := MoveMilestone(id, m, Submitted, Approved);
      if moved.None? {
        return Failed(NotFound);
      }
      if !moved.value {
        return Failed(InvalidMilestoneState);
      }
      if caller != contracts[id].client {
        Rollback(saved);
        return Failed(Forbidden);
      }
      outbox := outbox + [MilestoneApproved(id, m, contracts[id].milestones[m].amount, contracts[id].freelancer)];
      reply := Done;
    }

    method RaiseDispute(id: nat, raisedBy: string, reason: string) returns (reply: Reply)
      modifies this
      ensures (Contents(), reply) == Apply(old(Contents()), ContractModel.RaiseDispute(id, raisedBy, reason))
    {
      if id >= |contracts| {
        return Failed(NotFound);
      }
      var from := contracts[id].status;
      if raisedBy != contracts[id].client && raisedBy != contracts[id].freelancer {
        return Failed(Forbidden);
      }
      contracts := contracts[id := contracts[id].(disputes := contracts[id].disputes + [reason])];
      contracts := contracts[id := contracts[id].(status := Disputed)];
      var c := contracts[id];
      contracts := contracts[id := c.(events := c.events + [Event(Some(from), Disputed, "dispute", raisedBy)])];
      outbox := outbox + [ContractDisputed(id, raisedBy)];
      ghost var before := old(contracts)[id];
      assert contracts == old(contracts)[id :=
        Transition(before.(disputes := before.disputes + [reason]), Disputed, "dispute", raisedBy)];
      reply := Done;
    }
  }
}
