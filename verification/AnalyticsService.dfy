/** The analytics store, whose rows the ingestion of an event updates in place inside one transaction. */
module AnalyticsService {
  import opened Rollups

  /** How the database behaves: a statement fails, or the commit succeeds but its reply is lost. */
  datatype Fate = Runs | Fails(statement: nat) | ReplyLost

  datatype Tables = Tables(rollups: Rollups, processed: set<(string, string)>)

  /** What ingesting an event does to the database. */
  function Ingested(t: Tables, group: string, c: Counted): Tables {
    if c.eventId == "" then t.(rollups := Add(t.rollups, c))
    else if (group, c.eventId) in t.processed then t
    else Tables(Add(t.rollups, c), t.processed + {(group, c.eventId)})
  }

  class Store {
    var counts: map<(int, string), nat>
    var gmv: map<(int, string), Gmv>
    var funnel: map<int, Funnel>
    var processed: set<(string, string)>

    constructor ()
      ensures Contents() == Tables(NO_ROLLUPS, {})
    {
      counts, gmv, funnel, processed := map[], map[], map[], {};
    }

    function Contents(): Tables reads this { Tables(Rollups(counts, gmv, funnel), processed) }

    /** ON CONFLICT DO NOTHING: whether this call inserted the row. */
    method ClaimEvent(group: string, eventId: string) returns (claimed: bool)
      modifies `processed
      ensures claimed <==> (group, eventId) !in old(processed)
      ensures processed == old(processed) + {(group, eventId)}
    {
      claimed := (group, eventId) !in processed;
      if claimed {
        processed := processed + {(group, eventId)};
      }
    }

    method BumpEventCount(day: int, eventType: string)
      modifies `counts
      ensures counts == PlusCount(old(counts), (day, eventType))
    {
      if (day, eventType) in counts {
        counts := counts[(day, eventType) := counts[(day, eventType)] + 1];
      } else {
        counts := counts[(day, eventType) := 1];
      }
    }

    method AddGmv(day: int, currency: string, gross: int, fee: int, net: int)
      modifies `gmv
      ensures gmv == PlusGmv(old(gmv), (day, currency), Gmv(gross, fee, net, 0))
    {
      if (day, currency) in gmv {
        var g := gmv[(day, currency)];
        gmv := gmv[(day, currency) := Gmv(g.gross + gross, g.fee + fee, g.net + net, g.contracts)];
      } else {
        gmv := gmv[(day, currency) := Gmv(gross, fee, net, 0)];
      }
    }

    method AddContractCount(day: int, currency: string)
      modifies `gmv
      ensures gmv == PlusGmv(old(gmv), (day, currency), Gmv(0, 0, 0, 1))
    {
      if (day, currency) in gmv {
        var g := gmv[(day, currency)];
        gmv := gmv[(day, currency) := g.(contracts := g.contracts + 1)];
      } else {
        gmv := gmv[(day, currency) := Gmv(0, 0, 0, 1)];
      }
    }

    method BumpFunnel(day: int, stage: Funnel)
      requires stage in {Funnel(1, 0, 0), Funnel(0, 1, 0), Funnel(0, 0, 1)}
      modifies `funnel
      ensures funnel == PlusFunnel(old(funnel), day, stage)
    {
      if day in funnel {
        var f := funnel[day];
        funnel := funnel[day := Funnel(f.projects + stage.projects, f.proposals + stage.proposals,
                                       f.contracts + stage.contracts)];
      } else {
        funnel := funnel[day := stage];
      }
    }

    method Rollback(saved: Tables)
      modifies this
      ensures Contents() == saved
    {
      counts, gmv, funnel := saved.rollups.counts, saved.rollups.gmv, saved.rollups.funnel;
      processed := saved.processed;
    }

    /** The rollup statements of one event; false when one of them failed. */
    method BumpRollups(c: Counted, fate: Fate) returns (ok: bool)
      modifies `counts, `gmv, `funnel
      ensures ok ==> Rollups(counts, gmv, funnel) == Add(old(Rollups(counts, gmv, funnel)), c)
      ensures !fate.Fails? ==> ok
    {
      if fate == Fails(1) { return false; }
      BumpEventCount(c.day, c.eventType);
      if c.eventType == "payment.captured" {
        if fate == Fails(2) { return false; }
        AddGmv(c.day, c.currency, c.amount, Fee(c.amount), c.amount - Fee(c.amount));
      }
      if c.eventType == "contract.activated" {
        if fate == Fails(3) { return false; }
        AddContractCount(c.day, c.currency);
      }
      if c.eventType in {"project.published", "proposal.submitted", "contract.activated"} {
        if fate == Fails(4) { return false; }
        BumpFunnel(c.day, if c.eventType == "project.published" then Funnel(1, 0, 0)
                          else if c.eventType == "proposal.submitted" then Funnel(0, 1, 0) else Funnel(0, 0, 1));
      }
      ok := true;
    }

    /**
     * All or nothing: the event is counted and claimed together, or the tables are as before; a
     * success reported to the consumer means it is counted, now or by an earlier delivery.
     */
    method IngestEvent(group: string, eventId: string, eventType: string, occurredAt: int,
                       amount: int, currency: string, fate: Fate) returns (ok: bool)
      modifies this
      ensures
        var c := Counted(eventId, DayOf(occurredAt), eventType, amount, if currency == "" then "USD" else currency);
        && (Contents() == Ingested(old(Contents()), group, c) || (!ok && Contents() == old(Contents())))
        && (ok ==> Contents() == Ingested(old(Contents()), group, c))
        && (fate.Runs? ==> ok)
        && (fate.ReplyLost? ==> !ok && Contents() == Ingested(old(Contents()), group, c))
    {
      var c := Counted(eventId, DayOf(occurredAt), eventType, amount, if currency == "" then "USD" else currency);
      var saved := Contents();
      var claimed := true;
      if eventId != "" {
        if fate == Fails(0) { return false; }
        claimed := ClaimEvent(group, eventId);
      }
      if claimed {
        var done := BumpRollups(c, fate);
        if !done {
          Rollback(saved);
          return false;
        }
      }
      if fate == Fails(5) {
        Rollback(saved);
        return false;
      }
      ok := !fate.ReplyLost?;
    }
  }

  /** Ingesting an event again changes nothing, whatever the second delivery says. */
  lemma IngestIsIdempotent(t: Tables, group: string, c: Counted, again: Counted)
    requires c.eventId != "" && again.eventId == c.eventId
    ensures Ingested(Ingested(t, group, c), group, again) == Ingested(t, group, c)
  {
  }

  /** An event is added once per group and id, and its id is claimed then; without an id it is added every time. */
  lemma EventsAreCountedOnce(t: Tables, group: string, c: Counted)
    ensures var after := Ingested(t, group, c);
      var known := c.eventId != "" && (group, c.eventId) in t.processed;
      && after.rollups == (if known then t.rollups else Add(t.rollups, c))
      && forall g, id :: (g, id) in after.processed <==>
           (g, id) in t.processed || (id != "" && id == c.eventId && g == group)
  {
    hide Add;
  }
}
