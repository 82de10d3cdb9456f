/**
 * The bus consumer: check whether the event was handled, try the handler a bounded number of times,
 * dead-letter what keeps failing, mark, and only then let the offset be committed.
 */
module Consumer {
  import opened Basics
  import opened Events

  /** How the surroundings behave while one message is processed. Attempts are numbered from 1. */
  datatype World = World(
    checkFails: bool,
    handlerOk: nat -> bool,
    cancelled: nat -> bool,
    dlqOk: bool,
    markFails: bool)

  /** Settings: the consumer group, whether ids are remembered, whether there is a dead-letter queue. */
  datatype Config = Config(group: string, dedupes: bool, hasDlq: bool, maxRetries: nat)

  datatype Tried = Succeeded(attempt: nat) | Exhausted | Cancelled(attempt: nat)

  /** The attempts from number k on: the first success, unless the shutdown comes before it. */
  function Tries(w: World, k: nat, max: nat): (t: Tried)
    ensures t.Succeeded? ==> k <= t.attempt <= max && w.handlerOk(t.attempt)
    decreases max - k
  {
    if k > max then Exhausted
    else if w.handlerOk(k) then Succeeded(k)
    else if k < max && w.cancelled(k) then Cancelled(k)
    else Tries(w, k + 1, max)
  }

  predicate Skips(cfg: Config, processed: set<(string, string)>, m: Message, w: World) {
    cfg.dedupes && m.eventId != "" && !w.checkFails && (cfg.group, m.eventId) in processed
  }

  predicate Parks(cfg: Config, w: World) { Tries(w, 1, cfg.maxRetries).Exhausted? && cfg.hasDlq && w.dlqOk }

  predicate Handles(cfg: Config, w: World) { Tries(w, 1, cfg.maxRetries).Succeeded? }

  /** Whether the offset is committed, and the ids remembered afterwards. */
  function Processed(cfg: Config, processed: set<(string, string)>, m: Message, w: World): (bool, set<(string,
                     string)>) {
    if Skips(cfg, processed, m, w) then (true, processed)
    else if Handles(cfg, w) || Parks(cfg, w) then
      (true, if cfg.dedupes && m.eventId != "" && !w.markFails then processed + {(cfg.group, m.eventId)} else processed)
    else (false, processed)
  }

  class Consumer {
    const cfg: Config
    var processed: set<(string, string)>
    var deadLetters: seq<Message>

    /** maxRetries is 3 unless a dead-letter queue is given with a positive number. */
    constructor (group: string, dedupes: bool, dlqRetries: Option<nat>)
      ensures processed == {} && deadLetters == []
      ensures cfg == Config(group, dedupes, dlqRetries.Some?,
        if dlqRetries.Some? && dlqRetries.value > 0 then dlqRetries.value else 3)
    {
      cfg := Config(group, dedupes, dlqRetries.Some?,
                    if dlqRetries.Some? && dlqRetries.value > 0 then dlqRetries.value else 3);
      processed, deadLetters := {}, [];
    }

    method Process(m: Message, w: World) returns (commit: bool, attempts: nat)
      requires cfg.maxRetries > 0
      modifies this
      ensures (commit, processed) == Processed(cfg, old(processed), m, w)
      ensures Skips(cfg, old(processed), m, w) ==> attempts == 0 && deadLetters == old(deadLetters)
      ensures !Skips(cfg, old(processed), m, w) ==>
        && attempts == (match Tries(w, 1, cfg.maxRetries)
                        case Succeeded(k) => k
                        case Cancelled(k) => k
                        case Exhausted => cfg.maxRetries)
        && deadLetters == old(deadLetters) + if Parks(cfg, w) then [m.(topic := "dlq." + m.topic)] else []
    {
      attempts := 0;
      if cfg.dedupes && m.eventId != "" {
        if !w.checkFails && (cfg.group, m.eventId) in processed {
          return true, 0;
        }
      }
      var failed := true;
      while failed && attempts < cfg.maxRetries
        invariant attempts <= cfg.maxRetries && processed == old(processed) && deadLetters == old(deadLetters)
        invariant failed ==> Tries(w, 1, cfg.maxRetries) == Tries(w, attempts + 1, cfg.maxRetries)
        invariant !failed ==> Tries(w, 1, cfg.maxRetries) == Succeeded(attempts)
        decreases cfg.maxRetries - attempts
      {
        attempts := attempts + 1;
        failed := !w.handlerOk(attempts);
        if failed && attempts < cfg.maxRetries && w.cancelled(attempts) {
          return false, attempts;
        }
      }
      if failed {
        if !cfg.hasDlq || !w.dlqOk {
          return false, attempts;
        }
        deadLetters := deadLetters + [m.(topic := "dlq." + m.topic)];
      }
      if cfg.dedupes && m.eventId != "" && !w.markFails {
        processed := processed + {(cfg.group, m.eventId)};
      }
      commit := true;
    }
  }

  /** The handler succeeds for the first time at attempt n exactly when the attempts end there. */
  lemma {:induction false} TriesStopsAtFirstSuccess(w: World, k: nat, max: nat, n: nat)
    requires k <= n
    ensures Tries(w, k, max) == Succeeded(n) <==>
      n <= max && w.handlerOk(n) && forall j :: k <= j < n ==> !w.handlerOk(j) && !w.cancelled(j)
    decreases max - k
  {
    if k <= max && k < n {
      if !w.handlerOk(k) && !(k < max && w.cancelled(k)) {
        TriesStopsAtFirstSuccess(w, k + 1, max, n);
      }
    }
  }

  /** A delivery of a message, and how the surroundings behave meanwhile. */
  datatype Delivery = Delivery(message: Message, world: World)

  function Remembered(cfg: Config, deliveries: seq<Delivery>): set<(string, string)> {
    if deliveries == [] then {}
    else
      var last := deliveries[|deliveries| - 1];
      Processed(cfg, Remembered(cfg, deliveries[..|deliveries| - 1]), last.message, last.world).1
  }

  /** An event is remembered, and so skipped from then on, only if some delivery of it was handled or dead-lettered. */
  lemma {:induction false} OnlyHandledEventsAreRemembered(cfg: Config, deliveries: seq<Delivery>, eventId: string)
    requires (cfg.group, eventId) in Remembered(cfg, deliveries)
    ensures exists d ::
      d in deliveries && d.message.eventId == eventId && (Handles(cfg, d.world) || Parks(cfg, d.world))
  {
    var n := |deliveries| - 1;
    if (cfg.group, eventId) in Remembered(cfg, deliveries[..n]) {
      OnlyHandledEventsAreRemembered(cfg, deliveries[..n], eventId);
    } else {
      assert deliveries[n].message.eventId == eventId && deliveries[n] in deliveries;
    }
  }

  /** All attempts fail exactly if none succeeds and no shutdown comes between two of them. */
  lemma {:induction false} TriesFailIff(w: World, k: nat, max: nat)
    ensures Tries(w, k, max).Exhausted? <==>
      forall j :: k <= j <= max ==> !w.handlerOk(j) && (j < max ==> !w.cancelled(j))
    decreases max - k
  {
    if k < max && !w.handlerOk(k) && !w.cancelled(k) {
      TriesFailIff(w, k + 1, max);
    }
  }

  /** Some attempt within the limit succeeds, with no success and no shutdown before it. */
  ghost predicate HandledAt(cfg: Config, w: World, n: nat) {
    1 <= n <= cfg.maxRetries && w.handlerOk(n) && forall j :: 1 <= j < n ==> !w.handlerOk(j) && !w.cancelled(j)
  }

  /** Every attempt failed, undisturbed, and the message went to the dead-letter queue. */
  ghost predicate DeadLettered(cfg: Config, w: World) {
    && cfg.hasDlq && w.dlqOk
    && forall j :: 1 <= j <= cfg.maxRetries ==> !w.handlerOk(j) && (j < cfg.maxRetries ==> !w.cancelled(j))
  }

  /**
   * The offset is committed exactly for a message that was handled before, as far as a working check can tell, or
   * is handled or dead-lettered now; its id is remembered then, if the group remembers ids and the mark works.
   */
  lemma {:induction false} OffsetsAreCommittedIff(cfg: Config, processed: set<(string, string)>, m: Message, w: World)
    ensures var (commit, after) := Processed(cfg, processed, m, w);
      var known := cfg.dedupes && m.eventId != "" && !w.checkFails && (cfg.group, m.eventId) in processed;
      var done := (exists n: nat :: HandledAt(cfg, w, n)) || DeadLettered(cfg, w);
      && (commit <==> known || done)
      && after == if !known && done && cfg.dedupes && m.eventId != "" && !w.markFails
           then processed + {(cfg.group, m.eventId)} else processed
  {
    TriesFailIff(w, 1, cfg.maxRetries);
    var t := Tries(w, 1, cfg.maxRetries);
    forall n: nat ensures HandledAt(cfg, w, n) <==> t == Succeeded(n) {
      if n >= 1 {
        TriesStopsAtFirstSuccess(w, 1, cfg.maxRetries, n);
      }
    }
    assert t.Succeeded? ==> HandledAt(cfg, w, t.attempt);
    hide HandledAt, Tries;
  }
}
