/**
 The worker's own steps over the shared cache, the stream and its in-flight set. Each does what one event of the
 ConnectorWorker module does to the state, or a part of it, and requires what makes that event possible.
 */
module WorkerHandlers {
  import opened Wrappers
  import opened ConnectorWorker

  class Workers {
    const config: Config
    var clock: nat
    var leases: map<TaskId, Lease>
    var outcomes: map<TaskId, Recorded>
    var delivered: map<EntryId, Deliveries>
    var pending: set<EntryId>
    var inflight: map<Claim, HandlerId>
    var handlers: map<HandlerId, Handler>
    var accepted: set<EntryId>
    var deadLettered: set<EntryId>

    ghost function View(): State
      reads this
    {
      State(clock, leases, outcomes, delivered, pending, inflight, handlers, accepted, deadLettered)
    }

    constructor (c: Config)
      ensures config == c && View() == START
    {
      config := c;
      clock, leases, outcomes, delivered := 0, map[], map[], map[];
      pending, inflight, handlers, accepted, deadLettered := {}, map[], map[], {}, {};
    }

    /** One entry of a batch, read or reclaimed: a worker already on it leaves it alone. */
    method Dispatch(worker: WorkerId, entry: EntryId, handler: HandlerId)
      requires Enabled(config, View(), Deliver(worker, entry, handler))
      modifies this
      ensures View() == Next(config, old(View()), Deliver(worker, entry, handler))
    {
      var account := Deliveries(1, clock, clock);
      if entry in delivered {
        account := Deliveries(delivered[entry].count + 1, delivered[entry].first, clock);
      }
      delivered, pending := delivered[entry := account], pending + {entry};
      if (worker, entry) in inflight {
        return;
      }
      inflight := inflight[(worker, entry) := handler];
      handlers := handlers[handler := Handler(worker, entry, account.count, clock, Claimed)];
    }

    method Leave(h: HandlerId)
      requires h in handlers
      modifies this
      ensures View() == Done(old(View()), h)
    {
      inflight := inflight - {ClaimOf(handlers[h])};
      handlers := handlers - {h};
    }

    method MoveTo(h: HandlerId, p: Phase)
      requires h in handlers
      modifies this
      ensures View() == Goto(old(View()), h, p)
    {
      handlers := handlers[h := handlers[h].(phase := p)];
    }

    method HandleEntry(h: HandlerId, acknowledged: bool)
      requires Enabled(config, View(), Handle(h, acknowledged))
      modifies this
      ensures View() == Next(config, old(View()), Handle(h, acknowledged))
    {
      var entry := handlers[h].entry;
      if entry !in config.jobs || config.jobs[entry].Malformed? {
        AckEntry(entry, acknowledged);
        Leave(h);
        return;
      }
      if config.maxDeliveries > 0 && handlers[h].deliveries > config.maxDeliveries {
        if acknowledged {
          deadLettered := deadLettered + {entry};
        }
        AckEntry(entry, acknowledged);
        Leave(h);
        return;
      }
      MoveTo(h, Lookup);
    }

    method AckEntry(entry: EntryId, acknowledged: bool)
      modifies this
      ensures View() == Settle(old(View()), entry, acknowledged)
    {
      if acknowledged {
        pending := pending - {entry};
      }
    }

    method ResendRecordedOutcome(h: HandlerId, readable: bool, otherwise: Phase)
      requires h in handlers
      modifies this
      ensures View() == AfterLook(config, old(View()), h, readable, otherwise)
    {
      if !readable {
        Leave(h);
        return;
      }
      var task := TaskOf(config, handlers[h]);
      if task in outcomes && clock < outcomes[task].expiry {
        MoveTo(h, Reporting(outcomes[task].outcome));
        return;
      }
      MoveTo(h, otherwise);
    }

    method FirstLook(h: HandlerId, readable: bool)
      requires Enabled(config, View(), Look(h, readable))
      modifies this
      ensures View() == Next(config, old(View()), Look(h, readable))
    {
      var known := PoolTimeout(config, handlers[h]).Some?;
      ResendRecordedOutcome(h, readable, if known then WaitingForSlot else Reporting(UNKNOWN_CONNECTOR_TYPE));
    }

    method TakeLease(h: HandlerId, reply: LeaseReply)
      requires Enabled(config, View(), TryLease(h, reply))
      modifies this
      ensures View() == Next(config, old(View()), TryLease(h, reply))
    {
      var task, timeout := TaskOf(config, handlers[h]), PoolTimeout(config, handlers[h]);
      if (task in leases && clock < leases[task].expiry) || timeout.None? || reply == Lost(false) {
        Leave(h);
        return;
      }
      var expiry := clock + timeout.value + LEASE_MARGIN;
      leases := leases[task := Lease(expiry, h)];
      if reply.Answered? {
        MoveTo(h, Leased(expiry));
      } else {
        Leave(h);
      }
    }

    method LookUnderLease(h: HandlerId, readable: bool)
      requires Enabled(config, View(), LookAgain(h, readable))
      modifies this
      ensures View() == Next(config, old(View()), LookAgain(h, readable))
    {
      ResendRecordedOutcome(h, readable, Cleared(handlers[h].phase.expiry));
    }

    method RecordOutcome(h: HandlerId)
      requires Enabled(config, View(), Record(h))
      modifies this
      ensures View() == Next(config, old(View()), Record(h))
    {
      var outcome := handlers[h].phase.outcome;
      outcomes := outcomes[TaskOf(config, handlers[h]) := Recorded(outcome, clock + OUTCOME_TTL, handlers[h].entry)];
      MoveTo(h, Reporting(outcome));
    }

    method ReportOutcome(h: HandlerId, taken: bool)
      requires Enabled(config, View(), Report(h, taken))
      modifies this
      ensures View() == Next(config, old(View()), Report(h, taken))
    {
      if !taken {
        Leave(h);
        return;
      }
      accepted := accepted + {handlers[h].entry};
      MoveTo(h, Acknowledging);
    }

    method AcknowledgeReported(h: HandlerId, acknowledged: bool)
      requires Enabled(config, View(), Acknowledge(h, acknowledged))
      modifies this
      ensures View() == Next(config, old(View()), Acknowledge(h, acknowledged))
    {
      AckEntry(handlers[h].entry, acknowledged);
      Leave(h);
    }
  }
}
