/**
 What a handler does with an entry, decision by decision, and where everything that workers report comes from.
 */
module WorkerOutcomes {
  import opened ConnectorWorker
  import opened Int64s
  import opened Wrappers

  // ----- what a handler has to go by -----

  predicate HasPool(c: Config, entry: EntryId) {
    IsJob(c, entry) && c.jobs[entry].poolTimeout.Some?
  }

  /** A live record of the entry's task says so. */
  predicate OnRecord(c: Config, s: State, entry: EntryId, outcome: Outcome) {
    && IsJob(c, entry) && c.jobs[entry].task in s.outcomes
    && s.clock < s.outcomes[c.jobs[entry].task].expiry && s.outcomes[c.jobs[entry].task].outcome == outcome
  }

  ghost predicate Unrecorded(c: Config, s: State, entry: EntryId) {
    forall outcome :: !OnRecord(c, s, entry, outcome)
  }

  predicate LeaseTaken(c: Config, s: State, entry: EntryId) {
    IsJob(c, entry) && c.jobs[entry].task in s.leases && s.clock < s.leases[c.jobs[entry].task].expiry
  }

  predicate OverTheCap(c: Config, x: Handler) {
    c.maxDeliveries > 0 && x.deliveries > c.maxDeliveries
  }

  /** Only readable entries get past the cap check, and only those of a known connector type to a slot and a run. */
  predicate OnItsWay(c: Config, x: Handler) {
    && (!x.phase.Claimed? ==> IsJob(c, x.entry))
    && (x.phase.WaitingForSlot? || x.phase.TakingLease? || HoldsLease(x.phase) ==> HasPool(c, x.entry))
  }

  ghost predicate AllOnTheirWay(c: Config, s: State) {
    forall h | h in s.handlers :: OnItsWay(c, s.handlers[h])
  }

  lemma RecordedOrNot(c: Config, s: State, entry: EntryId)
    requires IsJob(c, entry)
    ensures var task := c.jobs[entry].task;
      if OutcomeLive(s, task) then OnRecord(c, s, entry, s.outcomes[task].outcome) else Unrecorded(c, s, entry)
  {
  }

  lemma StepKeepsOnItsWay(c: Config, s: State, e: Event)
    requires AllOnTheirWay(c, s) && Enabled(c, s, e)
    ensures AllOnTheirWay(c, Next(c, s, e))
  {
    var t := Next(c, s, e);
    forall h | h in t.handlers ensures OnItsWay(c, t.handlers[h]) {
      if OfHandler(e) {
        var u, moves, p := HandlerStepShape(c, s, e);
        assert OnItsWay(c, s.handlers[e.handler]);
        assert h in s.handlers && OnItsWay(c, s.handlers[h]);
      } else if h in s.handlers {
        assert OnItsWay(c, s.handlers[h]);
      }
    }
  }

  lemma {:induction false} RunIsOnItsWay(c: Config, run: seq<State>, events: seq<Event>, i: nat)
    requires IsRun(c, run, events) && i < |run|
    ensures AllOnTheirWay(c, run[i])
  {
    if i > 0 {
      RunIsOnItsWay(c, run, events, i - 1);
      assert Step(c, run[i-1], events[i-1], run[i]);
      StepKeepsOnItsWay(c, run[i-1], events[i-1]);
    }
  }

  // ----- where a handler goes -----

  /** The step ends the handler: nothing to do, nothing it may do, or nothing left to do. */
  predicate Ends(c: Config, s: State, e: Event, x: Handler) {
    || (e.Handle? && (!IsJob(c, x.entry) || OverTheCap(c, x)))
    || ((e.Look? || e.LookAgain?) && !e.readable)
    || (e.GetSlot? && e.stopping)
    || (e.TryLease? && (LeaseTaken(c, s, x.entry) || !e.reply.Answered?))
    || (e.Report? && !e.taken)
    || e.Acknowledge?
  }

  /** Where the step takes a handler it does not end. */
  ghost predicate Leads(c: Config, s: State, e: Event, x: Handler, p: Phase) {
    match p
    case Claimed => false
    case Lookup => e.Handle?
    case WaitingForSlot => e.Look? && Unrecorded(c, s, x.entry) && HasPool(c, x.entry)
    case TakingLease => e.GetSlot?
    case Leased(expiry) => e.TryLease? && HasPool(c, x.entry)
                           && expiry == s.clock + c.jobs[x.entry].poolTimeout.value + 10_000_000_000
    case Cleared(expiry) => e.LookAgain? && Unrecorded(c, s, x.entry) && x.phase == Leased(expiry)
    case Running(expiry) => e.StartRun? && x.phase == Cleared(expiry)
    case Recording(expiry, outcome) => e.FinishRun? && e.outcome == outcome && x.phase == Running(expiry)
    case Reporting(outcome) =>
      || ((e.Look? || e.LookAgain?) && OnRecord(c, s, x.entry, outcome))
      || (e.Look? && Unrecorded(c, s, x.entry) && !HasPool(c, x.entry) && outcome == "unknown_connector_type")
      || (e.Record? && x.phase.Recording? && x.phase.outcome == outcome)
    case Acknowledging => e.Report?
  }

  /** The step ended the handler exactly if it had to, and otherwise took it to `p` exactly if the facts led it there. */
  ghost predicate Decided(c: Config, s: State, e: Event, h: HandlerId, t: State, p: Phase)
    requires h in s.handlers
  {
    && (h !in t.handlers <==> Ends(c, s, e, s.handlers[h]))
    && (h in t.handlers ==> t.handlers[h] == s.handlers[h].(phase := t.handlers[h].phase))
    && (h in t.handlers ==> (t.handlers[h].phase == p <==> Leads(c, s, e, s.handlers[h], p)))
  }

  lemma LookDecides(c: Config, s: State, h: HandlerId, readable: bool, p: Phase)
    requires Enabled(c, s, Look(h, readable)) && OnItsWay(c, s.handlers[h])
    ensures Decided(c, s, Look(h, readable), h, NextOfHandler(c, s, Look(h, readable)), p)
  {
    RecordedOrNot(c, s, s.handlers[h].entry);
  }

  lemma SecondLookDecides(c: Config, s: State, h: HandlerId, readable: bool, p: Phase)
    requires Enabled(c, s, LookAgain(h, readable)) && OnItsWay(c, s.handlers[h])
    ensures Decided(c, s, LookAgain(h, readable), h, NextOfHandler(c, s, LookAgain(h, readable)), p)
  {
    RecordedOrNot(c, s, s.handlers[h].entry);
  }

  lemma LeaseDecides(c: Config, s: State, h: HandlerId, reply: LeaseReply, p: Phase)
    requires Enabled(c, s, TryLease(h, reply)) && OnItsWay(c, s.handlers[h])
    ensures Decided(c, s, TryLease(h, reply), h, NextOfHandler(c, s, TryLease(h, reply)), p)
  {
  }

  lemma OthersDecide(c: Config, s: State, e: Event, p: Phase)
    requires OfHandler(e) && Enabled(c, s, e) && OnItsWay(c, s.handlers[e.handler])
    requires !e.Look? && !e.LookAgain? && !e.TryLease?
    ensures Decided(c, s, e, e.handler, NextOfHandler(c, s, e), p)
  {
  }

  /** Every decision of a handler, in every run: where it goes is exactly where the facts lead it. */
  lemma HandlerDecides(c: Config, run: seq<State>, events: seq<Event>, i: nat, p: Phase)
    requires IsRun(c, run, events) && i < |events| && OfHandler(events[i])
    ensures events[i].handler in run[i].handlers
    ensures Decided(c, run[i], events[i], events[i].handler, run[i+1], p)
  {
    assert Step(c, run[i], events[i], run[i+1]);
    RunIsOnItsWay(c, run, events, i);
    assert OnItsWay(c, run[i].handlers[events[i].handler]);
    var e := events[i];
    if e.Look? {
      LookDecides(c, run[i], e.handler, e.readable, p);
    } else if e.LookAgain? {
      SecondLookDecides(c, run[i], e.handler, e.readable, p);
    } else if e.TryLease? {
      LeaseDecides(c, run[i], e.handler, e.reply, p);
    } else {
      OthersDecide(c, run[i], e, p);
    }
  }

  // ----- what else a handler's step writes -----

  /** The entry is taken off the pending list: malformed, over the cap with its copy written, or reported and acknowledged. */
  predicate Settles(c: Config, e: Event, x: Handler) {
    || (e.Handle? && e.acknowledged && (!IsJob(c, x.entry) || OverTheCap(c, x)))
    || (e.Acknowledge? && e.acknowledged)
  }

  /** The facts a step writes beside the handlers, each with the one event that writes it. */
  predicate Writes(c: Config, s: State, e: Event, x: Handler, t: State) {
    && t.clock == s.clock && t.delivered == s.delivered
    && t.pending == (if Settles(c, e, x) then s.pending - {x.entry} else s.pending)
    && t.accepted == (if e.Report? && e.taken then s.accepted + {x.entry} else s.accepted)
    && t.deadLettered == (if e.Handle? && Settles(c, e, x) && IsJob(c, x.entry) then s.deadLettered + {x.entry} else s.deadLettered)
    && t.outcomes == (if e.Record? && x.phase.Recording? && IsJob(c, x.entry) then
                        s.outcomes[c.jobs[x.entry].task := Recorded(x.phase.outcome, s.clock + 86_400_000_000_000, x.entry)]
                      else s.outcomes)
    && t.leases == (if e.TryLease? && HasPool(c, x.entry) && !LeaseTaken(c, s, x.entry) && e.reply != Lost(false) then
                      s.leases[c.jobs[x.entry].task :=
                        Lease(s.clock + c.jobs[x.entry].poolTimeout.value + 10_000_000_000, e.handler)]
                    else s.leases)
  }

  lemma LeaseWrites(c: Config, s: State, h: HandlerId, reply: LeaseReply)
    requires Enabled(c, s, TryLease(h, reply)) && OnItsWay(c, s.handlers[h])
    ensures Writes(c, s, TryLease(h, reply), s.handlers[h], NextTryLease(c, s, h, reply))
  {
  }

  lemma HandleWrites(c: Config, s: State, h: HandlerId, acknowledged: bool)
    requires Enabled(c, s, Handle(h, acknowledged))
    ensures Writes(c, s, Handle(h, acknowledged), s.handlers[h], NextHandle(c, s, h, acknowledged))
  {
  }

  lemma RecordWrites(c: Config, s: State, h: HandlerId)
    requires Enabled(c, s, Record(h)) && OnItsWay(c, s.handlers[h])
    ensures Writes(c, s, Record(h), s.handlers[h], NextRecord(c, s, h))
  {
  }

  /** A look writes nothing, whatever it finds. */
  lemma LooksWriteNothing(c: Config, s: State, h: HandlerId, readable: bool, otherwise: Phase)
    requires h in s.handlers
    ensures var t := AfterLook(c, s, h, readable, otherwise); t == s.(handlers := t.handlers, inflight := t.inflight)
  {
    var moves, p := readable, otherwise;
    if OutcomeLive(s, TaskOf(c, s.handlers[h])) {
      p := Reporting(s.outcomes[TaskOf(c, s.handlers[h])].outcome);
    }
    assert AfterLook(c, s, h, readable, otherwise) == if moves then Goto(s, h, p) else Done(s, h);
  }

  lemma OthersWrite(c: Config, s: State, e: Event)
    requires OfHandler(e) && Enabled(c, s, e) && !e.TryLease? && !e.Handle? && !e.Record?
    ensures Writes(c, s, e, s.handlers[e.handler], NextOfHandler(c, s, e))
  {
    var h := e.handler;
    if e.Look? {
      LooksWriteNothing(c, s, h, e.readable, if PoolTimeout(c, s.handlers[h]).Some? then WaitingForSlot else Reporting(UNKNOWN_CONNECTOR_TYPE));
    } else if e.LookAgain? {
      LooksWriteNothing(c, s, h, e.readable, Cleared(s.handlers[h].phase.expiry));
    }
  }

  lemma HandlerWrites(c: Config, run: seq<State>, events: seq<Event>, i: nat)
    requires IsRun(c, run, events) && i < |events| && OfHandler(events[i])
    ensures events[i].handler in run[i].handlers
    ensures Writes(c, run[i], events[i], run[i].handlers[events[i].handler], run[i+1])
  {
    assert Step(c, run[i], events[i], run[i+1]);
    RunIsOnItsWay(c, run, events, i);
    var e := events[i];
    assert OnItsWay(c, run[i].handlers[e.handler]);
    if e.TryLease? {
      LeaseWrites(c, run[i], e.handler, e.reply);
    } else if e.Handle? {
      HandleWrites(c, run[i], e.handler, e.acknowledged);
    } else if e.Record? {
      RecordWrites(c, run[i], e.handler);
    } else {
      OthersWrite(c, run[i], e);
    }
  }

  // ----- what happens outside the handlers -----

  /** A delivery is counted, makes the entry pending, and gets a handler exactly if its worker has none on it. */
  lemma DeliveryIsCounted(c: Config, run: seq<State>, events: seq<Event>, i: nat)
    requires IsRun(c, run, events) && i < |events| && events[i].Deliver?
    ensures var s, e, t := run[i], events[i], run[i+1];
      && e.entry in t.delivered && t.pending == s.pending + {e.entry}
      && t.delivered[e.entry].count == (if e.entry in s.delivered then s.delivered[e.entry].count else 0) + 1
      && t.delivered[e.entry].last == s.clock
      && t.delivered[e.entry].first == (if e.entry in s.delivered then s.delivered[e.entry].first else s.clock)
      && (e.handler in t.handlers <==> forall h | h in s.handlers :: ClaimOf(s.handlers[h]) != (e.worker, e.entry))
      && (e.handler in t.handlers ==>
            t.handlers[e.handler] == Handler(e.worker, e.entry, t.delivered[e.entry].count, s.clock, Claimed))
      && (forall h | h in s.handlers :: h in t.handlers && t.handlers[h] == s.handlers[h])
  {
    var s, e := run[i], events[i];
    assert Step(c, s, e, run[i+1]);
    OneHandlerPerClaim(c, run, events, i, (e.worker, e.entry));
  }

  lemma StepKeepsSettled(c: Config, s: State, e: Event, entry: EntryId)
    requires Enabled(c, s, e) && entry in s.delivered && entry !in s.pending
    ensures entry in Next(c, s, e).delivered && entry !in Next(c, s, e).pending
  {
    if OfHandler(e) {
      var t := NextOfHandler(c, s, e);
      assert t.pending <= s.pending && t.delivered == s.delivered;
    }
  }

  lemma {:induction false} StaysSettled(c: Config, run: seq<State>, events: seq<Event>, i: nat, j: nat, entry: EntryId)
    requires IsRun(c, run, events) && i <= j < |run| && entry in run[i].delivered && entry !in run[i].pending
    ensures entry in run[j].delivered && entry !in run[j].pending
    decreases j
  {
    if i < j {
      StaysSettled(c, run, events, i, j - 1, entry);
      assert Step(c, run[j-1], events[j-1], run[j]);
      StepKeepsSettled(c, run[j-1], events[j-1], entry);
    }
  }

  /** An entry that has left the pending list is never delivered again. */
  lemma SettledNeverReturns(c: Config, run: seq<State>, events: seq<Event>, i: nat, j: nat, entry: EntryId)
    requires IsRun(c, run, events) && i <= j < |events| && entry in run[i].delivered && entry !in run[i].pending
    ensures !(events[j].Deliver? && events[j].entry == entry)
  {
    StaysSettled(c, run, events, i, j, entry);
    assert Step(c, run[j], events[j], run[j+1]);
  }

  /** A crash takes away its worker's handlers, with their claims, and nothing else. */
  lemma CrashTakesOneWorker(c: Config, run: seq<State>, events: seq<Event>, i: nat)
    requires IsRun(c, run, events) && i < |events| && events[i].Crash?
    ensures var s, t := run[i], run[i+1];
      && t == s.(handlers := t.handlers, inflight := t.inflight)
      && (forall h :: h in t.handlers <==> h in s.handlers && s.handlers[h].worker != events[i].worker)
      && (forall h | h in t.handlers :: t.handlers[h] == s.handlers[h])
  {
    assert Step(c, run[i], events[i], run[i+1]);
  }

  lemma TickMovesTheClock(c: Config, run: seq<State>, events: seq<Event>, i: nat)
    requires IsRun(c, run, events) && i < |events| && events[i].Tick?
    ensures run[i+1] == run[i].(clock := events[i].now)
  {
    assert Step(c, run[i], events[i], run[i+1]);
  }

  // ----- where reports come from -----

  /** The same handler all along: a handler id is given out again only after its handler is gone. */
  ghost predicate ThereSince(run: seq<State>, h: HandlerId, j: nat, i: nat) {
    j <= i < |run| && forall k | j <= k <= i :: h in run[k].handlers
  }

  lemma ThereOneStepLonger(run: seq<State>, h: HandlerId, j: nat, i: nat)
    requires 0 < i < |run| && ThereSince(run, h, j, i - 1) && h in run[i].handlers
    ensures ThereSince(run, h, j, i)
  {
  }

  lemma ThereBothTimes(run: seq<State>, h: HandlerId, i: nat)
    requires i + 1 < |run| && h in run[i].handlers && h in run[i+1].handlers
    ensures ThereSince(run, h, i, i + 1)
  {
  }

  /** A run of the handler, at step `j`, returned the outcome. */
  ghost predicate RanFor(run: seq<State>, events: seq<Event>, h: HandlerId, outcome: Outcome, j: nat, i: nat) {
    j < |events| && j < i && events[j] == FinishRun(h, outcome) && ThereSince(run, h, j, i)
  }

  /** The phase changes only by the handler's own step. */
  lemma PhaseIsItsOwn(c: Config, run: seq<State>, events: seq<Event>, i: nat, h: HandlerId)
    requires IsRun(c, run, events) && i < |events| && h in run[i+1].handlers
    requires run[i+1].handlers[h].phase != Claimed && !(OfHandler(events[i]) && events[i].handler == h)
    ensures h in run[i].handlers && run[i].handlers[h] == run[i+1].handlers[h]
  {
    assert Step(c, run[i], events[i], run[i+1]);
    if OfHandler(events[i]) {
      var u, moves, p := HandlerStepShape(c, run[i], events[i]);
    }
  }

  lemma RecordingStarts(c: Config, run: seq<State>, events: seq<Event>, i: nat, h: HandlerId)
    requires IsRun(c, run, events) && i < |events| && OfHandler(events[i]) && events[i].handler == h
    requires h in run[i+1].handlers && run[i+1].handlers[h].phase.Recording?
    ensures h in run[i].handlers && events[i] == FinishRun(h, run[i+1].handlers[h].phase.outcome)
  {
    HandlerDecides(c, run, events, i, run[i+1].handlers[h].phase);
  }

  lemma {:induction false} RecordingComesFromARun(c: Config, run: seq<State>, events: seq<Event>, i: nat, h: HandlerId) returns (j: nat)
    requires IsRun(c, run, events) && i < |run| && h in run[i].handlers && run[i].handlers[h].phase.Recording?
    ensures RanFor(run, events, h, run[i].handlers[h].phase.outcome, j, i)
  {
    if OfHandler(events[i-1]) && events[i-1].handler == h {
      RecordingStarts(c, run, events, i - 1, h);
      j := i - 1;
      ThereBothTimes(run, h, i - 1);
    } else {
      PhaseIsItsOwn(c, run, events, i - 1, h);
      j := RecordingComesFromARun(c, run, events, i - 1, h);
      ThereOneStepLonger(run, h, j, i);
    }
  }

  /** A handler of the task ran it and got the outcome. */
  ghost predicate SomeRunReturned(c: Config, run: seq<State>, events: seq<Event>, task: TaskId, outcome: Outcome, i: nat) {
    exists j: nat, g :: ReturnedAt(c, run, events, task, outcome, j, g, i)
  }

  ghost predicate ReturnedAt(c: Config, run: seq<State>, events: seq<Event>, task: TaskId, outcome: Outcome, j: nat, g: HandlerId, i: nat) {
    && j < |events| && j < i && j < |run| && events[j] == FinishRun(g, outcome)
    && g in run[j].handlers && IsJob(c, run[j].handlers[g].entry) && c.jobs[run[j].handlers[g].entry].task == task
  }

  lemma {:induction false} SameEntrySince(c: Config, run: seq<State>, events: seq<Event>, h: HandlerId, j: nat, i: nat)
    requires IsRun(c, run, events) && ThereSince(run, h, j, i)
    ensures run[j].handlers[h].entry == run[i].handlers[h].entry
    decreases i
  {
    if j < i {
      SameEntrySince(c, run, events, h, j, i - 1);
      assert Step(c, run[i-1], events[i-1], run[i]);
      if OfHandler(events[i-1]) {
        var u, moves, p := HandlerStepShape(c, run[i-1], events[i-1]);
      }
    }
  }

  lemma ReturnedEarlier(c: Config, run: seq<State>, events: seq<Event>, task: TaskId, outcome: Outcome, k: nat, i: nat)
    requires SomeRunReturned(c, run, events, task, outcome, k) && k <= i
    ensures SomeRunReturned(c, run, events, task, outcome, i)
  {
    var j: nat, g :| ReturnedAt(c, run, events, task, outcome, j, g, k);
    assert ReturnedAt(c, run, events, task, outcome, j, g, i);
  }

  /** Whatever is on record for a task is what a run of it returned. */
  lemma {:induction false} RecordComesFromARun(c: Config, run: seq<State>, events: seq<Event>, i: nat, task: TaskId)
    requires IsRun(c, run, events) && i < |run| && task in run[i].outcomes
    ensures SomeRunReturned(c, run, events, task, run[i].outcomes[task].outcome, i)
  {
    var e := events[i-1];
    assert Step(c, run[i-1], e, run[i]);
    if task in run[i-1].outcomes && run[i-1].outcomes[task] == run[i].outcomes[task] {
      RecordComesFromARun(c, run, events, i - 1, task);
      ReturnedEarlier(c, run, events, task, run[i].outcomes[task].outcome, i - 1, i);
    } else {
      HandlerWrites(c, run, events, i - 1);
      var h := e.handler;
      var j := RecordingComesFromARun(c, run, events, i - 1, h);
      SameEntrySince(c, run, events, h, j, i - 1);
      assert ReturnedAt(c, run, events, task, run[i].outcomes[task].outcome, j, h, i);
    }
  }

  /** Where an outcome a handler reports may come from. */
  ghost predicate HasASource(c: Config, run: seq<State>, events: seq<Event>, entry: EntryId, outcome: Outcome, i: nat) {
    && IsJob(c, entry)
    && (SomeRunReturned(c, run, events, c.jobs[entry].task, outcome, i)
        || (outcome == "unknown_connector_type" && c.jobs[entry].poolTimeout.None?))
  }

  /** What a handler's own step has it report is its own run's outcome, one on record, or that it has no pool. */
  lemma ReportStarts(c: Config, run: seq<State>, events: seq<Event>, i: nat, h: HandlerId)
    requires IsRun(c, run, events) && i < |events| && OfHandler(events[i]) && events[i].handler == h
    requires h in run[i+1].handlers && run[i+1].handlers[h].phase.Reporting?
    ensures HasASource(c, run, events, run[i+1].handlers[h].entry, run[i+1].handlers[h].phase.outcome, i + 1)
  {
    var x := run[i+1].handlers[h];
    HandlerDecides(c, run, events, i, x.phase);
    RunIsOnItsWay(c, run, events, i + 1);
    assert OnItsWay(c, x);
    var task := c.jobs[x.entry].task;
    if events[i].Record? {
      var j := RecordingComesFromARun(c, run, events, i, h);
      SameEntrySince(c, run, events, h, j, i);
      assert ReturnedAt(c, run, events, task, x.phase.outcome, j, h, i + 1);
    } else if OnRecord(c, run[i], x.entry, x.phase.outcome) {
      RecordComesFromARun(c, run, events, i, task);
      ReturnedEarlier(c, run, events, task, x.phase.outcome, i, i + 1);
    }
  }

  /** Nothing else is ever reported: what a run of the task returned, or that its connector type is unknown. */
  lemma {:induction false} ReportsComeFromRuns(c: Config, run: seq<State>, events: seq<Event>, i: nat, h: HandlerId)
    requires IsRun(c, run, events) && i < |run| && h in run[i].handlers && run[i].handlers[h].phase.Reporting?
    ensures HasASource(c, run, events, run[i].handlers[h].entry, run[i].handlers[h].phase.outcome, i)
  {
    if OfHandler(events[i-1]) && events[i-1].handler == h {
      ReportStarts(c, run, events, i - 1, h);
    } else {
      PhaseIsItsOwn(c, run, events, i - 1, h);
      ReportsComeFromRuns(c, run, events, i - 1, h);
      var entry, outcome := run[i].handlers[h].entry, run[i].handlers[h].phase.outcome;
      if SomeRunReturned(c, run, events, c.jobs[entry].task, outcome, i - 1) {
        ReturnedEarlier(c, run, events, c.jobs[entry].task, outcome, i - 1, i);
      }
    }
  }

  /** A handler's own step takes the lease, or keeps the one it had. */
  lemma LeaseStep(c: Config, run: seq<State>, events: seq<Event>, i: nat, h: HandlerId)
    requires IsRun(c, run, events) && i < |events| && OfHandler(events[i]) && events[i].handler == h
    requires h in run[i+1].handlers && HoldsLease(run[i+1].handlers[h].phase)
    ensures h in run[i].handlers && HasPool(c, run[i].handlers[h].entry) && run[i+1].handlers[h].entry == run[i].handlers[h].entry
    ensures var expiry := run[i+1].handlers[h].phase.expiry;
      if events[i].TryLease? then
        events[i].reply.Answered? && expiry == run[i].clock + c.jobs[run[i].handlers[h].entry].poolTimeout.value + 10_000_000_000
      else HoldsLease(run[i].handlers[h].phase) && run[i].handlers[h].phase.expiry == expiry
  {
    HandlerDecides(c, run, events, i, run[i+1].handlers[h].phase);
    RunIsOnItsWay(c, run, events, i + 1);
    assert OnItsWay(c, run[i+1].handlers[h]);
  }

  /** The handler took the lease it holds at step `j`, for the pool's timeout and ten seconds more. */
  ghost predicate TookItsLease(c: Config, run: seq<State>, events: seq<Event>, h: HandlerId, j: nat, i: nat) {
    && j < |events| && j < i && events[j] == TryLease(h, Answered) && ThereSince(run, h, j, i)
    && HasPool(c, run[i].handlers[h].entry) && HoldsLease(run[i].handlers[h].phase)
    && run[i].handlers[h].phase.expiry == run[j].clock + c.jobs[run[i].handlers[h].entry].poolTimeout.value + 10_000_000_000
  }

  lemma LeaseKept(c: Config, run: seq<State>, events: seq<Event>, h: HandlerId, j: nat, i: nat)
    requires 0 < i < |run| && TookItsLease(c, run, events, h, j, i - 1)
    requires h in run[i].handlers && run[i].handlers[h].entry == run[i-1].handlers[h].entry
    requires HoldsLease(run[i].handlers[h].phase) && run[i].handlers[h].phase.expiry == run[i-1].handlers[h].phase.expiry
    ensures TookItsLease(c, run, events, h, j, i)
  {
    ThereOneStepLonger(run, h, j, i);
  }

  lemma LeaseStarts(c: Config, run: seq<State>, events: seq<Event>, i: nat, h: HandlerId)
    requires IsRun(c, run, events) && i < |events| && events[i].TryLease? && events[i].handler == h
    requires h in run[i+1].handlers && HoldsLease(run[i+1].handlers[h].phase)
    ensures TookItsLease(c, run, events, h, i, i + 1)
  {
    LeaseStep(c, run, events, i, h);
    ThereBothTimes(run, h, i);
  }

  lemma LeaseHeldBefore(c: Config, run: seq<State>, events: seq<Event>, i: nat, h: HandlerId)
    requires IsRun(c, run, events) && i < |events| && !(events[i].TryLease? && events[i].handler == h)
    requires h in run[i+1].handlers && HoldsLease(run[i+1].handlers[h].phase)
    ensures h in run[i].handlers && run[i].handlers[h].entry == run[i+1].handlers[h].entry
    ensures HoldsLease(run[i].handlers[h].phase) && run[i].handlers[h].phase.expiry == run[i+1].handlers[h].phase.expiry
  {
    if OfHandler(events[i]) && events[i].handler == h {
      LeaseStep(c, run, events, i, h);
    } else {
      PhaseIsItsOwn(c, run, events, i, h);
    }
  }

  /** A handler that holds a lease took it itself, for the pool's timeout and ten seconds more. */
  lemma {:induction false} LeaseCoversTheRun(c: Config, run: seq<State>, events: seq<Event>, i: nat, h: HandlerId) returns (j: nat)
    requires IsRun(c, run, events) && i < |run| && h in run[i].handlers && HoldsLease(run[i].handlers[h].phase)
    ensures TookItsLease(c, run, events, h, j, i)
  {
    if events[i-1].TryLease? && events[i-1].handler == h {
      j := i - 1;
      LeaseStarts(c, run, events, j, h);
    } else {
      LeaseHeldBefore(c, run, events, i - 1, h);
      j := LeaseCoversTheRun(c, run, events, i - 1, h);
      LeaseKept(c, run, events, h, j, i);
    }
  }

  // ----- a job that nothing stands in the way of -----

  predicate Takes(c: Config, s: State, e: Event, t: State) {
    Enabled(c, s, e) && t == Next(c, s, e)
  }

  /** A job of a known connector type, with no outcome on record and no lease taken, gets its slot and its lease, and runs. */
  lemma FreshJobRuns(c: Config, s: State, h: HandlerId) returns (slot: State, taking: State, leased: State, cleared: State, t: State)
    requires h in s.handlers && s.handlers[h].phase == Lookup && HasPool(c, s.handlers[h].entry)
    requires Unrecorded(c, s, s.handlers[h].entry) && !LeaseTaken(c, s, s.handlers[h].entry)
    ensures Takes(c, s, Look(h, true), slot) && Takes(c, slot, GetSlot(h, false), taking)
    ensures Takes(c, taking, TryLease(h, Answered), leased)
    ensures Takes(c, leased, LookAgain(h, true), cleared) && Takes(c, cleared, StartRun(h), t)
    ensures h in t.handlers && t.handlers[h].phase.Running?
  {
    RecordedOrNot(c, s, s.handlers[h].entry);
    slot := Next(c, s, Look(h, true));
    assert slot == Goto(s, h, WaitingForSlot);
    taking := Next(c, slot, GetSlot(h, false));
    assert taking == Goto(slot, h, TakingLease);
    leased := Next(c, taking, TryLease(h, Answered));
    assert leased.outcomes == s.outcomes && leased.handlers[h].phase.Leased?;
    cleared := Next(c, leased, LookAgain(h, true));
    t := Next(c, cleared, StartRun(h));
  }

  /** A finished run is recorded, reported and acknowledged: its entry is off the list, its claim and its handler gone. */
  lemma FinishedRunIsSettled(c: Config, s: State, h: HandlerId, outcome: Outcome)
    returns (finished: State, recorded: State, reported: State, t: State)
    requires h in s.handlers && s.handlers[h].phase.Running? && HasPool(c, s.handlers[h].entry)
    ensures Takes(c, s, FinishRun(h, outcome), finished) && Takes(c, finished, Record(h), recorded)
    ensures Takes(c, recorded, Report(h, true), reported) && Takes(c, reported, Acknowledge(h, true), t)
    ensures var x := s.handlers[h];
      && h !in t.handlers && ClaimOf(x) !in t.inflight
      && x.entry in t.accepted && x.entry !in t.pending && OnRecord(c, t, x.entry, outcome)
  {
    finished := Next(c, s, FinishRun(h, outcome));
    recorded := Next(c, finished, Record(h));
    reported := Next(c, recorded, Report(h, true));
    t := Next(c, reported, Acknowledge(h, true));
  }
}
