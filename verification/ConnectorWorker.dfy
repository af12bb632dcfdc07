/**
 Connector workers over one stream and one cache: any number of workers, deliveries, redeliveries, duplicate
 entries and crashes, one step of one handler at a time.
 */
module ConnectorWorker {
  import opened Int64s
  import opened Wrappers

  type WorkerId = nat
  type EntryId = string
  type TaskId = string
  type HandlerId = nat
  type Outcome = string

  const OUTCOME_TTL: nat := 24 * HOUR
  const LEASE_MARGIN: nat := 10 * SECOND
  const UNKNOWN_CONNECTOR_TYPE: Outcome := "unknown_connector_type"

  /** What an entry says: nothing readable, or its task and, for a known connector type, the pool's timeout. */
  datatype Job = Malformed | Job(task: TaskId, poolTimeout: Option<nat>)

  /** The holder is the model's own note; the cache key only says that the lease is taken. */
  datatype Lease = Lease(expiry: nat, holder: HandlerId)

  /** `via` notes the entry whose handler recorded it. */
  datatype Recorded = Recorded(outcome: Outcome, expiry: nat, via: EntryId)

  /** The stream's own account of an entry: deliveries so far, and when the first and the last were made. */
  datatype Deliveries = Deliveries(count: nat, first: nat, last: nat)

  /** Where a handler stands; each phase is left by one call to the cache, the stream, the connector or the callback. */
  datatype Phase =
    | Claimed
    | Lookup
    | WaitingForSlot
    | TakingLease
    | Leased(expiry: nat)
    | Cleared(expiry: nat)
    | Running(expiry: nat)
    | Recording(expiry: nat, outcome: Outcome)
    | Reporting(outcome: Outcome)
    | Acknowledging

  /** `since` notes when the entry was delivered to this handler. */
  datatype Handler = Handler(worker: WorkerId, entry: EntryId, deliveries: nat, since: nat, phase: Phase)

  type Claim = (WorkerId, EntryId)

  /** `inflight` notes which handler made each claim; the worker itself keeps only the entry ids. */
  datatype State = State(
    clock: nat,
    leases: map<TaskId, Lease>,
    outcomes: map<TaskId, Recorded>,
    delivered: map<EntryId, Deliveries>,
    pending: set<EntryId>,
    inflight: map<Claim, HandlerId>,
    handlers: map<HandlerId, Handler>,
    accepted: set<EntryId>,
    deadLettered: set<EntryId>
  )

  const START := State(0, map[], map[], map[], {}, map[], map[], {}, {})

  /** The stream's contents and the delivery cap, fixed for a run. */
  datatype Config = Config(jobs: map<EntryId, Job>, maxDeliveries: nat)

  /** The cache answers, or its answer is lost whether or not the key was written. */
  datatype LeaseReply = Answered | Lost(written: bool)

  datatype Event =
    | Tick(now: nat)
    | Deliver(worker: WorkerId, entry: EntryId, handler: HandlerId)
    | Handle(handler: HandlerId, acknowledged: bool)
    | Look(handler: HandlerId, readable: bool)
    | GetSlot(handler: HandlerId, stopping: bool)
    | TryLease(handler: HandlerId, reply: LeaseReply)
    | LookAgain(handler: HandlerId, readable: bool)
    | StartRun(handler: HandlerId)
    | FinishRun(handler: HandlerId, outcome: Outcome)
    | Record(handler: HandlerId)
    | Report(handler: HandlerId, taken: bool)
    | Acknowledge(handler: HandlerId, acknowledged: bool)
    | Crash(worker: WorkerId)

  predicate HoldsLease(p: Phase) {
    p.Leased? || p.Cleared? || p.Running? || p.Recording?
  }

  predicate LeaseLive(s: State, task: TaskId) {
    task in s.leases && s.clock < s.leases[task].expiry
  }

  predicate OutcomeLive(s: State, task: TaskId) {
    task in s.outcomes && s.clock < s.outcomes[task].expiry
  }

  function ClaimOf(h: Handler): Claim {
    (h.worker, h.entry)
  }

  /** The entry says something readable. */
  predicate IsJob(c: Config, entry: EntryId) {
    entry in c.jobs && c.jobs[entry].Job?
  }

  function TaskOf(c: Config, h: Handler): TaskId {
    if h.entry in c.jobs && c.jobs[h.entry].Job? then c.jobs[h.entry].task else ""
  }

  function PoolTimeout(c: Config, h: Handler): Option<nat> {
    if h.entry in c.jobs && c.jobs[h.entry].Job? then c.jobs[h.entry].poolTimeout else None
  }

  /** Which phase the event leaves; none for those that are not a handler's own. */
  predicate Leaves(e: Event, p: Phase) {
    match e
    case Handle(_, _) => p.Claimed?
    case Look(_, _) => p.Lookup?
    case GetSlot(_, _) => p.WaitingForSlot?
    case TryLease(_, _) => p.TakingLease?
    case LookAgain(_, _) => p.Leased?
    case StartRun(_) => p.Cleared?
    case FinishRun(_, _) => p.Running?
    case Record(_) => p.Recording?
    case Report(_, _) => p.Reporting?
    case Acknowledge(_, _) => p.Acknowledging?
    case _ => false
  }

  predicate OfHandler(e: Event) {
    !e.Tick? && !e.Deliver? && !e.Crash?
  }

  predicate Enabled(c: Config, s: State, e: Event) {
    && (e.Tick? ==> s.clock <= e.now)
    && (e.Deliver? ==> e.entry in c.jobs && e.handler !in s.handlers && (e.entry in s.delivered ==> e.entry in s.pending))
    && (OfHandler(e) ==> e.handler in s.handlers && Leaves(e, s.handlers[e.handler].phase))
  }

  /** A run that survives records its outcome before the lease it took runs out: pool timeout plus margin from taking it. */
  ghost predicate InTime(s: State, e: Event) {
    e.Tick? ==> forall h | h in s.handlers && HoldsLease(s.handlers[h].phase) :: e.now < s.handlers[h].phase.expiry
  }

  /** The handler is done: its entry leaves the worker's in-flight set with it. */
  function Done(s: State, h: HandlerId): State
    requires h in s.handlers
  {
    s.(handlers := s.handlers - {h}, inflight := s.inflight - {ClaimOf(s.handlers[h])})
  }

  function Goto(s: State, h: HandlerId, p: Phase): State
    requires h in s.handlers
  {
    s.(handlers := s.handlers[h := s.handlers[h].(phase := p)])
  }

  function Settle(s: State, entry: EntryId, acknowledged: bool): State {
    if acknowledged then s.(pending := s.pending - {entry}) else s
  }

  /** A read of the recorded outcome: unreadable leaves the entry pending, a live one is resent. */
  function AfterLook(c: Config, s: State, h: HandlerId, readable: bool, otherwise: Phase): State
    requires h in s.handlers
  {
    var task := TaskOf(c, s.handlers[h]);
    if !readable then Done(s, h)
    else if OutcomeLive(s, task) then Goto(s, h, Reporting(s.outcomes[task].outcome))
    else Goto(s, h, otherwise)
  }

  function NextHandle(c: Config, s: State, h: HandlerId, acknowledged: bool): State
    requires h in s.handlers
  {
    var entry := s.handlers[h].entry;
    if entry !in c.jobs || c.jobs[entry].Malformed? then
      Done(Settle(s, entry, acknowledged), h)
    else if c.maxDeliveries > 0 && s.handlers[h].deliveries > c.maxDeliveries then
      Done(if acknowledged then Settle(s, entry, true).(deadLettered := s.deadLettered + {entry}) else s, h)
    else Goto(s, h, Lookup)
  }

  function WithLease(c: Config, s: State, h: HandlerId): State
    requires h in s.handlers && PoolTimeout(c, s.handlers[h]).Some?
  {
    s.(leases := s.leases[TaskOf(c, s.handlers[h]) := Lease(s.clock + PoolTimeout(c, s.handlers[h]).value + LEASE_MARGIN, h)])
  }

  /** Set-if-absent on the lease key. */
  function NextTryLease(c: Config, s: State, h: HandlerId, reply: LeaseReply): State
    requires h in s.handlers
  {
    var timeout := PoolTimeout(c, s.handlers[h]);
    if LeaseLive(s, TaskOf(c, s.handlers[h])) || timeout.None? || reply == Lost(false) then Done(s, h)
    else if reply == Lost(true) then Done(WithLease(c, s, h), h)
    else Goto(WithLease(c, s, h), h, Leased(s.clock + timeout.value + LEASE_MARGIN))
  }

  function WithRecord(c: Config, s: State, h: HandlerId, outcome: Outcome): State
    requires h in s.handlers
  {
    s.(outcomes := s.outcomes[TaskOf(c, s.handlers[h]) := Recorded(outcome, s.clock + OUTCOME_TTL, s.handlers[h].entry)])
  }

  function NextRecord(c: Config, s: State, h: HandlerId): State
    requires h in s.handlers && s.handlers[h].phase.Recording?
  {
    var outcome := s.handlers[h].phase.outcome;
    Goto(WithRecord(c, s, h, outcome), h, Reporting(outcome))
  }

  function NextOfHandler(c: Config, s: State, e: Event): State
    requires OfHandler(e) && Enabled(c, s, e)
  {
    var h := e.handler;
    if e.Handle? then NextHandle(c, s, h, e.acknowledged)
    else if e.Look? then
      AfterLook(c, s, h, e.readable, if PoolTimeout(c, s.handlers[h]).Some? then WaitingForSlot else Reporting(UNKNOWN_CONNECTOR_TYPE))
    else if e.GetSlot? then if e.stopping then Done(s, h) else Goto(s, h, TakingLease)
    else if e.TryLease? then NextTryLease(c, s, h, e.reply)
    else if e.LookAgain? then AfterLook(c, s, h, e.readable, Cleared(s.handlers[h].phase.expiry))
    else if e.StartRun? then Goto(s, h, Running(s.handlers[h].phase.expiry))
    else if e.FinishRun? then Goto(s, h, Recording(s.handlers[h].phase.expiry, e.outcome))
    else if e.Record? then NextRecord(c, s, h)
    else if e.Report? then
      if e.taken then Goto(s.(accepted := s.accepted + {s.handlers[h].entry}), h, Acknowledging) else Done(s, h)
    else Done(Settle(s, s.handlers[h].entry, e.acknowledged), h)
  }

  function NextDelivery(s: State, entry: EntryId): Deliveries {
    if entry in s.delivered then Deliveries(s.delivered[entry].count + 1, s.delivered[entry].first, s.clock)
    else Deliveries(1, s.clock, s.clock)
  }

  function NextDeliver(s: State, worker: WorkerId, entry: EntryId, handler: HandlerId): State {
    var account := NextDelivery(s, entry);
    var t := s.(delivered := s.delivered[entry := account], pending := s.pending + {entry});
    if (worker, entry) in s.inflight then t
    else
      t.(inflight := s.inflight[(worker, entry) := handler],
         handlers := s.handlers[handler := Handler(worker, entry, account.count, s.clock, Claimed)])
  }

  function NextCrash(s: State, worker: WorkerId): State {
    s.(handlers := map h | h in s.handlers && s.handlers[h].worker != worker :: s.handlers[h],
       inflight := map claim | claim in s.inflight && claim.0 != worker :: s.inflight[claim])
  }

  function Next(c: Config, s: State, e: Event): State
    requires Enabled(c, s, e)
  {
    if e.Tick? then s.(clock := e.now)
    else if e.Deliver? then NextDeliver(s, e.worker, e.entry, e.handler)
    else if e.Crash? then NextCrash(s, e.worker)
    else NextOfHandler(c, s, e)
  }

  ghost predicate Step(c: Config, s: State, e: Event, t: State) {
    Enabled(c, s, e) && InTime(s, e) && t == Next(c, s, e)
  }

  ghost predicate IsRun(c: Config, run: seq<State>, events: seq<Event>) {
    && |run| == |events| + 1 && run[0] == START
    && forall i | 0 <= i < |events| :: Step(c, run[i], events[i], run[i+1])
  }

  // ----- one run of a task at a time, and none after a recorded outcome -----

  /** Between taking the lease and recording, the lease is this handler's and still live; once cleared, no outcome is recorded. */
  predicate Secure(c: Config, s: State, h: HandlerId)
    requires h in s.handlers
  {
    var p, task := s.handlers[h].phase, TaskOf(c, s.handlers[h]);
    && (HoldsLease(p) ==> task in s.leases && s.leases[task] == Lease(p.expiry, h) && s.clock < p.expiry)
    && (p.Cleared? || p.Running? ==> !OutcomeLive(s, task))
  }

  ghost predicate AllSecure(c: Config, s: State) {
    forall h | h in s.handlers :: Secure(c, s, h)
  }

  /** Two handlers past the lease for one task are the same handler. */
  lemma OneHolder(c: Config, s: State, g: HandlerId, h: HandlerId)
    requires AllSecure(c, s) && g in s.handlers && h in s.handlers
    requires HoldsLease(s.handlers[g].phase) && HoldsLease(s.handlers[h].phase)
    requires TaskOf(c, s.handlers[g]) == TaskOf(c, s.handlers[h])
    ensures g == h
  {
    assert Secure(c, s, g) && Secure(c, s, h);
  }

  lemma TryLeaseKeepsSecure(c: Config, s: State, g: HandlerId, reply: LeaseReply, h: HandlerId)
    requires g in s.handlers && h in s.handlers && Secure(c, s, h) && s.handlers[g].phase.TakingLease?
    requires h in NextTryLease(c, s, g, reply).handlers
    ensures Secure(c, NextTryLease(c, s, g, reply), h)
  {
    if h != g && HoldsLease(s.handlers[h].phase) && TaskOf(c, s.handlers[h]) == TaskOf(c, s.handlers[g]) {
      assert LeaseLive(s, TaskOf(c, s.handlers[g]));
    }
  }

  lemma RecordKeepsSecure(c: Config, s: State, g: HandlerId, h: HandlerId)
    requires AllSecure(c, s) && g in s.handlers && h in s.handlers && s.handlers[g].phase.Recording?
    requires h in NextRecord(c, s, g).handlers
    ensures Secure(c, NextRecord(c, s, g), h)
  {
    assert Secure(c, s, h) && Secure(c, s, g);
  }

  predicate SameStore(s: State, u: State) {
    u.handlers == s.handlers && u.leases == s.leases && u.outcomes == s.outcomes && u.clock == s.clock
  }

  /** A handler's step writes outside the handlers first, then either moves on or ends. */
  lemma HandlerStepShape(c: Config, s: State, e: Event) returns (u: State, moves: bool, p: Phase)
    requires OfHandler(e) && Enabled(c, s, e)
    ensures u.handlers == s.handlers && u.inflight == s.inflight && u.clock == s.clock && s.accepted <= u.accepted
    ensures !e.TryLease? && !e.Record? ==> u.leases == s.leases && u.outcomes == s.outcomes
    ensures NextOfHandler(c, s, e) == if moves then Goto(u, e.handler, p) else Done(u, e.handler)
    ensures p.Acknowledging? ==> s.handlers[e.handler].entry in u.accepted
    ensures e.Handle? || e.GetSlot? || e.Report? || e.Acknowledge? ==> !HoldsLease(p)
    ensures moves ==> (p.Cleared? ==> e.LookAgain?) && (p.Running? ==> e.StartRun?) && (p.Recording? ==> e.FinishRun?)
  {
    var h := e.handler;
    var entry := s.handlers[h].entry;
    u, moves, p := s, false, Claimed;
    if e.Handle? {
      u, moves, p := HandleShape(c, s, h, e.acknowledged);
    } else if e.Look? {
      moves, p := AfterLookShape(c, s, h, e.readable,
        if PoolTimeout(c, s.handlers[h]).Some? then WaitingForSlot else Reporting(UNKNOWN_CONNECTOR_TYPE));
    } else if e.GetSlot? {
      moves, p := !e.stopping, TakingLease;
    } else if e.TryLease? {
      u, moves, p := TryLeaseShape(c, s, h, e.reply);
    } else if e.LookAgain? {
      moves, p := AfterLookShape(c, s, h, e.readable, Cleared(s.handlers[h].phase.expiry));
    } else if e.StartRun? {
      moves, p := true, Running(s.handlers[h].phase.expiry);
    } else if e.FinishRun? {
      moves, p := true, Recording(s.handlers[h].phase.expiry, e.outcome);
    } else if e.Record? {
      var outcome := s.handlers[h].phase.outcome;
      u, moves, p := WithRecord(c, s, h, outcome), true, Reporting(outcome);
    } else if e.Report? && e.taken {
      u, moves, p := s.(accepted := s.accepted + {entry}), true, Acknowledging;
    } else if e.Acknowledge? {
      u := Settle(s, entry, e.acknowledged);
    }
  }

  lemma HandleShape(c: Config, s: State, h: HandlerId, acknowledged: bool) returns (u: State, moves: bool, p: Phase)
    requires h in s.handlers
    ensures SameStore(s, u) && u.inflight == s.inflight && s.accepted <= u.accepted && (p.Claimed? || p.Lookup?)
    ensures NextHandle(c, s, h, acknowledged) == if moves then Goto(u, h, p) else Done(u, h)
  {
    var entry := s.handlers[h].entry;
    u, moves, p := s, false, Claimed;
    if entry !in c.jobs || c.jobs[entry].Malformed? {
      u := Settle(s, entry, acknowledged);
    } else if c.maxDeliveries > 0 && s.handlers[h].deliveries > c.maxDeliveries {
      if acknowledged {
        u := Settle(s, entry, true).(deadLettered := s.deadLettered + {entry});
      }
    } else {
      moves, p := true, Lookup;
    }
  }

  lemma AfterLookShape(c: Config, s: State, h: HandlerId, readable: bool, otherwise: Phase) returns (moves: bool, p: Phase)
    requires h in s.handlers && !otherwise.Acknowledging?
    ensures !p.Acknowledging? && (p == otherwise || p.Reporting?)
    ensures AfterLook(c, s, h, readable, otherwise) == if moves then Goto(s, h, p) else Done(s, h)
  {
    moves, p := readable, otherwise;
    if OutcomeLive(s, TaskOf(c, s.handlers[h])) {
      p := Reporting(s.outcomes[TaskOf(c, s.handlers[h])].outcome);
    }
  }

  lemma TryLeaseShape(c: Config, s: State, h: HandlerId, reply: LeaseReply) returns (u: State, moves: bool, p: Phase)
    requires h in s.handlers
    ensures u.handlers == s.handlers && u.inflight == s.inflight && u.clock == s.clock && s.accepted <= u.accepted
    ensures p.Claimed? || p.Leased?
    ensures NextTryLease(c, s, h, reply) == if moves then Goto(u, h, p) else Done(u, h)
  {
    var timeout := PoolTimeout(c, s.handlers[h]);
    u, moves, p := s, false, Claimed;
    if !LeaseLive(s, TaskOf(c, s.handlers[h])) && timeout.Some? && reply != Lost(false) {
      u := WithLease(c, s, h);
      if reply.Answered? {
        moves, p := true, Leased(s.clock + timeout.value + LEASE_MARGIN);
      }
    }
  }

  /** Moving on keeps a lease only if the handler had it, and clears only what the look just found absent. */
  lemma GotoKeepsSecure(c: Config, s: State, u: State, g: HandlerId, p: Phase, h: HandlerId)
    requires SameStore(s, u) && g in s.handlers && h in s.handlers && Secure(c, s, h)
    requires HoldsLease(p) ==> HoldsLease(s.handlers[g].phase) && p.expiry == s.handlers[g].phase.expiry
    requires p.Cleared? || p.Running? ==> !OutcomeLive(s, TaskOf(c, s.handlers[g]))
    ensures Secure(c, Goto(u, g, p), h)
  {
    assert h != g ==> Goto(u, g, p).handlers[h] == s.handlers[h];
  }

  lemma DoneKeepsSecure(c: Config, s: State, u: State, g: HandlerId, h: HandlerId)
    requires SameStore(s, u) && g in s.handlers && h in s.handlers && h != g && Secure(c, s, h)
    ensures Secure(c, Done(u, g), h)
  {
    assert Done(u, g).handlers[h] == s.handlers[h];
  }

  lemma AfterLookKeepsSecure(c: Config, s: State, g: HandlerId, readable: bool, otherwise: Phase, h: HandlerId)
    requires g in s.handlers && h in s.handlers && Secure(c, s, h)
    requires HoldsLease(otherwise) ==> HoldsLease(s.handlers[g].phase) && otherwise.expiry == s.handlers[g].phase.expiry
    requires h in AfterLook(c, s, g, readable, otherwise).handlers
    ensures Secure(c, AfterLook(c, s, g, readable, otherwise), h)
  {
    if !readable {
      DoneKeepsSecure(c, s, s, g, h);
    } else if OutcomeLive(s, TaskOf(c, s.handlers[g])) {
      GotoKeepsSecure(c, s, s, g, Reporting(s.outcomes[TaskOf(c, s.handlers[g])].outcome), h);
    } else {
      GotoKeepsSecure(c, s, s, g, otherwise, h);
    }
  }

  /** The steps before the lease and after the record hold nothing. */
  lemma UnleasedStepsKeepSecure(c: Config, s: State, e: Event, h: HandlerId)
    requires OfHandler(e) && Enabled(c, s, e) && (e.Handle? || e.GetSlot? || e.Report? || e.Acknowledge?)
    requires h in s.handlers && Secure(c, s, h) && h in NextOfHandler(c, s, e).handlers
    ensures Secure(c, NextOfHandler(c, s, e), h)
  {
    var u, moves, p := HandlerStepShape(c, s, e);
    if moves {
      GotoKeepsSecure(c, s, u, e.handler, p, h);
    } else {
      DoneKeepsSecure(c, s, u, e.handler, h);
    }
  }

  lemma OtherStepsKeepSecure(c: Config, s: State, e: Event, h: HandlerId)
    requires OfHandler(e) && Enabled(c, s, e) && !e.TryLease? && !e.Record?
    requires h in s.handlers && Secure(c, s, h) && Secure(c, s, e.handler) && h in NextOfHandler(c, s, e).handlers
    ensures Secure(c, NextOfHandler(c, s, e), h)
  {
    if e.Look? {
      AfterLookKeepsSecure(c, s, e.handler, e.readable,
        if PoolTimeout(c, s.handlers[e.handler]).Some? then WaitingForSlot else Reporting(UNKNOWN_CONNECTOR_TYPE), h);
    } else if e.LookAgain? {
      AfterLookKeepsSecure(c, s, e.handler, e.readable, Cleared(s.handlers[e.handler].phase.expiry), h);
    } else if e.StartRun? {
      GotoKeepsSecure(c, s, s, e.handler, Running(s.handlers[e.handler].phase.expiry), h);
    } else if e.FinishRun? {
      GotoKeepsSecure(c, s, s, e.handler, Recording(s.handlers[e.handler].phase.expiry, e.outcome), h);
    } else {
      UnleasedStepsKeepSecure(c, s, e, h);
    }
  }

  lemma HandlerStepKeepsSecure(c: Config, s: State, e: Event, h: HandlerId)
    requires AllSecure(c, s) && OfHandler(e) && Enabled(c, s, e) && h in NextOfHandler(c, s, e).handlers
    ensures Secure(c, NextOfHandler(c, s, e), h)
  {
    var u, moves, p := HandlerStepShape(c, s, e);
    assert h in s.handlers;
    assert Secure(c, s, h) && Secure(c, s, e.handler);
    if e.TryLease? {
      TryLeaseKeepsSecure(c, s, e.handler, e.reply, h);
    } else if e.Record? {
      RecordKeepsSecure(c, s, e.handler, h);
    } else {
      OtherStepsKeepSecure(c, s, e, h);
    }
  }

  lemma StepKeepsSecure(c: Config, s: State, e: Event, t: State)
    requires AllSecure(c, s) && Step(c, s, e, t)
    ensures AllSecure(c, t)
  {
    forall h | h in t.handlers ensures Secure(c, t, h) {
      if OfHandler(e) {
        HandlerStepKeepsSecure(c, s, e, h);
      } else if h in s.handlers {
        assert Secure(c, s, h);
      }
    }
  }

  lemma {:induction false} RunIsSecure(c: Config, run: seq<State>, events: seq<Event>, i: nat)
    requires IsRun(c, run, events) && i < |run|
    ensures AllSecure(c, run[i])
  {
    if i > 0 {
      RunIsSecure(c, run, events, i - 1);
      assert Step(c, run[i-1], events[i-1], run[i]);
      StepKeepsSecure(c, run[i-1], events[i-1], run[i]);
    }
  }

  /** Two runs of one task never overlap, whichever workers and entries they come from. */
  lemma RunsNeverOverlap(c: Config, run: seq<State>, events: seq<Event>, i: nat, g: HandlerId, h: HandlerId)
    requires IsRun(c, run, events) && i < |run| && g in run[i].handlers && h in run[i].handlers
    requires run[i].handlers[g].phase.Running? && run[i].handlers[h].phase.Running?
    requires IsJob(c, run[i].handlers[g].entry) && IsJob(c, run[i].handlers[h].entry)
    requires c.jobs[run[i].handlers[g].entry].task == c.jobs[run[i].handlers[h].entry].task
    ensures g == h
  {
    RunIsSecure(c, run, events, i);
    OneHolder(c, run[i], g, h);
  }

  /** No run starts, or goes on, while an outcome of its task is recorded. */
  lemma NoRunAfterARecordedOutcome(c: Config, run: seq<State>, events: seq<Event>, i: nat, h: HandlerId)
    requires IsRun(c, run, events) && i < |run| && h in run[i].handlers && IsJob(c, run[i].handlers[h].entry)
    requires run[i].handlers[h].phase.Cleared? || run[i].handlers[h].phase.Running?
    ensures var task := c.jobs[run[i].handlers[h].entry].task;
            !(task in run[i].outcomes && run[i].clock < run[i].outcomes[task].expiry)
  {
    RunIsSecure(c, run, events, i);
    assert Secure(c, run[i], h);
  }

  // ----- how an entry leaves the pending list, and who holds it in a worker -----

  /** A delivered entry is pending, or was malformed, or had its outcome accepted, or has its dead-letter copy. */
  predicate AccountedFor(c: Config, s: State, entry: EntryId) {
    || entry in s.pending
    || entry !in c.jobs || c.jobs[entry].Malformed?
    || entry in s.accepted
    || entry in s.deadLettered
  }

  /** The handler's entry is claimed in its name, and was accepted if it is being acknowledged. */
  predicate Holds(s: State, h: HandlerId)
    requires h in s.handlers
  {
    && ClaimOf(s.handlers[h]) in s.inflight && s.inflight[ClaimOf(s.handlers[h])] == h
    && (s.handlers[h].phase.Acknowledging? ==> s.handlers[h].entry in s.accepted)
  }

  predicate Held(s: State, claim: Claim)
    requires claim in s.inflight
  {
    s.inflight[claim] in s.handlers && ClaimOf(s.handlers[s.inflight[claim]]) == claim
  }

  ghost predicate ClaimsMatch(s: State) {
    (forall h | h in s.handlers :: Holds(s, h)) && (forall claim | claim in s.inflight :: Held(s, claim))
  }

  /** Ending a handler releases its own claim and no other. */
  lemma DoneKeepsClaims(s: State, h: HandlerId)
    requires ClaimsMatch(s) && h in s.handlers
    ensures ClaimsMatch(Done(s, h))
  {
    var t := Done(s, h);
    assert Holds(s, h);
    forall g | g in t.handlers ensures Holds(t, g) {
      assert Holds(s, g);
    }
    forall claim | claim in t.inflight ensures Held(t, claim) {
      assert Held(s, claim);
    }
  }

  lemma GotoKeepsClaims(s: State, h: HandlerId, p: Phase)
    requires ClaimsMatch(s) && h in s.handlers && (p.Acknowledging? ==> s.handlers[h].entry in s.accepted)
    ensures ClaimsMatch(Goto(s, h, p))
  {
    var t := Goto(s, h, p);
    forall g | g in t.handlers ensures Holds(t, g) {
      assert Holds(s, g);
    }
    forall claim | claim in t.inflight ensures Held(t, claim) {
      assert Held(s, claim);
    }
  }

  lemma DeliverKeepsClaims(s: State, worker: WorkerId, entry: EntryId, handler: HandlerId)
    requires ClaimsMatch(s) && handler !in s.handlers
    ensures ClaimsMatch(NextDeliver(s, worker, entry, handler))
  {
    var t := NextDeliver(s, worker, entry, handler);
    forall g | g in t.handlers ensures Holds(t, g) {
      assert g in s.handlers ==> Holds(s, g);
    }
    forall claim | claim in t.inflight ensures Held(t, claim) {
      assert claim in s.inflight ==> Held(s, claim);
    }
  }

  lemma CrashKeepsClaims(s: State, worker: WorkerId)
    requires ClaimsMatch(s)
    ensures ClaimsMatch(NextCrash(s, worker))
  {
    var t := NextCrash(s, worker);
    forall g | g in t.handlers ensures Holds(t, g) {
      assert Holds(s, g);
    }
    forall claim | claim in t.inflight ensures Held(t, claim) {
      assert Held(s, claim);
    }
  }

  /** Outside handlers and claims, a step may write what it likes, as long as no acceptance is taken back. */
  lemma SameHandlersKeepClaims(s: State, u: State)
    requires ClaimsMatch(s) && u.handlers == s.handlers && u.inflight == s.inflight && s.accepted <= u.accepted
    ensures ClaimsMatch(u)
  {
    forall g | g in u.handlers ensures Holds(u, g) {
      assert Holds(s, g);
    }
    forall claim | claim in u.inflight ensures Held(u, claim) {
      assert Held(s, claim);
    }
  }

  lemma StepKeepsClaims(c: Config, s: State, e: Event)
    requires ClaimsMatch(s) && Enabled(c, s, e)
    ensures ClaimsMatch(Next(c, s, e))
  {
    if e.Deliver? {
      DeliverKeepsClaims(s, e.worker, e.entry, e.handler);
    } else if e.Crash? {
      CrashKeepsClaims(s, e.worker);
    } else if e.Tick? {
      SameHandlersKeepClaims(s, Next(c, s, e));
    } else {
      var u, moves, p := HandlerStepShape(c, s, e);
      SameHandlersKeepClaims(s, u);
      if moves {
        GotoKeepsClaims(u, e.handler, p);
      } else {
        DoneKeepsClaims(u, e.handler);
      }
    }
  }

  lemma StepKeepsAccounts(c: Config, s: State, e: Event, entry: EntryId)
    requires ClaimsMatch(s) && Enabled(c, s, e)
    requires entry in s.delivered ==> AccountedFor(c, s, entry)
    ensures entry in Next(c, s, e).delivered ==> AccountedFor(c, Next(c, s, e), entry)
  {
    if OfHandler(e) {
      assert Holds(s, e.handler);
    }
  }

  lemma {:induction false} RunKeepsAccounts(c: Config, run: seq<State>, events: seq<Event>, i: nat)
    requires IsRun(c, run, events) && i < |run|
    ensures ClaimsMatch(run[i])
    ensures forall entry | entry in run[i].delivered :: AccountedFor(c, run[i], entry)
  {
    if i > 0 {
      RunKeepsAccounts(c, run, events, i - 1);
      assert Step(c, run[i-1], events[i-1], run[i]);
      StepKeepsClaims(c, run[i-1], events[i-1]);
      forall entry | entry in run[i].delivered ensures AccountedFor(c, run[i], entry) {
        StepKeepsAccounts(c, run[i-1], events[i-1], entry);
      }
    }
  }

  /** An entry once delivered has left the pending list only malformed, accepted by the callback, or dead-lettered. */
  lemma EntriesLeaveAccountedFor(c: Config, run: seq<State>, events: seq<Event>, i: nat, entry: EntryId)
    requires IsRun(c, run, events) && i < |run| && entry in run[i].delivered && entry !in run[i].pending
    requires entry in c.jobs && c.jobs[entry].Job?
    ensures entry in run[i].accepted || entry in run[i].deadLettered
  {
    RunKeepsAccounts(c, run, events, i);
    assert AccountedFor(c, run[i], entry);
  }

  /** In one worker an entry is held by at most one handler, and by exactly one while it is claimed. */
  lemma OneHandlerPerClaim(c: Config, run: seq<State>, events: seq<Event>, i: nat, claim: Claim)
    requires IsRun(c, run, events) && i < |run|
    ensures claim in run[i].inflight <==> exists h :: h in run[i].handlers && ClaimOf(run[i].handlers[h]) == claim
    ensures forall g, h | g in run[i].handlers && h in run[i].handlers
              && ClaimOf(run[i].handlers[g]) == claim == ClaimOf(run[i].handlers[h]) :: g == h
  {
    RunKeepsAccounts(c, run, events, i);
    assert claim in run[i].inflight ==> Held(run[i], claim);
    forall h | h in run[i].handlers && ClaimOf(run[i].handlers[h]) == claim
      ensures claim in run[i].inflight && run[i].inflight[claim] == h
    {
      assert Holds(run[i], h);
    }
  }

  /** A claim goes only with its own handler or its worker: a second delivery of the entry never releases it. */
  lemma OnlyTheHolderReleases(c: Config, run: seq<State>, events: seq<Event>, i: nat, claim: Claim)
    requires IsRun(c, run, events) && i < |events|
    requires claim in run[i].inflight && claim !in run[i+1].inflight
    ensures events[i].Crash? || OfHandler(events[i])
    ensures events[i].Crash? ==> events[i].worker == claim.0
    ensures OfHandler(events[i]) ==>
              && events[i].handler in run[i].handlers && ClaimOf(run[i].handlers[events[i].handler]) == claim
              && events[i].handler !in run[i+1].handlers
  {
    RunKeepsAccounts(c, run, events, i);
    assert Step(c, run[i], events[i], run[i+1]);
    if OfHandler(events[i]) {
      var u, moves, p := HandlerStepShape(c, run[i], events[i]);
    }
  }
}
