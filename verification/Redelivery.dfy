/**
 The start-up check on the delivery cap, the reclaim wait and the outcome's lifetime, and what it buys: over any run
 whose redeliveries keep to the reclaim wait, a task with a recorded outcome is never run again, not even after the
 record has expired.
 */
module Redelivery {
  import opened Wrappers
  import opened ConnectorWorker
  import opened Int64s

  datatype Settings = Settings(
    streamKey: string,
    openBaoAddr: string,
    internalAddr: string,
    deadLetterKey: string,
    maxDeliveries: Int64,
    claimMinIdle: Int64
  )

  datatype ConfigError =
    | MissingStreamKey
    | MissingOpenBaoAddr
    | MissingInternalAddr
    | TooFewDeliveries
    | BadDeadLetterKey
    | ReclaimTooSoon
    | RecordTooShort

  function CheckRequiredConfig(s: Settings): Option<ConfigError> {
    if s.streamKey == "" then Some(MissingStreamKey)
    else if s.openBaoAddr == "" then Some(MissingOpenBaoAddr)
    else if s.internalAddr == "" then Some(MissingInternalAddr)
    else if s.maxDeliveries < 1 then Some(TooFewDeliveries)
    else if s.deadLetterKey == "" || s.deadLetterKey == s.streamKey then Some(BadDeadLetterKey)
    else if s.claimMinIdle as int < 3 * SECOND then Some(ReclaimTooSoon)
    else if Wrap64(Wrap64(2 * s.maxDeliveries as int) * s.claimMinIdle as int) >= OUTCOME_TTL then Some(RecordTooShort)
    else None
  }

  /** The bound the check is there for, in integers that do not wrap: every delivery falls within the record's life. */
  predicate RecordOutlivesDeliveries(maxDeliveries: int, claimMinIdle: int) {
    2 * maxDeliveries * claimMinIdle < OUTCOME_TTL
  }

  /** Whether the product the check computes fits its type. */
  predicate ProductFits(s: Settings) {
    2 * s.maxDeliveries as int * s.claimMinIdle as int <= MAX_INT64
  }

  lemma WrapIsExact(x: int)
    requires MIN_INT64 <= x <= MAX_INT64
    ensures Wrap64(x) == x
  {
  }

  /** Settings that pass give the bound exactly when the product fits; a product that wraps can pass without it. */
  lemma CheckGivesTheBound(s: Settings)
    requires CheckRequiredConfig(s) == None
    ensures RecordOutlivesDeliveries(s.maxDeliveries as int, s.claimMinIdle as int) <==> ProductFits(s)
  {
    var m, idle := s.maxDeliveries as int, s.claimMinIdle as int;
    if ProductFits(s) {
      ProductBounds(2 * m, idle);
      WrapIsExact(2 * m);
      WrapIsExact(2 * m * idle);
    }
  }

  lemma ProductBounds(a: int, b: int)
    requires 0 <= a && 1 <= b
    ensures a <= a * b && 0 <= a * b
  {
    if b > 1 {
      ProductBounds(a, b - 1);
    }
  }

  /** Settings that meet the bound and the other rules are never refused. */
  lemma CheckRefusesOnlyOutsideTheBound(s: Settings)
    requires CheckRequiredConfig(s) == Some(RecordTooShort) && ProductFits(s)
    ensures !RecordOutlivesDeliveries(s.maxDeliveries as int, s.claimMinIdle as int)
  {
    var m, idle := s.maxDeliveries as int, s.claimMinIdle as int;
    ProductBounds(2 * m, idle);
    WrapIsExact(2 * m);
    WrapIsExact(2 * m * idle);
  }

  /** With a product that fits, settings pass exactly if they are complete, consistent, and every delivery falls within a day of a record. */
  lemma PassesExactlyWithinTheBound(s: Settings)
    requires ProductFits(s)
    ensures CheckRequiredConfig(s) == None <==>
              && s.streamKey != "" && s.openBaoAddr != "" && s.internalAddr != ""
              && s.deadLetterKey != "" && s.deadLetterKey != s.streamKey
              && 1 <= s.maxDeliveries as int && 3_000_000_000 <= s.claimMinIdle as int
              && 2 * s.maxDeliveries as int * s.claimMinIdle as int < 86_400_000_000_000
  {
    if CheckRequiredConfig(s) == None {
      CheckGivesTheBound(s);
    } else if CheckRequiredConfig(s) == Some(RecordTooShort) {
      CheckRefusesOnlyOutsideTheBound(s);
    }
  }

  /** A cap of 2^62 deliveries, four seconds apart, passes: the product wraps to zero. */
  lemma WrappedProductPasses(s: Settings)
    requires s == Settings("s", "b", "i", "d", 0x4000_0000_0000_0000, 4_000_000_000)
    ensures CheckRequiredConfig(s) == None
    ensures !RecordOutlivesDeliveries(s.maxDeliveries as int, s.claimMinIdle as int)
  {
    assert Wrap64(0x8000_0000_0000_0000) == MIN_INT64;
    assert MIN_INT64 * 4_000_000_000 == -2_000_000_000 * 0x1_0000_0000_0000_0000;
    assert Wrap64(-2_000_000_000 * 0x1_0000_0000_0000_0000) == 0;
  }

  // ----- over a run of the workers -----

  /** One stream entry stands for each task, as it is published once. */
  ghost predicate OneEntryPerTask(c: Config) {
    forall a, b | a in c.jobs && b in c.jobs && c.jobs[a].Job? && c.jobs[b].Job? && c.jobs[a].task == c.jobs[b].task :: a == b
  }

  /** Two reclaim waits: one until the entry is stale, one until the next reclaim. */
  function Wait(claimMinIdle: nat): nat {
    2 * claimMinIdle
  }

  /** An entry comes again, and a handler looks for the outcome, within two reclaim waits of its last delivery. */
  predicate OnTime(s: State, e: Event, wait: nat) {
    && (e.Deliver? && e.entry in s.delivered ==> s.clock <= s.delivered[e.entry].last + wait)
    && ((e.Look? || e.LookAgain?) && e.handler in s.handlers ==> s.clock <= s.handlers[e.handler].since + wait)
  }

  ghost predicate IsTimelyRun(c: Config, run: seq<State>, events: seq<Event>, wait: nat) {
    IsRun(c, run, events) && forall i | 0 <= i < |events| :: OnTime(run[i], events[i], wait)
  }

  function Span(wait: nat, n: nat): nat {
    wait * n
  }

  lemma SpanGrows(wait: nat, m: nat, n: nat)
    requires m <= n
    ensures Span(wait, m) <= Span(wait, n)
    ensures Span(wait, m + 1) == Span(wait, m) + wait
  {
  }

  /** The count of deliveries bounds the time since the first. */
  predicate EntryTimed(s: State, wait: nat, entry: EntryId)
    requires entry in s.delivered
  {
    var d := s.delivered[entry];
    1 <= d.count && d.first <= d.last <= s.clock && d.last <= d.first + Span(wait, d.count - 1)
  }

  /** A handler past the cap check is within the cap, and its delivery within the deliveries before it. */
  predicate HandlerTimed(c: Config, s: State, wait: nat, h: HandlerId)
    requires h in s.handlers
  {
    var x := s.handlers[h];
    && x.entry in s.delivered && x.entry in c.jobs && 1 <= x.deliveries
    && s.delivered[x.entry].first <= x.since <= s.clock
    && x.since <= s.delivered[x.entry].first + Span(wait, x.deliveries - 1)
    && (!x.phase.Claimed? ==> c.jobs[x.entry].Job? && (c.maxDeliveries > 0 ==> x.deliveries <= c.maxDeliveries))
  }

  /** A record was made for its own task, no earlier than its entry's first delivery. */
  predicate RecordTimed(c: Config, s: State, task: TaskId)
    requires task in s.outcomes
  {
    var r := s.outcomes[task];
    && r.via in s.delivered && r.via in c.jobs && c.jobs[r.via].Job? && c.jobs[r.via].task == task
    && s.delivered[r.via].first + OUTCOME_TTL <= r.expiry
  }

  /** A handler cleared to run, running or about to record works on a task that has no record at all. */
  predicate Unrecorded(c: Config, s: State, h: HandlerId)
    requires h in s.handlers
  {
    s.handlers[h].phase.Cleared? || s.handlers[h].phase.Running? || s.handlers[h].phase.Recording? ==>
      TaskOf(c, s.handlers[h]) !in s.outcomes
  }

  ghost predicate Timed(c: Config, s: State, wait: nat) {
    && (forall entry | entry in s.delivered :: EntryTimed(s, wait, entry))
    && (forall h | h in s.handlers :: HandlerTimed(c, s, wait, h))
    && (forall task | task in s.outcomes :: RecordTimed(c, s, task))
  }

  ghost predicate AllUnrecorded(c: Config, s: State) {
    forall h | h in s.handlers :: Unrecorded(c, s, h)
  }

  /** A look made in time, by a delivery within the cap, finds the record if there ever was one. */
  lemma LookFindsTheRecord(c: Config, s: State, wait: nat, h: HandlerId)
    requires OneEntryPerTask(c) && Timed(c, s, wait) && c.maxDeliveries > 0 && Span(wait, c.maxDeliveries) < OUTCOME_TTL
    requires h in s.handlers && !s.handlers[h].phase.Claimed? && s.clock <= s.handlers[h].since + wait
    requires TaskOf(c, s.handlers[h]) in s.outcomes
    ensures OutcomeLive(s, TaskOf(c, s.handlers[h]))
  {
    var x, task := s.handlers[h], TaskOf(c, s.handlers[h]);
    assert HandlerTimed(c, s, wait, h) && RecordTimed(c, s, task);
    assert s.outcomes[task].via == x.entry;
    SpanGrows(wait, x.deliveries - 1, x.deliveries);
    SpanGrows(wait, x.deliveries, c.maxDeliveries);
  }

  /** Whatever a step leaves alone stays timed: only what it wrote has to be looked at. */
  lemma FrameKeepsTimed(c: Config, s: State, t: State, wait: nat)
    requires Timed(c, s, wait) && s.clock <= t.clock
    requires forall e | e in s.delivered :: e in t.delivered && t.delivered[e].first == s.delivered[e].first
    requires forall e | e in t.delivered :: (e in s.delivered && t.delivered[e] == s.delivered[e]) || EntryTimed(t, wait, e)
    requires forall h | h in t.handlers :: (h in s.handlers && t.handlers[h] == s.handlers[h]) || HandlerTimed(c, t, wait, h)
    requires forall k | k in t.outcomes :: (k in s.outcomes && t.outcomes[k] == s.outcomes[k]) || RecordTimed(c, t, k)
    ensures Timed(c, t, wait)
  {
    forall e | e in t.delivered ensures EntryTimed(t, wait, e) {
      assert e in s.delivered ==> EntryTimed(s, wait, e);
    }
    forall h | h in t.handlers ensures HandlerTimed(c, t, wait, h) {
      assert h in s.handlers ==> HandlerTimed(c, s, wait, h);
    }
    forall k | k in t.outcomes ensures RecordTimed(c, t, k) {
      assert k in s.outcomes ==> RecordTimed(c, s, k);
    }
  }

  lemma DeliveryIsTimed(s: State, entry: EntryId, wait: nat)
    requires entry in s.delivered ==> EntryTimed(s, wait, entry) && s.clock <= s.delivered[entry].last + wait
    ensures var d := NextDelivery(s, entry); 1 <= d.count && d.first <= d.last == s.clock && d.last <= d.first + Span(wait, d.count - 1)
  {
    if entry in s.delivered {
      SpanGrows(wait, s.delivered[entry].count - 1, s.delivered[entry].count);
    }
  }

  lemma DeliverKeepsTimed(c: Config, s: State, worker: WorkerId, entry: EntryId, handler: HandlerId, wait: nat)
    requires Timed(c, s, wait) && entry in c.jobs && handler !in s.handlers
    requires entry in s.delivered ==> s.clock <= s.delivered[entry].last + wait
    ensures Timed(c, NextDeliver(s, worker, entry, handler), wait)
  {
    DeliveryIsTimed(s, entry, wait);
    var t := NextDeliver(s, worker, entry, handler);
    assert t.delivered[entry] == NextDelivery(s, entry);
    FrameKeepsTimed(c, s, t, wait);
  }

  /** The record a handler makes dates from after its entry's first delivery. */
  lemma RecordIsTimed(c: Config, s: State, h: HandlerId, wait: nat)
    requires Timed(c, s, wait) && h in s.handlers && s.handlers[h].phase.Recording?
    ensures var t, task := NextRecord(c, s, h), TaskOf(c, s.handlers[h]);
            && (forall k | k in t.outcomes :: k == task || (k in s.outcomes && t.outcomes[k] == s.outcomes[k]))
            && RecordTimed(c, t, task)
  {
    assert HandlerTimed(c, s, wait, h);
    assert EntryTimed(s, wait, s.handlers[h].entry);
  }

  /** What a handler's own step changes among handlers, records and deliveries. */
  lemma HandlerStepKeepsTimed(c: Config, s: State, e: Event, wait: nat)
    requires Timed(c, s, wait) && OfHandler(e) && Enabled(c, s, e)
    ensures Timed(c, NextOfHandler(c, s, e), wait)
  {
    var h, t := e.handler, NextOfHandler(c, s, e);
    assert HandlerTimed(c, s, wait, h);
    DeliveriesAreTheStreams(c, s, e);
    if e.Record? {
      RecordIsTimed(c, s, h, wait);
    }
    if h in t.handlers {
      assert HandlerTimed(c, t, wait, h);
    }
    FrameKeepsTimed(c, s, t, wait);
  }

  /** A handler's step changes no delivery, no other handler, and of its own handler only the phase. */
  lemma DeliveriesAreTheStreams(c: Config, s: State, e: Event)
    requires OfHandler(e) && Enabled(c, s, e)
    ensures var t, h := NextOfHandler(c, s, e), e.handler;
      && t.delivered == s.delivered && t.clock == s.clock
      && (!e.Record? ==> t.outcomes == s.outcomes)
      && (forall g | g in t.handlers && g != h :: g in s.handlers && t.handlers[g] == s.handlers[g])
      && (h in t.handlers ==> t.handlers[h] == s.handlers[h].(phase := t.handlers[h].phase))
      && (h in t.handlers && e.Handle? ==>
            && s.handlers[h].entry in c.jobs && c.jobs[s.handlers[h].entry].Job?
            && (c.maxDeliveries > 0 ==> s.handlers[h].deliveries <= c.maxDeliveries))
  {
    var u, moves, p := HandlerStepShape(c, s, e);
  }

  lemma StepKeepsTimed(c: Config, s: State, e: Event, t: State, wait: nat)
    requires Timed(c, s, wait) && Step(c, s, e, t) && OnTime(s, e, wait)
    ensures Timed(c, t, wait)
  {
    if e.Deliver? {
      DeliverKeepsTimed(c, s, e.worker, e.entry, e.handler, wait);
    } else if OfHandler(e) {
      HandlerStepKeepsTimed(c, s, e, wait);
    } else {
      forall h | h in t.handlers && e.Tick? ensures HandlerTimed(c, t, wait, h) {
        assert HandlerTimed(c, s, wait, h);
      }
      FrameKeepsTimed(c, s, t, wait);
    }
  }

  /** A cleared handler has looked in time, so its task has no record. */
  lemma LookKeepsUnrecorded(c: Config, s: State, h: HandlerId, readable: bool, wait: nat)
    requires OneEntryPerTask(c) && c.maxDeliveries > 0 && Span(wait, c.maxDeliveries) < OUTCOME_TTL
    requires Timed(c, s, wait) && h in s.handlers && s.handlers[h].phase.Leased?
    requires s.clock <= s.handlers[h].since + wait
    requires h in AfterLook(c, s, h, readable, Cleared(s.handlers[h].phase.expiry)).handlers
    ensures Unrecorded(c, AfterLook(c, s, h, readable, Cleared(s.handlers[h].phase.expiry)), h)
  {
    if TaskOf(c, s.handlers[h]) in s.outcomes {
      LookFindsTheRecord(c, s, wait, h);
    }
  }

  /** Records are made by the one holder of the task's lease, so no other cleared handler's task gets one. */
  lemma RecordKeepsUnrecorded(c: Config, s: State, g: HandlerId, h: HandlerId)
    requires AllSecure(c, s) && g in s.handlers && h in s.handlers && s.handlers[g].phase.Recording? && Unrecorded(c, s, h)
    ensures Unrecorded(c, NextRecord(c, s, g), h)
  {
    if h != g {
      assert Secure(c, s, h) && Secure(c, s, g);
    }
  }

  lemma OtherStepsKeepUnrecorded(c: Config, s: State, e: Event, h: HandlerId)
    requires OfHandler(e) && Enabled(c, s, e) && !e.Record? && (e.LookAgain? ==> h != e.handler)
    requires h in s.handlers && Unrecorded(c, s, h) && h in NextOfHandler(c, s, e).handlers
    ensures Unrecorded(c, NextOfHandler(c, s, e), h)
  {
    DeliveriesAreTheStreams(c, s, e);
    if h == e.handler {
      var u, moves, p := HandlerStepShape(c, s, e);
    }
  }

  lemma HandlerStepKeepsUnrecorded(c: Config, s: State, e: Event, wait: nat, h: HandlerId)
    requires OneEntryPerTask(c) && c.maxDeliveries > 0 && Span(wait, c.maxDeliveries) < OUTCOME_TTL
    requires Timed(c, s, wait) && AllSecure(c, s) && AllUnrecorded(c, s)
    requires OfHandler(e) && Enabled(c, s, e) && OnTime(s, e, wait) && h in NextOfHandler(c, s, e).handlers
    ensures Unrecorded(c, NextOfHandler(c, s, e), h)
  {
    DeliveriesAreTheStreams(c, s, e);
    assert Unrecorded(c, s, h);
    if e.Record? {
      RecordKeepsUnrecorded(c, s, e.handler, h);
    } else if e.LookAgain? && h == e.handler {
      LookKeepsUnrecorded(c, s, h, e.readable, wait);
    } else {
      OtherStepsKeepUnrecorded(c, s, e, h);
    }
  }

  lemma StepKeepsUnrecorded(c: Config, s: State, e: Event, t: State, wait: nat, h: HandlerId)
    requires OneEntryPerTask(c) && c.maxDeliveries > 0 && Span(wait, c.maxDeliveries) < OUTCOME_TTL
    requires Timed(c, s, wait) && AllSecure(c, s) && AllUnrecorded(c, s)
    requires Step(c, s, e, t) && OnTime(s, e, wait) && h in t.handlers
    ensures Unrecorded(c, t, h)
  {
    if OfHandler(e) {
      HandlerStepKeepsUnrecorded(c, s, e, wait, h);
    } else if h in s.handlers {
      assert Unrecorded(c, s, h);
    }
  }

  lemma {:induction false} RunIsTimed(c: Config, run: seq<State>, events: seq<Event>, wait: nat, i: nat)
    requires OneEntryPerTask(c) && c.maxDeliveries > 0 && Span(wait, c.maxDeliveries) < OUTCOME_TTL
    requires IsTimelyRun(c, run, events, wait) && i < |run|
    ensures Timed(c, run[i], wait) && AllUnrecorded(c, run[i])
  {
    if i > 0 {
      RunIsTimed(c, run, events, wait, i - 1);
      RunIsSecure(c, run, events, i - 1);
      assert Step(c, run[i-1], events[i-1], run[i]);
      StepKeepsTimed(c, run[i-1], events[i-1], run[i], wait);
      forall h | h in run[i].handlers ensures Unrecorded(c, run[i], h) {
        StepKeepsUnrecorded(c, run[i-1], events[i-1], run[i], wait, h);
      }
    }
  }

  /** Workers started under the given settings. */
  predicate StartedWith(c: Config, settings: Settings) {
    CheckRequiredConfig(settings) == None && ProductFits(settings) && c.maxDeliveries == settings.maxDeliveries as int
  }

  lemma SettingsBoundTheSpan(c: Config, settings: Settings)
    requires StartedWith(c, settings)
    ensures c.maxDeliveries > 0 && Span(Wait(settings.claimMinIdle as int), c.maxDeliveries) < OUTCOME_TTL
  {
    CheckGivesTheBound(settings);
    SpanIsTheProduct(settings.claimMinIdle as int, c.maxDeliveries);
  }

  lemma SpanIsTheProduct(idle: nat, n: nat)
    ensures Span(Wait(idle), n) == 2 * n * idle
  {
  }

  /** Every delivery within the cap that reaches a look at the recorded outcome does so while the record lives. */
  lemma RedeliveryFindsTheOutcome(c: Config, settings: Settings, run: seq<State>, events: seq<Event>, i: nat, h: HandlerId)
    requires OneEntryPerTask(c) && StartedWith(c, settings)
    requires IsTimelyRun(c, run, events, Wait(settings.claimMinIdle as int)) && i < |events|
    requires events[i] in {Look(h, true), LookAgain(h, true)}
    requires h in run[i].handlers && TaskOf(c, run[i].handlers[h]) in run[i].outcomes
    ensures OutcomeLive(run[i], TaskOf(c, run[i].handlers[h]))
    ensures h in run[i+1].handlers
    ensures run[i+1].handlers[h].phase == Reporting(run[i].outcomes[TaskOf(c, run[i].handlers[h])].outcome)
  {
    var wait := Wait(settings.claimMinIdle as int);
    SettingsBoundTheSpan(c, settings);
    RunIsTimed(c, run, events, wait, i);
    assert Step(c, run[i], events[i], run[i+1]) && OnTime(run[i], events[i], wait);
    LookFindsTheRecord(c, run[i], wait, h);
  }

  lemma {:induction false} RecordsStay(c: Config, run: seq<State>, events: seq<Event>, i: nat, j: nat, task: TaskId)
    requires IsRun(c, run, events) && i <= j < |run| && task in run[i].outcomes
    ensures task in run[j].outcomes
    decreases j
  {
    if i < j {
      RecordsStay(c, run, events, i, j - 1, task);
      assert Step(c, run[j-1], events[j-1], run[j]);
      if OfHandler(events[j-1]) {
        DeliveriesAreTheStreams(c, run[j-1], events[j-1]);
      }
    }
  }

  /** Once a task's outcome has been recorded, no run of it is ever started again, and so none is recorded again. */
  lemma RecordedTaskNeverRunsAgain(c: Config, settings: Settings, run: seq<State>, events: seq<Event>, i: nat, j: nat, h: HandlerId)
    requires OneEntryPerTask(c) && StartedWith(c, settings)
    requires IsTimelyRun(c, run, events, Wait(settings.claimMinIdle as int)) && i < j < |run|
    requires events[i].Record? && events[i].handler in run[i].handlers && h in run[j].handlers
    requires TaskOf(c, run[j].handlers[h]) == TaskOf(c, run[i].handlers[events[i].handler])
    ensures !run[j].handlers[h].phase.Cleared? && !run[j].handlers[h].phase.Running? && !run[j].handlers[h].phase.Recording?
  {
    SettingsBoundTheSpan(c, settings);
    assert Step(c, run[i], events[i], run[i+1]);
    var task := TaskOf(c, run[i].handlers[events[i].handler]);
    assert task in run[i+1].outcomes;
    RecordsStay(c, run, events, i + 1, j, task);
    RunIsTimed(c, run, events, Wait(settings.claimMinIdle as int), j);
    assert Unrecorded(c, run[j], h);
  }
}
