/**
 The instance's status under signals, parks and task results. Coroutines give way only at an activity or a
 blocking channel, so each event below is what one of them does between two such points.
 */
module Interpreter {
  import opened Plan
  import opened Wrappers

  datatype Status = RUNNING | PAUSED | DEGRADED | COMPLETED | TERMINATED | FAILED

  type Initiator = string

  const INITIATOR_ADMIN: Initiator := "admin"

  datatype VisitKey = VisitKey(node: NodeKey, visit: nat)

  type TaskResult = string

  datatype HeldResult = HeldResult(key: VisitKey, result: TaskResult)

  /** A registered stage's channel, of capacity one: empty, holding a result, or read. */
  datatype Slot = Waiting | Holding(result: TaskResult) | Drained

  /** A park writes DEGRADED, loops, and, if it is the last, may write RUNNING; `keeps` is read before that write. */
  datatype ParkPhase = Entering | Looping | WritingRunning(keeps: bool)

  /** The signal router's own activity, during which it takes no other signal. */
  datatype Router = Idle | Pausing | Resuming

  type ParkId = nat

  datatype State = State(
    status: Status,
    pauseInitiator: Initiator,
    pauseHeld: bool,
    keepsPause: bool,
    parks: map<ParkId, ParkPhase>,
    router: Router,
    heldResults: seq<HeldResult>,
    pending: map<VisitKey, Slot>,
    pendingSignals: map<VisitKey, TaskResult>,
    taskVisits: map<NodeKey, nat>,
    creating: set<NodeKey>
  )

  const INITIAL := State(RUNNING, "", false, false, map[], Idle, [], map[], map[], map[], {})

  datatype Event =
    | Pause(initiator: Initiator)
    | Resume(initiator: Initiator)
    | Result(key: VisitKey, result: TaskResult)
    | RouterReturns
    | StartStage(node: NodeKey)
    | TaskCreated(node: NodeKey)
    | TaskNotCreated(node: NodeKey)
    | StageReads(key: VisitKey)
    | StageReturns(key: VisitKey)
    | OpenPark(park: ParkId)
    | DegradedWritten(park: ParkId)
    | ParkResolved(park: ParkId)
    | RunningWritten(park: ParkId)
    | CancelPark(park: ParkId)
    | End(final: Status)

  predicate Ended(status: Status) {
    status in {COMPLETED, TERMINATED, FAILED}
  }

  predicate CanResume(pausedBy: Initiator, initiator: Initiator) {
    initiator == INITIATOR_ADMIN || initiator == "" || initiator == pausedBy
  }

  function Visits(s: State, node: NodeKey): nat {
    if node in s.taskVisits then s.taskVisits[node] else 0
  }

  /**
   When an event can happen at all: the router is free to take a signal, the activity was under way, and so on.
   Two visits of one node are taken never to be created at once.
   */
  predicate Enabled(s: State, e: Event) {
    match e
    case Pause(_) => s.router == Idle
    case Resume(_) => s.router == Idle
    case Result(_, _) => s.router == Idle
    case RouterReturns => s.router != Idle
    case StartStage(node) => node !in s.creating
    case TaskCreated(node) => node in s.creating
    case TaskNotCreated(node) => node in s.creating
    case StageReads(key) => key in s.pending && s.pending[key].Holding?
    case StageReturns(key) => key in s.pending
    case OpenPark(park) => park !in s.parks
    case DegradedWritten(park) => park in s.parks && s.parks[park] == Entering
    case ParkResolved(park) => park in s.parks && s.parks[park] == Looping
    case RunningWritten(park) => park in s.parks && s.parks[park].WritingRunning?
    case CancelPark(park) => park in s.parks
    case End(final) => Ended(final)
  }

  predicate HoldsPauseDuringPark(s: State) {
    s.status == DEGRADED && s.keepsPause
  }

  function TakePause(s: State, initiator: Initiator): State {
    if HoldsPauseDuringPark(s) then
      if s.pauseHeld then s else s.(pauseHeld := true, pauseInitiator := initiator)
    else if s.status != RUNNING then s
    else s.(status := PAUSED, pauseInitiator := initiator, pauseHeld := true, router := Pausing)
  }

  function TakeResume(s: State, initiator: Initiator): State {
    if HoldsPauseDuringPark(s) then
      if s.pauseHeld && CanResume(s.pauseInitiator, initiator) then s.(pauseHeld := false, pauseInitiator := "") else s
    else if s.status != PAUSED || !CanResume(s.pauseInitiator, initiator) then s
    else s.(status := RUNNING, pauseInitiator := "", pauseHeld := false, router := Resuming)
  }

  function Send(slot: Slot, result: TaskResult): Slot {
    if slot == Waiting then Holding(result) else slot
  }

  /** A result goes to the held list while paused, to its registered stage, or to the buffer for a stage to come. */
  function Deliver(s: State, key: VisitKey, result: TaskResult): State {
    if s.status == PAUSED then s.(heldResults := s.heldResults + [HeldResult(key, result)])
    else if s.status != RUNNING && s.status != DEGRADED then s
    else if key in s.pending then s.(pending := s.pending[key := Send(s.pending[key], result)])
    else s.(pendingSignals := s.pendingSignals[key := result])
  }

  function DeliverAll(s: State, held: seq<HeldResult>): State
    decreases |held|
  {
    if held == [] then s else DeliverAll(Deliver(s, held[0].key, held[0].result), held[1..])
  }

  function ReleaseHeldResults(s: State): State {
    DeliverAll(s.(heldResults := []), s.heldResults)
  }

  function Register(s: State, node: NodeKey): State {
    var key := VisitKey(node, Visits(s, node));
    var t := s.(creating := s.creating - {node});
    if key in s.pendingSignals then
      t.(pendingSignals := s.pendingSignals - {key}, pending := s.pending[key := Holding(s.pendingSignals[key])])
    else
      t.(pending := s.pending[key := Waiting])
  }

  function ClosePark(s: State, park: ParkId): State {
    var parks := s.parks - {park};
    s.(parks := parks, keepsPause := s.keepsPause && parks != map[])
  }

  function LeaveParkPaused(s: State): State {
    s.(keepsPause := false, status := PAUSED)
  }

  function ResolvePark(s: State, park: ParkId): State {
    if |s.parks| > 1 then ClosePark(s, park)
    else if s.keepsPause && s.pauseHeld then LeaveParkPaused(ClosePark(s, park))
    else s.(parks := s.parks[park := WritingRunning(s.keepsPause)])
  }

  function FinishPark(s: State, park: ParkId): State
    requires park in s.parks && s.parks[park].WritingRunning?
  {
    if s.parks[park].keeps && s.pauseHeld then LeaveParkPaused(ClosePark(s, park))
    else ClosePark(s, park).(pauseHeld := false, status := RUNNING)
  }

  function Next(s: State, e: Event): State
    requires Enabled(s, e)
  {
    match e
    case Pause(initiator) => TakePause(s, initiator)
    case Resume(initiator) => TakeResume(s, initiator)
    case Result(key, result) => Deliver(s, key, result)
    case RouterReturns => (if s.router == Resuming then ReleaseHeldResults(s) else s).(router := Idle)
    case StartStage(node) => s.(taskVisits := s.taskVisits[node := Visits(s, node) + 1], creating := s.creating + {node})
    case TaskCreated(node) => Register(s, node)
    case TaskNotCreated(node) => s.(creating := s.creating - {node})
    case StageReads(key) => s.(pending := s.pending[key := Drained])
    case StageReturns(key) => s.(pending := s.pending - {key})
    case OpenPark(park) => s.(parks := s.parks[park := Entering], keepsPause := s.parks == map[] || s.keepsPause, status := DEGRADED)
    case DegradedWritten(park) => s.(parks := s.parks[park := Looping])
    case ParkResolved(park) => ResolvePark(s, park)
    case RunningWritten(park) => FinishPark(s, park)
    case CancelPark(park) => ClosePark(s, park)
    case End(final) => s.(status := final)
  }

  /** A cancel reaching a park, or the end of the run, ends the instance. */
  predicate Ends(e: Event) {
    e.CancelPark? || e.End?
  }

  predicate Step(s: State, e: Event, t: State) {
    Enabled(s, e) && !Ends(e) && t == Next(s, e)
  }

  /** `run` is a run of the instance that has not ended: its states in order, by the events between them. */
  ghost predicate IsRun(run: seq<State>, events: seq<Event>) {
    && |run| == |events| + 1
    && forall i | 0 <= i < |events| :: Step(run[i], events[i], run[i+1])
  }

  /** No other park is open when a park's RUNNING write returns. */
  predicate WritesAlone(s: State, e: Event) {
    e.RunningWritten? ==> s.parks.Keys == {e.park}
  }

  /** A run in which that holds of every write; parks may come and go while a write is under way. */
  ghost predicate IsOrderlyRun(run: seq<State>, events: seq<Event>) {
    IsRun(run, events) && forall i | 0 <= i < |events| :: WritesAlone(run[i], events[i])
  }

  // ----- pauses -----

  ghost predicate PauseInv(s: State) {
    && s.status in {RUNNING, PAUSED, DEGRADED}
    && (s.status == DEGRADED <==> s.parks != map[])
    && (s.keepsPause <==> s.parks != map[])
    && (s.status == PAUSED ==> s.pauseHeld)
    && (s.pauseHeld ==> s.status != RUNNING)
    && (forall park | park in s.parks && s.parks[park].WritingRunning? :: s.parks[park].keeps)
  }

  /** The pause is in force: the instance is PAUSED, or the pause is held while a park is open. */
  predicate InEffect(s: State) {
    s.status == PAUSED || (s.status == DEGRADED && s.parks != map[] && s.pauseHeld)
  }

  /** The resume that lifts the pause: from the initiator that paused, an admin, or an unnamed initiator. */
  predicate Lifts(s: State, e: Event) {
    e.Resume? && (e.initiator == "admin" || e.initiator == "" || e.initiator == s.pauseInitiator)
  }

  lemma DeliverKeepsPause(s: State, key: VisitKey, result: TaskResult)
    ensures var t := Deliver(s, key, result);
            && t.status == s.status && t.pauseInitiator == s.pauseInitiator && t.pauseHeld == s.pauseHeld
            && t.keepsPause == s.keepsPause && t.parks == s.parks
            && t.taskVisits == s.taskVisits && t.creating == s.creating && t.router == s.router
  {
  }

  lemma {:induction false} DeliverAllKeepsPause(s: State, held: seq<HeldResult>)
    ensures var t := DeliverAll(s, held);
            && t.status == s.status && t.pauseInitiator == s.pauseInitiator && t.pauseHeld == s.pauseHeld
            && t.keepsPause == s.keepsPause && t.parks == s.parks
            && t.taskVisits == s.taskVisits && t.creating == s.creating && t.router == s.router
    decreases |held|
  {
    if held != [] {
      DeliverKeepsPause(s, held[0].key, held[0].result);
      DeliverAllKeepsPause(Deliver(s, held[0].key, held[0].result), held[1..]);
    }
  }

  lemma WithoutPark(parks: map<ParkId, ParkPhase>, park: ParkId)
    requires park in parks
    ensures |parks| <= 1 ==> parks.Keys == {park}
    ensures |parks| > 1 ==> parks.Keys != {park}
    ensures parks - {park} == map[] <==> |parks| <= 1
  {
    var others := parks.Keys - {park};
    assert |parks.Keys| == |others| + 1;
    assert (parks - {park}).Keys == others;
    assert parks.Keys == others + {park};
  }

  predicate SamePause(s: State, t: State) {
    && t.status == s.status && t.pauseInitiator == s.pauseInitiator && t.pauseHeld == s.pauseHeld
    && t.keepsPause == s.keepsPause && t.parks == s.parks
  }

  /** What one step owes the pause: the invariant, a pause in effect unless lifted, and the right status once no park is open. */
  ghost predicate PauseKept(s: State, e: Event, t: State) {
    && PauseInv(t)
    && (InEffect(s) && !Lifts(s, e) ==> InEffect(t) && t.pauseInitiator == s.pauseInitiator)
    && (s.parks != map[] && t.parks == map[] ==> if InEffect(s) then t.status == PAUSED else t.status == RUNNING && !t.pauseHeld)
  }

  predicate TouchesPause(e: Event) {
    e.Pause? || e.Resume? || e.OpenPark? || e.DegradedWritten? || e.ParkResolved? || e.RunningWritten? || Ends(e)
  }

  lemma OthersLeavePause(s: State, e: Event)
    requires Enabled(s, e) && !TouchesPause(e)
    ensures SamePause(s, Next(s, e))
  {
    if e.RouterReturns? && s.router == Resuming {
      DeliverAllKeepsPause(s.(heldResults := []), s.heldResults);
    }
  }

  lemma PauseSignalKeeps(s: State, initiator: Initiator)
    requires PauseInv(s)
    ensures PauseKept(s, Pause(initiator), TakePause(s, initiator))
  {
  }

  lemma ResumeSignalKeeps(s: State, initiator: Initiator)
    requires PauseInv(s)
    ensures PauseKept(s, Resume(initiator), TakeResume(s, initiator))
  {
  }

  lemma OpeningKeeps(s: State, park: ParkId)
    requires PauseInv(s) && Enabled(s, OpenPark(park))
    ensures PauseKept(s, OpenPark(park), Next(s, OpenPark(park)))
  {
    var t := Next(s, OpenPark(park));
    assert park in t.parks;
  }

  lemma WrittenKeeps(s: State, park: ParkId)
    requires PauseInv(s) && Enabled(s, DegradedWritten(park))
    ensures PauseKept(s, DegradedWritten(park), Next(s, DegradedWritten(park)))
  {
    var t := Next(s, DegradedWritten(park));
    assert t.parks.Keys == s.parks.Keys && park in t.parks;
  }

  lemma ResolvingKeeps(s: State, park: ParkId)
    requires PauseInv(s) && Enabled(s, ParkResolved(park))
    ensures PauseKept(s, ParkResolved(park), ResolvePark(s, park))
  {
    WithoutPark(s.parks, park);
    var t := ResolvePark(s, park);
    if |s.parks| > 1 {
      assert t.parks == s.parks - {park};
    } else if !(s.keepsPause && s.pauseHeld) {
      assert t.parks.Keys == {park};
    }
  }

  lemma FinishingKeeps(s: State, park: ParkId)
    requires PauseInv(s) && Enabled(s, RunningWritten(park)) && s.parks.Keys == {park}
    ensures PauseKept(s, RunningWritten(park), FinishPark(s, park))
  {
    assert s.parks - {park} == map[];
  }

  lemma StepKeepsPauseInv(s: State, e: Event, t: State)
    requires PauseInv(s) && Step(s, e, t) && WritesAlone(s, e)
    ensures PauseKept(s, e, t)
  {
    if e.Pause? {
      PauseSignalKeeps(s, e.initiator);
    } else if e.Resume? {
      ResumeSignalKeeps(s, e.initiator);
    } else if e.OpenPark? {
      OpeningKeeps(s, e.park);
    } else if e.DegradedWritten? {
      WrittenKeeps(s, e.park);
    } else if e.ParkResolved? {
      ResolvingKeeps(s, e.park);
    } else if e.RunningWritten? {
      FinishingKeeps(s, e.park);
    } else {
      OthersLeavePause(s, e);
    }
  }

  lemma {:induction false} RunKeepsPauseInv(run: seq<State>, events: seq<Event>, i: nat)
    requires IsOrderlyRun(run, events) && run[0] == INITIAL && i < |run|
    ensures PauseInv(run[i])
  {
    if i > 0 {
      RunKeepsPauseInv(run, events, i - 1);
      StepKeepsPauseInv(run[i-1], events[i-1], run[i]);
    }
  }

  /** A pause in effect at point `i` of a run is in effect, with its initiator, as long as no resume entitled to lift it comes. */
  lemma {:induction false} PauseStaysUntilLifted(run: seq<State>, events: seq<Event>, i: nat, j: nat)
    requires IsOrderlyRun(run, events) && run[0] == INITIAL
    requires i <= j < |run| && InEffect(run[i])
    requires forall k | i <= k < j :: !Lifts(run[k], events[k])
    ensures InEffect(run[j]) && run[j].pauseInitiator == run[i].pauseInitiator
  {
    if i < j {
      PauseStaysUntilLifted(run, events, i, j - 1);
      RunKeepsPauseInv(run, events, j - 1);
      StepKeepsPauseInv(run[j-1], events[j-1], run[j]);
    }
  }

  /**
   Who ends a pause: a step ends a pause in effect, or changes its initiator, exactly if it is a resume by the initiator
   that paused, an admin or an unnamed initiator.
   */
  lemma PauseEndsExactlyByItsResume(run: seq<State>, events: seq<Event>, i: nat)
    requires IsOrderlyRun(run, events) && run[0] == INITIAL && i < |events| && InEffect(run[i])
    ensures !(InEffect(run[i+1]) && run[i+1].pauseInitiator == run[i].pauseInitiator) <==>
            events[i].Resume? &&
              (events[i].initiator == "admin" || events[i].initiator == "" || events[i].initiator == run[i].pauseInitiator)
  {
    RunKeepsPauseInv(run, events, i);
    StepKeepsPauseInv(run[i], events[i], run[i+1]);
    if events[i].Resume? {
      ResumeBecomes(run, events, i);
    }
  }

  /**
   What a resume does: with no park open one entitled to lift the pause sets RUNNING and has the router release what is
   held, inside a park it only takes the held pause away, and any other resume changes nothing.
   */
  lemma ResumeBecomes(run: seq<State>, events: seq<Event>, i: nat)
    requires IsOrderlyRun(run, events) && run[0] == INITIAL && i < |events| && events[i].Resume?
    ensures run[i+1] ==
              if !InEffect(run[i]) || !Lifts(run[i], events[i]) then run[i]
              else if run[i].parks == map[] then run[i].(status := RUNNING, pauseInitiator := "", pauseHeld := false, router := Resuming)
              else run[i].(pauseInitiator := "", pauseHeld := false)
  {
    RunKeepsPauseInv(run, events, i);
  }

  /** A pause taken while nothing is paused is accepted, wherever the run stands: at once, or held by the park; a second one is dropped. */
  lemma PauseTakesEffect(run: seq<State>, events: seq<Event>, i: nat)
    requires IsOrderlyRun(run, events) && run[0] == INITIAL && i < |events| && events[i].Pause?
    ensures InEffect(run[i+1])
    ensures run[i+1] ==
              if InEffect(run[i]) then run[i]
              else if run[i].parks == map[] then
                run[i].(status := PAUSED, pauseInitiator := events[i].initiator, pauseHeld := true, router := Pausing)
              else run[i].(pauseInitiator := events[i].initiator, pauseHeld := true)
  {
    RunKeepsPauseInv(run, events, i);
  }

  /**
   What a resolved park does: while others are open it just closes; alone it closes into a held pause at once, and
   otherwise goes on to write RUNNING, still open.
   */
  lemma ResolvedParkBecomes(run: seq<State>, events: seq<Event>, i: nat)
    requires IsOrderlyRun(run, events) && run[0] == INITIAL && i < |events| && events[i].ParkResolved?
    ensures var s, park := run[i], events[i].park;
      run[i+1] ==
        if s.parks.Keys != {park} then s.(parks := s.parks - {park})
        else if s.pauseHeld then s.(parks := map[], keepsPause := false, status := PAUSED)
        else s.(parks := map[park := WritingRunning(true)])
  {
    RunKeepsPauseInv(run, events, i);
    var s, park := run[i], events[i].park;
    assert Step(s, events[i], run[i+1]);
    WithoutPark(s.parks, park);
    if s.parks.Keys == {park} {
      assert s.parks - {park} == map[];
      assert s.parks[park := WritingRunning(true)] == map[park := WritingRunning(true)];
    }
  }

  /** The step that closes the last park leaves the instance PAUSED exactly when a pause is held, and RUNNING otherwise. */
  lemma LastParkLeavesPausedExactlyWhenHeld(run: seq<State>, events: seq<Event>, i: nat)
    requires IsOrderlyRun(run, events) && run[0] == INITIAL && i < |events|
    requires run[i].parks != map[] && run[i+1].parks == map[]
    ensures run[i+1].status == PAUSED <==> run[i].pauseHeld
    ensures run[i+1].status == RUNNING <==> !run[i].pauseHeld
  {
    RunKeepsPauseInv(run, events, i);
    StepKeepsPauseInv(run[i], events[i], run[i+1]);
  }

  /** The write closes the last park exactly when its own is the only one open, and only then leaves the invariant standing. */
  lemma WriteReturnsInOrderExactlyAlone(s: State, park: ParkId)
    requires park in s.parks && s.parks[park].WritingRunning?
    ensures FinishPark(s, park).parks == map[] <==> s.parks.Keys == {park}
    ensures PauseInv(s) ==> (PauseInv(FinishPark(s, park)) <==> s.parks.Keys == {park})
  {
    var t := FinishPark(s, park);
    assert t.parks == s.parks - {park};
    if s.parks.Keys == {park} {
      assert t.parks == map[];
      if PauseInv(s) {
        FinishingKeeps(s, park);
      }
    } else {
      var other :| other in s.parks && other != park;
      assert other in t.parks;
    }
  }

  /** The state with nothing but parks and a pause by `initiator`. */
  function Parked(status: Status, initiator: Initiator, held: bool, keeps: bool, parks: map<ParkId, ParkPhase>): State {
    State(status, initiator, held, keeps, parks, Idle, [], map[], map[], map[], {})
  }

  /** One park, open and on its way to its RUNNING write; no pause it keeps is waiting for it. */
  lemma LonePark(s: State, park: ParkId)
    requires s.parks == map[park := Entering] && !(s.keepsPause && s.pauseHeld)
    ensures var looping := s.(parks := map[park := Looping]);
      && Step(s, DegradedWritten(park), looping)
      && Step(looping, ParkResolved(park), s.(parks := map[park := WritingRunning(s.keepsPause)]))
  {
    var looping := s.(parks := map[park := Looping]);
    assert map[park := Entering][park := Looping] == map[park := Looping];
    assert map[park := Looping][park := WritingRunning(s.keepsPause)] == map[park := WritingRunning(s.keepsPause)];
    WithoutPark(looping.parks, park);
    assert looping.parks.Keys == {park};
  }

  lemma LoneWriteReturns(s: State, park: ParkId)
    requires s.parks == map[park := WritingRunning(s.keepsPause)] && !(s.keepsPause && s.pauseHeld)
    ensures Step(s, RunningWritten(park), s.(parks := map[], keepsPause := false, pauseHeld := false, status := RUNNING))
  {
    assert s.parks - {park} == map[];
  }

  /** A second park opens during the write, and the write returns: the status no longer says that a park is open. */
  lemma SecondParkDuringTheWrite()
    ensures var writing := WritingRunning(true);
      var one := Parked(DEGRADED, "", false, true, map[0 := writing]);
      var two := Parked(DEGRADED, "", false, true, map[0 := writing, 1 := Entering]);
      var held := Parked(DEGRADED, "u", true, true, map[0 := writing, 1 := Entering]);
      && Step(one, OpenPark(1), two)
      && Step(two, RunningWritten(0), Parked(RUNNING, "", false, true, map[1 := Entering]))
      && Step(two, Pause("u"), held)
      && Step(held, RunningWritten(0), Parked(PAUSED, "u", true, false, map[1 := Entering]))
  {
    var both := map[0 := WritingRunning(true), 1 := Entering];
    assert map[0 := WritingRunning(true)][1 := Entering] == both;
    assert both - {0} == map[1 := Entering];
  }

  /** One more step of a run. */
  lemma Then(run: seq<State>, events: seq<Event>, e: Event, t: State) returns (longer: seq<State>, more: seq<Event>)
    requires IsRun(run, events) && Step(run[|events|], e, t)
    ensures longer == run + [t] && more == events + [e] && IsRun(longer, more)
  {
    longer, more := run + [t], events + [e];
    forall i | 0 <= i < |more| ensures Step(longer[i], more[i], longer[i+1]) {
      if i < |events| {
        assert Step(run[i], events[i], run[i+1]);
      }
    }
  }

  /** The one park that is open is written, resolved and closed by its RUNNING write. */
  lemma ParkPasses(run: seq<State>, events: seq<Event>, park: ParkId) returns (longer: seq<State>, more: seq<Event>)
    requires IsRun(run, events) && run[|events|].parks == map[park := Entering]
    requires !(run[|events|].keepsPause && run[|events|].pauseHeld)
    ensures IsRun(longer, more) && more == events + [DegradedWritten(park), ParkResolved(park), RunningWritten(park)]
    ensures run <= longer && longer[|more|] == run[|events|].(parks := map[], keepsPause := false, pauseHeld := false, status := RUNNING)
    ensures longer[|more| - 1].parks.Keys == {park}
  {
    var s := run[|events|];
    LonePark(s, park);
    var writing := s.(parks := map[park := WritingRunning(s.keepsPause)]);
    LoneWriteReturns(writing, park);
    longer, more := Then(run, events, DegradedWritten(park), s.(parks := map[park := Looping]));
    longer, more := Then(longer, more, ParkResolved(park), writing);
    longer, more := Then(longer, more, RunningWritten(park),
                         writing.(parks := map[], keepsPause := false, pauseHeld := false, status := RUNNING));
  }

  /** The first park opens, is resolved and goes on to write RUNNING. */
  lemma ToTheFirstWrite() returns (run: seq<State>, events: seq<Event>)
    ensures IsRun(run, events) && events == [OpenPark(0), DegradedWritten(0), ParkResolved(0)]
    ensures run[0] == INITIAL && run[3] == Parked(DEGRADED, "", false, true, map[0 := WritingRunning(true)])
  {
    run, events := [INITIAL], [];
    var open := Parked(DEGRADED, "", false, true, map[0 := Entering]);
    assert Step(INITIAL, OpenPark(0), open) by { assert map[][0 := Entering] == map[0 := Entering]; }
    run, events := Then(run, events, OpenPark(0), open);
    LonePark(open, 0);
    run, events := Then(run, events, DegradedWritten(0), open.(parks := map[0 := Looping]));
    run, events := Then(run, events, ParkResolved(0), open.(parks := map[0 := WritingRunning(true)]));
  }

  /** A second park opens in the meantime, a pause comes, and the write returns over the open park. */
  lemma ToThePausedPark() returns (run: seq<State>, events: seq<Event>)
    ensures IsRun(run, events) && |events| == 6 && events[4] == Pause("u") && events[5] == RunningWritten(0)
    ensures forall e | e in events :: !e.Resume?
    ensures run[0] == INITIAL
    ensures run[5] == Parked(DEGRADED, "u", true, true, map[0 := WritingRunning(true), 1 := Entering])
    ensures run[6] == Parked(PAUSED, "u", true, false, map[1 := Entering])
  {
    run, events := ToTheFirstWrite();
    var both := map[0 := WritingRunning(true), 1 := Entering];
    SecondParkDuringTheWrite();
    run, events := Then(run, events, OpenPark(1), Parked(DEGRADED, "", false, true, both));
    run, events := Then(run, events, Pause("u"), Parked(DEGRADED, "u", true, true, both));
    run, events := Then(run, events, RunningWritten(0), Parked(PAUSED, "u", true, false, map[1 := Entering]));
  }

  /** A pause taken while the last park writes RUNNING and a second one is open: lost without any resume, no park left open. */
  lemma PauseLostWithoutAResume() returns (run: seq<State>, events: seq<Event>)
    ensures IsRun(run, events) && run[0] == INITIAL && forall e | e in events :: !e.Resume?
    ensures 5 < |events| && events[4] == Pause("u") && InEffect(run[5]) && run[5].pauseInitiator == "u"
    ensures var last := run[|events|]; last.status == RUNNING && !last.pauseHeld && last.parks == map[]
    ensures events[5] == RunningWritten(0) && !WritesAlone(run[5], events[5])
  {
    run, events := ToThePausedPark();
    assert 1 in run[5].parks;
    run, events := ParkPasses(run, events, 1);
  }

  /** An instance can end at any time, and after the end a pause, a resume and a result change nothing. */
  lemma EndIsFinal(s: State, final: Status, e: Event)
    requires final in {COMPLETED, TERMINATED, FAILED}
    ensures Enabled(s, End(final)) && Next(s, End(final)) == s.(status := final)
    ensures Enabled(s.(status := final), e) && (e.Pause? || e.Resume? || e.Result?) ==>
              Next(s.(status := final), e) == s.(status := final)
  {
  }

  /** In a park that keeps no pauses, neither a pause nor a resume is taken. */
  lemma OnlyAKeepingParkTakesPauses(s: State, e: Event)
    requires s.status == DEGRADED && !s.keepsPause && Enabled(s, e) && (e.Pause? || e.Resume?)
    ensures Next(s, e) == s
  {
  }

  /** A cancel takes its own park away and no other; pauses are kept as long as another one is open. */
  lemma CancelClosesItsPark(s: State, park: ParkId)
    requires Enabled(s, CancelPark(park))
    ensures Next(s, CancelPark(park)) == s.(parks := s.parks - {park}, keepsPause := s.keepsPause && s.parks.Keys != {park})
  {
    WithoutPark(s.parks, park);
  }

  // ----- results -----

  /** The results received in a run up to a point. */
  function Arrived(events: seq<Event>): map<VisitKey, TaskResult> {
    if events == [] then map[]
    else
      var before := Arrived(events[..|events|-1]);
      match events[|events|-1]
      case Result(key, result) => before[key := result]
      case _ => before
  }

  /** One result comes for a node visit. */
  ghost predicate OneResultPerVisit(events: seq<Event>) {
    forall i, j | 0 <= i < j < |events| && events[i].Result? && events[j].Result? :: events[i].key != events[j].key
  }

  /** The visit's stage has not registered yet. */
  predicate ToCome(s: State, key: VisitKey) {
    key.visit > Visits(s, key.node) || (key.visit == Visits(s, key.node) && key.node in s.creating)
  }

  function HeldKeys(held: seq<HeldResult>): set<VisitKey> {
    set i | 0 <= i < |held| :: held[i].key
  }

  /** The held list keeps each visit's own result, once. */
  ghost predicate HeldOnce(held: seq<HeldResult>, arrived: map<VisitKey, TaskResult>) {
    && (forall i | 0 <= i < |held| :: held[i].key in arrived && arrived[held[i].key] == held[i].result)
    && (forall i, j | 0 <= i < j < |held| :: held[i].key != held[j].key)
  }

  function Get<K, V>(m: map<K, V>, key: K): Option<V> {
    if key in m then Some(m[key]) else None
  }

  /** One visit's result in one place: `buffered`, in its stage's `slot`, or held; nowhere before it came, nor once it is read. */
  predicate Fits(buffered: Option<TaskResult>, slot: Option<Slot>, toCome: bool, held: bool, arrived: Option<TaskResult>) {
    && (buffered.Some? ==> slot.None? && !held && arrived == buffered)
    && (slot.Some? ==> !toCome)
    && (slot.Some? && slot.value != Waiting ==> !held && arrived.Some?)
    && (slot.Some? && slot.value.Holding? ==> arrived == Some(slot.value.result))
    && (slot == Some(Waiting) && arrived.Some? ==> held)
    && (toCome && arrived.Some? ==> buffered.Some? || held)
  }

  predicate Placed(s: State, held: set<VisitKey>, arrived: map<VisitKey, TaskResult>, key: VisitKey) {
    Fits(Get(s.pendingSignals, key), Get(s.pending, key), ToCome(s, key), key in held, Get(arrived, key))
  }

  ghost predicate Located(s: State, held: seq<HeldResult>, arrived: map<VisitKey, TaskResult>) {
    && HeldOnce(held, arrived)
    && forall key :: Placed(s, HeldKeys(held), arrived, key)
  }

  /** Between a resume and the release of what it held no pause can come, so what is released is delivered, park or no park. */
  predicate ReleaseInv(s: State) {
    && s.status in {RUNNING, PAUSED, DEGRADED}
    && (s.router == Resuming ==> s.status != PAUSED && !s.pauseHeld)
  }

  /** Handing over one held result moves that visit's result to its stage or to the buffer, and no other. */
  lemma DeliverPlaces(s: State, first: HeldResult, held: set<VisitKey>, arrived: map<VisitKey, TaskResult>, key: VisitKey)
    requires s.status == RUNNING || s.status == DEGRADED
    requires first.key in held && first.key in arrived && arrived[first.key] == first.result
    requires Placed(s, held, arrived, key) && Placed(s, held, arrived, first.key)
    ensures Placed(Deliver(s, first.key, first.result), held - {first.key}, arrived, key)
  {
    var t := Deliver(s, first.key, first.result);
    assert ToCome(t, key) == ToCome(s, key);
    if key != first.key {
      assert key in t.pending <==> key in s.pending;
      assert key in t.pendingSignals <==> key in s.pendingSignals;
    }
  }

  lemma DeliverOneHeld(s: State, held: seq<HeldResult>, arrived: map<VisitKey, TaskResult>)
    requires Located(s, held, arrived) && held != [] && (s.status == RUNNING || s.status == DEGRADED)
    ensures Located(Deliver(s, held[0].key, held[0].result), held[1..], arrived)
    ensures Deliver(s, held[0].key, held[0].result).heldResults == s.heldResults
  {
    HeldTail(held, arrived);
    forall key ensures Placed(Deliver(s, held[0].key, held[0].result), HeldKeys(held[1..]), arrived, key) {
      assert Placed(s, HeldKeys(held), arrived, key);
      assert Placed(s, HeldKeys(held), arrived, held[0].key);
      DeliverPlaces(s, held[0], HeldKeys(held), arrived, key);
    }
  }

  lemma HeldTail(held: seq<HeldResult>, arrived: map<VisitKey, TaskResult>)
    requires HeldOnce(held, arrived) && held != []
    ensures HeldOnce(held[1..], arrived)
    ensures held[0].key in HeldKeys(held) && HeldKeys(held[1..]) == HeldKeys(held) - {held[0].key}
  {
    forall key | key in HeldKeys(held) - {held[0].key} ensures key in HeldKeys(held[1..]) {
      var i :| 0 <= i < |held| && held[i].key == key;
      assert held[1..][i-1].key == key;
    }
  }

  lemma {:induction false} DeliverAllHeld(s: State, held: seq<HeldResult>, arrived: map<VisitKey, TaskResult>)
    requires Located(s, held, arrived) && (held != [] ==> s.status in {RUNNING, DEGRADED})
    ensures Located(DeliverAll(s, held), [], arrived) && DeliverAll(s, held).heldResults == s.heldResults
    decreases |held|
  {
    if held != [] {
      DeliverOneHeld(s, held, arrived);
      DeliverAllHeld(Deliver(s, held[0].key, held[0].result), held[1..], arrived);
    }
  }

  lemma DeliverKeepsVisits(s: State, key: VisitKey, result: TaskResult, k: VisitKey)
    ensures ToCome(Deliver(s, key, result), k) == ToCome(s, k)
  {
    var t := Deliver(s, key, result);
    assert t.taskVisits == s.taskVisits && t.creating == s.creating;
  }

  lemma GetOther<K, V>(m: map<K, V>, key: K, value: V, k: K)
    requires k != key
    ensures Get(m[key := value], k) == Get(m, k)
  {
  }

  lemma DeliverLeavesOthers(s: State, key: VisitKey, result: TaskResult, k: VisitKey)
    requires k != key
    ensures Get(Deliver(s, key, result).pending, k) == Get(s.pending, k)
    ensures Get(Deliver(s, key, result).pendingSignals, k) == Get(s.pendingSignals, k)
  {
    GetOther(s.pendingSignals, key, result, k);
    if key in s.pending {
      GetOther(s.pending, key, Send(s.pending[key], result), k);
    }
  }

  /** A result's arrival changes nothing for any other visit. */
  lemma ReceiveLeavesOthers(s: State, held: set<VisitKey>, arrived: map<VisitKey, TaskResult>,
                            key: VisitKey, result: TaskResult, k: VisitKey)
    requires k != key && Placed(s, held, arrived, k)
    ensures Placed(Deliver(s, key, result), if s.status == PAUSED then held + {key} else held, arrived[key := result], k)
  {
    DeliverKeepsVisits(s, key, result, k);
    DeliverLeavesOthers(s, key, result, k);
    assert Get(arrived[key := result], k) == Get(arrived, k);
    assert k in held + {key} <==> k in held;
  }

  lemma ReceivePlacesOwn(s: State, held: set<VisitKey>, arrived: map<VisitKey, TaskResult>, key: VisitKey, result: TaskResult)
    requires s.status in {RUNNING, PAUSED, DEGRADED} && key !in arrived && key !in held
    requires Placed(s, held, arrived, key)
    ensures Placed(Deliver(s, key, result), if s.status == PAUSED then held + {key} else held, arrived[key := result], key)
  {
    var t := Deliver(s, key, result);
    assert Get(arrived, key) == None && Get(arrived[key := result], key) == Some(result);
    assert Get(s.pendingSignals, key) == None;
    assert Get(s.pending, key) in {None, Some(Waiting)};
    DeliverKeepsVisits(s, key, result, key);
    if s.status == PAUSED {
      assert Get(t.pending, key) == Get(s.pending, key) && Get(t.pendingSignals, key) == None;
    } else if key in s.pending {
      assert Get(t.pending, key) == Some(Holding(result)) && Get(t.pendingSignals, key) == None;
    } else {
      assert Get(t.pending, key) == None && Get(t.pendingSignals, key) == Some(result);
    }
  }

  lemma HeldOneMore(held: seq<HeldResult>, arrived: map<VisitKey, TaskResult>, h: HeldResult)
    requires HeldOnce(held, arrived) && h.key !in arrived
    ensures HeldOnce(held, arrived[h.key := h.result]) && HeldOnce(held + [h], arrived[h.key := h.result])
    ensures HeldKeys(held + [h]) == HeldKeys(held) + {h.key} && h.key !in HeldKeys(held)
  {
    assert (held + [h])[|held|] == h;
    forall k | k in HeldKeys(held) ensures k in HeldKeys(held + [h]) {
      var i :| 0 <= i < |held| && held[i].key == k;
      assert (held + [h])[i].key == k;
    }
  }

  lemma ReceivePlaces(s: State, held: set<VisitKey>, arrived: map<VisitKey, TaskResult>,
                      key: VisitKey, result: TaskResult, k: VisitKey)
    requires s.status in {RUNNING, PAUSED, DEGRADED} && key !in arrived && key !in held && Placed(s, held, arrived, k)
    ensures Placed(Deliver(s, key, result), if s.status == PAUSED then held + {key} else held, arrived[key := result], k)
  {
    if k == key {
      ReceivePlacesOwn(s, held, arrived, key, result);
    } else {
      ReceiveLeavesOthers(s, held, arrived, key, result, k);
    }
  }

  lemma ReceiveKeepsLocated(s: State, arrived: map<VisitKey, TaskResult>, key: VisitKey, result: TaskResult)
    requires Located(s, s.heldResults, arrived) && key !in arrived
    requires s.status in {RUNNING, PAUSED, DEGRADED}
    ensures var t := Deliver(s, key, result);
            Located(t, t.heldResults, arrived[key := result])
  {
    var t, held, arrivedNow := Deliver(s, key, result), HeldKeys(s.heldResults), arrived[key := result];
    HeldOneMore(s.heldResults, arrived, HeldResult(key, result));
    assert HeldKeys(t.heldResults) == if s.status == PAUSED then held + {key} else held;
    forall k: VisitKey ensures Placed(t, HeldKeys(t.heldResults), arrivedNow, k) {
      assert Placed(s, held, arrived, k);
      ReceivePlaces(s, held, arrived, key, result, k);
    }
  }

  /** Registering takes the visit out of the buffer and into its stage's slot, with the result if it was there. */
  lemma RegisterLooks(s: State, node: NodeKey, k: VisitKey)
    ensures var key, t := VisitKey(node, Visits(s, node)), Register(s, node);
      && (k != key ==> Get(t.pending, k) == Get(s.pending, k) && Get(t.pendingSignals, k) == Get(s.pendingSignals, k))
      && (k == key ==> Get(t.pendingSignals, k) == None
                       && Get(t.pending, k) == Some(if k in s.pendingSignals then Holding(s.pendingSignals[k]) else Waiting))
  {
  }

  lemma RegisterToCome(s: State, node: NodeKey, k: VisitKey)
    requires node in s.creating
    ensures var key, t := VisitKey(node, Visits(s, node)), Register(s, node);
            ToCome(s, key) && (ToCome(t, k) <==> ToCome(s, k) && k != key)
  {
    var t := Register(s, node);
    assert t.taskVisits == s.taskVisits && t.creating == s.creating - {node};
    assert Visits(t, k.node) == Visits(s, k.node);
  }

  lemma RegisterPlaces(s: State, held: set<VisitKey>, arrived: map<VisitKey, TaskResult>, node: NodeKey, k: VisitKey)
    requires node in s.creating && Placed(s, held, arrived, k)
    ensures Placed(Register(s, node), held, arrived, k)
  {
    RegisterLooks(s, node, k);
    RegisterToCome(s, node, k);
    FitsOnceRegistered(Get(s.pendingSignals, k), Get(s.pending, k), ToCome(s, k), k in held, Get(arrived, k));
  }

  lemma FitsOnceRegistered(buffered: Option<TaskResult>, slot: Option<Slot>, toCome: bool, held: bool, arrived: Option<TaskResult>)
    requires Fits(buffered, slot, toCome, held, arrived)
    ensures toCome ==> Fits(None, Some(if buffered.Some? then Holding(buffered.value) else Waiting), false, held, arrived)
  {
  }

  lemma RegisterKeepsLocated(s: State, arrived: map<VisitKey, TaskResult>, node: NodeKey)
    requires Located(s, s.heldResults, arrived) && node in s.creating
    ensures var t := Register(s, node);
            Located(t, t.heldResults, arrived)
  {
    forall k ensures Placed(Register(s, node), HeldKeys(s.heldResults), arrived, k) {
      assert Placed(s, HeldKeys(s.heldResults), arrived, k);
      RegisterPlaces(s, HeldKeys(s.heldResults), arrived, node, k);
    }
  }

  /** Events that move no result: at most a visit starts, fails to be created, is read or returns. */
  predicate MovesNoResult(s: State, e: Event) {
    !e.Result? && !e.TaskCreated? && !(e.RouterReturns? && s.router == Resuming)
  }

  lemma OtherResults(s: State, e: Event)
    requires Enabled(s, e) && MovesNoResult(s, e)
    ensures Next(s, e).heldResults == s.heldResults && Next(s, e).pendingSignals == s.pendingSignals
    ensures !e.StageReads? && !e.StageReturns? ==> Next(s, e).pending == s.pending
  {
    if e.ParkResolved? {
      assert SameResults(s, ResolvePark(s, e.park));
    } else if e.RunningWritten? {
      assert SameResults(s, FinishPark(s, e.park));
    } else if e.Pause? {
      assert SameResults(s, TakePause(s, e.initiator));
    } else if e.Resume? {
      assert SameResults(s, TakeResume(s, e.initiator));
    } else if !e.StageReads? && !e.StageReturns? {
      assert SameResults(s, Next(s, e));
    }
  }

  predicate SameResults(s: State, t: State) {
    t.heldResults == s.heldResults && t.pendingSignals == s.pendingSignals && t.pending == s.pending
  }

  lemma OtherLooks(s: State, e: Event, k: VisitKey)
    requires Enabled(s, e) && MovesNoResult(s, e)
    ensures var t := Next(s, e);
            && t.heldResults == s.heldResults && t.pendingSignals == s.pendingSignals
            && Get(t.pending, k) in {None, Get(s.pending, k),
                                  if Get(s.pending, k).Some? && s.pending[k].Holding? then Some(Drained) else None}
  {
    OtherResults(s, e);
    if e.StageReads? {
      assert Next(s, e).pending == s.pending[e.key := Drained];
    } else if e.StageReturns? {
      assert Next(s, e).pending == s.pending - {e.key};
    }
  }

  lemma OtherPlaces(s: State, e: Event, held: set<VisitKey>, arrived: map<VisitKey, TaskResult>, k: VisitKey)
    requires Enabled(s, e) && MovesNoResult(s, e) && Placed(s, held, arrived, k)
    ensures Placed(Next(s, e), held, arrived, k)
  {
    OtherLooks(s, e, k);
    VisitsToCome(s, e, k);
  }

  /** Starting a visit makes no visit registered or unregistered; a visit that fails to be created is no longer to come. */
  lemma VisitsToCome(s: State, e: Event, k: VisitKey)
    requires Enabled(s, e) && MovesNoResult(s, e)
    ensures ToCome(Next(s, e), k) ==> ToCome(s, k)
  {
    var t := Next(s, e);
    if e.StartStage? {
      assert Visits(t, k.node) == Visits(s, k.node) + if k.node == e.node then 1 else 0;
    } else {
      OtherVisits(s, e);
      assert Visits(t, k.node) == Visits(s, k.node);
    }
  }

  lemma OtherVisits(s: State, e: Event)
    requires Enabled(s, e) && MovesNoResult(s, e) && !e.StartStage?
    ensures Next(s, e).taskVisits == s.taskVisits && Next(s, e).creating <= s.creating
  {
    if !e.TaskNotCreated? {
      OthersLeaveVisits(s, e);
    }
  }

  lemma OthersLeaveVisits(s: State, e: Event)
    requires Enabled(s, e) && MovesNoResult(s, e) && !e.StartStage? && !e.TaskNotCreated?
    ensures SameVisits(s, Next(s, e))
  {
    if e.ParkResolved? {
      assert SameVisits(s, ResolvePark(s, e.park));
    } else if e.RunningWritten? {
      assert SameVisits(s, FinishPark(s, e.park));
    } else if e.Pause? {
      assert SameVisits(s, TakePause(s, e.initiator));
    } else if e.Resume? {
      assert SameVisits(s, TakeResume(s, e.initiator));
    }
  }

  predicate SameVisits(s: State, t: State) {
    t.taskVisits == s.taskVisits && t.creating == s.creating
  }

  lemma OthersKeepLocated(s: State, e: Event, t: State, arrived: map<VisitKey, TaskResult>)
    requires Located(s, s.heldResults, arrived)
    requires Step(s, e, t) && MovesNoResult(s, e)
    ensures t.heldResults == s.heldResults && Located(t, t.heldResults, arrived)
  {
    OtherLooks(s, e, VisitKey("", 0));
    forall k ensures Placed(t, HeldKeys(s.heldResults), arrived, k) {
      assert Placed(s, HeldKeys(s.heldResults), arrived, k);
      OtherPlaces(s, e, HeldKeys(s.heldResults), arrived, k);
    }
  }

  lemma StepKeepsLocated(s: State, e: Event, t: State, arrived: map<VisitKey, TaskResult>)
    requires ReleaseInv(s) && Step(s, e, t)
    requires Located(s, s.heldResults, arrived)
    requires e.Result? ==> e.key !in arrived
    ensures Located(t, t.heldResults, if e.Result? then arrived[e.key := e.result] else arrived)
  {
    match e
    case Result(key, result) => ReceiveKeepsLocated(s, arrived, key, result);
    case TaskCreated(node) => RegisterKeepsLocated(s, arrived, node);
    case RouterReturns =>
      if s.router == Resuming {
        ReleaseKeepsLocated(s, arrived);
      } else {
        OthersKeepLocated(s, e, t, arrived);
      }
    case _ => OthersKeepLocated(s, e, t, arrived);
  }

  lemma ReleaseKeepsLocated(s: State, arrived: map<VisitKey, TaskResult>)
    requires Located(s, s.heldResults, arrived) && s.status in {RUNNING, DEGRADED}
    ensures var t := ReleaseHeldResults(s).(router := Idle);
            t.heldResults == [] && Located(t, [], arrived)
  {
    var u := s.(heldResults := []);
    forall k ensures Placed(u, HeldKeys(s.heldResults), arrived, k) {
      assert Placed(s, HeldKeys(s.heldResults), arrived, k);
    }
    DeliverAllHeld(u, s.heldResults, arrived);
    var v := DeliverAll(u, s.heldResults);
    forall k ensures Placed(v.(router := Idle), HeldKeys([]), arrived, k) {
      assert Placed(v, HeldKeys([]), arrived, k);
    }
  }

  lemma StepKeepsReleaseInv(s: State, e: Event, t: State)
    requires ReleaseInv(s) && Step(s, e, t)
    ensures ReleaseInv(t)
  {
    if e.ParkResolved? {
      assert ReleaseInv(ResolvePark(s, e.park));
    } else if e.RunningWritten? {
      assert ReleaseInv(FinishPark(s, e.park));
    } else if e.Pause? {
      assert ReleaseInv(TakePause(s, e.initiator));
    } else if e.Resume? {
      assert ReleaseInv(TakeResume(s, e.initiator));
    } else if !e.OpenPark? && !e.DegradedWritten? {
      OthersLeavePause(s, e);
      OthersLeaveTheRouter(s, e);
    }
  }

  lemma OthersLeaveTheRouter(s: State, e: Event)
    requires Enabled(s, e) && !TouchesPause(e)
    ensures Next(s, e).router == if e.RouterReturns? then Idle else s.router
  {
  }

  lemma {:induction false} ReleaseEmptiesTheList(s: State, held: seq<HeldResult>)
    requires s.status != PAUSED
    ensures DeliverAll(s, held).heldResults == s.heldResults
    decreases |held|
  {
    if held != [] {
      ReleaseEmptiesTheList(Deliver(s, held[0].key, held[0].result), held[1..]);
    }
  }

  lemma {:induction false} RunKeepsLocated(run: seq<State>, events: seq<Event>, i: nat)
    requires IsRun(run, events) && run[0] == INITIAL && i < |run|
    requires OneResultPerVisit(events)
    ensures Located(run[i], run[i].heldResults, Arrived(events[..i])) && ReleaseInv(run[i])
  {
    if i > 0 {
      RunKeepsLocated(run, events, i - 1);
      assert events[..i][..i-1] == events[..i-1];
      ArrivedEarlier(events, i - 1);
      StepKeepsLocated(run[i-1], events[i-1], run[i], Arrived(events[..i-1]));
      StepKeepsReleaseInv(run[i-1], events[i-1], run[i]);
    }
  }

  lemma {:induction false} ArrivedEarlier(events: seq<Event>, i: nat)
    requires i <= |events|
    ensures forall key | key in Arrived(events[..i]) :: exists k | 0 <= k < i :: events[k] == Result(key, Arrived(events[..i])[key])
  {
    if i > 0 {
      ArrivedEarlier(events, i - 1);
      assert events[..i][..i-1] == events[..i-1];
    }
  }

  /**
   The rendezvous: in whatever order results arrive, stages register, parks open and close and the instance pauses and
   resumes, a waiting stage has its result exactly when that result has arrived and is not held, and it is its own.
   */
  lemma ResultReachesItsStage(run: seq<State>, events: seq<Event>, i: nat, key: VisitKey)
    requires IsRun(run, events) && run[0] == INITIAL && i < |run| && OneResultPerVisit(events)
    requires key in run[i].pending && run[i].pending[key] != Drained
    ensures run[i].pending[key].Holding? <==> key in Arrived(events[..i]) && key !in HeldKeys(run[i].heldResults)
    ensures run[i].pending[key].Holding? ==> run[i].pending[key].result == Arrived(events[..i])[key]
  {
    RunKeepsLocated(run, events, i);
    assert Placed(run[i], HeldKeys(run[i].heldResults), Arrived(events[..i]), key);
  }

  // ----- which visit a stage is -----

  /** How often a node's stage has been started. */
  function Starts(events: seq<Event>, node: NodeKey): nat {
    if events == [] then 0
    else Starts(events[..|events|-1], node) + if events[|events|-1] == StartStage(node) then 1 else 0
  }

  /** A task was created for the visit and its stage has not returned since. */
  ghost predicate RegisteredSince(events: seq<Event>, key: VisitKey, j: nat) {
    && j < |events| && events[j] == TaskCreated(key.node) && Starts(events[..j], key.node) == key.visit
    && forall k | j < k < |events| :: events[k] != StageReturns(key)
  }

  lemma DeliverAllKeepsStages(s: State, held: seq<HeldResult>)
    ensures DeliverAll(s, held).pending.Keys == s.pending.Keys
    ensures forall key | key in s.pending && s.pending[key] == Drained :: DeliverAll(s, held).pending[key] == Drained
    decreases |held|
  {
    if held != [] {
      var t := Deliver(s, held[0].key, held[0].result);
      assert t.pending.Keys == s.pending.Keys;
      DeliverAllKeepsStages(t, held[1..]);
    }
  }

  /** Which stages a step registers and which it takes off. */
  function StagesAfter(s: State, e: Event): set<VisitKey> {
    match e
    case TaskCreated(node) => s.pending.Keys + {VisitKey(node, Visits(s, node))}
    case StageReturns(key) => s.pending.Keys - {key}
    case _ => s.pending.Keys
  }

  lemma OtherStages(s: State, e: Event)
    requires Enabled(s, e) && MovesNoResult(s, e)
    ensures Next(s, e).pending.Keys == StagesAfter(s, e)
  {
    if e.StageReads? {
      assert s.pending[e.key := Drained].Keys == s.pending.Keys;
    } else if e.StageReturns? {
      assert (s.pending - {e.key}).Keys == s.pending.Keys - {e.key};
    } else {
      OtherResults(s, e);
    }
  }

  lemma DeliverKeepsStages(s: State, key: VisitKey, result: TaskResult)
    ensures Deliver(s, key, result).pending.Keys == s.pending.Keys
  {
  }

  lemma RegisterAddsItsVisit(s: State, node: NodeKey)
    ensures Register(s, node).pending.Keys == s.pending.Keys + {VisitKey(node, Visits(s, node))}
  {
  }

  lemma StepStages(s: State, e: Event, t: State)
    requires Step(s, e, t)
    ensures t.pending.Keys == StagesAfter(s, e)
  {
    match e
    case RouterReturns =>
      if s.router == Resuming {
        DeliverAllKeepsStages(s.(heldResults := []), s.heldResults);
      } else {
        OtherStages(s, e);
      }
    case Result(key, result) => DeliverKeepsStages(s, key, result);
    case TaskCreated(node) => RegisterAddsItsVisit(s, node);
    case _ => OtherStages(s, e);
  }

  /** A stage that has read its result stays so, unless its visit is registered again. */
  lemma StepKeepsRead(s: State, e: Event, t: State, key: VisitKey)
    requires Step(s, e, t) && key in s.pending && s.pending[key] == Drained && key in t.pending
    requires e.TaskCreated? ==> key != VisitKey(e.node, Visits(s, e.node))
    ensures t.pending[key] == Drained
  {
    if Releases(s, e) {
      DeliverAllKeepsStages(s.(heldResults := []), s.heldResults);
    } else if e.Result? {
      assert Deliver(s, e.key, e.result).pending[key] == Drained;
    } else if e.TaskCreated? {
      RegisterLooks(s, e.node, key);
    } else {
      OtherResults(s, e);
    }
  }

  lemma StepVisits(s: State, e: Event, t: State, node: NodeKey)
    requires Step(s, e, t)
    ensures Visits(t, node) == Visits(s, node) + if e == StartStage(node) then 1 else 0
  {
    match e
    case RouterReturns =>
      if s.router == Resuming {
        DeliverAllKeepsPause(s.(heldResults := []), s.heldResults);
      }
    case Result(key, result) => DeliverKeepsPause(s, key, result);
    case TaskCreated(_) =>
    case StartStage(_) =>
    case _ => OtherVisits(s, e);
  }

  /** A node's visit number is the number of times its stage was started. */
  lemma {:induction false} VisitsAreStarts(run: seq<State>, events: seq<Event>, i: nat, node: NodeKey)
    requires IsRun(run, events) && run[0] == INITIAL && i < |run|
    ensures Visits(run[i], node) == Starts(events[..i], node)
  {
    if i > 0 {
      VisitsAreStarts(run, events, i - 1, node);
      assert events[..i][..i-1] == events[..i-1];
      StepVisits(run[i-1], events[i-1], run[i], node);
    }
  }

  /** A visit is registered from the creation of its task until its stage returns, under the number of its start. */
  lemma {:induction false} RegisteredUntilItReturns(run: seq<State>, events: seq<Event>, i: nat, key: VisitKey)
    requires IsRun(run, events) && run[0] == INITIAL && i < |run|
    ensures key in run[i].pending <==> exists j: nat :: RegisteredSince(events[..i], key, j)
  {
    if i > 0 {
      var e, before := events[i-1], events[..i-1];
      assert events[..i] == before + [e];
      RegisteredUntilItReturns(run, events, i - 1, key);
      VisitsAreStarts(run, events, i - 1, key.node);
      StepStages(run[i-1], e, run[i]);
      if e == TaskCreated(key.node) && key == VisitKey(key.node, Visits(run[i-1], key.node)) {
        assert events[..i][..i-1] == events[..i-1];
        assert RegisteredSince(events[..i], key, i - 1);
      } else if e != StageReturns(key) {
        RegisteredOneStepLater(before, e, key);
      } else {
        assert events[..i][i-1] == StageReturns(key);
      }
    }
  }

  lemma RegisteredOneStepLater(events: seq<Event>, e: Event, key: VisitKey)
    requires e != StageReturns(key)
    requires e == TaskCreated(key.node) ==> Starts(events, key.node) != key.visit
    ensures (exists j: nat :: RegisteredSince(events + [e], key, j)) <==> exists j: nat :: RegisteredSince(events, key, j)
  {
    var more := events + [e];
    forall j: nat ensures RegisteredSince(more, key, j) <==> RegisteredSince(events, key, j) {
      if j < |events| {
        assert more[..j] == events[..j] && more[|events|] == e;
        assert forall k | 0 <= k < |events| :: more[k] == events[k];
      } else if j == |events| {
        assert more[..j] == events;
      }
    }
  }

  function CreatingAfter(s: State, e: Event): set<NodeKey> {
    match e
    case StartStage(node) => s.creating + {node}
    case TaskCreated(node) => s.creating - {node}
    case TaskNotCreated(node) => s.creating - {node}
    case _ => s.creating
  }

  lemma StepCreating(s: State, e: Event, t: State)
    requires Step(s, e, t)
    ensures t.creating == CreatingAfter(s, e)
  {
    if Releases(s, e) {
      DeliverAllKeepsPause(s.(heldResults := []), s.heldResults);
    } else if MovesNoResult(s, e) && !e.StartStage? && !e.TaskNotCreated? {
      OthersLeaveVisits(s, e);
    }
  }

  /** A registered visit is not still to come, so no task is created for it again. */
  lemma {:induction false} RegisteredIsNotToCome(run: seq<State>, events: seq<Event>, i: nat, key: VisitKey)
    requires IsRun(run, events) && run[0] == INITIAL && i < |run| && key in run[i].pending
    ensures !ToCome(run[i], key)
  {
    var s, e := run[i-1], events[i-1];
    StepStages(s, e, run[i]);
    StepVisits(s, e, run[i], key.node);
    StepCreating(s, e, run[i]);
    if key in s.pending {
      RegisteredIsNotToCome(run, events, i - 1, key);
    }
  }

  /** A stage whose task is being created can register or give up, and a registered one can return, whatever the instance does. */
  lemma StagesGoOn(s: State, node: NodeKey, key: VisitKey)
    ensures node in s.creating ==> Enabled(s, TaskCreated(node)) && Enabled(s, TaskNotCreated(node))
    ensures node !in s.creating ==> Enabled(s, StartStage(node))
    ensures key in s.pending ==> Enabled(s, StageReturns(key))
    ensures key in s.pending && s.pending[key].Holding? ==> Enabled(s, StageReads(key))
  {
  }

  lemma {:induction false} StaysRead(run: seq<State>, events: seq<Event>, i: nat, j: nat, key: VisitKey)
    requires IsRun(run, events) && run[0] == INITIAL && i < j < |run| && events[i] == StageReads(key)
    requires forall k | i < k < j :: events[k] != StageReturns(key)
    ensures key in run[j].pending && run[j].pending[key] == Drained
    decreases j
  {
    StepStages(run[j-1], events[j-1], run[j]);
    if i + 1 < j {
      StaysRead(run, events, i, j - 1, key);
      RegisteredIsNotToCome(run, events, j - 1, key);
      StepKeepsRead(run[j-1], events[j-1], run[j], key);
    }
  }

  /** A stage reads its result once. */
  lemma ReadsOnce(run: seq<State>, events: seq<Event>, i: nat, j: nat, key: VisitKey)
    requires IsRun(run, events) && run[0] == INITIAL && i < j < |events|
    requires events[i] == StageReads(key) && events[j] == StageReads(key)
    ensures exists k :: i < k < j && events[k] == StageReturns(key)
  {
    if forall k | i < k < j :: events[k] != StageReturns(key) {
      assert Step(run[j], events[j], run[j+1]);
      StaysRead(run, events, i, j, key);
    }
  }

  // ----- how long results stay held -----

  /** A resume that lifts the pause a park holds: it sends no release. */
  predicate ResumesInsidePark(s: State, e: Event) {
    s.parks != map[] && s.pauseHeld && Lifts(s, e)
  }

  predicate Releases(s: State, e: Event) {
    e.RouterReturns? && s.router == Resuming
  }

  /** A resume was taken inside a park over results that were held then and have not been released since. */
  ghost predicate StrandedSince(run: seq<State>, events: seq<Event>, i: nat)
    requires i < |run| == |events| + 1
  {
    exists j :: 0 <= j < i && Strands(run, events, j, i)
  }

  ghost predicate Strands(run: seq<State>, events: seq<Event>, j: nat, i: nat)
    requires j < i < |run| == |events| + 1
  {
    run[j].heldResults != [] && ResumesInsidePark(run[j], events[j]) && NoneReleased(run, events, j, i)
  }

  ghost predicate NoneReleased(run: seq<State>, events: seq<Event>, j: nat, i: nat)
    requires i < |run| == |events| + 1
  {
    forall k {:trigger events[k]} | j <= k < i :: !Releases(run[k], events[k])
  }

  lemma ReceivingHolds(s: State, key: VisitKey, result: TaskResult)
    ensures var t := Deliver(s, key, result);
      && SamePause(s, t)
      && t.heldResults == if s.status == PAUSED then s.heldResults + [HeldResult(key, result)] else s.heldResults
  {
    DeliverKeepsPause(s, key, result);
  }

  /** Held results are never dropped: only a release takes them off the list, and all of them. */
  lemma HeldUntilReleased(s: State, e: Event, t: State)
    requires ReleaseInv(s) && Step(s, e, t)
    ensures if Releases(s, e) then t.heldResults == [] else s.heldResults <= t.heldResults
    ensures t.heldResults != [] && s.heldResults == [] ==> s.status == PAUSED && SamePause(s, t)
  {
    if Releases(s, e) {
      ReleaseEmptiesTheList(s.(heldResults := []), s.heldResults);
    } else if e.Result? {
      ReceivingHolds(s, e.key, e.result);
    } else if !e.TaskCreated? {
      OtherResults(s, e);
    }
  }

  /** With no resume under way and no pause in effect, nothing is held, unless a resume inside a park stranded it. */
  predicate HeldForAReason(s: State, stranded: bool) {
    s.heldResults != [] ==> InEffect(s) || s.router == Resuming || stranded
  }

  lemma StepKeepsReason(s: State, e: Event, t: State, stranded: bool)
    requires PauseInv(s) && ReleaseInv(s) && Step(s, e, t) && WritesAlone(s, e) && HeldForAReason(s, stranded)
    ensures HeldForAReason(t, !Releases(s, e) && (stranded || (s.heldResults != [] && ResumesInsidePark(s, e))))
  {
    HeldUntilReleased(s, e, t);
    StepKeepsPauseInv(s, e, t);
    if t.heldResults != [] && !Releases(s, e) && !stranded {
      if s.heldResults == [] {
        assert InEffect(t);
      } else if !TouchesPause(e) {
        OthersLeavePause(s, e);
        OthersLeaveTheRouter(s, e);
      }
    }
  }

  lemma StrandedOneStepLater(run: seq<State>, events: seq<Event>, i: nat)
    requires 0 < i < |run| == |events| + 1 && !Releases(run[i-1], events[i-1])
    ensures StrandedSince(run, events, i - 1) || (run[i-1].heldResults != [] && ResumesInsidePark(run[i-1], events[i-1])) ==>
              StrandedSince(run, events, i)
  {
    if StrandedSince(run, events, i - 1) {
      var j :| 0 <= j < i - 1 && Strands(run, events, j, i - 1);
      assert Strands(run, events, j, i);
    } else if run[i-1].heldResults != [] && ResumesInsidePark(run[i-1], events[i-1]) {
      assert Strands(run, events, i - 1, i);
    }
  }

  lemma {:induction false} HeldAreStranded(run: seq<State>, events: seq<Event>, i: nat)
    requires IsOrderlyRun(run, events) && run[0] == INITIAL && i < |run|
    ensures ReleaseInv(run[i]) && HeldForAReason(run[i], StrandedSince(run, events, i))
  {
    if i > 0 {
      HeldAreStranded(run, events, i - 1);
      RunKeepsPauseInv(run, events, i - 1);
      var s, e := run[i-1], events[i-1];
      StepKeepsReleaseInv(s, e, run[i]);
      StepKeepsReason(s, e, run[i], StrandedSince(run, events, i - 1));
      if !Releases(s, e) {
        StrandedOneStepLater(run, events, i);
      }
    }
  }

  lemma HeldStay(s: State, e: Event, t: State)
    requires ReleaseInv(s) && Step(s, e, t) && !Releases(s, e) && s.heldResults != []
    ensures t.heldResults != []
  {
    HeldUntilReleased(s, e, t);
  }

  lemma {:induction false} HeldAreKept(run: seq<State>, events: seq<Event>, j: nat, i: nat)
    requires IsRun(run, events) && run[0] == INITIAL && j <= i < |run|
    requires run[j].heldResults != [] && NoneReleased(run, events, j, i)
    ensures run[i].heldResults != []
    decreases i
  {
    if j < i {
      RunKeepsReleaseInv(run, events, i - 1);
      HeldAreKept(run, events, j, i - 1);
      HeldStay(run[i-1], events[i-1], run[i]);
    }
  }

  lemma {:induction false} RunKeepsReleaseInv(run: seq<State>, events: seq<Event>, i: nat)
    requires IsRun(run, events) && run[0] == INITIAL && i < |run|
    ensures ReleaseInv(run[i])
  {
    if i > 0 {
      RunKeepsReleaseInv(run, events, i - 1);
      StepKeepsReleaseInv(run[i-1], events[i-1], run[i]);
    }
  }

  /** With no pause in effect and no resume under way, results are held exactly if a resume inside a park stranded them. */
  lemma HeldExactlyWhenStranded(run: seq<State>, events: seq<Event>, i: nat)
    requires IsOrderlyRun(run, events) && run[0] == INITIAL && i < |run|
    requires !InEffect(run[i]) && run[i].router != Resuming
    ensures run[i].heldResults != [] <==> StrandedSince(run, events, i)
  {
    HeldAreStranded(run, events, i);
    if StrandedSince(run, events, i) {
      var j :| 0 <= j < i && Strands(run, events, j, i);
      HeldAreKept(run, events, j, i);
    }
  }

  /** So a waiting stage whose result has arrived has it once the instance is not paused, unless results are stranded. */
  lemma ArrivedIsDelivered(run: seq<State>, events: seq<Event>, i: nat, key: VisitKey)
    requires IsOrderlyRun(run, events) && run[0] == INITIAL && i < |run| && OneResultPerVisit(events)
    requires !InEffect(run[i]) && run[i].router != Resuming && !StrandedSince(run, events, i)
    requires key in run[i].pending && run[i].pending[key] != Drained && key in Arrived(events[..i])
    ensures run[i].pending[key] == Holding(Arrived(events[..i])[key])
  {
    HeldExactlyWhenStranded(run, events, i);
    ResultReachesItsStage(run, events, i, key);
  }

  /** A stage waits, the instance is paused, and the stage's result comes and is held. */
  lemma ToTheHeldResult(node: NodeKey, result: TaskResult) returns (run: seq<State>, events: seq<Event>)
    ensures var key := VisitKey(node, 1);
      && IsRun(run, events)
      && events == [StartStage(node), TaskCreated(node), Pause("u"), RouterReturns, Result(key, result)]
      && run[0] == INITIAL
      && run[5] == State(PAUSED, "u", true, false, map[], Idle, [HeldResult(key, result)], map[key := Waiting], map[], map[node := 1], {})
  {
    var key := VisitKey(node, 1);
    run, events := [INITIAL], [];
    var started := INITIAL.(taskVisits := map[node := 1], creating := {node});
    assert Step(INITIAL, StartStage(node), started) by { assert map[][node := 1] == map[node := 1]; }
    run, events := Then(run, events, StartStage(node), started);
    var waiting := started.(creating := {}, pending := map[key := Waiting]);
    assert Step(started, TaskCreated(node), waiting) by {
      assert {node} - {node} == {} && map[][key := Waiting] == map[key := Waiting];
    }
    run, events := Then(run, events, TaskCreated(node), waiting);
    var paused := waiting.(status := PAUSED, pauseInitiator := "u", pauseHeld := true);
    run, events := Then(run, events, Pause("u"), paused.(router := Pausing));
    run, events := Then(run, events, RouterReturns, paused);
    run, events := Then(run, events, Result(key, result), paused.(heldResults := [HeldResult(key, result)]));
  }

  /**
   A park opens under the pause and the pause is lifted inside it: the instance goes on RUNNING, its router free and
   no park open, with the result still held and its stage still waiting.
   */
  lemma ResultStrandedByAPark(node: NodeKey, result: TaskResult) returns (run: seq<State>, events: seq<Event>)
    ensures IsOrderlyRun(run, events) && run[0] == INITIAL && OneResultPerVisit(events)
    ensures var key, last := VisitKey(node, 1), run[|events|];
      && last.status == RUNNING && last.router == Idle && last.parks == map[] && !last.pauseHeld
      && Result(key, result) in events && last.heldResults == [HeldResult(key, result)]
      && key in last.pending && last.pending[key] == Waiting
  {
    run, events := ToTheHeldResult(node, result);
    var held := run[5];
    var open := held.(parks := map[0 := Entering], keepsPause := true, status := DEGRADED);
    assert Step(held, OpenPark(0), open) by { assert map[][0 := Entering] == map[0 := Entering]; }
    run, events := Then(run, events, OpenPark(0), open);
    var lifted := open.(pauseHeld := false, pauseInitiator := "");
    run, events := Then(run, events, Resume("u"), lifted);
    run, events := ParkPasses(run, events, 0);
    assert events[4] == Result(VisitKey(node, 1), result);
  }

  // ----- registered and buffered -----

  predicate Apart(s: State) {
    s.pending.Keys !! s.pendingSignals.Keys
  }

  lemma {:induction false} DeliverAllKeepsApart(s: State, held: seq<HeldResult>)
    requires Apart(s)
    ensures Apart(DeliverAll(s, held))
    decreases |held|
  {
    if held != [] {
      DeliverKeepsApart(s, held[0].key, held[0].result);
      DeliverAllKeepsApart(Deliver(s, held[0].key, held[0].result), held[1..]);
    }
  }

  lemma DeliverKeepsApart(s: State, key: VisitKey, result: TaskResult)
    requires Apart(s)
    ensures Apart(Deliver(s, key, result))
  {
    var t := Deliver(s, key, result);
    DeliverKeepsStages(s, key, result);
    assert t.pendingSignals.Keys <= s.pendingSignals.Keys + if key in s.pending then {} else {key};
  }

  /** No event of any state makes a visit both registered and buffered. */
  lemma PendingAndBufferedStayApart(s: State, e: Event)
    requires Enabled(s, e) && Apart(s)
    ensures Apart(Next(s, e))
  {
    if e.Result? {
      DeliverKeepsApart(s, e.key, e.result);
    } else if Releases(s, e) {
      DeliverAllKeepsApart(s.(heldResults := []), s.heldResults);
    } else if e.TaskCreated? {
      var key := VisitKey(e.node, Visits(s, e.node));
      assert Register(s, e.node).pending.Keys == s.pending.Keys + {key};
      assert key !in Register(s, e.node).pendingSignals;
    } else {
      OtherResults(s, e);
      assert Next(s, e).pending.Keys <= s.pending.Keys;
    }
  }

  /** In no run, ended or not, is a visit both registered and buffered. */
  lemma {:induction false} PendingAndBufferedAreApart(run: seq<State>, events: seq<Event>, i: nat)
    requires |run| == |events| + 1 && run[0] == INITIAL && i < |run|
    requires forall k | 0 <= k < |events| :: Enabled(run[k], events[k]) && run[k+1] == Next(run[k], events[k])
    ensures run[i].pending.Keys !! run[i].pendingSignals.Keys
  {
    if i > 0 {
      PendingAndBufferedAreApart(run, events, i - 1);
      PendingAndBufferedStayApart(run[i-1], events[i-1]);
    }
  }
}
