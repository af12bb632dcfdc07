/**
 The interpreter's own handlers over its mutable state. Each does what one event of the Interpreter module
 does to the state, or a part of it, and requires what makes that event possible.
 */
module InstanceHandlers {
  import opened Plan
  import opened Interpreter

  class Instance {
    var status: Status
    var pauseInitiator: Initiator
    var pauseHeld: bool
    var degradedKeepsPause: bool
    var parks: map<ParkId, ParkPhase>
    var router: Router
    var heldResults: seq<HeldResult>
    var pending: map<VisitKey, Slot>
    var pendingSignals: map<VisitKey, TaskResult>
    var taskVisits: map<NodeKey, nat>
    var creating: set<NodeKey>

    ghost function View(): State
      reads this
    {
      State(status, pauseInitiator, pauseHeld, degradedKeepsPause, parks, router,
            heldResults, pending, pendingSignals, taskVisits, creating)
    }

    constructor ()
      ensures View() == INITIAL
    {
      status, pauseInitiator, pauseHeld, degradedKeepsPause := RUNNING, "", false, false;
      parks, router, heldResults := map[], Idle, [];
      pending, pendingSignals, taskVisits, creating := map[], map[], map[], {};
    }

    // ----- the signal router -----

    method HandlePause(initiator: Initiator)
      requires router == Idle
      modifies this
      ensures View() == Next(old(View()), Pause(initiator))
    {
      if status == DEGRADED && degradedKeepsPause {
        if pauseHeld {
          return;
        }
        pauseHeld, pauseInitiator := true, initiator;
        return;
      }
      if status != RUNNING {
        return;
      }
      status, pauseInitiator, pauseHeld := PAUSED, initiator, true;
      router := Pausing;
    }

    method HandleResume(initiator: Initiator)
      requires router == Idle
      modifies this
      ensures View() == Next(old(View()), Resume(initiator))
    {
      if status == DEGRADED && degradedKeepsPause {
        if !pauseHeld || !CanResume(pauseInitiator, initiator) {
          return;
        }
        pauseHeld, pauseInitiator := false, "";
        return;
      }
      if status != PAUSED || !CanResume(pauseInitiator, initiator) {
        return;
      }
      status, pauseInitiator, pauseHeld := RUNNING, "", false;
      router := Resuming;
    }

    /** The router's pause or resume activity returned; after a resume the held results are let go. */
    method RouterActivityReturned()
      requires router != Idle
      modifies this
      ensures View() == Next(old(View()), RouterReturns)
    {
      if router == Resuming {
        LetGoHeldResults();
      }
      router := Idle;
    }

    method DeliverResult(key: VisitKey, result: TaskResult)
      modifies this
      ensures View() == Deliver(old(View()), key, result)
    {
      if status == PAUSED {
        heldResults := heldResults + [HeldResult(key, result)];
        return;
      }
      if status != RUNNING && status != DEGRADED {
        return;
      }
      if key in pending {
        pending := pending[key := Send(pending[key], result)];
      } else {
        pendingSignals := pendingSignals[key := result];
      }
    }

    method LetGoHeldResults()
      modifies this
      ensures View() == ReleaseHeldResults(old(View()))
    {
      var held := heldResults;
      heldResults := [];
      var i := 0;
      assert held[0..] == held;
      while i < |held|
        invariant i <= |held|
        invariant DeliverAll(View(), held[i..]) == ReleaseHeldResults(old(View()))
      {
        assert held[i..][1..] == held[i+1..];
        DeliverResult(held[i].key, held[i].result);
        i := i + 1;
      }
    }

    // ----- task stages -----

    method BeginTaskStage(node: NodeKey)
      requires node !in creating
      modifies this
      ensures View() == Next(old(View()), StartStage(node))
    {
      taskVisits := taskVisits[node := (if node in taskVisits then taskVisits[node] else 0) + 1];
      creating := creating + {node};
    }

    /** The task exists: the stage takes a result that came early, and registers for one that has not come. */
    method RegisterTaskStage(node: NodeKey) returns (key: VisitKey)
      requires node in creating
      modifies this
      ensures View() == Next(old(View()), TaskCreated(node))
      ensures key == VisitKey(node, Visits(old(View()), node))
    {
      creating := creating - {node};
      key := VisitKey(node, if node in taskVisits then taskVisits[node] else 0);
      var channel := Waiting;
      if key in pendingSignals {
        channel := Holding(pendingSignals[key]);
        pendingSignals := pendingSignals - {key};
      }
      pending := pending[key := channel];
    }

    method AbandonCreation(node: NodeKey)
      requires node in creating
      modifies this
      ensures View() == Next(old(View()), TaskNotCreated(node))
    {
      creating := creating - {node};
    }

    method ReadResult(key: VisitKey) returns (result: TaskResult)
      requires key in pending && pending[key].Holding?
      modifies this
      ensures result == old(pending[key].result)
      ensures View() == Next(old(View()), StageReads(key))
    {
      result := pending[key].result;
      pending := pending[key := Drained];
    }

    method LeaveTaskStage(key: VisitKey)
      requires key in pending
      modifies this
      ensures View() == Next(old(View()), StageReturns(key))
    {
      pending := pending - {key};
    }

    // ----- parks -----

    method EnterPark(park: ParkId)
      requires park !in parks
      modifies this
      ensures View() == Next(old(View()), OpenPark(park))
    {
      if parks == map[] {
        degradedKeepsPause := true;
      }
      parks := parks[park := Entering];
      status := DEGRADED;
    }

    method ShutPark(park: ParkId)
      modifies this
      ensures View() == ClosePark(old(View()), park)
    {
      parks := parks - {park};
      if parks == map[] {
        degradedKeepsPause := false;
      }
    }

    method StartParkLoop(park: ParkId)
      requires park in parks && parks[park] == Entering
      modifies this
      ensures View() == Next(old(View()), DegradedWritten(park))
    {
      parks := parks[park := Looping];
    }

    /** The park's loop is over: only the last park settles the instance's status, PAUSED if a pause is held. */
    method LeaveParkLoop(park: ParkId)
      requires park in parks && parks[park] == Looping
      modifies this
      ensures View() == Next(old(View()), ParkResolved(park))
    {
      if |parks| > 1 {
        ShutPark(park);
        return;
      }
      var keepsPause := degradedKeepsPause;
      if keepsPause && pauseHeld {
        ShutPark(park);
        degradedKeepsPause, status := false, PAUSED;
        return;
      }
      parks := parks[park := WritingRunning(keepsPause)];
    }

    /** RUNNING is written: a pause that came in the meantime is applied now. */
    method FinishRunningWrite(park: ParkId)
      requires park in parks && parks[park].WritingRunning?
      modifies this
      ensures View() == Next(old(View()), RunningWritten(park))
    {
      var keepsPause := parks[park].keeps;
      ShutPark(park);
      if keepsPause && pauseHeld {
        degradedKeepsPause, status := false, PAUSED;
        return;
      }
      pauseHeld, status := false, RUNNING;
    }
  }
}
