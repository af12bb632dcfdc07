# Execution service: a verified model

This project models the parts of the execution service whose correctness spans several functions or several
concurrent participants, and proves what they promise.

- **The workflow interpreter.** A compiled plan is a tree of steps (`Plan`). `Redirect` and `RedirectSearch` model
  the transformation that computes what is left of a plan from a given department, against a language of paths, and
  `SearchOrder` the order in which it is looked for, by addresses in the plan; `EarlyEnds`, `Residual`, `GuardNeeded`
  and `UnguardedPlans` say what becomes of it when branches end early.
  `Routing` models how a force-forward finds its gateway and branch, `ParallelJoin` a gateway from fork to exit with
  its DEGRADED park, `Respawn` the departments run over repeated force-backs. `Interpreter` is the instance under
  pauses, resumes, parks and task results as a labelled transition system: one event is what one coroutine does
  between two points where coroutines yield. `InstanceHandlers` has the handlers themselves, over the interpreter's
  mutable fields, each proved to do one event. `Messages` has the history stack and the message buffer.
- **The connector worker.** `ConnectorWorker` is any number of workers over one stream and one cache with expiring
  keys, one call of one handler at a time, with duplicate deliveries, lost lease replies and crashes. `WorkerOutcomes`
  says what each decision of a handler goes by, and where everything that is reported comes from.
  `WorkerHandlers` has the worker's steps over mutable state, `Inflight` the in-flight set and the batch claim,
  `Redelivery` the start-up check and what it guarantees over runs.
- **Request and reassignment logic.** `Idempotency` is the wrapper under concurrent requests; `Delegation` and
  `AssignmentTable` are reroute and reverse over the assignment table; `Eligibility` is the batched check against the
  row-by-row one; `Paging` is the cursor walk over a list that changes between calls.
- **ISO 8601 periods.** `Duration` is the parser of the subset of section 4.4.3.2 of ISO 8601:2004 that the
  service accepts, in signed 64-bit arithmetic (`Int64s`).

`dafny verify dfyconfig.toml` checks everything. Every change the source guards with a version is taken as on.

Some properties one might expect hold only under a condition. Each is stated with the condition it holds under exactly:

- A redirect keeps to the plan's paths, early ends included, exactly when the lists around the place found pass a
  guard a caller can compute (`GuardNeeded.KeepsToThePlanExactlyWhenGuarded`): the steps before it can finish; what
  is queued after an enclosing choice that terminates, up to the next parallel branch or sub-workflow, runs nothing;
  and after a parallel branch or sub-workflow whose remainder can end, what is queued can be nothing. Branches off that
  chain are free. The guard suffices in every plan; that it is needed is proved where every department and label has one
  place, and `UnguardedPlans.RepeatedWorkHidesAnEnd` shows that repeated work can hide its failure.
- A force-forward reaches the deepest gateway running its target, and a branch that runs it, exactly when every open
  gateway with an unresolved branch keyed by the target that does not run it has a later gateway running the target
  (`Routing.ForceForwardReachesTheDeepest`). Keys are branch places in decimal, so only an id that is such a numeral is
  ever misled (`Routing.NumeralIdTakesTheWrongBranch`).
- A park's RUNNING write leaves the pause and the status in order exactly when no other park is open as it returns
  (`Interpreter.WriteReturnsInOrderExactlyAlone`); otherwise a pause can be lost without any resume
  (`Interpreter.PauseLostWithoutAResume`).
- A waiting stage has its result exactly when it has arrived and is not held (`Interpreter.ResultReachesItsStage`). With
  no pause in effect and no resume under way, results are held exactly if a resume inside a park stranded them
  (`Interpreter.HeldExactlyWhenStranded`), as `Interpreter.ResultStrandedByAPark` shows.
- The start-up check multiplies in 64 bits; it gives its bound exactly when that product fits
  (`Redelivery.CheckGivesTheBound`, `Redelivery.WrappedProductPasses`).
- Reverse undoes Reroute exactly when the delegate held none of the moved tasks and nothing tagged with the
  delegation (`Delegation.ReverseUndoesReroute`). Replacing a delegate, which adopts nothing, drops a task's lead
  exactly when the new delegate already had the task (`Delegation.ReplaceDelegateKeepsTheLead`).

## Model

| member | source | states |
|---|---|---|
| Redirect.RedirectKeepsTheRest | internal/workflow/workflow.go:231-269 | Reading paths without their early end, in every well-formed plan: whenever a continuation is found there is one prefix that turns every path of the continuation into a path of the original list, the suffix starting where the target runs or at the start of a parallel branch labelled with it; and the continuation has a path. So no work queued after any enclosing gateway is dropped. |
| Redirect.FindKeepsShape | internal/workflow/workflow.go:231-269 | The continuation of a well-formed list is well formed, and of a list without early ends has none. |
| Redirect.RedirectFindsWhatPathsName | internal/workflow/workflow.go:231-269 | A continuation is found if and only if some path of the list runs the department or enters a parallel branch labelled with it. |
| EarlyEnds.MayIsExact | internal/workflow/dispatch.go:219-240 | What a list is computed to be able to do, end or finish, running something or nothing, is exactly what its paths do. |
| EarlyEnds.GuardedKeepsTheRest | internal/workflow/workflow.go:231-269 | With early ends, in every well-formed plan whose chain to the target is guarded: one prefix turns every path of the continuation, ended or not, into a path of the plan from the target on. |
| EarlyEnds.NoEndsIsGuarded | internal/workflow/workflow.go:231-269 | A plan without terminating branches is guarded for every department found in it. |
| Residual.RedirectIsResidual | internal/workflow/workflow.go:231-269 | With one place for the department, the continuation's paths from it are exactly the ways a path of the plan can go on from it, both directions; with early ends, on a guarded chain with a continuation that cannot end. |
| GuardNeeded.GuardIsNeeded | internal/workflow/workflow.go:231-269 | Level by level: if the continuation's paths complete the list's, up to the ends the context allows to differ, the guard holds. |
| GuardNeeded.KeepsToThePlanExactlyWhenGuarded | internal/workflow/workflow.go:240-269 | Where every department and label has one place, every path of the continuation, ends included, is a suffix of a path of the plan if and only if the chain is guarded. |
| UnguardedPlans.SiblingEndIsHarmless | internal/workflow/workflow.go:255-262 | A terminating branch beside the target's own does not touch the guard, whatever is queued after the gateway. |
| UnguardedPlans.RepeatedWorkHidesAnEnd | internal/workflow/dispatch.go:225-240 | With one place for the target but repeated work after it, a continuation can keep to the plan without the guard. |
| UnguardedPlans.RedirectRunsPastAnEnd | internal/workflow/workflow.go:255-262 | Under a terminating branch with work queued after it the guard fails, and the continuation has a path that is a suffix of no run of the plan: it goes on past the end. |
| UnguardedPlans.RedirectDropsWorkAfterAJoin | internal/workflow/workflow.go:247-254 | With an end later in a parallel branch and work after the join the guard fails, and the continuation ends where the plan would still run that work. |
| RedirectSearch.NamedIsFound | internal/workflow/workflow.go:196-229 | A list names the department, at any depth and in any error, timer or message path, if and only if the search of the list or of its collected paths finds it. |
| RedirectSearch.FallbackExactlyWhenUnnamed | internal/workflow/workflow.go:163-229 | The isolated one-department fallback is taken exactly when the plan names the department nowhere: main steps, stage boundary paths, sub-workflow paths, any nesting. |
| SearchOrder.SearchedInOrder | internal/workflow/workflow.go:175-229 | The lists a redirect searches are the plan's own, each once, in the order of their addresses: the main list; the boundary paths inside it, step by step, in a sub-workflow its error, timer and message paths before what is inside them; then each stage's timer and message path, each before what is inside it. |
| SearchOrder.RedirectRunsTheFirstNamed | internal/workflow/workflow.go:163-173 | A redirect to a department named nowhere runs that department alone; otherwise it runs the continuation in the list at the first address whose list names it. |
| RedirectSearch.ReachableIsFound | internal/workflow/degraded.go:368-388 | A department the steps can run is always found by the redirect search. |
| Routing.ItoaInjective | internal/workflow/degraded.go:342-352 | Two branches of a gateway never share a key. |
| Routing.SomethingIsPicked | internal/workflow/degraded.go:354-366 | A branch is picked exactly when an unresolved branch runs the target or is keyed by it. |
| Routing.PicksTheFirst | internal/workflow/degraded.go:354-366 | Of several unresolved branches that run the target the first is picked, unless an unresolved branch is keyed by the target. |
| Routing.PicksRightUnlessMisled | internal/workflow/degraded.go:354-388 | The pick is an unresolved branch that runs the target, and is made whenever there is one, if and only if no unresolved branch is keyed by the target without running it. |
| Routing.NumeralIdTakesTheWrongBranch | internal/workflow/degraded.go:354-366 | An id equal to a branch's place takes that branch although another one runs the target. |
| Routing.InnermostIsLast | internal/workflow/degraded.go:332-340 | The gateway found is the last opened one with an unresolved branch running the target, with a branch that does, if and only if every gateway with a misleading key has a later one running the target. |
| Routing.OnePlaceNests | internal/workflow/degraded.go:368-388 | Two steps that both run a department with one place in the plan are one inside the other. |
| Routing.RunsExactlyAtAnAddress | internal/workflow/degraded.go:368-388 | A list runs a department if and only if an address in it, down through gateways and sub-workflow plans, leads to a sequential step with that department. |
| Routing.OpeningKeepsOrder | internal/workflow/degraded.go:34-52 | In every list of open gateways that opening, resolving and closing can lead to, no gateway stands inside a later one. |
| Routing.OpensExactlyWhenFree | internal/workflow/degraded.go:34-52 | A gateway can open at a parallel step if and only if none stands at that step or inside it, and opens with nothing resolved. |
| Routing.ResolvedIsNotPickedAgain | internal/workflow/degraded.go:354-366 | Resolving a branch takes that branch out and no other, and no force-forward picks it again. |
| Routing.ClosedIsGone | internal/workflow/degraded.go:45-51 | A gateway that is over is gone and the others stay as they are, in order. |
| Routing.ForceForwardReachesTheDeepest | internal/workflow/signals.go:237-258 | In every list of open gateways a run can reach, with one place for the department: a force-forward goes to the deepest gateway with an unresolved branch running the target, and to such a branch, under that same condition and only then. |
| NodeKeys.DeptOfKey | internal/workflow/dispatch.go:144-150 | The department is read back from a node key when its id has no slash. |
| NodeKeys.DeptIsTheFirstPart | internal/workflow/dispatch.go:144-150 | Of any key the department is the part before the first slash, or all of it. |
| ParallelJoin.StepConserves | internal/workflow/degraded.go:68-120 | Whatever the gateway receives, no branch leaves the four places (unresolved, completed, failed, respawning) or is in two. |
| ParallelJoin.GatewayConserves | internal/workflow/degraded.go:209-269 | After any events from the fork on, each branch is in exactly one of the four places, so the four counts add up to the number of branches. |
| ParallelJoin.GatewayLeavesComplete | internal/workflow/degraded.go:117-120 | A gateway that left has every branch completed once and none failed, and it came through DEGRADED if and only if an unresolved branch failed at the join. |
| ParallelJoin.StopsExactlyWhenTold | internal/workflow/degraded.go:98-114 | A gateway is terminated exactly by a cancel or, in the park, by the park's own terminate, and broken exactly by a force-back at the join that fails to run. |
| ParallelJoin.OutcomeIsItsBranchs | internal/workflow/degraded.go:81-94 | The first outcome of a branch at the join records that branch, with its own label, steps and node: failed if it failed and completed if not. |
| ParallelJoin.JoinForwardMovesThePicked | internal/workflow/degraded.go:312-330 | A force-forward at the join completes the branch it picks under the target and the node it was forced to; picking none it changes nothing. |
| ParallelJoin.ParkForwardMovesTheNamed | internal/workflow/degraded.go:488-504 | A force-forward in the park completes the branch it names and no other: the only one left for an empty target, else the first labelled with it, else the first that runs it or got to a node of it. Naming none it changes nothing. |
| ParallelJoin.ParkBackRespawnsTheNamed | internal/workflow/degraded.go:421-440 | A force-back in the park respawns that same branch, with its own steps and node, or changes nothing. |
| ParallelJoin.RespawnSettlesItsOwn | internal/workflow/degraded.go:243-257 | A respawned branch that settles leaves the flight completed, or failed again with the node it got to; the park ends with the last one completed. |
| ParallelJoin.RecordsHaveTheirEvents | internal/workflow/degraded.go:68-120 | In every run a branch is recorded completed or failed only by an event that says so, with that event's node and the branch's own label and steps. |
| ParallelJoin.LateOutcomeChangesNothing | internal/workflow/degraded.go:81-94 | After a force-forward took a branch, that branch's own outcome changes nothing, however much later it comes. |
| ParallelJoin.ReceiveOutcome | internal/workflow/degraded.go:81-94 | One outcome at the join: the new state is the specification's, and `remaining` is the number of unresolved branches. |
| ParallelJoin.ForceBranch | internal/workflow/degraded.go:312-330 | One force-forward at the join: the new state is the specification's, and `remaining` is the number of unresolved branches. |
| ParallelJoin.RunParallel | internal/workflow/degraded.go:68-120 | The counting loop ends in the phase and with the completed branches of the specification's run over the same events. |
| ParallelJoin.EnterDegraded | internal/workflow/degraded.go:202-269 | The park loop ends in the phase and with the completed branches of the specification's run over the same events. |
| Respawn.FindDepartment | internal/workflow/dispatch.go:113-120 | The department found has the id asked for; none is found only if none has it. |
| Respawn.RunDepartmentFrom | internal/workflow/dispatch.go:92-111 | An unknown department fails; otherwise it succeeds exactly when no stage from the start index on fails, and names the last stage completed. |
| Respawn.PassingIsLongest | internal/workflow/dispatch.go:39-49 | What an attempt completes is the longest prefix of departments that are defined and none of whose stages fails; the next one, if any, is undefined or has a failing stage. |
| Respawn.RunDepartments | internal/workflow/dispatch.go:39-49 | The departments completed are exactly that prefix of the list, the whole list exactly on success; the last node is that of the last completed department. |
| Respawn.RunStepList | internal/workflow/dispatch.go:24-80 | For sequential lists: the departments completed are exactly that prefix of all of them, all exactly on success; the last node is that of the last completed department. |
| Respawn.IndexAfterLast | internal/workflow/dispatch.go:176-183 | The stage index after a department's last stage is past its end. |
| Respawn.IndexAfter | internal/workflow/dispatch.go:176-183 | The index after the first stage with the node's key, or zero exactly if no stage has it. |
| Respawn.CutAfter | internal/workflow/degraded.go:473-486 | Cutting a branch after its k-th department leaves exactly the departments after it. |
| Respawn.CutsAtTheFirstPlace | internal/workflow/degraded.go:473-486 | Any list is cut after the department's first place in a sequential step at its top level; with no such place nothing is left. |
| Respawn.SavedNode | internal/workflow/degraded.go:442-455 | The saved node is empty exactly when nothing is completed, and otherwise names the last completed department and its last stage. |
| Respawn.RespawnBranch | internal/workflow/degraded.go:421-471 | A respawn completes, of the departments left over, exactly those up to the first that is undefined or has a failing stage, over all its stages; it settles without error exactly if that is all of them, and the node it reports is the last completed department's. |
| Respawn.FinishSavedDepartment | internal/workflow/degraded.go:448-455 | The department of a saved node has nothing left to run. |
| Respawn.ResumeBranch | internal/workflow/degraded.go:448-470 | The same for a respawn after a saved node: the saved department is not run again. |
| Respawn.WholeExactlyWhenTheRestPasses | internal/workflow/degraded.go:421-486 | An attempt makes the branch whole if and only if every department the attempts before it left over is defined and has no stage that fails in it. |
| Respawn.RunWithForceBacks | internal/workflow/degraded.go:421-486 | Over any number of failures and force-backs the departments completed are, attempt by attempt, exactly what each lets pass of what was left over: a prefix of the branch without repetition, and the whole branch exactly when it settled without error. |
| Interpreter.StepKeepsPauseInv | internal/workflow/degraded.go:271-310 | Every event, with a RUNNING write returning over no other open park, keeps the pause invariant, keeps a pause in effect unless a resume entitled to it comes, and closes the last park into PAUSED or RUNNING by whether a pause is held. |
| Interpreter.WriteReturnsInOrderExactlyAlone | internal/workflow/degraded.go:284-298 | In every state the write closes the last park, and keeps the pause invariant, if and only if its park is the only one open. |
| Interpreter.PauseStaysUntilLifted | internal/workflow/signals.go:315-371 | In every run whose RUNNING writes return over no other open park, a pause in effect stays in effect with its initiator until a resume by that initiator, an admin or an unnamed initiator; parks may come and go during the writes. |
| Interpreter.PauseEndsExactlyByItsResume | internal/workflow/signals.go:52-57 | In every such run, a step ends a pause in effect or changes its initiator if and only if it is a resume whose initiator is the one that paused, "admin" or empty. |
| Interpreter.ResumeBecomes | internal/workflow/signals.go:332-371 | Such a resume sets RUNNING and has the router release what is held when no park is open; inside a park it only takes the held pause away. Every other resume changes nothing. |
| Interpreter.PauseTakesEffect | internal/workflow/signals.go:320-357 | A pause received while none is in effect takes effect at once under its initiator, as PAUSED with no park open and else held by the park; one received while a pause is in effect changes nothing. |
| Interpreter.ResolvedParkBecomes | internal/workflow/degraded.go:271-286 | A park that resolves just closes while others are open; alone it closes into PAUSED if a pause is held and otherwise goes on to write RUNNING, still open. |
| Interpreter.EndIsFinal | internal/workflow/signals.go:25-50 | An instance can end at any time, and after the end a pause, a resume and a result change nothing. |
| Interpreter.OnlyAKeepingParkTakesPauses | internal/workflow/signals.go:315-318 | In a park that keeps no pauses neither a pause nor a resume is taken. |
| Interpreter.CancelClosesItsPark | internal/workflow/degraded.go:157-162 | A cancelled park closes, no other, and pauses are kept while another one is open. |
| Interpreter.LastParkLeavesPausedExactlyWhenHeld | internal/workflow/degraded.go:278-299 | The step that closes the last park leaves PAUSED exactly when a pause is held, even one that came during the RUNNING write, and RUNNING otherwise. |
| Interpreter.SecondParkDuringTheWrite | internal/workflow/degraded.go:284-297 | A park opened while the last one writes RUNNING is left open under RUNNING, or under PAUSED if a pause came meanwhile. |
| Interpreter.PauseLostWithoutAResume | internal/workflow/degraded.go:284-297 | A run in which a pause taken during such a write is lost: no resume comes, and the instance ends up RUNNING with no park open and no pause held. |
| Interpreter.RunKeepsLocated | internal/workflow/signals.go:188-222 | In every run with one result per visit, each result is in one place only: held, buffered, or in its own stage's channel. |
| Interpreter.ResultReachesItsStage | internal/workflow/stage.go:86-104 | In every run with one result per visit, a registered, unread stage has its result if and only if that result has arrived and is not on the held list, and what it has is its own. |
| Interpreter.HeldExactlyWhenStranded | internal/workflow/signals.go:332-343 | With no pause in effect and no resume under way, results are held if and only if a resume was taken inside a park over held results and none were released since. |
| Interpreter.ArrivedIsDelivered | internal/workflow/stage.go:86-104 | So a waiting stage whose result has arrived has it once no pause is in effect, unless results are stranded. |
| Interpreter.ResultStrandedByAPark | internal/workflow/signals.go:332-343 | A run that ends RUNNING, with no park open and no pause held, with a stage still waiting for a result that arrived. |
| Interpreter.VisitsAreStarts | internal/workflow/stage.go:53-69 | In every run a node's visit number is the number of times its stage was started. |
| Interpreter.RegisteredUntilItReturns | internal/workflow/stage.go:86-104 | In every run a visit is registered if and only if a task was created for it, under the number of its start, and its stage has not returned since. |
| Interpreter.ReadsOnce | internal/workflow/stage.go:99-118 | A stage reads its result at most once before it returns. |
| Interpreter.PendingAndBufferedStayApart | internal/workflow/stage.go:92-97 | No event of any state makes a visit both registered and buffered. |
| Interpreter.PendingAndBufferedAreApart | internal/workflow/signals.go:209-213 | In no run, ended or not, is a visit both registered and buffered. |
| InstanceHandlers.Instance.constructor | internal/workflow/types.go:82-99 | A new instance starts in the initial state of the transition system. |
| InstanceHandlers.Instance.HandlePause | internal/workflow/signals.go:346-357 | The handler does the pause event: dropped, held by the park, or applied. |
| InstanceHandlers.Instance.HandleResume | internal/workflow/signals.go:359-370 | The handler does the resume event up to its activity. |
| InstanceHandlers.Instance.RouterActivityReturned | internal/workflow/signals.go:364-371 | After the router's activity; a resume lets the held results go. |
| InstanceHandlers.Instance.DeliverResult | internal/workflow/signals.go:200-214 | A result is held, handed to its registered stage, buffered, or dropped, as in the transition system. |
| InstanceHandlers.Instance.LetGoHeldResults | internal/workflow/signals.go:216-222 | The loop delivers all held results in order. |
| InstanceHandlers.Instance.BeginTaskStage | internal/workflow/stage.go:53-69 | The visit is counted and its creation begun. |
| InstanceHandlers.Instance.RegisterTaskStage | internal/workflow/stage.go:86-97 | The visit registers under its number, taking a result that came early out of the buffer. |
| InstanceHandlers.Instance.AbandonCreation | internal/workflow/stage.go:70-84 | A visit whose task was not created registers nothing. |
| InstanceHandlers.Instance.ReadResult | internal/workflow/stage.go:99-104 | The stage reads the result in its channel, once. |
| InstanceHandlers.Instance.LeaveTaskStage | internal/workflow/stage.go:97-147 | A returning stage is no longer registered. |
| InstanceHandlers.Instance.EnterPark | internal/workflow/degraded.go:131-143 | Opening a park sets DEGRADED and, as the first one, the keeping of pauses. |
| InstanceHandlers.Instance.ShutPark | internal/workflow/degraded.go:157-162 | Closing a park removes it and, as the last one, ends the keeping of pauses. |
| InstanceHandlers.Instance.StartParkLoop | internal/workflow/degraded.go:202-212 | After DEGRADED is written the park waits for signals. |
| InstanceHandlers.Instance.LeaveParkLoop | internal/workflow/degraded.go:271-286 | Of several parks one just closes; the last one closes into PAUSED or goes on to write RUNNING. |
| InstanceHandlers.Instance.FinishRunningWrite | internal/workflow/degraded.go:290-298 | After RUNNING is written a pause held meanwhile is applied, otherwise the instance is RUNNING. |
| Messages.LastPlace | internal/workflow/history.go:24-31 | The last place of a node in the stack, and none exactly when it is absent. |
| Messages.LastIndex | internal/workflow/history.go:25-31 | The search from the top finds the last place of the node, or -1. |
| Messages.NodeHistory.Push | internal/workflow/history.go:13-15 | Adds on top. |
| Messages.NodeHistory.PopTo | internal/workflow/history.go:24-40 | Remaining and popped put together are the old stack; the cut is at the last occurrence, or everything is popped if there is none. |
| Messages.NodeHistory.PopOne | internal/workflow/history.go:46-52 | Exactly the top is popped, or nothing when there is none. |
| Messages.MailStaysInOrder | internal/workflow/message_buffer.go:21-75 | Every run of sends, waits, cancels and rewinds keeps the queues in order, never both non-empty, and every buffered message sent from a node still on the stack. |
| Messages.MailFromTheStart | internal/workflow/dispatch.go:255-269 | In every reachable state: buffered messages are from nodes on the history stack, no name has both messages and waiters, and matches are first in, first out, each message and waiter at most once. |
| Messages.SentIsAccountedFor | internal/workflow/message_buffer.go:21-28 | Whatever follows a send, its message is buffered under its name, or was matched with a waiter, or a rewind or reset took its node's sends back. |
| Messages.WaitIsAccountedFor | internal/workflow/message_buffer.go:30-49 | Whatever follows a wait, its channel is waiting under its name, or was matched with a message, or was cancelled. |
| Messages.CancelledGetsNothing | internal/workflow/message_buffer.go:40-48 | A wait cancelled while still queued takes no message, whatever is sent later. |
| Messages.TakenBackIsGone | internal/workflow/message_buffer.go:58-75 | After a rewind or a reset nothing sent by the nodes concerned is buffered under any name. |
| Messages.HistoryFollows | internal/workflow/stage.go:22-37 | The history grows by each send and each completed node and is cut only by a rewind, at its target's last place. |
| Messages.KeepOutside | internal/workflow/message_buffer.go:66-74 | The filter loop keeps exactly the messages of nodes outside the span, in order. |
| Messages.MessageBuffer.Send | internal/workflow/message_buffer.go:21-28 | A message goes to the first waiter's channel or to the end of the buffer. |
| Messages.MessageBuffer.WaitChannel | internal/workflow/message_buffer.go:30-39 | A new channel holds the first buffered message or queues behind the other waiters. |
| Messages.MessageBuffer.CancelWaiting | internal/workflow/message_buffer.go:40-48 | A waiter still queued leaves the queue, the others keep their order. |
| Messages.MessageBuffer.ResetSpan | internal/workflow/message_buffer.go:58-75 | The unconsumed messages of the span's nodes go, under every name; an empty span changes nothing. |
| ConnectorWorker.OneHolder | cmd/connector-worker/outcome.go:52-62 | Two handlers past the lease for one task are the same handler. |
| ConnectorWorker.StepKeepsSecure | cmd/connector-worker/dispatch.go:171-188 | Every step keeps: a handler between lease and record has a live lease of its own, and, once cleared, no recorded outcome. |
| ConnectorWorker.RunsNeverOverlap | cmd/connector-worker/dispatch.go:171-188 | In every run of any number of workers two runs of one task never overlap. |
| ConnectorWorker.NoRunAfterARecordedOutcome | cmd/connector-worker/dispatch.go:181-185 | In every run no handler starts or goes on running a task while a recorded outcome of it is live. |
| ConnectorWorker.HandlerStepShape | cmd/connector-worker/dispatch.go:117-157 | A handler's step changes no other handler's claim or phase: it writes the shared state, then moves on or ends with its claim. |
| ConnectorWorker.StepKeepsClaims | cmd/connector-worker/dispatch.go:53-63 | Every step keeps: the claims of a worker are its handlers' entries, one handler each, and only an accepted outcome is being acknowledged. |
| ConnectorWorker.EntriesLeaveAccountedFor | cmd/connector-worker/dispatch.go:117-157 | A delivered, well-formed entry that left the pending list had its outcome accepted or its dead-letter copy written. |
| ConnectorWorker.OneHandlerPerClaim | cmd/connector-worker/heartbeat.go:17-40 | In one worker an entry is held by at most one handler, and by one exactly while it is claimed. |
| ConnectorWorker.OnlyTheHolderReleases | cmd/connector-worker/dispatch.go:117-157 | A claim goes only by its own handler's end or its worker's crash; a duplicate delivery never releases it. |
| WorkerOutcomes.HandlerDecides | cmd/connector-worker/dispatch.go:117-188 | In every run a handler's step ends it exactly when it has to (malformed, over the cap, unreadable record, stopping, lease taken or its reply lost, report refused, acknowledged), and otherwise takes it exactly where the facts lead: a live record is resent, a job with a pool goes on to slot, lease and run, one without is reported unknown. |
| WorkerOutcomes.HandlerWrites | cmd/connector-worker/outcome.go:42-76 | What a handler's step writes beside the handlers, and when: the pending list, the accepted and dead-lettered entries, a record for 24 hours, a lease for the pool's timeout and ten seconds. |
| WorkerOutcomes.DeliveryIsCounted | cmd/connector-worker/dispatch.go:53-63 | A delivery counts one more, makes the entry pending, and starts a handler if and only if its worker has none on that entry. |
| WorkerOutcomes.SettledNeverReturns | cmd/connector-worker/dispatch.go:65-83 | An entry that has left the pending list is never delivered again. |
| WorkerOutcomes.CrashTakesOneWorker | cmd/connector-worker/dispatch.go:117-123 | A crash takes its worker's handlers away and nothing else. |
| WorkerOutcomes.RecordComesFromARun | cmd/connector-worker/outcome.go:42-50 | In every run whatever is on record for a task was returned by a run of that task. |
| WorkerOutcomes.ReportsComeFromRuns | cmd/connector-worker/outcome.go:64-76 | In every run an outcome is reported only if a run of the task returned it, or it is `unknown_connector_type` and the job has no pool. |
| WorkerOutcomes.LeaseCoversTheRun | cmd/connector-worker/dispatch.go:171-180 | In every run a handler between lease and record took the lease itself, and it lasts for the pool's timeout plus ten seconds from then. |
| WorkerOutcomes.FreshJobRuns | cmd/connector-worker/dispatch.go:137-188 | A job of a known connector type with nothing on record and no lease taken gets its slot and lease and runs, when its calls succeed. |
| WorkerOutcomes.FinishedRunIsSettled | cmd/connector-worker/outcome.go:42-76 | A finished run whose calls succeed ends recorded, accepted and acknowledged, with its claim released. |
| WorkerHandlers.Workers.Dispatch | cmd/connector-worker/dispatch.go:53-63 | One entry of a batch: claimed and handed to a handler unless the worker holds it. |
| WorkerHandlers.Workers.Leave | cmd/connector-worker/dispatch.go:118-123 | The end of a handler releases its entry. |
| WorkerHandlers.Workers.HandleEntry | cmd/connector-worker/dispatch.go:125-135 | Malformed entries are acknowledged, those over the cap dead-lettered, the others go to the first look. |
| WorkerHandlers.Workers.AckEntry | cmd/connector-worker/dispatch.go:225-229 | An acknowledgement the stream took removes the entry from the pending list. |
| WorkerHandlers.Workers.ResendRecordedOutcome | cmd/connector-worker/dispatch.go:159-169 | An unreadable record leaves the entry pending, a live one is resent, otherwise the handler goes on. |
| WorkerHandlers.Workers.FirstLook | cmd/connector-worker/dispatch.go:137-149 | The look before the pool, with the unknown-connector report. |
| WorkerHandlers.Workers.TakeLease | cmd/connector-worker/outcome.go:52-62 | Set-if-absent on the task's lease for pool timeout plus margin; a lost reply leaves the key but runs nothing. |
| WorkerHandlers.Workers.LookUnderLease | cmd/connector-worker/dispatch.go:181-183 | The second look, under the lease. |
| WorkerHandlers.Workers.RecordOutcome | cmd/connector-worker/outcome.go:42-50 | The outcome is recorded for its lifetime, then reported. |
| WorkerHandlers.Workers.ReportOutcome | cmd/connector-worker/outcome.go:64-76 | An outcome the callback took is acknowledged next, otherwise the entry stays pending. |
| WorkerHandlers.Workers.AcknowledgeReported | cmd/connector-worker/outcome.go:64-76 | The acknowledgement after an accepted report ends the handler. |
| Inflight.TakenUpOnce | cmd/connector-worker/dispatch.go:53-63 | Of a batch every entry not held is taken up exactly once and none that is held. |
| Inflight.InflightSet.Claim | cmd/connector-worker/heartbeat.go:17-28 | Claims exactly an id not held, without a deadline. |
| Inflight.InflightSet.SetDeadline | cmd/connector-worker/heartbeat.go:30-34 | Sets the deadline of one id. |
| Inflight.InflightSet.Remove | cmd/connector-worker/heartbeat.go:36-40 | Releases one id and no other. |
| Inflight.InflightSet.Live | cmd/connector-worker/heartbeat.go:42-52 | Returns each claimed id once that has no deadline or one still to come, and no other. |
| Inflight.InflightSet.ClaimBatch | cmd/connector-worker/dispatch.go:53-59 | The batch loop claims what `TakenUp` says, holds the whole batch afterwards and leaves earlier claims alone. |
| Redelivery.CheckGivesTheBound | cmd/connector-worker/main.go:104-121 | Settings that pass the check meet the unbounded inequality if and only if the product fits in 64 bits. |
| Redelivery.CheckRefusesOnlyOutsideTheBound | cmd/connector-worker/main.go:118-119 | When the product fits, settings are refused for a short record only if the inequality fails. |
| Redelivery.PassesExactlyWithinTheBound | cmd/connector-worker/main.go:104-121 | When the product fits, settings pass if and only if the required ones are set, the dead-letter stream is another one, the cap is at least one, the wait at least three seconds, and twice cap times wait is under 24 hours. |
| Redelivery.WrappedProductPasses | cmd/connector-worker/main.go:118-119 | A cap of 2^62 and a wait of four seconds pass although the inequality fails. |
| Redelivery.LookFindsTheRecord | cmd/connector-worker/dispatch.go:132-139 | A look made in time by a delivery within the cap finds any record ever made for its task still live. |
| Redelivery.StepKeepsTimed | cmd/connector-worker/dispatch.go:132-139 | Every step keeps: the number of deliveries bounds the time since the first, and a record dates from no earlier than that. |
| Redelivery.RedeliveryFindsTheOutcome | cmd/connector-worker/main.go:112-119 | In every timely run under checked settings, each readable look at a task with a record resends the recorded outcome. |
| Redelivery.RecordedTaskNeverRunsAgain | cmd/connector-worker/outcome.go:14-17 | In every timely run under checked settings, once a task's outcome is recorded no run of it starts or is recorded again, even after the record's lifetime. |
| Idempotency.StepKeepsKeyHeld | internal/adapter/inbound/http/handler/idempotency.go:46-83 | Every step keeps: a request in its handler holds the key under its own live claim. |
| Idempotency.OneHandlerAtATime | internal/adapter/inbound/http/handler/idempotency.go:63-82 | In every interleaving at most one request with the key is in its handler. |
| Idempotency.NoHandlerAfterASuccess | internal/adapter/inbound/http/handler/idempotency.go:132-149 | From the store of a success to the end of its lifetime no handler runs. |
| Idempotency.StoredBySuccess | internal/adapter/inbound/http/handler/idempotency.go:142-149 | Whatever the key stores was stored by a successful request, with its status, body, body hash and lifetime. |
| Idempotency.ReplayIsTheSuccess | internal/adapter/inbound/http/handler/idempotency.go:106-130 | Every replay has the status and body of a success still in its lifetime, and goes to a request with that success's body hash. |
| Idempotency.KeptSuccessAnswers | internal/adapter/inbound/http/handler/idempotency.go:106-130 | A request that meets the kept success is replayed it exactly when its body hash is the same, and refused otherwise. |
| Idempotency.FailureReleasesTheKey | internal/adapter/inbound/http/handler/idempotency.go:132-141 | After an outcome that is no success the next request to come runs. |
| Idempotency.SlowHandlerIsJoined | internal/adapter/inbound/http/handler/idempotency.go:63-82 | A claim that expires under its handler lets a second handler run beside it. |
| Idempotency.RequestStep | internal/adapter/inbound/http/handler/idempotency.go:46-83 | In every run: a request runs exactly if the key was not taken, is answered the status and body of its own handler, and when refused is replayed the live success of an equal body hash or told of a conflict. |
| Idempotency.KeyStep | internal/adapter/inbound/http/handler/idempotency.go:132-149 | In every run the key changes only by a claim when it was free, by a written store of a status from 200 to 299 for its lifetime, and by giving the claim up after any other status. |
| Idempotency.RequestsComeAndGo | internal/adapter/inbound/http/handler/idempotency.go:50-61 | Requests come under ids not in use and may die at any time, which leaves the key and the other requests alone. |
| Idempotency.FreshIsTheHandlersOwn | internal/adapter/inbound/http/handler/idempotency.go:79-82 | In every run an answer that is neither replay nor conflict is what the request's own handler returned. |
| Idempotency.Wrapper.SetNX | internal/adapter/inbound/http/handler/idempotency.go:63-70 | Takes the key exactly when it is not live. |
| Idempotency.Wrapper.Begin | internal/adapter/inbound/http/handler/idempotency.go:63-81 | The claim step of the transition system. |
| Idempotency.Wrapper.ReplayIfCached | internal/adapter/inbound/http/handler/idempotency.go:106-130 | The look-up step of the transition system. |
| Idempotency.Wrapper.Store | internal/adapter/inbound/http/handler/idempotency.go:132-149 | The store step of the transition system. |
| Delegation.MoveKeepsOneLead | internal/core/service/delegation_reconciler.go:129-162 | No task has two leads after the vacation of a row, nor after its new assignment or adoption. |
| Delegation.MoveKeepsTheLead | internal/core/service/delegation_reconciler.go:129-143 | A task has a lead after a row moved exactly if it had one before, and a moved lead is the new user's. |
| Delegation.MoveAllByKey | internal/core/service/delegation_reconciler.go:145-166 | Where every (task, user) assignment ends up after a whole commit, with or without adoption. |
| Delegation.MoveAllKeepsLeads | internal/core/service/delegation_reconciler.go:145-166 | After any number of rows no task has two leads, and each has one exactly if it had one. |
| Delegation.ReversalLists | internal/core/service/delegation_reconciler.go:213-229 | The reversal lists exactly what the reroute moved without adoption and what was already tagged. |
| Delegation.TagsByTheirIds | internal/core/service/delegation_reconciler.go:221-226 | A delegation's tag starts another's if and only if its id starts the other id; with ids of one length, only its own. |
| Delegation.OthersTasksStay | internal/core/service/delegation_reconciler.go:213-229 | A task the delegate holds under another delegation's tag is taken back by the reversal if and only if that other id starts with this one. |
| Delegation.ReverseUndoesReroute | internal/core/service/delegation_reconciler.go:185-246 | Reroute then Reverse restores the active (task, user, lead) triples if and only if the delegate held none of the moved tasks and nothing tagged before. |
| Delegation.HeldTaskIsLost | internal/core/service/delegation_reconciler.go:129-143 | A moved task the delegate already held is not restored. |
| Delegation.ReplaceDelegateKeepsTheLead | internal/core/service/workflow_client.go:85-96 | Replacing a delegate keeps a task's lead exactly when the new delegate did not hold the task already. |
| AssignmentTable.Table.Vacate | internal/adapter/outbound/postgres/task_assignment_repo.go:172-184 | Deactivates one row; the other active assignments stay. |
| AssignmentTable.Table.Create | internal/adapter/outbound/postgres/task_assignment_repo.go:28-47 | Creates an active row exactly when the task and user have none. |
| AssignmentTable.Table.MakeLead | internal/adapter/outbound/postgres/task_assignment_repo.go:212-234 | The row becomes its task's only lead. |
| AssignmentTable.Table.ListActiveByUser | internal/adapter/outbound/postgres/task_assignment_repo.go:83-104 | The loop lists exactly the user's active assignments on the selected tasks whose reason has the tag, each once. |
| AssignmentTable.Table.AdoptExistingAssignment | internal/core/service/delegation_reconciler.go:129-143 | The existing assignment takes over a lead and is otherwise left alone. |
| AssignmentTable.Table.MoveRow | internal/core/service/delegation_reconciler.go:147-162 | One round of the commit is `Move` on the board. |
| AssignmentTable.Table.CommitReassignments | internal/core/service/delegation_reconciler.go:145-173 | The commit moves all rows, or leaves the table as it was when a call fails on the way. |
| AssignmentTable.Table.Reroute | internal/core/service/delegation_reconciler.go:185-212 | Moves the delegator's selected assignments to the delegate under the delegation's tag. |
| AssignmentTable.Table.Reverse | internal/core/service/delegation_reconciler.go:214-246 | Moves the delegate's tagged assignments back. |
| AssignmentTable.RerouteThenReverse | internal/core/service/delegation_reconciler.go:185-246 | On the table itself: both calls leave the triples as they were exactly under the condition above. |
| Eligibility.ResolvedFirst | internal/core/service/delegation_reconciler.go:74-92 | Leaving out unreadable rows before asking changes nothing about the answer. |
| Eligibility.MayTakeInOrder | internal/core/service/delegation_reconciler.go:106-114 | The rows returned are, in order, exactly the readable rows whose own department and required level are answered eligible. |
| Eligibility.CollectPairs | internal/core/service/delegation_reconciler.go:70-92 | The questions are the distinct pairs, each once, and the index leads to each pair's own question. |
| Eligibility.Checker.CheckBatch | internal/core/service/delegation_reconciler.go:97-100 | One call is one list of questions, answered in order or failed as a whole. |
| Eligibility.ReadAnswers | internal/core/service/delegation_reconciler.go:106-114 | The loop keeps exactly the rows whose own pair was answered eligible. |
| Eligibility.EligibleCandidates | internal/core/service/delegation_reconciler.go:68-115 | The batched check returns what the row-by-row check would, asks once for each department and level a readable row has and for nothing else, and fails exactly when the service is down or an answer is unreadable. |
| Paging.PageIsAStretch | internal/core/service/workflow_client.go:167-188 | A page is a stretch of the list from the first id past its cursor, no longer than a positive limit; the next cursor is its last workflow, and there is none exactly when the page reaches the list's end. |
| Paging.PageMissesNone | internal/core/service/workflow_client.go:167-188 | Every listed id past the cursor is on the page or past the next cursor. |
| Paging.WalkIncreases | internal/core/service/workflow_client.go:167-188 | Over lists that change between calls, the ids of a walk are strictly increasing and each was listed by some call. |
| Paging.WalkReturnsWhatStays | internal/core/service/workflow_client.go:167-188 | A workflow listed by all calls of a complete walk is returned. |
| Paging.WalkIsExact | internal/core/service/workflow_client.go:167-188 | From no cursor to the empty one: increasing ids, what stayed exactly once, what was never listed not at all. |
| Paging.WalkOfAnUnchangedList | internal/core/service/workflow_client.go:167-188 | On an unchanged list the pages put together are what was left after the cursor. |
| Paging.UnchangedListInFull | internal/core/service/workflow_client.go:167-188 | On an unchanged list one call more than it has workflows completes the walk, and the pages are the whole list. |
| Paging.Search | internal/core/service/workflow_client.go:171-173 | The binary search returns the first index past the cursor. |
| Paging.PageAffectedWorkflows | internal/core/service/workflow_client.go:167-188 | The method computes the specification's page, for any limit. |
| Paging.SortById | internal/core/service/workflow_client.go:161-163 | The sorted list is in strict id order and has the same workflows. |
| Paging.AffectedWorkflows | internal/core/service/workflow_client.go:147-165 | Each workflow of the assignments once, dated by its first assignment, in id order; an unreadable task fails the list. |
| Duration.DigitRun | internal/workflow/duration.go:11 | The longest run of digits at the front. |
| Duration.TenDigits | internal/workflow/duration.go:11 | The digits are the ten decimal ones. |
| Duration.MatchesExactlyPeriods | internal/workflow/duration.go:11 | The left-to-right matcher accepts a string with given groups if and only if the string is a period written with those groups; so the reading is unique. |
| Duration.AddComponent | internal/workflow/duration.go:26-30 | One component is added exactly when the unbounded sum still fits in 64 bits. |
| Duration.AddUp | internal/workflow/duration.go:18-35 | The loop returns the exact sum, an error if it does not fit, an error if no component was given. |
| Duration.ValueOfTheFirstDigit | internal/workflow/duration.go:26 | The number a digit string reads as: each digit counts for its power of ten. |
| Duration.LengthInNanoseconds | internal/workflow/duration.go:18-35 | The length of a period is its weeks, days, hours, minutes and seconds in nanoseconds written out, too long exactly when that leaves 64 bits, and none exactly without components. |
| Duration.ParseISODuration | internal/workflow/duration.go:13-36 | A string that is no period is refused; every period gives its exact unbounded sum in nanoseconds whenever that fits in 64 bits and an error otherwise, for digit strings of any length. |

## Left out

- Temporal (replay, versions, real timers), Postgres, the cache and stream commands, HTTP, AWS, OpenBao and metrics: they appear as abstract state with the steps the code calls.
- The branches of the code for workflows started before a versioned change.
- A step has exactly one variant in the model, where the source's step record has a field for each. A step whose list is empty is the source's error of a step without a variant; the path language gives it no path.
- Residual.RedirectIsResidual: requires one place for the department and parallel labels that run it; with several places the search takes the first, which Redirect.RedirectKeepsTheRest and EarlyEnds.GuardedKeepsTheRest cover.
- GuardNeeded.KeepsToThePlanExactlyWhenGuarded: requires one place for every department and label, without which its half from the paths to the guard is false (UnguardedPlans.RepeatedWorkHidesAnEnd); its other half, EarlyEnds.GuardedKeepsTheRest, does not.
- dsl.NodeKey and the rest of the `dsl` library are not part of this model; a node key is the department id, a slash and the stage id.
- Gateways interrupted from outside, and a cancel inside nested gateways: gateways run to their own join, and a cancel is modelled at one gateway level.
- In Routing.ForceForwardReachesTheDeepest the roots are the main steps and boundary paths, each run by one coroutine at a time.
- Respawn.RunWithForceBacks: sequential branches, departments with at least one stage and distinct node keys, ids without a slash. A failed department restarts at its first stage, and with a nested gateway the code looks at top-level sequential lists only.
- Interpreter.PauseStaysUntilLifted: activities succeed, and no other park is open when a RUNNING write returns; where one is, the code loses pauses, as the model shows.
- Interpreter.ResultReachesItsStage: one result for each visit, and no two visits of one node being created at once. A second result for a stage that still holds one would keep the code's router waiting; the model drops it. A resume inside a park does not release held results; that is a behaviour of the code and in the model.
- The two status writes of a closing park that is not the last, stage deferral, reassign signals and the audit records.
- Message channels are numbers in the model, and the numbers of messages and waits, the places of branches, the holder of a lease or a claim and the entry behind a record are notes of the model that no decision reads.
- ConnectorWorker.RunsNeverOverlap and NoRunAfterARecordedOutcome: a surviving run records within pool timeout plus lease margin of taking the lease, and the write of the record succeeds; connectors that ignore their deadline break the first.
- WorkerOutcomes.FreshJobRuns and FinishedRunIsSettled: the calls succeed; that handlers and deliveries keep being made is not claimed.
- Redelivery.RecordedTaskNeverRunsAgain: one stream entry for each task, consecutive deliveries and looks at most two reclaim waits apart. The heartbeat is modelled only by the set of ids it touches.
- The retries inside a connector's execution, secret resolution, aliases and the pool's slots beyond waiting for one.
- Idempotency.OneHandlerAtATime: the cache answers the claim, and a request finishes within the lifetime of its claim. Requests without a key, without a cache or with an unreadable body do not enter the model; nor does the key's tenant prefix, which only separates keys. A success whose write failed leaves the claim in place until it expires, and is not replayed.
- Delegation.ReverseUndoesReroute: both users eligible and nothing else in between; the out-of-office pauses, the events and the signals to workflows are left out, and so is the tenant. The scope filter is the set of tasks selected.
- The record version check behind a new lead is the failing call of AssignmentTable.Table.CommitReassignments.
- Cursor encoding: a decoded cursor with a zero time or a nil id is refused by the service; the model hands cursors on as values.
- Sorting and binary search are the standard library's; the model has its own.
- JSON, condition parsing, IO mapping, event payloads, configuration loading and the other settings of the start-up check beyond those listed.
