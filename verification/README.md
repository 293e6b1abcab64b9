# Coordination layer of the underwater tracking agent, modelled in Dafny

The numerical tracking and planning code decides *what* to do; the layer modelled here decides *when*, *on
which situation*, *how often* and *what is kept*. It is full of state that several threads touch, bounded
queues, caches that must agree with a slow definition, and text that has to be recovered from prose. Each
file models one component and proves statements about all its inputs or all its runs.

Objects whose methods change them are classes; each method is proved against a function on the object's
abstract value, and the run lemmas are about that function, so they hold of any interleaving of the methods.
What lies outside (engine, planner, model provider, clock, `json.loads`, the frame validator) is an argument
that may answer anything.

| file | what it models |
|---|---|
| `CarrierProtocol.dfy`, `CarrierEvents.dfy`, `CarrierBypasses.dfy`, `CycleLives.dfy`, `PendingEvents.dfy` | the background carrier: one slot, one mailbox, a physics thread and a worker; epoch closing; which events the next cycle carries; the life of each cycle |
| `RefreshAttempts.dfy`, `RefreshRounds.dfy` | what each execution-refresh attempt records |
| `Shutdown.dfy` | concurrent `close` calls, worker threads, resources |
| `EventMailbox.dfy` | the carrier runtime's event mailbox, processed ids and replan latches |
| `SensorControls.dfy`, `OperationalInputs.dfy` | the operator's sonar controls, schemes and intelligence reports on their way to the engine |
| `LiveHub.dfy`, `LiveDeliveries.dfy` | live fan-out to subscribers with bounded queues, and what a subscriber misses |
| `DirectiveQueue.dfy`, `DirectiveLives.dfy` | the operator-directive table, its worker tasks, and the life of each directive |
| `EventEpisodes.dfy` | the event episode gate |
| `PersistencePolicy.dfy` | which live frames become durable |
| `LogLines.dfy`, `FrameLog.dfy`, `Replay.dfy`, `LoggedReplay.dfy` | the byte-budgeted frame log, its replay index, and the two together |
| `ReplayCursor.dfy`, `Checkpoints.dfy` | the acceptance tool's cursor over a growing log and its checkpoint loop |
| `JsonText.dfy`, `JsonScanner.dfy`, `JsonExtract.dfy` | JSON values and their printed form (RFC 8259, sections 2 to 7), the one-pass bracket scanner, value recovery from provider text |
| `RetryLoop.dfy` | the structured model call: retries, ledger rows, waits |
| `ProcessGroups.dfy` | process groups below a root process |
| `Prelude.dfy` | `Option` and two list helpers |

## Where the code does less than its description

- Offers that return early from `on_situation` (`cli.py:3063-3072`) still replace `situation`. Events are then
  lost in two ways: the next offer overwrites a held situation whose events no mailbox holds, or a mailbox is
  handed on beside a newer situation and forgotten. `CarrierBypasses.StepIsWholeIff` gives the exact condition
  for every step, `CarrierBypasses.OverwrittenSituationLosesAnEvent` and
  `CarrierBypasses.ForgottenMailboxLosesAnEvent` a run each.
- Sonar controls drained by a cycle are lost exactly when the cycle goes stale without an epoch, its worker
  raised something other than a provider failure, the engine is gone, or applying the plan raises before the
  control's turn (`SensorControls.DroppedIff`); `SensorControls.StaleCycleLosesAControl` is a run.
- An intelligence report that expires while it waits blocks every later commit of operator inputs
  (`OperationalInputs.ExpiredReportBlocks`, `OperationalInputs.CommitsUnlessExpired`).
- A fenced reply whose JSON contains three backticks inside a string is cut there and nothing is recovered.
  `JsonExtract.FencedValue` gives the exact condition, `JsonExtract.FenceInAStringLosesTheValue` an input.
- Prose does disturb the bracket scan, against its docstring (`llm.py:644-648`): a printed value is found if and
  only if the text before it ends outside strings with nothing open (`JsonScanner.YieldedIff`). A lone quote in
  the prose loses the value (`JsonExtract.OpenQuoteLosesTheValue`, `JsonExtract.LoneQuoteLosesTheValue`), and a
  block of the prose that parses wins over it (`JsonExtract.IdleProse`).
- `drain_background_cycle(timeout_s)` never returns while a mailbox is held beside an empty slot and the carrier
  is paused or has no engine, since it goes round without looking at its deadline (`cli.py:3648-3650`);
  `CarrierProtocol.DrainMovesOnIff` and `CarrierProtocol.DrainIsStuckIff` give the exact condition.
- A frame appended while the replay index is built may be missed until the next change of the file, because the
  signature is taken after the scan (`replay.py:82-90`). `Replay.ReplayService.BuildIndex` says exactly when,
  `Replay.LateAppendIsMissed` shows two requests.
- `ReplayService.count` is negative exactly when the requested bounds are crossed around some frame
  (`Replay.BoundsCount`).
- A replay cursor survives an append exactly when the new frame is not earlier than the last one consumed
  (`ReplayCursor.CursorSurvives`).
- An id still in the order deque is delivered again when it is requeued or comes back as a live prediction.
  `EventMailbox.DeliveredAtMostOnceIff` says on which runs an id repeats within the window,
  `EventMailbox.OneEventRepeatsIff` for which single event. After a requeue even a plain submit can repeat an
  id, because trimming the stale entry forgets the newer delivery (`EventMailbox.RequeueBreaksAtMostOnce`).
- A directive that needs clarification is in no terminal status and no later step changes it, so its slot is
  lost (`DirectiveQueue.ClarificationKeepsItsSlot`).
- The episode gate takes a fired severity of zero for none at all. Fired severities strictly rise in an episode
  if and only if no ready observation of severity zero or less comes right after a fired zero
  (`EventEpisodes.LawHoldsIff`).

## Model

| member | source | states |
|---|---|---|
| `CarrierProtocol.StepIsSafe` | src/underwater_tracking/cli.py:3409-3628 | every offer, worker end, boundary, restart and close keeps: the slot holds at most the newest cycle and only its worker is alive, a mailbox beside it is strictly newer, each retired cycle ran its planning phase at most once and closed its epoch exactly once |
| `CarrierProtocol.Run` | src/underwater_tracking/cli.py:3409-3628 | any interleaving of those steps from the idle loop ends in such a state |
| `CarrierProtocol.OneCycleInFlight` | src/underwater_tracking/cli.py:3424-3440 | in every reachable state only the newest cycle can be unretired, no other worker is alive, and a mailbox held beside the cycle has a strictly greater revision |
| `CarrierProtocol.EpochsAreClosedOnce` | src/underwater_tracking/cli.py:3597-3628 | in every reachable state a cycle's planning phase has run at most once, an epoch is closed zero times while its cycle is in flight and exactly once after, for that very epoch, and is reported committed only when the worker returned a committed result naming it |
| `CarrierProtocol.AgentLoop.StartBackgroundCycle` | src/underwater_tracking/cli.py:3409-3486 | the whole new state: keep the newer situation; with a cycle in flight merge into the mailbox only what is newer; when waiting merge; otherwise launch on the merge and empty the mailbox |
| `CarrierProtocol.AgentLoop.OnSituation` | src/underwater_tracking/cli.py:3027-3077 | the situation is replaced in every case, and a cycle is considered only without an early return |
| `CarrierProtocol.AgentLoop.FinishCycle` | src/underwater_tracking/cli.py:3519-3524 | the worker sets planning done and done together, with its outcome |
| `CarrierProtocol.AgentLoop.FinishEpoch` | src/underwater_tracking/cli.py:3847-3890 | nothing without an epoch; a result naming the epoch is handed on as it is, otherwise rejected for a semantic failure and failed (provider or internal) for the rest; `CycleLives.ClosedIff` says the same of every run |
| `CarrierProtocol.AgentLoop.ApplyPlanningPhase` | src/underwater_tracking/cli.py:3710-3740 | exactly one planning phase and, with an epoch, exactly one closing result are recorded for that cycle and nothing else changes |
| `CarrierProtocol.AgentLoop.ScheduleLatest` | src/underwater_tracking/cli.py:3576-3590 | the mailbox is emptied; what it held, or else a situation newer than the finished cycle, starts the next cycle |
| `CarrierProtocol.AgentLoop.ApplyBackgroundCycle` | src/underwater_tracking/cli.py:3592-3628 | retire, planning phase unless stale, no scheduling after an exception or a bootstrap cycle |
| `CarrierProtocol.AgentLoop.BeginClosing` | src/underwater_tracking/cli.py:4652-4655 | the closing flag is up and the mailbox empty |
| `CarrierProtocol.DrainMovesOnIff` | src/underwater_tracking/cli.py:3630-3650 | a mailbox held beside an empty slot is started by the drain if and only if the carrier is not paused and has an engine; otherwise slot and mailbox stay as they are |
| `CarrierProtocol.DrainIsStuckIff` | src/underwater_tracking/cli.py:3630-3650 | after any number of turns of the drain loop the mailbox is still held beside an empty slot, where the loop does not look at its deadline, if and only if no turn could start a cycle |
| `CycleLives.ClosedIff` | src/underwater_tracking/cli.py:3597-3890 | on every run a result was handed to the coordinator for a cycle if and only if the cycle retired at some boundary and the result is the verdict: the one its worker returned for that epoch while the engine is there, otherwise rejected as semantic, failed as provider, or failed as internal |
| `CycleLives.CommittedIff` | src/underwater_tracking/cli.py:3847-3890 | on every run an epoch was committed by a result if and only if the worker had returned that very result for it before the cycle retired with the engine there |
| `CycleLives.OutcomeIff` | src/underwater_tracking/cli.py:3486-3524 | the outcome on record is the one the worker of the cycle in flight ended with |
| `CycleLives.EpochIsReserved` | src/underwater_tracking/cli.py:3456-3486 | the epoch of a cycle is the one reserved by the step that began it |
| `CycleLives.PlannedIff` | src/underwater_tracking/cli.py:3610-3617 | on every run the planning phase of a cycle has run if and only if it retired while not superseded without an epoch |
| `CycleLives.BeginsIff` | src/underwater_tracking/cli.py:3409-3486 | exactly when each step begins a cycle: it asks for one, the carrier is open, the engine is there, and there is no pause unless the bootstrap is retried; and what the new cycle is |
| `CycleLives.NothingBeginsAfterClosing` | src/underwater_tracking/cli.py:3416-3418 | once closing, no step of any run begins a cycle or holds a mailbox |
| `CycleLives.HeldAfterStart` | src/underwater_tracking/cli.py:3419-3421 | the situation held afterwards is the one offered unless it is older |
| `CycleLives.MailAfterStart` | src/underwater_tracking/cli.py:3422-3456 | the mailbox and the new cycle afterwards: when the held situation joins the mailbox, and that joining unites the events |
| `PendingEvents.MergeKeepsEveryEvent` | src/underwater_tracking/cli.py:2177-2197 | a merge keeps the newest situation and, of both event lists, exactly one event of every id, the newest version, in (time, id) order |
| `PendingEvents.MergeIsUnique` | src/underwater_tracking/cli.py:2184-2197 | that description determines the merged list |
| `CarrierEvents.StepConserves` | src/underwater_tracking/cli.py:3422-3456 | with rising revisions and no early return, every step keeps the mailbox equal to what was offered since the last start, and every started cycle equal to what it started from |
| `CarrierEvents.NextCycleHasEverything` | src/underwater_tracking/cli.py:3422-3456 | when every offer reaches the mailbox, each cycle holds the newest of the situations the run offered between the previous start and its own, and the newest version of every event of all of them, each once and in (time, id) order when a merge happened |
| `CarrierEvents.BasisIsOfferedFor` | src/underwater_tracking/cli.py:3409-3486 | on every run, what the model books for a cycle is exactly what was offered between the previous start and its own |
| `CarrierEvents.OfferedIsOfferedSince` | src/underwater_tracking/cli.py:3409-3486 | and what it books as waiting is exactly what was offered since the last start |
| `CarrierBypasses.StepIsWholeIff` | src/underwater_tracking/cli.py:3409-3628 | with rising revisions, early returns and pauses allowed: a step leaves every event owed in the held situation, the mailbox or a cycle if and only if the situation it overwrites or the mailbox it hands on keeps its events elsewhere |
| `CarrierBypasses.NextCycleKeepsEveryEvent` | src/underwater_tracking/cli.py:3422-3456 | on every run of such steps each cycle holds the newest situation offered between the previous start and its own, with every event id offered there, each once and in (time, id) order unless it is one offer as it came |
| `CarrierBypasses.WhatWaitsIsCarried` | src/underwater_tracking/cli.py:3579-3590 | on every such run the held situation and the mailbox together hold exactly the event ids offered since the last start |
| `CarrierBypasses.MailboxSurvivesIff` | src/underwater_tracking/cli.py:3576-3590 | a finished cycle's mailbox survives being handed on, paused or not, if and only if no newer situation was left beside it, or that one repeats its events |
| `CarrierBypasses.ForgottenMailboxLosesAnEvent` | src/underwater_tracking/cli.py:3063-3072 | a run of five steps after which an offered event is in no cycle, no mailbox and not in the held situation |
| `CarrierBypasses.OverwrittenSituationLosesAnEvent` | src/underwater_tracking/cli.py:3063-3072 | a run of two offers that loses the first one's event without any mailbox |
| `CarrierBypasses.WithoutEarlyReturnItArrives` | src/underwater_tracking/cli.py:3422-3456 | the five-step run with the early return taken out: its second cycle is the third offer with the event |
| `CarrierBypasses.WithoutEarlyReturnIsOrderly` | src/underwater_tracking/cli.py:3422-3456 | and that run is one on which every offer reaches the mailbox |
| `RefreshAttempts.ExecutionRefresh.EmitEvent` | src/underwater_tracking/cli.py:2374-2492 | the whole new state: id resolution, suppression of a second attempted or terminal event, status, append if absent |
| `RefreshAttempts.ExecutionRefresh.BeginAttempt` | src/underwater_tracking/cli.py:2494-2542 | a new numbered id becomes current and records due and attempted |
| `RefreshAttempts.ExecutionRefresh.EnsureSnapshot` | src/underwater_tracking/cli.py:3937-4155 | the source, health, plan and prediction checks in their order decide whether a snapshot is returned and whether waiting is reported |
| `RefreshAttempts.ExecutionRefresh.RetainAfterGap` | src/underwater_tracking/cli.py:3965-4010 | waiting is reported for an expired or failed snapshot, and for a retained one inside a round; only the retained one is returned |
| `RefreshAttempts.ExecutionRefresh.RefreshMission` | src/underwater_tracking/cli.py:2648-2718 | a due round is begin, install, and the terminal emission its result calls for |
| `RefreshAttempts.RunIsRecorded` | src/underwater_tracking/cli.py:2409-2433 | on every run each attempt id has at most one attempted and at most one terminal event, never the terminal one first |
| `RefreshAttempts.RoundRecords` | src/underwater_tracking/cli.py:2648-2713 | after any run a round's id is new and the log grows by due, attempted and, when the round returns, exactly one terminal event; a retained gap ends as waiting, its commit event suppressed |
| `RefreshRounds.PathTells` | src/underwater_tracking/cli.py:3937-4155 | an installation succeeds if and only if the source covers the current snapshot, building succeeds, and either its plan is carried on or the target is predicted, ready and known from a prior or a fresh report; and exactly which views have a gap of which kind |
| `RefreshRounds.ReturnsIff` | src/underwater_tracking/cli.py:3965-4155 | a snapshot is returned exactly when installed or when a sound current one is retained over a gap |
| `RefreshRounds.RoundTells` | src/underwater_tracking/cli.py:2648-2718 | after any run the events and the status of a round, raising or not, by what it saw |
| `RefreshRounds.ElsewhereTells` | src/underwater_tracking/cli.py:3965-4010 | an installation outside a round reports a gap once per id, and only when the current snapshot cannot be kept |
| `Shutdown.StepIsSound` | src/underwater_tracking/cli.py:4611-4757 | every step of any thread keeps: one thread inside, quiet calls only, successes final, closed only when complete |
| `Shutdown.CloseIsSafe` | src/underwater_tracking/cli.py:4611-4757 | over any interleaving of close calls, aborts, failures and workers: at most one thread in `_close_once`, no resource closed while a worker is alive, no call after a success, and once closed every resource is completed |
| `Shutdown.GoneStaysGone` | src/underwater_tracking/cli.py:4652-4655 | once the flag was raised under the lock no worker found gone comes back |
| `Shutdown.ClosedForGood` | src/underwater_tracking/cli.py:4611-4639 | once closed and nobody inside, no step of any thread closes anything again |
| `Shutdown.WillingStepsLead` | src/underwater_tracking/cli.py:4649-4710 | a thread alone inside, with the workers stopping and no thread alive, reaches the resources with every worker gone |
| `Shutdown.LoopCloser.CloseOne` | src/underwater_tracking/cli.py:4710-4726 | skips empty and completed resources, completes what has no close, and completes the rest only on success |
| `Shutdown.LoopCloser.CloseResources` | src/underwater_tracking/cli.py:4728-4757 | a failing resource does not stop the others; those that did not fail are completed |
| `Shutdown.LoopCloser.CloseOnce` | src/underwater_tracking/cli.py:4649-4757 | ends for a live worker or thread exactly when one outlives its wait, and then no resource was touched; raises only when a resource not yet closed fails; otherwise all are closed |
| `Shutdown.LoopCloser.Close` | src/underwater_tracking/cli.py:4611-4639 | closed afterwards if and only if it was before or this call closed everything; a call after that changes nothing; a call that finds a live worker and one that raises are told apart |
| `EventMailbox.CarrierRuntime.SubmitEvents` | src/underwater_tracking/agent/runtime.py:235-246 | appends once each event new to pending and processed, then keeps the newest up to the limit |
| `EventMailbox.CarrierRuntime.RequeueEvents` | src/underwater_tracking/agent/runtime.py:248-259 | forgets the ids as processed, then submits |
| `EventMailbox.CarrierRuntime.DrainLivePredictionEvents` | src/underwater_tracking/agent/runtime.py:436-448 | appends what is not pending, without the processed check and without the trim |
| `EventMailbox.CarrierRuntime.LatchRegionalReplanEvents` | src/underwater_tracking/agent/runtime.py:900-917 | emits the first event of each key not latched and latches exactly the assessed keys |
| `EventMailbox.CarrierRuntime.RunCycle` | src/underwater_tracking/agent/runtime.py:806-898 | the whole new state for a cycle that succeeds or fails before or after the assessment |
| `EventMailbox.RunIsConsistent` | src/underwater_tracking/agent/runtime.py:235-259 | after any steps pending ids are distinct and the processed set lies inside the order deque, which holds exactly the last deliveries and respects its bound |
| `EventMailbox.LeavesOnlyByDeliveryOrTrim` | src/underwater_tracking/agent/runtime.py:825-898 | in every step pending followed by what it lets in is what it trims from the front, then what a successful cycle hands over or what stays pending; a failed cycle changes nothing else |
| `EventMailbox.SuccessDeliversAll` | src/underwater_tracking/agent/runtime.py:870-898 | a successful cycle hands over the newest of what was pending and what it let in, in order, and empties the mailbox |
| `EventMailbox.AcceptedIsNew` | src/underwater_tracking/agent/runtime.py:235-246 | what a step lets in has distinct ids, none of them pending |
| `EventMailbox.NewEventsGetIn` | src/underwater_tracking/agent/runtime.py:235-259 | an event that is not pending gets in, unless it was submitted or assessed and is still remembered as processed |
| `EventMailbox.PendingIsBounded` | src/underwater_tracking/agent/runtime.py:235-246 | every step that submits leaves at most the limit pending |
| `EventMailbox.EveryAcceptedEventIsSomewhere` | src/underwater_tracking/agent/runtime.py:235-259 | on every run each event let in is, exactly once, delivered, pending or trimmed |
| `EventMailbox.FailuresLoseNothing` | src/underwater_tracking/agent/runtime.py:886-898 | over any run without a successful cycle pending grows at its end by what is let in and shrinks at its front only while full |
| `EventMailbox.DeliveredAtMostOnce` | src/underwater_tracking/agent/runtime.py:870-898 | on every run whose requeues and live predictions bring back no id still in the deque, no id occurs twice within the last `processed_event_limit` deliveries |
| `EventMailbox.DeliveredAtMostOnceIff` | src/underwater_tracking/agent/runtime.py:870-898 | on any run at all that holds if and only if no successful cycle found one of its ids among the recent ones in the deque |
| `EventMailbox.OneEventRepeatsIff` | src/underwater_tracking/agent/runtime.py:248-259 | one event requeued, or brought in by live predictions, into an idle mailbox repeats a delivery if and only if its id is still in the deque |
| `EventMailbox.RequeueBreaksAtMostOnce` | src/underwater_tracking/agent/runtime.py:256-259 | a run with a requeue that delivers an id again inside that window |
| `EventMailbox.FreshCoversNewKeys` | src/underwater_tracking/agent/runtime.py:900-917 | one event is emitted for exactly the degraded keys that were not latched |
| `EventMailbox.LatchesAreTheLastAssessment` | src/underwater_tracking/agent/runtime.py:806-917 | after any run the latches are the degraded keys of the last successful cycle |
| `SensorControls.ControlQueue.SubmitSensorMode` | src/underwater_tracking/agent/runtime.py:576-585 | a new control replaces the queued one of its vehicle and goes to the end |
| `SensorControls.ControlQueue.DrainSensorControls` | src/underwater_tracking/agent/runtime.py:599-604 | the whole queue moves to the cycle, in order |
| `SensorControls.ControlQueue.RequeueSensorControls` | src/underwater_tracking/agent/runtime.py:606-612 | what the cycle held comes back except for vehicles that have a newer control |
| `SensorControls.AppliedInOrder` | src/underwater_tracking/agent/runtime.py:576-612 | on every run at most one control per vehicle is queued, and a vehicle's controls reach the engine in submission order |
| `SensorControls.StepTells` | src/underwater_tracking/agent/runtime.py:576-612 | a submission replaces the control of its vehicle at the end, a drain hands the whole queue to the cycle, a provider failure puts back what has no newer control |
| `SensorControls.BoundaryTells` | src/underwater_tracking/cli.py:3710-3759 | which controls of the retiring cycle go to the engine, in order |
| `SensorControls.OthersKeepOrder` | src/underwater_tracking/agent/runtime.py:576-585 | a submission leaves the controls of all other vehicles as they were |
| `SensorControls.NewestIsKept` | src/underwater_tracking/cli.py:3497-3518 | on every run the newest control of a vehicle is queued, in flight or applied, unless a boundary of the run lost it |
| `SensorControls.DroppedIff` | src/underwater_tracking/cli.py:3592-3628 | on every run a control is dropped if and only if a boundary retired the cycle holding it stale without an epoch, after its worker raised, without an engine, or raising before the control's turn |
| `SensorControls.LosesIff` | src/underwater_tracking/cli.py:3710-3759 | the same for one boundary |
| `SensorControls.StaleCycleLosesAControl` | src/underwater_tracking/cli.py:3610-3617 | a run in which a stale cycle loses a control |
| `SensorControls.ControlQueue.ApplyControls` | src/underwater_tracking/cli.py:3754-3759 | the controls before the one the engine refuses are applied and the rest go nowhere |
| `OperationalInputs.InputQueue.SubmitIntelligence` | src/underwater_tracking/agent/runtime.py:625-634 | accepted exactly when not yet expired; replaces the report of the same id |
| `OperationalInputs.InputQueue.SetOperationalScheme` | src/underwater_tracking/agent/runtime.py:614-623 | accepted exactly when not yet expired; replaces the scheme |
| `OperationalInputs.InputQueue.SortedReports` | src/underwater_tracking/agent/runtime.py:687-689 | the waiting reports, least id first |
| `OperationalInputs.InputQueue.CommitOperationalInputs` | src/underwater_tracking/agent/runtime.py:672-707 | nothing is handed over when anything has expired; when the engine refuses, the calls made so far stand and the queue is kept; otherwise all is handed over and the queue is empty |
| `OperationalInputs.ListingIsAscending` | src/underwater_tracking/agent/runtime.py:687-689 | the commit order is ascending in the ids and holds each waiting report once |
| `OperationalInputs.CommitsUnlessExpired` | src/underwater_tracking/agent/runtime.py:672-707 | with a willing engine a commit succeeds if and only if nothing waiting has expired, and then hands over as many inputs as were waiting |
| `OperationalInputs.ExpiredReportBlocks` | src/underwater_tracking/agent/runtime.py:690-700 | after a waiting report expires, no run of further submissions and commits hands anything over until its id is submitted again |
| `OperationalInputs.RefusalKeepsTheQueue` | src/underwater_tracking/agent/runtime.py:684-707 | a refusing engine has been handed what comes before the refusal, the queue keeps everything, and the next commit hands all of it over again |
| `OperationalInputs.WaitingIsComplete` | src/underwater_tracking/agent/runtime.py:684-700 | a commit hands over the scheme first and then every report once, in ascending order of ids |
| `OperationalInputs.WaitsIff` | src/underwater_tracking/agent/runtime.py:625-707 | on every run a report waits if and only if it was submitted while valid and since then there was no commit and no valid submission of its id |
| `OperationalInputs.SchemeWaitsIff` | src/underwater_tracking/agent/runtime.py:614-707 | and the waiting scheme is the last one set while valid, without a commit since |
| `LiveHub.OperationalHub.PublishLocked` | src/underwater_tracking/api/hub.py:48-61 | the new frame is latest and the subscribers present are noted, in one locked section |
| `LiveHub.OperationalHub.ScheduleDelivery` | src/underwater_tracking/api/hub.py:78-82 | one subscriber is sent the newest frame, or forgotten when its loop is closed |
| `LiveHub.OperationalHub.RunDelivery` | src/underwater_tracking/api/hub.py:62-76 | a delivery appends its frame; the oldest queued frame goes only when the queue is full |
| `LiveHub.OperationalHub.Join` | src/underwater_tracking/api/hub.py:118-127 | registration and the read of the latest frame are one section |
| `LiveHub.OperationalHub.YieldNext` | src/underwater_tracking/api/hub.py:109-113 | the frame that was latest on joining is yielded first, then the queue in order, and nothing while it is empty |
| `LiveHub.SubscribersSeeASubsequence` | src/underwater_tracking/api/hub.py:48-134 | after any steps each subscriber has received a strictly increasing run of publications starting at the one latest on joining, and its queue is within its bound |
| `LiveHub.DrainedSubscriberIsCurrent` | src/underwater_tracking/api/hub.py:58-82 | once deliveries have run and the queue is drained, the last frame received is the last published |
| `LiveDeliveries.DeliveryKeeps` | src/underwater_tracking/api/hub.py:62-76 | a delivery with room keeps everything and appends its frame; a full queue loses exactly its oldest frame |
| `LiveDeliveries.YieldKeeps` | src/underwater_tracking/api/hub.py:109-113 | a stream yields the frame latest on joining and then exactly the head of its queue |
| `LiveDeliveries.FramesBalance` | src/underwater_tracking/api/hub.py:48-127 | on every run, for every subscriber: received and queued frames plus the deliveries that met a full queue are the frame latest on joining plus one frame for each delivery; without such deliveries they are exactly those frames in order |
| `LiveDeliveries.PublicationTells` | src/underwater_tracking/api/hub.py:48-61 | a publication becomes the newest and is to be sent to every subscriber present |
| `LiveDeliveries.SendingTells` | src/underwater_tracking/api/hub.py:78-82 | sending puts it at the end of what waits on the loop of the subscriber |
| `LiveDeliveries.LeftStaysGone` | src/underwater_tracking/api/hub.py:76-116 | a subscriber that left, or whose loop is closed, is gone for the rest of the run |
| `DirectiveQueue.RuntimeDirectiveQueue.SubmitJob` | src/underwater_tracking/api/hub.py:177-253 | accepted or refused as the table says, evicting at most the oldest terminal job |
| `DirectiveQueue.RuntimeDirectiveQueue.BeginPreview` | src/underwater_tracking/api/hub.py:255-260 | a preview task whose job is still there makes it processing, otherwise it ends |
| `DirectiveQueue.RuntimeDirectiveQueue.EndPreview` | src/underwater_tracking/api/hub.py:280-289 | the result becomes the status of the job, with a directive unless it failed, and no other job changes |
| `DirectiveQueue.RuntimeDirectiveQueue.ApplyJob` | src/underwater_tracking/api/hub.py:312-345 | accepted exactly when the job is in preview and its plan version is the one read |
| `DirectiveQueue.RuntimeDirectiveQueue.EndApply` | src/underwater_tracking/api/hub.py:347-358 | the result becomes the status of the job, which is still there, and no other job changes |
| `DirectiveQueue.RuntimeDirectiveQueue.Shutdown` | src/underwater_tracking/api/hub.py:360-369 | closed, and of the tasks only those no worker had taken are withdrawn |
| `DirectiveQueue.RunIsOk` | src/underwater_tracking/api/hub.py:165-358 | after any interleaving the table is within its bound, every task finds its job in the status it left, and no job was dispatched twice |
| `DirectiveQueue.ReservedKeepsLiveJobs` | src/underwater_tracking/api/hub.py:238-253 | making room evicts at most one job, never one that is not terminal, and is refused exactly when the table is full of those |
| `DirectiveQueue.ApplyFindsItsJob` | src/underwater_tracking/api/hub.py:347-358 | a worker finishing an apply always finds its job, still applying |
| `DirectiveQueue.DispatchedIffApplied` | src/underwater_tracking/api/hub.py:312-345 | on every run a job was dispatched if and only if exactly one step applied it while the table held it in preview at the plan version then read |
| `DirectiveQueue.SubmitIsRefusedIff` | src/underwater_tracking/api/hub.py:177-253 | exactly when a submit leaves the queue unchanged |
| `DirectiveQueue.ClarificationKeepsItsSlot` | src/underwater_tracking/api/hub.py:165-175 | a job that needs clarification keeps its slot through any further run |
| `DirectiveLives.HoldsSince` | src/underwater_tracking/api/hub.py:165-369 | after any prefix of any run each fact about an id (taken, in the table at a version, in a status, waiting for a worker, in preview, to be applied) holds if and only if some step made it true and no later one ended it |
| `DirectiveLives.PreviewedIff` | src/underwater_tracking/api/hub.py:255-345 | on every run a job is in preview at a plan version if and only if it was accepted with it, its preview ended as a preview, and since then it was neither applied nor evicted |
| `DirectiveLives.StepFiles` | src/underwater_tracking/api/hub.py:255-358 | every worker step and apply files its status for the one job concerned and moves nothing else |
| `DirectiveLives.SubmitAppends` | src/underwater_tracking/api/hub.py:238-253 | a submit that gets in puts the job last, queued, and a full table loses its oldest terminal job |
| `EventEpisodes.EventEpisodeGate.Observe` | src/underwater_tracking/agent/event_policy.py:47-81 | the verdict and the whole new table |
| `EventEpisodes.TableDescribesEpisodes` | src/underwater_tracking/agent/event_policy.py:41-81 | for any severities the table entry of a key is a function of that key's own observations since its last inactive one |
| `EventEpisodes.FiresByOwnHistory` | src/underwater_tracking/agent/event_policy.py:47-81 | the verdict by the key's own history; where its episode kept the law it is: ready and above all fired, unless it is ready, the last fired severity is zero and its own is not above zero |
| `EventEpisodes.LawHoldsIff` | src/underwater_tracking/agent/event_policy.py:70-81 | fired severities strictly rise in an episode, and all its observations keep the law, if and only if no ready observation of severity zero or less comes right after a fired zero |
| `EventEpisodes.FiredVerdictsRise` | src/underwater_tracking/agent/event_policy.py:47-81 | two verdicts that fire in one episode of a key have strictly rising severities, under that condition |
| `EventEpisodes.NonZeroSeveritiesAreEnough` | src/underwater_tracking/agent/event_policy.py:70-81 | severities other than zero meet the condition |
| `EventEpisodes.SeverityZeroFiresTwice` | src/underwater_tracking/agent/event_policy.py:70-81 | a history outside the condition in which severity zero fires twice |
| `PersistencePolicy.FramePersistencePolicy.ShouldPersist` | src/underwater_tracking/api/live.py:73-93 | the frame joins the persisted stream exactly when it is persisted, and the remembered frame is the last one persisted |
| `PersistencePolicy.EveryFrameIsCovered` | src/underwater_tracking/api/live.py:66-110 | for every published frame the last persisted one at or before it has its plan version and phase, all its event and mission-event ids, and is less than an interval older |
| `PersistencePolicy.EveryEventIdIsPersisted` | src/underwater_tracking/api/live.py:66-110 | every event id ever published occurs in a persisted frame |
| `PersistencePolicy.SkippedIff` | src/underwater_tracking/api/live.py:73-110 | under a sampling interval a frame is left out if and only if beside the last persisted one it has the same plan version and run phase, no new event, and the interval is not over; the first frame, and without an interval every frame, is persisted |
| `LogLines.OffsetReadsBack` | src/underwater_tracking/api/replay.py:154-163 | seeking to a line's byte offset and reading gives that line |
| `LogLines.LineStaysPut` | src/underwater_tracking/api/replay.py:154-163 | appends that begin on a fresh line leave what is read at an offset as it was |
| `LogLines.LinesOfConcat` | src/underwater_tracking/api/frame_logger.py:43-66 | whole lines written one after the other are iterated back unchanged |
| `FrameLog.FrameLogger.AppendSerialized` | src/underwater_tracking/api/frame_logger.py:43-66 | when the frame stays within the budget the file grows by exactly it and its newline and the count by one; otherwise the file grows by the marker, once, and the flags say so |
| `FrameLog.BudgetHolds` | src/underwater_tracking/api/frame_logger.py:43-66 | after any appends the file is within the budget plus one marker line and holds at most one marker |
| `FrameLog.AppendOnDisk` | src/underwater_tracking/api/frame_logger.py:43-66 | the same of the list of records, on bytes |
| `FrameLog.MarkerIff` | src/underwater_tracking/api/frame_logger.py:43-66 | while the frames with their newlines fit the budget all together every one is written, and the marker is there if and only if they exceed it |
| `FrameLog.UnlimitedKeepsAll` | src/underwater_tracking/api/frame_logger.py:43-66 | without a budget every frame is written |
| `FrameLog.DecimalReads` | src/underwater_tracking/api/frame_logger.py:52-62 | the sizes in the marker read back as the numbers they are |
| `FrameLog.KeptAreAccepted` | src/underwater_tracking/api/frame_logger.py:43-66 | the payloads on disk are exactly the accepted ones, in order |
| `FrameLog.MarkerMeansLoss` | src/underwater_tracking/api/frame_logger.py:43-66 | the marker is there exactly when some frame was left out |
| `LoggedReplay.LogHoldsAccepted` | src/underwater_tracking/api/replay.py:70-82 | indexing such a log finds no corrupt line and exactly the accepted frames, in order |
| `LoggedReplay.CountIsIndexed` | src/underwater_tracking/api/frame_logger.py:43-66 | the logger's `count` is the number of frames an index of its file finds |
| `LoggedReplay.LogGrowsByLines` | src/underwater_tracking/api/frame_logger.py:43-66 | every earlier state of the file is a prefix of the later one that ends with a whole line |
| `LoggedReplay.ReplayReturnsAccepted` | src/underwater_tracking/api/replay.py:104-133 | replaying it unpaged returns exactly the accepted frames in stable time order |
| `Replay.ReplayService.BuildIndex` | src/underwater_tracking/api/replay.py:57-90 | the first corrupt line is reported and nothing replaced; otherwise the index describes the file as it was scanned, the signature is that of the file after it may have grown, and the index is current if and only if it did not |
| `Replay.ReplayService.RefreshIfChanged` | src/underwater_tracking/api/replay.py:92-102 | an unchanged signature leaves the index alone; otherwise it is of the file as scanned, current if and only if nothing was appended between scan and signature; always of a prefix of whole lines of the file |
| `Replay.ReplayService.MatchingBounds` | src/underwater_tracking/api/replay.py:148-152 | the two positions delimit exactly the frames at or after the start and at or before the end |
| `Replay.ReplayService.Range` | src/underwater_tracking/api/replay.py:104-133 | over the indexed prefix the answer is: lines, markers dropped, stable sort by time, filter, page; with the error cases; the prefix is the whole file whenever the signature was new or the index current, and growth before the reads changes nothing |
| `Replay.ReplayService.ReadEntry` | src/underwater_tracking/api/replay.py:154-163 | an index entry reads back the frame it was built from, however the file has grown by whole lines |
| `Replay.ReplayService.CountFrames` | src/underwater_tracking/api/replay.py:135-138 | the number of frames of the indexed prefix that are replayed, negative exactly when the bounds are crossed around a frame |
| `Replay.LateAppendIsMissed` | src/underwater_tracking/api/replay.py:82-102 | an append between scan and signature is served by neither this request nor the next |
| `Replay.BoundsCount` | src/underwater_tracking/api/replay.py:135-138 | the difference of the two bisect positions means that |
| `Replay.IndexSortIsStableSort` | src/underwater_tracking/api/replay.py:84-88 | sorting entries by (time, offset) is the stable sort of the frames by time |
| `Replay.StableSortIsStable` | src/underwater_tracking/api/replay.py:84-88 | frames of one time keep their log order |
| `Replay.StableSortSorts` | src/underwater_tracking/api/replay.py:84-88 | the order is ascending and a permutation of the frames |
| `Replay.BetweenIsSlice` | src/underwater_tracking/api/replay.py:148-152 | filtering a sorted list by time is slicing it at the bounds |
| `Replay.BetweenTells` | src/underwater_tracking/api/replay.py:104-133 | filtering keeps all frames of a time between the ends, both included, and none of any other |
| `Replay.PageTells` | src/underwater_tracking/api/replay.py:104-133 | a page holds the frames from its offset on, as many as there are up to the limit |
| `Replay.FirstCorruptTells` | src/underwater_tracking/api/replay.py:70-82 | the line reported is the first that does not validate, counted from one |
| `Replay.PagesCoverEverything` | src/underwater_tracking/api/replay.py:104-133 | the pages of any size, concatenated, are the unpaged list |
| `Replay.EntryReadsBack` | src/underwater_tracking/api/replay.py:57-90 | every indexed byte offset reads back the line its entry was built from |
| `ReplayCursor.ReplayScanner.Poll` | tools/run_default_live_acceptance.py:1508-1562 | while times are non-negative and never decrease, any poll over a log that grows meanwhile has consumed exactly its first `offset` frames with their events de-duplicated, and stops only caught up, at the page limit or on an error |
| `ReplayCursor.OrdersAreConsecutive` | tools/run_default_live_acceptance.py:1531-1553 | collected events are numbered from zero without gaps and no two share a key |
| `ReplayCursor.EventIsCollectedIff` | tools/run_default_live_acceptance.py:1531-1553 | an event, with an id or without, is collected under the next number if and only if no collected event has its key |
| `ReplayCursor.RetainedAreNewest` | tools/run_default_live_acceptance.py:1508-1530 | the frames retained are the newest consumed |
| `ReplayCursor.ReplayScanner.EventsOfConcat` | tools/run_default_live_acceptance.py:1531-1553 | all events of all frames are considered, in log order |
| `ReplayCursor.IdentifiedEventsAreDeduplicated` | tools/run_default_live_acceptance.py:1531-1553 | events with ids are kept once each, at their first appearance |
| `ReplayCursor.SortOfAppend` | src/underwater_tracking/api/replay.py:84-88 | where an appended frame lands in the served order |
| `ReplayCursor.CursorSurvives` | tools/run_default_live_acceptance.py:1508-1562 | the frames consumed stay the first ones served after an append if and only if the new frame is not earlier than the last consumed |
| `Checkpoints.RunCheckpoints` | tools/run_default_live_acceptance.py:2215-2290 | the picks are strictly increasing, match their types, no embedding reaches its last type earlier, and a stop means no candidate had arrived |
| `Checkpoints.PassesIffEmbeds` | tools/run_default_live_acceptance.py:1600-1614 | with the whole stream seen, all typed checkpoints pass if and only if their types embed in order in the stream |
| `JsonText.PrintIsBalanced` | src/underwater_tracking/agent/llm.py:642-672 | whatever escapes, quotes or brackets its strings hold, a printed value is balanced, and an object or array closes only at its last character |
| `JsonScanner.BalancedBlocks` | src/underwater_tracking/agent/llm.py:642-672 | the blocks start at the first opener outside a string after the previous block and end at the first return to depth zero, and nothing is missed |
| `JsonScanner.ScanIsUnique` | src/underwater_tracking/agent/llm.py:642-672 | that description fixes the list of blocks |
| `JsonScanner.ChainIsOrdered` | src/underwater_tracking/agent/llm.py:642-672 | blocks are disjoint and left to right |
| `JsonScanner.PrintedValuesAreYielded` | src/underwater_tracking/agent/llm.py:642-672 | every object or array printed between pieces of quote-free and opener-free prose is yielded, exactly and in order |
| `JsonScanner.FirstBlockIsThePrintedValue` | src/underwater_tracking/agent/llm.py:642-672 | the first block of prefix, printed value and any suffix is the printed value |
| `JsonScanner.YieldedIff` | src/underwater_tracking/agent/llm.py:642-672 | in any surroundings a printed object or array is yielded as a block of its own if and only if the scan of the text before it ends outside strings with nothing open, and then after the blocks of that text |
| `JsonExtract.ExtractJsonValue` | src/underwater_tracking/agent/llm.py:610-639 | empty text gives nothing; a text that starts like JSON and parses wins; otherwise the first block of the unfenced text that parses |
| `JsonExtract.ProseIsStripped` | src/underwater_tracking/agent/llm.py:610-639 | a printed object or array that the parser reads is recovered from prose without quotes or openers before it and anything behind it |
| `JsonExtract.IdleProse` | src/underwater_tracking/agent/llm.py:610-639 | the exact result for prose that ends outside strings with nothing open: the whole text when it parses, else the first block of the prose that parses, else the printed value |
| `JsonExtract.OpenQuoteLosesTheValue` | src/underwater_tracking/agent/llm.py:610-672 | prose that leaves a string open loses a following value without strings, whatever the parser accepts |
| `JsonExtract.LoneQuoteLosesTheValue` | src/underwater_tracking/agent/llm.py:610-672 | an input: one inch mark before an array |
| `JsonExtract.BareWordYieldsNothing` | src/underwater_tracking/agent/llm.py:610-639 | a reply without brackets that does not start with a quote yields nothing, even if it would parse |
| `JsonExtract.QuotedStringIsRead` | src/underwater_tracking/agent/llm.py:610-639 | a reply that is one quoted string is read as it stands |
| `JsonExtract.PremisesAreMet` | src/underwater_tracking/agent/llm.py:610-639 | for every printed value some parser meets what is asked of it |
| `JsonExtract.FencedValue` | src/underwater_tracking/agent/llm.py:610-639 | a fenced object or array is recovered if and only if its text holds no fence mark, and otherwise nothing is |
| `JsonExtract.CutValueIsLost` | src/underwater_tracking/agent/llm.py:642-672 | a proper prefix of a printed object or array yields no value |
| `JsonExtract.FenceInAStringLosesTheValue` | src/underwater_tracking/agent/llm.py:610-639 | an input whose fenced value is lost |
| `RetryLoop.HttpStructuredLlm.InvokeStructured` | src/underwater_tracking/agent/llm.py:273-355 | a call stops at the first turn not retried or at the last attempt, appends one ledger row per recorded attempt and waits once per retry, with the cancellation points; the next four rows say which responses are which |
| `RetryLoop.RetriedIff` | src/underwater_tracking/agent/llm.py:281-475 | an uncancelled attempt is followed by another if and only if its response is a timeout, a lost connection, 429 or 5xx, and attempts are left |
| `RetryLoop.RowsTell` | src/underwater_tracking/agent/llm.py:281-475 | category and failed fields of every row by the response of its attempt |
| `RetryLoop.ResultTells` | src/underwater_tracking/agent/llm.py:281-475 | the result by the last response, when nobody cancels it |
| `RetryLoop.CancelledIff` | src/underwater_tracking/agent/llm.py:281-335 | exactly when a call ends cancelled, and when its last attempt leaves no row |
| `RetryLoop.CallIsUnique` | src/underwater_tracking/agent/llm.py:273-355 | world and settings determine attempts, rows, waits and result |
| `RetryLoop.Accounting` | src/underwater_tracking/agent/llm.py:281-355 | uncancelled: between one and max(1, max_retries) attempts, one row each, all but the last transient, the last naming the result; transient failure is returned exactly when every permitted attempt failed transiently |
| `RetryLoop.CancelledAccounting` | src/underwater_tracking/agent/llm.py:281-355 | cancelled or not, only transient failures are retried and at most the last attempt lacks its row |
| `RetryLoop.DelaysNeverDecrease` | src/underwater_tracking/agent/llm.py:477-482 | delays before jitter never decrease and stay between zero and the maximum |
| `RetryLoop.DelaysDouble` | src/underwater_tracking/agent/llm.py:477-482 | the first delay is the base, each later one doubles the one before, all stop at the maximum |
| `RetryLoop.WaitsAreStretched` | src/underwater_tracking/agent/llm.py:477-482 | a wait is its delay plus jitter times that delay |
| `RetryLoop.TotalWaitIsBounded` | src/underwater_tracking/agent/llm.py:477-482 | with jitter in [0, 1] the total wait is at most 2 * (attempts - 1) * backoff_max_s |
| `ProcessGroups.CollectChildren` | scripts/monitor_main_battle.py:2486-2495 | the table of children lists, for every pid, its child lines in order |
| `ProcessGroups.DescendantProcessGroups` | scripts/monitor_main_battle.py:2496-2507 | terminates on any table, cycles included; every reachable pid lends a group, every group comes from a reachable process, and with unique pids the groups are exactly the reachable ones |

## Left out

- HTTP, WebSocket and FastAPI routes, subprocess calls, SQLite stores, the planning graph, the engine and the coordinators: foreign code, present only as arbitrary answers.
- Model-call content, prompts, hashing, token budgets and latency: not part of retries and accounting. The ledger is taken to be present, and its row is the error category and failed fields.
- Settings of the retry delays are taken as non-negative, as the configuration demands (`config/models.py:374-384`); delays are real numbers.
- `CarrierProtocol.AgentLoop.StartBackgroundCycle`: calls to the engine and the epoch coordinator while a cycle is prepared are taken not to raise; only the worker and the applying of a plan may.
- `CarrierProtocol.AgentLoop.ApplyPlanningPhase`: reading the active plan just before the epoch is closed is taken not to raise; what happens to the engine afterwards is one flag, raised or not.
- The cycle object is kept in a list and named by its position, where the source shares a reference between two threads.
- The synchronous carrier path, which may close an epoch twice (`cli.py:3358` and `cli.py:3402`), and the local-brain results queue.
- Physics-thread calls are taken to be serial, as the source arranges them; the worker may end between any two.
- Event ids in `PendingEvents.dfy` are integers standing for strings under their order.
- `RefreshAttempts.ExecutionRefresh.EmitEvent`: the event store is present and starts empty; ids of an earlier process run with the same scenario are not considered, nor are payloads.
- `RefreshAttempts.ExecutionRefresh.EnsureSnapshot`: each check is a given answer, and building and committing a snapshot is one of them.
- `Shutdown.LoopCloser.Close`: waiting for another thread is a step of the run model, not of the method; a local-brain thread is assigned and started in one step; a thread past its last locked section counts as ended; the list of resources does not change.
- `SensorControls.ControlQueue.SubmitSensorMode`: the validation of a request is done before; a control is its vehicle and its number.
- `OperationalInputs.InputQueue.CommitOperationalInputs`: report ids are integers standing for strings under their order; draining the inputs without a commit is not modelled.
- `EventMailbox.CarrierRuntime.RunCycle`: the monitor checkpoints of a cycle, and reading the graph state after delivery, which is taken not to raise.
- `DirectiveQueue.RuntimeDirectiveQueue.ApplyJob`: apply requests are serial, as the route handlers make them (`api/app.py:954-968`), since the status is not checked again at the second lock; a shutdown between a locked section and the hand-over to the executor is not modelled.
- `LiveHub.OperationalHub.PublishLocked`: one publisher at a time; a frame is its publication number.
- `PersistencePolicy.FramePersistencePolicy.ShouldPersist`: events without an id count as new content but are not tracked one by one; the projection of a frame for storage is not modelled.
- `FrameLog.FrameLogger.AppendSerialized`: payloads are bytes without a newline; text encoding, newline translation and file errors are not modelled.
- `Replay.ReplayService.Range`: a file with the size and modification time on record is taken to have at most grown since its scan, and it grows by whole lines (`LoggedReplay.LogGrowsByLines`); a scan reads one state of the file, and the file is not deleted during a request.
- `ReplayCursor.ReplayScanner.Poll`: a frame yields its list of events; malformed frames and events are not modelled, and page and count are answered from one state of the log.
- `Checkpoints.RunCheckpoints`: waiting, timeouts and the extra predicates of a checkpoint are an arbitrary amount of stream seen.
- `JsonExtract.ProseIsStripped`: `json.loads` is any function that reads the printed value at hand and accepts nothing but white space behind it; `JsonExtract.FencedValue` asks besides that it accepts only balanced text.
- `ProcessGroups.DescendantProcessGroups`: running `ps` and parsing its lines; the table holds the lines that parsed.
- Configuration models, view models, report writers and single-branch helpers such as `wrap_angle`: reading one function settles them.
