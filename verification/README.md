# A verified model of the Xively client runtime

The Xively C client is a single-threaded, cooperative event system. This project models the parts of it
in which many functions share state, and proves what they keep over whole runs:

- **Cooperative runtime.** `Vectors` and `TimeEvents` model the `int8_t`-indexed vector and the sorted container of
  time events with back-pointers. `Dispatcher` says what each interface call does to the dispatcher's state, and
  `DispatcherObject` is the dispatcher itself, over that container, a linked queue and the callers' handles, proved
  to do so. `TimedTasks` and `Backoff` are the two protocols on top of it. A handler is the finite list of
  interface calls it makes; a run is any sequence of clock ticks, interface calls, firings and pops.
  `DispatcherRuns`, `DispatcherLaws`, `TimedTaskRuns` and `BackoffRuns` hold what is true of every such run.
- **Containers.** `HandleRegistry` is the table of handles over the vector, `LinkedList` the intrusive list
  macros on real nodes, `DataDesc` (with `Bits`) the growable byte buffer.
- **Streaming decoders of the over-the-air update example.** `TarArchive` is the archive reader that is fed a tar
  stream in windows of any size; `TarRuns`, `TarVerdict`, `TarStatus` and `TarCount` say what it stores, what it
  decides, what it answers and what its counter means, over whole runs. `Base64` is the decoder of signatures.
- **A resumable computation.** `CrcCoroutine` is the checksum that yields every 32 bytes, and
  `CrcLaws` says which bytes that checksum depends on.

Code that changes state in place is modelled by classes, arrays and loops; each method's contract ties its new
state to a function of the old one, and the theorems are proved about that function and about runs of it.

What the C code does that its callers may not expect, each stated by a lemma that says exactly when:

- Restarting a time event for a later time puts it *before* the events already due then, whereas adding puts it
  behind them. Events due at the same time stay in scheduling order throughout a run iff every restart respects
  their ages: an event moved to a later time is older than all events due then, one moved to an earlier time is
  younger than them and than the last one fired, if that was due then too (`DispatcherRuns.StableIffTiesKept`,
  with `DispatcherRuns.RestartOvertakes` for a run in which it is not so).
- A timed task whose event the dispatcher refuses is released while its slot still refers to it; those steps, and
  no others, break ownership (`TimedTaskRuns.OwnershipNeedsService`, `TimedTaskRuns.RefusedRequestDangles`). A
  repeating task with delay 0 runs once.
- Tasks and backoff share one dispatcher with 64 places. A positive backoff index has its cooldown pending iff no
  cooldown it needed was refused (`BackoffRuns.RaisedIndexIsCooling`); with 64 other events pending, a failure
  raises the index and nothing lowers it until the next failure (`BackoffRuns.FullDispatcherFreezesBackoff`).
- `XI_LIST_SPLIT_I` loses nodes iff something is picked while the output already holds two nodes or more
  (`LinkedList.SplitLosesNothing`).
- A handle is an `int32_t` that the vector reads as an `int8_t`, so handles alias modulo 256
  (`HandleRegistry.WideHandlesAlias`).
- The capacity strategy meets a growing desire iff it is at most 2^31; beyond that it yields 0
  (`DataDesc.StrategyFits`).
- After a cancelled cooldown the backoff index stays where it is until the next failure
  (`BackoffRuns.CancelledIndexIsFrozen`).
- The count of saved files is not reset with its table: over a run it agrees with the table throughout iff nothing
  was counted whenever a new archive was begun or an update given up (`TarCount.CountedIffClean`). Otherwise an
  archive can be accepted as complete although its only listed file is missing (`TarMissing.MissingFileIsAccepted`).
- The checksum of the coroutine example is called a standard CRC there, but shifts to the left where its table is
  made for shifting to the right, so that all bytes but the last four leave one byte in it
  (`CrcLaws.ChecksumIsLastFour`, `CrcLaws.BeginningsCollide`).
- A registration answers success also when the table could not grow and nothing was registered
  (`HandleRegistry.OutcomeTells`).
- The archive reader departs from the standard tar layout exactly at entries with data whose type is neither a
  file nor one of '1' to '6', for instance '7' or 'x' (`TarRuns.LayoutIsUstar`).
- If the parser of the command file stops with a tail of the file unread, the next header is found iff the tail
  fits into the rest of the current 512-byte block (`TarRuns.TailIsSkippedIff`).

## Model

| member | source | states |
|---|---|---|
| Vectors.Vector.Realloc | src/libxively/datastructures/xi_vector.c:15-44 | growth succeeds iff the vector is managed, memory is available and the new size is positive; a failed growth changes nothing and no growth changes the contents |
| Vectors.Vector.Push | src/libxively/datastructures/xi_vector.c:136-156 | the element is appended unless a full vector cannot double, which above 63 cells is the `int8_t` wrap-around |
| Vectors.Vector.SwapElems | src/libxively/datastructures/xi_vector.c:158-172 | exchanges exactly two elements |
| Vectors.Vector.Del | src/libxively/datastructures/xi_vector.c:174-192 | the last element takes the place of the deleted one |
| Vectors.Vector.Find | src/libxively/datastructures/xi_vector.c:194-212 | the first index whose element compares equal, -1 iff there is none |
| Vectors.FirstIndex | src/libxively/datastructures/xi_vector.c:194-212 | nothing before the found index matches, and -1 means nothing matches at all |
| Vectors.Vector.RemoveIf | src/libxively/datastructures/xi_vector.c:240-255 | although deletions move elements, the predicate is asked exactly once about each original element, from the last to the first, and exactly the elements not answered with 1 remain |
| Vectors.KeptByValue | src/libxively/datastructures/xi_vector.c:240-255 | for a predicate on values, every value keeps all of its occurrences or loses all of them |
| Vectors.ReverseAt | src/libxively/datastructures/xi_vector.c:240-255 | the order of the questions is the original order backwards, position by position |
| Vectors.ReversePermutes | src/libxively/datastructures/xi_vector.c:240-255 | the questions are about the original elements, no more and no fewer |
| Common.Int8 | src/libxively/datastructures/xi_vector.h:21 | the index type holds the one value in -128..127 that is congruent modulo 256 |
| HandleRegistry.FindHandle | src/libxively/xi_handle.c:30-44 | the first slot with the object, or NotFound iff no slot has it |
| HandleRegistry.ObjectForHandle | src/libxively/xi_handle.c:24-28 | what the slot under the truncated handle holds |
| HandleRegistry.ObjectFor | src/libxively/datastructures/xi_vector.c:231-238 | a handle in range reads its slot; handles from 128 to 255 and small negative ones read nothing |
| HandleRegistry.DeleteHandle | src/libxively/xi_handle.c:46-59 | clears the object's slot or answers NotFound and changes nothing |
| HandleRegistry.RegisterHandle | src/libxively/xi_handle.c:61-83 | the first cleared slot is reused before the table grows, up to the maximum; with limits up to 64 only a lack of memory can stop a growth |
| HandleRegistry.RegisterContext | src/libxively/xively.c:57-59 | with the library's limit of 10 contexts the table never has more than 10 handles in 16 cells |
| HandleRegistry.ApplyRefinesMap | src/libxively/xi_handle.c:46-83 | on the partial map from handles to objects, a registration adds the object under the least free handle or leaves the map alone when there is no room, a deletion removes exactly that object |
| HandleRegistry.OutcomeTells | src/libxively/xi_handle.c:46-83 | a registration reports missing resources iff as many objects as allowed are live; it answers success without registering iff the table had to grow and could not; a deletion is answered with success iff the object was there |
| HandleRegistry.HandlesAreStable | src/libxively/xi_handle.c:24-83 | through any run of registrations and deletions, an object that is not deleted keeps its handle, and both look-ups agree on it |
| HandleRegistry.DeletedHandleIsEmpty | src/libxively/xi_handle.c:24-83 | a deleted handle yields nothing until a later registration takes its slot |
| HandleRegistry.WideHandlesAlias | src/libxively/xi_handle.c:24-28 | a handle finds an object iff some live slot is congruent to it modulo 256, and then finds that slot's object |
| TimeEvents.AddIsStableInsertion | src/libxively/event_dispatcher/xi_time_event.c:65-125 | adding keeps the order, loses nothing, and puts the new event behind all events due at the same time |
| TimeEvents.RestartPlaces | src/libxively/event_dispatcher/xi_time_event.c:367-406 | an event restarted for later goes before its new equals, one restarted for earlier goes behind them |
| TimeEvents.RestartKeepsSorted | src/libxively/event_dispatcher/xi_time_event.c:367-406 | restarting keeps the container sorted |
| TimeEvents.RestartContents | src/libxively/event_dispatcher/xi_time_event.c:367-406 | restarting changes one due time and nothing else |
| TimeEvents.SwapEvents | src/libxively/event_dispatcher/xi_time_event.c:31-51 | two cells are exchanged and both events know their new positions |
| TimeEvents.BubbleDown | src/libxively/event_dispatcher/xi_time_event.c:65-150 | one event travels to the front until the one before it is not later; positions and handles stay right throughout |
| TimeEvents.BubbleUp | src/libxively/event_dispatcher/xi_time_event.c:65-172 | one event travels to the end until the one behind it is not earlier |
| TimeEvents.MoveToTheEnd | src/libxively/event_dispatcher/xi_time_event.c:174-194 | one event travels to the last cell, all others keep their order |
| TimeEvents.AddEvent | src/libxively/event_dispatcher/xi_time_event.c:280-321 | the event is inserted at its place and tied to the caller's handle, or nothing happens when the vector cannot grow |
| TimeEvents.PeekTop | src/libxively/event_dispatcher/xi_time_event.c:352-365 | the first event, or null of an empty container |
| TimeEvents.GetTop | src/libxively/event_dispatcher/xi_time_event.c:323-350 | removes the first event, clears its handle, and keeps the order of the rest |
| TimeEvents.RestartEvent | src/libxively/event_dispatcher/xi_time_event.c:367-406 | gives the event under a handle a new time and place; refuses a position outside the container |
| TimeEvents.CancelEvent | src/libxively/event_dispatcher/xi_time_event.c:408-444 | takes the event under a handle out and clears the handle, all others keep their order |
| DispatcherObject.EventDispatcher.constructor | src/libxively/event_dispatcher/xi_event_dispatcher.c:258-279 | a new dispatcher has nothing pending and nothing queued |
| DispatcherObject.EventDispatcher.Enqueue | src/libxively/event_dispatcher/xi_event_dispatcher.c:179-197 | a new node is linked to the end of the queue if memory allows; the list stays exactly the handlers enqueued and not executed |
| DispatcherObject.EventDispatcher.ScheduleIn | src/libxively/event_dispatcher/xi_event_dispatcher.c:199-222 | a new event object is pending after the delay, tied to its caller's handle, or nothing changes when the container is full |
| DispatcherObject.EventDispatcher.CancelById | src/libxively/event_dispatcher/xi_event_dispatcher.c:224-240 | through the caller's handle, removes exactly the event it points to, after which the handle is null; a null handle changes nothing |
| DispatcherObject.EventDispatcher.RestartById | src/libxively/event_dispatcher/xi_event_dispatcher.c:242-256 | through the caller's handle, moves exactly the event it points to to the new time |
| DispatcherObject.EventDispatcher.GetTimeOfEarliestEvent | src/libxively/event_dispatcher/xi_event_dispatcher.c:584-606 | the time of a pending event before which no pending event is due, None iff nothing is pending |
| DispatcherObject.EventDispatcher.PopFirst | src/libxively/event_dispatcher/xi_event_dispatcher.c:361-372 | the node taken from the linked queue holds the handler enqueued first among those not executed, and is the next one executed |
| DispatcherObject.EventDispatcher.TakeFirst | src/libxively/event_dispatcher/xi_event_dispatcher.c:411-416 | the first event object leaves the container, and its caller's handle is null before its handler runs |
| DispatcherObject.EventDispatcher.IsPending | src/libxively/event_dispatcher/xi_time_event.c:323-350 | a caller's handle is not null iff its event is pending |
| DispatcherObject.CallQueue.Enqueue | src/libxively/event_dispatcher/xi_event_dispatcher.c:179-197 | on linked nodes, the handlers in the queue are the old ones followed by the new one |
| DispatcherObject.CallQueue.Dequeue | src/libxively/event_dispatcher/xi_event_dispatcher.c:361-372 | on linked nodes, the first handler leaves and the rest stay in order |
| DispatcherObject.EventContainer.Schedule | src/libxively/event_dispatcher/xi_time_event.c:280-321 | on event objects: sorted insertion with a handle that points to the new event, unless 64 are pending or memory is short |
| DispatcherObject.EventContainer.Cancel | src/libxively/event_dispatcher/xi_time_event.c:408-444 | on event objects: exactly the event under the handle leaves, and the handle becomes null |
| DispatcherObject.EventContainer.Restart | src/libxively/event_dispatcher/xi_time_event.c:367-406 | on event objects: exactly the event under the handle gets its new time and place |
| DispatcherObject.EventContainer.Take | src/libxively/event_dispatcher/xi_time_event.c:323-350 | on event objects: the first event leaves, its handle becomes null, all other handles stay right |
| DispatcherObject.HandleTells | src/libxively/event_dispatcher/xi_time_event.c:31-51 | a handle is null iff its event is not pending, and otherwise leads to the event's position in the container |
| DispatcherObject.EventDispatcher.SingleStep | src/libxively/event_dispatcher/xi_event_dispatcher.c:356-386 | sets the clock, pops the first node of the linked queue and performs what its handler does |
| DispatcherObject.EventDispatcher.FireAllDue | src/libxively/event_dispatcher/xi_event_dispatcher.c:402-438 | for handlers whose calls are given, ends with nothing due, having fired events as a legal run, whatever handlers did to the container meanwhile |
| DispatcherObject.EventDispatcher.DrainQueue | src/libxively/event_dispatcher/xi_event_dispatcher.c:444-446 | for handlers whose calls are given, ends with an empty linked queue, including what handlers enqueued meanwhile |
| DispatcherObject.EventDispatcher.CallOnEmpty | src/libxively/event_dispatcher/xi_event_dispatcher.c:448-465 | with an empty container its handler is invoked once and disposed of |
| DispatcherObject.EventDispatcher.Step | src/libxively/event_dispatcher/xi_event_dispatcher.c:388-465 | one step is a legal run of firings until nothing is due, then pops until nothing is queued, then the handler for the empty container |
| DispatcherRuns.EventsAreConserved | src/libxively/event_dispatcher/xi_event_dispatcher.c:199-256 | in every run, each scheduled event is at all times exactly one of pending, fired once, cancelled |
| DispatcherRuns.PendingIdsAreUnique | src/libxively/event_dispatcher/xi_event_dispatcher.c:199-222 | no event is pending twice |
| DispatcherRuns.RemovedIsGone | src/libxively/event_dispatcher/xi_event_dispatcher.c:224-240 | after an event is taken out, nothing with its identity is left |
| DispatcherRuns.OthersKeepMine | src/libxively/event_dispatcher/xi_event_dispatcher.c:224-256 | calls by other clients leave the set of a client's pending events as it is |
| DispatcherRuns.QueueIsFifo | src/libxively/event_dispatcher/xi_event_dispatcher.c:179-197 | in every run the executed handlers are a prefix of the enqueued ones, and the queue, which the linked list represents, holds exactly the rest, in order |
| DispatcherRuns.FiredInDueOrder | src/libxively/event_dispatcher/xi_event_dispatcher.c:388-436 | across all steps the due times of fired events never decrease, and nothing fires before it is due |
| DispatcherRuns.PendingIsSorted | src/libxively/event_dispatcher/xi_event_dispatcher.c:199-256 | in every run the pending events are in order of due times, whatever the delays and however the clock is set |
| DispatcherRuns.NothingDueIsLeft | src/libxively/event_dispatcher/xi_event_dispatcher.c:402-438 | in every run, when the timed loop ends no pending event at all is due |
| DispatcherRuns.RestartKeepsTiesIff | src/libxively/event_dispatcher/xi_time_event.c:367-406 | a restart keeps pending and fired events in order of due times and ages iff the event's age fits its new place |
| DispatcherRuns.StableIffTiesKept | src/libxively/event_dispatcher/xi_time_event.c:367-406 | over a run that order holds at every moment iff every restart respects ages |
| DispatcherRuns.WithoutRestartsTiesAreKept | src/libxively/event_dispatcher/xi_time_event.c:65-125 | which is always so without restarts |
| DispatcherRuns.TiesFireInScheduleOrder | src/libxively/event_dispatcher/xi_time_event.c:65-125 | in runs whose restarts respect ages, events due at the same time fire in the order they were scheduled |
| DispatcherRuns.RestartOvertakes | src/libxively/event_dispatcher/xi_time_event.c:367-406 | a concrete run with one restart in which the younger of two equals fires first |
| DispatcherRuns.NextMakesProgress | src/libxively/event_dispatcher/xi_event_dispatcher.c:402-438 | if handlers schedule and restart with positive delays only, each firing leaves strictly fewer due events and no call makes more due |
| DispatcherRuns.TimedLoopIsBounded | src/libxively/event_dispatcher/xi_event_dispatcher.c:402-438 | such a loop fires at most as many events as were due at its start |
| DispatcherLaws.ExecutedIsAsked | src/libxively/event_dispatcher/xi_event_dispatcher.c:179-197 | in every run the handlers executed are the first ones for which execution was requested with memory available, as many as were taken from the queue, and the queue holds the others |
| DispatcherLaws.EventsKeepPromises | src/libxively/event_dispatcher/xi_event_dispatcher.c:199-256 | in every run, exactly the accepted requests are numbered, and whatever is pending or has fired has the due time last asked for, by the request or by its last restart, and a pending event the handler asked for |
| DispatcherLaws.FiringsAreStamped | src/libxively/event_dispatcher/xi_event_dispatcher.c:388-436 | there is one record per firing of a run, with the time set by the last tick before it |
| DispatcherLaws.StoppedIsAsked | src/libxively/event_dispatcher/xi_event_dispatcher.c:544-549 | in every run the dispatcher is stopped iff it was or somebody called for it |
| DispatcherLaws.OnEmptyIsLast | src/libxively/event_dispatcher/xi_event_dispatcher.c:174-177 | the handler kept for the empty container is the last one set, or none if one was disposed of after that |
| DispatcherLaws.StepMakesItsCalls | src/libxively/event_dispatcher/xi_event_dispatcher.c:388-465 | a step with n firings and m queued handlers makes exactly the calls of those handlers, in order, stopping after a timed handler that fails fatally, and at the end those of the handler for the empty container iff nothing is pending |
| TimedTasks.TimedTaskContainer.AddTimedTask | src/libxively/xi_timed_task.c:51-96 | the new task's memory, slot, event and handle, or what is left behind when one of the three cannot be had; `TimedTaskRuns.HandleNamesTask` says which task the handle names |
| TimedTasks.TimedTaskContainer.RemoveTimedTask | src/libxively/xi_timed_task.c:98-132 | a scheduled task is released with its event and slot, a running one is marked, anything else is left alone |
| TimedTasks.TimedTaskContainer.CallbackWrapper | src/libxively/xi_timed_task.c:134-188 | the wrapper around any callback that itself adds and removes tasks: the task runs, then is scheduled again or released |
| TimedTasks.TimedTaskContainer.Finish | src/libxively/xi_timed_task.c:158-187 | a repeating task that was not removed meanwhile is scheduled again, every other one is released with its slot |
| TimedTaskRuns.TasksStayOwned | src/libxively/xi_timed_task.c:51-188 | in every run in which the dispatcher takes the tasks' events: slots hold distinct live tasks, exactly the tasks not executing are scheduled, and task events and scheduled tasks correspond one to one |
| TimedTaskRuns.OwnershipOfOneTask | src/libxively/xi_timed_task.c:51-188 | a task is scheduled iff exactly one pending event refers to it, running or deletable iff it is executing, and a released one is reachable from neither slot nor event |
| TimedTaskRuns.OwnershipNeedsService | src/libxively/xi_timed_task.c:84-95 | one step keeps ownership iff the dispatcher takes the event that the step wants to schedule |
| TimedTaskRuns.RefusedRequestDangles | src/libxively/xi_timed_task.c:84-95 | a concrete run: with 64 events of others pending, a request fails and its slot refers to a released task |
| TimedTaskRuns.TaskRunsAreDispatcherRuns | src/libxively/xi_timed_task.c:51-188 | every run of tasks drives the dispatcher through a legal dispatcher run, so all that holds of those holds here |
| TimedTaskRuns.NoMoreEventsThanTasks | src/libxively/xi_timed_task.c:10 | with only tasks pending there are no more events than tasks, and one less while a callback runs |
| TimedTaskRuns.TasksAloneAreServed | src/libxively/xi_timed_task.c:10 | if tasks are the only clients and memory suffices, the 64 slots keep the dispatcher from ever refusing an event, so ownership holds unconditionally |
| TimedTaskRuns.CancelledNeverStarts | src/libxively/xi_timed_task.c:98-132 | after a handle is cancelled, its task starts no further callback in any continuation in which the dispatcher takes the tasks' events |
| TimedTaskRuns.HandleNamesTask | src/libxively/xi_timed_task.c:79-93 | a handle is returned iff the task gets its memory, its slot and its event, and then the slot under it holds the new task, which is live and scheduled |
| TimedTaskRuns.CancelByReturnedHandle | src/libxively/xi_timed_task.c:51-132 | cancelling the handle that an add returned, after any run, means that no further callback of that very task starts |
| TimedTaskRuns.StepIsRecorded | src/libxively/xi_timed_task.c:51-188 | the starts and requests on record are those the steps make: a start at the time of the firing, a request with its delay and, if it repeats, the same repetition |
| TimedTaskRuns.StartsIffRegistered | src/libxively/xi_timed_task.c:145-161 | in any state a firing starts the callback iff the task has a slot and is live, and otherwise changes no task |
| TimedTaskRuns.RepeatsUnlessRemoved | src/libxively/xi_timed_task.c:163-184 | when a callback returns, its task stays iff it repeats and was not removed meanwhile, and then its next event is pending, due the repetition later |
| TimedTaskRuns.CallbacksKeepTheirTimes | src/libxively/xi_timed_task.c:73-87 | in every run in which the dispatcher takes the tasks' events: first callback not before the delay, consecutive ones at least the repetition apart, at most one without repetition |
| TimedTaskRuns.EventsAreExact | src/libxively/xi_timed_task.c:73-87 | in such runs a pending event of a task is due exactly the delay after the request, or the repetition after the last start |
| TimedTaskRuns.InitIsOwned | src/libxively/xi_timed_task.c:27-41 | ownership holds at the start |
| Backoff.PenaltyBand | src/libxively/xi_backoff_status_api.c:33-83 | the penalties possible at an index are exactly an interval: no 32-bit draw leaves it and each value in it is drawn |
| Backoff.BandsAreDisjoint | src/libxively/xi_backoff_status_api.c:33-83 | a higher index means a strictly higher penalty, whatever the two draws |
| Backoff.ShippedTablesQualify | src/libxively/xi_backoff_lut_config.h:16-28 | the shipped tables meet all conditions of these theorems |
| Backoff.BackoffStatus.IncPenalty | src/libxively/xi_backoff_status_api.c:18-25 | the index rises by one up to the last entry, and the cooldown is set anew; `BackoffRuns.FailuresRaiseIndex` counts this over runs |
| Backoff.BackoffStatus.DecPenalty | src/libxively/xi_backoff_status_api.c:27-31 | the index falls by one down to 0 |
| Backoff.BackoffStatus.GetPenalty | src/libxively/xi_backoff_status_api.c:33-83 | the penalty for a draw; for doubling tables it is within the band of the index |
| Backoff.BackoffStatus.UpdatePenalty | src/libxively/xi_backoff_status_api.c:170-192 | classifies the state and raises the penalty unless the state asks for no backoff |
| Backoff.BackoffStatus.RestartTime | src/libxively/xi_backoff_status_api.c:194-218 | the pending cooldown is moved to the decay time of the index, or one is scheduled |
| Backoff.BackoffStatus.CoolDown | src/libxively/xi_backoff_status_api.c:220-239 | when the cooldown fires its handle is null, by the dispatcher's doing; the index falls if the connection is well, and the next cooldown is scheduled while it is positive |
| Backoff.BackoffStatus.CancelEvent | src/libxively/xi_backoff_status_api.c:85-92 | takes the cooldown out, after which its handle is null |
| BackoffRuns.FiredCooldownIsGone | src/libxively/xi_backoff_status_api.c:220-227 | when the cooldown handler runs, no cooldown event is left |
| BackoffRuns.RestartUpdateIsSound | src/libxively/xi_backoff_status_api.c:194-218 | afterwards at most the event under the handle is a cooldown, due after the decay time of the index, and there is one iff there was one or the dispatcher takes it |
| BackoffRuns.AfterIsSound | src/libxively/xi_backoff_status_api.c:170-239 | every step keeps index and handle right; it keeps a cooldown pending for a positive index iff the dispatcher takes the event it needs |
| BackoffRuns.IndexStaysInTables | src/libxively/xi_backoff_status_api.c:18-31 | in every run, with refused events or without, the index stays inside the tables |
| BackoffRuns.ClassifyTells | src/libxively/xi_backoff_status_api.c:152-168 | only success and a written message need no backoff, and exactly the states outside the list of lasting failures can be recovered |
| BackoffRuns.IndexIsCounted | src/libxively/xi_backoff_status_api.c:18-31 | in every run the index is a count read off the reports and the cooldowns alone: one up per failure as far as the table goes, one down per cooldown while the last report is good |
| BackoffRuns.FailuresRaiseIndex | src/libxively/xi_backoff_status_api.c:170-192 | n failures with no cooldown between them lead from the start to index n, or to the last index if the table is shorter |
| BackoffRuns.FailuresRaisePenalty | src/libxively/xi_backoff_status_api.c:33-83 | so of two such runs the one with more failures has the strictly higher penalty, whatever the draws, unless the other is at the last index already |
| BackoffRuns.RaisedIndexIsCooling | src/libxively/xi_backoff_status_api.c:170-239 | without cancellation, a positive index has its cooldown pending throughout the run iff no cooldown needed for it was refused |
| BackoffRuns.FullDispatcherFreezesBackoff | src/libxively/xively.c:1147-1155 | a concrete run: 64 events of other clients keep the cooldown out, and the index stays at 1 in every continuation without failures |
| BackoffRuns.CancelledIndexIsFrozen | src/libxively/xi_backoff_status_api.c:85-92 | after a cancellation the index keeps its value until a failure is reported |
| BackoffRuns.RecoveryTakesAtLeast | src/libxively/xi_backoff_status_api.c:194-239 | after a last failure at time t that leaves index i, the index is not 0 before t + decay[1] + ... + decay[i], whether or not events are refused or the cooldown is cancelled |
| BackoffRuns.PunctualRecoveryTakesExactly | src/libxively/xi_backoff_status_api.c:194-239 | with success reported at any time before the first decay, and from then on cooldowns fired at their due times, the index reaches 0 at exactly that time |
| BackoffRuns.RecoveryRunExists | src/libxively/xi_backoff_status_api.c:194-239 | such a recovery exists from every status whose cooldown is pending and not late, whatever else is pending: stepping the dispatcher at each due time is one |
| LinkedList.PushBack | src/libxively/datastructures/xi_list.h:10-27 | on linked nodes, the list becomes the old nodes followed by the new one or the new chain |
| LinkedList.Pop | src/libxively/datastructures/xi_list.h:75-87 | the first node is detached and the list is the rest |
| LinkedList.Drop | src/libxively/datastructures/xi_list.h:51-73 | exactly the given node is cut out wherever it is; a node not in the list changes nothing |
| LinkedList.SplitI | src/libxively/datastructures/xi_list.h:146-188 | the list keeps the nodes not picked and the output receives the picked ones, both null-terminated and without repetition |
| LinkedList.PickedKeepsOrder | src/libxively/datastructures/xi_list.h:146-188 | every node is, by the answer at its original index, in exactly one half, behind exactly the nodes that preceded it there |
| LinkedList.HalvesPartition | src/libxively/datastructures/xi_list.h:146-188 | the two halves together are the original nodes |
| LinkedList.HalvesDistinct | src/libxively/datastructures/xi_list.h:146-188 | the halves share no node |
| LinkedList.SplitLosesNothing | src/libxively/datastructures/xi_list.h:146-188 | no node is lost iff nothing is picked or the output had at most one node |
| LinkedList.PickedGoBehind | src/libxively/datastructures/xi_list.h:146-188 | the picked nodes end up behind those that the output held, in order, iff it held at most one or nothing is picked |
| Bits.HighestBit | src/libxively/xi_helpers.c:154-163 | of a non-zero 32-bit word the filter leaves exactly the highest set bit |
| Bits.Smear | src/libxively/xi_helpers.c:154-163 | each or-with-shift step extends the run of leading ones by the shift, up to the word's length |
| DataDesc.GrowsToLeastPow2 | src/libxively/xi_data_desc.c:194-223 | a grown capacity is the least power of two that fits, hence below twice the desire |
| DataDesc.StrategyFits | src/libxively/xi_data_desc.c:194-223 | the strategy meets the desire iff nothing has to grow or at most 2^31 bytes are desired; otherwise it yields 0 |
| DataDesc.AppendsAreCheap | src/libxively/xi_data_desc.c:225-290 | any sequence of resizing appends up to 2^31 bytes leaves the concatenation, a capacity below twice the length after any growth, and has copied less than twice the final length |
| DataDesc.AppendResizeKeepsSound | src/libxively/xi_data_desc.c:261-290 | a shared buffer is always full, growth stays paid for, and a descriptor that still shares its buffer was not changed |
| DataDesc.AppendKeepsSound | src/libxively/xi_data_desc.c:292-340 | the appends that never grow can write nothing into a shared buffer |
| DataDesc.DataDesc.Empty | src/libxively/xi_data_desc.c:12-31 | an owned buffer of the capacity, with nothing in it |
| DataDesc.DataDesc.FromBufferCopy | src/libxively/xi_data_desc.c:33-53 | an owned copy of the caller's bytes |
| DataDesc.DataDesc.FromBufferShare | src/libxively/xi_data_desc.c:55-73 | the caller's own buffer, full and not owned |
| DataDesc.DataDesc.Reallocate | src/libxively/xi_data_desc.c:225-259 | a new owned buffer that fits the desire, with the old content, the old buffer untouched; without memory nothing changes |
| DataDesc.DataDesc.AppendDataResize | src/libxively/xi_data_desc.c:261-290 | grows if needed and appends, with success iff the bytes fit or memory is available, and then the old content followed by the bytes, otherwise the old content; a buffer shared into the descriptor keeps its bytes |
| DataDesc.DataDesc.AppendBytes | src/libxively/xi_data_desc.c:292-310 | success iff the bytes fit the capacity, and then the old content followed by the bytes, otherwise an overflow and the old content; a shared buffer keeps its bytes |
| DataDesc.DataDesc.AppendByte | src/libxively/xi_data_desc.c:312-328 | success iff one more byte fits, and then the old content followed by the byte; otherwise an overflow and the old content |
| DataDesc.DataDesc.AppendData | src/libxively/xi_data_desc.c:331-340 | the same for the content of another descriptor, even of the same one, as it was before the call |
| DataDesc.AppendToShared | src/libxively/xi_data_desc.c:55-340 | any sequence of calls of the four append functions, with bytes or with other descriptors, leaves a buffer that was shared into the descriptor as it was, and the descriptor with its bytes followed by the data of exactly the calls answered with success, in order |
| DataDesc.AppendAny | src/libxively/xi_data_desc.c:261-340 | for each of the four append functions: success iff the data fit or growing is asked for and possible, and then the old content followed by the data, otherwise the old content |
| DataDesc.CostIsCopied | src/libxively/xi_data_desc.c:225-290 | the bytes copied by a sequence of resizing appends are the capacities outgrown, read off the lengths of the data |
| Base64.InitTables | examples/cc3220sf/xively_demo/OtaJson.c:82-99 | both tables hold the alphabet and its inverse, for every index |
| Base64.TablesAreInverse | examples/cc3220sf/xively_demo/OtaJson.c:82-99 | decoding a symbol gives its index, and a character is in the alphabet iff encoding its sextet gives it back |
| Base64.SymbolsAreTheAlphabet | examples/cc3220sf/xively_demo/OtaJson.c:82-99 | the symbols are those of Table 1 of RFC 4648, in its order |
| Base64.Decode | examples/cc3220sf/xively_demo/OtaJson.c:101-136 | refuses lengths not divisible by four, announces the exact length, writes exactly that many bytes and leaves the rest of the output alone |
| Base64.EncodedLength | examples/cc3220sf/xively_demo/OtaJson.c:113-115 | the announced length of an encoding is the number of bytes encoded |
| Base64.RoundTrip | examples/cc3220sf/xively_demo/OtaJson.c:101-136 | decoding the encoding of section 4 of RFC 4648 gives back exactly the bytes, for every non-empty sequence and all paddings |
| Base64.EncodeIsInjective | examples/cc3220sf/xively_demo/OtaJson.c:101-136 | hence two encodings are equal iff the bytes are |
| CrcCoroutine.UpdateCrc | src/examples/internal/xi_coroutine.c:41-52 | the loop is the fold of the table step over the bytes |
| CrcCoroutine.UpdateConcat | src/examples/internal/xi_coroutine.c:41-52 | checksumming two parts one after the other is checksumming them together |
| CrcLaws.ChecksumIsLastFour | src/examples/internal/xi_coroutine.c:41-52 | for four bytes or more the checksum consists of the last four table entries looked up, each shifted by one byte more than the next, and which entries are looked up is decided by an automaton with one byte of state |
| CrcLaws.ShortChecksums | src/examples/internal/xi_coroutine.c:41-52 | the checksum of nothing is 0, and that of one byte is its table entry with the low byte complemented |
| CrcLaws.BeginningsCollide | src/examples/internal/xi_coroutine.c:41-52 | two beginnings that lead to the same low byte have the same checksum with any three or more bytes behind them |
| CrcCoroutine.CrcTask.ProcessCrc | src/examples/internal/xi_coroutine.c:75-135 | one call of the coroutine: initialises on the first, takes up to 32 bytes, yields or finishes |
| CrcCoroutine.ResumableEqualsOneShot | src/examples/internal/xi_coroutine.c:75-135 | finished after n calls iff n is at least max(1, ceil(length/32)), with the value of one pass over the whole buffer |
| CrcCoroutine.TasksDoNotInterfere | src/examples/internal/xi_coroutine.c:137-195 | under any schedule of any number of tasks, each ends where its own calls alone would have brought it |
| CrcCoroutine.InterleavedEqualsOneShot | src/examples/internal/xi_coroutine.c:137-195 | so each task finishes iff it is called often enough, with its one-shot checksum |
| CrcCoroutine.RunBoth | src/examples/internal/xi_coroutine.c:137-195 | the round-robin loop over two tasks ends, with both one-shot checksums |
| TarArchive.ParseOctec | examples/cc3220sf/xively_demo/OtaArchive.c:574-591 | the value of the first run of octal digits, ended by the field or by the first other character |
| TarArchive.CheckEndOfArchive | examples/cc3220sf/xively_demo/OtaArchive.c:594-606 | true iff the block is all zero |
| TarArchive.OtaArchive.constructor | examples/cc3220sf/xively_demo/OtaArchive.c:697-709 | the reader starts idle with nothing listed and nothing saved |
| TarArchive.OtaArchive.GetInfoByFileName | examples/cc3220sf/xively_demo/OtaArchive.c:551-566 | the first table entry of that name, -1 iff none has it |
| TarArchive.FindEntry | examples/cc3220sf/xively_demo/OtaArchive.c:551-566 | no earlier entry has the name, and -1 means no entry has it |
| TarArchive.OtaArchive.FileNameOf | examples/cc3220sf/xively_demo/OtaArchive.c:969-991 | the file system name behind the second slash, or none without two slashes |
| TarArchive.OtaArchive.ProcessHeader | examples/cc3220sf/xively_demo/OtaArchive.c:877-948 | skips to the block boundary as far as the window goes and takes a header if a whole block is there |
| TarArchive.OtaArchive.TakeHeader | examples/cc3220sf/xively_demo/OtaArchive.c:915-1019 | what each kind of header leads to, including the end of the archive with files missing, and the answer to the caller; `TarStatus.TakenStatusTells` says what each answer means |
| TarArchive.OtaArchive.ProcessCommand | examples/cc3220sf/xively_demo/OtaArchive.c:1021-1064 | the effect of the command file parsers on state, total and table |
| TarArchive.OtaArchive.ProcessOpen | examples/cc3220sf/xively_demo/OtaArchive.c:1066-1146 | opens a file iff it is listed and not yet saved and the file system agrees |
| TarArchive.OtaArchive.ProcessSave | examples/cc3220sf/xively_demo/OtaArchive.c:1148-1276 | writes the accepted part of the file's share of the window; at the end closes the file and marks and counts its entry |
| TarArchive.OtaArchive.ProcessWindow | examples/cc3220sf/xively_demo/OtaArchive.c:849-875 | one call is the step of the current state |
| TarArchive.OtaArchive.GiveUp | examples/cc3220sf/xively_demo/OtaArchive.c:711-730 | back to idle with an emptied table and an unchanged count |
| TarRuns.SizeFieldRoundTrip | examples/cc3220sf/xively_demo/OtaArchive.c:574-591 | a size written in octal digits is read back, whatever non-digits surround it in the field |
| TarRuns.LayoutIsUstar | examples/cc3220sf/xively_demo/OtaArchive.c:956-1018 | an entry ends where the ustar Interchange Format (pax utility, IEEE Std 1003.1) says iff it is a file, or has a type without data ('1' to '6'), or has size 0 |
| TarRuns.HeadersAreUstar | examples/cc3220sf/xively_demo/OtaArchive.c:956-1018 | in a stream of such entries every header is read at its standard offset |
| TarRuns.TailIsSkippedIff | examples/cc3220sf/xively_demo/OtaArchive.c:356-370 | a tail of the command file left unread at its end is skipped iff it fits into the rest of the block |
| TarRuns.HeaderRead | examples/cc3220sf/xively_demo/OtaArchive.c:877-913 | a header is taken from exactly its block of the stream, or not at all yet |
| TarRuns.SaveStep | examples/cc3220sf/xively_demo/OtaArchive.c:1148-1273 | whatever part of a chunk is accepted, the open file holds its slice so far, and the closed file its whole slice |
| TarRuns.CommandStep | examples/cc3220sf/xively_demo/OtaArchive.c:1021-1064 | command files leave the reader at the header behind them and store nothing |
| TarRuns.StepStaysInStream | examples/cc3220sf/xively_demo/OtaArchive.c:849-1276 | every call keeps the reader in step with the layout and completes at most one entry |
| TarRuns.TotalIsSumOfProcessed | examples/cc3220sf/xively_demo/OtaArchive.c:881-913 | in every run the total of bytes received equals the sum of what the calls reported as processed |
| TarRuns.StoredFilesAreSlices | examples/cc3220sf/xively_demo/OtaArchive.c:849-1276 | at any moment of any run the files stored are those of the first entries of the stream, each one exactly its slice |
| TarRuns.RunsAgree | examples/cc3220sf/xively_demo/OtaArchive.c:849-1276 | of any two runs over the same stream, finished, failed or unfinished, one has stored a prefix of what the other has |
| TarRuns.ResultDoesNotDependOnCutting | examples/cc3220sf/xively_demo/OtaArchive.c:849-1276 | two runs that complete have stored the same files and stopped at the same byte, however the stream was cut and whatever parts were accepted |
| TarVerdict.StepTold | examples/cc3220sf/xively_demo/OtaArchive.c:849-1276 | with a file system that does not fail, every call keeps table, count and verdict what the entries so far determine |
| TarVerdict.VerdictIsFate | examples/cc3220sf/xively_demo/OtaArchive.c:915-948 | the archive is accepted iff the first entry that does not pass is an end of archive with every listed file saved |
| TarVerdict.VerdictDoesNotDependOnCutting | examples/cc3220sf/xively_demo/OtaArchive.c:849-1276 | all runs over a stream that come to a verdict come to the same one, with the same table, count and files, at the same byte |
| TarVerdict.VerdictIsReached | examples/cc3220sf/xively_demo/OtaArchive.c:849-1276 | for every stream in which some header decides there is such a run: feeding all that is left until it decides |
| TarStatus.TakenStatusTells | examples/cc3220sf/xively_demo/OtaArchive.c:915-991 | the end of the archive is answered with done iff as many files are saved as listed, with a security alert iff not, and a file without a proper name with its own error; done and errors agree with the state the reader is in |
| TarStatus.StatusTells | examples/cc3220sf/xively_demo/OtaArchive.c:869-1276 | before the verdict a call is answered with done iff it completes the archive, and with an error iff it rejects it or, exactly when the parser of the command file fails, falls back to idle |
| TarStatus.ForcesRead | examples/cc3220sf/xively_demo/OtaArchive.c:877-913 | a call asks for more data iff the reader is at a block boundary in front of a header and the window holds no whole block, and then takes nothing |
| TarStatus.ErrorTells | examples/cc3220sf/xively_demo/OtaArchive.c:1021-1276 | outside headers, which of the five errors is answered tells what failed: no unsaved entry of that name, opening, writing, closing, or the command file parser |
| TarStatus.CallerLearnsFate | examples/cc3220sf/xively_demo/OtaArchive.c:849-1276 | over any run to a verdict the caller is told done iff the first entry that decides accepts the archive, and an error iff it rejects it |
| TarStatus.FileNameOfPath | examples/cc3220sf/xively_demo/OtaArchive.c:969-991 | a name <dir>/<number>/file is stored as file, and <dir>/<number>/path/file as /path/file |
| TarStatus.FileNameNeedsSlashes | examples/cc3220sf/xively_demo/OtaArchive.c:969-991 | a name with fewer than two slashes is refused |
| TarCount.CallKeepsCounted | examples/cc3220sf/xively_demo/OtaArchive.c:869-1266 | every call keeps the counter equal to the number of saved entries, except exactly when a new archive is begun with files counted |
| TarCount.AbortKeepsCounted | examples/cc3220sf/xively_demo/OtaArchive.c:711-730 | giving up keeps that agreement iff nothing was counted |
| TarCount.CountedIffClean | examples/cc3220sf/xively_demo/OtaArchive.c:711-730 | over a run that may give up and begin anew, the agreement holds throughout iff no step gives up or begins while files are counted |
| TarCount.CompleteMeansAllSavedOnce | examples/cc3220sf/xively_demo/OtaArchive.c:932-942 | in such runs completion means that the listed names are distinct, each listed file was stored exactly once, and nothing else was stored |
| TarMissing.HeaderIs | examples/cc3220sf/xively_demo/OtaArchive.c:950-991 | a header block written for a name and a size is read back as that name and size |
| TarMissing.MissingFileIsAccepted | examples/cc3220sf/xively_demo/OtaArchive.c:932-942 | a run for any two one-block command files from which the parser lists one file each: an update saves its file and is given up, and the next archive is accepted although its only listed file is missing |

## Left out

- Threads and critical sections: the cooperative build is modelled, in which lock calls do nothing.
- File descriptors and sockets in the dispatcher (registration, select, event updates).
- Handlers: what a handler does is an arbitrary finite list of interface calls, not its code.
- Allocation: whether it succeeds is a parameter of each call; when it fails half-way, memory leaks (the time event of a refused `xi_evtd_execute_in`) are not modelled.
- Cancelling or restarting through a null handle: callers test the handle first, the C code asserts or dereferences it; in the model such a call tests the handle itself and changes nothing.
- Handle variables: a caller gets a new handle object for each event and names it by the event's number, whereas in C it may use a variable again once that is null.
- DispatcherObject.EventDispatcher.FireAllDue: the calls that handlers make are a finite list, so the loop ends; a C handler that always schedules something due makes the C loop run forever (`DispatcherRuns.TimedLoopIsBounded` says when it cannot).
- DispatcherObject.EventDispatcher.DrainQueue: ends for the same reason; a C handler that always enqueues another one makes the C loop run forever.
- TimedTaskRuns.CancelledNeverStarts: for runs in which no task's event is refused, because after a refusal the C code works on a released task.
- TimedTaskRuns.CallbacksKeepTheirTimes: for such runs too.
- Records such as fired events, started callbacks, requests, bytes copied and files stored exist in the model only; `DispatcherLaws`, `TimedTaskRuns.StepIsRecorded` and `DataDesc.CostIsCopied` tie them to the steps that were made.
- The remaining functions of the vector, the lists and the descriptors (reserve, for-each, find, nth, destroy, construction from strings and floats, debug dumps).
- DataDesc.AppendsAreCheap: assumes that allocations succeed, since a refused append stops the caller; a refused one is covered by `DataDesc.AppendResizeKeepsSound`.
- DataDesc.DataDesc.Reallocate: desires above 2^31 are excluded, because there the strategy yields 0 and the copy that follows has no defined result.
- Backoff.PenaltyBand: assumes that the sums of neighbouring table entries fit `int32_t`, as the C expression does.
- TarArchive.ParseOctec: requires a digit somewhere in the buffer, as the C loop scans on until it finds one, and does not model the overflow of `int32_t` for sizes from 2^31 on.
- TarArchive.OtaArchive.FileNameOf: the size of the name buffer is a parameter, because OtaArchive.h is not part of this model; a name that fills the whole buffer without a terminator is cut there.
- TarArchive.OtaArchive.ProcessCommand: parsing of the command and signature files is an environment step that lists any entries and takes any bytes, and the limit on the table's size belongs to it. Runs assume that it reports its end in the last block of its file. The C parser does not always do so: with no further object in the window and fewer bytes of the file left than the window has (OtaArchive.c:356-370) it reports the end with nothing processed, and if that is at a block boundary the rest of the file is taken for a header. It also reports the end whenever the byte behind an object is not a comma (OtaArchive.c:513-519), even if more of the file follows; where the object ends with the window that byte lies behind the window, so the report may depend on where the stream is cut.
- TarRuns.CommandStep: rests on that assumption; `TarRuns.TailIsSkippedIff` says when it is met.
- TarArchive.OtaArchive.ProcessSave: without the digest check, which rests on a foreign call.
- TarArchive.OtaArchive.GiveUp: without closing the open file and rolling back, which rest on foreign calls.
- TarVerdict.VerdictDoesNotDependOnCutting: for a file system that does not fail; what each command file lists is given with the stream.
- The build option that makes the end of the archive fail without a verified signature file: it can only turn completion into failure, so the theorems about completed runs hold for such builds as well.
- Hashes, certificates, file open flags and the version file: they rest on calls into code that is not part of the repository.
- Rolling back stored files after a failure: it is a call into the flash file system.
- Base64.RoundTrip: characters outside the alphabet decode as zero bits in the model as in the code; the theorem speaks of well-formed encodings, and the empty input, for which the code reads in front of its buffer, is excluded.
- CrcCoroutine.UpdateCrc: for an arbitrary table; its initialisation is not modelled.
- MQTT codec and logic, TLS and IO layers, CBOR, the configuration file, context creation, string helpers and the example applications.
