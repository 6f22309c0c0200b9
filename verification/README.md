# Zensor server: verified models of its stateful cores

This project models the parts of the Zensor server that keep state over time, and proves what they
guarantee over every input, every run or every interleaving:

- **Maintenance** (`Calendar`, `Recurrence`, `MaintenanceDomain`, `ExecutionStore`, `ExecutionWorkers`,
  `ExecutionRuns`): recurring schedules on the proleptic Gregorian calendar, the worker that creates the
  next three executions of an activity, announces executions some days ahead and counts overdue days, and
  whole runs of it together with creation and completion requests, with any store and broker failures.
- **Device commands** (`Collections`, `Commands`, `CommandProtocol`, `CommandRuns`, `CommandStore`): tasks
  create commands, the command worker marks them ready, dispatch goroutines push possibly stale snapshots of
  them, and broker messages in any order mark them sent or update their status. The protocol is a state
  machine; the repository, the services and the workers are classes whose methods are tied to its steps.
- **Irrigation schedules** (`IntervalSchedule`, `IntervalWorker`): when an interval schedule is due, and how
  the firings of a run are spaced.
- **Victron telemetry** (`VictronSnapshot`, `VictronSummary`, `MetricName`): the structured snapshot against
  the history of messages, the summary on top of it, and the names of metrics.
- **Sessions and API keys** (`SessionStore`, `Cache`, `ApiKeys`): the two-index session store with its
  two-phase `Get`, and the key cache in front of its table.

An instant is a number of nanoseconds since 0001-01-01T00:00:00Z; a time zone is a fixed offset. Tables are
maps from keys to rows. Clocks, generated identifiers, random bytes, and the outcome of every database,
broker, cache or network call are parameters or part of the steps, so each result holds for all of them; a
failed write leaves its table as it was.

These results say where the code does not do what one might expect, each with the exact condition:
`Recurrence.ClosedFormAfterShortMonth` (steps over a short month do not compose),
`ExecutionRuns.NeverTwoLiveIff` (a creation request may repeat the activity and date of a live execution),
`ExecutionRuns.AnnouncedIff` and `ExecutionRuns.OverdueCountsIff` (news is stored before it is published, and
what cannot be published is lost),
`CommandRuns.StoringKeepsApartIff` (two creations whose checks both come first may overlap),
`IntervalSchedule.FirstDueWindowIff` (an initial day entered in another zone can make the first due time
leave its window), `VictronSummary.VoltageSwapIff` and its companions (figures that take the last device's
reading depend on the order of first messages), `SessionStore.CreatedKeepsInverseIff` (a session ID reused for
another user breaks the index) and `ApiKeys.RevokeKeepsSoundIff` (a revocation whose context ends too soon
leaves the key cached).

## Model

| member | source | states |
|---|---|---|
| Calendar.YearStart | internal/maintenance/domain/value_objects.go:44-59 | counting months one by one gives the proleptic Gregorian leap year rule that `AddDate` relies on, for every year |
| Calendar.MonthStart | internal/maintenance/domain/value_objects.go:44-59 | the first day of every month of every year in closed form, which fixes the length of each month |
| Calendar.MonthSpan | internal/maintenance/domain/value_objects.go:44-59 | n consecutive months hold between 28n and 31n days |
| Calendar.DateRoundTrip | internal/maintenance/domain/value_objects.go:44-59 | day numbers and valid dates are in bijection |
| Calendar.AddDateShift | internal/maintenance/domain/value_objects.go:44-59 | `AddDate` moves an instant by exactly the days in the months it skips plus the days added |
| Calendar.AddMonthsLanding | internal/maintenance/domain/value_objects.go:44-59 | adding months keeps the day if the target month has it and otherwise lands on day 1, 2 or 3 of the month after, at the same time of day |
| Recurrence.Next | internal/maintenance/domain/value_objects.go:31-74 | for every schedule and every `after` the loop terminates; a missing start, a non-positive interval or an unknown unit gives its own error, in that order, and every other schedule the least member of start, advance(start), ... strictly later than `after` |
| Recurrence.AdvanceGain | internal/maintenance/domain/value_objects.go:44-59 | a step of m months gains between 28m and 31m days, a step of days or weeks exactly its days |
| Recurrence.OccurrenceBounds | internal/maintenance/domain/value_objects.go:31-42 | the k-th occurrence lies between k shortest and k longest steps after the start |
| Recurrence.NextIsLeast | internal/maintenance/domain/value_objects.go:31-42 | no occurrence lies between `after` and the result, and the number of iterations is bounded by the distance divided by the shortest step |
| Recurrence.AdvanceByMonths | internal/maintenance/domain/value_objects.go:44-59 | on every date a year step is `AddDate` of twelve months per year, a quarter step of three and a month step of one |
| Recurrence.AdvanceByDays | internal/maintenance/domain/value_objects.go:44-59 | a day step is that many times 24 hours and a week step seven times as much |
| Recurrence.BeforeShortMonth | internal/maintenance/domain/value_objects.go:44-59 | until a target month is too short the sequence visits the target months on the start day |
| Recurrence.AfterShortMonth | internal/maintenance/domain/value_objects.go:44-59 | from the first short month on the sequence is one month late, on the day it spilled to, which is 1, 2 or 3 |
| Recurrence.DayChangesAtMostOnce | internal/maintenance/domain/value_objects.go:44-59 | along the whole sequence the day of the month changes at most once, from a day after the 28th to one of 1 to 3, for good |
| Recurrence.DayKeptIff | internal/maintenance/domain/value_objects.go:44-59 | the day is kept through step k if and only if every target month up to k has it |
| Recurrence.DayStepsCompose | internal/maintenance/domain/value_objects.go:44-59 | k day or week steps are one `AddDate` of k times the days |
| Recurrence.MonthStepsCompose | internal/maintenance/domain/value_objects.go:44-59 | k month steps are one `AddDate` of k times the months when no month on the way is too short |
| Recurrence.ClosedFormUpToDay28 | internal/maintenance/domain/value_objects.go:44-59 | for start days up to 28 iterated steps equal one long step |
| Recurrence.ClosedFormAfterShortMonth | internal/maintenance/domain/value_objects.go:44-59 | past the first short month iterated steps equal one long step if and only if the two target months are equally long |
| Recurrence.ClosedFormFails | internal/maintenance/domain/value_objects.go:44-59 | a concrete schedule, monthly from a 31 January, for which they differ |
| MaintenanceDomain.DaysUntilSteps | internal/maintenance/domain/activity.go:49-57 | within a day the count of whole days left falls by at most one |
| MaintenanceDomain.DaysUntilBracket | internal/maintenance/domain/activity.go:49-57 | the whole days left, times 24 hours, bracket the time left; truncation is towards zero and the difference saturates |
| MaintenanceDomain.OverdueBracket | internal/maintenance/domain/execution.go:82-94 | the overdue days are the whole days since the date while not completed, and otherwise 0 |
| MaintenanceDomain.IsReadyForNotification | internal/maintenance/domain/activity.go:49-57 | reports a day exactly if the whole days left are one of the configured days |
| MaintenanceDomain.SaveOne | internal/maintenance/usecases/execution_worker.go:266-324 | saving one more row of a check changes that row and no other |
| MaintenanceDomain.TellOne | internal/maintenance/usecases/execution_worker.go:266-324 | publishing about one more row adds that row's event, and none about any other |
| ExecutionStore.ExecutionRepository.Create | internal/maintenance/persistence/execution_repository.go:34-43 | inserts the row exactly if its key is new and the insert succeeds |
| ExecutionStore.ExecutionRepository.Update | internal/maintenance/persistence/execution_repository.go:100-109 | saves the full row, or nothing on failure |
| ExecutionStore.ExecutionRepository.GetByID | internal/maintenance/persistence/execution_repository.go:45-61 | the row, not found, or a database error |
| ExecutionStore.ExecutionRepository.FindByActivityAndScheduledDate | internal/maintenance/persistence/execution_repository.go:81-98 | finds a live row of the activity and date exactly if there is one |
| ExecutionStore.ExecutionRepository.MarkCompleted | internal/maintenance/persistence/execution_repository.go:111-119 | completes the row it reads, or changes nothing |
| ExecutionStore.ExecutionRepository.FindPendingExecutionsReadyForNotification | internal/maintenance/persistence/execution_repository.go:166-218 | lists a row, once and with its activity, if and only if it is in the future, neither deleted nor completed, its activity is stored, active and not deleted, and the whole days left are configured |
| ExecutionStore.ExecutionRepository.FindOverdueExecutions | internal/maintenance/persistence/execution_repository.go:220-259 | lists a row, once and with its activity, if and only if it is in the past, neither deleted nor completed, and its activity is stored, active and not deleted |
| ExecutionStore.ExecutionService.CreateExecution | internal/maintenance/usecases/execution_service.go:45-65 | inserts the row exactly if its activity exists and the insert succeeds, whether or not a live row has its date |
| ExecutionStore.ExecutionService.RequestExecution | internal/maintenance/httpapi/execution_controller.go:54-69 | a creation request stores an open row for the caller's activity and date exactly if builder, service and store accept it |
| ExecutionStore.ExecutionService.MarkExecutionCompleted | internal/maintenance/usecases/execution_service.go:94-122 | completes exactly the executions that exist, are neither deleted nor completed nor in the future, setting time, person and values and clearing the overdue days; otherwise the matching error and no change |
| ExecutionWorkers.ExecutionWorker.ExecutionExists | internal/maintenance/usecases/execution_worker.go:193-202 | tells whether a live execution exists, or that the look-up failed |
| ExecutionWorkers.ExecutionWorker.CreateExecution | internal/maintenance/usecases/execution_worker.go:204-216 | creates the row with the activity's default values exactly if builder, service and store accept it |
| ExecutionWorkers.ExecutionWorker.Publish | internal/maintenance/usecases/execution_worker.go:228-253 | a failed publication leaves no event and is not reported to the caller |
| ExecutionWorkers.ExecutionWorker.ProcessActivity | internal/maintenance/usecases/execution_worker.go:109-191 | the loop over three occurrences has the effect of the pass of the state machine, on the table and on the events that could be published |
| ExecutionWorkers.ExecutionWorker.CheckReadyForNotification | internal/maintenance/usecases/execution_worker.go:266-296 | every row takes its own notification step: a row whose save fails changes nothing, one whose publication fails is saved without an event |
| ExecutionWorkers.ExecutionWorker.CheckOverdueExecutions | internal/maintenance/usecases/execution_worker.go:298-324 | the same for overdue counts |
| ExecutionRuns.PassAddsNoTwin | internal/maintenance/usecases/execution_worker.go:146-202 | in every state, whatever fails, the rows a pass adds are at occurrences of its schedule and have no live twin of the same activity and date, and all other rows stay |
| ExecutionRuns.PassAnnounces | internal/maintenance/usecases/execution_worker.go:146-191 | a pass publishes a creation only for a row it stored, with that row's date, and for every such row if publishing succeeds; otherwise it only publishes failures |
| ExecutionRuns.StepAddsTwinIff | internal/maintenance/usecases/execution_service.go:45-65 | a step brings a second live execution of one activity and date if and only if it grants a request for an activity and date that a live row has |
| ExecutionRuns.NeverTwoLiveIff | internal/maintenance/usecases/execution_worker.go:146-202 | in every run there is never a second live execution of one activity and date if and only if no request for one was granted |
| ExecutionRuns.TwinsComeFromRequests | internal/maintenance/usecases/execution_worker.go:146-202 | of two live executions of one activity and date the later was requested while the earlier was stored: the worker never creates one |
| ExecutionRuns.TwoRequestsTwins | internal/maintenance/httpapi/execution_controller.go:54-69 | a run of two equal creation requests, for any activity and date, that ends with two live rows |
| ExecutionRuns.OnlyOccurrenceDates | internal/maintenance/usecases/execution_worker.go:146-191 | with a fixed schedule each execution of an activity is at an occurrence of it or was requested for its date |
| ExecutionRuns.PassFillsNextThree | internal/maintenance/usecases/execution_worker.go:146-191 | after a pass without failures live executions exist at the three least occurrences after now, the zero time excepted |
| ExecutionRuns.NextThreeAreLeast | internal/maintenance/usecases/execution_worker.go:146-191 | the three dates of a pass are the three least occurrences after now |
| ExecutionRuns.PassIsIdempotent | internal/maintenance/usecases/execution_worker.go:146-191 | a pass that finds its three dates taken, as when repeated, changes nothing |
| ExecutionRuns.AnnouncedIff | internal/maintenance/usecases/execution_worker.go:266-296 | in every run a day of an execution is announced if and only if it is marked as sent and the publication of the tick that marked it succeeded, and then once; that tick was as many days ahead |
| ExecutionRuns.AtMostOneNotification | internal/maintenance/usecases/execution_worker.go:266-296 | in every run, whatever fails, a day is announced at most once and only if marked, and a lost announcement is never repeated |
| ExecutionRuns.NotificationLost | internal/maintenance/usecases/execution_worker.go:334-355 | a run that marks a day and never announces it |
| ExecutionRuns.EventsAreAboutOpenRows | internal/maintenance/usecases/execution_worker.go:266-324 | in every run an event about an execution is added only by a check, while the row is neither deleted nor completed and its activity is stored, active and not deleted; it carries the row's activity and the day or count that is due |
| ExecutionRuns.CheckCatchesUp | internal/maintenance/usecases/execution_worker.go:266-324 | a check that finds and saves everything marks exactly the due day, or raises the count to exactly the overdue days, of every such row, and leaves all other rows alone |
| ExecutionRuns.SomeTickMeets | internal/maintenance/domain/activity.go:49-57 | ticks at most a day apart meet every count of days they pass through |
| ExecutionRuns.ExactlyOneNotification | internal/maintenance/usecases/execution_worker.go:266-296 | with ticks at most 24 h apart that find and save an open execution, a configured day the count passes through is marked by one of them, and announced exactly once if and only if the publication of that tick succeeded |
| ExecutionRuns.OverdueCountsIff | internal/maintenance/usecases/execution_worker.go:298-324 | in every run the published counts of an execution strictly increase, the stored count is the last one saved, or 0 once completed, and it is the last one published if and only if the publication of the check that saved it succeeded |
| ExecutionRuns.OverdueCountLost | internal/maintenance/usecases/execution_worker.go:334-355 | a run that stores an overdue count and publishes none |
| ExecutionRuns.CompletionIsFinal | internal/maintenance/domain/execution.go:49-94 | a completed execution never changes again except that it may be deleted, its count stays 0 and no overdue event follows |
| Commands.OverlapIff | internal/shared_kernel/domain/command.go:100-116 | two commands overlap exactly if they drive the same index less than 30 s apart, which is symmetric |
| Commands.MergeOfEdit | internal/control_plane/persistence/command_repository.go:40-72 | saving an edited copy of the current row merges to that edit with the next version |
| Commands.ChangeProgresses | internal/control_plane/persistence/command_repository.go:40-72 | a save keeps the order and creation time of a command, its flags and its time stamps |
| Commands.InsertedFields | internal/control_plane/persistence/internal/command.go:31-53 | an inserted row has every field of the command, but that a missing status becomes pending |
| Commands.CorrelationRoundTrip | internal/data_plane/workers/lora_integration.go:400-473 | the correlation ID of a push comes back as its command, whatever foreign IDs surround it |
| CommandStore.MergeFields | internal/control_plane/persistence/command_repository.go:40-72 | creation time and unset fields come from the row, the version is the row's plus one |
| CommandStore.CommandRepository.Create | internal/control_plane/persistence/command_repository.go:30-38 | inserts a new key with the default status, or nothing |
| CommandStore.CommandRepository.Update | internal/control_plane/persistence/command_repository.go:40-72 | merges the command into its row, or changes nothing |
| CommandStore.CommandRepository.GetByID | internal/control_plane/persistence/command_repository.go:116-128 | the row, not found, or a database error |
| CommandStore.CommandRepository.FindAllPending | internal/control_plane/persistence/command_repository.go:74-86 | exactly the rows neither sent nor ready, each once |
| CommandStore.CommandRepository.FindAllReadyToDispatch | internal/control_plane/persistence/command_repository.go:88-100 | exactly the ready unsent rows, each once |
| CommandStore.CommandRepository.FindPendingByDevice | internal/control_plane/persistence/command_repository.go:102-114 | exactly the unsent rows of the device |
| CommandStore.CommandRepository.CreateTask | internal/control_plane/persistence/task_repository.go:29-45 | stores all commands of a task or none of them |
| CommandStore.TaskService.ValidateCommandOverlaps | internal/control_plane/usecases/task_service.go:41-54 | accepts exactly the tasks none of whose commands overlaps an unsent command of the device |
| CommandStore.TaskService.Create | internal/control_plane/usecases/task_service.go:26-39 | stores the commands exactly if the check and the transaction succeed |
| CommandStore.CommandWorker.Handle | internal/control_plane/usecases/command_worker.go:110-148 | marks a due command ready and saves it; a command that is not due is left alone |
| CommandStore.CommandWorker.Reconciliation | internal/control_plane/usecases/command_worker.go:87-108 | every row that is neither sent nor ready, is due and whose save succeeds becomes ready with the next version, and no other field or row changes |
| CommandStore.CommandWorker.HandleMessage | internal/control_plane/usecases/command_worker.go:150-206 | a message writes exactly the fields it is about into the row of its command, or changes nothing |
| CommandStore.CommandWorker.HandleCommandSent | internal/control_plane/usecases/command_worker.go:150-167 | marks the command sent at the current time |
| CommandStore.CommandWorker.HandleCommandStatusUpdate | internal/control_plane/usecases/command_worker.go:169-206 | the row gets the status and the time stamp, flag or error that goes with it, and keeps all else; an update without a command changes nothing |
| CommandStore.LoraIntegrationWorker.DispatchCommand | internal/data_plane/workers/lora_integration.go:306-377 | pushes only a ready unsent command, and reports it sent only after a push |
| CommandStore.LoraIntegrationWorker.DispatchReadyCommands | internal/data_plane/workers/lora_integration.go:86-103 | pushes every command of its snapshot once, in order, and reports each push, failures aside |
| CommandStore.LoraIntegrationWorker.UpdateCommandStatus | internal/data_plane/workers/lora_integration.go:400-473 | publishes a status for the first correlation ID with our prefix, and for nothing else |
| CommandStore.DueCommandIsPushed | internal/data_plane/workers/lora_integration.go:86-103 | a pending command that is due at a sweep is pushed exactly once by the next dispatch snapshot, if nothing fails |
| CommandStore.HandlingIsSteps | internal/control_plane/usecases/command_worker.go:110-148 | handling a swept command is two steps of the protocol |
| CommandStore.MessageIsSteps | internal/control_plane/usecases/command_worker.go:150-206 | handling a message is two steps of the protocol |
| CommandStore.CreationIsSteps | internal/control_plane/usecases/task_service.go:26-39 | an uninterrupted creation is its check and its storing |
| CommandProtocol.StepRows | internal/control_plane/usecases/command_worker.go:36-86 | a step only inserts unprocessed rows and saves at most one edited row |
| CommandProtocol.StepKeepsInv | internal/control_plane/usecases/command_worker.go:36-86 | the invariant of the protocol and the growth of rows and pushes hold across every step of every actor |
| CommandProtocol.RunKeepsInv | internal/data_plane/workers/lora_integration.go:61-103 | the invariant holds throughout every interleaving, with stale snapshots and messages in any order |
| CommandRuns.NoEarlyDispatch | internal/control_plane/usecases/command_worker.go:110-148 | in every interleaving no command is pushed before its `DispatchAfter`, and the push carries the row's order |
| CommandRuns.TouchedOnlyAfterPush | internal/data_plane/workers/lora_integration.go:306-377 | a row is sent, queued, acknowledged or failed only if its command was pushed |
| CommandRuns.SavesAreAtomicEdits | internal/control_plane/usecases/command_worker.go:45-148 | each save amounts to one atomic edit of the current row; for a swept command only ready changes |
| CommandRuns.RowsProgress | internal/control_plane/persistence/command_repository.go:40-72 | over any stretch of a run flags and time stamps are never lost, creation time and order are fixed, and the version rises by exactly the number of saves |
| CommandRuns.RowsShowTheirSaves | internal/control_plane/usecases/command_worker.go:110-206 | in every interleaving a row is ready or sent exactly if an edit that makes it so was saved; its status, sent time and error are those of the last saved edit that writes them, or those it was inserted with; each time stamp is that of the last saved status update of its kind |
| CommandRuns.RowsCarryOutCommands | internal/control_plane/usecases/task_service.go:26-39 | in every run each row has the device, port, priority, index, value and dispatch time of a command that was stored |
| CommandRuns.PushesCarryOutCommands | internal/data_plane/workers/lora_integration.go:306-377 | in every run each push has the device, port, priority, index and value of a command that was stored, and is not before its dispatch time |
| CommandRuns.CreatedTasksKeepApart | internal/control_plane/usecases/task_service.go:26-54 | with serial creations, unsent commands of one device from different tasks, the later stored by task creation, have different indexes or start at least 30 s apart, at every moment |
| CommandRuns.StoringKeepsApartIff | internal/control_plane/usecases/task_service.go:26-54 | storing a checked task keeps the commands apart if and only if there is still room for it |
| CommandRuns.ConcurrentCreationsOverlap | internal/control_plane/usecases/task_service.go:26-54 | a run with two concurrent creations that ends with overlapping commands |
| CommandRuns.PackingBound | internal/control_plane/usecases/task_service.go:47-51 | a window of length W holds at most W / 30 s, rounded up, unsent commands of one device and index from different created tasks |
| IntervalSchedule.NextDueAfterExecution | internal/shared_kernel/domain/scheduled_task.go:101-144 | the next due time is `DayInterval` local days after the day of the last execution at the execution time, whatever its time of day |
| IntervalSchedule.FirstDueCases | internal/shared_kernel/domain/scheduled_task.go:101-144 | the first due time is the candidate on the initial day, or one interval later if that is in the past of the initial day |
| IntervalSchedule.FirstDueWindowIff | internal/shared_kernel/domain/scheduled_task.go:62-144 | the first due time lies within one interval of the initial day if and only if times of day and zones put the candidate in range |
| IntervalSchedule.FirstDueInWindow | internal/shared_kernel/domain/scheduled_task.go:62-144 | it does whenever the initial day is read in the tenant zone, and for any two real zones from three days on |
| IntervalSchedule.FirstDueCanPrecedeInitialDay | internal/shared_kernel/domain/scheduled_task.go:62-144 | a concrete scheduling with two zones whose first due time precedes its initial day |
| IntervalSchedule.DueInClosedForm | internal/shared_kernel/domain/scheduled_task.go:62-144 | the due time in local days and hh:mm, before and after the first recorded execution |
| IntervalSchedule.DueOnTheClock | internal/shared_kernel/domain/scheduled_task.go:101-144 | at the due time the tenant's clock reads the scheduled hour and minute, on the day `DayInterval` days after the last execution, or on the initial day or one interval later |
| IntervalSchedule.FiresIffDue | internal/control_plane/usecases/scheduled_task_worker.go:95-195 | a tick of a run fires if and only if it lists the task, can create it, and is not earlier than that closed form; so never less than `DayInterval` local days after the last recorded execution |
| IntervalSchedule.NextFiring | internal/control_plane/usecases/scheduled_task_worker.go:95-195 | after a recorded firing the next one comes at or after hh:mm at least `DayInterval` local days later |
| IntervalSchedule.FiringsSpread | internal/control_plane/usecases/scheduled_task_worker.go:95-195 | n firings take at least n times `DayInterval` local days |
| IntervalSchedule.NoBurst | internal/control_plane/usecases/scheduled_task_worker.go:95-195 | ticks within W local days fire at most W / `DayInterval` times, rounded up |
| IntervalSchedule.OutageFiresOnce | internal/control_plane/usecases/scheduled_task_worker.go:95-195 | after an outage of any length the first tick fires and no other does until an interval later |
| IntervalSchedule.RefiresIffUnsaved | internal/control_plane/usecases/scheduled_task_worker.go:251-274 | on the recorded day the next tick fires again if and only if saving the last execution failed |
| IntervalWorker.BuiltTaskIsWellBuilt | internal/control_plane/usecases/scheduled_task_worker.go:197-240 | a task built from templates is what the command protocol expects: each command has its template's port, priority, index and value, its device, and waits `WaitFor` from the time it is built |
| IntervalWorker.ScheduledTaskWorker.ShouldExecuteSchedule | internal/control_plane/usecases/scheduled_task_worker.go:123-195 | a task has to run exactly if the closed form of its due time is not later than now; a missing zone or execution time is its own error |
| IntervalWorker.ScheduledTaskWorker.CreateTaskFromScheduledTask | internal/control_plane/usecases/scheduled_task_worker.go:197-274 | the commands are stored and the execution recorded exactly if device, builder and task service accept |
| IntervalWorker.ScheduledTaskWorker.EvaluateAndMaybeCreateTask | internal/control_plane/usecases/scheduled_task_worker.go:95-121 | evaluating a task is one tick of its schedule |
| IntervalWorker.ScheduledTaskWorker.EvaluateSchedules | internal/control_plane/usecases/scheduled_task_worker.go:77-93 | a pass gives every task exactly one tick, whatever the order |
| VictronSnapshot.LookupUpsert | internal/victron/httpapi/victron_websocket_controller.go:391-529 | a write to a list is read back at its instance and nowhere else |
| VictronSnapshot.ShowUpdated | internal/victron/httpapi/victron_websocket_controller.go:343-529 | a message changes the field of its cell to show its value and no other field |
| VictronSnapshot.SnapshotShowsLastValues | internal/victron/httpapi/victron_websocket_controller.go:318-529 | after any history every structured field shows the last value written to its cell, or its default |
| VictronSnapshot.ListsInOrderOfAppearance | internal/victron/httpapi/victron_websocket_controller.go:343-529 | each list holds every instance it was told about exactly once, in order of first appearance; the PV inverter list stays empty |
| VictronSnapshot.RawShowsLastMessages | internal/victron/httpapi/victron_websocket_controller.go:318-328 | the raw values show the last message of each topic, and the portal is that of the last message |
| VictronSnapshot.VictronController.HandleTelemetryUpdate | internal/victron/httpapi/victron_websocket_controller.go:318-328 | the snapshot after a message is the snapshot function of the one before and the message |
| VictronSnapshot.VictronController.UpdateStructuredSnapshot | internal/victron/httpapi/victron_websocket_controller.go:343-363 | each service updates its own list; solar chargers and PV inverters share one |
| VictronSnapshot.VictronController.UpdateSystemData | internal/victron/httpapi/victron_websocket_controller.go:365-389 | a system path writes its own total |
| VictronSnapshot.VictronController.UpdateBatteryData | internal/victron/httpapi/victron_websocket_controller.go:391-413 | the find-or-append recursion terminates and updates or appends exactly one battery |
| VictronSnapshot.VictronController.UpdateSolarData | internal/victron/httpapi/victron_websocket_controller.go:415-435 | the same for solar chargers, whose yield and DC power are one cell |
| VictronSnapshot.VictronController.UpdateAcLoadData | internal/victron/httpapi/victron_websocket_controller.go:437-455 | the same for AC loads |
| VictronSnapshot.VictronController.UpdateDcLoadData | internal/victron/httpapi/victron_websocket_controller.go:457-475 | the same for DC loads |
| VictronSnapshot.VictronController.UpdateVebusData | internal/victron/httpapi/victron_websocket_controller.go:477-503 | the same for inverters, with the connected flag and the active input known once reported |
| VictronSnapshot.VictronController.UpdateTemperatureData | internal/victron/httpapi/victron_websocket_controller.go:505-516 | the reading of the instance is replaced or appended |
| VictronSnapshot.VictronController.UpdateTankData | internal/victron/httpapi/victron_websocket_controller.go:518-529 | the level of the instance is replaced or appended |
| VictronSummary.AcInputState | internal/victron/httpapi/victron_websocket_controller.go:554-581 | the last nonzero input voltage, and the last explicit indicator or else the voltage threshold |
| VictronSummary.BuildSummary | internal/victron/httpapi/victron_websocket_controller.go:583-649 | every figure of the summary; never charging and inverting at once; without a meter the grid power closes the balance of a connected input or is zero |
| VictronSummary.PowersOfHistory | internal/victron/httpapi/victron_websocket_controller.go:583-649 | battery, solar and AC load power are the sums of the last powers per instance of the history, unless a nonzero system total overrides them |
| VictronSummary.FiguresOfHistory | internal/victron/httpapi/victron_websocket_controller.go:554-619 | state of charge, voltages and connection in terms of the history: the connection is the last flag; without one, whether the last active input or source is not 240; without either, whether the last nonzero input voltage is at least 100 |
| VictronSummary.LastOverIs | internal/victron/httpapi/victron_websocket_controller.go:559-569 | the last reading over a list is that of the device behind which nobody has one |
| VictronSummary.PowersDependOnLastValues | internal/victron/httpapi/victron_websocket_controller.go:583-649 | histories with the same last value per cell have the same three powers |
| VictronSummary.PowersIgnoreInterleaving | internal/victron/httpapi/victron_websocket_controller.go:318-328 | any reordering that keeps the messages of each cell in order keeps the three powers |
| VictronSummary.PowersIgnoreSwap | internal/victron/httpapi/victron_websocket_controller.go:318-328 | swapping two adjacent messages of different cells, anywhere, keeps the three powers |
| VictronSummary.LastOverSwapIff | internal/victron/httpapi/victron_websocket_controller.go:559-569 | swapping two adjacent messages changes the last reading over a list if and only if they first mention two different devices of it with different final readings and no device listed later has one |
| VictronSummary.VoltageSwapIff | internal/victron/httpapi/victron_websocket_controller.go:583-596 | swapping two adjacent messages of different cells changes the battery voltage if and only if they first mention two batteries whose final voltages are nonzero and different and no battery listed later has a nonzero one |
| VictronSummary.SocSwapIff | internal/victron/httpapi/victron_websocket_controller.go:583-619 | the same for the state of charge, while no system total overrides it |
| VictronSummary.InputVoltageSwapIff | internal/victron/httpapi/victron_websocket_controller.go:554-569 | the same for the AC input voltage |
| VictronSummary.IndicatorSwapIff | internal/victron/httpapi/victron_websocket_controller.go:559-578 | the same for the connected flag and the active input |
| VictronSummary.InputConnectedSwapIff | internal/victron/httpapi/victron_websocket_controller.go:571-581 | whether the AC input counts as connected changes if and only if the swap exchanges the deciding indicator for one that says the opposite |
| VictronSummary.GridSwapIff | internal/victron/httpapi/victron_websocket_controller.go:629-640 | the grid power changes with the connection of the input, without a meter and with a positive balance, and never otherwise |
| VictronSummary.VoltageDependsOnOrder | internal/victron/httpapi/victron_websocket_controller.go:583-596 | two messages of different cells whose order decides the battery voltage |
| VictronSummary.IndicatorBeatsVoltage | internal/victron/httpapi/victron_websocket_controller.go:550-581 | once an indicator is known the measured voltage decides nothing |
| MetricName.NormalizePath | internal/victron/usecases/victron_worker.go:211-226 | no capital and no slash is left |
| MetricName.NormalizedByte | internal/victron/usecases/victron_worker.go:211-226 | a capital becomes an underscore and the small letter of the same place in the alphabet, a slash an underscore, any other byte itself |
| MetricName.NormalizedAppend | internal/victron/usecases/victron_worker.go:211-226 | each byte is normalised by itself, in order |
| MetricName.WordsAreWords | internal/victron/usecases/victron_metric_worker.go:124-129 | a word is not empty and contains no underscore |
| MetricName.MetricPath | internal/victron/usecases/victron_metric_worker.go:124-129 | the trimming and replacing loop terminates with the words of the normalised path joined by single underscores; none is doubled, leading or trailing |
| MetricName.VictronMetricName | internal/victron/usecases/victron_metric_worker.go:124-135 | the whole name ends in an underscore if and only if the path has no word |
| MetricName.ReplacedKeepsWords | internal/victron/usecases/victron_metric_worker.go:127-129 | a round of replacing keeps the words between underscores |
| MetricName.ReplacedShrinks | internal/victron/usecases/victron_metric_worker.go:127-129 | a round with something to replace makes the text shorter |
| SessionStore.CreatedKeepsInverseIff | internal/infra/auth/memory_session_store.go:27-38 | storing a session keeps the two maps inverse if and only if its ID is not another user's |
| SessionStore.RemovedKeepsInverseIff | internal/infra/auth/memory_session_store.go:82-90 | removing a copy read earlier keeps them inverse if and only if its ID has not gone to another user |
| SessionStore.UserDeletedKeepsInverse | internal/infra/auth/memory_session_store.go:70-80 | deleting by user removes exactly that user's sessions and keeps the maps inverse |
| SessionStore.MemorySessionStore.Create | internal/infra/auth/memory_session_store.go:27-38 | the new contents of both maps |
| SessionStore.MemorySessionStore.Get | internal/infra/auth/memory_session_store.go:40-57 | answers a stored session exactly if it has not expired, and removes an expired one from both maps |
| SessionStore.MemorySessionStore.Delete | internal/infra/auth/memory_session_store.go:59-68 | removes the session from both maps |
| SessionStore.MemorySessionStore.DeleteByUser | internal/infra/auth/memory_session_store.go:70-80 | the loop removes every session of the user's bucket and the bucket |
| SessionStore.MemorySessionStore.RemoveLocked | internal/infra/auth/memory_session_store.go:82-90 | removes the session and, if it was the last, the user's bucket |
| SessionStore.StepKeepsInv | internal/infra/auth/memory_session_store.go:27-90 | every atomic step, those between the two phases of `Get` included, keeps the invariant |
| SessionStore.InverseAlways | internal/infra/auth/memory_session_store.go:27-90 | with fresh session IDs the maps are exact inverses without empty buckets after every step of every interleaving |
| SessionStore.GetAnswersHistory | internal/infra/auth/memory_session_store.go:40-57 | in every interleaving `Get` answers exactly the session created under the ID, not deleted since and not expired |
| SessionStore.NothingLeftForUser | internal/infra/auth/memory_session_store.go:70-80 | after `DeleteByUser` nothing of the user is left, whatever is in flight, until a session is created for that user |
| Cache.RistrettoCache.Get | internal/infra/cache/cache.go:73-80 | a stored value, unless the context has ended |
| Cache.RistrettoCache.Set | internal/infra/cache/cache.go:83-90 | stores the value if the context lives and the cache accepts it |
| Cache.RistrettoCache.Delete | internal/infra/cache/cache.go:93-100 | removes the key only while the context lives |
| Cache.RistrettoCache.Load | internal/infra/cache/cache.go:111-127 | the single-flight part: an ended context, a value stored meanwhile, or the loaded one, which alone may be cached |
| Cache.RistrettoCache.GetOrSet | internal/infra/cache/cache.go:104-130 | answers the cached or the loaded value and never caches an error |
| ApiKeys.BuildKey | internal/shared_kernel/domain/api_key.go:51-107 | a key is built exactly if the trimmed name is not empty and random bytes were read; it keeps only the hash and a short prefix |
| ApiKeys.TrimSpaceCuts | internal/shared_kernel/domain/api_key.go:51-61 | trimming a name cuts off spaces at both ends and nothing else |
| ApiKeys.SimpleAPIKeyRepository.Create | internal/shared_kernel/persistence/api_key_repository.go:30-38 | inserts exactly the keys whose ID, name and hash are all new |
| ApiKeys.SimpleAPIKeyRepository.GetByHash | internal/shared_kernel/persistence/api_key_repository.go:40-69 | the one row with the hash, not found, or a database error |
| ApiKeys.SimpleAPIKeyRepository.GetByName | internal/shared_kernel/persistence/api_key_repository.go:48-69 | the one row with the name, not found, or a database error |
| ApiKeys.SimpleAPIKeyRepository.GetByID | internal/shared_kernel/persistence/api_key_repository.go:44-69 | the row, not found, or a database error |
| ApiKeys.SimpleAPIKeyRepository.Delete | internal/shared_kernel/persistence/api_key_repository.go:90-100 | removes the row, or nothing on failure |
| ApiKeys.SimpleAPIKeyService.Create | internal/shared_kernel/usecases/api_key_service.go:31-53 | stores a key with a trimmed name and the hash of its plaintext, and reports a duplicate exactly if the trimmed name is taken |
| ApiKeys.SimpleAPIKeyService.Validate | internal/shared_kernel/usecases/api_key_service.go:55-70 | reads the table by hash through the cache |
| ApiKeys.SimpleAPIKeyService.Revoke | internal/shared_kernel/usecases/api_key_service.go:81-94 | deletes the row and then the cached key, with the errors of each step |
| ApiKeys.ValidateAgrees | internal/shared_kernel/usecases/api_key_service.go:55-70 | with a sound cache `Validate` never disagrees with reading the table by hash, and equals it while context and query work |
| ApiKeys.ValidateKeepsSound | internal/infra/cache/cache.go:104-130 | validating keeps every cached key stored, and a miss or an error changes nothing |
| ApiKeys.RevokeKeepsSoundIff | internal/shared_kernel/usecases/api_key_service.go:81-94 | revoking keeps the cache sound if and only if the context lives until the cached key is dropped, or none is cached |
| ApiKeys.RevokedKeyStillAccepted | internal/shared_kernel/usecases/api_key_service.go:81-94 | otherwise the revoked key is still answered although the table has no row for it |
| ApiKeys.HistoryKeepsUnique | internal/shared_kernel/usecases/api_key_service.go:31-53 | throughout every serial history names and hashes are unique |
| ApiKeys.HistoryKeepsSoundIff | internal/shared_kernel/usecases/api_key_service.go:31-94 | in a serial history every cached key is still stored at all times if and only if no revocation of a cached key lost its context before dropping it |
| ApiKeys.ValidateAnswersHistory | internal/shared_kernel/usecases/api_key_service.go:31-94 | in every serial history without such a revocation, whatever the cache drops or refuses, `Validate` answers a key exactly when it was created and not revoked since |

## Left out

- Daylight saving, zone changes and named zones: every zone is a fixed offset.
- The range of Go's years and of `time.Time`: instants are unbounded; only the saturation of `Time.Sub` is kept.
- The rounding of `Duration.Hours() / 24` in floating point: whole days are an exact truncated division.
- Cron schedules: the external cron parser is not part of this model.
- IntervalWorker.ScheduledTaskWorker.ShouldExecuteSchedule: gives an error for cron schedules, because the cron parser is not part of this model.
- IntervalWorker.ScheduledTaskWorker.EvaluateAndMaybeCreateTask: never runs a cron schedule, for the same reason.
- IntervalWorker.ScheduledTaskWorker.EvaluateSchedules: never runs a cron schedule, for the same reason.
- The parsing of HH:MM texts and of telemetry topics and values: a parsed time, path and number are given. Paths and service names that the snapshot reacts to are constructors, all others carry their text.
- Created and updated time stamps and versions of executions, activities and scheduled tasks: nothing modelled reads them.
- ORM entities, time precision and transactions of the database beyond all-or-nothing writes: rows are mapped faithfully.
- Failed writes that were applied after all: a write that reports failure has changed nothing.
- The delivery of maintenance events: an event counts as published once the broker has accepted it.
- Updates of one row in place: the methods that mark an execution or a command are functions on a row value, because the repositories hand out copies of rows and save them back; the tables, services, workers, snapshot and session maps are updated in place.
- Concurrent completion requests and worker saves of one execution, and concurrent validation and revocation of one API key: these are read-then-write in the code, so those runs are serial.
- ExecutionRuns.ExactlyOneNotification: does not cover ticks that run past the scheduled date before the count reaches the day, since the query skips dates that are not in the future.
- CommandRuns.CreatedTasksKeepApart: does not cover commands queued directly on a device, which skip the overlap check, commands within one task, or concurrent creations, which overlap in `CommandRuns.ConcurrentCreationsOverlap`.
- Exactly-once pushes and monotone command status: stale snapshots repeat pushes, and late messages overwrite the status.
- The worker that answers unparsable broker messages by stopping, the subscriptions and channels of the broker: a message in flight is delivered at most once, in any order, or lost.
- The mapping of a command to its wire format and the MQTT client: a push is the command and its time.
- Fields of inverters and tanks that no message writes (voltage, current, state of charge, tank type), and lists that no handler fills (generators, alternators): they keep their defaults.
- The sharing of list memory between queued snapshot copies: a snapshot is a value; the summary of a snapshot is built from that value.
- Floating point in the snapshot and summary: values are reals.
- MetricName.VictronMetricName: takes the snake-case service name as given, because that conversion lower-cases arbitrary Unicode letters.
- Cache.RistrettoCache.GetOrSet: does not cover several callers that share one load, because the runs of the key service are serial.
- Deletion of executions: nothing calls it yet; it is kept as a step of the runs because the queries honour it, and no result depends on it.
- The asynchronous admission of the cache library: an accepted entry is visible at once and may be dropped at any time, which also covers expiry.
- The Redis session store and the Redis cache, HTTP controllers, websockets and the broadcast of snapshots, notifications, authentication flows and tenant management: input and output, or easy members.
