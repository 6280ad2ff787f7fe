# VoidRunner in Dafny: executions, pages, limits and containers

VoidRunner runs users' scripts in containers. A task is a row in `tasks`; starting it inserts a row in
`task_executions`, a runner starts a container in the background, and the result is written back to
both rows. This project models that lifecycle and the four algorithms around it, and proves what they
keep over every run.

| part | files | main results |
|---|---|---|
| Lifecycle of tasks and executions | `Models`, `Database`, `TaskExecutionService`, `TaskExecutionHandler`, `Lifecycle`, `SingleOutcome`, `OneLive`, `Absorbing`, `Ownership`, `CompletionRace`, `LifecycleWitnesses` | three invariants over whole runs, each with the exact premise of every step; final rows stay final; other users' rows never change; who wins a race of completion and cancellation; how the code leaves the invariants |
| Runner and executor | `TaskExecutorService`, `Executor`, `Utf8` | every outcome of a container run is classified; when a background run settles its execution; the runner among cancellations |
| Container tracking | `ContainerCleanup`, `ContainerTracking` | what each bulk cleanup removes; over every interleaving a registered container that exists is tracked, and a finished cleanup leaves nothing of its snapshot |
| Log demultiplexer | `LogDemux` | inverse of the encoder; exact result on every byte string and every truncation |
| Rate limiter | `RateLimiter` | pruning and sweeping refine the full history; spacing of grants; independence of identifiers |
| Cursor pagination | `Keyset`, `CursorSql`, `Pagination`, `SortFieldTraversals` | a traversal returns the filtered table in order, in the number of pages its size needs; rows that stay are returned once while the table changes; exactly which sort fields lose rows and which repeat them |

A class stands for each object the code mutates (the connection and its transaction, the services, the
handler, the limiter, the cleanup manager, the executor, the pagination request). Its methods follow the
code step by step and are proved equal to functions on values, and the theorems about whole runs are
about those functions.

## How the lifecycle is read

* A transaction is one step. The code takes no row locks, so this is an assumption:
  `LifecycleWitnesses.UnserializedCreatesDoubleExecutions` and
  `LifecycleWitnesses.UnserializedCancelErasesCompletion` show what happens without it.
* Every database operation can fail, chosen by a `Faults` value; a failed commit leaves the store as it was.
* Rows get strictly increasing creation times, which is what makes "the newest execution" of a task unique.
* A PUT of an execution, an edit of a task and a task deletion read first and write later, with no transaction
  around the two. The model takes the two halves apart: what a PUT decided on an earlier state is carried out by one step on a later one
  (`Lifecycle.DecidedPutIsAStep`), an edit writes back a status it read at any time, and a deletion does not rely
  on the one it read.
* Three writes have no status guard: `updateExecutionStatus` (internal/services/task_executor_service.go:138-142),
  the non-terminal branch of the PUT handler (internal/api/handlers/task_execution.go:466), and the task edit, which
  writes the status column along (internal/api/handlers/task.go:382). They are steps of the model. The premise under
  which the first two keep the first two invariants is exactly that the execution is still live, for the third that
  the status still fits the executions; `LifecycleWitnesses.MarkingACancelledExecutionDoublesExecutions`,
  `LifecycleWitnesses.StalePutRevivesCompletion` and `LifecycleWitnesses.StaleTaskPutDoublesExecutions` show the
  other cases.
* "At most one live execution per task" is not an invariant of the code: Create accepts a timed-out task and
  Cancel a timed-out execution. `OneLive.RunHasOneLiveIff` gives the exact premise for this property;
  `Lifecycle.RunAgreesIff` and `SingleOutcome.RunHasOneOutcomeIff` give the exact premises for two stronger ones
  that imply it, and `LifecycleWitnesses.CancellingAnOlderTimeoutDoublesExecutions` is the way out of all three.

## What the code does that its texts do not say

* The cursor conditions mention `$n` several times but append one argument for each mention
  (internal/database/cursor.go:200-202, 205-212, 217-219, 267-271; the count is pinned by
  internal/database/cursor_test.go:117). PostgreSQL binds by number, so every clause with a cursor compares
  columns with arguments of other types (`CursorSql.ClauseByNumberIff`), and following cursors ends exactly when
  the matching rows fit one page (`Pagination.Repository.FollowAsWritten` and its twin for executions). The other traversal theorems hold for
  the predicate that the columns and comments describe, one argument for each mention.
* By `updated_at` the cursor carries the creation time, by `name` it carries no name, so neither follows its
  ORDER BY (`SortFieldTraversals.CursorFollowsOrderIff`). On rows as they are stored, with the creation not after the
  last update: by name, rows can be lost and repeated; descending by `updated_at` rows can be lost and none is
  repeated; ascending by `updated_at` none is lost, but a row that was updated after its creation is selected by its
  own cursor, and following cursors can go round forever
  (`SortFieldTraversals.FinishedTraversalsReturnAllIff`, `SortFieldTraversals.TraversalsReturnOnceIff`,
  `SortFieldTraversals.LoopNeverFinishes`). A priority cursor without a priority falls back to `created_at`; the
  repositories never create one.
* Both decoders reject a nil id and a zero time, so rows with either cannot be continued from
  (`Pagination.CursorRoundTripIff`); the traversals require rows without them.
* `GetByID` of executions never returns the sentinel that the services compare with
  (internal/database/task_execution_repository.go:109-113), so a missing execution is reported as a read failure.
* A return code outside 0..255 violates a CHECK constraint, and a TEXT column takes neither zero bytes nor malformed
  UTF-8, so such a result cannot be stored and the execution stays running
  (`TaskExecutorService.BackgroundRunSettlesIff`, `Executor.StorableIff`). The mock executor produces the
  code -1 (internal/executor/mock_executor.go:84, 120, 189).
* The goroutine of a run keeps the context of the request that started it (internal/api/handlers/task_execution.go:82,
  internal/services/task_executor_service.go:69) for the container and for the database. Once that context is
  cancelled no transaction begins, so the execution stays live (`TaskExecutorService.CancelledRunNeverSettles`), and the
  result status "cancelled", which needs a cancelled context, is never stored by the runner
  (`TaskExecutorService.CancelledResultIsNeverStored`).
* A cancellation that commits before the runner marks the execution running does not stop the run: the mark revives
  the execution and the result is stored (`TaskExecutorService.RunnerOutcomes`).
* The executor cuts the container id to twelve characters before it registers the removal
  (internal/executor/executor.go:144), so a shorter id or a missing execution record panics and leaves the created
  container behind (`Executor.ExecuteOutcome`, `Executor.TaskExecutor.ExecuteContainer`).
* The executor removes its container without unregistering it, so the entry stays until a cleanup loop reaches it
  (`ContainerTracking.TrackedUntilUnregisteredIff`, `Executor.RunLeavesItsEntryIff`). The server passes no cleanup
  manager to the runner (cmd/api/main.go:197), so there only Cancel, the sweep
  that every five minutes removes containers older than an hour, and shutdown do that.
* Containers are created with an empty name (internal/executor/docker_client.go:147), so the name prefix that the
  orphan sweep looks for is not one that the executor gives.
* `GetStats` counts five statuses, while entries can end as "timeout" or "cancelled"
  (`ContainerCleanup.CountsAddUpIff`).
* When a started task cannot be read back, the undo turns a timed-out task into a pending one
  (`TaskExecutorService.UndoneStartRestoresTaskIff`).

## Model

| member | source | states |
|---|---|---|
| Database.Connection.BeginTx | internal/database/connection.go:183-193 | a transaction starts from the committed rows |
| Database.Transaction.CreateExecution | internal/database/task_execution_repository.go:38-84 | an insert happens exactly when the id is new, the task exists and the columns can be stored; otherwise nothing changes |
| Database.Transaction.UpdateExecution | internal/database/task_execution_repository.go:207-243 | writes the status and result columns of an existing row and no other column, above all not task_id; fails on a missing row or results that cannot be stored |
| Database.Transaction.UpdateExecutionStatus | internal/database/task_execution_repository.go:246-267 | writes one status column of an existing row, or fails and changes nothing |
| Database.Transaction.UpdateTaskStatus | internal/database/task_repository.go:224-245 | writes one status column of an existing task, or fails and changes nothing |
| Database.Transaction.Commit | internal/database/connection.go:214-216 | the store becomes the transaction's copy, or stays |
| Database.Transaction.Rollback | internal/database/connection.go:204-208 | the store stays as it is and the transaction is closed |
| TaskExecutionService.Service.CreateExecutionAndUpdateTaskStatus | internal/services/task_execution_service.go:28-95 | begin, closure, commit or roll back compute Create; an error leaves the whole store unchanged |
| TaskExecutionService.Service.CreateInTx | internal/services/task_execution_service.go:31-83 | the reads, guards and two writes, in the code's order, with a failure possible at each |
| TaskExecutionService.Service.CancelExecutionAndResetTaskStatus | internal/services/task_execution_service.go:161-220 | begin, closure, commit or roll back compute Cancel; an error leaves the whole store unchanged |
| TaskExecutionService.Service.CancelInTx | internal/services/task_execution_service.go:162-208 | the reads, guards and two writes, in the code's order, with a failure possible at each |
| TaskExecutionService.Service.CompleteExecutionAndFinalizeTaskStatus | internal/services/task_execution_service.go:223-283 | begin, closure, commit or roll back compute Complete; an error leaves the whole store unchanged |
| TaskExecutionService.Service.CompleteInTx | internal/services/task_execution_service.go:224-271 | the reads, guards and two writes, in the code's order, with a failure possible at each |
| TaskExecutionService.CreateIsAllOrNothing | internal/services/task_execution_service.go:31-83 | commits if and only if no operation fails, the caller owns the task, the id is new and the task is pending or timed out; then exactly the two rows are written, else none |
| TaskExecutionService.CancelIsAllOrNothing | internal/services/task_execution_service.go:162-208 | commits if and only if no operation fails, the caller owns the execution's task and it is pending, running or timed out; then exactly the pair is written, else none |
| TaskExecutionService.CompleteIsAllOrNothing | internal/services/task_execution_service.go:224-271 | commits if and only if no operation fails, the caller owns the stored execution's task, it is neither completed nor cancelled and the results can be stored; the caller's task id plays no part |
| TaskExecutionService.CreateAnswers | internal/services/task_execution_service.go:31-95 | each error of Create with the exact input that gets it: what cannot be read first, then another's task, a running task, a finished one, a failing write, a failing commit |
| TaskExecutionService.CancelAnswers | internal/services/task_execution_service.go:162-220 | the same for Cancel |
| TaskExecutionService.CompleteAnswers | internal/services/task_execution_service.go:224-283 | the same for Complete |
| TaskExecutionHandler.Handler.ApplyUpdates | internal/api/handlers/task_execution.go:480-517 | present request fields replace columns, absent ones leave them |
| TaskExecutionHandler.Handler.Prepare | internal/api/handlers/task_execution.go:373-463 | the reads: a terminal row is to go through Complete with the matching task status, any other is to be written by the owner as it was read |
| TaskExecutionHandler.Handler.Save | internal/api/handlers/task_execution.go:417-466 | the write, on whatever the store has become since |
| TaskExecutionHandler.Handler.Update | internal/api/handlers/task_execution.go:333-477 | a request that nothing interrupts is the two in sequence |
| TaskExecutionHandler.UpdatesMerge | internal/api/handlers/task_execution.go:480-517 | each result column is the request's where present and the stored one where absent; identity, task and creation time stay |
| TaskExecutionHandler.PutEndsExecutionIff | internal/api/handlers/task_execution.go:389-439 | the owner's uninterrupted PUT that leaves the execution over succeeds if and only if it was neither completed nor cancelled and the merged columns can be stored; then the execution has that status and those columns, its task the status of the same name, and nothing else changes |
| TaskExecutionHandler.PutKeepsExecutionLiveIff | internal/api/handlers/task_execution.go:440-473 | the owner's uninterrupted PUT that leaves the execution live succeeds if and only if the merged columns can be stored, and writes that one row |
| TaskExecutionHandler.PutIsRefused | internal/api/handlers/task_execution.go:373-463 | a PUT for an unknown or another user's execution writes nothing, at whatever operation it fails |
| Lifecycle.ApplyKeepsValid | migrations/001_initial_schema.up.sql:46-64 | every step keeps the foreign key and the distinctness of rows |
| Lifecycle.RunKeepsValid | migrations/001_initial_schema.up.sql:46-64 | the same over whole runs |
| Lifecycle.AdditionAddsPendingTask | internal/api/handlers/task.go:88-94 | a new task is its owner's and pending, and nothing else changes |
| Lifecycle.DeletionTakesTaskAndExecutions | internal/api/handlers/task.go:415-452 | the owner's deletion takes exactly the task and its executions; another user's does nothing |
| Lifecycle.MarkWritesRunning | internal/services/task_executor_service.go:138-142 | the runner's write sets one status to running, whatever it was |
| Lifecycle.PutWritesStatusAndResults | internal/api/handlers/task_execution.go:466 | the late write of a PUT changes status and results of the owner's execution, on whatever it has become, and nothing else |
| Lifecycle.TaskPutWritesStatus | internal/api/handlers/task.go:336-382 | the late write of a task edit changes the status of the owner's task, never to running, and nothing else |
| Lifecycle.StepKeepsAgreementIff | internal/services/task_execution_service.go:48-74 | a step keeps "the newest execution decides the task status, older ones are cancelled or timed out" if and only if its premise holds |
| Lifecycle.CancelKeepsAgreementIff | internal/services/task_execution_service.go:184-199 | the premise of Cancel: its execution is the newest, or the newest one leaves the task pending or cancelled |
| Lifecycle.CompleteKeepsAgreementIff | internal/services/task_execution_service.go:246-260 | the premise of Complete: newest with matching statuses, or an older one becoming cancelled or timed out beside an agreeing newest one |
| Lifecycle.DecidedPutIsAStep | internal/api/handlers/task_execution.go:373-466 | whatever happens between the read and the write of a PUT, short of deleting the task, the write is one step of the machine in the later state |
| Lifecycle.OwnerNeverChanges | internal/api/handlers/task_execution.go:447-456 | an ownership check stays valid while the task is not deleted |
| Lifecycle.PutWriteKeepsAgreementIff | internal/api/handlers/task_execution.go:466 | the unguarded write of a PUT keeps the invariant if and only if the execution is still live |
| Lifecycle.MarkRunningKeepsAgreementIff | internal/services/task_executor_service.go:138-142 | the runner's unguarded write keeps the invariant if and only if the execution is still live |
| Lifecycle.TaskPutWriteKeepsAgreementIff | internal/api/handlers/task.go:336-382 | the status that a task edit writes back keeps the invariant if and only if it still agrees with the newest execution, or is pending when there is none |
| Lifecycle.InsertKeepsAgreement | internal/services/task_execution_service.go:48-74 | Create needs no premise: its guard lets a new execution in only when all older ones are over |
| Lifecycle.DeleteKeepsAgreement | internal/api/handlers/task.go:415-452 | deleting a task with its executions needs no premise, not even that the task is not running |
| Lifecycle.RunAgreesIff | internal/services/task_execution_service.go:28-283 | all states of a run satisfy the invariant if and only if every step meets its premise in the state it is taken in |
| Lifecycle.AimingAtNewestKeepsAgreement | internal/services/task_execution_service.go:28-283 | runs whose Cancel and Complete aim at the newest execution, and whose unguarded writes find what they read unchanged, keep the invariant in every state |
| Lifecycle.AtMostOneLiveExecution | internal/services/task_execution_service.go:48-74 | under the invariant a task has at most one pending or running execution |
| Lifecycle.RunningIffLiveExecution | internal/services/task_execution_service.go:48-74 | under the invariant a task is running exactly while one of its executions is live |
| LifecycleWitnesses.CancellingAnOlderTimeoutDoublesExecutions | internal/services/task_execution_service.go:184-199 | from any state with an older timed-out and a live execution, Cancel of the older one and Create give two live executions |
| LifecycleWitnesses.MarkingACancelledExecutionDoublesExecutions | internal/services/task_executor_service.go:138-142 | from any state with a cancelled execution of a pending task, the unguarded write and Create give two live executions |
| LifecycleWitnesses.OlderTimeoutIsReachable | internal/services/task_execution_service.go:54-58 | create, time out, create again reaches the first of these states |
| LifecycleWitnesses.CancelledIsReachable | internal/services/task_execution_service.go:192-199 | create and cancel reaches the second |
| LifecycleWitnesses.StalePutRevivesCompletion | internal/api/handlers/task_execution.go:373-466 | a PUT that read a live execution and writes after a Complete revives the completed execution, while one that starts after the Complete is rejected |
| LifecycleWitnesses.StaleTaskPutDoublesExecutions | internal/api/handlers/task.go:336-382 | an edit of a pending task that writes after a Create puts it back to pending, and the next Create gives two live executions |
| LifecycleWitnesses.UnserializedCreatesDoubleExecutions | internal/services/task_execution_service.go:34-74 | two Creates that both read before either writes give two live executions, while in sequence the second is rejected |
| LifecycleWitnesses.UnserializedCancelErasesCompletion | internal/services/task_execution_service.go:167-199 | a Cancel that read before a Complete wrote turns the completed execution into a cancelled one, while in sequence it is rejected |
| SingleOutcome.StepKeepsOneOutcomeIff | internal/services/task_execution_service.go:28-283 | a step, aimed at any execution, keeps "one standing execution per task, all others cancelled" if and only if it completes nothing as a timeout or with a disagreeing task status, writes live statuses only to live executions, and writes back to a task only a status that fits |
| SingleOutcome.RunHasOneOutcomeIff | internal/services/task_execution_service.go:28-283 | all states of a run satisfy it if and only if every step does |
| SingleOutcome.OneOutcomePerTask | internal/services/task_execution_service.go:48-74 | what it says of a task: running with exactly one live execution, completed or failed with exactly one execution of that status, every other execution cancelled |
| OneLive.WriteKeepsOneLiveIff | internal/services/task_execution_service.go:192-260 | a status write keeps "at most one live execution per task" if and only if it writes a terminal status, a live execution, or a task without one |
| OneLive.StepKeepsOneLiveIff | internal/services/task_execution_service.go:28-283 | a step keeps it if and only if a committing Create finds no live execution and a live status is written where it adds none; Cancel, terminal results and task steps need no premise |
| OneLive.RunHasOneLiveIff | internal/services/task_execution_service.go:28-283 | in all states of a run each task has at most one live execution if and only if every step meets that premise in the state it is taken in |
| OneLive.CreateDoublesIff | internal/services/task_execution_service.go:48-74 | a Create doubles exactly for the owner of a pending or timed-out task that has a live execution |
| OneLive.AgreementGivesOneLive | internal/services/task_execution_service.go:48-74 | the first invariant implies it |
| OneLive.OneOutcomeGivesOneLive | internal/services/task_execution_service.go:48-74 | so does the second |
| OneLive.WeakerThanAgreement | internal/services/task_execution_service.go:184-199 | cancelling an older timed-out execution of a completed task breaks agreement and doubles nothing |
| Absorbing.SettledRowKeptIff | internal/services/task_execution_service.go:184-250 | a step leaves the whole row of a completed or cancelled execution alone if and only if it is none of the two unguarded execution writes and no deletion of its task |
| Absorbing.SettledForeverIff | internal/services/task_execution_service.go:161-283 | over a run the row never changes if and only if no step disturbs it; Create, Cancel and Complete never do |
| Absorbing.IdentityColumnsNeverChange | internal/database/task_execution_repository.go:212-216 | while its task is not deleted, no run changes id, task or creation time of an execution, whatever rows callers supply |
| Ownership.StepOfAnotherKeepsViews | internal/services/task_execution_service.go:44 | a request of one user, or the runner marking an execution that is not v's, leaves all rows of v alone |
| Ownership.OthersNeverTouch | internal/services/task_execution_service.go:180-242 | any run of requests by users other than v, and of the runner at work on executions that are not v's, leaves every task of v and every execution of those tasks unchanged |
| CompletionRace.ContenderEffect | internal/services/task_execution_service.go:184-260 | whether a call commits, and the pair it leaves, depend on the execution's status alone |
| CompletionRace.DecidedStays | internal/services/task_execution_service.go:184-250 | after a completed, failed or cancelled result no Cancel commits and the pair stays |
| CompletionRace.RaceHasOneWinnerIff | internal/services/task_executor_service.go:88-123 | for any order of at most one Complete and any Cancels, with faults and requests about other tasks in between, the positions that commit and the pair that is left, with its results: the first viable call alone, if and only if it is not a timeout that a viable Cancel follows |
| CompletionRace.WinnersAreTheCommits | internal/services/task_executor_service.go:88-209 | those positions are exactly the calls that commit in the state they are taken in |
| CompletionRace.FirstViableIsFirst | internal/services/task_executor_service.go:88-209 | the first viable call is viable and none before it is |
| TaskExecutorService.Runner.ExecuteTask | internal/services/task_executor_service.go:42-73 | an execution is started exactly when Create commits and the task can be read back, else a Cancel undoes it |
| TaskExecutorService.Runner.UpdateExecutionStatus | internal/services/task_executor_service.go:138-142 | one unguarded write of the status column |
| TaskExecutorService.Runner.UpdateExecutionWithResults | internal/services/task_executor_service.go:145-176 | a Complete of a row made from the result, with the matching task status |
| TaskExecutorService.Runner.ExecuteTaskAsync | internal/services/task_executor_service.go:76-135 | mark running, execute, store the result; with a cleanup manager only entries whose removal fails remain tracked for the execution |
| TaskExecutorService.Runner.CancelTaskExecution | internal/services/task_executor_service.go:184-214 | the answer and both rows are those of Cancel whatever the containers do, and the execution's removable containers are gone |
| TaskExecutorService.RunnerMapsAsHandler | internal/services/task_executor_service.go:159-172 | on everything the executor returns, the runner and the handler choose the same task status and the pair agrees, so no fallback is reached |
| TaskExecutorService.FallbacksDifferIff | internal/services/task_executor_service.go:170-172 | the fallbacks, failed for the runner and pending for the handler, are reached exactly on the live statuses |
| TaskExecutorService.StartedIff | internal/services/task_executor_service.go:42-73 | a start answers with an execution if and only if the owner's task was pending or timed out, the id is new, nothing failed and the task was read back; then it is the new pending execution as stored, the task is running and nothing else changed |
| TaskExecutorService.UndoneStartRestoresTaskIff | internal/services/task_executor_service.go:58-66 | the undo cancels the new execution, touches nothing else, and restores the task's status if and only if it was pending |
| TaskExecutorService.BackgroundRunSettlesIff | internal/services/task_executor_service.go:76-176 | an undisturbed run settles its execution if and only if the executor does not panic, nothing fails and the results can be stored; then both rows hold the executor's result, else both stay live |
| TaskExecutorService.UnsettledRunOnlyMarks | internal/services/task_executor_service.go:76-176 | any other run leaves the execution as the mark left it and everything else alone |
| TaskExecutorService.FinishedRunTracks | internal/services/task_executor_service.go:120-130 | after a finished run with a cleanup manager, the execution has only containers tracked that cannot be removed, and entries of other executions are as before |
| TaskExecutorService.CancelledRunNeverSettles | internal/services/task_executor_service.go:69-123 | a run whose context is cancelled leaves its execution live and its task running |
| TaskExecutorService.CancelledResultIsNeverStored | internal/executor/executor.go:181-188 | a result is cancelled only when the context is, and then it cannot be stored |
| TaskExecutorService.RunnerAgainstCancels | internal/services/task_executor_service.go:76-209 | the rows after the whole goroutine, whose owner cancels any number of times before the mark, between mark and result and after the result, depend on five facts alone: a viable cancellation in each of the three places, whether the mark fails, and what the result is |
| TaskExecutorService.RunnerOutcomes | internal/services/task_executor_service.go:88-209 | which rows these are: a cancellation before the result stands exactly when it comes after the mark or the mark fails; else a storable result wins, of which a timeout gives way to a later cancellation; else a later cancellation; else the execution stays as the mark left it |
| TaskExecutorService.RunnerAimsAtNewest | internal/services/task_executor_service.go:145-176 | while its execution is the newest, the runner's write keeps the lifecycle invariant |
| Executor.TaskExecutor.RunCreated | internal/executor/executor.go:162-220 | start, mark, wait, classify and collect logs, field by field, and the marks left in the tracked map |
| Executor.TaskExecutor.ExecuteContainer | internal/executor/executor.go:128-221 | a removal is attempted exactly when the run is past the two panics; which containers exist and are tracked afterwards |
| Executor.TaskExecutor.Execute | internal/executor/executor.go:56-125 | rejected requests touch no container; for all others the result, the containers that exist, the removal attempt and the tracked map are those of executeContainer |
| Executor.TaskExecutor.GetContainerLogs | internal/executor/docker_client.go:200-229 | the two outputs are the payloads of the log's frames by stream |
| Executor.TaskExecutor.Cancel | internal/executor/executor.go:269-281 | removes and untracks the removable containers of the execution, and reports an error exactly when one was not removable |
| Executor.ExecuteOutcome | internal/executor/executor.go:56-221 | when it panics; which texts refuse a request; every other end and its status by name: failed for a refusal, a failed create or start and a code other than 0, completed for code 0, timeout or cancelled for exactly the waits that end so; every column, with the text after a failed log retrieval; when the result can be stored |
| Executor.OutputReachesTheResult | internal/executor/executor.go:201-215 | the frames a container wrote arrive, split by stream and in order, in the result |
| Executor.StorableIff | migrations/001_initial_schema.up.sql:50-63 | the result of a run that waited can be stored if and only if its exit code and duration are in range and neither stream has a zero byte or malformed UTF-8 |
| Utf8.Utf8Iff | migrations/001_initial_schema.up.sql:51-52 | a text is well-formed if and only if it is the UTF-8 encoding of a sequence of Unicode scalar values |
| Executor.RunLeavesItsEntryIff | internal/executor/executor.go:146-218 | the entry of the removed container remains exactly when registration was possible, with the task, execution, image, creation and start time it was given and the status of how the run ended; no other entry changes |
| Executor.RunKeepsEntries | internal/executor/executor.go:146-218 | without a container nothing is tracked, and an id tracked before keeps what it was registered for |
| Executor.ContainerRemainsIff | internal/executor/executor.go:128-160 | a created container exists afterwards exactly when the run panicked or neither the executor nor the daemon removed it; no other container is touched |
| ContainerCleanup.CleanupManager.RegisterContainer | internal/executor/cleanup.go:59-112 | rejects empty and nil arguments and a tracked id, in the code's order, else tracks the container as created |
| ContainerCleanup.RegistrationIff | internal/executor/cleanup.go:59-112 | registration succeeds if and only if id, task, execution and image are given and the id is not tracked; then the entry has exactly these, the creation time now, no start time and the status created; otherwise nothing changes and the first missing argument is named |
| ContainerCleanup.CleanupManager.MarkContainerStarted | internal/executor/cleanup.go:115-125 | changes the status and start time of a tracked entry and nothing else |
| ContainerCleanup.CleanupManager.MarkContainerCompleted | internal/executor/cleanup.go:128-138 | changes the status of a tracked entry and nothing else |
| ContainerCleanup.MarksChangeOneEntry | internal/executor/cleanup.go:115-138 | both marks keep task, execution, image and creation time of the entry, and every other entry |
| ContainerCleanup.CleanupManager.UnregisterContainer | internal/executor/cleanup.go:141-147 | forgets one container |
| ContainerCleanup.CleanupManager.CleanupContainer | internal/executor/cleanup.go:150-181 | asks to stop only when not forced, falls back to force, and forgets the container exactly when it was removed |
| ContainerCleanup.CleanupManager.Snapshot | internal/executor/cleanup.go:185-192 | collects exactly the wanted ids, each once, whatever order the map is visited in |
| ContainerCleanup.CleanupManager.CleanupEach | internal/executor/cleanup.go:203-214 | removes and forgets exactly the removable ids of a list, by force; the error is the last failure |
| ContainerCleanup.LastFailingIsOne | internal/executor/cleanup.go:203-214 | there is one exactly when some id is not removable |
| ContainerCleanup.CleanupManager.CleanupMatching | internal/executor/cleanup.go:184-306 | what the four bulk cleanups share: exactly the wanted and removable entries go, all others stay, nil exactly when none failed |
| ContainerCleanup.CleanupManager.CleanupExecution | internal/executor/cleanup.go:184-215 | the same for the entries of an execution |
| ContainerCleanup.CleanupManager.CleanupTask | internal/executor/cleanup.go:218-249 | the same for the entries of a task |
| ContainerCleanup.CleanupManager.CleanupStaleContainers | internal/executor/cleanup.go:252-281 | the same for the entries older than the maximum age |
| ContainerCleanup.SweepTakesOldOnly | internal/executor/cleanup.go:252-268 | a container registered at now is in the set of a sweep at t if and only if t - now is more than the maximum age |
| ContainerCleanup.MatchingAreTheWanted | internal/executor/cleanup.go:184-268 | the set of a bulk cleanup is exactly the tracked ids whose entries are wanted |
| ContainerCleanup.LastFailingIsLast | internal/executor/cleanup.go:203-214 | the error is that of the last id that cannot be removed |
| ContainerCleanup.CleanupManager.CleanupAll | internal/executor/cleanup.go:284-306 | the same for all entries |
| ContainerCleanup.CleanupManager.ForceCleanupOrphanedContainers | internal/executor/cleanup.go:411-460 | removes exactly the removable untracked containers with the name prefix and leaves the tracked map as it is; an error when listing or a removal failed |
| ContainerCleanup.CleanupManager.HasOwnName | internal/executor/cleanup.go:423-438 | some name, without its slash, is longer than the prefix and starts with it |
| ContainerCleanup.IsOwnNameIff | internal/executor/cleanup.go:423-438 | which names these are, letter by letter |
| ContainerCleanup.OrphansAre | internal/executor/cleanup.go:411-440 | an orphan is listed with such a name and not tracked |
| ContainerCleanup.CleanupManager.GetStats | internal/executor/cleanup.go:339-363 | each count is the number of entries with that status |
| ContainerCleanup.CountsMean | internal/executor/cleanup.go:339-363 | each count is the size of the set of ids whose entries have the status of its name |
| ContainerCleanup.CountsAddUpIff | internal/executor/cleanup.go:347-360 | the counts add up to the total if and only if every entry has one of the five statuses |
| ContainerTracking.ApplyKeepsInv | internal/executor/cleanup.go:166-177 | every single operation of an executor run or a cleanup loop keeps the tracking invariant |
| ContainerTracking.LiveRegisteredContainersAreTracked | internal/executor/cleanup.go:150-181 | in every interleaving of executor runs, cancellations, sweeps, exits and failing removals, a registered container that exists is tracked; the orphan sweep lists at one moment and looks each container up at others |
| ContainerTracking.UnregisteringIsSafeIff | internal/executor/cleanup.go:171-177 | why unregistering comes after the removal: earlier, it keeps the invariant exactly for containers that are gone or were never registered |
| ContainerTracking.FinishedCleanupLeavesNothing | internal/executor/cleanup.go:184-306 | a bulk cleanup that finished without a failed removal leaves no container of its snapshot existing or tracked, whatever ran in between |
| ContainerTracking.TrackedUntilUnregisteredIff | internal/executor/executor.go:152-160 | a tracked container stays tracked if and only if no cleanup loop unregisters it; the executor's own removal does not |
| ContainerTracking.WholeRunLeavesEntry | internal/executor/executor.go:128-218 | an executor run alone leaves its container registered and tracked with everything it was given, and existing only if the removal failed; all else is as before |
| ContainerTracking.RegistrationNeverChanges | internal/executor/cleanup.go:115-138 | over every interleaving an entry keeps its task, execution, image and creation time for as long as it is tracked |
| ContainerTracking.SweepSparesTheYoung | internal/executor/cleanup.go:252-268 | so after any run no sweep takes up a container that is not older than the maximum age, counted from its registration |
| ContainerTracking.RemovedContainersStayGone | internal/executor/docker_client.go:232-252 | a removed container never exists again |
| ContainerTracking.UninterruptedCleanup | internal/executor/cleanup.go:203-214 | run alone, the interleaved loop has the effect that CleanupEach states |
| LogDemux.DemultiplexLogs | internal/executor/docker_client.go:315-354 | on every byte string the two outputs are the in-order payloads of streams 1 and 2 of its complete leading frames |
| LogDemux.OrOfShiftedBytesIsSum | internal/executor/docker_client.go:332 | the shifted size bytes do not overlap, so combining them with or is adding them |
| LogDemux.FramesUndoEncode | internal/executor/docker_client.go:315-354 | demultiplexing undoes multiplexing for any streams, reserved bytes and payloads below 2^32 bytes |
| LogDemux.FramesAfterEncoded | internal/executor/docker_client.go:319-351 | it distributes over concatenation at a frame boundary |
| LogDemux.EveryStringIsFramesAndRest | internal/executor/docker_client.go:319-351 | every byte string is its frames, encoded, and an incomplete rest |
| LogDemux.FramesAreTheMaximalRun | internal/executor/docker_client.go:319-351 | that decomposition is unique |
| LogDemux.TruncationKeepsCompleteFrames | internal/executor/docker_client.go:320-339 | an encoded stream cut after n bytes yields exactly the frames that end within n bytes |
| LogDemux.OutputsOfEncoded | internal/executor/docker_client.go:343-348 | both outputs of an encoded stream with anything behind it |
| RateLimiter.Limiter.Allow | internal/api/middleware/rate_limit.go:38-69 | the answer and the new map of one locked call; a refusal does not even prune |
| RateLimiter.Limiter.Cleanup | internal/api/middleware/rate_limit.go:72-97 | one sweep prunes every list and drops the empty ones, whatever order the map is visited in |
| RateLimiter.LimiterRefinesHistory | internal/api/middleware/rate_limit.go:38-97 | over any interleaving of requests and sweeps with a clock that does not go back, every answer is whether fewer than maxReqs grants of the full history lie in the window |
| RateLimiter.PermittedIffStaysSpaced | internal/api/middleware/rate_limit.go:51-66 | granting is exactly what keeps a grant and the one maxReqs later a full window apart |
| RateLimiter.LogIsWhatWasGranted | internal/api/middleware/rate_limit.go:51-68 | the history's log is what its own answers granted |
| RateLimiter.GrantsAreSpaced | internal/api/middleware/rate_limit.go:38-97 | over any run of the limiter, the requests of an identifier that it answers with yes are in time order, and the one maxReqs places after another is at least a full window later |
| RateLimiter.StoredListsStayInBounds | internal/api/middleware/rate_limit.go:51-94 | in every state a stored list is sorted and at most maxReqs long |
| RateLimiter.IdentifiersAreIndependent | internal/api/middleware/rate_limit.go:46-66 | an identifier's answers are those to its own requests alone |
| Keyset.PageThenRest | internal/database/task_repository.go:427-440 | a page and the listing after its last row are the listing, and has-more says whether there is such a rest |
| Keyset.ListingIsUnique | internal/database/task_repository.go:734-757 | an order that tells all rows apart leaves the database one answer |
| Keyset.StayingRowIsReturnedOnce | internal/database/task_repository.go:386-449 | for any strict total order, a row that keeps its place while others come and go is returned exactly once |
| CursorSql.AppendFilters | internal/database/cursor.go:144-160 | one numbered condition and one argument for each filter that is present |
| CursorSql.BuildTaskCursorWhere | internal/database/cursor.go:143-181 | filters, numbering, cursor condition, arguments and the joining loop give TaskClause |
| CursorSql.BuildExecutionCursorWhere | internal/database/cursor.go:245-284 | the written-out execution clause is the task clause by created_at |
| CursorSql.Join | internal/database/cursor.go:172-180 | the clause is the conjunction of the conditions, absent when there are none |
| CursorSql.RowOrderSorts | internal/database/task_repository.go:734-757 | every ORDER BY is a strict total order on rows with distinct ids |
| CursorSql.DescendingIsConverse | internal/database/task_repository.go:735-738 | descending is the converse of ascending |
| CursorSql.CursorConditionMeans | internal/database/cursor.go:184-242 | what each expanded OR/AND condition says of a row, wherever its numbering starts |
| CursorSql.ClauseInOrder | internal/database/cursor.go:143-181 | with one argument for each mention, a clause is well typed and selects exactly the filtered rows after the cursor |
| CursorSql.ClauseByNumberIff | internal/database/cursor.go:200-212 | bound by number, a clause is well typed if and only if there is no cursor |
| CursorSql.OrderMeans | internal/database/task_repository.go:740-756 | each ORDER BY as a condition on two rows |
| CursorSql.CursorFollowsSortedOrder | internal/database/cursor.go:196-219 | by created_at and priority the cursor of any row selects exactly the rows ordered after it |
| Pagination.PaginationRequest.Validate | internal/database/cursor.go:104-140 | normalises limit, order and field in place and leaves the cursor |
| Pagination.CursorRoundTripIff | internal/database/cursor.go:30-101 | a row's cursor decodes to itself if and only if its id is not nil and its time not zero |
| Pagination.CursorPageIsPageAt | internal/database/task_repository.go:401-435 | by created_at and priority, the page for a cursor is the page after the cursor's row |
| Pagination.ExecutionPageIsPageAt | internal/database/task_execution_repository.go:396-432 | the same for executions |
| Pagination.Repository.FetchPage | internal/database/task_repository.go:406-435 | of the selected rows in order, fetching limit + 1, noting the extra one and cutting it off gives the page and has-more |
| Pagination.Repository.SelectPage | internal/database/task_repository.go:401-435 | the page of the rows that the clause selects |
| Pagination.TaskAnswerMeans | internal/database/task_repository.go:386-449 | for any owner, status, limit and texts, the rows answered are tasks of that owner and status, in the asked column and direction (created_at and descending for texts that are not recognised), 20 of them for no limit and never more than 100; every other such row comes later and has-more says whether there is one; behind a row, by created_at and priority, the same for the rows after it; the next cursor is the last row's exactly when there is more |
| Pagination.ExecutionAnswerMeans | internal/database/task_execution_repository.go:381-447 | the same for the executions of any task and status, always by created_at |
| Pagination.AnswersFail | internal/database/task_repository.go:391-446 | a cursor that does not decode is refused first, then a failing query, a failing scan, and a failing encoding only when there is more |
| Pagination.ExecutionAnswersFail | internal/database/task_execution_repository.go:386-444 | the same for executions |
| Pagination.ListingIsWanted | internal/database/task_repository.go:386-449 | a listing of the matching rows holds exactly the rows with the requested owner and status, in the requested order |
| Pagination.PageIsWanted | internal/database/task_repository.go:401-435 | a page of the matching rows is the first rows of that listing after the position |
| Pagination.Repository.GetTasksCursor | internal/database/task_repository.go:386-578 | the answer is TasksResult, whose meaning is TaskAnswerMeans and AnswersFail |
| Pagination.Repository.GetExecutionsCursor | internal/database/task_execution_repository.go:381-582 | the same for executions, always by created_at: ExecutionAnswerMeans and ExecutionAnswersFail |
| Pagination.Repository.FollowTaskCursors | internal/database/task_repository.go:386-449 | on an unchanging table, for any owner, status, limit, order and field but name and updated_at, following cursors returns exactly the table's rows with that owner and status, each once, in the requested order, in PagesNeeded pages of the normalised size |
| Pagination.Repository.FollowExecutionCursors | internal/database/task_execution_repository.go:381-447 | the same for the executions of any task and status |
| Pagination.Repository.FetchAsWritten | internal/database/cursor.go:200-212 | bound by number as the text asks, the first page is the right one and every later query is refused |
| Pagination.Repository.FollowAsWritten | internal/database/task_repository.go:386-449 | as written, following cursors ends exactly when the rows with the requested owner and status fit one page, for every sort field, and then returns exactly these rows in the requested order |
| Pagination.Repository.FetchExecutionsAsWritten | internal/database/cursor.go:265-271 | the same for executions |
| Pagination.Repository.FollowExecutionsAsWritten | internal/database/task_execution_repository.go:381-447 | the same for executions |
| SortFieldTraversals.LosesNothingIff | internal/database/cursor.go:196-239 | the cursor of a stored row selects everything ordered after it if and only if the field is created_at, priority or updated_at ascending |
| SortFieldTraversals.RepeatsNothingIff | internal/database/cursor.go:196-239 | it selects nothing else if and only if the field is created_at, priority or updated_at descending |
| SortFieldTraversals.CursorFollowsOrderIff | internal/database/cursor.go:196-239 | so on stored rows the cursor condition is the order if and only if the field is created_at or priority |
| SortFieldTraversals.SelectsItselfIff | internal/database/cursor.go:221-225 | a stored row is selected by its own cursor exactly ascending by updated_at, when it was updated after its creation |
| SortFieldTraversals.AnswerIsPage | internal/database/task_repository.go:386-448 | for any owner and status, a request behind a row whose cursor decodes is answered with the page for that cursor |
| SortFieldTraversals.TraversalLosesRow | internal/database/cursor.go:221-232 | by name and descending by updated_at, any two stored rows of which the first one's cursor loses the second: requested one at a time, the second is never returned and the traversal ends |
| SortFieldTraversals.TraversalLoops | internal/database/cursor.go:221-225 | ascending by updated_at, any two stored rows of which the first was updated after its creation: the second page is the first one with the same cursor |
| SortFieldTraversals.LoopNeverFinishes | internal/database/cursor.go:221-225 | and no traversal of them ever ends |
| SortFieldTraversals.TraversalRepeatsRow | internal/database/cursor.go:227-232 | by name, three stored rows of which the second was created on the wrong side of both others: the second page returns the first row again |
| SortFieldTraversals.FinishedTraversalsReturnAllIff | internal/database/task_repository.go:386-449 | every finished traversal of every unchanging stored table returns every matching row if and only if the field is created_at, priority or updated_at ascending |
| SortFieldTraversals.TraversalsReturnOnceIff | internal/database/task_repository.go:386-449 | no traversal returns a row twice if and only if the field is created_at, priority or updated_at descending |
| Pagination.PagesNeededIsCeiling | internal/database/task_repository.go:428-435 | that number is max(1, ceil(n / limit)) |
| Pagination.StayingRowIsReturnedOnceByCursors | internal/database/task_repository.go:386-449 | while rows are inserted, deleted and edited between fetches, a row that matches throughout and keeps its sort columns is returned exactly once by a finished traversal |
| Pagination.AscendingIsDescendingReversed | internal/database/task_repository.go:734-757 | the ascending traversal is the descending one reversed |

## Left out

- Interleavings inside one transaction: transactions are serial; two witnesses show why that matters, no general theory of read-committed isolation is given.
- Database.Transaction.UpdateTaskStatus: the column updated_at, which it also sets, is not a column of the lifecycle model.
- Pagination.Repository.FollowTaskCursors: holds for one argument for each mention of a placeholder; what the numbered binding that the text asks for does instead is Pagination.Repository.FollowAsWritten.
- Pagination.Repository.FollowExecutionCursors: holds for one argument for each mention too; as written it is Pagination.Repository.FollowExecutionsAsWritten.
- Pagination.Repository.SelectPage: binds one argument for each mention.
- Pagination.Repository.GetExecutionsCursor: binds one argument for each mention; the three execution methods share it.
- Pagination.StayingRowIsReturnedOnceByCursors: holds for one argument for each mention; the sort fields updated_at and name are excluded, because their cursors do not follow their orders; what their traversals do on an unchanging table is SortFieldTraversals.
- Pagination.Repository.GetTasksCursor: binds one argument for each mention; the three task methods differ only in the filter they pass and share it.
- ContainerCleanup.CleanupManager.CleanupEach: whether a container can be removed is fixed during one call; a bulk cleanup tries each container once, so this restricts only lists that name one twice.
- ContainerCleanup.CleanupManager.MarkContainerStarted: entries are values in the map, so the sharing of one entry through pointers is not captured; the code hands out copies only.
- Executor.TaskExecutor.Execute: error texts of the daemon are opaque; the fallback for a missing result is kept although ExecuteOutcome shows it is never reached.
- LogDemux.DemultiplexLogs: sizes are integers of 64 bits or more; on a 32-bit platform the size could become negative.
- TaskExecutionHandler.Handler.Update: request parsing, the check of the status text and HTTP status codes are not modelled.
- UpdateExecutionAndTaskStatus: it has no status guards and no handler calls it, so it would void the lifecycle invariants.
- Task edits: of the columns they write only the status is modelled.
- Routing, CORS, headers, health checks, logging, authentication, user and configuration code: input and output, or easy members.
- The PostgreSQL driver, the Docker client and daemon, JSON and base64: only the contracts the code relies on appear (a cursor's text is an injective encoding; the database encoding is UTF-8).
- Script patterns, image lists, resource limits, offset pagination and the mock executor's canned results: constant tables and easy arithmetic.
- Real time, contexts and goroutines: time is an argument, the state of a context a value, concurrency any order of steps.
