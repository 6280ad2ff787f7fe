/**
 * internal/services/task_executor_service.go: the runner. It creates the execution, runs the
 * container in the background and feeds the result back into the lifecycle.
 */
module TaskExecutorService {
  import opened Models
  import opened Database
  import opened TaskExecutionService
  import opened TaskExecutionHandler
  import opened Lifecycle
  import opened CompletionRace
  import opened ContainerCleanup
  import opened Executor

  /** The task status the runner pairs with a result; its fallback is not the handler's. */
  function TaskStatusFor(status: ExecutionStatus): TaskStatus {
    match status
    case Completed => TaskStatus.Completed
    case Failed => TaskStatus.Failed
    case Timeout => TaskStatus.Timeout
    case Cancelled => TaskStatus.Cancelled
    case _ => TaskStatus.Failed
  }

  /** The row the runner hands to Complete: no task id, no creation time. */
  function RowOf(e: Uuid, result: ExecutionResult): Execution {
    Execution(e, NIL_UUID, result.status, result.results, 0)
  }

  function RequestOf(task: Uuid, e: Uuid): Option<Request> {
    Some(Request(Some(task), Some(e)))
  }

  /** ExecuteTask on the two tables: Create, and a Cancel when the task cannot be read back. */
  function ExecuteTaskOn(s: Store, task: Uuid, user: Uuid, newId: Uuid, f: Faults, fetchFails: bool, undo: Faults)
    : (Store, Option<Execution>)
  {
    var (s1, r) := Create(s, task, user, newId, f);
    if r.Err? then (s1, None)
    else if fetchFails || task !in s1.tasks then (Cancel(s1, newId, user, undo).0, None)
    else (s1, Some(r.value))
  }

  /** What the end of the executor's call makes of the two tables; a panic ends the goroutine before that. */
  function StoreOutcome(s: Store, e: Uuid, o: Outcome, user: Uuid, f: Faults): Store {
    match o
    case Panicked => s
    case Returned(result, _) =>
      if result.None? then s
      else Complete(s, RowOf(e, result.value), TaskStatusFor(result.value.status), user, f).0
  }

  /** executeTaskAsync on the two tables when nothing comes in between. */
  function BackgroundRun(s: Store, task: Uuid, e: Uuid, user: Uuid, env: Environment, markFails: bool, f: Faults)
    : Store
  {
    StoreOutcome(MarkRunningStep(s, e, markFails), e, ExecuteOutcome(RequestOf(task, e), env), user, f)
  }

  /** The tracked map after the executor's call. */
  function TrackedAfterCall(m: Containers, task: Uuid, e: Uuid, env: Environment): Containers {
    if Accepted(RequestOf(task, e), env) then TrackedAfter(m, RequestOf(task, e).value, env) else m
  }

  class Runner {
    const service: Service
    const executor: TaskExecutor
    const cleanupManager: CleanupManager?

    constructor (service: Service, executor: TaskExecutor, cleanupManager: CleanupManager?)
      ensures this.service == service && this.executor == executor && this.cleanupManager == cleanupManager
    {
      this.service := service;
      this.executor := executor;
      this.cleanupManager := cleanupManager;
    }

    /** The manager, when there is one, is the executor's. */
    ghost predicate Wired() {
      && executor.manager.client == executor.client
      && (cleanupManager != null ==> cleanupManager == executor.manager)
    }

    method ExecuteTask(task: Uuid, user: Uuid, newId: Uuid, f: Faults, fetchFails: bool, undo: Faults)
      returns (started: Option<Execution>)
      modifies service.conn
      ensures (service.conn.store, started)
           == ExecuteTaskOn(old(service.conn.store), task, user, newId, f, fetchFails, undo)
    {
      var execution := service.CreateExecutionAndUpdateTaskStatus(task, user, newId, f);
      if execution.Err? {
        return None;
      }
      if fetchFails || task !in service.conn.store.tasks {
        var _ := service.CancelExecutionAndResetTaskStatus(execution.value.id, user, undo);
        return None;
      }
      return Some(execution.value);
    }

    /** updateExecutionStatus: no guard, no transaction. */
    method UpdateExecutionStatus(e: Uuid, fails: bool)
      modifies service.conn
      ensures service.conn.store == MarkRunningStep(old(service.conn.store), e, fails)
    {
      var conn := service.conn;
      if !fails && e in conn.store.executions {
        conn.store := conn.store.SetExecutionStatus(e, ExecutionStatus.Running);
      }
    }

    /** updateExecutionWithResults: a new row from the result, and the task status that goes with it. */
    method UpdateExecutionWithResults(e: Uuid, result: ExecutionResult, user: Uuid, f: Faults)
      returns (r: Option<ServiceError>)
      modifies service.conn
      ensures (service.conn.store, r)
           == Complete(old(service.conn.store), RowOf(e, result), TaskStatusFor(result.status), user, f)
    {
      var execution := Execution(e, NIL_UUID, result.status, result.results, 0);
      var taskStatus;
      match result.status {
        case Completed => taskStatus := TaskStatus.Completed;
        case Failed => taskStatus := TaskStatus.Failed;
        case Timeout => taskStatus := TaskStatus.Timeout;
        case Cancelled => taskStatus := TaskStatus.Cancelled;
        case _ => taskStatus := TaskStatus.Failed;
      }
      r := service.CompleteExecutionAndFinalizeTaskStatus(execution, taskStatus, user, f);
    }

    /**
     * The goroutine body. A panic ends it at once; otherwise the result is stored, and with a cleanup
     * manager only entries whose removal fails stay tracked for this execution.
     */
    method ExecuteTaskAsync(task: Uuid, e: Uuid, user: Uuid, env: Environment, markFails: bool, f: Faults)
      returns (panicked: bool)
      requires Wired()
      modifies service.conn, executor.manager, executor.client
      ensures service.conn.store == BackgroundRun(old(service.conn.store), task, e, user, env, markFails, f)
      ensures panicked <==> ExecuteOutcome(RequestOf(task, e), env).Panicked?
      ensures executor.client.unremovable == old(executor.client.unremovable)
      ensures
        var run := TrackedAfterCall(old(executor.manager.containers), task, e, env);
        var mine := Matching(run, (info: ContainerInfo) => info.executionId == e);
        executor.manager.containers
        == if panicked || cleanupManager == null then run else run - (mine - executor.client.unremovable)
    {
      UpdateExecutionStatus(e, markFails);
      var o := executor.Execute(RequestOf(task, e), env);
      if o.Panicked? {
        return true;
      }
      if o.failed && o.result.None? {
        o := Returned(Some(Rejection("Execution error")), true);
      }
      var err := UpdateExecutionWithResults(e, o.result.value, user, f);
      if cleanupManager != null {
        var lastErr := cleanupManager.CleanupExecution(e);
      }
      return false;
    }

    /** The containers are cleaned up first; the answer is the database's alone. */
    method CancelTaskExecution(e: Uuid, user: Uuid, f: Faults) returns (r: Option<ServiceError>)
      requires Wired()
      modifies service.conn, executor.manager, executor.client
      ensures (service.conn.store, r) == Cancel(old(service.conn.store), e, user, f)
      ensures
        var mine := Matching(old(executor.manager.containers), (info: ContainerInfo) => info.executionId == e);
        && executor.manager.containers == old(executor.manager.containers) - (mine - executor.client.unremovable)
        && executor.client.live == old(executor.client.live) - (mine - executor.client.unremovable)
      ensures executor.client.unremovable == old(executor.client.unremovable)
    {
      var failed := executor.Cancel(e);
      if cleanupManager != null {
        var lastErr := cleanupManager.CleanupExecution(e);
      }
      r := service.CancelExecutionAndResetTaskStatus(e, user, f);
    }
  }

  // ----- The mapping -----

  /** On what the executor returns, the runner and the PUT handler map alike and the pair agrees. */
  lemma RunnerMapsAsHandler(task: Uuid, e: Uuid, env: Environment)
    requires ExecuteOutcome(RequestOf(task, e), env).Returned?
    ensures
      var result := ExecuteOutcome(RequestOf(task, e), env).result;
      && result.Some?
      && TaskStatusFor(result.value.status) == FinalTaskStatus(result.value.status)
      && Agrees(TaskStatusFor(result.value.status), result.value.status)
  {
  }

  /** The two fallbacks, failed and pending, differ exactly on the live statuses, which no executor returns. */
  lemma FallbacksDifferIff(status: ExecutionStatus)
    ensures TaskStatusFor(status) != FinalTaskStatus(status) <==> status.Pending? || status.Running?
    ensures status.Pending? || status.Running? ==>
              TaskStatusFor(status) == TaskStatus.Failed && FinalTaskStatus(status) == TaskStatus.Pending
  {
  }

  // ----- Starting -----

  /**
   * A start answers with an execution if and only if the owner's task was pending or timed out, the id is new,
   * nothing failed and the task was read back. Then it is the new pending execution, as stored; the task is
   * running, and exactly this pair changed.
   */
  lemma StartedIff(s: Store, task: Uuid, user: Uuid, newId: Uuid, f: Faults, fetchFails: bool, undo: Faults)
    requires s.Valid()
    ensures
      var (s', started) := ExecuteTaskOn(s, task, user, newId, f, fetchFails, undo);
      && (started.Some? <==>
            && f.(readExecution := false) == NO_FAULTS && !fetchFails
            && task in s.tasks && s.tasks[task].owner == user && newId !in s.executions
            && s.tasks[task].status in {TaskStatus.Pending, TaskStatus.Timeout})
      && (started.Some? ==>
            && started.value == Execution(newId, task, ExecutionStatus.Pending, NO_RESULTS, s.clock)
            && newId in s'.executions && s'.executions[newId] == started.value
            && s'.tasks[task].status == TaskStatus.Running
            && OnlyThisPair(s, s', newId, task))
      && (Create(s, task, user, newId, f).1.Err? ==> s' == s)
  {
    CreateIsAllOrNothing(s, task, user, newId, f);
  }

  // ----- Undoing a start -----

  /**
   * When the task cannot be read back, the new execution is cancelled; the task row is what it was before if and
   * only if the task was pending, because a timed-out task comes back as pending.
   */
  lemma UndoneStartRestoresTaskIff(s: Store, task: Uuid, user: Uuid, newId: Uuid, f: Faults)
    requires s.Valid() && Create(s, task, user, newId, f).1.Ok?
    ensures
      var (s', started) := ExecuteTaskOn(s, task, user, newId, f, true, NO_FAULTS);
      && started.None?
      && OnlyThisPair(s, s', newId, task)
      && newId in s'.executions && s'.executions[newId].status == ExecutionStatus.Cancelled
      && (s'.tasks == s.tasks <==> s.tasks[task].status == TaskStatus.Pending)
  {
    CreateIsAllOrNothing(s, task, user, newId, f);
    var s1 := Create(s, task, user, newId, f).0;
    ApplyKeepsValid(s, CreateExecution(task, user, newId, f));
    CancelIsAllOrNothing(s1, newId, user, NO_FAULTS);
    var s' := ExecuteTaskOn(s, task, user, newId, f, true, NO_FAULTS).0;
    if s.tasks[task].status == TaskStatus.Pending {
      assert s'.tasks[task] == s.tasks[task];
    }
  }

  // ----- What a background run leaves -----

  predicate Settles(o: Outcome, f: Faults) {
    o.Returned? && o.result.Some? && o.result.value.results.Storable() && f == NO_FAULTS
  }

  /** The two rows after a run that found the execution live: settled by the outcome, or as live as before. */
  ghost predicate SettledBy(s: Store, s': Store, e: Uuid, v: Uuid, o: Outcome, f: Faults)
    requires OwnsExecution(s, e, v)
  {
    var t := s.executions[e].taskId;
    && OnlyThisPair(s, s', e, t)
    && OwnsExecution(s', e, v)
    && (s'.executions[e].status.IsTerminal() <==> Settles(o, f))
    && (Settles(o, f) ==>
          && s'.executions[e].status == o.result.value.status
          && s'.executions[e].results == o.result.value.results
          && s'.tasks[t].status == TaskStatusFor(o.result.value.status))
    && (!Settles(o, f) ==> s'.executions[e].status.IsLive() && s'.tasks[t].status.Running?)
    && Agrees(s'.tasks[t].status, s'.executions[e].status)
  }

  lemma {:induction false} OutcomeSettlesIff(s: Store, e: Uuid, v: Uuid, o: Outcome, f: Faults)
    requires s.Valid() && OwnsExecution(s, e, v)
    requires s.executions[e].status.IsLive() && s.tasks[s.executions[e].taskId].status.Running?
    requires o.Returned? && o.result.Some? ==> o.result.value.status.IsTerminal()
    ensures SettledBy(s, StoreOutcome(s, e, o, v, f), e, v, o, f)
  {
    if o.Returned? && o.result.Some? {
      CompleteIsAllOrNothing(s, RowOf(e, o.result.value), TaskStatusFor(o.result.value.status), v, f);
    }
  }

  /**
   * Main result: an undisturbed background run settles its execution if and only if the executor does not panic,
   * no fault stops the write and the results can be stored. Then both rows hold the executor's result; otherwise
   * the execution stays live and its task running.
   */
  lemma {:induction false} BackgroundRunSettlesIff(
      s: Store, task: Uuid, e: Uuid, v: Uuid, env: Environment, markFails: bool, f: Faults)
    requires s.Valid() && OwnsExecution(s, e, v)
    requires s.executions[e].status.IsLive() && s.tasks[s.executions[e].taskId].status.Running?
    ensures SettledBy(s, BackgroundRun(s, task, e, v, env, markFails, f), e, v,
                      ExecuteOutcome(RequestOf(task, e), env), f)
  {
    ApplyKeepsValid(s, MarkRunning(e, markFails));
    OutcomeSettlesIff(MarkRunningStep(s, e, markFails), e, v, ExecuteOutcome(RequestOf(task, e), env), f);
  }

  /** A run that settles nothing leaves its execution running if it was marked, and everything else as it was. */
  lemma {:induction false} UnsettledRunOnlyMarks(
      s: Store, task: Uuid, e: Uuid, v: Uuid, env: Environment, markFails: bool, f: Faults)
    requires s.Valid() && OwnsExecution(s, e, v)
    requires s.executions[e].status.IsLive() && !Settles(ExecuteOutcome(RequestOf(task, e), env), f)
    ensures
      var s', x := BackgroundRun(s, task, e, v, env, markFails, f), s.executions[e];
      && s'.tasks == s.tasks
      && s'.executions == s.executions[e := if markFails then x else x.(status := ExecutionStatus.Running)]
  {
    var marked, o := MarkRunningStep(s, e, markFails), ExecuteOutcome(RequestOf(task, e), env);
    ApplyKeepsValid(s, MarkRunning(e, markFails));
    if o.Returned? && o.result.Some? {
      CompleteIsAllOrNothing(marked, RowOf(e, o.result.value), TaskStatusFor(o.result.value.status), v, f);
    }
  }

  /**
   * What a finished goroutine leaves tracked: of its own execution at most containers that cannot be removed, of
   * other executions what was there.
   */
  lemma {:induction false} FinishedRunTracks(
      m: Containers, task: Uuid, e: Uuid, env: Environment, unremovable: set<ContainerId>)
    ensures
      var run := TrackedAfterCall(m, task, e, env);
      var after := run - (Matching(run, (info: ContainerInfo) => info.executionId == e) - unremovable);
      && (forall x <- after :: x in m || (env.created == Some(x) && Validated(env)))
      && (forall x <- after | after[x].executionId == e :: x in unremovable)
      && (forall x <- m :: x in after <==> m[x].executionId != e || x in unremovable)
      && (forall x <- m | m[x].executionId != e && env.created != Some(x) :: after[x] == m[x])
  {
    if Accepted(RequestOf(task, e), env) && env.created.Some? {
      if env.created.value in m {
        RunKeepsEntries(m, RequestOf(task, e).value, env);
      } else {
        RunLeavesItsEntryIff(m, RequestOf(task, e).value, env);
      }
    }
  }

  /**
   * The goroutine hands one context to the executor and to its database calls, so a context that was cancelled
   * during the run lets no transaction begin. (The executor's own timeout is a context derived from it.)
   */
  predicate SameContext(env: Environment, f: Faults) {
    env.context.Canceled? ==> f.begin
  }

  /** The Docker client wraps other errors; it never returns the executor's timeout or cancellation error. */
  predicate FromDocker(env: Environment) {
    env.wait.WaitFailed? ==> env.wait.error.OtherError?
  }

  /** A run whose context is cancelled never settles its execution: both rows stay live. */
  lemma {:induction false} CancelledRunNeverSettles(
      s: Store, task: Uuid, e: Uuid, v: Uuid, env: Environment, markFails: bool, f: Faults)
    requires s.Valid() && OwnsExecution(s, e, v)
    requires s.executions[e].status.IsLive() && s.tasks[s.executions[e].taskId].status.Running?
    requires SameContext(env, f) && env.context.Canceled?
    ensures
      var s' := BackgroundRun(s, task, e, v, env, markFails, f);
      && OwnsExecution(s', e, v)
      && s'.executions[e].status.IsLive() && s'.tasks[s.executions[e].taskId].status.Running?
  {
    BackgroundRunSettlesIff(s, task, e, v, env, markFails, f);
  }

  /** So the status "cancelled" of a result, which only a cancelled context gives, is never stored by the runner. */
  lemma CancelledResultIsNeverStored(task: Uuid, e: Uuid, env: Environment, f: Faults)
    requires FromDocker(env) && SameContext(env, f)
    requires ExecuteOutcome(RequestOf(task, e), env).Returned?
    ensures
      var o := ExecuteOutcome(RequestOf(task, e), env);
      o.result.value.status.Cancelled? ==> env.context.Canceled? && !Settles(o, f)
  {
  }

  // ----- A background run among the owner's cancellations -----

  /** The completion step that a run of execution e ends with. */
  function Completion(e: Uuid, v: Uuid, result: ExecutionResult, f: Faults): Step {
    CompleteExecution(RowOf(e, result), TaskStatusFor(result.status), v, f)
  }

  lemma {:induction false} RunAppend(s: Store, xs: seq<Step>, ys: seq<Step>)
    ensures Run(s, xs + ys) == Run(Run(s, xs), ys)
    decreases |xs|
  {
    if xs == [] {
      assert xs + ys == ys;
    } else {
      assert (xs + ys)[1..] == xs[1..] + ys;
      RunAppend(Apply(s, xs[0]), xs[1..], ys);
    }
  }

  /** Of the owner's calls for e, the run has only cancellations. */
  predicate OnlyCancels(s: Store, steps: seq<Step>, e: Uuid, v: Uuid) {
    OnlyTheseSteps(s, steps, e, v) && Completions(steps, e, v) == 0
  }

  predicate HasViable(steps: seq<Step>, e: Uuid, v: Uuid) {
    FirstViable(steps, e, v) < |steps|
  }

  /** Cancellations of an execution that is neither completed, failed nor cancelled. */
  lemma CancelsDecide(s: Store, steps: seq<Step>, e: Uuid, v: Uuid, p: Pair)
    requires s.Valid() && PairIs(s, e, v, p) && !Decisive(p.execution) && OnlyCancels(s, steps, e, v)
    ensures PairIs(Run(s, steps), e, v, if HasViable(steps, e, v) then CancelledPair(p) else p)
  {
    OnlyCancelsLeft(s, steps, e, v, p, 0);
  }

  /** Cancellations of an execution that is. */
  lemma CancelsComeTooLate(s: Store, steps: seq<Step>, e: Uuid, v: Uuid, p: Pair)
    requires s.Valid() && PairIs(s, e, v, p) && Decisive(p.execution) && OnlyCancels(s, steps, e, v)
    ensures PairIs(Run(s, steps), e, v, p)
  {
    DecidedStays(s, steps, e, v, p, 0);
  }

  /** What the result does to the pair it meets: nothing to a cancelled one, and only if it can be stored. */
  function AfterResult(p: Pair, o: Outcome, f: Faults): Pair
    requires o.Returned? && o.result.Some?
  {
    if Completable(p.execution) && Settles(o, f)
    then Pair(o.result.value.status, TaskStatusFor(o.result.value.status), o.result.value.results)
    else p
  }

  lemma ResultDecides(s: Store, e: Uuid, v: Uuid, p: Pair, o: Outcome, f: Faults)
    requires s.Valid() && PairIs(s, e, v, p) && o.Returned? && o.result.Some?
    ensures
      var s' := Apply(s, Completion(e, v, o.result.value, f));
      s'.Valid() && PairIs(s', e, v, AfterResult(p, o, f))
  {
    var step := Completion(e, v, o.result.value, f);
    ApplyKeepsValid(s, step);
    ContenderEffect(s, step, e, v, p);
  }

  lemma CancelsAfter(s: Store, steps: seq<Step>, e: Uuid, v: Uuid, p: Pair)
    requires s.Valid() && PairIs(s, e, v, p) && OnlyCancels(s, steps, e, v)
    ensures Run(s, steps).Valid() && PairIs(Run(s, steps), e, v, AfterCancels(p, HasViable(steps, e, v)))
  {
    RunKeepsValid(s, steps);
    if Decisive(p.execution) {
      CancelsComeTooLate(s, steps, e, v, p);
    } else {
      CancelsDecide(s, steps, e, v, p);
    }
  }

  /** What the mark makes of the pair: running, whatever it was, unless the write fails. */
  function AfterMark(p: Pair, fails: bool): Pair {
    if fails then p else p.(execution := ExecutionStatus.Running)
  }

  lemma MarkDecides(s: Store, e: Uuid, v: Uuid, p: Pair, fails: bool)
    requires s.Valid() && PairIs(s, e, v, p)
    ensures
      var s' := Apply(s, MarkRunning(e, fails));
      s'.Valid() && PairIs(s', e, v, AfterMark(p, fails))
  {
    ApplyKeepsValid(s, MarkRunning(e, fails));
  }

  /** What cancellations make of the pair, when there is a viable one among them. */
  function AfterCancels(p: Pair, viable: bool): Pair {
    if viable && !Decisive(p.execution) then CancelledPair(p) else p
  }

  /** The pair that a run of the runner leaves, cancelled or not before the mark, before the result and after it. */
  function FinalPair(p: Pair, early: bool, markFails: bool, before: bool, o: Outcome, f: Faults, after: bool): Pair
    requires o.Returned? && o.result.Some?
  {
    var met := AfterMark(AfterCancels(p, early), markFails);
    AfterCancels(AfterResult(AfterCancels(met, before), o, f), after)
  }

  /** The steps of executeTaskAsync among the requests that come in between. */
  function RunnerSteps(
    early: seq<Step>, before: seq<Step>, after: seq<Step>, e: Uuid, v: Uuid, markFails: bool, result: ExecutionResult,
    f: Faults): seq<Step>
  {
    early + [MarkRunning(e, markFails)] + before + [Completion(e, v, result, f)] + after
  }

  lemma RunInFive(s: Store, early: seq<Step>, mark: Step, before: seq<Step>, done: Step, after: seq<Step>)
    ensures
      var marked := Apply(Run(s, early), mark);
      Run(s, early + [mark] + before + [done] + after) == Run(Apply(Run(marked, before), done), after)
  {
    var marked := Apply(Run(s, early), mark);
    RunAppend(s, early + [mark] + before + [done], after);
    RunAppend(s, early + [mark] + before, [done]);
    RunAppend(s, early + [mark], before);
    RunAppend(s, early, [mark]);
    RunOfOne(Run(s, early), mark);
    RunOfOne(Run(marked, before), done);
  }

  lemma RunOfOne(s: Store, step: Step)
    ensures Run(s, [step]) == Apply(s, step)
  {
    assert [step][1..] == [];
    assert Run(s, [step]) == Run(Apply(s, step), []);
  }

  /**
   * Main result: a live execution goes through the runner, which marks it running and later writes its result,
   * while its owner cancels any number of times before the mark, between the two and after the result, and
   * sends any requests about other tasks. The two rows end as FinalPair; RunnerOutcomes says what that is.
   */
  lemma {:induction false} RunnerAgainstCancels(
      s: Store, early: seq<Step>, before: seq<Step>, after: seq<Step>, task: Uuid, e: Uuid, v: Uuid,
      env: Environment, markFails: bool, f: Faults, p: Pair)
    requires s.Valid() && PairIs(s, e, v, p) && p.execution.IsLive()
    requires ExecuteOutcome(RequestOf(task, e), env).Returned?
    requires
      var marked := Apply(Run(s, early), MarkRunning(e, markFails));
      var done := Apply(Run(marked, before), Completion(e, v, ExecuteOutcome(RequestOf(task, e), env).result.value, f));
      OnlyCancels(s, early, e, v) && OnlyCancels(marked, before, e, v) && OnlyCancels(done, after, e, v)
    ensures
      var o := ExecuteOutcome(RequestOf(task, e), env);
      PairIs(Run(s, RunnerSteps(early, before, after, e, v, markFails, o.result.value, f)), e, v,
             FinalPair(p, HasViable(early, e, v), markFails, HasViable(before, e, v), o, f, HasViable(after, e, v)))
  {
    var o := ExecuteOutcome(RequestOf(task, e), env);
    var mark, completion := MarkRunning(e, markFails), Completion(e, v, o.result.value, f);
    RunInFive(s, early, mark, before, completion, after);
    var p1 := AfterCancels(p, HasViable(early, e, v));
    var p2 := AfterMark(p1, markFails);
    var p3 := AfterCancels(p2, HasViable(before, e, v));
    CancelsAfter(s, early, e, v, p);
    MarkDecides(Run(s, early), e, v, p1, markFails);
    var marked := Apply(Run(s, early), mark);
    CancelsAfter(marked, before, e, v, p2);
    ResultDecides(Run(marked, before), e, v, p3, o, f);
    CancelsAfter(Apply(Run(marked, before), completion), after, e, v, AfterResult(p3, o, f));
  }

  /**
   * A cancellation before the result stands exactly when it comes after the mark, or the mark fails: then the
   * result is lost. Else a result that can be stored wins, except that a timeout gives way to a later
   * cancellation, which keeps its output; else a later cancellation wins; else the execution stays as the mark
   * left it, running even where its task is pending again because of a cancellation that came too early.
   */
  lemma RunnerOutcomes(p: Pair, early: bool, markFails: bool, before: bool, o: Outcome, f: Faults, after: bool)
    requires p.execution.IsLive() && o.Returned? && o.result.Some? && o.result.value.status.IsTerminal()
    ensures
      var result := o.result.value;
      var end := FinalPair(p, early, markFails, before, o, f, after);
      end == if before || (early && markFails) then CancelledPair(p)
             else if Settles(o, f) then
               if result.status.Timeout? && after
               then Pair(ExecutionStatus.Cancelled, TaskStatus.Pending, result.results)
               else Pair(result.status, TaskStatusFor(result.status), result.results)
             else if after then CancelledPair(p)
             else if markFails then p
             else Pair(ExecutionStatus.Running, if early then TaskStatus.Pending else p.task, p.results)
  {
  }

  /** A run whose execution is still the newest keeps the lifecycle invariant when it writes. */
  lemma RunnerAimsAtNewest(s: Store, task: Uuid, e: Uuid, v: Uuid, env: Environment, f: Faults)
    requires s.Valid() && TasksAgree(s) && e in s.executions && IsNewest(s, e)
    requires ExecuteOutcome(RequestOf(task, e), env).Returned?
    ensures
      var step := Completion(e, v, ExecuteOutcome(RequestOf(task, e), env).result.value, f);
      AimsAtNewest(s, step) && TasksAgree(Apply(s, step))
  {
    var result := ExecuteOutcome(RequestOf(task, e), env).result.value;
    StepKeepsAgreementIff(s, Completion(e, v, result, f));
  }
}
