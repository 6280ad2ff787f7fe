/** How the code as it is leaves the lifecycle invariant, and that such states are reached. */
module LifecycleWitnesses {
  import opened Models
  import opened Database
  import opened TaskExecutionService
  import opened TaskExecutionHandler
  import opened Lifecycle

  const EMPTY := Store(map[], map[], 0)

  ghost predicate TwoLiveExecutions(s: Store, t: Uuid) {
    exists e, x | e in s.executions && x in s.executions && e != x ::
      && s.executions[e].taskId == t && s.executions[x].taskId == t
      && s.executions[e].status.IsLive() && s.executions[x].status.IsLive()
  }

  /**
   * Whenever a running task has a timed-out older execution, cancelling that one and creating once
   * more leaves two live executions: Cancel resets the task to pending under the live one.
   */
  lemma CancellingAnOlderTimeoutDoublesExecutions(s: Store, e: Uuid, live: Uuid, user: Uuid, newId: Uuid)
    requires s.Valid() && OwnsExecution(s, e, user)
    requires s.executions[e].status.Timeout?
    requires live in s.executions && s.executions[live].taskId == s.executions[e].taskId
    requires s.executions[live].status.IsLive()
    requires newId !in s.executions
    ensures
      var t := s.executions[e].taskId;
      var cancelled := Apply(s, CancelExecution(e, user, NO_FAULTS));
      TwoLiveExecutions(Apply(cancelled, CreateExecution(t, user, newId, NO_FAULTS)), t)
  {
    var t := s.executions[e].taskId;
    var s1 := Cancel(s, e, user, NO_FAULTS).0;
    CancelIsAllOrNothing(s, e, user, NO_FAULTS);
    assert s1.executions[live] == s.executions[live];
    var s2 := Create(s1, t, user, newId, NO_FAULTS).0;
    CreateIsAllOrNothing(s1, t, user, newId, NO_FAULTS);
    assert newId in s2.executions && live in s2.executions && newId != live;
  }

  /**
   * Whenever the runner's unguarded write reaches an execution that was already cancelled while its
   * task is pending again, the next Create leaves two live executions.
   */
  lemma MarkingACancelledExecutionDoublesExecutions(s: Store, e: Uuid, user: Uuid, newId: Uuid)
    requires OwnsExecution(s, e, user)
    requires s.executions[e].status.Cancelled? && s.tasks[s.executions[e].taskId].status.Pending?
    requires newId !in s.executions
    ensures
      var t := s.executions[e].taskId;
      var marked := Apply(s, MarkRunning(e, false));
      TwoLiveExecutions(Apply(marked, CreateExecution(t, user, newId, NO_FAULTS)), t)
  {
    var t := s.executions[e].taskId;
    var s1 := MarkRunningStep(s, e, false);
    var s2 := Create(s1, t, user, newId, NO_FAULTS).0;
    CreateIsAllOrNothing(s1, t, user, newId, NO_FAULTS);
    assert newId in s2.executions && e in s2.executions && newId != e;
  }

  /**
   * A PUT without a status that read a live execution and writes after a Complete revives the completed
   * execution under its completed task. The same PUT, started after the Complete, is rejected.
   */
  lemma StalePutRevivesCompletion(s: Store, e: Uuid, req: UpdateRequest, user: Uuid, row: Execution)
    requires s.Valid() && OwnsExecution(s, e, user) && s.executions[e].status.IsLive()
    requires req.status.None? && ApplyExecutionUpdates(s.executions[e], req).results.Storable()
    requires row.id == e && row.status.Completed? && row.results.Storable()
    ensures
      var done := Complete(s, row, TaskStatus.Completed, user, NO_FAULTS).0;
      var stale := CarryOut(done, Decide(s, e, req, user, NO_FAULTS), user, NO_FAULTS);
      var retried := CarryOut(done, Decide(done, e, req, user, NO_FAULTS), user, NO_FAULTS);
      && done.executions[e].status.Completed?
      && stale.1.None? && stale.0.executions[e].status == s.executions[e].status
      && stale.0.tasks[s.executions[e].taskId].status.Completed?
      && retried == (done, Some(ServiceRejected(CannotComplete(ExecutionStatus.Completed))))
  {
  }

  /**
   * An edit of a task that read it pending and writes after a Create puts the task back to pending under the live
   * execution, and the next Create doubles it.
   */
  lemma StaleTaskPutDoublesExecutions(s: Store, t: Uuid, user: Uuid, a: Uuid, b: Uuid)
    requires s.Valid() && a != b && b !in s.executions
    requires t in s.tasks && s.tasks[t].status.Pending? && Create(s, t, user, a, NO_FAULTS).1.Ok?
    ensures
      var started := Apply(s, CreateExecution(t, user, a, NO_FAULTS));
      var edited := Apply(started, TaskPutWrite(t, s.tasks[t].status, user, false));
      TwoLiveExecutions(Apply(edited, CreateExecution(t, user, b, NO_FAULTS)), t)
  {
    var s1 := Create(s, t, user, a, NO_FAULTS).0;
    CreateIsAllOrNothing(s, t, user, a, NO_FAULTS);
    var s2 := TaskPutWriteStep(s1, t, TaskStatus.Pending, user, false);
    var s3 := Create(s2, t, user, b, NO_FAULTS).0;
    CreateIsAllOrNothing(s2, t, user, b, NO_FAULTS);
    assert a in s3.executions && b in s3.executions;
  }

  const TIMED_OUT := Execution(10, NIL_UUID, ExecutionStatus.Timeout, NO_RESULTS, 0)

  const TO_OLDER_TIMEOUT := [
    AddTask(1, 7), CreateExecution(1, 7, 10, NO_FAULTS),
    CompleteExecution(TIMED_OUT, TaskStatus.Timeout, 7, NO_FAULTS), CreateExecution(1, 7, 11, NO_FAULTS)]

  const TO_CANCELLED := [
    AddTask(1, 7), CreateExecution(1, 7, 10, NO_FAULTS), CancelExecution(10, 7, NO_FAULTS)]

  /** The premises of the two lemmas above are met by runs from the empty store. */
  lemma OlderTimeoutIsReachable()
    ensures
      var s := Run(EMPTY, TO_OLDER_TIMEOUT);
      && OwnsExecution(s, 10, 7) && s.executions[10].status.Timeout?
      && 11 in s.executions && s.executions[11].taskId == s.executions[10].taskId
      && s.executions[11].status.IsLive()
  {
    var s1 := Apply(EMPTY, TO_OLDER_TIMEOUT[0]);
    var s2 := Apply(s1, TO_OLDER_TIMEOUT[1]);
    var s3 := Apply(s2, TO_OLDER_TIMEOUT[2]);
    assert s3.tasks[1].status.Timeout?;
    var s4 := Apply(s3, TO_OLDER_TIMEOUT[3]);
    assert s4.executions[10].status.Timeout? && s4.executions[11].status.IsLive();
    RunStep(EMPTY, TO_OLDER_TIMEOUT, s1);
    RunStep(s1, TO_OLDER_TIMEOUT[1..], s2);
    RunStep(s2, TO_OLDER_TIMEOUT[1..][1..], s3);
    RunStep(s3, TO_OLDER_TIMEOUT[1..][1..][1..], s4);
  }

  lemma CancelledIsReachable()
    ensures
      var s := Run(EMPTY, TO_CANCELLED);
      && OwnsExecution(s, 10, 7)
      && s.executions[10].status.Cancelled? && s.tasks[s.executions[10].taskId].status.Pending?
  {
    var s1 := Apply(EMPTY, TO_CANCELLED[0]);
    var s2 := Apply(s1, TO_CANCELLED[1]);
    var s3 := Apply(s2, TO_CANCELLED[2]);
    assert s3.executions[10].status.Cancelled? && s3.tasks[1].status.Pending?;
    RunStep(EMPTY, TO_CANCELLED, s1);
    RunStep(s1, TO_CANCELLED[1..], s2);
    RunStep(s2, TO_CANCELLED[1..][1..], s3);
  }

  lemma RunStep(s: Store, steps: seq<Step>, s': Store)
    requires steps != [] && s' == Apply(s, steps[0])
    ensures Run(s, steps) == Run(s', steps[1..])
    ensures |steps| == 1 ==> Run(s, steps) == s'
  {
  }

  // ----- Why the transactions must be serial: the code takes no row locks -----

  /** The write half of a committing Create, applied to a store that changed since the reads. */
  function CreateWrites(s: Store, t: Uuid, newId: Uuid): Store
    requires t in s.tasks
  {
    s.InsertExecution(newId, t, ExecutionStatus.Pending, NO_RESULTS).SetTaskStatus(t, TaskStatus.Running)
  }

  function CancelWrites(s: Store, e: Uuid): Store
    requires OwnerTaskIn(s, e)
  {
    s.SetExecutionStatus(e, ExecutionStatus.Cancelled).SetTaskStatus(s.executions[e].taskId, TaskStatus.Pending)
  }

  predicate OwnerTaskIn(s: Store, e: Uuid) {
    e in s.executions && s.executions[e].taskId in s.tasks
  }

  /** Two Creates that both read before either writes double the execution; one after the other, they do not. */
  lemma UnserializedCreatesDoubleExecutions(s: Store, t: Uuid, user: Uuid, a: Uuid, b: Uuid)
    requires s.Valid() && a != b
    requires Create(s, t, user, a, NO_FAULTS).1.Ok? && Create(s, t, user, b, NO_FAULTS).1.Ok?
    ensures Create(s, t, user, a, NO_FAULTS).0 == CreateWrites(s, t, a)
    ensures TwoLiveExecutions(CreateWrites(CreateWrites(s, t, a), t, b), t)
    ensures Create(CreateWrites(s, t, a), t, user, b, NO_FAULTS) == (CreateWrites(s, t, a), Err(TaskAlreadyRunning))
  {
    var s2 := CreateWrites(CreateWrites(s, t, a), t, b);
    assert a in s2.executions && b in s2.executions;
  }

  /** A Cancel that read before a Complete wrote takes the completed status away again. */
  lemma UnserializedCancelErasesCompletion(s: Store, e: Uuid, user: Uuid, row: Execution)
    requires s.Valid() && row.id == e && row.status.Completed?
    requires Cancel(s, e, user, NO_FAULTS).1.None?
    requires Complete(s, row, TaskStatus.Completed, user, NO_FAULTS).1.None?
    ensures Cancel(s, e, user, NO_FAULTS).0 == CancelWrites(s, e)
    ensures
      var s1 := Complete(s, row, TaskStatus.Completed, user, NO_FAULTS).0;
      && Cancel(s1, e, user, NO_FAULTS) == (s1, Some(CannotCancel(ExecutionStatus.Completed)))
      && OwnerTaskIn(s1, e)
      && CancelWrites(s1, e).executions[e].status.Cancelled?
      && CancelWrites(s1, e).executions[e].results == row.results
      && CancelWrites(s1, e).tasks[s.executions[e].taskId].status.Pending?
  {
  }
}
