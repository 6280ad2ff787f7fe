/**
 * internal/services/task_execution_service.go: the three transactional service methods. Each is
 * an imperative method over a transaction, proved against a function from stores to stores; the
 * runs, invariants and races are stated about those functions.
 */
module TaskExecutionService {
  import opened Models
  import opened Database

  /** One constructor per error the closures return. */
  datatype ServiceError =
    | TaskNotFound
    | GetTaskFailed
    | GetExecutionFailed
    | AccessDenied
    | TaskAlreadyRunning
    | CannotExecute(taskStatus: TaskStatus)
    | CannotCancel(executionStatus: ExecutionStatus)
    | CannotComplete(executionStatus: ExecutionStatus)
    | CreateExecutionFailed
    | UpdateExecutionFailed
    | UpdateTaskFailed
    | TransactionFailed

  // ----- The guards -----

  /** The task statuses from which an execution may be created. */
  predicate Executable(status: TaskStatus) {
    status.Pending? || status.Timeout?
  }

  predicate Cancellable(status: ExecutionStatus) {
    !status.Completed? && !status.Failed? && !status.Cancelled?
  }

  predicate Completable(status: ExecutionStatus) {
    !status.Completed? && !status.Cancelled?
  }

  predicate OwnsExecution(s: Store, e: Uuid, user: Uuid) {
    && e in s.executions
    && s.executions[e].taskId in s.tasks
    && s.tasks[s.executions[e].taskId].owner == user
  }

  // ----- The specification functions -----

  function Create(s: Store, taskId: Uuid, user: Uuid, newId: Uuid, f: Faults)
    : (Store, Result<Execution, ServiceError>)
  {
    if f.begin then (s, Err(TransactionFailed))
    else if f.readTask then (s, Err(GetTaskFailed))
    else if taskId !in s.tasks then (s, Err(TaskNotFound))
    else
      var task := s.tasks[taskId];
      if task.owner != user then (s, Err(AccessDenied))
      else if task.status.Running? then (s, Err(TaskAlreadyRunning))
      else if !Executable(task.status) then (s, Err(CannotExecute(task.status)))
      else if f.writeExecution || newId in s.executions then (s, Err(CreateExecutionFailed))
      else if f.writeTask then (s, Err(UpdateTaskFailed))
      else if f.commit then (s, Err(TransactionFailed))
      else
        var s' := s.InsertExecution(newId, taskId, ExecutionStatus.Pending, NO_RESULTS)
                   .SetTaskStatus(taskId, TaskStatus.Running);
        (s', Ok(s'.executions[newId]))
  }

  function Cancel(s: Store, e: Uuid, user: Uuid, f: Faults): (Store, Option<ServiceError>) {
    if f.begin then (s, Some(TransactionFailed))
    else if f.readExecution || e !in s.executions then (s, Some(GetExecutionFailed))
    else
      var x := s.executions[e];
      if f.readTask || x.taskId !in s.tasks then (s, Some(GetTaskFailed))
      else if s.tasks[x.taskId].owner != user then (s, Some(AccessDenied))
      else if !Cancellable(x.status) then (s, Some(CannotCancel(x.status)))
      else if f.writeExecution then (s, Some(UpdateExecutionFailed))
      else if f.writeTask then (s, Some(UpdateTaskFailed))
      else if f.commit then (s, Some(TransactionFailed))
      else (s.SetExecutionStatus(e, ExecutionStatus.Cancelled).SetTaskStatus(x.taskId, TaskStatus.Pending), None)
  }

  /** `row` is the caller's execution: its id and result columns count, its task id does not. */
  function Complete(s: Store, row: Execution, taskStatus: TaskStatus, user: Uuid, f: Faults)
    : (Store, Option<ServiceError>)
  {
    if f.begin then (s, Some(TransactionFailed))
    else if f.readExecution || row.id !in s.executions then (s, Some(GetExecutionFailed))
    else
      var x := s.executions[row.id];
      if f.readTask || x.taskId !in s.tasks then (s, Some(GetTaskFailed))
      else if s.tasks[x.taskId].owner != user then (s, Some(AccessDenied))
      else if !Completable(x.status) then (s, Some(CannotComplete(x.status)))
      else if f.writeExecution || !row.results.Storable() then (s, Some(UpdateExecutionFailed))
      else if f.writeTask then (s, Some(UpdateTaskFailed))
      else if f.commit then (s, Some(TransactionFailed))
      else (s.SetExecutionRow(row.id, row.status, row.results).SetTaskStatus(x.taskId, taskStatus), None)
  }

  // ----- The methods -----

  class Service {
    const conn: Connection

    constructor (conn: Connection)
      ensures this.conn == conn
    {
      this.conn := conn;
    }

    method CreateExecutionAndUpdateTaskStatus(taskId: Uuid, user: Uuid, newId: Uuid, f: Faults)
      returns (r: Result<Execution, ServiceError>)
      modifies conn
      ensures (conn.store, r) == Create(old(conn.store), taskId, user, newId, f)
      ensures r.Err? ==> conn.store == old(conn.store)
    {
      var tx := conn.BeginTx(f.begin);
      if tx == null {
        return Err(TransactionFailed);
      }
      r := CreateInTx(tx, taskId, user, newId, f);
      if r.Ok? {
        var committed := tx.Commit(f.commit);
        if !committed {
          r := Err(TransactionFailed);
        }
      }
      tx.Rollback();
    }

    /** The closure of CreateExecutionAndUpdateTaskStatus. */
    method CreateInTx(tx: Transaction, taskId: Uuid, user: Uuid, newId: Uuid, f: Faults)
      returns (r: Result<Execution, ServiceError>)
      requires !tx.closed
      modifies tx`work
      ensures r.Ok? ==> tx.work == Create(old(tx.work), taskId, user, newId, f.(begin := false, commit := false)).0
      ensures r == Create(old(tx.work), taskId, user, newId, f.(begin := false, commit := false)).1
    {
      var task := tx.GetTask(taskId, f.readTask);
      if task.Err? {
        return Err(if task.error.NotFound? then TaskNotFound else GetTaskFailed);
      }
      if task.value.owner != user {
        return Err(AccessDenied);
      }
      if task.value.status.Running? {
        return Err(TaskAlreadyRunning);
      }
      if task.value.status.Completed? || task.value.status.Failed? || task.value.status.Cancelled? {
        return Err(CannotExecute(task.value.status));
      }
      var execution := Execution(newId, taskId, ExecutionStatus.Pending, NO_RESULTS, 0);
      var created := tx.CreateExecution(execution, f.writeExecution);
      if created.Err? {
        return Err(CreateExecutionFailed);
      }
      execution := created.value;
      var updated := tx.UpdateTaskStatus(taskId, TaskStatus.Running, f.writeTask);
      if updated.Some? {
        return Err(UpdateTaskFailed);
      }
      return Ok(execution);
    }

    method CancelExecutionAndResetTaskStatus(e: Uuid, user: Uuid, f: Faults) returns (r: Option<ServiceError>)
      modifies conn
      ensures (conn.store, r) == Cancel(old(conn.store), e, user, f)
      ensures r.Some? ==> conn.store == old(conn.store)
    {
      var tx := conn.BeginTx(f.begin);
      if tx == null {
        return Some(TransactionFailed);
      }
      r := CancelInTx(tx, e, user, f);
      if r.None? {
        var committed := tx.Commit(f.commit);
        if !committed {
          r := Some(TransactionFailed);
        }
      }
      tx.Rollback();
    }

    /** The closure of CancelExecutionAndResetTaskStatus. */
    method CancelInTx(tx: Transaction, e: Uuid, user: Uuid, f: Faults) returns (r: Option<ServiceError>)
      requires !tx.closed
      modifies tx`work
      ensures r.None? ==> tx.work == Cancel(old(tx.work), e, user, f.(begin := false, commit := false)).0
      ensures r == Cancel(old(tx.work), e, user, f.(begin := false, commit := false)).1
    {
      var execution := tx.GetExecution(e, f.readExecution);
      if execution.Err? {
        return Some(GetExecutionFailed);
      }
      var task := tx.GetTask(execution.value.taskId, f.readTask);
      if task.Err? {
        return Some(GetTaskFailed);
      }
      if task.value.owner != user {
        return Some(AccessDenied);
      }
      var status := execution.value.status;
      if status.Completed? || status.Failed? || status.Cancelled? {
        return Some(CannotCancel(status));
      }
      var updated := tx.UpdateExecutionStatus(e, ExecutionStatus.Cancelled, f.writeExecution);
      if updated.Some? {
        return Some(UpdateExecutionFailed);
      }
      updated := tx.UpdateTaskStatus(execution.value.taskId, TaskStatus.Pending, f.writeTask);
      if updated.Some? {
        return Some(UpdateTaskFailed);
      }
      return None;
    }

    method CompleteExecutionAndFinalizeTaskStatus(row: Execution, taskStatus: TaskStatus, user: Uuid, f: Faults)
      returns (r: Option<ServiceError>)
      modifies conn
      ensures (conn.store, r) == Complete(old(conn.store), row, taskStatus, user, f)
      ensures r.Some? ==> conn.store == old(conn.store)
    {
      var tx := conn.BeginTx(f.begin);
      if tx == null {
        return Some(TransactionFailed);
      }
      r := CompleteInTx(tx, row, taskStatus, user, f);
      if r.None? {
        var committed := tx.Commit(f.commit);
        if !committed {
          r := Some(TransactionFailed);
        }
      }
      tx.Rollback();
    }

    /** The closure of CompleteExecutionAndFinalizeTaskStatus. */
    method CompleteInTx(tx: Transaction, row: Execution, taskStatus: TaskStatus, user: Uuid, f: Faults)
      returns (r: Option<ServiceError>)
      requires !tx.closed
      modifies tx`work
      ensures r.None? ==>
                tx.work == Complete(old(tx.work), row, taskStatus, user, f.(begin := false, commit := false)).0
      ensures r == Complete(old(tx.work), row, taskStatus, user, f.(begin := false, commit := false)).1
    {
      var existing := tx.GetExecution(row.id, f.readExecution);
      if existing.Err? {
        return Some(GetExecutionFailed);
      }
      var task := tx.GetTask(existing.value.taskId, f.readTask);
      if task.Err? {
        return Some(GetTaskFailed);
      }
      if task.value.owner != user {
        return Some(AccessDenied);
      }
      var status := existing.value.status;
      if status.Completed? || status.Cancelled? {
        return Some(CannotComplete(status));
      }
      var updated := tx.UpdateExecution(row, f.writeExecution);
      if updated.Some? {
        return Some(UpdateExecutionFailed);
      }
      updated := tx.UpdateTaskStatus(existing.value.taskId, taskStatus, f.writeTask);
      if updated.Some? {
        return Some(UpdateTaskFailed);
      }
      return None;
    }
  }

  // ----- What one call commits -----

  /** Every row but execution `e` and task `t` is the same in both stores. */
  ghost predicate OnlyThisPair(s: Store, s': Store, e: Uuid, t: Uuid) {
    && (forall x :: x != e ==> (x in s.executions <==> x in s'.executions))
    && (forall x :: x != e && x in s.executions ==> s'.executions[x] == s.executions[x])
    && (forall u :: u in s.tasks <==> u in s'.tasks)
    && (forall u :: u != t && u in s.tasks ==> s'.tasks[u] == s.tasks[u])
    && (t in s.tasks ==> s'.tasks[t].owner == s.tasks[t].owner)
  }

  /**
   * Create commits exactly when nothing fails, the caller owns the task, the id is new and the task
   * is pending or timed out; then both rows are written, and otherwise neither is.
   */
  lemma CreateIsAllOrNothing(s: Store, t: Uuid, user: Uuid, newId: Uuid, f: Faults)
    ensures
      var (s', r) := Create(s, t, user, newId, f);
      && (r.Ok? <==>
            && f.(readExecution := false) == NO_FAULTS
            && t in s.tasks && s.tasks[t].owner == user && newId !in s.executions
            && s.tasks[t].status in {TaskStatus.Pending, TaskStatus.Timeout})
      && (r.Err? ==> s' == s)
      && (r.Ok? ==>
            && OnlyThisPair(s, s', newId, t)
            && newId in s'.executions && s'.executions[newId] == r.value
            && r.value == Execution(newId, t, ExecutionStatus.Pending, NO_RESULTS, s.clock)
            && s'.tasks[t].status == TaskStatus.Running)
  {
  }

  /** Cancel commits exactly on pending, running and timed-out executions of the caller's tasks. */
  lemma CancelIsAllOrNothing(s: Store, e: Uuid, user: Uuid, f: Faults)
    requires s.Valid()
    ensures
      var (s', r) := Cancel(s, e, user, f);
      && (r.None? <==>
            && f == NO_FAULTS && OwnsExecution(s, e, user)
            && s.executions[e].status in {ExecutionStatus.Pending, ExecutionStatus.Running, ExecutionStatus.Timeout})
      && (r.Some? ==> s' == s)
      && (r.None? ==>
            && OnlyThisPair(s, s', e, s.executions[e].taskId)
            && e in s'.executions
            && s'.executions[e] == s.executions[e].(status := ExecutionStatus.Cancelled)
            && s'.tasks[s.executions[e].taskId].status == TaskStatus.Pending)
  {
  }

  /**
   * Complete commits exactly on pending, running, failed and timed-out executions of the caller's
   * tasks whose new results pass the CHECK constraints; the row keeps its id, task and creation time.
   */
  lemma CompleteIsAllOrNothing(s: Store, row: Execution, taskStatus: TaskStatus, user: Uuid, f: Faults)
    requires s.Valid()
    ensures
      var (s', r) := Complete(s, row, taskStatus, user, f);
      && (r.None? <==>
            && f == NO_FAULTS && OwnsExecution(s, row.id, user) && row.results.Storable()
            && s.executions[row.id].status !in {ExecutionStatus.Completed, ExecutionStatus.Cancelled})
      && (r.Some? ==> s' == s)
      && (r.None? ==>
            && OnlyThisPair(s, s', row.id, s.executions[row.id].taskId)
            && row.id in s'.executions
            && s'.executions[row.id] == Execution(row.id, s.executions[row.id].taskId, row.status, row.results,
                                                  s.executions[row.id].createdAt)
            && s'.tasks[s.executions[row.id].taskId].status == taskStatus)
  {
  }

  // ----- How a call is refused -----

  /** The answers of Create, each with the exact input that gets it; the first obstacle decides. */
  lemma CreateAnswers(s: Store, t: Uuid, user: Uuid, newId: Uuid, f: Faults)
    ensures
      var r := Create(s, t, user, newId, f).1;
      var readable := !f.begin && !f.readTask && t in s.tasks;
      var own := readable && s.tasks[t].owner == user;
      var open := own && s.tasks[t].status in {TaskStatus.Pending, TaskStatus.Timeout};
      && (r == Err(GetTaskFailed) <==> !f.begin && f.readTask)
      && (r == Err(TaskNotFound) <==> !f.begin && !f.readTask && t !in s.tasks)
      && (r == Err(AccessDenied) <==> readable && s.tasks[t].owner != user)
      && (r == Err(TaskAlreadyRunning) <==> own && s.tasks[t].status == TaskStatus.Running)
      && (own && s.tasks[t].status in {TaskStatus.Completed, TaskStatus.Failed, TaskStatus.Cancelled}
          <==> r.Err? && r.error.CannotExecute?)
      && (r.Err? && r.error.CannotExecute? ==> r.error.taskStatus == s.tasks[t].status)
      && (r == Err(CreateExecutionFailed) <==> open && (f.writeExecution || newId in s.executions))
      && (r == Err(UpdateTaskFailed) <==> open && !f.writeExecution && newId !in s.executions && f.writeTask)
      && (r == Err(TransactionFailed) <==>
            || f.begin
            || (open && !f.writeExecution && newId !in s.executions && !f.writeTask && f.commit))
  {
  }

  /** The answers of Cancel. */
  lemma CancelAnswers(s: Store, e: Uuid, user: Uuid, f: Faults)
    requires s.Valid()
    ensures
      var r := Cancel(s, e, user, f).1;
      var found := !f.begin && !f.readExecution && e in s.executions && !f.readTask;
      var own := found && OwnsExecution(s, e, user);
      var final := {ExecutionStatus.Completed, ExecutionStatus.Failed, ExecutionStatus.Cancelled};
      var open := own && s.executions[e].status !in final;
      && (r == Some(GetExecutionFailed) <==> !f.begin && (f.readExecution || e !in s.executions))
      && (r == Some(GetTaskFailed) <==> !f.begin && !f.readExecution && e in s.executions && f.readTask)
      && (r == Some(AccessDenied) <==> found && s.tasks[s.executions[e].taskId].owner != user)
      && (own && s.executions[e].status in final <==> r.Some? && r.value.CannotCancel?)
      && (r.Some? && r.value.CannotCancel? ==> r.value.executionStatus == s.executions[e].status)
      && (r == Some(UpdateExecutionFailed) <==> open && f.writeExecution)
      && (r == Some(UpdateTaskFailed) <==> open && !f.writeExecution && f.writeTask)
      && (r == Some(TransactionFailed) <==> f.begin || (open && !f.writeExecution && !f.writeTask && f.commit))
  {
  }

  /** The answers of Complete. */
  lemma CompleteAnswers(s: Store, row: Execution, taskStatus: TaskStatus, user: Uuid, f: Faults)
    requires s.Valid()
    ensures
      var r := Complete(s, row, taskStatus, user, f).1;
      var e := row.id;
      var found := !f.begin && !f.readExecution && e in s.executions && !f.readTask;
      var own := found && OwnsExecution(s, e, user);
      var final := {ExecutionStatus.Completed, ExecutionStatus.Cancelled};
      var open := own && s.executions[e].status !in final;
      var refused := f.writeExecution || !row.results.Storable();
      && (r == Some(GetExecutionFailed) <==> !f.begin && (f.readExecution || e !in s.executions))
      && (r == Some(GetTaskFailed) <==> !f.begin && !f.readExecution && e in s.executions && f.readTask)
      && (r == Some(AccessDenied) <==> found && s.tasks[s.executions[e].taskId].owner != user)
      && (own && s.executions[e].status in final <==> r.Some? && r.value.CannotComplete?)
      && (r.Some? && r.value.CannotComplete? ==> r.value.executionStatus == s.executions[e].status)
      && (r == Some(UpdateExecutionFailed) <==> open && refused)
      && (r == Some(UpdateTaskFailed) <==> open && !refused && f.writeTask)
      && (r == Some(TransactionFailed) <==> f.begin || (open && !refused && !f.writeTask && f.commit))
  {
  }
}
