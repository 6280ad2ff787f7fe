/**
 * PUT /executions/:id (internal/api/handlers/task_execution.go): Update and applyExecutionUpdates. The
 * request reads first and writes later, with no transaction around the two.
 */
module TaskExecutionHandler {
  import opened Models
  import opened Database
  import opened TaskExecutionService

  /** The optional fields of UpdateTaskExecutionRequest; None leaves a column as it is. */
  datatype UpdateRequest = UpdateRequest(status: Option<ExecutionStatus>, results: Results)

  datatype HandlerError = LookupFailed | Forbidden | UpdateFailed | ServiceRejected(cause: ServiceError)

  function Pick<T>(update: Option<T>, current: Option<T>): Option<T> {
    if update.Some? then update else current
  }

  function ApplyExecutionUpdates(x: Execution, req: UpdateRequest): Execution {
    x.(status := if req.status.Some? then req.status.value else x.status,
       results := Results(
         Pick(req.results.returnCode, x.results.returnCode),
         Pick(req.results.stdout, x.results.stdout),
         Pick(req.results.stderr, x.results.stderr),
         Pick(req.results.executionTimeMs, x.results.executionTimeMs),
         Pick(req.results.memoryUsageBytes, x.results.memoryUsageBytes),
         Pick(req.results.startedAt, x.results.startedAt),
         Pick(req.results.completedAt, x.results.completedAt)))
  }

  /** The task status the handler pairs with an execution status; non-terminal ones fall back. */
  function FinalTaskStatus(status: ExecutionStatus): TaskStatus {
    match status
    case Completed => TaskStatus.Completed
    case Failed => TaskStatus.Failed
    case Timeout => TaskStatus.Timeout
    case Cancelled => TaskStatus.Cancelled
    case _ => TaskStatus.Pending
  }

  /** What the first half of a request decides, from rows read outside any transaction. */
  datatype Decision =
    | Finish(row: Execution, taskStatus: TaskStatus)
    | Overwrite(row: Execution)
    | Reject(error: HandlerError)

  /**
   * Read the execution and apply the request. A terminal row is to go through Complete; for any other the
   * owner is checked and the row is to be written as it now is.
   */
  function Decide(s: Store, e: Uuid, req: UpdateRequest, user: Uuid, f: Faults): Decision {
    if f.readExecution || e !in s.executions then Reject(LookupFailed)
    else
      var x := ApplyExecutionUpdates(s.executions[e], req);
      if x.status.IsTerminal() then Finish(x, FinalTaskStatus(x.status))
      else if f.readTask || x.taskId !in s.tasks then Reject(LookupFailed)
      else if s.tasks[x.taskId].owner != user then Reject(Forbidden)
      else Overwrite(x)
  }

  /** The unguarded UPDATE of a row that was read earlier; it still needs the row to exist. */
  function Overwritten(s: Store, row: Execution, fails: bool): (Store, Option<HandlerError>) {
    if fails || row.id !in s.executions || !row.results.Storable() then (s, Some(UpdateFailed))
    else (s.SetExecutionRow(row.id, row.status, row.results), None)
  }

  /** The second half of a request, on a store that may have changed since the first. */
  function CarryOut(s: Store, d: Decision, user: Uuid, f: Faults): (Store, Option<HandlerError>) {
    match d
    case Reject(error) => (s, Some(error))
    case Overwrite(row) => Overwritten(s, row, f.writeExecution)
    case Finish(row, taskStatus) =>
      var (s', r) := Complete(s, row, taskStatus, user, f);
      (s', if r.Some? then Some(ServiceRejected(r.value)) else None)
  }

  class Handler {
    const service: Service

    constructor (service: Service)
      ensures this.service == service
    {
      this.service := service;
    }

    /** applyExecutionUpdates: each field of the request that is present is assigned. */
    method ApplyUpdates(execution: Execution, req: UpdateRequest) returns (x: Execution)
      ensures x == ApplyExecutionUpdates(execution, req)
    {
      x := execution;
      var results := x.results;
      if req.status.Some? {
        x := x.(status := req.status.value);
      }
      if req.results.returnCode.Some? {
        results := results.(returnCode := req.results.returnCode);
      }
      if req.results.stdout.Some? {
        results := results.(stdout := req.results.stdout);
      }
      if req.results.stderr.Some? {
        results := results.(stderr := req.results.stderr);
      }
      if req.results.executionTimeMs.Some? {
        results := results.(executionTimeMs := req.results.executionTimeMs);
      }
      if req.results.memoryUsageBytes.Some? {
        results := results.(memoryUsageBytes := req.results.memoryUsageBytes);
      }
      if req.results.startedAt.Some? {
        results := results.(startedAt := req.results.startedAt);
      }
      if req.results.completedAt.Some? {
        results := results.(completedAt := req.results.completedAt);
      }
      x := x.(results := results);
    }

    /** Everything up to the write. */
    method Prepare(e: Uuid, req: UpdateRequest, user: Uuid, f: Faults) returns (d: Decision)
      ensures d == Decide(service.conn.store, e, req, user, f)
    {
      var conn := service.conn;
      if f.readExecution || e !in conn.store.executions {
        return Reject(LookupFailed);
      }
      var execution := ApplyUpdates(conn.store.executions[e], req);
      if execution.status.IsTerminal() {
        return Finish(execution, FinalTaskStatus(execution.status));
      }
      if f.readTask || execution.taskId !in conn.store.tasks {
        return Reject(LookupFailed);
      }
      if conn.store.tasks[execution.taskId].owner != user {
        return Reject(Forbidden);
      }
      return Overwrite(execution);
    }

    /** The write, in whatever state the store is by then. */
    method Save(d: Decision, user: Uuid, f: Faults) returns (r: Option<HandlerError>)
      modifies service.conn
      ensures (service.conn.store, r) == CarryOut(old(service.conn.store), d, user, f)
    {
      var conn := service.conn;
      match d {
        case Reject(error) => return Some(error);
        case Finish(row, taskStatus) =>
          var err := service.CompleteExecutionAndFinalizeTaskStatus(row, taskStatus, user, f);
          return if err.Some? then Some(ServiceRejected(err.value)) else None;
        case Overwrite(row) =>
          if f.writeExecution || row.id !in conn.store.executions || !row.results.Storable() {
            return Some(UpdateFailed);
          }
          conn.store := conn.store.SetExecutionRow(row.id, row.status, row.results);
          return None;
      }
    }

    /** A request that nothing interrupts. `read` are the faults of the first half. */
    method Update(e: Uuid, req: UpdateRequest, user: Uuid, read: Faults, f: Faults) returns (r: Option<HandlerError>)
      modifies service.conn
      ensures
        var d := Decide(old(service.conn.store), e, req, user, read);
        (service.conn.store, r) == CarryOut(old(service.conn.store), d, user, f)
    {
      var d := Prepare(e, req, user, read);
      r := Save(d, user, f);
    }
  }

  // ----- What a request that nothing interrupts writes -----

  /** The columns after the request: each one from the request where it is present, else as stored. */
  ghost predicate Merges(stored: Results, sent: Results, r: Results) {
    && r.returnCode == (if sent.returnCode.Some? then sent.returnCode else stored.returnCode)
    && r.stdout == (if sent.stdout.Some? then sent.stdout else stored.stdout)
    && r.stderr == (if sent.stderr.Some? then sent.stderr else stored.stderr)
    && r.executionTimeMs == (if sent.executionTimeMs.Some? then sent.executionTimeMs else stored.executionTimeMs)
    && r.memoryUsageBytes == (if sent.memoryUsageBytes.Some? then sent.memoryUsageBytes else stored.memoryUsageBytes)
    && r.startedAt == (if sent.startedAt.Some? then sent.startedAt else stored.startedAt)
    && r.completedAt == (if sent.completedAt.Some? then sent.completedAt else stored.completedAt)
  }

  ghost predicate CanBeStored(r: Results) {
    && (r.returnCode.Some? ==> 0 <= r.returnCode.value < 256)
    && (r.executionTimeMs.Some? ==> 0 <= r.executionTimeMs.value < 0x8000_0000)
    && (r.memoryUsageBytes.Some? ==> 0 <= r.memoryUsageBytes.value)
    && (r.stdout.Some? ==> '\0' !in r.stdout.value && IsUtf8(r.stdout.value))
    && (r.stderr.Some? ==> '\0' !in r.stderr.value && IsUtf8(r.stderr.value))
  }

  lemma {:induction false} StorableMeans(r: Results)
    ensures r.Storable() <==> CanBeStored(r)
  {
  }

  /** The update of an entry is the merge, and its other columns stay. */
  lemma UpdatesMerge(x: Execution, req: UpdateRequest)
    ensures
      var y := ApplyExecutionUpdates(x, req);
      && Merges(x.results, req.results, y.results)
      && y.status == (if req.status.Some? then req.status.value else x.status)
      && y.id == x.id && y.taskId == x.taskId && y.createdAt == x.createdAt
  {
  }

  lemma {:induction false} FinishMeans(s: Store, row: Execution, taskStatus: TaskStatus, user: Uuid)
    requires s.Valid() && OwnsExecution(s, row.id, user)
    requires row.taskId == s.executions[row.id].taskId && row.createdAt == s.executions[row.id].createdAt
    ensures
      var (s', r) := CarryOut(s, Finish(row, taskStatus), user, NO_FAULTS);
      var stored := s.executions[row.id].status;
      var final := stored in {ExecutionStatus.Completed, ExecutionStatus.Cancelled};
      && (r.None? <==> !final && CanBeStored(row.results))
      && (r.Some? ==>
            s' == s && r.value == ServiceRejected(if final then CannotComplete(stored) else UpdateExecutionFailed))
      && (r.None? ==>
            && OnlyThisPair(s, s', row.id, row.taskId)
            && row.id in s'.executions && s'.executions[row.id] == row
            && s'.tasks[row.taskId].status == taskStatus)
  {
    StorableMeans(row.results);
    CompleteIsAllOrNothing(s, row, taskStatus, user, NO_FAULTS);
  }

  lemma {:induction false} DecidesToFinish(
      s: Store, e: Uuid, req: UpdateRequest, user: Uuid, merged: Results, status: ExecutionStatus)
    requires s.Valid() && e in s.executions && Merges(s.executions[e].results, req.results, merged)
    requires status == (if req.status.Some? then req.status.value else s.executions[e].status)
    requires status.IsTerminal()
    ensures
      var x := s.executions[e];
      Decide(s, e, req, user, NO_FAULTS)
      == Finish(Execution(e, x.taskId, status, merged, x.createdAt), FinalTaskStatus(status))
  {
    UpdatesMerge(s.executions[e], req);
  }

  /**
   * A PUT of the owner after which the execution is over, because it asks for a final status or for none on an
   * execution that is over: it succeeds if and only if the stored execution is neither completed nor cancelled and
   * the merged results can be stored. Then the execution has that status and the merged results, its task the
   * status of the same name, and no other row changes.
   */
  lemma {:induction false} PutEndsExecutionIff(s: Store, e: Uuid, req: UpdateRequest, user: Uuid, merged: Results)
    requires s.Valid() && OwnsExecution(s, e, user)
    requires Merges(s.executions[e].results, req.results, merged)
    requires
      var status := if req.status.Some? then req.status.value else s.executions[e].status;
      status !in {ExecutionStatus.Pending, ExecutionStatus.Running}
    ensures
      var (s', r) := CarryOut(s, Decide(s, e, req, user, NO_FAULTS), user, NO_FAULTS);
      var x := s.executions[e];
      var status := if req.status.Some? then req.status.value else x.status;
      var final := x.status in {ExecutionStatus.Completed, ExecutionStatus.Cancelled};
      && (r.None? <==> !final && CanBeStored(merged))
      && (r.Some? ==>
            s' == s && r.value == ServiceRejected(if final then CannotComplete(x.status) else UpdateExecutionFailed))
      && (r.None? ==>
            && OnlyThisPair(s, s', e, x.taskId)
            && e in s'.executions
            && s'.executions[e] == Execution(e, x.taskId, status, merged, x.createdAt)
            && s'.tasks[x.taskId].status ==
               match status
               case Completed => TaskStatus.Completed
               case Failed => TaskStatus.Failed
               case Timeout => TaskStatus.Timeout
               case _ => TaskStatus.Cancelled)
  {
    var x := s.executions[e];
    var status := if req.status.Some? then req.status.value else x.status;
    DecidesToFinish(s, e, req, user, merged, status);
    FinishMeans(s, Execution(e, x.taskId, status, merged, x.createdAt), FinalTaskStatus(status), user);
  }

  /**
   * A PUT of the owner after which the execution is live, because it asks for a live status or for none on a live
   * execution: one row changes, and its task keeps its status.
   */
  lemma {:induction false} PutKeepsExecutionLiveIff(s: Store, e: Uuid, req: UpdateRequest, user: Uuid, merged: Results)
    requires s.Valid() && OwnsExecution(s, e, user)
    requires Merges(s.executions[e].results, req.results, merged)
    requires
      var status := if req.status.Some? then req.status.value else s.executions[e].status;
      status in {ExecutionStatus.Pending, ExecutionStatus.Running}
    ensures
      var (s', r) := CarryOut(s, Decide(s, e, req, user, NO_FAULTS), user, NO_FAULTS);
      var x := s.executions[e];
      var status := if req.status.Some? then req.status.value else x.status;
      && (r.None? <==> CanBeStored(merged))
      && (r.Some? ==> s' == s && r.value == UpdateFailed)
      && (r.None? ==>
            && s'.tasks == s.tasks && s'.clock == s.clock
            && s'.executions == s.executions[e := Execution(e, x.taskId, status, merged, x.createdAt)])
  {
    UpdatesMerge(s.executions[e], req);
    StorableMeans(merged);
  }

  /** A PUT is refused, and writes nothing, when the execution is unknown or another user's. */
  lemma PutIsRefused(s: Store, e: Uuid, req: UpdateRequest, user: Uuid, read: Faults, f: Faults)
    requires s.Valid() && !OwnsExecution(s, e, user)
    ensures
      var (s', r) := CarryOut(s, Decide(s, e, req, user, read), user, f);
      && s' == s && r.Some?
      && (e !in s.executions ==> r.value == LookupFailed)
      && (e in s.executions && read == NO_FAULTS && f == NO_FAULTS ==>
            r.value in {Forbidden, ServiceRejected(AccessDenied)})
  {
  }
}
