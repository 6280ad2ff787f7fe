/**
 * The two lifecycle tables, and transactions over them (internal/database/connection.go and the
 * row operations of the two repositories). Transactions are serial: nothing else writes the
 * store between a Begin and the matching Commit or Rollback. Every operation takes a flag
 * that says whether the database fails it.
 */
module Database {
  import opened Models

  /** `clock` is the time the next inserted row gets; it is later than every stored createdAt. */
  datatype Store = Store(tasks: map<Uuid, Task>, executions: map<Uuid, Execution>, clock: nat)
  {
    /** The foreign key of task_executions, and creation times that tell rows apart. */
    ghost predicate Valid() {
      && (forall e <- executions :: executions[e].id == e)
      && (forall e <- executions :: executions[e].taskId in tasks)
      && (forall e <- executions :: executions[e].createdAt < clock)
      && (forall e, x :: CreatedTogether(e, x) ==> e == x)
    }

    ghost predicate CreatedTogether(e: Uuid, x: Uuid) {
      e in executions && x in executions && executions[e].createdAt == executions[x].createdAt
    }

    /** Write the status of an existing task (repository UpdateStatus). */
    function SetTaskStatus(t: Uuid, status: TaskStatus): Store
      requires t in tasks
    {
      this.(tasks := tasks[t := tasks[t].(status := status)])
    }

    /** Write the status column of an existing execution (repository UpdateStatus). */
    function SetExecutionStatus(e: Uuid, status: ExecutionStatus): Store
      requires e in executions
    {
      this.(executions := executions[e := executions[e].(status := status)])
    }

    /** Write the status and result columns (repository Update); id, task_id and created_at stay. */
    function SetExecutionRow(e: Uuid, status: ExecutionStatus, results: Results): Store
      requires e in executions
    {
      this.(executions := executions[e := executions[e].(status := status, results := results)])
    }

    function InsertExecution(e: Uuid, t: Uuid, status: ExecutionStatus, results: Results): Store {
      this.(executions := executions[e := Execution(e, t, status, results, clock)], clock := clock + 1)
    }
  }

  /** Which database operations of one call fail. */
  datatype Faults = Faults(
    begin: bool,
    readExecution: bool,
    readTask: bool,
    writeExecution: bool,
    writeTask: bool,
    commit: bool)

  const NO_FAULTS := Faults(false, false, false, false, false, false)

  datatype DbError = NotFound | ConstraintViolation | Unavailable

  class Connection {
    var store: Store

    constructor (s: Store)
      ensures store == s
    {
      store := s;
    }

    method BeginTx(fails: bool) returns (tx: Transaction?)
      ensures tx == null <==> fails
      ensures tx != null ==> fresh(tx) && tx.conn == this && tx.work == store && !tx.closed
    {
      if fails {
        return null;
      }
      tx := new Transaction(this);
    }
  }

  /** An open transaction works on its own copy; the connection's store changes only in Commit. */
  class Transaction {
    const conn: Connection
    var work: Store
    var closed: bool

    constructor (conn: Connection)
      ensures this.conn == conn && work == conn.store && !closed
    {
      this.conn := conn;
      work := conn.store;
      closed := false;
    }

    method GetTask(id: Uuid, fails: bool) returns (r: Result<Task, DbError>)
      ensures r.Ok? <==> !fails && id in work.tasks
      ensures r.Ok? ==> r.value == work.tasks[id]
      ensures r.Err? ==> r.error == if fails then Unavailable else NotFound
    {
      if fails {
        return Err(Unavailable);
      }
      if id !in work.tasks {
        return Err(NotFound);
      }
      return Ok(work.tasks[id]);
    }

    method GetExecution(id: Uuid, fails: bool) returns (r: Result<Execution, DbError>)
      ensures r.Ok? <==> !fails && id in work.executions
      ensures r.Ok? ==> r.value == work.executions[id]
      ensures r.Err? ==> r.error == if fails then Unavailable else NotFound
    {
      if fails {
        return Err(Unavailable);
      }
      if id !in work.executions {
        return Err(NotFound);
      }
      return Ok(work.executions[id]);
    }

    /** INSERT: the primary key rejects a used id, the foreign key an unknown task. */
    method CreateExecution(x: Execution, fails: bool) returns (r: Result<Execution, DbError>)
      requires !closed
      modifies this`work
      ensures r.Ok? <==> !fails && x.id !in old(work.executions) && x.taskId in old(work.tasks) && x.results.Storable()
      ensures r.Ok? ==> work == old(work).InsertExecution(x.id, x.taskId, x.status, x.results)
      ensures r.Ok? ==> r.value == work.executions[x.id]
      ensures r.Err? ==> work == old(work)
    {
      if fails {
        return Err(Unavailable);
      }
      if x.id in work.executions || x.taskId !in work.tasks || !x.results.Storable() {
        return Err(ConstraintViolation);
      }
      work := work.InsertExecution(x.id, x.taskId, x.status, x.results);
      return Ok(work.executions[x.id]);
    }

    /** UPDATE of one execution row; a write that matches no row is an error too. */
    method UpdateExecution(x: Execution, fails: bool) returns (r: Option<DbError>)
      requires !closed
      modifies this`work
      ensures r.None? <==> !fails && x.id in old(work.executions) && x.results.Storable()
      ensures r.None? ==> work == old(work).SetExecutionRow(x.id, x.status, x.results)
      ensures r.Some? ==> work == old(work)
    {
      if fails {
        return Some(Unavailable);
      }
      if x.id !in work.executions {
        return Some(NotFound);
      }
      if !x.results.Storable() {
        return Some(ConstraintViolation);
      }
      work := work.SetExecutionRow(x.id, x.status, x.results);
      return None;
    }

    method UpdateExecutionStatus(id: Uuid, status: ExecutionStatus, fails: bool) returns (r: Option<DbError>)
      requires !closed
      modifies this`work
      ensures r.None? <==> !fails && id in old(work.executions)
      ensures r.None? ==> work == old(work).SetExecutionStatus(id, status)
      ensures r.Some? ==> work == old(work)
    {
      if fails {
        return Some(Unavailable);
      }
      if id !in work.executions {
        return Some(NotFound);
      }
      work := work.SetExecutionStatus(id, status);
      return None;
    }

    method UpdateTaskStatus(id: Uuid, status: TaskStatus, fails: bool) returns (r: Option<DbError>)
      requires !closed
      modifies this`work
      ensures r.None? <==> !fails && id in old(work.tasks)
      ensures r.None? ==> work == old(work).SetTaskStatus(id, status)
      ensures r.Some? ==> work == old(work)
    {
      if fails {
        return Some(Unavailable);
      }
      if id !in work.tasks {
        return Some(NotFound);
      }
      work := work.SetTaskStatus(id, status);
      return None;
    }

    method Commit(fails: bool) returns (ok: bool)
      requires !closed
      modifies this`closed, conn
      ensures closed && ok == !fails
      ensures conn.store == if ok then work else old(conn.store)
    {
      closed := true;
      ok := !fails;
      if ok {
        conn.store := work;
      }
    }

    /** The deferred Rollback; after Commit it finds the transaction closed and does nothing. */
    method Rollback()
      modifies this`closed
      ensures closed
    {
      closed := true;
    }
  }
}
