/**
 * The lifecycle as a state machine: every request and background write that touches the two
 * tables is a step, and a run is any sequence of steps.
 */
module Lifecycle {
  import opened Models
  import opened Database
  import opened TaskExecutionService
  import opened TaskExecutionHandler

  datatype Step =
    | AddTask(task: Uuid, user: Uuid)
    | DeleteTask(task: Uuid, user: Uuid)
    | CreateExecution(task: Uuid, user: Uuid, newId: Uuid, faults: Faults)
    | CancelExecution(execution: Uuid, user: Uuid, faults: Faults)
    | CompleteExecution(row: Execution, taskStatus: TaskStatus, user: Uuid, faults: Faults)
    | PutWrite(row: Execution, user: Uuid, fails: bool)
    | MarkRunning(execution: Uuid, fails: bool)
    | TaskPutWrite(task: Uuid, status: TaskStatus, user: Uuid, fails: bool)

  /** The runner's updateExecutionStatus: one UPDATE with no guard and no transaction. */
  function MarkRunningStep(s: Store, e: Uuid, fails: bool): Store {
    if fails || e !in s.executions then s else s.SetExecutionStatus(e, ExecutionStatus.Running)
  }

  /**
   * The write of a non-terminal PUT: one UPDATE, with no guard on the stored status, of a row that was read
   * and checked earlier. The owner is checked then too, and cannot have changed (see OwnerNeverChanges).
   */
  predicate PutWrites(s: Store, row: Execution, user: Uuid, fails: bool) {
    !fails && row.status.IsLive() && OwnsExecution(s, row.id, user) && row.results.Storable()
  }

  function PutWriteStep(s: Store, row: Execution, user: Uuid, fails: bool): Store {
    if PutWrites(s, row, user, fails) then s.SetExecutionRow(row.id, row.status, row.results) else s
  }

  /**
   * TaskHandler.Delete: only the owner; executions go with their task. That the task is not running is
   * checked in an earlier read, so it need not hold any more.
   */
  function DeleteTaskStep(s: Store, t: Uuid, user: Uuid): Store {
    if t !in s.tasks || s.tasks[t].owner != user then s
    else s.(tasks := s.tasks - {t},
            executions := map e | e in s.executions && s.executions[e].taskId != t :: s.executions[e])
  }

  /**
   * The write of TaskHandler.Update: it sets the status column to what the request read earlier, which was
   * not running, as the owner.
   */
  predicate TaskPutWrites(s: Store, t: Uuid, status: TaskStatus, user: Uuid, fails: bool) {
    !fails && !status.Running? && t in s.tasks && s.tasks[t].owner == user
  }

  function TaskPutWriteStep(s: Store, t: Uuid, status: TaskStatus, user: Uuid, fails: bool): Store {
    if TaskPutWrites(s, t, status, user, fails) then s.SetTaskStatus(t, status) else s
  }

  function Apply(s: Store, step: Step): Store {
    match step
    case AddTask(t, user) => if t in s.tasks then s else s.(tasks := s.tasks[t := Task(user, TaskStatus.Pending)])
    case DeleteTask(t, user) => DeleteTaskStep(s, t, user)
    case CreateExecution(t, user, newId, f) => Create(s, t, user, newId, f).0
    case CancelExecution(e, user, f) => Cancel(s, e, user, f).0
    case CompleteExecution(row, taskStatus, user, f) => Complete(s, row, taskStatus, user, f).0
    case PutWrite(row, user, fails) => PutWriteStep(s, row, user, fails)
    case MarkRunning(e, fails) => MarkRunningStep(s, e, fails)
    case TaskPutWrite(t, status, user, fails) => TaskPutWriteStep(s, t, status, user, fails)
  }

  function Run(s: Store, steps: seq<Step>): Store
    decreases |steps|
  {
    if steps == [] then s else Run(Apply(s, steps[0]), steps[1..])
  }

  /** The state before step k of a run. */
  function StateAt(s: Store, steps: seq<Step>, k: nat): Store
    requires k <= |steps|
  {
    Run(s, steps[..k])
  }

  lemma {:induction false} StateAtShift(s: Store, steps: seq<Step>, k: nat)
    requires 0 < k <= |steps|
    ensures StateAt(s, steps, k) == StateAt(Apply(s, steps[0]), steps[1..], k - 1)
  {
    assert steps[..k][1..] == steps[1..][..k - 1];
  }

  lemma {:induction false} StateAtNext(s: Store, steps: seq<Step>, k: nat)
    requires k < |steps|
    ensures StateAt(s, steps, k + 1) == Apply(StateAt(s, steps, k), steps[k])
    decreases k
  {
    if k == 0 {
      assert steps[..1][1..] == [];
      assert Run(s, steps[..1]) == Run(Apply(s, steps[0]), []);
    } else {
      StateAtShift(s, steps, k + 1);
      StateAtShift(s, steps, k);
      StateAtNext(Apply(s, steps[0]), steps[1..], k - 1);
    }
  }

  lemma {:induction false} ApplyKeepsValid(s: Store, step: Step)
    requires s.Valid()
    ensures Apply(s, step).Valid()
  {
    var s' := Apply(s, step);
    assert forall e, x | e in s.executions && x in s.executions ::
        s'.CreatedTogether(e, x) ==> s.CreatedTogether(e, x);
  }

  lemma {:induction false} RunKeepsValid(s: Store, steps: seq<Step>)
    requires s.Valid()
    ensures Run(s, steps).Valid()
    decreases |steps|
  {
    if steps != [] {
      ApplyKeepsValid(s, steps[0]);
      RunKeepsValid(Apply(s, steps[0]), steps[1..]);
    }
  }

  /** Deleting a task takes exactly the task and its executions, and only its owner can. */
  lemma DeletionTakesTaskAndExecutions(s: Store, t: Uuid, user: Uuid)
    requires s.Valid()
    ensures
      var s' := Apply(s, DeleteTask(t, user));
      if t in s.tasks && s.tasks[t].owner == user then
        && (forall u :: u in s'.tasks <==> u in s.tasks && u != t)
        && (forall u <- s'.tasks :: s'.tasks[u] == s.tasks[u])
        && (forall e :: e in s'.executions <==> e in s.executions && s.executions[e].taskId != t)
        && (forall e <- s'.executions :: s'.executions[e] == s.executions[e])
      else s' == s
  {
  }

  /** Adding a task gives its owner a pending task and changes nothing else; a used id changes nothing. */
  lemma AdditionAddsPendingTask(s: Store, t: Uuid, user: Uuid)
    ensures
      var s' := Apply(s, AddTask(t, user));
      && s'.executions == s.executions && s'.clock == s.clock
      && t in s'.tasks && (forall u :: u in s'.tasks <==> u in s.tasks || u == t)
      && (forall u <- s.tasks :: s'.tasks[u] == s.tasks[u])
      && (t !in s.tasks ==> s'.tasks[t] == Task(user, TaskStatus.Pending))
  {
  }

  /** The runner's write sets one status to running, whatever it was; on a missing row it does nothing. */
  lemma MarkWritesRunning(s: Store, e: Uuid, fails: bool)
    ensures
      var s' := Apply(s, MarkRunning(e, fails));
      && s'.tasks == s.tasks && s'.clock == s.clock
      && s'.executions.Keys == s.executions.Keys
      && (forall x <- s.executions | x != e :: s'.executions[x] == s.executions[x])
      && (e in s.executions ==>
            s'.executions[e] ==
            if fails then s.executions[e] else s.executions[e].(status := ExecutionStatus.Running))
  {
  }

  /** The late write of a PUT replaces status and results of a row whose task the user owns, and nothing else. */
  lemma PutWritesStatusAndResults(s: Store, row: Execution, user: Uuid, fails: bool)
    ensures
      var s', e := Apply(s, PutWrite(row, user, fails)), row.id;
      && s'.tasks == s.tasks && s'.clock == s.clock
      && s'.executions.Keys == s.executions.Keys
      && (forall x <- s.executions | x != e :: s'.executions[x] == s.executions[x])
      && (e in s.executions ==>
            var x := s.executions[e];
            s'.executions[e] ==
            if && !fails && row.status in {ExecutionStatus.Pending, ExecutionStatus.Running}
               && x.taskId in s.tasks && s.tasks[x.taskId].owner == user && CanBeStored(row.results)
            then x.(status := row.status, results := row.results)
            else x)
  {
  }

  /** The late write of a task's PUT: the owner alone sets the status, and never to running. */
  lemma TaskPutWritesStatus(s: Store, t: Uuid, status: TaskStatus, user: Uuid, fails: bool)
    ensures
      var s' := Apply(s, TaskPutWrite(t, status, user, fails));
      && s'.executions == s.executions && s'.clock == s.clock
      && s'.tasks.Keys == s.tasks.Keys
      && (forall x <- s.tasks | x != t :: s'.tasks[x] == s.tasks[x])
      && (t in s.tasks ==>
            s'.tasks[t] ==
            if !fails && s.tasks[t].owner == user && status != TaskStatus.Running then Task(user, status)
            else s.tasks[t])
  {
  }

  // ----- A PUT is two steps apart -----

  lemma {:induction false} OwnerNeverChanges(s: Store, steps: seq<Step>, e: Uuid, user: Uuid)
    requires s.Valid() && OwnsExecution(s, e, user)
    requires forall step <- steps :: step.DeleteTask? ==> step.task != s.executions[e].taskId
    ensures OwnsExecution(Run(s, steps), e, user)
    decreases |steps|
  {
    if steps != [] {
      ApplyKeepsValid(s, steps[0]);
      OwnerKept(s, steps[0], e, user);
      OwnerNeverChanges(Apply(s, steps[0]), steps[1..], e, user);
    }
  }

  lemma OwnerKept(s: Store, step: Step, e: Uuid, user: Uuid)
    requires s.Valid() && OwnsExecution(s, e, user)
    requires step.DeleteTask? ==> step.task != s.executions[e].taskId
    ensures OwnsExecution(Apply(s, step), e, user) && Apply(s, step).executions[e].taskId == s.executions[e].taskId
  {
  }

  /** The step by which a decided PUT is carried out. */
  function StepOf(d: Decision, user: Uuid, f: Faults): Option<Step> {
    match d
    case Reject(_) => None
    case Finish(row, taskStatus) => Some(CompleteExecution(row, taskStatus, user, f))
    case Overwrite(row) => Some(PutWrite(row, user, f.writeExecution))
  }

  /**
   * Whatever happens between the read and the write of a PUT, short of deleting the task, carrying out the
   * decision is one step of the machine, taken in the later state.
   */
  lemma DecidedPutIsAStep(
      s: Store, between: seq<Step>, e: Uuid, req: UpdateRequest, user: Uuid, read: Faults, f: Faults)
    requires s.Valid()
    requires e in s.executions ==>
               forall step <- between :: step.DeleteTask? ==> step.task != s.executions[e].taskId
    ensures
      var d := Decide(s, e, req, user, read);
      var later := Run(s, between);
      var step := StepOf(d, user, f);
      CarryOut(later, d, user, f).0 == if step.Some? then Apply(later, step.value) else later
  {
    var d := Decide(s, e, req, user, read);
    if d.Overwrite? {
      OwnerNeverChanges(s, between, e, user);
    }
  }

  // ----- The newest execution decides the task status -----

  /** GetLatestByTaskID: no execution of the same task was created later. */
  ghost predicate IsNewest(s: Store, e: Uuid)
    requires e in s.executions
  {
    forall x | x in s.executions && s.executions[x].taskId == s.executions[e].taskId ::
      s.executions[x].createdAt <= s.executions[e].createdAt
  }

  /** The task statuses that go with a status of the deciding execution. */
  predicate Agrees(ts: TaskStatus, es: ExecutionStatus) {
    match es
    case Pending => ts.Running?
    case Running => ts.Running?
    case Completed => ts.Completed?
    case Failed => ts.Failed?
    case Timeout => ts.Timeout?
    case Cancelled => ts.Pending? || ts.Cancelled?
  }

  predicate Superseded(es: ExecutionStatus) {
    es.Cancelled? || es.Timeout?
  }

  ghost predicate HasNoExecutions(s: Store, t: Uuid) {
    forall e <- s.executions :: s.executions[e].taskId != t
  }

  ghost predicate OwnerTaskExists(s: Store, e: Uuid) {
    e in s.executions && s.executions[e].taskId in s.tasks
  }

  /** A newest execution agrees with its task; an older one is over. */
  ghost predicate AgreesAt(s: Store, e: Uuid) {
    && OwnerTaskExists(s, e)
    && if IsNewest(s, e) then Agrees(s.tasks[s.executions[e].taskId].status, s.executions[e].status)
       else Superseded(s.executions[e].status)
  }

  /** The lifecycle invariant. */
  ghost predicate TasksAgree(s: Store) {
    && (forall e {:trigger AgreesAt(s, e)} | e in s.executions :: AgreesAt(s, e))
    && (forall t {:trigger HasNoExecutions(s, t)} | t in s.tasks ::
          HasNoExecutions(s, t) ==> s.tasks[t].status.Pending?)
  }

  /** `ts` agrees with the newest execution of the task that `e` belongs to. */
  ghost predicate AgreesWithNewest(s: Store, e: Uuid, ts: TaskStatus)
    requires e in s.executions
  {
    forall n | n in s.executions && s.executions[n].taskId == s.executions[e].taskId && IsNewest(s, n) ::
      Agrees(ts, s.executions[n].status)
  }

  /** When giving execution `e` the status `es` and its task the status `ts` keeps the invariant. */
  ghost predicate WritePremise(s: Store, e: Uuid, es: ExecutionStatus, ts: TaskStatus)
    requires e in s.executions
  {
    if IsNewest(s, e) then Agrees(ts, es) else Superseded(es) && AgreesWithNewest(s, e, ts)
  }

  /**
   * The exact premise of a step, read from the state before it. Create, AddTask, DeleteTask and every
   * rejected call need none.
   */
  ghost predicate Premise(s: Store, step: Step) {
    match step
    case CancelExecution(e, user, f) =>
      Cancel(s, e, user, f).1.None? ==> WritePremise(s, e, ExecutionStatus.Cancelled, TaskStatus.Pending)
    case CompleteExecution(row, ts, user, f) =>
      Complete(s, row, ts, user, f).1.None? ==> WritePremise(s, row.id, row.status, ts)
    case PutWrite(row, user, fails) => PutWrites(s, row, user, fails) ==> s.executions[row.id].status.IsLive()
    case MarkRunning(e, fails) => !fails && e in s.executions ==> s.executions[e].status.IsLive()
    case TaskPutWrite(t, status, user, fails) => TaskPutWrites(s, t, status, user, fails) ==> FitsTask(s, t, status)
    case _ => true
  }

  /** The status goes with the newest execution of the task, or with there being none. */
  ghost predicate FitsTask(s: Store, t: Uuid, ts: TaskStatus) {
    && (HasNoExecutions(s, t) ==> ts.Pending?)
    && forall n | n in s.executions && s.executions[n].taskId == t && IsNewest(s, n) ::
         Agrees(ts, s.executions[n].status)
  }

  /** What Cancel, Complete, MarkRunning and PUT have in common: one execution row, one task status. */
  ghost predicate WrotePair(s: Store, s': Store, e: Uuid, es: ExecutionStatus, ts: TaskStatus) {
    && OwnerTaskExists(s, e)
    && OnlyThisPair(s, s', e, s.executions[e].taskId)
    && e in s'.executions
    && s'.executions[e].taskId == s.executions[e].taskId
    && s'.executions[e].createdAt == s.executions[e].createdAt
    && s'.executions[e].status == es
    && s'.tasks[s.executions[e].taskId].status == ts
  }

  lemma PairKeepsNewest(s: Store, s': Store, e: Uuid, es: ExecutionStatus, ts: TaskStatus, x: Uuid)
    requires WrotePair(s, s', e, es, ts)
    requires x in s.executions
    ensures x in s'.executions && (IsNewest(s', x) <==> IsNewest(s, x))
  {
  }

  lemma NewestIsUnique(s: Store, e: Uuid, x: Uuid)
    requires s.Valid() && e in s.executions && x in s.executions
    requires s.executions[x].taskId == s.executions[e].taskId && IsNewest(s, e) && IsNewest(s, x)
    ensures x == e
  {
    assert s.CreatedTogether(x, e);
  }

  lemma PairKeepsAgreementAt(s: Store, s': Store, e: Uuid, es: ExecutionStatus, ts: TaskStatus, x: Uuid)
    requires s.Valid() && x in s.executions && AgreesAt(s, x)
    requires WrotePair(s, s', e, es, ts) && WritePremise(s, e, es, ts)
    ensures x in s'.executions && AgreesAt(s', x)
  {
    PairKeepsNewest(s, s', e, es, ts, x);
    if x != e && s.executions[x].taskId == s.executions[e].taskId && IsNewest(s, x) && IsNewest(s, e) {
      NewestIsUnique(s, e, x);
    }
  }

  lemma PairKeepsAgreement(s: Store, s': Store, e: Uuid, es: ExecutionStatus, ts: TaskStatus)
    requires s.Valid() && TasksAgree(s)
    requires WrotePair(s, s', e, es, ts) && WritePremise(s, e, es, ts)
    ensures TasksAgree(s')
  {
    forall x <- s'.executions
      ensures AgreesAt(s', x)
    {
      assert x in s.executions;
      PairKeepsAgreementAt(s, s', e, es, ts, x);
    }
    forall u <- s'.tasks
      ensures HasNoExecutions(s', u) ==> s'.tasks[u].status.Pending?
    {
      if HasNoExecutions(s', u) {
        assert HasNoExecutions(s, u) by {
          forall x <- s.executions
            ensures s.executions[x].taskId != u
          {
            assert x in s'.executions;
          }
        }
      }
    }
  }

  lemma PairNeedsPremise(s: Store, s': Store, e: Uuid, es: ExecutionStatus, ts: TaskStatus)
    requires TasksAgree(s')
    requires WrotePair(s, s', e, es, ts)
    ensures WritePremise(s, e, es, ts)
  {
    PairKeepsNewest(s, s', e, es, ts, e);
    assert AgreesAt(s', e);
    if !IsNewest(s, e) {
      forall n | n in s.executions && s.executions[n].taskId == s.executions[e].taskId && IsNewest(s, n)
        ensures Agrees(ts, s.executions[n].status)
      {
        PairKeepsNewest(s, s', e, es, ts, n);
        assert AgreesAt(s', n);
      }
    }
  }

  lemma InsertKeepsAgreement(s: Store, t: Uuid, user: Uuid, newId: Uuid, f: Faults)
    requires s.Valid() && TasksAgree(s)
    ensures TasksAgree(Create(s, t, user, newId, f).0)
  {
    CreateIsAllOrNothing(s, t, user, newId, f);
    var (s', r) := Create(s, t, user, newId, f);
    if r.Ok? {
      forall x <- s'.executions
        ensures AgreesAt(s', x)
      {
        if x != newId {
          assert AgreesAt(s, x);
          assert s.executions[x].createdAt < s'.executions[newId].createdAt;
          if s.executions[x].taskId == t {
            assert !IsNewest(s', x);
            assert Superseded(s.executions[x].status);
          } else {
            assert IsNewest(s', x) <==> IsNewest(s, x) by {
              InsertKeepsNewest(s, s', newId, x);
            }
          }
        } else {
          assert forall y <- s.executions :: s.executions[y].createdAt < s.clock;
          assert IsNewest(s', newId);
        }
      }
      forall u <- s'.tasks
        ensures HasNoExecutions(s', u) ==> s'.tasks[u].status.Pending?
      {
        if HasNoExecutions(s', u) {
          assert u != t;
          assert forall x <- s.executions :: x in s'.executions && s'.executions[x].taskId == s.executions[x].taskId;
          assert HasNoExecutions(s, u);
        }
      }
    }
  }

  lemma InsertKeepsNewest(s: Store, s': Store, newId: Uuid, x: Uuid)
    requires newId !in s.executions && newId in s'.executions && x in s.executions && x in s'.executions
    requires forall y :: y != newId ==> (y in s.executions <==> y in s'.executions)
    requires forall y <- s.executions :: s'.executions[y] == s.executions[y]
    requires s'.executions[newId].taskId != s.executions[x].taskId
    ensures IsNewest(s', x) <==> IsNewest(s, x)
  {
  }

  lemma DeleteKeepsAgreement(s: Store, t: Uuid, user: Uuid)
    requires TasksAgree(s)
    ensures TasksAgree(DeleteTaskStep(s, t, user))
  {
    var s' := DeleteTaskStep(s, t, user);
    if s' != s {
      forall x <- s'.executions
        ensures AgreesAt(s', x)
      {
        assert AgreesAt(s, x);
        if IsNewest(s', x) {
          forall y | y in s.executions && s.executions[y].taskId == s.executions[x].taskId
            ensures s.executions[y].createdAt <= s.executions[x].createdAt
          {
            assert y in s'.executions;
          }
        }
        assert IsNewest(s', x) <==> IsNewest(s, x);
      }
      forall u <- s'.tasks
        ensures HasNoExecutions(s', u) ==> s'.tasks[u].status.Pending?
      {
        if HasNoExecutions(s', u) {
          assert forall x <- s.executions :: s.executions[x].taskId == u ==> x in s'.executions;
          assert HasNoExecutions(s, u);
        }
      }
    }
  }

  lemma AddTaskKeepsAgreement(s: Store, t: Uuid, user: Uuid)
    requires TasksAgree(s)
    ensures TasksAgree(Apply(s, AddTask(t, user)))
  {
    var s' := Apply(s, AddTask(t, user));
    forall x <- s'.executions
      ensures AgreesAt(s', x)
    {
      assert AgreesAt(s, x);
      assert IsNewest(s', x) <==> IsNewest(s, x);
    }
    assert forall u :: HasNoExecutions(s', u) <==> HasNoExecutions(s, u);
  }

  /** On agreeing stores a live status may be written exactly to an execution that is still live. */
  lemma LiveWriteNeedsLive(s: Store, e: Uuid, es: ExecutionStatus)
    requires s.Valid() && TasksAgree(s) && e in s.executions && es.IsLive()
    ensures WritePremise(s, e, es, s.tasks[s.executions[e].taskId].status) <==> s.executions[e].status.IsLive()
  {
    assert AgreesAt(s, e);
  }

  /** The premise is exact: a step keeps the invariant if and only if its premise holds. */
  lemma StepKeepsAgreementIff(s: Store, step: Step)
    requires s.Valid() && TasksAgree(s)
    ensures TasksAgree(Apply(s, step)) <==> Premise(s, step)
  {
    match step
    case AddTask(t, user) => AddTaskKeepsAgreement(s, t, user);
    case DeleteTask(t, user) => DeleteKeepsAgreement(s, t, user);
    case CreateExecution(t, user, newId, f) => InsertKeepsAgreement(s, t, user, newId, f);
    case CancelExecution(e, user, f) => CancelKeepsAgreementIff(s, e, user, f);
    case CompleteExecution(row, ts, user, f) => CompleteKeepsAgreementIff(s, row, ts, user, f);
    case PutWrite(row, user, fails) => PutWriteKeepsAgreementIff(s, row, user, fails);
    case MarkRunning(e, fails) => MarkRunningKeepsAgreementIff(s, e, fails);
    case TaskPutWrite(t, status, user, fails) => TaskPutWriteKeepsAgreementIff(s, t, status, user, fails);
  }

  lemma CancelKeepsAgreementIff(s: Store, e: Uuid, user: Uuid, f: Faults)
    requires s.Valid() && TasksAgree(s)
    ensures TasksAgree(Cancel(s, e, user, f).0) <==> Premise(s, CancelExecution(e, user, f))
  {
    var (s', r) := Cancel(s, e, user, f);
    CancelIsAllOrNothing(s, e, user, f);
    if r.None? {
      PairIff(s, s', e, ExecutionStatus.Cancelled, TaskStatus.Pending);
    }
  }

  lemma CompleteKeepsAgreementIff(s: Store, row: Execution, ts: TaskStatus, user: Uuid, f: Faults)
    requires s.Valid() && TasksAgree(s)
    ensures TasksAgree(Complete(s, row, ts, user, f).0) <==> Premise(s, CompleteExecution(row, ts, user, f))
  {
    var (s', r) := Complete(s, row, ts, user, f);
    CompleteIsAllOrNothing(s, row, ts, user, f);
    if r.None? {
      PairIff(s, s', row.id, row.status, ts);
    }
  }

  lemma MarkRunningKeepsAgreementIff(s: Store, e: Uuid, fails: bool)
    requires s.Valid() && TasksAgree(s)
    ensures TasksAgree(MarkRunningStep(s, e, fails)) <==> Premise(s, MarkRunning(e, fails))
  {
    if !fails && e in s.executions {
      LiveWriteNeedsLive(s, e, ExecutionStatus.Running);
      PairIff(s, MarkRunningStep(s, e, fails), e, ExecutionStatus.Running, s.tasks[s.executions[e].taskId].status);
    }
  }

  lemma TaskPutWriteKeepsAgreementIff(s: Store, t: Uuid, status: TaskStatus, user: Uuid, fails: bool)
    requires s.Valid() && TasksAgree(s)
    ensures TasksAgree(TaskPutWriteStep(s, t, status, user, fails))
       <==> Premise(s, TaskPutWrite(t, status, user, fails))
  {
    var s' := TaskPutWriteStep(s, t, status, user, fails);
    assert forall u :: HasNoExecutions(s', u) <==> HasNoExecutions(s, u);
    if TasksAgree(s') && TaskPutWrites(s, t, status, user, fails) {
      forall n | n in s.executions && s.executions[n].taskId == t && IsNewest(s, n)
        ensures Agrees(status, s.executions[n].status)
      {
        assert AgreesAt(s', n) && IsNewest(s', n);
      }
    }
    if Premise(s, TaskPutWrite(t, status, user, fails)) {
      forall x <- s'.executions
        ensures AgreesAt(s', x)
      {
        assert AgreesAt(s, x) && (IsNewest(s', x) <==> IsNewest(s, x));
      }
    }
  }

  lemma PairIff(s: Store, s': Store, e: Uuid, es: ExecutionStatus, ts: TaskStatus)
    requires s.Valid() && TasksAgree(s)
    requires WrotePair(s, s', e, es, ts)
    ensures TasksAgree(s') <==> WritePremise(s, e, es, ts)
  {
    if WritePremise(s, e, es, ts) {
      PairKeepsAgreement(s, s', e, es, ts);
    }
    if TasksAgree(s') {
      PairNeedsPremise(s, s', e, es, ts);
    }
  }

  lemma PutWriteKeepsAgreementIff(s: Store, row: Execution, user: Uuid, fails: bool)
    requires s.Valid() && TasksAgree(s)
    ensures TasksAgree(PutWriteStep(s, row, user, fails)) <==> Premise(s, PutWrite(row, user, fails))
  {
    if PutWrites(s, row, user, fails) {
      LiveWriteNeedsLive(s, row.id, row.status);
      PairIff(s, PutWriteStep(s, row, user, fails), row.id, row.status, s.tasks[s.executions[row.id].taskId].status);
    }
  }

  /**
   * Main result: from any agreeing store, every state of a run satisfies the invariant if and only
   * if every step of the run meets its premise.
   */
  lemma {:induction false} RunAgreesIff(s: Store, steps: seq<Step>)
    requires s.Valid() && TasksAgree(s)
    ensures (forall k | 0 <= k <= |steps| :: TasksAgree(StateAt(s, steps, k)))
       <==> (forall k | 0 <= k < |steps| :: Premise(StateAt(s, steps, k), steps[k]))
  {
    if forall k | 0 <= k <= |steps| :: TasksAgree(StateAt(s, steps, k)) {
      forall k | 0 <= k < |steps|
        ensures Premise(StateAt(s, steps, k), steps[k])
      {
        RunKeepsValid(s, steps[..k]);
        StateAtNext(s, steps, k);
        StepKeepsAgreementIff(StateAt(s, steps, k), steps[k]);
        assert TasksAgree(StateAt(s, steps, k + 1));
      }
    }
    if forall k | 0 <= k < |steps| :: Premise(StateAt(s, steps, k), steps[k]) {
      forall k | 0 <= k <= |steps|
        ensures TasksAgree(StateAt(s, steps, k))
      {
        PremisesReach(s, steps, k);
      }
    }
  }

  lemma {:induction false} PremisesReach(s: Store, steps: seq<Step>, n: nat)
    requires s.Valid() && TasksAgree(s) && n <= |steps|
    requires forall k | 0 <= k < |steps| :: Premise(StateAt(s, steps, k), steps[k])
    ensures TasksAgree(StateAt(s, steps, n))
  {
    if n == 0 {
      assert StateAt(s, steps, 0) == s;
    } else {
      PremisesReach(s, steps, n - 1);
      RunKeepsValid(s, steps[..n - 1]);
      StateAtNext(s, steps, n - 1);
      StepKeepsAgreementIff(StateAt(s, steps, n - 1), steps[n - 1]);
    }
  }

  /**
   * Aiming at newest executions, with matching statuses, marking only live ones running, and writing back to a
   * task only the status that it still has.
   */
  ghost predicate AimsAtNewest(s: Store, step: Step) {
    match step
    case CancelExecution(e, _, _) => e in s.executions ==> IsNewest(s, e)
    case CompleteExecution(row, ts, _, _) => row.id in s.executions ==> IsNewest(s, row.id) && Agrees(ts, row.status)
    case PutWrite(row, _, _) => row.id in s.executions ==> s.executions[row.id].status.IsLive()
    case MarkRunning(e, _) => e in s.executions ==> s.executions[e].status.IsLive()
    case TaskPutWrite(t, status, _, _) => t in s.tasks ==> status == s.tasks[t].status
    case _ => true
  }

  lemma AimedStepMeetsPremise(s: Store, step: Step)
    requires TasksAgree(s) && AimsAtNewest(s, step)
    ensures Premise(s, step)
  {
    if step.TaskPutWrite? && step.task in s.tasks {
      forall n | n in s.executions && s.executions[n].taskId == step.task && IsNewest(s, n)
        ensures Agrees(step.status, s.executions[n].status)
      {
        assert AgreesAt(s, n);
      }
    }
  }

  /** Runs that aim at newest executions keep the invariant in every state. */
  lemma {:induction false} AimingAtNewestKeepsAgreement(s: Store, steps: seq<Step>, n: nat)
    requires s.Valid() && TasksAgree(s) && n <= |steps|
    requires forall k | 0 <= k < |steps| :: AimsAtNewest(StateAt(s, steps, k), steps[k])
    ensures TasksAgree(StateAt(s, steps, n))
  {
    if n == 0 {
      assert StateAt(s, steps, 0) == s;
    } else {
      var before := StateAt(s, steps, n - 1);
      AimingAtNewestKeepsAgreement(s, steps, n - 1);
      RunKeepsValid(s, steps[..n - 1]);
      StateAtNext(s, steps, n - 1);
      AimedStepMeetsPremise(before, steps[n - 1]);
      StepKeepsAgreementIff(before, steps[n - 1]);
    }
  }

  // ----- What agreement gives -----

  lemma {:induction false} NewestExists(s: Store, t: Uuid, among: set<Uuid>)
    requires among != {} && forall e <- among :: e in s.executions && s.executions[e].taskId == t
    ensures exists n :: n in among && forall e <- among :: s.executions[e].createdAt <= s.executions[n].createdAt
    decreases among
  {
    var e :| e in among;
    if among != {e} {
      NewestExists(s, t, among - {e});
      var n :| n in among - {e} && forall x <- among - {e} :: s.executions[x].createdAt <= s.executions[n].createdAt;
      var top := if s.executions[n].createdAt <= s.executions[e].createdAt then e else n;
      forall x <- among
        ensures s.executions[x].createdAt <= s.executions[top].createdAt
      {
        assert x == e || x in among - {e};
      }
    }
  }

  /** At most one execution of a task is live. */
  lemma AtMostOneLiveExecution(s: Store, e: Uuid, x: Uuid)
    requires s.Valid() && TasksAgree(s)
    requires e in s.executions && x in s.executions && s.executions[e].taskId == s.executions[x].taskId
    requires s.executions[e].status.IsLive() && s.executions[x].status.IsLive()
    ensures e == x
  {
    assert AgreesAt(s, e) && AgreesAt(s, x);
    NewestIsUnique(s, e, x);
  }

  /** A task is running exactly while one of its executions is live. */
  lemma RunningIffLiveExecution(s: Store, t: Uuid)
    requires TasksAgree(s) && t in s.tasks
    ensures s.tasks[t].status.Running? <==>
            exists e :: e in s.executions && s.executions[e].taskId == t && s.executions[e].status.IsLive()
  {
    if s.tasks[t].status.Running? {
      assert !HasNoExecutions(s, t);
      var own := set e | e in s.executions && s.executions[e].taskId == t;
      var some :| some in s.executions && s.executions[some].taskId == t;
      assert some in own;
      NewestExists(s, t, own);
      var n :| n in own && forall e <- own :: s.executions[e].createdAt <= s.executions[n].createdAt;
      assert forall x | x in s.executions && s.executions[x].taskId == t :: x in own;
      assert IsNewest(s, n);
      assert AgreesAt(s, n);
    }
    forall e | e in s.executions && s.executions[e].taskId == t && s.executions[e].status.IsLive()
      ensures s.tasks[t].status.Running?
    {
      assert AgreesAt(s, e);
    }
  }
}
