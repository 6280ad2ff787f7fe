/**
 * The plain reading of the lifecycle: a task has at most one pending or running execution. It is weaker
 * than the invariants of Lifecycle and SingleOutcome, and has a premise of its own.
 */
module OneLive {
  import opened Models
  import opened Database
  import opened TaskExecutionService
  import opened Lifecycle
  import opened SingleOutcome

  ghost predicate Live(s: Store, e: Uuid, t: Uuid) {
    e in s.executions && s.executions[e].taskId == t && s.executions[e].status.IsLive()
  }

  ghost predicate HasLive(s: Store, t: Uuid) {
    exists e :: Live(s, e, t)
  }

  ghost predicate OneLive(s: Store) {
    forall t, e, x :: Live(s, e, t) && Live(s, x, t) ==> e == x
  }

  /** Making execution e live adds no second live execution to its task. */
  ghost predicate FreeFor(s: Store, e: Uuid)
    requires e in s.executions
  {
    s.executions[e].status.IsLive() || !HasLive(s, s.executions[e].taskId)
  }

  /**
   * The exact premise of a step: a committing Create needs its task without a live execution, a write of
   * a live status needs its execution to be live already or its task to have no other. Cancel, terminal
   * results and the steps on tasks alone need none.
   */
  ghost predicate OneLivePremise(s: Store, step: Step) {
    match step
    case CreateExecution(t, user, newId, f) => Create(s, t, user, newId, f).1.Ok? ==> !HasLive(s, t)
    case CompleteExecution(row, ts, user, f) =>
      Complete(s, row, ts, user, f).1.None? && row.status.IsLive() ==> FreeFor(s, row.id)
    case PutWrite(row, user, fails) => PutWrites(s, row, user, fails) ==> FreeFor(s, row.id)
    case MarkRunning(e, fails) => !fails && e in s.executions ==> FreeFor(s, e)
    case _ => true
  }

  /** A write of one execution's status keeps the property if and only if a live one is free to be written. */
  lemma WriteKeepsOneLiveIff(s: Store, s': Store, e: Uuid, es: ExecutionStatus, ts: TaskStatus)
    requires OneLive(s) && WrotePair(s, s', e, es, ts)
    ensures OneLive(s') <==> (es.IsLive() ==> FreeFor(s, e))
  {
    var t := s.executions[e].taskId;
    assert forall x, u :: x != e ==> (Live(s', x, u) <==> Live(s, x, u));
    assert forall u :: Live(s', e, u) <==> es.IsLive() && u == t;
    assert s.executions[e].status.IsLive() ==> Live(s, e, t);
    assert !HasLive(s, t) ==> forall x :: !Live(s, x, t);
    if es.IsLive() && !FreeFor(s, e) {
      var x :| Live(s, x, t);
      assert Live(s', x, t) && Live(s', e, t) && x != e;
    }
  }

  lemma CreateKeepsOneLiveIff(s: Store, t: Uuid, user: Uuid, newId: Uuid, f: Faults)
    requires OneLive(s)
    ensures OneLive(Create(s, t, user, newId, f).0) <==> OneLivePremise(s, CreateExecution(t, user, newId, f))
  {
    CreateIsAllOrNothing(s, t, user, newId, f);
    var (s', r) := Create(s, t, user, newId, f);
    if r.Ok? {
      assert forall x, u :: x != newId ==> (Live(s', x, u) <==> Live(s, x, u));
      assert Live(s', newId, t);
      if HasLive(s, t) {
        var x :| Live(s, x, t);
        assert Live(s', x, t) && x != newId;
      }
    }
  }

  lemma TaskStepsKeepOneLive(s: Store, t: Uuid, user: Uuid)
    requires OneLive(s)
    ensures OneLive(Apply(s, AddTask(t, user))) && OneLive(DeleteTaskStep(s, t, user))
  {
    assert forall x, u :: Live(Apply(s, AddTask(t, user)), x, u) ==> Live(s, x, u);
    assert forall x, u :: Live(DeleteTaskStep(s, t, user), x, u) ==> Live(s, x, u);
  }

  /** The premise is exact: a step keeps the property if and only if its premise holds. */
  lemma StepKeepsOneLiveIff(s: Store, step: Step)
    requires s.Valid() && OneLive(s)
    ensures OneLive(Apply(s, step)) <==> OneLivePremise(s, step)
  {
    var s' := Apply(s, step);
    match step
    case AddTask(t, user) => TaskStepsKeepOneLive(s, t, user);
    case DeleteTask(t, user) => TaskStepsKeepOneLive(s, t, user);
    case CreateExecution(t, user, newId, f) => CreateKeepsOneLiveIff(s, t, user, newId, f);
    case CancelExecution(e, user, f) =>
      CancelIsAllOrNothing(s, e, user, f);
      if Cancel(s, e, user, f).1.None? {
        WriteKeepsOneLiveIff(s, s', e, ExecutionStatus.Cancelled, TaskStatus.Pending);
      }
    case CompleteExecution(row, ts, user, f) =>
      CompleteIsAllOrNothing(s, row, ts, user, f);
      if Complete(s, row, ts, user, f).1.None? {
        WriteKeepsOneLiveIff(s, s', row.id, row.status, ts);
      }
    case PutWrite(row, user, fails) =>
      if PutWrites(s, row, user, fails) {
        WriteKeepsOneLiveIff(s, s', row.id, row.status, s.tasks[s.executions[row.id].taskId].status);
      }
    case MarkRunning(e, fails) =>
      if !fails && e in s.executions {
        WriteKeepsOneLiveIff(s, s', e, ExecutionStatus.Running, s.tasks[s.executions[e].taskId].status);
      }
    case TaskPutWrite(t, status, user, fails) =>
      assert forall x, u :: Live(s', x, u) <==> Live(s, x, u);
  }

  /**
   * Main result: in every state of a run each task has at most one live execution if and only if every
   * step of the run meets its premise in the state it is taken in.
   */
  lemma {:induction false} RunHasOneLiveIff(s: Store, steps: seq<Step>)
    requires s.Valid() && OneLive(s)
    ensures (forall k | 0 <= k <= |steps| :: OneLive(StateAt(s, steps, k)))
       <==> (forall k | 0 <= k < |steps| :: OneLivePremise(StateAt(s, steps, k), steps[k]))
  {
    if forall k | 0 <= k <= |steps| :: OneLive(StateAt(s, steps, k)) {
      forall k | 0 <= k < |steps|
        ensures OneLivePremise(StateAt(s, steps, k), steps[k])
      {
        RunKeepsValid(s, steps[..k]);
        StateAtNext(s, steps, k);
        assert OneLive(StateAt(s, steps, k + 1));
        StepKeepsOneLiveIff(StateAt(s, steps, k), steps[k]);
      }
    }
    if forall k | 0 <= k < |steps| :: OneLivePremise(StateAt(s, steps, k), steps[k]) {
      forall k | 0 <= k <= |steps|
        ensures OneLive(StateAt(s, steps, k))
      {
        PremisesReachOneLive(s, steps, k);
      }
    }
  }

  lemma {:induction false} PremisesReachOneLive(s: Store, steps: seq<Step>, n: nat)
    requires s.Valid() && OneLive(s) && n <= |steps|
    requires forall k | 0 <= k < |steps| :: OneLivePremise(StateAt(s, steps, k), steps[k])
    ensures OneLive(StateAt(s, steps, n))
  {
    if n == 0 {
      assert StateAt(s, steps, 0) == s;
    } else {
      PremisesReachOneLive(s, steps, n - 1);
      RunKeepsValid(s, steps[..n - 1]);
      StateAtNext(s, steps, n - 1);
      StepKeepsOneLiveIff(StateAt(s, steps, n - 1), steps[n - 1]);
    }
  }

  /** Both stronger invariants imply it; neither is needed for it. */
  lemma AgreementGivesOneLive(s: Store)
    requires s.Valid() && TasksAgree(s)
    ensures OneLive(s)
  {
    forall t, e, x | Live(s, e, t) && Live(s, x, t)
      ensures e == x
    {
      AtMostOneLiveExecution(s, e, x);
    }
  }

  lemma OneOutcomeGivesOneLive(s: Store)
    requires OneOutcome(s)
    ensures OneLive(s)
  {
    assert forall t, e :: Live(s, e, t) ==> Stands(s, e, t);
  }

  /** Cancelling an older timed-out execution of a completed task breaks agreement, but doubles nothing. */
  lemma WeakerThanAgreement(s: Store, e: Uuid, newest: Uuid, user: Uuid)
    requires s.Valid() && TasksAgree(s) && OwnsExecution(s, e, user) && s.executions[e].status.Timeout?
    requires newest in s.executions && newest != e && s.executions[newest].taskId == s.executions[e].taskId
    requires IsNewest(s, newest) && s.executions[newest].status.Completed?
    ensures OneLive(Cancel(s, e, user, NO_FAULTS).0) && !TasksAgree(Cancel(s, e, user, NO_FAULTS).0)
  {
    var step := CancelExecution(e, user, NO_FAULTS);
    AgreementGivesOneLive(s);
    StepKeepsOneLiveIff(s, step);
    StepKeepsAgreementIff(s, step);
    CancelIsAllOrNothing(s, e, user, NO_FAULTS);
    if IsNewest(s, e) {
      NewestIsUnique(s, e, newest);
    }
  }

  /**
   * The doubling, step by step: on a store with one live execution per task, a Create that commits doubles
   * exactly when its task was pending or timed out beside a live execution.
   */
  lemma CreateDoublesIff(s: Store, t: Uuid, user: Uuid, newId: Uuid)
    requires s.Valid() && OneLive(s) && newId !in s.executions
    ensures !OneLive(Create(s, t, user, newId, NO_FAULTS).0)
       <==> t in s.tasks && s.tasks[t].owner == user && Executable(s.tasks[t].status) && HasLive(s, t)
  {
    CreateIsAllOrNothing(s, t, user, newId, NO_FAULTS);
    CreateKeepsOneLiveIff(s, t, user, newId, NO_FAULTS);
  }
}
