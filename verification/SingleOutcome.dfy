/**
 * The second lifecycle invariant: while nothing is completed as a timeout, Cancel and Complete may
 * aim at any execution, and every task has at most one execution that is not cancelled.
 */
module SingleOutcome {
  import opened Models
  import opened Database
  import opened TaskExecutionService
  import opened Lifecycle

  /** An execution of task t that is not cancelled. */
  ghost predicate Stands(s: Store, e: Uuid, t: Uuid) {
    e in s.executions && s.executions[e].taskId == t && !s.executions[e].status.Cancelled?
  }

  ghost predicate StandingAgrees(s: Store, e: Uuid) {
    && OwnerTaskExists(s, e)
    && !s.executions[e].status.Timeout?
    && (!s.executions[e].status.Cancelled? ==> Agrees(s.tasks[s.executions[e].taskId].status, s.executions[e].status))
  }

  ghost predicate HasStanding(s: Store, t: Uuid) {
    exists e :: Stands(s, e, t)
  }

  /** A status that a task without a standing execution can have. */
  predicate Idle(ts: TaskStatus) {
    ts.Pending? || ts.Cancelled?
  }

  ghost predicate OneOutcome(s: Store) {
    && (forall e <- s.executions :: StandingAgrees(s, e))
    && (forall t, e, x :: Stands(s, e, t) && Stands(s, x, t) ==> e == x)
    && (forall t <- s.tasks :: !Idle(s.tasks[t].status) ==> HasStanding(s, t))
  }

  /** The exact premise of a step for this invariant. */
  ghost predicate NoTimeoutPremise(s: Store, step: Step) {
    match step
    case CompleteExecution(row, ts, user, f) =>
      Complete(s, row, ts, user, f).1.None? ==> !row.status.Timeout? && Agrees(ts, row.status)
    case PutWrite(row, user, fails) => PutWrites(s, row, user, fails) ==> s.executions[row.id].status.IsLive()
    case MarkRunning(e, fails) => !fails && e in s.executions ==> s.executions[e].status.IsLive()
    case TaskPutWrite(t, status, user, fails) => TaskPutWrites(s, t, status, user, fails) ==> FitsStanding(s, t, status)
    case _ => true
  }

  /** The status goes with the standing execution of the task, or with there being none. */
  ghost predicate FitsStanding(s: Store, t: Uuid, ts: TaskStatus) {
    && (!HasStanding(s, t) ==> Idle(ts))
    && forall e | Stands(s, e, t) :: Agrees(ts, s.executions[e].status)
  }

  lemma PairKeepsOneOutcome(s: Store, s': Store, e: Uuid, es: ExecutionStatus, ts: TaskStatus)
    requires OneOutcome(s) && WrotePair(s, s', e, es, ts)
    requires !s.executions[e].status.Cancelled? && !es.Timeout? && Agrees(ts, es)
    ensures OneOutcome(s')
  {
    var t := s.executions[e].taskId;
    assert Stands(s, e, t);
    forall x <- s'.executions
      ensures StandingAgrees(s', x)
    {
      assert StandingAgrees(s, x);
      if x != e && s.executions[x].taskId == t && !s.executions[x].status.Cancelled? {
        assert Stands(s, x, t);
      }
    }
    assert forall u, x :: Stands(s', x, u) ==> Stands(s, x, u);
    forall u <- s'.tasks
      ensures !Idle(s'.tasks[u].status) ==> HasStanding(s', u)
    {
      if !Idle(s'.tasks[u].status) {
        if u == t {
          assert Stands(s', e, t);
        } else {
          var x :| Stands(s, x, u);
          assert Stands(s', x, u);
        }
      }
    }
  }

  lemma PairNeedsAgreement(s: Store, s': Store, e: Uuid, es: ExecutionStatus, ts: TaskStatus)
    requires OneOutcome(s) && OneOutcome(s') && WrotePair(s, s', e, es, ts)
    requires !s.executions[e].status.Cancelled?
    ensures !es.Timeout? && Agrees(ts, es)
  {
    var t := s.executions[e].taskId;
    assert StandingAgrees(s', e) && Stands(s, e, t);
    assert es.Cancelled? ==> !HasStanding(s', t) by {
      assert forall x :: Stands(s', x, t) && x != e ==> Stands(s, x, t);
    }
  }

  /** Reviving a cancelled execution without touching the task always breaks the invariant. */
  lemma RevivingBreaksOneOutcome(s: Store, s': Store, e: Uuid, es: ExecutionStatus)
    requires OneOutcome(s) && OwnerTaskExists(s, e)
    requires WrotePair(s, s', e, es, s.tasks[s.executions[e].taskId].status)
    requires s.executions[e].status.Cancelled? && es.IsLive()
    ensures !OneOutcome(s')
  {
    var t := s.executions[e].taskId;
    if Agrees(s.tasks[t].status, es) {
      var x :| Stands(s, x, t);
      assert Stands(s', x, t) && Stands(s', e, t) && x != e;
    } else {
      assert !StandingAgrees(s', e);
    }
  }

  lemma PairIff(s: Store, s': Store, e: Uuid, es: ExecutionStatus, ts: TaskStatus)
    requires OneOutcome(s) && WrotePair(s, s', e, es, ts)
    requires !s.executions[e].status.Cancelled?
    ensures OneOutcome(s') <==> !es.Timeout? && Agrees(ts, es)
  {
    if OneOutcome(s') {
      PairNeedsAgreement(s, s', e, es, ts);
    } else if !es.Timeout? && Agrees(ts, es) {
      PairKeepsOneOutcome(s, s', e, es, ts);
    }
  }

  /** A live status may be written, with the task left alone, exactly to a live execution. */
  lemma LiveWriteIff(s: Store, s': Store, e: Uuid, es: ExecutionStatus)
    requires OneOutcome(s) && OwnerTaskExists(s, e) && es.IsLive()
    requires WrotePair(s, s', e, es, s.tasks[s.executions[e].taskId].status)
    ensures OneOutcome(s') <==> s.executions[e].status.IsLive()
  {
    assert StandingAgrees(s, e);
    if s.executions[e].status.Cancelled? {
      RevivingBreaksOneOutcome(s, s', e, es);
    } else {
      PairIff(s, s', e, es, s.tasks[s.executions[e].taskId].status);
    }
  }

  lemma CreateKeepsOneOutcome(s: Store, t: Uuid, user: Uuid, newId: Uuid, f: Faults)
    requires OneOutcome(s)
    ensures OneOutcome(Create(s, t, user, newId, f).0)
  {
    CreateIsAllOrNothing(s, t, user, newId, f);
    var (s', r) := Create(s, t, user, newId, f);
    if r.Ok? {
      assert forall x :: !Stands(s, x, t);
      forall x <- s'.executions
        ensures StandingAgrees(s', x)
      {
        if x != newId {
          assert StandingAgrees(s, x);
          assert s.executions[x].taskId == t ==> !Stands(s, x, t);
        }
      }
      assert forall u, x :: Stands(s', x, u) ==> if x == newId then u == t else Stands(s, x, u);
      forall u <- s'.tasks
        ensures !Idle(s'.tasks[u].status) ==> HasStanding(s', u)
      {
        if u == t {
          assert Stands(s', newId, t);
        } else if !Idle(s'.tasks[u].status) {
          var x :| Stands(s, x, u);
          assert Stands(s', x, u);
        }
      }
    }
  }

  lemma {:induction false} TaskStepsKeepOneOutcome(s: Store, t: Uuid, user: Uuid)
    requires OneOutcome(s)
    ensures OneOutcome(Apply(s, AddTask(t, user)))
    ensures OneOutcome(DeleteTaskStep(s, t, user))
  {
    var added := Apply(s, AddTask(t, user));
    assert forall x <- added.executions :: StandingAgrees(s, x) ==> StandingAgrees(added, x);
    assert forall u, x :: Stands(added, x, u) <==> Stands(s, x, u);
    assert forall u :: HasStanding(s, u) ==> HasStanding(added, u);
    var deleted := DeleteTaskStep(s, t, user);
    assert forall x <- deleted.executions :: StandingAgrees(s, x) ==> StandingAgrees(deleted, x);
    assert forall u, x :: Stands(deleted, x, u) ==> Stands(s, x, u);
    forall u <- deleted.tasks
      ensures !Idle(deleted.tasks[u].status) ==> HasStanding(deleted, u)
    {
      if !Idle(deleted.tasks[u].status) {
        var x :| Stands(s, x, u);
        assert Stands(deleted, x, u);
      }
    }
  }

  /** The premise is exact: a step keeps the invariant if and only if its premise holds. */
  lemma StepKeepsOneOutcomeIff(s: Store, step: Step)
    requires s.Valid() && OneOutcome(s)
    ensures OneOutcome(Apply(s, step)) <==> NoTimeoutPremise(s, step)
  {
    match step
    case AddTask(t, user) => TaskStepsKeepOneOutcome(s, t, user);
    case DeleteTask(t, user) => TaskStepsKeepOneOutcome(s, t, user);
    case CreateExecution(t, user, newId, f) => CreateKeepsOneOutcome(s, t, user, newId, f);
    case CancelExecution(e, user, f) => CancelKeepsOneOutcome(s, e, user, f);
    case CompleteExecution(row, ts, user, f) => CompleteKeepsOneOutcomeIff(s, row, ts, user, f);
    case PutWrite(row, user, fails) =>
      if PutWrites(s, row, user, fails) {
        LiveWriteIff(s, PutWriteStep(s, row, user, fails), row.id, row.status);
      }
    case MarkRunning(e, fails) =>
      if !fails && e in s.executions {
        LiveWriteIff(s, MarkRunningStep(s, e, fails), e, ExecutionStatus.Running);
      }
    case TaskPutWrite(t, status, user, fails) => TaskPutWriteKeepsOneOutcomeIff(s, t, status, user, fails);
  }

  lemma TaskPutWriteKeepsOneOutcomeIff(s: Store, t: Uuid, status: TaskStatus, user: Uuid, fails: bool)
    requires OneOutcome(s)
    ensures OneOutcome(TaskPutWriteStep(s, t, status, user, fails))
       <==> NoTimeoutPremise(s, TaskPutWrite(t, status, user, fails))
  {
    var s' := TaskPutWriteStep(s, t, status, user, fails);
    assert forall u, x :: Stands(s', x, u) <==> Stands(s, x, u);
    assert forall u :: HasStanding(s', u) <==> HasStanding(s, u);
    if TaskPutWrites(s, t, status, user, fails) {
      if OneOutcome(s') {
        forall e | Stands(s, e, t)
          ensures Agrees(status, s.executions[e].status)
        {
          assert StandingAgrees(s', e);
        }
      }
      if FitsStanding(s, t, status) {
        forall x <- s'.executions
          ensures StandingAgrees(s', x)
        {
          assert StandingAgrees(s, x);
          assert s.executions[x].taskId == t && !s.executions[x].status.Cancelled? ==> Stands(s, x, t);
        }
      }
    }
  }

  lemma CancelKeepsOneOutcome(s: Store, e: Uuid, user: Uuid, f: Faults)
    requires s.Valid() && OneOutcome(s)
    ensures OneOutcome(Cancel(s, e, user, f).0)
  {
    CancelIsAllOrNothing(s, e, user, f);
    if Cancel(s, e, user, f).1.None? {
      PairIff(s, Cancel(s, e, user, f).0, e, ExecutionStatus.Cancelled, TaskStatus.Pending);
    }
  }

  lemma CompleteKeepsOneOutcomeIff(s: Store, row: Execution, ts: TaskStatus, user: Uuid, f: Faults)
    requires s.Valid() && OneOutcome(s)
    ensures OneOutcome(Complete(s, row, ts, user, f).0) <==> NoTimeoutPremise(s, CompleteExecution(row, ts, user, f))
  {
    CompleteIsAllOrNothing(s, row, ts, user, f);
    if Complete(s, row, ts, user, f).1.None? {
      PairIff(s, Complete(s, row, ts, user, f).0, row.id, row.status, ts);
    }
  }

  /**
   * Main result: from any such store, every state of a run satisfies the invariant if and only if
   * every step of the run meets its premise.
   */
  lemma {:induction false} RunHasOneOutcomeIff(s: Store, steps: seq<Step>)
    requires s.Valid() && OneOutcome(s)
    ensures (forall k | 0 <= k <= |steps| :: OneOutcome(StateAt(s, steps, k)))
       <==> (forall k | 0 <= k < |steps| :: NoTimeoutPremise(StateAt(s, steps, k), steps[k]))
  {
    if forall k | 0 <= k <= |steps| :: OneOutcome(StateAt(s, steps, k)) {
      forall k | 0 <= k < |steps|
        ensures NoTimeoutPremise(StateAt(s, steps, k), steps[k])
      {
        RunKeepsValid(s, steps[..k]);
        StateAtNext(s, steps, k);
        StepKeepsOneOutcomeIff(StateAt(s, steps, k), steps[k]);
        assert OneOutcome(StateAt(s, steps, k + 1));
      }
    }
    if forall k | 0 <= k < |steps| :: NoTimeoutPremise(StateAt(s, steps, k), steps[k]) {
      forall k | 0 <= k <= |steps|
        ensures OneOutcome(StateAt(s, steps, k))
      {
        PremisesReachOneOutcome(s, steps, k);
      }
    }
  }

  lemma {:induction false} PremisesReachOneOutcome(s: Store, steps: seq<Step>, n: nat)
    requires s.Valid() && OneOutcome(s) && n <= |steps|
    requires forall k | 0 <= k < |steps| :: NoTimeoutPremise(StateAt(s, steps, k), steps[k])
    ensures OneOutcome(StateAt(s, steps, n))
  {
    if n == 0 {
      assert StateAt(s, steps, 0) == s;
    } else {
      PremisesReachOneOutcome(s, steps, n - 1);
      RunKeepsValid(s, steps[..n - 1]);
      StateAtNext(s, steps, n - 1);
      StepKeepsOneOutcomeIff(StateAt(s, steps, n - 1), steps[n - 1]);
    }
  }

  /**
   * What the invariant says of one task: a running task has exactly one live execution, a completed
   * or failed one exactly one execution of that status, and all its other executions are cancelled.
   */
  lemma OneOutcomePerTask(s: Store, t: Uuid)
    requires OneOutcome(s) && t in s.tasks
    ensures !s.tasks[t].status.Timeout?
    ensures Idle(s.tasks[t].status) ==>
              forall e | e in s.executions && s.executions[e].taskId == t :: s.executions[e].status.Cancelled?
    ensures !Idle(s.tasks[t].status) ==>
              exists e :: Stands(s, e, t) && Agrees(s.tasks[t].status, s.executions[e].status)
                && forall x | x in s.executions && s.executions[x].taskId == t && x != e ::
                     s.executions[x].status.Cancelled?
  {
    forall e | e in s.executions && s.executions[e].taskId == t && Idle(s.tasks[t].status)
      ensures s.executions[e].status.Cancelled?
    {
      assert StandingAgrees(s, e);
    }
    if !Idle(s.tasks[t].status) {
      var e :| Stands(s, e, t);
      assert StandingAgrees(s, e);
      forall x | x in s.executions && s.executions[x].taskId == t && x != e
        ensures s.executions[x].status.Cancelled?
      {
        assert !Stands(s, x, t);
      }
    }
  }
}
