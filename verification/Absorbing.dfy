/** Completed and cancelled executions are final, except for the two unguarded execution writes. */
module Absorbing {
  import opened Models
  import opened Database
  import opened TaskExecutionService
  import opened Lifecycle

  predicate Settled(s: Store, e: Uuid) {
    e in s.executions && (s.executions[e].status.Completed? || s.executions[e].status.Cancelled?)
  }

  predicate Keeps(s: Store, e: Uuid, row: Execution) {
    e in s.executions && s.executions[e] == row
  }

  /** The step is one of the two unguarded execution writes, aimed at e, or deletes the task of e. */
  predicate Disturbs(s: Store, e: Uuid, step: Step)
    requires e in s.executions
  {
    match step
    case MarkRunning(x, fails) => x == e && !fails
    case PutWrite(row, user, fails) => row.id == e && PutWrites(s, row, user, fails)
    case DeleteTask(t, user) =>
      && t == s.executions[e].taskId
      && t in s.tasks && s.tasks[t].owner == user
    case _ => false
  }

  /** A step leaves the whole row of a settled execution alone if and only if it does not disturb it. */
  lemma SettledRowKeptIff(s: Store, e: Uuid, step: Step)
    requires s.Valid() && Settled(s, e)
    ensures Keeps(Apply(s, step), e, s.executions[e]) <==> !Disturbs(s, e, step)
  {
    match step
    case CreateExecution(t, user, newId, f) => CreateIsAllOrNothing(s, t, user, newId, f);
    case CancelExecution(x, user, f) => CancelIsAllOrNothing(s, x, user, f);
    case CompleteExecution(row, ts, user, f) => CompleteIsAllOrNothing(s, row, ts, user, f);
    case _ =>
  }

  /** Over a whole run the row never changes if and only if no step disturbs it when taken. */
  lemma {:induction false} SettledForeverIff(s: Store, e: Uuid, steps: seq<Step>)
    requires s.Valid() && Settled(s, e)
    ensures (forall k | 0 <= k <= |steps| :: Keeps(StateAt(s, steps, k), e, s.executions[e]))
       <==> (forall k | 0 <= k < |steps| ::
               e in StateAt(s, steps, k).executions ==> !Disturbs(StateAt(s, steps, k), e, steps[k]))
  {
    if forall k | 0 <= k <= |steps| :: Keeps(StateAt(s, steps, k), e, s.executions[e]) {
      forall k | 0 <= k < |steps|
        ensures !Disturbs(StateAt(s, steps, k), e, steps[k])
      {
        RunKeepsValid(s, steps[..k]);
        StateAtNext(s, steps, k);
        assert Keeps(StateAt(s, steps, k), e, s.executions[e]);
        assert Keeps(StateAt(s, steps, k + 1), e, s.executions[e]);
        SettledRowKeptIff(StateAt(s, steps, k), e, steps[k]);
      }
    }
    if forall k | 0 <= k < |steps| ::
        e in StateAt(s, steps, k).executions ==> !Disturbs(StateAt(s, steps, k), e, steps[k]) {
      forall k | 0 <= k <= |steps|
        ensures Keeps(StateAt(s, steps, k), e, s.executions[e])
      {
        UndisturbedRowKept(s, e, steps, k);
      }
    }
  }

  lemma {:induction false} UndisturbedRowKept(s: Store, e: Uuid, steps: seq<Step>, n: nat)
    requires s.Valid() && Settled(s, e) && n <= |steps|
    requires forall k | 0 <= k < |steps| ::
               e in StateAt(s, steps, k).executions ==> !Disturbs(StateAt(s, steps, k), e, steps[k])
    ensures Keeps(StateAt(s, steps, n), e, s.executions[e])
  {
    if n == 0 {
      assert StateAt(s, steps, 0) == s;
    } else {
      UndisturbedRowKept(s, e, steps, n - 1);
      RunKeepsValid(s, steps[..n - 1]);
      StateAtNext(s, steps, n - 1);
      SettledRowKeptIff(StateAt(s, steps, n - 1), e, steps[n - 1]);
    }
  }

  /**
   * While its task is not deleted, an execution is never moved to another task, renamed or re-dated,
   * whatever rows callers supply.
   */
  lemma {:induction false} IdentityColumnsNeverChange(s: Store, steps: seq<Step>, e: Uuid)
    requires s.Valid() && e in s.executions
    requires forall step <- steps :: step.DeleteTask? ==> step.task != s.executions[e].taskId
    ensures e in Run(s, steps).executions
    ensures
      var row := Run(s, steps).executions[e];
      row.id == e && row.taskId == s.executions[e].taskId && row.createdAt == s.executions[e].createdAt
    decreases |steps|
  {
    if steps != [] {
      ApplyKeepsValid(s, steps[0]);
      IdentityColumnsKept(s, steps[0], e);
      IdentityColumnsNeverChange(Apply(s, steps[0]), steps[1..], e);
    }
  }

  lemma IdentityColumnsKept(s: Store, step: Step, e: Uuid)
    requires s.Valid() && e in s.executions
    requires step.DeleteTask? ==> step.task != s.executions[e].taskId
    ensures
      var s' := Apply(s, step);
      && e in s'.executions
      && s'.executions[e].taskId == s.executions[e].taskId
      && s'.executions[e].createdAt == s.executions[e].createdAt
  {
  }
}
