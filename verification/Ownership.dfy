/** One user's requests never touch another user's tasks or executions. */
module Ownership {
  import opened Models
  import opened Database
  import opened TaskExecutionService
  import opened Lifecycle

  function TasksOf(s: Store, v: Uuid): map<Uuid, Task> {
    map t | t in s.tasks && s.tasks[t].owner == v :: s.tasks[t]
  }

  function ExecutionsOf(s: Store, v: Uuid): map<Uuid, Execution> {
    map e | e in s.executions && OwnsExecution(s, e, v) :: s.executions[e]
  }

  /** The user who makes the request; the runner's write has none. */
  function Actor(step: Step): Option<Uuid> {
    match step
    case AddTask(_, user) => Some(user)
    case DeleteTask(_, user) => Some(user)
    case CreateExecution(_, user, _, _) => Some(user)
    case CancelExecution(_, user, _) => Some(user)
    case CompleteExecution(_, _, user, _) => Some(user)
    case PutWrite(_, user, _) => Some(user)
    case TaskPutWrite(_, _, user, _) => Some(user)
    case MarkRunning(_, _) => None
  }

  predicate RequestOfAnother(step: Step, v: Uuid) {
    Actor(step).Some? && Actor(step).value != v
  }

  /** A request of another user, or the runner at work on an execution that is not v's. */
  predicate ActsForAnother(s: Store, step: Step, v: Uuid) {
    RequestOfAnother(step, v) || (step.MarkRunning? && !OwnsExecution(s, step.execution, v))
  }

  /** Every step of the run, in the state it is taken in, acts for another user. */
  predicate OnlyOthersAct(s: Store, steps: seq<Step>, v: Uuid)
    decreases |steps|
  {
    steps != [] ==> ActsForAnother(s, steps[0], v) && OnlyOthersAct(Apply(s, steps[0]), steps[1..], v)
  }

  lemma PairOfAnotherKeepsViews(s: Store, s': Store, e: Uuid, v: Uuid)
    requires s.Valid() && s'.Valid()
    requires e in s'.executions && s'.executions[e].taskId in s.tasks
    requires s.tasks[s'.executions[e].taskId].owner != v
    requires e in s.executions ==> s.executions[e].taskId == s'.executions[e].taskId
    requires OnlyThisPair(s, s', e, s'.executions[e].taskId)
    ensures TasksOf(s', v) == TasksOf(s, v) && ExecutionsOf(s', v) == ExecutionsOf(s, v)
  {
  }

  lemma TaskStepsOfAnotherKeepViews(s: Store, t: Uuid, user: Uuid, v: Uuid)
    requires s.Valid() && user != v
    ensures TasksOf(Apply(s, AddTask(t, user)), v) == TasksOf(s, v)
    ensures ExecutionsOf(Apply(s, AddTask(t, user)), v) == ExecutionsOf(s, v)
    ensures TasksOf(DeleteTaskStep(s, t, user), v) == TasksOf(s, v)
    ensures ExecutionsOf(DeleteTaskStep(s, t, user), v) == ExecutionsOf(s, v)
  {
  }

  lemma TaskPutOfAnotherKeepsViews(s: Store, t: Uuid, status: TaskStatus, user: Uuid, fails: bool, v: Uuid)
    requires s.Valid() && user != v
    ensures TasksOf(TaskPutWriteStep(s, t, status, user, fails), v) == TasksOf(s, v)
    ensures ExecutionsOf(TaskPutWriteStep(s, t, status, user, fails), v) == ExecutionsOf(s, v)
  {
  }

  lemma StepOfAnotherKeepsViews(s: Store, step: Step, v: Uuid)
    requires s.Valid() && ActsForAnother(s, step, v)
    ensures TasksOf(Apply(s, step), v) == TasksOf(s, v)
    ensures ExecutionsOf(Apply(s, step), v) == ExecutionsOf(s, v)
  {
    ApplyKeepsValid(s, step);
    match step
    case AddTask(t, user) => TaskStepsOfAnotherKeepViews(s, t, user, v);
    case DeleteTask(t, user) => TaskStepsOfAnotherKeepViews(s, t, user, v);
    case CreateExecution(t, user, newId, f) =>
      CreateIsAllOrNothing(s, t, user, newId, f);
      if Create(s, t, user, newId, f).1.Ok? {
        PairOfAnotherKeepsViews(s, Apply(s, step), newId, v);
      }
    case CancelExecution(e, user, f) =>
      CancelIsAllOrNothing(s, e, user, f);
      if Cancel(s, e, user, f).1.None? {
        PairOfAnotherKeepsViews(s, Apply(s, step), e, v);
      }
    case CompleteExecution(row, ts, user, f) =>
      CompleteIsAllOrNothing(s, row, ts, user, f);
      if Complete(s, row, ts, user, f).1.None? {
        PairOfAnotherKeepsViews(s, Apply(s, step), row.id, v);
      }
    case PutWrite(row, user, fails) =>
      if PutWrites(s, row, user, fails) {
        PairOfAnotherKeepsViews(s, Apply(s, step), row.id, v);
      }
    case TaskPutWrite(t, status, user, fails) => TaskPutOfAnotherKeepsViews(s, t, status, user, fails, v);
    case MarkRunning(e, fails) =>
      if !fails && e in s.executions {
        PairOfAnotherKeepsViews(s, Apply(s, step), e, v);
      }
  }

  /**
   * Main result: a run of requests by other users, with the runner marking other users' executions in
   * between, leaves everything of v exactly as it was.
   */
  lemma {:induction false} OthersNeverTouch(s: Store, steps: seq<Step>, v: Uuid)
    requires s.Valid() && OnlyOthersAct(s, steps, v)
    ensures TasksOf(Run(s, steps), v) == TasksOf(s, v)
    ensures ExecutionsOf(Run(s, steps), v) == ExecutionsOf(s, v)
    decreases |steps|
  {
    if steps != [] {
      ApplyKeepsValid(s, steps[0]);
      StepOfAnotherKeepsViews(s, steps[0], v);
      OthersNeverTouch(Apply(s, steps[0]), steps[1..], v);
    }
  }
}
