/**
 * The runner's Complete against the user's Cancels: CancelTaskExecution and executeTaskAsync run
 * concurrently, and only the status guards decide which of them writes.
 */
module CompletionRace {
  import opened Models
  import opened Database
  import opened TaskExecutionService
  import opened Lifecycle
  import opened Ownership

  predicate IsCancelOf(step: Step, e: Uuid, v: Uuid) {
    step.CancelExecution? && step.execution == e && step.user == v
  }

  predicate IsCompleteOf(step: Step, e: Uuid, v: Uuid) {
    step.CompleteExecution? && step.row.id == e && step.user == v
  }

  /** A call of the owner v for execution e. */
  predicate Contends(step: Step, e: Uuid, v: Uuid) {
    IsCancelOf(step, e, v) || IsCompleteOf(step, e, v)
  }

  /** The step is about other tasks than t, in the state it is taken in. */
  predicate Elsewhere(s: Store, step: Step, t: Uuid) {
    match step
    case AddTask(_, _) => true
    case DeleteTask(u, _) => u != t
    case CreateExecution(u, _, _, _) => u != t
    case TaskPutWrite(u, _, _, _) => u != t
    case CancelExecution(x, _, _) => x in s.executions ==> s.executions[x].taskId != t
    case CompleteExecution(row, _, _, _) => row.id in s.executions ==> s.executions[row.id].taskId != t
    case PutWrite(row, _, _) => row.id in s.executions ==> s.executions[row.id].taskId != t
    case MarkRunning(x, _) => x in s.executions ==> s.executions[x].taskId != t
  }

  /** Requests of other users, anything about other tasks, and marking other executions may come in between. */
  predicate Unrelated(s: Store, step: Step, e: Uuid, v: Uuid)
    requires e in s.executions
  {
    || RequestOfAnother(step, v)
    || Elsewhere(s, step, s.executions[e].taskId)
    || (step.MarkRunning? && (step.execution != e || step.fails))
  }

  /** Every step of the run, in the state it is taken in, contends for e or is unrelated to it. */
  predicate OnlyTheseSteps(s: Store, steps: seq<Step>, e: Uuid, v: Uuid)
    decreases |steps|
  {
    steps != [] ==>
      && e in s.executions
      && (Contends(steps[0], e, v) || Unrelated(s, steps[0], e, v))
      && OnlyTheseSteps(Apply(s, steps[0]), steps[1..], e, v)
  }

  /** The database does not stop the call: no fault, and the results can be stored. */
  predicate Viable(step: Step, e: Uuid, v: Uuid) {
    || (IsCancelOf(step, e, v) && step.faults == NO_FAULTS)
    || (IsCompleteOf(step, e, v) && step.faults == NO_FAULTS && step.row.results.Storable())
  }

  /** A completion after which neither Cancel nor another status can follow without a Complete. */
  predicate Decisive(es: ExecutionStatus) {
    es.Completed? || es.Failed? || es.Cancelled?
  }

  predicate CommitsAt(s: Store, step: Step) {
    match step
    case CancelExecution(e, user, f) => Cancel(s, e, user, f).1.None?
    case CompleteExecution(row, ts, user, f) => Complete(s, row, ts, user, f).1.None?
    case _ => false
  }

  /** The positions at which the owner's calls for e commit in a run that is at position `from`. */
  function Winners(s: Store, steps: seq<Step>, e: Uuid, v: Uuid, from: nat): seq<nat>
    decreases |steps|
  {
    if steps == [] then []
    else (if Contends(steps[0], e, v) && CommitsAt(s, steps[0]) then [from] else [])
         + Winners(Apply(s, steps[0]), steps[1..], e, v, from + 1)
  }

  function Completions(steps: seq<Step>, e: Uuid, v: Uuid): nat
    decreases |steps|
  {
    if steps == [] then 0 else (if IsCompleteOf(steps[0], e, v) then 1 else 0) + Completions(steps[1..], e, v)
  }

  /** The position of the first viable call, or |steps| when there is none. */
  function FirstViable(steps: seq<Step>, e: Uuid, v: Uuid): (k: nat)
    ensures k <= |steps|
    decreases |steps|
  {
    if steps == [] then 0
    else if Viable(steps[0], e, v) then 0
    else 1 + FirstViable(steps[1..], e, v)
  }

  lemma {:induction false} FirstViableIsFirst(steps: seq<Step>, e: Uuid, v: Uuid)
    ensures
      var k := FirstViable(steps, e, v);
      (k < |steps| ==> Viable(steps[k], e, v)) && forall j | 0 <= j < k :: !Viable(steps[j], e, v)
    decreases |steps|
  {
    if steps != [] && !Viable(steps[0], e, v) {
      FirstViableIsFirst(steps[1..], e, v);
      assert forall j | 0 < j < |steps| :: steps[j] == steps[1..][j - 1];
    }
  }

  /** What the two rows hold of an execution: both statuses and the result columns. */
  datatype Pair = Pair(execution: ExecutionStatus, task: TaskStatus, results: Results)

  ghost predicate PairIs(s: Store, e: Uuid, v: Uuid, p: Pair) {
    && OwnsExecution(s, e, v)
    && s.executions[e].status == p.execution
    && s.executions[e].results == p.results
    && s.tasks[s.executions[e].taskId].status == p.task
  }

  /** A cancelled execution keeps its results; its task is pending. */
  function CancelledPair(p: Pair): Pair {
    Pair(ExecutionStatus.Cancelled, TaskStatus.Pending, p.results)
  }

  /** What a committing call leaves in the two rows. */
  function OutcomeOf(step: Step, p: Pair): Pair {
    if step.CompleteExecution? then Pair(step.row.status, step.taskStatus, step.row.results) else CancelledPair(p)
  }

  lemma ElsewhereKeepsPair(s: Store, step: Step, e: Uuid, v: Uuid, p: Pair)
    requires s.Valid() && PairIs(s, e, v, p) && Elsewhere(s, step, s.executions[e].taskId)
    ensures PairIs(Apply(s, step), e, v, p)
  {
    match step
    case CreateExecution(t, user, newId, f) => CreateIsAllOrNothing(s, t, user, newId, f);
    case CancelExecution(x, user, f) => CancelIsAllOrNothing(s, x, user, f);
    case CompleteExecution(row, taskStatus, user, f) => CompleteIsAllOrNothing(s, row, taskStatus, user, f);
    case _ =>
  }

  lemma UnrelatedKeepsPair(s: Store, step: Step, e: Uuid, v: Uuid, p: Pair)
    requires s.Valid() && PairIs(s, e, v, p) && Unrelated(s, step, e, v)
    ensures PairIs(Apply(s, step), e, v, p)
  {
    if RequestOfAnother(step, v) {
      var s' := Apply(s, step);
      StepOfAnotherKeepsViews(s, step, v);
      assert e in ExecutionsOf(s, v) && e in ExecutionsOf(s', v);
      assert ExecutionsOf(s, v)[e] == ExecutionsOf(s', v)[e];
      var t := s.executions[e].taskId;
      assert t in TasksOf(s, v) && TasksOf(s, v)[t] == TasksOf(s', v)[t];
    } else if Elsewhere(s, step, s.executions[e].taskId) {
      ElsewhereKeepsPair(s, step, e, v, p);
    }
  }

  /** What one contending call does to the pair, from its status alone. */
  lemma ContenderEffect(s: Store, step: Step, e: Uuid, v: Uuid, p: Pair)
    requires s.Valid() && PairIs(s, e, v, p) && Contends(step, e, v)
    ensures CommitsAt(s, step) <==>
            && Viable(step, e, v)
            && (if step.CompleteExecution? then Completable(p.execution) else Cancellable(p.execution))
    ensures !CommitsAt(s, step) ==> Apply(s, step) == s
    ensures CommitsAt(s, step) ==> PairIs(Apply(s, step), e, v, OutcomeOf(step, p))
  {
    match step
    case CancelExecution(_, _, f) => CancelIsAllOrNothing(s, e, v, f);
    case CompleteExecution(row, taskStatus, _, f) => CompleteIsAllOrNothing(s, row, taskStatus, v, f);
  }

  /** A step that does not commit for e leaves the pair. */
  lemma IdleStepKeepsPair(s: Store, step: Step, e: Uuid, v: Uuid, p: Pair)
    requires s.Valid() && PairIs(s, e, v, p)
    requires Contends(step, e, v) || Unrelated(s, step, e, v)
    requires Viable(step, e, v) ==>
               if step.CompleteExecution? then !Completable(p.execution) else !Cancellable(p.execution)
    ensures Apply(s, step).Valid() && PairIs(Apply(s, step), e, v, p)
    ensures !(Contends(step, e, v) && CommitsAt(s, step))
  {
    ApplyKeepsValid(s, step);
    if Contends(step, e, v) {
      ContenderEffect(s, step, e, v, p);
    } else {
      UnrelatedKeepsPair(s, step, e, v, p);
    }
  }

  /** Once decided, nothing more commits and the pair stays. */
  lemma {:induction false} DecidedStays(s: Store, steps: seq<Step>, e: Uuid, v: Uuid, p: Pair, from: nat)
    requires s.Valid() && PairIs(s, e, v, p) && Decisive(p.execution)
    requires OnlyTheseSteps(s, steps, e, v)
    requires p.execution.Failed? ==> Completions(steps, e, v) == 0
    ensures Winners(s, steps, e, v, from) == []
    ensures PairIs(Run(s, steps), e, v, p)
    decreases |steps|
  {
    if steps != [] {
      IdleStepKeepsPair(s, steps[0], e, v, p);
      DecidedStays(Apply(s, steps[0]), steps[1..], e, v, p, from + 1);
    }
  }

  /** With no completion left, the first viable Cancel is the only call that commits. */
  lemma {:induction false} OnlyCancelsLeft(s: Store, steps: seq<Step>, e: Uuid, v: Uuid, p: Pair, from: nat)
    requires s.Valid() && PairIs(s, e, v, p) && !Decisive(p.execution)
    requires OnlyTheseSteps(s, steps, e, v) && Completions(steps, e, v) == 0
    ensures
      var k := FirstViable(steps, e, v);
      && Winners(s, steps, e, v, from) == (if k < |steps| then [from + k] else [])
      && PairIs(Run(s, steps), e, v, if k < |steps| then CancelledPair(p) else p)
    decreases |steps|
  {
    if steps != [] {
      var s' := Apply(s, steps[0]);
      if Viable(steps[0], e, v) {
        ApplyKeepsValid(s, steps[0]);
        ContenderEffect(s, steps[0], e, v, p);
        DecidedStays(s', steps[1..], e, v, CancelledPair(p), from + 1);
      } else {
        IdleStepKeepsPair(s, steps[0], e, v, p);
        OnlyCancelsLeft(s', steps[1..], e, v, p, from + 1);
      }
    }
  }

  /**
   * The race that `first`, the first viable call, decides at position `at`: it commits; a viable Cancel
   * in the rest commits after it, and keeps the results, if the first call's status is indecisive; nothing
   * else does. The positions that commit, and the pair that is left.
   */
  function WonBy(first: Step, at: nat, rest: seq<Step>, e: Uuid, v: Uuid, p: Pair): (seq<nat>, Pair) {
    var won := OutcomeOf(first, p);
    var k := FirstViable(rest, e, v);
    if !Decisive(won.execution) && k < |rest| then ([at, at + 1 + k], CancelledPair(won)) else ([at], won)
  }

  function RaceOutcome(steps: seq<Step>, e: Uuid, v: Uuid, p: Pair, from: nat): (seq<nat>, Pair)
    requires FirstViable(steps, e, v) < |steps|
  {
    var first := FirstViable(steps, e, v);
    WonBy(steps[first], from + first, steps[first + 1..], e, v, p)
  }

  lemma {:induction false} NotViableIsSkipped(steps: seq<Step>, e: Uuid, v: Uuid, p: Pair, from: nat)
    requires steps != [] && !Viable(steps[0], e, v) && FirstViable(steps, e, v) < |steps|
    ensures FirstViable(steps[1..], e, v) < |steps[1..]|
    ensures RaceOutcome(steps, e, v, p, from) == RaceOutcome(steps[1..], e, v, p, from + 1)
  {
    var k := FirstViable(steps[1..], e, v);
    assert steps[1..][k + 1..] == steps[k + 2..];
  }

  /** A race whose first step is a viable call. */
  lemma {:induction false} FirstCallDecides(s: Store, steps: seq<Step>, e: Uuid, v: Uuid, p: Pair, from: nat)
    requires s.Valid() && PairIs(s, e, v, p) && p.execution.IsLive()
    requires steps != [] && Viable(steps[0], e, v)
    requires OnlyTheseSteps(s, steps, e, v) && Completions(steps, e, v) <= 1
    ensures
      var (winners, end) := WonBy(steps[0], from, steps[1..], e, v, p);
      Winners(s, steps, e, v, from) == winners && PairIs(Run(s, steps), e, v, end)
  {
    ApplyKeepsValid(s, steps[0]);
    ContenderEffect(s, steps[0], e, v, p);
    var won := OutcomeOf(steps[0], p);
    if Decisive(won.execution) {
      DecidedStays(Apply(s, steps[0]), steps[1..], e, v, won, from + 1);
    } else {
      OnlyCancelsLeft(Apply(s, steps[0]), steps[1..], e, v, won, from + 1);
    }
  }

  /**
   * Main result. A live execution meets any ordering of the owner's Cancels and at most one Complete, with
   * faults, requests about other tasks and requests of other users in between, at least one of the calls viable.
   * The first viable call commits. It is the only one, and the final pair with its results is its pair, if and
   * only if it is not a completion with an indecisive status (a timeout) that a viable Cancel follows.
   */
  lemma {:induction false} RaceHasOneWinnerIff(s: Store, steps: seq<Step>, e: Uuid, v: Uuid, p: Pair, from: nat)
    requires s.Valid() && PairIs(s, e, v, p) && p.execution.IsLive()
    requires OnlyTheseSteps(s, steps, e, v) && Completions(steps, e, v) <= 1
    requires FirstViable(steps, e, v) < |steps|
    ensures
      var (winners, end) := RaceOutcome(steps, e, v, p, from);
      Winners(s, steps, e, v, from) == winners && PairIs(Run(s, steps), e, v, end)
    decreases |steps|
  {
    if Viable(steps[0], e, v) {
      FirstCallDecides(s, steps, e, v, p, from);
    } else {
      IdleStepKeepsPair(s, steps[0], e, v, p);
      NotViableIsSkipped(steps, e, v, p, from);
      RaceHasOneWinnerIff(Apply(s, steps[0]), steps[1..], e, v, p, from + 1);
    }
  }

  /** Winners lists exactly the positions whose calls commit in the state they are taken in. */
  lemma {:induction false} WinnersAreTheCommits(s: Store, steps: seq<Step>, e: Uuid, v: Uuid, from: nat, k: nat)
    requires k < |steps|
    ensures from + k in Winners(s, steps, e, v, from) <==>
            Contends(steps[k], e, v) && CommitsAt(StateAt(s, steps, k), steps[k])
    decreases |steps|
  {
    var rest := Winners(Apply(s, steps[0]), steps[1..], e, v, from + 1);
    WinnersComeLater(Apply(s, steps[0]), steps[1..], e, v, from + 1);
    if k == 0 {
      assert StateAt(s, steps, 0) == s;
    } else {
      StateAtShift(s, steps, k);
      WinnersAreTheCommits(Apply(s, steps[0]), steps[1..], e, v, from + 1, k - 1);
    }
  }

  lemma {:induction false} WinnersComeLater(s: Store, steps: seq<Step>, e: Uuid, v: Uuid, from: nat)
    ensures forall i <- Winners(s, steps, e, v, from) :: from <= i
    decreases |steps|
  {
    if steps != [] {
      WinnersComeLater(Apply(s, steps[0]), steps[1..], e, v, from + 1);
    }
  }
}
