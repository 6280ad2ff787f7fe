/**
 * internal/executor/cleanup.go and executor.go side by side: any number of executor runs and
 * cleanup loops interleave, each between any two operations of the others. The tracked map is
 * compared with the containers that are really there.
 */
module ContainerTracking {
  import opened Models
  import opened ContainerCleanup

  /** What the executor does next for the container it created. */
  datatype Phase = ToRegister | ToStart | ToMark | ToWait | ToComplete | ToRemove | Done

  datatype ExecutorRun = ExecutorRun(phase: Phase, task: Uuid, execution: Uuid, image: string)

  /** A cleanup loop: the ids it has still to clean, and whether the first is removed already. */
  datatype Job = Job(todo: seq<ContainerId>, headRemoved: bool)

  /**
   * `known` holds every container id ever used, `registered` every id whose registration succeeded.
   */
  datatype State = State(
    live: set<ContainerId>,
    known: set<ContainerId>,
    tracked: Containers,
    registered: set<ContainerId>,
    runs: map<ContainerId, ExecutorRun>,
    jobs: seq<Job>)

  const EMPTY := State({}, {}, map[], {}, map[], [])

  datatype Kind =
    | ByExecution(execution: Uuid)
    | ByTask(task: Uuid)
    | Stale(now: int, maxAge: int)
    | All
    | Orphaned(listed: seq<Summary>)

  datatype Step =
    | OtherProgramCreates(id: ContainerId)
    | Create(id: ContainerId, task: Uuid, execution: Uuid, image: string)
    | Advance(id: ContainerId, ok: bool, now: int, status: TrackStatus)
    | Exit(id: ContainerId)
    | Begin(kind: Kind, ids: seq<ContainerId>)
    | JobRemove(job: nat, ok: bool)
    | JobUnregister(job: nat)

  /** The tracked containers a cleanup of this kind starts with, chosen while the map is locked. */
  function Snapshot(tracked: Containers, kind: Kind): set<ContainerId> {
    match kind
    case ByExecution(e) => Matching(tracked, (info: ContainerInfo) => info.executionId == e)
    case ByTask(t) => Matching(tracked, (info: ContainerInfo) => info.taskId == t)
    case Stale(now, maxAge) => Matching(tracked, (info: ContainerInfo) => now - info.createdAt > maxAge)
    case All => tracked.Keys
    case Orphaned(_) => {}
  }

  /**
   * With which ids a cleanup may start. The orphan sweep lists the containers first and then looks each one up, at
   * some later moment: it starts with any of those that were listed, and what was listed existed at some time.
   */
  predicate CanStart(s: State, kind: Kind, ids: seq<ContainerId>) {
    if kind.Orphaned? then
      && (forall i | 0 <= i < |kind.listed| :: kind.listed[i].id in s.known)
      && forall id <- ids :: exists i | 0 <= i < |kind.listed| :: kind.listed[i].id == id && IsOwn(kind.listed[i])
    else Ids(ids) == Snapshot(s.tracked, kind)
  }

  /** The next operation of the executor for its container; a removal does not unregister. */
  function AdvanceRun(s: State, id: ContainerId, ok: bool, now: int, status: TrackStatus): State
    requires id in s.runs
  {
    var run := s.runs[id];
    match run.phase
    case ToRegister =>
      var (m, err) := Register(s.tracked, id, run.task, run.execution, run.image, now);
      s.(tracked := m,
         registered := if err.None? then s.registered + {id} else s.registered,
         runs := s.runs[id := run.(phase := ToStart)])
    case ToStart => s.(runs := s.runs[id := run.(phase := if ok then ToMark else ToRemove)])
    case ToMark => s.(tracked := MarkStarted(s.tracked, id, now), runs := s.runs[id := run.(phase := ToWait)])
    case ToWait => s.(runs := s.runs[id := run.(phase := ToComplete)])
    case ToComplete =>
      s.(tracked := MarkCompleted(s.tracked, id, status), runs := s.runs[id := run.(phase := ToRemove)])
    case ToRemove =>
      s.(live := if ok then s.live - {id} else s.live, runs := s.runs[id := run.(phase := Done)])
    case Done => s
  }

  /** A failed removal goes on to the next id; a successful one leaves the unregistering to do. */
  function RemoveFirst(s: State, j: nat, ok: bool): State
    requires j < |s.jobs| && s.jobs[j].todo != [] && !s.jobs[j].headRemoved
  {
    var job := s.jobs[j];
    if ok then s.(live := s.live - {job.todo[0]}, jobs := s.jobs[j := job.(headRemoved := true)])
    else s.(jobs := s.jobs[j := job.(todo := job.todo[1..])])
  }

  predicate CanRemove(s: State, j: nat) {
    j < |s.jobs| && s.jobs[j].todo != [] && !s.jobs[j].headRemoved
  }

  predicate CanUnregister(s: State, j: nat) {
    j < |s.jobs| && s.jobs[j].todo != [] && s.jobs[j].headRemoved
  }

  /** Does this step take `id` out of the tracked map? */
  predicate Unregisters(s: State, step: Step, id: ContainerId) {
    step.JobUnregister? && CanUnregister(s, step.job) && s.jobs[step.job].todo[0] == id
  }

  function Apply(s: State, step: Step): State {
    match step
    case OtherProgramCreates(id) =>
      if id in s.known then s else s.(live := s.live + {id}, known := s.known + {id})
    case Create(id, task, execution, image) =>
      // Cutting an id of fewer than twelve characters for the log panics; nothing follows.
      if id in s.known then s
      else s.(live := s.live + {id}, known := s.known + {id},
              runs := s.runs[id := ExecutorRun(if |id| < 12 then Done else ToRegister, task, execution, image)])
    case Advance(id, ok, now, status) => if id in s.runs then AdvanceRun(s, id, ok, now, status) else s
    case Exit(id) => s.(live := s.live - {id})
    case Begin(kind, ids) =>
      if CanStart(s, kind, ids) then s.(jobs := s.jobs + [Job(ids, false)]) else s
    case JobRemove(j, ok) => if CanRemove(s, j) then RemoveFirst(s, j, ok) else s
    case JobUnregister(j) =>
      if CanUnregister(s, j) then
        s.(tracked := s.tracked - {s.jobs[j].todo[0]}, jobs := s.jobs[j := Job(s.jobs[j].todo[1..], false)])
      else s
  }

  function Run(s: State, steps: seq<Step>): State
    decreases |steps|
  {
    if steps == [] then s else Run(Apply(s, steps[0]), steps[1..])
  }

  // ----- Every registered container that exists is tracked -----

  ghost predicate RegisteredAreTracked(s: State) {
    s.registered * s.live <= s.tracked.Keys
  }

  /** Cleanup works on ids that were used before, and unregisters only what is gone. */
  ghost predicate JobIsSound(s: State, job: Job) {
    && Ids(job.todo) <= s.known
    && (job.headRemoved ==> job.todo != [] && job.todo[0] !in s.live)
  }

  ghost predicate RunIsSound(s: State, id: ContainerId)
    requires id in s.runs
  {
    s.runs[id].phase.ToRegister? ==> id !in s.tracked && id !in s.registered
  }

  ghost predicate Inv(s: State) {
    && s.live <= s.known
    && s.runs.Keys <= s.known
    && s.tracked.Keys <= s.runs.Keys
    && s.registered <= s.runs.Keys
    && (forall id <- s.runs :: RunIsSound(s, id))
    && (forall j | 0 <= j < |s.jobs| :: JobIsSound(s, s.jobs[j]))
    && RegisteredAreTracked(s)
  }

  lemma {:induction false} ApplyKeepsInv(s: State, step: Step)
    requires Inv(s)
    ensures Inv(Apply(s, step))
    ensures |s.jobs| <= |Apply(s, step).jobs|
  {
    var s' := Apply(s, step);
    forall j | 0 <= j < |s'.jobs|
      ensures JobIsSound(s', s'.jobs[j])
    {
      if j < |s.jobs| {
        JobStaysSound(s, step, j);
      } else {
        StartedIsKnown(s, step.kind, step.ids);
      }
    }
    ApplyKeepsRuns(s, step);
    ApplyKeepsTracking(s, step);
  }

  lemma {:induction false} ApplyKeepsRuns(s: State, step: Step)
    requires Inv(s)
    ensures
      var s' := Apply(s, step);
      && s'.live <= s'.known && s'.runs.Keys <= s'.known && s'.tracked.Keys <= s'.runs.Keys
      && s'.registered <= s'.runs.Keys
      && forall id <- s'.runs :: RunIsSound(s', id)
  {
    var s' := Apply(s, step);
    forall id <- s'.runs
      ensures RunIsSound(s', id)
    {
      assert id in s.runs ==> RunIsSound(s, id);
    }
  }

  lemma {:induction false} ApplyKeepsTracking(s: State, step: Step)
    requires Inv(s)
    ensures RegisteredAreTracked(Apply(s, step))
  {
    if step.JobUnregister? && CanUnregister(s, step.job) {
      assert JobIsSound(s, s.jobs[step.job]);
    }
  }

  lemma {:induction false} JobStaysSound(s: State, step: Step, j: nat)
    requires Inv(s) && j < |s.jobs|
    ensures var s' := Apply(s, step); j < |s'.jobs| && JobIsSound(s', s'.jobs[j])
  {
  }

  lemma StartedIsKnown(s: State, kind: Kind, ids: seq<ContainerId>)
    requires Inv(s) && CanStart(s, kind, ids)
    ensures Ids(ids) <= s.known
  {
  }

  lemma {:induction false} RunKeepsInv(s: State, steps: seq<Step>)
    requires Inv(s)
    ensures Inv(Run(s, steps))
    decreases |steps|
  {
    if steps != [] {
      ApplyKeepsInv(s, steps[0]);
      RunKeepsInv(Apply(s, steps[0]), steps[1..]);
    }
  }

  /**
   * Main result: in every interleaving of executor runs, cancellations, sweeps and failing removals,
   * a container that was registered and still exists is tracked.
   */
  lemma LiveRegisteredContainersAreTracked(steps: seq<Step>, id: ContainerId)
    requires id in Run(EMPTY, steps).registered
    requires id in Run(EMPTY, steps).live
    ensures id in Run(EMPTY, steps).tracked
  {
    RunKeepsInv(EMPTY, steps);
  }

  /** Unregistering is safe exactly when the container is gone or was never registered. */
  lemma UnregisteringIsSafeIff(s: State, id: ContainerId)
    requires Inv(s)
    ensures RegisteredAreTracked(s.(tracked := s.tracked - {id})) <==> !(id in s.registered && id in s.live)
  {
    var s' := s.(tracked := s.tracked - {id});
    if id in s.registered && id in s.live {
      assert id in s'.registered * s'.live;
    }
  }

  // ----- A cleanup that succeeds leaves nothing of its snapshot behind -----

  ghost predicate NeverFails(steps: seq<Step>, j: nat) {
    JobRemove(j, false) !in steps
  }

  /** Everything in `wanted` waits in job j's list, or is gone for good. */
  ghost predicate Covered(s: State, j: nat, wanted: set<ContainerId>) {
    && j < |s.jobs|
    && forall id <- wanted :: CoveredId(s, j, id)
  }

  ghost predicate CoveredId(s: State, j: nat, id: ContainerId)
    requires j < |s.jobs|
  {
    && id in s.known
    && (id in Ids(s.jobs[j].todo) || (id !in s.live && id !in s.tracked))
    && (id in s.runs ==> !s.runs[id].phase.ToRegister?)
  }

  lemma WaitingIdStays(s: State, step: Step, j: nat, id: ContainerId)
    requires j < |s.jobs| && id in Ids(s.jobs[j].todo) && step != JobRemove(j, false)
    ensures
      var s' := Apply(s, step);
      && j < |s'.jobs|
      && (id in Ids(s'.jobs[j].todo)
          || (step == JobUnregister(j) && CanUnregister(s, j) && id == s.jobs[j].todo[0]))
  {
  }

  lemma GoneIdStaysGone(s: State, step: Step, id: ContainerId)
    requires id in s.known && id !in s.live && id !in s.tracked
    requires id in s.runs ==> !s.runs[id].phase.ToRegister?
    ensures id !in Apply(s, step).live && id !in Apply(s, step).tracked
  {
  }

  lemma {:induction false} CoveredIdStays(s: State, step: Step, j: nat, id: ContainerId)
    requires Inv(s) && j < |s.jobs| && CoveredId(s, j, id) && step != JobRemove(j, false)
    ensures j < |Apply(s, step).jobs| && CoveredId(Apply(s, step), j, id)
  {
    ApplyKeepsInv(s, step);
    assert JobIsSound(s, s.jobs[j]);
    if id in Ids(s.jobs[j].todo) {
      WaitingIdStays(s, step, j, id);
    } else {
      GoneIdStaysGone(s, step, id);
    }
  }

  lemma {:induction false} CoveredStays(s: State, steps: seq<Step>, j: nat, wanted: set<ContainerId>)
    requires Inv(s) && Covered(s, j, wanted) && NeverFails(steps, j)
    ensures Covered(Run(s, steps), j, wanted)
    decreases |steps|
  {
    if steps != [] {
      var s' := Apply(s, steps[0]);
      ApplyKeepsInv(s, steps[0]);
      forall id <- wanted
        ensures CoveredId(s', j, id)
      {
        CoveredIdStays(s, steps[0], j, id);
      }
      CoveredStays(s', steps[1..], j, wanted);
    }
  }

  /**
   * Main result: when a cleanup over tracked containers has worked off its list and none of its removals failed,
   * every container of its snapshot is gone and untracked, whatever else ran in between.
   */
  lemma FinishedCleanupLeavesNothing(s: State, kind: Kind, ids: seq<ContainerId>, steps: seq<Step>)
    requires Inv(s) && !kind.Orphaned? && Ids(ids) == Snapshot(s.tracked, kind)
    requires NeverFails(steps, |s.jobs|)
    requires
      var s' := Run(Apply(s, Begin(kind, ids)), steps);
      |s.jobs| < |s'.jobs| && s'.jobs[|s.jobs|].todo == []
    ensures
      var s' := Run(Apply(s, Begin(kind, ids)), steps);
      Snapshot(s.tracked, kind) !! s'.live && Snapshot(s.tracked, kind) !! s'.tracked.Keys
  {
    var begun := Apply(s, Begin(kind, ids));
    var wanted := Snapshot(s.tracked, kind);
    ApplyKeepsInv(s, Begin(kind, ids));
    forall id <- wanted
      ensures CoveredId(begun, |s.jobs|, id)
    {
      assert id in s.tracked && RunIsSound(s, id);
    }
    CoveredStays(begun, steps, |s.jobs|, wanted);
    var s' := Run(begun, steps);
    forall id <- wanted
      ensures id !in s'.live && id !in s'.tracked
    {
      assert CoveredId(s', |s.jobs|, id);
    }
  }

  // ----- The executor's own removal leaves the entry behind -----

  predicate EverUnregistered(s: State, steps: seq<Step>, id: ContainerId)
    decreases |steps|
  {
    steps != [] && (Unregisters(s, steps[0], id) || EverUnregistered(Apply(s, steps[0]), steps[1..], id))
  }

  ghost predicate PastRegistration(s: State, id: ContainerId) {
    id in s.runs && !s.runs[id].phase.ToRegister?
  }

  lemma {:induction false} NeverTrackedAgain(s: State, steps: seq<Step>, id: ContainerId)
    requires Inv(s) && PastRegistration(s, id) && id !in s.tracked
    ensures id !in Run(s, steps).tracked
    decreases |steps|
  {
    if steps != [] {
      ApplyKeepsInv(s, steps[0]);
      NeverTrackedAgain(Apply(s, steps[0]), steps[1..], id);
    }
  }

  /**
   * Main result: a tracked container stays tracked if and only if no cleanup loop reaches the unregistering of
   * it. Nothing the executor does ends the tracking, not even its own successful removal.
   */
  lemma {:induction false} TrackedUntilUnregisteredIff(s: State, steps: seq<Step>, id: ContainerId)
    requires Inv(s) && id in s.tracked
    ensures id in Run(s, steps).tracked <==> !EverUnregistered(s, steps, id)
    decreases |steps|
  {
    if steps != [] {
      var s' := Apply(s, steps[0]);
      ApplyKeepsInv(s, steps[0]);
      assert RunIsSound(s, id);
      if Unregisters(s, steps[0], id) {
        NeverTrackedAgain(s', steps[1..], id);
      } else {
        TrackedUntilUnregisteredIff(s', steps[1..], id);
      }
    }
  }

  /** What is gone stays gone: ids are not used again. */
  lemma {:induction false} RemovedContainersStayGone(s: State, steps: seq<Step>, id: ContainerId)
    requires Inv(s) && id in s.known && id !in s.live
    ensures id !in Run(s, steps).live
    decreases |steps|
  {
    if steps != [] {
      ApplyKeepsInv(s, steps[0]);
      RemovedContainersStayGone(Apply(s, steps[0]), steps[1..], id);
    }
  }

  // ----- What a container's own run does -----

  /** The steps of an executor run for one container, which starts and whose removal succeeds or not. */
  function WholeRun(id: ContainerId, task: Uuid, execution: Uuid, image: string, now: int, started: int,
                    status: TrackStatus, removed: bool): seq<Step>
  {
    [Create(id, task, execution, image), Advance(id, true, now, status), Advance(id, true, started, status),
     Advance(id, true, started, status), Advance(id, true, started, status), Advance(id, true, started, status),
     Advance(id, removed, started, status)]
  }

  /**
   * Undisturbed, a run of a new container registers it, and leaves it removed, if the removal succeeds, and still
   * tracked: for what it was registered, when, when it was started, and how it ended.
   */
  lemma {:induction false} WholeRunLeavesEntry(
      s: State, id: ContainerId, task: Uuid, execution: Uuid, image: string, now: int, started: int,
      status: TrackStatus, removed: bool)
    requires Inv(s) && id !in s.known && |id| >= 12
    requires task != NIL_UUID && execution != NIL_UUID && image != ""
    ensures
      var s' := Run(s, WholeRun(id, task, execution, image, now, started, status, removed));
      && id in s'.registered && id in s'.known && id in s'.tracked
      && (id in s'.live <==> !removed)
      && s'.tracked[id] == ContainerInfo(task, execution, now, Some(started), status, image)
      && s'.tracked - {id} == s.tracked && s'.live - {id} == s.live && s'.jobs == s.jobs
  {
    var steps := WholeRun(id, task, execution, image, now, started, status, removed);
    var s1 := Apply(s, steps[0]);
    var s2 := Apply(s1, steps[1]);
    var s3 := Apply(s2, steps[2]);
    var s4 := Apply(s3, steps[3]);
    var s5 := Apply(s4, steps[4]);
    var s6 := Apply(s5, steps[5]);
    var s7 := Apply(s6, steps[6]);
    assert s2.runs[id].phase.ToStart? && s3.runs[id].phase.ToMark? && s4.runs[id].phase.ToWait?;
    assert s5.runs[id].phase.ToComplete? && s6.runs[id].phase.ToRemove?;
    RunOfSeven(s, steps, s1, s2, s3, s4, s5, s6, s7);
    assert s7.tracked - {id} == s.tracked && s7.live - {id} == s.live;
  }

  lemma {:induction false} RunOfSeven(
      s: State, steps: seq<Step>, s1: State, s2: State, s3: State, s4: State, s5: State, s6: State, s7: State)
    requires |steps| == 7 && s1 == Apply(s, steps[0]) && s2 == Apply(s1, steps[1]) && s3 == Apply(s2, steps[2])
    requires s4 == Apply(s3, steps[3]) && s5 == Apply(s4, steps[4]) && s6 == Apply(s5, steps[5])
    requires s7 == Apply(s6, steps[6])
    ensures Run(s, steps) == s7
  {
    assert Run(s, steps) == Run(s1, steps[1..]);
    assert Run(s1, steps[1..]) == Run(s2, steps[2..]) by { assert steps[1..][1..] == steps[2..]; }
    assert Run(s2, steps[2..]) == Run(s3, steps[3..]) by { assert steps[2..][1..] == steps[3..]; }
    assert Run(s3, steps[3..]) == Run(s4, steps[4..]) by { assert steps[3..][1..] == steps[4..]; }
    assert Run(s4, steps[4..]) == Run(s5, steps[5..]) by { assert steps[4..][1..] == steps[5..]; }
    assert Run(s5, steps[5..]) == Run(s6, steps[6..]) by { assert steps[5..][1..] == steps[6..]; }
    assert Run(s6, steps[6..]) == Run(s7, []) by { assert steps[6..][1..] == []; }
  }

  /** While it is tracked, an entry never changes for what and when it was registered. */
  lemma {:induction false} RegistrationNeverChanges(s: State, steps: seq<Step>, id: ContainerId)
    requires Inv(s) && id in s.tracked && id in Run(s, steps).tracked
    ensures
      var before, after := s.tracked[id], Run(s, steps).tracked[id];
      && after.taskId == before.taskId && after.executionId == before.executionId
      && after.createdAt == before.createdAt && after.image == before.image
    decreases |steps|
  {
    if steps != [] {
      var s' := Apply(s, steps[0]);
      ApplyKeepsInv(s, steps[0]);
      assert RunIsSound(s, id);
      if id in s'.tracked {
        RegistrationNeverChanges(s', steps[1..], id);
      } else {
        NeverTrackedAgain(s', steps[1..], id);
      }
    }
  }

  /** So in any run, a sweep takes a container only when it was registered longer ago than the maximum age. */
  lemma {:induction false} SweepSparesTheYoung(
      s: State, steps: seq<Step>, id: ContainerId, t: int, maxAge: int, ids: seq<ContainerId>)
    requires Inv(s) && id in s.tracked
    requires CanStart(Run(s, steps), Stale(t, maxAge), ids) && id in ids
    ensures t - s.tracked[id].createdAt > maxAge
  {
    assert id in Ids(ids);
    RegistrationNeverChanges(s, steps, id);
  }

  // ----- A cleanup loop that nothing interrupts -----

  function CleanFirst(j: nat, failing: bool): seq<Step> {
    if failing then [JobRemove(j, false)] else [JobRemove(j, true), JobUnregister(j)]
  }

  /** The steps of job j over `ids` when exactly the removals of `unremovable` fail. */
  function WorkOff(j: nat, ids: seq<ContainerId>, unremovable: set<ContainerId>): seq<Step> {
    if ids == [] then []
    else CleanFirst(j, ids[0] in unremovable) + WorkOff(j, ids[1..], unremovable)
  }

  /** The state once job j has only `todo` left and took `gone` with it. */
  function Cleaned(s: State, j: nat, gone: set<ContainerId>, todo: seq<ContainerId>): State
    requires j < |s.jobs|
  {
    s.(live := s.live - gone, tracked := s.tracked - gone, jobs := s.jobs[j := Job(todo, false)])
  }

  lemma CleanFirstRuns(s: State, j: nat, failing: bool, rest: seq<Step>)
    requires j < |s.jobs| && !s.jobs[j].headRemoved && s.jobs[j].todo != []
    ensures
      var todo := s.jobs[j].todo;
      Run(s, CleanFirst(j, failing) + rest) == Run(Cleaned(s, j, if failing then {} else {todo[0]}, todo[1..]), rest)
  {
    var todo := s.jobs[j].todo;
    if failing {
      assert ([JobRemove(j, false)] + rest)[1..] == rest;
      assert Apply(s, JobRemove(j, false)) == Cleaned(s, j, {}, todo[1..]) by {
        assert s.tracked - {} == s.tracked;
        assert s.live - {} == s.live;
      }
    } else {
      var s1 := Apply(s, JobRemove(j, true));
      assert ([JobRemove(j, true), JobUnregister(j)] + rest)[1..] == [JobUnregister(j)] + rest;
      assert ([JobUnregister(j)] + rest)[1..] == rest;
      assert Apply(s1, JobUnregister(j)) == Cleaned(s, j, {todo[0]}, todo[1..]) by {
        assert s1.jobs[j := Job(todo[1..], false)] == s.jobs[j := Job(todo[1..], false)];
      }
    }
  }

  lemma CleanedTwice(s: State, j: nat, g: set<ContainerId>, h: set<ContainerId>, todo: seq<ContainerId>)
    requires j < |s.jobs|
    ensures Cleaned(Cleaned(s, j, g, todo), j, h, []) == Cleaned(s, j, g + h, [])
  {
  }

  /** Uninterrupted, the loop does what CleanupManager.CleanupEach promises. */
  lemma {:induction false} UninterruptedCleanup(s: State, j: nat, unremovable: set<ContainerId>)
    requires j < |s.jobs| && !s.jobs[j].headRemoved
    ensures Run(s, WorkOff(j, s.jobs[j].todo, unremovable)) == Cleaned(s, j, Ids(s.jobs[j].todo) - unremovable, [])
    decreases |s.jobs[j].todo|
  {
    var ids := s.jobs[j].todo;
    if ids == [] {
      assert s.jobs[j := Job([], false)] == s.jobs;
      assert s.tracked - (Ids(ids) - unremovable) == s.tracked;
    } else {
      var failing := ids[0] in unremovable;
      var first := if failing then {} else {ids[0]};
      var later := Ids(ids[1..]) - unremovable;
      CleanFirstRuns(s, j, failing, WorkOff(j, ids[1..], unremovable));
      UninterruptedCleanup(Cleaned(s, j, first, ids[1..]), j, unremovable);
      CleanedTwice(s, j, first, later, ids[1..]);
      assert Ids(ids) == {ids[0]} + Ids(ids[1..]);
      assert first + later == Ids(ids) - unremovable;
    }
  }
}
