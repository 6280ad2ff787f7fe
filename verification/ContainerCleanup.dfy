/**
 * internal/executor/cleanup.go: the map of tracked containers next to the set of containers that
 * are really there. Each method is sequential here; ContainerTracking interleaves their steps.
 */
module ContainerCleanup {
  import opened Models

  type ContainerId = string

  /** The status texts an entry can carry: three of its own and the executor's result statuses. */
  datatype TrackStatus = Created | Running | Stopped | Completed | Failed | Timeout | Cancelled | Pending

  datatype ContainerInfo = ContainerInfo(
    taskId: Uuid, executionId: Uuid, createdAt: int, startedAt: Option<int>, status: TrackStatus, image: string)

  type Containers = map<ContainerId, ContainerInfo>

  datatype RegisterError = EmptyId | NilTask | NilExecution | EmptyImage | AlreadyRegistered

  /** RegisterContainer on the tracked map. */
  function Register(m: Containers, id: ContainerId, task: Uuid, execution: Uuid, image: string, now: int)
    : (Containers, Option<RegisterError>)
  {
    if id == "" then (m, Some(EmptyId))
    else if task == NIL_UUID then (m, Some(NilTask))
    else if execution == NIL_UUID then (m, Some(NilExecution))
    else if image == "" then (m, Some(EmptyImage))
    else if id in m then (m, Some(AlreadyRegistered))
    else (m[id := ContainerInfo(task, execution, now, None, TrackStatus.Created, image)], None)
  }

  /**
   * A registration succeeds exactly for a new id with everything present; the entry then says what was registered
   * and when, not started, and no other entry changes. Otherwise the first obstacle is the error and nothing changes.
   */
  lemma RegistrationIff(m: Containers, id: ContainerId, task: Uuid, execution: Uuid, image: string, now: int)
    ensures
      var (m', err) := Register(m, id, task, execution, image, now);
      && (err.None? <==> id != "" && task != NIL_UUID && execution != NIL_UUID && image != "" && id !in m)
      && (err.None? ==>
            && m'.Keys == m.Keys + {id} && m' - {id} == m
            && m'[id].taskId == task && m'[id].executionId == execution && m'[id].image == image
            && m'[id].createdAt == now && m'[id].startedAt == None && m'[id].status == TrackStatus.Created)
      && (err.Some? ==> m' == m)
      && (err == Some(EmptyId) <==> id == "")
      && (err == Some(NilTask) <==> id != "" && task == NIL_UUID)
      && (err == Some(NilExecution) <==> id != "" && task != NIL_UUID && execution == NIL_UUID)
      && (err == Some(EmptyImage) <==> id != "" && task != NIL_UUID && execution != NIL_UUID && image == "")
  {
    var (m', err) := Register(m, id, task, execution, image, now);
    if err.None? {
      assert m' - {id} == m;
    }
  }

  function MarkStarted(m: Containers, id: ContainerId, now: int): Containers {
    if id in m then m[id := m[id].(startedAt := Some(now), status := TrackStatus.Running)] else m
  }

  function MarkCompleted(m: Containers, id: ContainerId, status: TrackStatus): Containers {
    if id in m then m[id := m[id].(status := status)] else m
  }

  /** The tracked containers that a bulk cleanup is about. */
  function Matching(m: Containers, wanted: ContainerInfo -> bool): set<ContainerId> {
    set id | id in m && wanted(m[id])
  }

  /** Marks change the start time and the status of the one entry, if it is tracked. */
  lemma MarksChangeOneEntry(m: Containers, id: ContainerId, now: int, status: TrackStatus)
    ensures
      var started, completed := MarkStarted(m, id, now), MarkCompleted(m, id, status);
      && started.Keys == m.Keys && completed.Keys == m.Keys
      && (forall x <- m :: x != id ==> started[x] == m[x] && completed[x] == m[x])
      && (id in m ==>
            var (a, s, c) := (m[id], started[id], completed[id]);
            && s == ContainerInfo(a.taskId, a.executionId, a.createdAt, Some(now), TrackStatus.Running, a.image)
            && c == ContainerInfo(a.taskId, a.executionId, a.createdAt, a.startedAt, status, a.image))
  {
  }

  /** A sweep at time t takes a container registered at `now` exactly when it is older than the maximum age. */
  lemma SweepTakesOldOnly(
      m: Containers, id: ContainerId, task: Uuid, execution: Uuid, image: string, now: int, t: int, maxAge: int)
    requires Register(m, id, task, execution, image, now).1.None?
    ensures
      var stale := Matching(Register(m, id, task, execution, image, now).0,
                            (info: ContainerInfo) => t - info.createdAt > maxAge);
      && (id in stale <==> t - now > maxAge)
      && forall x | x != id :: x in stale <==> x in m && t - m[x].createdAt > maxAge
  {
  }

  lemma MatchingAreTheWanted(m: Containers, wanted: ContainerInfo -> bool, id: ContainerId)
    ensures id in Matching(m, wanted) <==> id in m && wanted(m[id])
  {
  }

  function Ids(ids: seq<ContainerId>): set<ContainerId> {
    set id | id in ids
  }

  datatype WaitError = TimedOut | WasCancelled | OtherError

  datatype WaitResult = Exited(code: int) | WaitFailed(error: WaitError)

  /** The last of the ids that cannot be removed. */
  function LastFailing(ids: seq<ContainerId>, unremovable: set<ContainerId>): Option<ContainerId> {
    if ids == [] then None
    else if ids[|ids| - 1] in unremovable then Some(ids[|ids| - 1])
    else LastFailing(ids[..|ids| - 1], unremovable)
  }

  lemma {:induction false} LastFailingIsOne(ids: seq<ContainerId>, unremovable: set<ContainerId>)
    ensures LastFailing(ids, unremovable).None? <==> Ids(ids) !! unremovable
    ensures LastFailing(ids, unremovable).Some? ==> LastFailing(ids, unremovable).value in Ids(ids) * unremovable
  {
    if ids != [] {
      var last := |ids| - 1;
      LastFailingIsOne(ids[..last], unremovable);
      assert Ids(ids) == Ids(ids[..last]) + {ids[last]} by {
        assert ids == ids[..last] + [ids[last]];
      }
    }
  }

  /** The one behind which no other fails. */
  lemma {:induction false} LastFailingIsLast(ids: seq<ContainerId>, unremovable: set<ContainerId>, i: nat)
    requires i < |ids| && ids[i] in unremovable
    requires forall j | i < j < |ids| :: ids[j] !in unremovable
    ensures LastFailing(ids, unremovable) == Some(ids[i])
    decreases |ids|
  {
    if i < |ids| - 1 {
      LastFailingIsLast(ids[..|ids| - 1], unremovable, i);
    }
  }

  /**
   * The Docker daemon: which containers exist and run, and which requests it refuses. `attempted`
   * records the containers that were asked to be removed, `stopRequests` those asked to stop.
   */
  class ContainerClient {
    var live: set<ContainerId>
    var running: set<ContainerId>
    var unstoppable: set<ContainerId>
    var unremovable: set<ContainerId>
    var attempted: set<ContainerId>
    var stopRequests: set<ContainerId>

    constructor ()
      ensures live == {} && running == {} && unstoppable == {} && unremovable == {}
      ensures attempted == {} && stopRequests == {}
    {
      live, running, unstoppable, unremovable := {}, {}, {}, {};
      attempted, stopRequests := {}, {};
    }

    /** `outcome` is the daemon's answer: a new id, or a failure. */
    method CreateContainer(outcome: Option<ContainerId>) returns (id: Option<ContainerId>)
      modifies this`live
      ensures id == outcome
      ensures live == if outcome.Some? then old(live) + {outcome.value} else old(live)
    {
      id := outcome;
      if id.Some? {
        live := live + {id.value};
      }
    }

    method StartContainer(id: ContainerId, fails: bool) returns (ok: bool)
      modifies this`running
      ensures ok == !fails
      ensures running == if ok then old(running) + {id} else old(running)
    {
      ok := !fails;
      if ok {
        running := running + {id};
      }
    }

    /** A container created with AutoRemove may be gone by the time the wait returns. */
    method WaitContainer(id: ContainerId, outcome: WaitResult, autoRemoved: bool) returns (r: WaitResult)
      modifies this`running, this`live
      ensures r == outcome
      ensures running == if outcome.Exited? || autoRemoved then old(running) - {id} else old(running)
      ensures live == if autoRemoved then old(live) - {id} else old(live)
    {
      r := outcome;
      if outcome.Exited? || autoRemoved {
        running := running - {id};
      }
      if autoRemoved {
        live := live - {id};
      }
    }

    method StopContainer(id: ContainerId) returns (ok: bool)
      modifies this`running, this`stopRequests
      ensures ok <==> id !in unstoppable
      ensures running == if ok then old(running) - {id} else old(running)
      ensures stopRequests == old(stopRequests) + {id}
    {
      stopRequests := stopRequests + {id};
      ok := id !in unstoppable;
      if ok {
        running := running - {id};
      }
    }

    /** Removing a container that is already gone succeeds; a running one needs force. */
    method RemoveContainer(id: ContainerId, force: bool) returns (ok: bool)
      modifies this`live, this`running, this`attempted
      ensures ok <==> id !in unremovable && (force || id !in old(running))
      ensures live == if ok then old(live) - {id} else old(live)
      ensures running == if ok then old(running) - {id} else old(running)
      ensures attempted == old(attempted) + {id}
    {
      attempted := attempted + {id};
      ok := id !in unremovable && (force || id !in running);
      if ok {
        live := live - {id};
        running := running - {id};
      }
    }
  }

  /** One entry of ListContainers. */
  datatype Summary = Summary(id: ContainerId, names: seq<string>)

  function Stripped(name: string): string {
    if |name| > 0 && name[0] == '/' then name[1..] else name
  }

  const OWN_PREFIX := "voidrunner"

  predicate IsOwnName(name: string) {
    |Stripped(name)| > 10 && Stripped(name)[..10] == OWN_PREFIX
  }

  predicate IsOwn(c: Summary) {
    exists i | 0 <= i < |c.names| :: IsOwnName(c.names[i])
  }

  function Orphans(m: Containers, listed: seq<Summary>): set<ContainerId> {
    set i | 0 <= i < |listed| && IsOwn(listed[i]) && listed[i].id !in m :: listed[i].id
  }

  datatype Stats = Stats(totalTracked: nat, created: nat, running: nat, completed: nat, failed: nat, stopped: nat)

  /** The switch over one entry's status. */
  function Tallied(stats: Stats, status: TrackStatus): Stats {
    match status
    case Created => stats.(created := stats.created + 1)
    case Running => stats.(running := stats.running + 1)
    case Completed => stats.(completed := stats.completed + 1)
    case Failed => stats.(failed := stats.failed + 1)
    case Stopped => stats.(stopped := stats.stopped + 1)
    case _ => stats
  }

  const COUNTED :=
    {TrackStatus.Created, TrackStatus.Running, TrackStatus.Completed, TrackStatus.Failed, TrackStatus.Stopped}

  class CleanupManager {
    const client: ContainerClient
    var containers: Containers

    constructor (client: ContainerClient)
      ensures this.client == client && containers == map[]
    {
      this.client := client;
      containers := map[];
    }

    method RegisterContainer(id: ContainerId, task: Uuid, execution: Uuid, image: string, now: int)
      returns (err: Option<RegisterError>)
      modifies this
      ensures (containers, err) == Register(old(containers), id, task, execution, image, now)
    {
      if id == "" {
        return Some(EmptyId);
      }
      if task == NIL_UUID {
        return Some(NilTask);
      }
      if execution == NIL_UUID {
        return Some(NilExecution);
      }
      if image == "" {
        return Some(EmptyImage);
      }
      if id in containers {
        return Some(AlreadyRegistered);
      }
      containers := containers[id := ContainerInfo(task, execution, now, None, TrackStatus.Created, image)];
      return None;
    }

    method MarkContainerStarted(id: ContainerId, now: int)
      modifies this
      ensures containers == MarkStarted(old(containers), id, now)
    {
      if id in containers {
        var info := containers[id];
        containers := containers[id := info.(startedAt := Some(now), status := TrackStatus.Running)];
      }
    }

    method MarkContainerCompleted(id: ContainerId, status: TrackStatus)
      modifies this
      ensures containers == MarkCompleted(old(containers), id, status)
    {
      if id in containers {
        var info := containers[id];
        containers := containers[id := info.(status := status)];
      }
    }

    method UnregisterContainer(id: ContainerId)
      modifies this
      ensures containers == old(containers) - {id}
    {
      containers := containers - {id};
    }

    /** Stop unless forced, fall back to force, remove, and unregister only after a removal. */
    method CleanupContainer(id: ContainerId, force: bool) returns (failed: bool)
      modifies this, client
      ensures failed <==> id in client.unremovable
      ensures containers == if failed then old(containers) else old(containers) - {id}
      ensures client.live == if failed then old(client.live) else old(client.live) - {id}
      ensures client.unremovable == old(client.unremovable) && client.unstoppable == old(client.unstoppable)
      ensures client.attempted == old(client.attempted) + {id}
      ensures client.stopRequests == old(client.stopRequests) + if force then {} else {id}
      ensures !failed ==> client.running == old(client.running) - {id}
    {
      var forced := force;
      if !forced {
        var stopped := client.StopContainer(id);
        if !stopped {
          forced := true;
        }
      }
      var removed := client.RemoveContainer(id, forced);
      if !removed {
        return true;
      }
      UnregisterContainer(id);
      return false;
    }

    /** The read-locked loop that collects the wanted ids, each once, visiting the map in any order. */
    method Snapshot(wanted: ContainerInfo -> bool) returns (ids: seq<ContainerId>)
      ensures Ids(ids) == Matching(containers, wanted)
      ensures forall i, j | 0 <= i < j < |ids| :: ids[i] != ids[j]
    {
      ids := [];
      var pending := containers.Keys;
      while pending != {}
        invariant pending <= containers.Keys
        invariant forall id :: id in ids <==> id in Matching(containers, wanted) && id !in pending
        invariant forall i, j | 0 <= i < j < |ids| :: ids[i] != ids[j]
        decreases |pending|
      {
        var id :| id in pending;
        if wanted(containers[id]) {
          ids := ids + [id];
        }
        pending := pending - {id};
      }
    }

    /** The loop that cleans a list of containers by force, asking none to stop, and remembers the last failure. */
    method CleanupEach(ids: seq<ContainerId>) returns (lastErr: Option<ContainerId>)
      modifies this, client
      ensures containers == old(containers) - (Ids(ids) - client.unremovable)
      ensures client.live == old(client.live) - (Ids(ids) - client.unremovable)
      ensures client.unremovable == old(client.unremovable)
      ensures client.attempted == old(client.attempted) + Ids(ids)
      ensures client.stopRequests == old(client.stopRequests)
      ensures lastErr == LastFailing(ids, client.unremovable)
    {
      lastErr := None;
      for i := 0 to |ids|
        invariant containers == old(containers) - (Ids(ids[..i]) - client.unremovable)
        invariant client.live == old(client.live) - (Ids(ids[..i]) - client.unremovable)
        invariant client.unremovable == old(client.unremovable)
        invariant client.attempted == old(client.attempted) + Ids(ids[..i])
        invariant client.stopRequests == old(client.stopRequests)
        invariant lastErr == LastFailing(ids[..i], client.unremovable)
      {
        assert ids[..i + 1] == ids[..i] + [ids[i]] && ids[..i + 1][..i] == ids[..i];
        assert Ids(ids[..i + 1]) == Ids(ids[..i]) + {ids[i]};
        var failed := CleanupContainer(ids[i], true);
        if failed {
          lastErr := Some(ids[i]);
        }
      }
      assert ids[..|ids|] == ids;
    }

    /**
     * Main result, shared by the four bulk cleanups: exactly the wanted containers whose removal succeeds
     * leave the tracked map and the daemon, everything else stays, an error is reported exactly when some
     * removal failed, and the order in which the map is visited does not show.
     */
    method CleanupMatching(wanted: ContainerInfo -> bool) returns (lastErr: Option<ContainerId>)
      modifies this, client
      ensures
        var m := Matching(old(containers), wanted);
        && containers == old(containers) - (m - client.unremovable)
        && client.live == old(client.live) - (m - client.unremovable)
        && client.unremovable == old(client.unremovable)
        && client.attempted == old(client.attempted) + m
        && client.stopRequests == old(client.stopRequests)
        && (lastErr.None? <==> m !! client.unremovable)
        && (lastErr.Some? ==> lastErr.value in m && lastErr.value in client.unremovable)
    {
      var ids := Snapshot(wanted);
      LastFailingIsOne(ids, client.unremovable);
      if |ids| == 0 {
        return None;
      }
      lastErr := CleanupEach(ids);
    }

    method CleanupExecution(execution: Uuid) returns (lastErr: Option<ContainerId>)
      modifies this, client
      ensures
        var m := Matching(old(containers), (info: ContainerInfo) => info.executionId == execution);
        && containers == old(containers) - (m - client.unremovable)
        && client.live == old(client.live) - (m - client.unremovable)
        && client.unremovable == old(client.unremovable)
        && (lastErr.None? <==> m !! client.unremovable)
    {
      lastErr := CleanupMatching((info: ContainerInfo) => info.executionId == execution);
    }

    method CleanupTask(task: Uuid) returns (lastErr: Option<ContainerId>)
      modifies this, client
      ensures
        var m := Matching(old(containers), (info: ContainerInfo) => info.taskId == task);
        && containers == old(containers) - (m - client.unremovable)
        && client.live == old(client.live) - (m - client.unremovable)
        && client.unremovable == old(client.unremovable)
        && (lastErr.None? <==> m !! client.unremovable)
    {
      lastErr := CleanupMatching((info: ContainerInfo) => info.taskId == task);
    }

    method CleanupStaleContainers(now: int, maxAge: int) returns (lastErr: Option<ContainerId>)
      modifies this, client
      ensures
        var m := Matching(old(containers), (info: ContainerInfo) => now - info.createdAt > maxAge);
        && containers == old(containers) - (m - client.unremovable)
        && client.live == old(client.live) - (m - client.unremovable)
        && client.unremovable == old(client.unremovable)
        && (lastErr.None? <==> m !! client.unremovable)
    {
      lastErr := CleanupMatching((info: ContainerInfo) => now - info.createdAt > maxAge);
    }

    method CleanupAll() returns (lastErr: Option<ContainerId>)
      modifies this, client
      ensures
        && containers == old(containers) - (old(containers).Keys - client.unremovable)
        && client.live == old(client.live) - (old(containers).Keys - client.unremovable)
        && client.unremovable == old(client.unremovable)
        && (lastErr.None? <==> old(containers).Keys !! client.unremovable)
    {
      assert Matching(containers, (info: ContainerInfo) => true) == containers.Keys;
      lastErr := CleanupMatching((info: ContainerInfo) => true);
    }

    /** Untracked containers with this system's name prefix are removed; tracking does not change. */
    method ForceCleanupOrphanedContainers(listing: Option<seq<Summary>>) returns (err: bool)
      modifies this, client
      ensures containers == old(containers) && client.unremovable == old(client.unremovable)
      ensures
        var orphans := if listing.Some? then Orphans(old(containers), listing.value) else {};
        && client.live == old(client.live) - (orphans - client.unremovable)
        && (err <==> listing.None? || !(orphans !! client.unremovable))
    {
      if listing.None? {
        return true;
      }
      var listed := listing.value;
      var orphaned: seq<ContainerId> := [];
      for i := 0 to |listed|
        invariant forall id :: id in orphaned <==> id in Orphans(containers, listed[..i])
        modifies {}
      {
        OrphansStep(containers, listed, i);
        var own := HasOwnName(listed[i].names);
        if own && listed[i].id !in containers {
          orphaned := orphaned + [listed[i].id];
        }
      }
      assert listed[..|listed|] == listed;
      assert Ids(orphaned) == Orphans(containers, listed);
      LastFailingIsOne(orphaned, client.unremovable);
      var lastErr := CleanupEach(orphaned);
      assert old(containers) - (Orphans(old(containers), listed) - client.unremovable) == old(containers);
      err := lastErr.Some?;
    }

    /** The loop over the names of one container, left at the first match. */
    method HasOwnName(names: seq<string>) returns (own: bool)
      ensures own <==> exists i | 0 <= i < |names| :: IsOwnName(names[i])
    {
      for i := 0 to |names|
        invariant forall j | 0 <= j < i :: !IsOwnName(names[j])
      {
        var name := names[i];
        if |name| > 0 && name[0] == '/' {
          name := name[1..];
        }
        if |name| > 10 && name[..10] == OWN_PREFIX {
          assert IsOwnName(names[i]);
          return true;
        }
      }
      return false;
    }

    /** Each count is the number of entries with that status, whatever order the map is visited in. */
    method GetStats() returns (stats: Stats)
      ensures CountsAre(containers, containers.Keys, stats)
    {
      stats := Stats(|containers|, 0, 0, 0, 0, 0);
      var pending := containers.Keys;
      ghost var seen: set<ContainerId> := {};
      while pending != {}
        invariant seen !! pending && seen + pending == containers.Keys
        invariant CountsAre(containers, seen, stats)
        decreases |pending|
      {
        var id :| id in pending;
        CountOneMore(containers, seen, id, stats);
        stats := Tallied(stats, containers[id].status);
        seen := seen + {id};
        pending := pending - {id};
      }
      assert seen == containers.Keys;
    }
  }

  lemma OrphansStep(m: Containers, listed: seq<Summary>, i: nat)
    requires i < |listed|
    ensures Orphans(m, listed[..i + 1])
         == Orphans(m, listed[..i]) + (if IsOwn(listed[i]) && listed[i].id !in m then {listed[i].id} else {})
  {
  }

  /** A name is this system's exactly when it is the prefix and something more, with or without a slash before. */
  lemma IsOwnNameIff(name: string)
    ensures IsOwnName(name) <==>
            exists rest: string | rest != "" :: name == "voidrunner" + rest || name == "/voidrunner" + rest
  {
    if IsOwnName(name) {
      var rest := Stripped(name)[10..];
      assert Stripped(name) == "voidrunner" + rest;
      if Stripped(name) != name {
        assert name == "/" + Stripped(name) == "/voidrunner" + rest;
      }
    }
    forall rest: string | rest != "" && (name == "voidrunner" + rest || name == "/voidrunner" + rest)
      ensures IsOwnName(name)
    {
      assert Stripped(name) == "voidrunner" + rest;
    }
  }

  /** The orphans of a listing: untracked, and one of the names is this system's. */
  lemma OrphansAre(m: Containers, listed: seq<Summary>, id: ContainerId)
    ensures id in Orphans(m, listed) <==>
            && id !in m
            && exists i, k | 0 <= i < |listed| && 0 <= k < |listed[i].names| ::
                 listed[i].id == id && IsOwnName(listed[i].names[k])
  {
    if id in Orphans(m, listed) {
      var i :| 0 <= i < |listed| && IsOwn(listed[i]) && listed[i].id == id;
      var k :| 0 <= k < |listed[i].names| && IsOwnName(listed[i].names[k]);
    }
  }

  function SeenWith(m: Containers, seen: set<ContainerId>, status: TrackStatus): set<ContainerId> {
    set id | id in seen && id in m && m[id].status == status
  }

  /** The total, and for each of the five statuses the number of entries among `seen` that have it. */
  ghost predicate CountsAre(m: Containers, seen: set<ContainerId>, stats: Stats) {
    && stats.totalTracked == |m|
    && stats.created == |SeenWith(m, seen, TrackStatus.Created)|
    && stats.running == |SeenWith(m, seen, TrackStatus.Running)|
    && stats.completed == |SeenWith(m, seen, TrackStatus.Completed)|
    && stats.failed == |SeenWith(m, seen, TrackStatus.Failed)|
    && stats.stopped == |SeenWith(m, seen, TrackStatus.Stopped)|
  }

  /** What the counts over the whole map mean. */
  lemma CountsMean(m: Containers, stats: Stats)
    requires CountsAre(m, m.Keys, stats)
    ensures stats.totalTracked == |m|
    ensures stats.created == |set id | id in m && m[id].status.Created?|
    ensures stats.running == |set id | id in m && m[id].status.Running?|
    ensures stats.completed == |set id | id in m && m[id].status.Completed?|
    ensures stats.failed == |set id | id in m && m[id].status.Failed?|
    ensures stats.stopped == |set id | id in m && m[id].status.Stopped?|
  {
    assert SeenWith(m, m.Keys, TrackStatus.Created) == set id | id in m && m[id].status.Created?;
    assert SeenWith(m, m.Keys, TrackStatus.Running) == set id | id in m && m[id].status.Running?;
    assert SeenWith(m, m.Keys, TrackStatus.Completed) == set id | id in m && m[id].status.Completed?;
    assert SeenWith(m, m.Keys, TrackStatus.Failed) == set id | id in m && m[id].status.Failed?;
    assert SeenWith(m, m.Keys, TrackStatus.Stopped) == set id | id in m && m[id].status.Stopped?;
  }

  lemma {:induction false} CountOne(m: Containers, seen: set<ContainerId>, id: ContainerId, status: TrackStatus)
    requires id in m && id !in seen
    ensures |SeenWith(m, seen + {id}, status)|
         == |SeenWith(m, seen, status)| + (if m[id].status == status then 1 else 0)
  {
    if m[id].status == status {
      assert SeenWith(m, seen + {id}, status) == SeenWith(m, seen, status) + {id};
    } else {
      assert SeenWith(m, seen + {id}, status) == SeenWith(m, seen, status);
    }
  }

  /** Seeing one more entry adds one to the count of its status and leaves the others. */
  lemma CountOneMore(m: Containers, seen: set<ContainerId>, id: ContainerId, stats: Stats)
    requires id in m && id !in seen && CountsAre(m, seen, stats)
    ensures
      CountsAre(m, seen + {id}, Tallied(stats, m[id].status))
  {
    CountOne(m, seen, id, TrackStatus.Created);
    CountOne(m, seen, id, TrackStatus.Running);
    CountOne(m, seen, id, TrackStatus.Completed);
    CountOne(m, seen, id, TrackStatus.Failed);
    CountOne(m, seen, id, TrackStatus.Stopped);
  }

  /**
   * The five counts add up to the total if and only if every status is one of the five: entries marked
   * completed with "timeout" or "cancelled" are tracked but counted nowhere.
   */
  lemma {:induction false} CountsAddUpIff(m: Containers, stats: Stats)
    requires CountsAre(m, m.Keys, stats)
    ensures stats.created + stats.running + stats.completed + stats.failed + stats.stopped == stats.totalTracked
       <==> forall id <- m :: m[id].status in COUNTED
  {
    var created := Others(m, m.Keys, TrackStatus.Created);
    var running := Others(m, created, TrackStatus.Running);
    var completed := Others(m, running, TrackStatus.Completed);
    var failed := Others(m, completed, TrackStatus.Failed);
    var uncounted := Others(m, failed, TrackStatus.Stopped);
    PeelStatus(m, m.Keys, TrackStatus.Created);
    PeelStatus(m, created, TrackStatus.Running);
    PeelStatus(m, running, TrackStatus.Completed);
    PeelStatus(m, completed, TrackStatus.Failed);
    PeelStatus(m, failed, TrackStatus.Stopped);
    assert forall id <- m :: id in uncounted <==> m[id].status !in COUNTED;
    if uncounted != {} {
      var id :| id in uncounted;
    }
  }

  function Others(m: Containers, ids: set<ContainerId>, status: TrackStatus): set<ContainerId> {
    set id | id in ids && id in m && m[id].status != status
  }

  lemma PeelStatus(m: Containers, ids: set<ContainerId>, status: TrackStatus)
    requires ids <= m.Keys
    requires SeenWith(m, m.Keys, status) <= ids
    ensures |ids| == |SeenWith(m, m.Keys, status)| + |Others(m, ids, status)|
  {
    assert ids == SeenWith(m, m.Keys, status) + Others(m, ids, status);
  }
}
