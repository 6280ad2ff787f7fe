/**
 * internal/executor/executor.go: one task run in one container. Everything the daemon, the clock
 * and the validators decide is in an Environment.
 */
module Executor {
  import opened Models
  import opened ContainerCleanup
  import opened LogDemux

  /** ExecutionContext; a nil context is None one level up, a nil task or execution is None here. */
  datatype Request = Request(task: Option<Uuid>, execution: Option<Uuid>)

  datatype ContextState = Active | DeadlineExceeded | Canceled

  datatype Environment = Environment(
    scriptError: Option<string>,
    buildError: Option<string>,
    configError: Option<string>,
    image: string,
    created: Option<ContainerId>,
    startFails: bool,
    wait: WaitResult,
    context: ContextState,
    autoRemoved: bool,
    logs: Result<seq<byte>, string>,
    startTime: int,
    registerTime: int,
    markTime: int,
    endTime: int)

  datatype ExecutionResult = ExecutionResult(status: ExecutionStatus, results: Results)

  /** What a call leaves its caller with; a panic unwinds through every caller. */
  datatype Outcome = Returned(result: Option<ExecutionResult>, failed: bool) | Panicked

  const SHORT_ID := 12

  /** The status an execution gets from the end of the wait. */
  function StatusAfterWait(wait: WaitResult, context: ContextState): ExecutionStatus {
    match wait
    case Exited(code) => if code == 0 then ExecutionStatus.Completed else ExecutionStatus.Failed
    case WaitFailed(error) =>
      if error.TimedOut? || context.DeadlineExceeded? then ExecutionStatus.Timeout
      else if error.WasCancelled? || context.Canceled? then ExecutionStatus.Cancelled
      else ExecutionStatus.Failed
  }

  /** string(status), which MarkContainerCompleted stores. */
  function TrackStatusOf(status: ExecutionStatus): TrackStatus {
    match status
    case Pending => TrackStatus.Pending
    case Running => TrackStatus.Running
    case Completed => TrackStatus.Completed
    case Failed => TrackStatus.Failed
    case Timeout => TrackStatus.Timeout
    case Cancelled => TrackStatus.Cancelled
  }

  function Text(bytes: seq<byte>): (s: string)
    ensures |s| == |bytes|
    ensures forall i | 0 <= i < |s| :: s[i] == bytes[i] as int as char
  {
    seq(|bytes|, i requires 0 <= i < |bytes| => bytes[i] as int as char)
  }

  function NonEmpty(s: string): Option<string> {
    if s == "" then None else Some(s)
  }

  function OutputOf(column: Option<string>): string {
    if column.Some? then column.value else ""
  }

  function StdoutOf(logs: Result<seq<byte>, string>): string {
    if logs.Ok? then Text(Payloads(Frames(logs.value), 1)) else ""
  }

  function StderrOf(logs: Result<seq<byte>, string>): string {
    if logs.Ok? then Text(Payloads(Frames(logs.value), 2)) else "Failed to retrieve logs: " + logs.error
  }

  /** Which containers exist after a run that was let through, and before the next one. */
  function LiveAfter(live: set<ContainerId>, unremovable: set<ContainerId>, request: Request, env: Environment)
    : set<ContainerId>
  {
    if env.created.None? then live
    else
      var id := env.created.value;
      if Guarded(request, env) && (id !in unremovable || (!env.startFails && env.autoRemoved)) then live - {id}
      else live + {id}
  }

  /** The validators let the request through to executeContainer. */
  predicate Accepted(request: Option<Request>, env: Environment) {
    && request.Some? && request.value.task.Some?
    && env.scriptError.None? && env.buildError.None? && env.configError.None?
  }

  /** The run gets past the two panics between creation and the deferred removal. */
  predicate Guarded(request: Request, env: Environment) {
    env.created.Some? && |env.created.value| >= SHORT_ID && request.execution.Some?
  }

  /** The wait is reached, so there is an end time. */
  predicate Waited(env: Environment) {
    env.created.Some? && !env.startFails
  }

  /** The tracked map after the run: registered, marked, and never unregistered. */
  function TrackedAfter(m: Containers, request: Request, env: Environment): Containers
    requires request.task.Some?
  {
    if !Guarded(request, env) then m
    else
      var id := env.created.value;
      var registered := Register(m, id, request.task.value, request.execution.value, env.image, env.registerTime).0;
      if env.startFails then registered
      else MarkCompleted(MarkStarted(registered, id, env.markTime), id,
                         TrackStatusOf(StatusAfterWait(env.wait, env.context)))
  }

  class TaskExecutor {
    const client: ContainerClient
    const manager: CleanupManager

    /** NewExecutor gives the cleanup manager the executor's own client. */
    constructor (client: ContainerClient)
      ensures this.client == client && manager.client == client && fresh(manager)
      ensures manager.containers == map[]
    {
      this.client := client;
      manager := new CleanupManager(client);
    }

    /** Read the log stream and split it. */
    method GetContainerLogs(read: Result<seq<byte>, string>)
      returns (stdout: string, stderr: string, err: Option<string>)
      ensures err.None? <==> read.Ok?
      ensures read.Ok? ==> stdout == StdoutOf(read) && stderr == StderrOf(read)
      ensures read.Err? ==> stdout == "" && stderr == "" && err == Some(read.error)
    {
      if read.Err? {
        return "", "", Some(read.error);
      }
      var out, errOut := DemultiplexLogs(read.value);
      return Text(out), Text(errOut), None;
    }

    /** From the deferred removal on: start, wait, classify, collect the logs. */
    method RunCreated(id: ContainerId, started: ExecutionResult, env: Environment)
      returns (result: ExecutionResult, failed: bool)
      requires manager.client == client
      requires env.created == Some(id)
      modifies manager, client`running, client`live
      ensures manager.containers ==
              if env.startFails then old(manager.containers)
              else MarkCompleted(MarkStarted(old(manager.containers), id, env.markTime), id,
                                 TrackStatusOf(result.status))
      ensures client.live == if !env.startFails && env.autoRemoved then old(client.live) - {id} else old(client.live)
      ensures client.running ==
              if env.startFails then old(client.running)
              else if env.wait.Exited? || env.autoRemoved then old(client.running) - {id}
              else old(client.running) + {id}
      ensures failed <==> env.startFails || env.wait.WaitFailed?
      ensures env.startFails ==> result == started.(status := ExecutionStatus.Failed)
      ensures !env.startFails ==>
        && result.status == StatusAfterWait(env.wait, env.context)
        && result.results == Results(
             if env.wait.Exited? then Some(env.wait.code) else started.results.returnCode,
             if StdoutOf(env.logs) == "" then started.results.stdout else Some(StdoutOf(env.logs)),
             if StderrOf(env.logs) == "" then started.results.stderr else Some(StderrOf(env.logs)),
             Some(env.endTime - env.startTime),
             started.results.memoryUsageBytes,
             started.results.startedAt,
             Some(env.endTime))
    {
      result := started;
      var ok := client.StartContainer(id, env.startFails);
      if !ok {
        return result.(status := ExecutionStatus.Failed), true;
      }
      manager.MarkContainerStarted(id, env.markTime);
      var wait := client.WaitContainer(id, env.wait, env.autoRemoved);
      result := result.(results := result.results.(completedAt := Some(env.endTime),
                                                   executionTimeMs := Some(env.endTime - env.startTime)));
      if wait.WaitFailed? {
        if wait.error.TimedOut? || env.context.DeadlineExceeded? {
          result := result.(status := ExecutionStatus.Timeout);
        } else if wait.error.WasCancelled? || env.context.Canceled? {
          result := result.(status := ExecutionStatus.Cancelled);
        } else {
          result := result.(status := ExecutionStatus.Failed);
        }
      } else {
        result := result.(results := result.results.(returnCode := Some(wait.code)));
        if wait.code == 0 {
          result := result.(status := ExecutionStatus.Completed);
        } else {
          result := result.(status := ExecutionStatus.Failed);
        }
      }
      var stdout, stderr, logErr := GetContainerLogs(env.logs);
      if logErr.Some? {
        stderr := "Failed to retrieve logs: " + logErr.value;
      }
      if stdout != "" {
        result := result.(results := result.results.(stdout := Some(stdout)));
      }
      if stderr != "" {
        result := result.(results := result.results.(stderr := Some(stderr)));
      }
      manager.MarkContainerCompleted(id, TrackStatusOf(result.status));
      return result, wait.WaitFailed?;
    }

    /**
     * Main result: a created container gets a removal attempt exactly when the run is past the two panics; every
     * result that is returned is the one ContainerOutcome describes.
     */
    method ExecuteContainer(request: Request, env: Environment) returns (o: Outcome)
      requires manager.client == client && request.task.Some?
      modifies manager, client
      ensures o == ContainerOutcome(request, env)
      ensures manager.containers == TrackedAfter(old(manager.containers), request, env)
      ensures client.attempted == old(client.attempted) + if Guarded(request, env) then {env.created.value} else {}
      ensures client.unremovable == old(client.unremovable)
      ensures client.live == LiveAfter(old(client.live), client.unremovable, request, env)
    {
      var result := ExecutionResult(ExecutionStatus.Running, NO_RESULTS.(startedAt := Some(env.startTime)));
      var created := client.CreateContainer(env.created);
      if created.None? {
        return Returned(Some(result.(status := ExecutionStatus.Failed)), true);
      }
      var id := created.value;
      if |id| < SHORT_ID {
        return Panicked;
      }
      if request.execution.None? {
        return Panicked;
      }
      var registration := manager.RegisterContainer(
        id, request.task.value, request.execution.value, env.image, env.registerTime);
      var failed;
      result, failed := RunCreated(id, result, env);
      var removed := client.RemoveContainer(id, true);
      return Returned(Some(result), failed);
    }

    method Execute(request: Option<Request>, env: Environment) returns (o: Outcome)
      requires manager.client == client
      modifies manager, client
      ensures o == ExecuteOutcome(request, env)
      ensures manager.containers == if Accepted(request, env)
                                    then TrackedAfter(old(manager.containers), request.value, env)
                                    else old(manager.containers)
      ensures client.unremovable == old(client.unremovable)
      ensures client.live == if Accepted(request, env)
                             then LiveAfter(old(client.live), client.unremovable, request.value, env)
                             else old(client.live)
      ensures client.attempted == old(client.attempted)
              + if Accepted(request, env) && Guarded(request.value, env) then {env.created.value} else {}
    {
      if request.None? || request.value.task.None? {
        return Returned(None, true);
      }
      if env.scriptError.Some? {
        return Returned(Some(Rejection("Security validation failed: " + env.scriptError.value)), true);
      }
      if env.buildError.Some? {
        return Returned(Some(Rejection("Configuration error: " + env.buildError.value)), true);
      }
      if env.configError.Some? {
        return Returned(Some(Rejection("Security validation failed: " + env.configError.value)), true);
      }
      o := ExecuteContainer(request.value, env);
      if o.Returned? && o.failed && o.result.None? {
        o := Returned(Some(Rejection("Execution error")), true);
      }
    }

    method Cancel(execution: Uuid) returns (failed: bool)
      requires manager.client == client
      modifies manager, client
      ensures
        var m := Matching(old(manager.containers), (info: ContainerInfo) => info.executionId == execution);
        && manager.containers == old(manager.containers) - (m - client.unremovable)
        && client.live == old(client.live) - (m - client.unremovable)
        && client.unremovable == old(client.unremovable)
        && (failed <==> !(m !! client.unremovable))
    {
      var err := manager.CleanupExecution(execution);
      return err.Some?;
    }
  }

  function Rejection(message: string): ExecutionResult {
    ExecutionResult(ExecutionStatus.Failed, NO_RESULTS.(stderr := Some(message)))
  }

  function ContainerOutcome(request: Request, env: Environment): Outcome {
    var base := NO_RESULTS.(startedAt := Some(env.startTime));
    if env.created.None? then Returned(Some(ExecutionResult(ExecutionStatus.Failed, base)), true)
    else if !Guarded(request, env) then Panicked
    else if env.startFails then Returned(Some(ExecutionResult(ExecutionStatus.Failed, base)), true)
    else
      Returned(
        Some(ExecutionResult(
          StatusAfterWait(env.wait, env.context),
          base.(returnCode := if env.wait.Exited? then Some(env.wait.code) else None,
                stdout := NonEmpty(StdoutOf(env.logs)),
                stderr := NonEmpty(StderrOf(env.logs)),
                executionTimeMs := Some(env.endTime - env.startTime),
                completedAt := Some(env.endTime)))),
        env.wait.WaitFailed?)
  }

  /** The first of the three refusals, with its text. */
  ghost predicate Refuses(env: Environment, text: string) {
    || (env.scriptError.Some? && text == "Security validation failed: " + env.scriptError.value)
    || (env.scriptError.None? && env.buildError.Some? && text == "Configuration error: " + env.buildError.value)
    || (env.scriptError.None? && env.buildError.None? && env.configError.Some?
        && text == "Security validation failed: " + env.configError.value)
  }

  ghost predicate HasTask(request: Option<Request>) {
    request.Some? && request.value.task.Some?
  }

  ghost predicate Validated(env: Environment) {
    env.scriptError.None? && env.buildError.None? && env.configError.None?
  }

  /** The daemon gave an id that can be cut to twelve characters, and there is an execution record. */
  ghost predicate Survives(request: Option<Request>, env: Environment) {
    && HasTask(request) && Validated(env)
    && env.created.Some? && |env.created.value| >= 12 && request.value.execution.Some?
  }

  /**
   * Main result: whatever create, start, wait and log retrieval do, a result that is returned is terminal,
   * carries a return code exactly when waiting succeeded, is completed exactly for code 0, and comes with an
   * error exactly when there is no code. The status of every other end is fixed by what ended it. A panic needs a
   * created container whose id is too short to cut, or a missing execution record.
   */
  function ExecuteOutcome(request: Option<Request>, env: Environment): (o: Outcome)
    ensures o.Panicked? <==>
            && HasTask(request) && Validated(env) && env.created.Some?
            && (|env.created.value| < 12 || request.value.execution.None?)
    ensures o.Returned? ==> (o.result.None? <==> !HasTask(request))
    ensures !HasTask(request) ==> o == Returned(None, true)
    ensures o.Returned? && o.result.Some? ==>
      var r := o.result.value;
      && r.status !in {ExecutionStatus.Pending, ExecutionStatus.Running}
      && (r.results.returnCode.Some? <==> Survives(request, env) && !env.startFails && env.wait.Exited?)
      && (r.results.returnCode.Some? ==> r.results.returnCode.value == env.wait.code)
      && (r.status.Completed? <==> r.results.returnCode == Some(0))
      && (o.failed <==> r.results.returnCode.None?)
    ensures o.Returned? && o.result.Some? ==>
      (o.result.value.results.Storable() <==>
        && (Survives(request, env) && !env.startFails && env.wait.Exited? ==> 0 <= env.wait.code < 256)
        && (Survives(request, env) && !env.startFails ==> 0 <= env.endTime - env.startTime < 0x8000_0000)
        && IsText(OutputOf(o.result.value.results.stdout))
        && IsText(OutputOf(o.result.value.results.stderr)))
    // What never got to wait failed.
    ensures HasTask(request) && !Validated(env) ==>
      && o.Returned? && o.result.Some? && o.failed
      && o.result.value.status == ExecutionStatus.Failed
      && o.result.value.results.stderr.Some? && Refuses(env, o.result.value.results.stderr.value)
      && o.result.value.results.(stderr := None) == NO_RESULTS
    ensures HasTask(request) && Validated(env) && env.created.None? ==>
      o == Returned(Some(ExecutionResult(ExecutionStatus.Failed, NO_RESULTS.(startedAt := Some(env.startTime)))), true)
    ensures Survives(request, env) && env.startFails ==>
      o == Returned(Some(ExecutionResult(ExecutionStatus.Failed, NO_RESULTS.(startedAt := Some(env.startTime)))), true)
    // What ended the wait decides the status.
    ensures Survives(request, env) && !env.startFails ==>
      && o.Returned? && o.result.Some?
      && var status := o.result.value.status;
      && (env.wait.Exited? ==>
            status == (if env.wait.code == 0 then ExecutionStatus.Completed else ExecutionStatus.Failed))
      && (env.wait.WaitFailed? ==>
            && (status.Timeout? <==> env.wait.error == TimedOut || env.context == DeadlineExceeded)
            && (status.Cancelled? <==>
                  !status.Timeout? && (env.wait.error == WasCancelled || env.context == Canceled))
            && (status.Failed? <==> env.wait.error == OtherError && env.context == Active))
    // The columns of a run that waited.
    ensures Survives(request, env) && !env.startFails ==>
      var r := o.result.value.results;
      && r.startedAt == Some(env.startTime) && r.completedAt == Some(env.endTime)
      && r.executionTimeMs == Some(env.endTime - env.startTime)
      && r.memoryUsageBytes == None
      && (env.logs.Err? ==>
            r.stdout == None && r.stderr == Some("Failed to retrieve logs: " + env.logs.error))
      && (env.logs.Ok? ==>
            && OutputOf(r.stdout) == Text(Payloads(Frames(env.logs.value), 1)) && r.stdout != Some("")
            && OutputOf(r.stderr) == Text(Payloads(Frames(env.logs.value), 2)) && r.stderr != Some(""))
  {
    if request.None? || request.value.task.None? then Returned(None, true)
    else if env.scriptError.Some? then
      Returned(Some(Rejection("Security validation failed: " + env.scriptError.value)), true)
    else if env.buildError.Some? then
      Returned(Some(Rejection("Configuration error: " + env.buildError.value)), true)
    else if env.configError.Some? then
      Returned(Some(Rejection("Security validation failed: " + env.configError.value)), true)
    else ContainerOutcome(request.value, env)
  }

  /** A container that writes frames and ends has them, split by stream, in its result. */
  lemma OutputReachesTheResult(request: Request, env: Environment, frames: seq<Frame>)
    requires forall f <- frames :: f.Encodable()
    requires Accepted(Some(request), env) && Guarded(request, env) && Waited(env)
    requires env.logs == Ok(Encode(frames))
    ensures
      var o := ExecuteOutcome(Some(request), env);
      && o.Returned? && o.result.Some?
      && o.result.value.results.stdout == NonEmpty(Text(Payloads(frames, 1)))
      && o.result.value.results.stderr == NonEmpty(Text(Payloads(frames, 2)))
  {
    assert Encode(frames) + [] == Encode(frames);
    OutputsOfEncoded(frames, [], 1);
    OutputsOfEncoded(frames, [], 2);
    assert Frames([]) == [];
    assert Payloads(frames, 1) + [] == Payloads(frames, 1);
    assert Payloads(frames, 2) + [] == Payloads(frames, 2);
  }

  /**
   * Output is stored as it was written. The result of a run that waited can be stored if and only if its exit code
   * and its duration are in range and neither stream has a zero byte or malformed UTF-8.
   */
  lemma StorableIff(request: Request, env: Environment, logs: seq<byte>)
    requires Accepted(Some(request), env) && Guarded(request, env) && Waited(env) && env.logs == Ok(logs)
    ensures
      var o := ExecuteOutcome(Some(request), env);
      var out, err := Payloads(Frames(logs), 1), Payloads(Frames(logs), 2);
      && o.Returned? && o.result.Some?
      && (o.result.value.results.Storable() <==>
            && (env.wait.Exited? ==> 0 <= env.wait.code <= 255)
            && 0 <= env.endTime - env.startTime <= MAX_INTEGER
            && 0 !in out && IsUtf8(Text(out))
            && 0 !in err && IsUtf8(Text(err)))
  {
    var o := ExecuteOutcome(Some(request), env);
    var out, err := Payloads(Frames(logs), 1), Payloads(Frames(logs), 2);
    ZeroBytesShow(out);
    ZeroBytesShow(err);
    assert OutputOf(o.result.value.results.stdout) == Text(out);
    assert OutputOf(o.result.value.results.stderr) == Text(err);
  }

  lemma ZeroBytesShow(bytes: seq<byte>)
    ensures '\0' in Text(bytes) <==> 0 in bytes
  {
    if 0 in bytes {
      var i :| 0 <= i < |bytes| && bytes[i] == 0;
      assert Text(bytes)[i] == '\0';
    }
  }

  /**
   * The executor's container is tracked afterwards exactly when its registration was possible, although it has been
   * removed by then. Its entry says for what and when it was registered, when it was started, and how it ended; no
   * other entry changes.
   */
  lemma RunLeavesItsEntryIff(m: Containers, request: Request, env: Environment)
    requires request.task.Some? && env.created.Some? && env.created.value !in m
    ensures
      var id, after := env.created.value, TrackedAfter(m, request, env);
      && (id in after <==>
            && |id| >= 12 && request.execution.Some?
            && request.task.value != NIL_UUID && request.execution.value != NIL_UUID && env.image != "")
      && (id in after ==>
            var entry := after[id];
            && entry.taskId == request.task.value && entry.executionId == request.execution.value
            && entry.createdAt == env.registerTime && entry.image == env.image
            && entry.startedAt == (if env.startFails then None else Some(env.markTime))
            && EndsAs(env, entry.status))
      && after - {id} == m
  {
    var id, after := env.created.value, TrackedAfter(m, request, env);
    assert forall x | x != id :: (x in after <==> x in m) && (x in m ==> after[x] == m[x]);
  }

  /** Nothing is registered without a container, and an id that is tracked already keeps what it was registered for. */
  lemma RunKeepsEntries(m: Containers, request: Request, env: Environment)
    requires request.task.Some? && (env.created.Some? ==> env.created.value in m)
    ensures
      var after := TrackedAfter(m, request, env);
      && after.Keys == m.Keys
      && (forall x <- m | Some(x) != env.created :: after[x] == m[x])
      && (env.created.Some? ==>
            var before, now := m[env.created.value], after[env.created.value];
            && now.taskId == before.taskId && now.executionId == before.executionId
            && now.createdAt == before.createdAt && now.image == before.image)
  {
  }

  /** The status text that the end of a run leaves in the entry. */
  ghost predicate EndsAs(env: Environment, status: TrackStatus) {
    if env.startFails then status == TrackStatus.Created
    else if env.wait.Exited? then
      status == if env.wait.code == 0 then TrackStatus.Completed else TrackStatus.Failed
    else
      && (status.Timeout? <==> env.wait.error.TimedOut? || env.context.DeadlineExceeded?)
      && (status.Cancelled? <==> !status.Timeout? && (env.wait.error.WasCancelled? || env.context.Canceled?))
      && (status.Timeout? || status.Cancelled? || status.Failed?)
  }

  /**
   * A created container exists after the run exactly when the run panicked, or nothing removed it: neither the
   * executor, whose removal failed, nor the daemon. No other container is touched.
   */
  lemma ContainerRemainsIff(
      live: set<ContainerId>, unremovable: set<ContainerId>, request: Request, env: Environment)
    ensures
      var after := LiveAfter(live, unremovable, request, env);
      && (env.created.Some? ==>
            var id := env.created.value;
            id in after <==>
              || |id| < 12 || request.execution.None?
              || (id in unremovable && (env.startFails || !env.autoRemoved)))
      && forall x | Some(x) != env.created :: x in after <==> x in live
  {
  }
}
