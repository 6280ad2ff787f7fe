/** The entities of internal/models and the rows that store them. */
module Models {

  /** A UUID; only equality and the order PostgreSQL gives the type matter here. */
  type Uuid = nat

  const NIL_UUID: Uuid := 0

  datatype Option<+T> = None | Some(value: T)

  datatype Result<+T, +E> = Ok(value: T) | Err(error: E)

  datatype TaskStatus = Pending | Running | Completed | Failed | Timeout | Cancelled

  datatype ExecutionStatus = Pending | Running | Completed | Failed | Timeout | Cancelled
  {
    /** TaskExecution.IsTerminal */
    predicate IsTerminal() {
      Completed? || Failed? || Timeout? || Cancelled?
    }

    /** A live execution is one that still awaits its outcome. */
    predicate IsLive() {
      Pending? || Running?
    }
  }

  /** The columns of `tasks` that the lifecycle reads or writes. */
  datatype Task = Task(owner: Uuid, status: TaskStatus)

  predicate Continues(c: char) {
    0x80 <= c as int <= 0xBF
  }

  /** A byte string, one character a byte, that is well-formed UTF-8 (section 4 of RFC 3629). */
  predicate IsUtf8(s: string) {
    if s == [] then true
    else
      var first := s[0] as int;
      if first < 0x80 then IsUtf8(s[1..])
      else if 0xC2 <= first <= 0xDF then |s| >= 2 && Continues(s[1]) && IsUtf8(s[2..])
      else if 0xE0 <= first <= 0xEF then
        && |s| >= 3 && Continues(s[1]) && Continues(s[2])
        && (first == 0xE0 ==> 0xA0 <= s[1] as int)
        && (first == 0xED ==> s[1] as int <= 0x9F)
        && IsUtf8(s[3..])
      else if 0xF0 <= first <= 0xF4 then
        && |s| >= 4 && Continues(s[1]) && Continues(s[2]) && Continues(s[3])
        && (first == 0xF0 ==> 0x90 <= s[1] as int)
        && (first == 0xF4 ==> s[1] as int <= 0x8F)
        && IsUtf8(s[4..])
      else false
  }

  /** What a TEXT column takes: well-formed UTF-8 without the zero byte. */
  predicate IsText(s: string) {
    '\0' !in s && IsUtf8(s)
  }

  const MAX_INTEGER := 0x7FFF_FFFF

  /**
   * The columns of `task_executions` that record what a run produced. Texts are byte strings, one
   * character a byte.
   */
  datatype Results = Results(
    returnCode: Option<int>,
    stdout: Option<string>,
    stderr: Option<string>,
    executionTimeMs: Option<int>,
    memoryUsageBytes: Option<int>,
    startedAt: Option<int>,
    completedAt: Option<int>)
  {
    /** The constraints chk_return_code, chk_execution_time and chk_memory_usage, and the column types. */
    predicate Storable() {
      && (returnCode.Some? ==> 0 <= returnCode.value <= 255)
      && (executionTimeMs.Some? ==> 0 <= executionTimeMs.value <= MAX_INTEGER)
      && (memoryUsageBytes.Some? ==> 0 <= memoryUsageBytes.value)
      && (stdout.Some? ==> IsText(stdout.value))
      && (stderr.Some? ==> IsText(stderr.value))
    }
  }

  const NO_RESULTS := Results(None, None, None, None, None, None, None)

  datatype Execution = Execution(
    id: Uuid,
    taskId: Uuid,
    status: ExecutionStatus,
    results: Results,
    createdAt: nat)
}
