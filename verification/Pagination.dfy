/**
 * The cursor methods of internal/database/task_repository.go and task_execution_repository.go: from
 * a request to a page, and from page to page by the returned cursors. Arguments are bound one per
 * placeholder occurrence, which is what the builders append them for (see CursorSql.ClauseByNumberIff).
 */
module Pagination {
  import opened Models
  import opened Keyset
  import opened CursorSql

  const ZERO_TIME := 0

  // ----- Requests -----

  function NormalLimit(limit: int): (n: nat)
    ensures 1 <= n <= 100
    ensures 1 <= limit <= 100 ==> n == limit
  {
    if limit <= 0 then 20 else if limit > 100 then 100 else limit
  }

  function NormalOrder(order: string): (s: string)
    ensures s == "asc" || s == "desc"
    ensures s == "asc" <==> order == "asc"
  {
    if order == "asc" then "asc" else "desc"
  }

  const SORT_FIELDS := {"created_at", "updated_at", "priority", "name"}

  function NormalField(field: string): (s: string)
    ensures s in SORT_FIELDS
    ensures field in SORT_FIELDS ==> s == field
  {
    if field in SORT_FIELDS then field else "created_at"
  }

  /** The switch over sort fields that buildOrderByClause and buildCursorCondition share. */
  function FieldOf(field: string): SortField {
    if field == "priority" then ByPriority
    else if field == "updated_at" then ByUpdatedAt
    else if field == "name" then ByName
    else ByCreatedAt
  }

  /** The opaque cursor text: base64 of JSON, injective on cursors; anything else does not decode. */
  datatype Token<C> = Encoded(cursor: C) | Malformed

  class PaginationRequest<C> {
    var limit: int
    var cursor: Option<Token<C>>
    var sortOrder: string
    var sortField: string

    constructor (limit: int, cursor: Option<Token<C>>, sortOrder: string, sortField: string)
      ensures this.limit == limit && this.cursor == cursor
      ensures this.sortOrder == sortOrder && this.sortField == sortField
    {
      this.limit, this.cursor, this.sortOrder, this.sortField := limit, cursor, sortOrder, sortField;
    }

    /** ValidatePaginationRequest */
    method Validate()
      modifies this
      ensures limit == NormalLimit(old(limit)) && cursor == old(cursor)
      ensures sortOrder == NormalOrder(old(sortOrder)) && sortField == NormalField(old(sortField))
    {
      if limit <= 0 {
        limit := 20;
      }
      if limit > 100 {
        limit := 100;
      }
      if sortOrder == "" {
        sortOrder := "desc";
      }
      if sortOrder != "asc" && sortOrder != "desc" {
        sortOrder := "desc";
      }
      if sortField == "" {
        sortField := "created_at";
      }
      if sortField !in SORT_FIELDS {
        sortField := "created_at";
      }
    }
  }

  datatype PageError = InvalidCursor | QueryFailed | ScanFailed | EncodingFailed

  /** Which of the database and encoding operations of one call fail. */
  datatype Failures = Failures(query: bool, scan: bool, encoding: bool)

  const NO_FAILURES := Failures(false, false, false)

  /** DecodeTaskCursor rejects nil ids and zero times. */
  function DecodeTaskCursor(token: Token<TaskCursor>): Result<TaskCursor, PageError> {
    if token.Malformed? || token.cursor.id == NIL_UUID || token.cursor.createdAt == ZERO_TIME then Err(InvalidCursor)
    else Ok(token.cursor)
  }

  function DecodeExecutionCursor(token: Token<ExecutionCursor>): Result<ExecutionCursor, PageError> {
    if token.Malformed? || token.cursor.id == NIL_UUID || token.cursor.createdAt == ZERO_TIME then Err(InvalidCursor)
    else Ok(token.cursor)
  }

  /** The rows whose cursors decode again. */
  predicate CursorSafe(r: Row) {
    r.id != NIL_UUID && r.createdAt != ZERO_TIME
  }

  lemma CursorRoundTripIff(r: Row)
    ensures DecodeTaskCursor(Encoded(CreateTaskCursor(r))) == Ok(CreateTaskCursor(r)) <==> CursorSafe(r)
    ensures DecodeExecutionCursor(Encoded(CreateExecutionCursor(r))) == Ok(CreateExecutionCursor(r)) <==> CursorSafe(r)
  {
  }

  // ----- One page -----

  /** The filter and the order of a traversal. */
  datatype Query = Query(owner: Option<Uuid>, status: Option<int>, field: SortField, asc: bool)
  {
    function Order(): Before {
      RowOrder(field, asc)
    }

    /** By these fields the cursor follows the order. */
    predicate CursorSortable() {
      field.ByCreatedAt? || field.ByPriority?
    }
  }

  function Matching(table: set<Row>, q: Query): set<Row> {
    set r | r in table && Matches(q.owner, q.status, r)
  }

  /** The rows that the WHERE clause selects. */
  function Chosen(table: set<Row>, q: Query, cursor: Option<TaskCursor>): set<Row> {
    set r | r in table && Matches(q.owner, q.status, r)
            && (cursor.Some? ==> AfterCursor(cursor.value, q.asc, q.field, r))
  }

  ghost function CursorPage(table: set<Row>, q: Query, limit: nat, cursor: Option<TaskCursor>): Page
    requires UniqueIds(table)
  {
    RowOrderSorts(q.field, q.asc, Chosen(table, q, cursor));
    Cut(Listing(Chosen(table, q, cursor), q.Order()), limit)
  }

  function CursorAt(pos: Position): Option<TaskCursor> {
    if pos.Some? then Some(CreateTaskCursor(pos.value)) else None
  }

  function ExecutionCursorAt(pos: Position): Option<TaskCursor> {
    if pos.Some? then Some(CreateExecutionCursor(pos.value).AsTaskCursor()) else None
  }

  /** By created_at and priority, a cursor page is the page after the cursor's row. */
  lemma CursorPageIsPageAt(table: set<Row>, q: Query, limit: nat, pos: Position)
    requires UniqueIds(table) && q.CursorSortable()
    ensures Sorts(q.Order(), Matching(table, q))
    ensures CursorPage(table, q, limit, CursorAt(pos)) == PageAt(Matching(table, q), pos, q.Order(), limit)
  {
    RowOrderSorts(q.field, q.asc, Matching(table, q));
    CursorFollowsSortedOrder(q.field, q.asc);
    assert Chosen(table, q, CursorAt(pos)) == Remaining(Matching(table, q), pos, q.Order());
  }

  /** An execution page is the task page by created_at: the priority in a cursor makes no difference. */
  lemma ExecutionPageIsPageAt(table: set<Row>, q: Query, limit: nat, pos: Position)
    requires UniqueIds(table) && q.field.ByCreatedAt?
    ensures Sorts(q.Order(), Matching(table, q))
    ensures CursorPage(table, q, limit, ExecutionCursorAt(pos)) == PageAt(Matching(table, q), pos, q.Order(), limit)
  {
    CursorPageIsPageAt(table, q, limit, pos);
    forall r <- table
      ensures r in Chosen(table, q, ExecutionCursorAt(pos)) <==> r in Chosen(table, q, CursorAt(pos))
    {
      if pos.Some? {
        PriorityIrrelevantByCreatedAt(CreateTaskCursor(pos.value), q.asc, r);
      }
    }
    assert Chosen(table, q, ExecutionCursorAt(pos)) == Chosen(table, q, CursorAt(pos));
  }

  datatype Response<C> = Response(rows: seq<Row>, hasMore: bool, next: Option<Token<C>>)

  /** The query behind a request to the task repository, after ValidatePaginationRequest. */
  function TaskQuery(owner: Option<Uuid>, status: Option<int>, sortOrder: string, sortField: string): Query {
    Query(owner, status, FieldOf(NormalField(sortField)), NormalOrder(sortOrder) == "asc")
  }

  function ExecutionQuery(taskId: Option<Uuid>, status: Option<int>, sortOrder: string): Query {
    Query(taskId, status, ByCreatedAt, NormalOrder(sortOrder) == "asc")
  }

  /** A page with the cursor of its last row when there is more. */
  function TaskResponse(p: Page): Response<TaskCursor> {
    Response(p.rows, p.hasMore,
             if p.hasMore && p.rows != [] then Some(Encoded(CreateTaskCursor(p.rows[|p.rows| - 1]))) else None)
  }

  function ExecutionResponse(p: Page): Response<ExecutionCursor> {
    Response(p.rows, p.hasMore,
             if p.hasMore && p.rows != [] then Some(Encoded(CreateExecutionCursor(p.rows[|p.rows| - 1]))) else None)
  }

  /** What a request for a page of tasks is answered: the errors in the order they arise, else the page. */
  ghost function TasksResult(
    table: set<Row>, owner: Option<Uuid>, status: Option<int>, limit: int, token: Option<Token<TaskCursor>>,
    sortOrder: string, sortField: string, fails: Failures): Result<Response<TaskCursor>, PageError>
    requires UniqueIds(table)
  {
    var cursor := if token.Some? && token.value.Encoded? then Some(token.value.cursor) else None;
    var page := CursorPage(table, TaskQuery(owner, status, sortOrder, sortField), NormalLimit(limit), cursor);
    if token.Some? && DecodeTaskCursor(token.value).Err? then Err(InvalidCursor)
    else if fails.query then Err(QueryFailed)
    else if fails.scan then Err(ScanFailed)
    else if fails.encoding && page.hasMore then Err(EncodingFailed)
    else Ok(TaskResponse(page))
  }

  /** The same for executions. */
  ghost function ExecutionsResult(
    table: set<Row>, taskId: Option<Uuid>, status: Option<int>, limit: int, token: Option<Token<ExecutionCursor>>,
    sortOrder: string, fails: Failures): Result<Response<ExecutionCursor>, PageError>
    requires UniqueIds(table)
  {
    var cursor := if token.Some? && token.value.Encoded? then Some(token.value.cursor.AsTaskCursor()) else None;
    var page := CursorPage(table, ExecutionQuery(taskId, status, sortOrder), NormalLimit(limit), cursor);
    if token.Some? && DecodeExecutionCursor(token.value).Err? then Err(InvalidCursor)
    else if fails.query then Err(QueryFailed)
    else if fails.scan then Err(ScanFailed)
    else if fails.encoding && page.hasMore then Err(EncodingFailed)
    else Ok(ExecutionResponse(page))
  }

  /** The answer, given the page. */
  lemma {:induction false} TasksResultOf(
      table: set<Row>, owner: Option<Uuid>, status: Option<int>, limit: int, token: Option<Token<TaskCursor>>,
      sortOrder: string, sortField: string, fails: Failures, page: Page)
    requires UniqueIds(table) && !fails.query && !fails.scan
    requires token.Some? ==> DecodeTaskCursor(token.value).Ok?
    requires page == CursorPage(table, TaskQuery(owner, status, sortOrder, sortField), NormalLimit(limit),
                                if token.Some? then Some(token.value.cursor) else None)
    ensures TasksResult(table, owner, status, limit, token, sortOrder, sortField, fails)
         == if fails.encoding && page.hasMore then Err(EncodingFailed) else Ok(TaskResponse(page))
  {
  }

  lemma {:induction false} ExecutionsResultOf(
      table: set<Row>, taskId: Option<Uuid>, status: Option<int>, limit: int,
      token: Option<Token<ExecutionCursor>>, sortOrder: string, fails: Failures, page: Page)
    requires UniqueIds(table) && !fails.query && !fails.scan
    requires token.Some? ==> DecodeExecutionCursor(token.value).Ok?
    requires page == CursorPage(table, ExecutionQuery(taskId, status, sortOrder), NormalLimit(limit),
                                if token.Some? then Some(token.value.cursor.AsTaskCursor()) else None)
    ensures ExecutionsResult(table, taskId, status, limit, token, sortOrder, fails)
         == if fails.encoding && page.hasMore then Err(EncodingFailed) else Ok(ExecutionResponse(page))
  {
  }

  function TokenOf(behind: Position): Option<Token<TaskCursor>> {
    if behind.Some? then Some(Encoded(CreateTaskCursor(behind.value))) else None
  }

  function ExecutionTokenOf(behind: Position): Option<Token<ExecutionCursor>> {
    if behind.Some? then Some(Encoded(CreateExecutionCursor(behind.value))) else None
  }

  // ----- What a request asks for, in its own words -----

  /** The row has the owner and the status that the request names, if it names any. */
  predicate Wanted(owner: Option<Uuid>, status: Option<int>, r: Row) {
    && (owner.Some? ==> r.owner == owner.value)
    && (status.Some? ==> r.status == status.value)
  }

  predicate Older(a: Row, b: Row) {
    a.createdAt < b.createdAt || (a.createdAt == b.createdAt && a.id < b.id)
  }

  /** Ascending by the sort field of the request, a comes before b; texts that are not recognised mean created_at. */
  predicate Precedes(sortField: string, a: Row, b: Row) {
    if sortField == "priority" then a.priority < b.priority || (a.priority == b.priority && Older(a, b))
    else if sortField == "updated_at" then
      a.updatedAt < b.updatedAt || (a.updatedAt == b.updatedAt && a.id < b.id)
    else if sortField == "name" then a.name < b.name || (a.name == b.name && Older(a, b))
    else Older(a, b)
  }

  /** In the order of the request, a comes before b; anything but "asc" means descending. */
  predicate ComesFirst(sortOrder: string, sortField: string, a: Row, b: Row) {
    if sortOrder == "asc" then Precedes(sortField, a, b) else Precedes(sortField, b, a)
  }

  /** How many rows a page may have: 20 unless a positive number is asked for, and never more than 100. */
  function PageSize(limit: int): nat {
    if limit < 1 then 20 else if limit < 100 then limit else 100
  }

  /** Exactly the wanted rows of the table, in the order of the request. */
  ghost predicate IsListing(
    s: seq<Row>, table: set<Row>, owner: Option<Uuid>, status: Option<int>, sortOrder: string, sortField: string)
  {
    && (forall r :: r in s <==> r in table && Wanted(owner, status, r))
    && (forall i, j | 0 <= i < j < |s| :: ComesFirst(sortOrder, sortField, s[i], s[j]))
  }

  /** The row is wanted and comes after the position. */
  predicate IsNext(
    owner: Option<Uuid>, status: Option<int>, sortOrder: string, sortField: string, behind: Position, r: Row)
  {
    Wanted(owner, status, r) && (behind.Some? ==> ComesFirst(sortOrder, sortField, behind.value, r))
  }

  /**
   * The first n wanted rows after the position, in order: every other such row comes after all of them, and there
   * is one exactly when there is more.
   */
  ghost predicate IsPageOf(
    p: Page, n: nat, table: set<Row>, owner: Option<Uuid>, status: Option<int>, sortOrder: string, sortField: string,
    behind: Position)
  {
    && |p.rows| <= n
    && (p.hasMore ==> |p.rows| == n)
    && (forall r <- p.rows :: r in table && IsNext(owner, status, sortOrder, sortField, behind, r))
    && (forall i, j | 0 <= i < j < |p.rows| :: ComesFirst(sortOrder, sortField, p.rows[i], p.rows[j]))
    && (forall r <- table | IsNext(owner, status, sortOrder, sortField, behind, r) && r !in p.rows ::
          p.hasMore && forall x <- p.rows :: ComesFirst(sortOrder, sortField, x, r))
    && (p.hasMore ==> exists r <- table :: IsNext(owner, status, sortOrder, sortField, behind, r) && r !in p.rows)
  }

  lemma {:induction false} TaskQueryMeans(
      owner: Option<Uuid>, status: Option<int>, sortOrder: string, sortField: string, a: Row, b: Row)
    ensures
      var q := TaskQuery(owner, status, sortOrder, sortField);
      && (Matches(q.owner, q.status, a) <==> Wanted(owner, status, a))
      && (q.Order()(a, b) <==> ComesFirst(sortOrder, sortField, a, b))
      && (q.CursorSortable() <==> sortField != "name" && sortField != "updated_at")
  {
    var q := TaskQuery(owner, status, sortOrder, sortField);
    OrderMeans(q.field, q.asc, a, b);
  }

  lemma {:induction false} ExecutionQueryMeans(
      taskId: Option<Uuid>, status: Option<int>, sortOrder: string, a: Row, b: Row)
    ensures
      var q := ExecutionQuery(taskId, status, sortOrder);
      && (Matches(q.owner, q.status, a) <==> Wanted(taskId, status, a))
      && (q.Order()(a, b) <==> ComesFirst(sortOrder, "created_at", a, b))
  {
    var q := ExecutionQuery(taskId, status, sortOrder);
    OrderMeans(q.field, q.asc, a, b);
  }

  lemma {:induction false} LimitMeans(limit: int)
    ensures NormalLimit(limit) == PageSize(limit)
  {
  }

  /** The query asks for what the request says. */
  ghost predicate Asks(
    q: Query, owner: Option<Uuid>, status: Option<int>, sortOrder: string, sortField: string)
  {
    && (forall r :: Matches(q.owner, q.status, r) <==> Wanted(owner, status, r))
    && (forall a, b :: q.Order()(a, b) <==> ComesFirst(sortOrder, sortField, a, b))
  }

  lemma {:induction false} TaskQueryAsks(owner: Option<Uuid>, status: Option<int>, sortOrder: string, sortField: string)
    ensures Asks(TaskQuery(owner, status, sortOrder, sortField), owner, status, sortOrder, sortField)
  {
    var q := TaskQuery(owner, status, sortOrder, sortField);
    forall a, b
      ensures Matches(q.owner, q.status, a) <==> Wanted(owner, status, a)
      ensures q.Order()(a, b) <==> ComesFirst(sortOrder, sortField, a, b)
    {
      TaskQueryMeans(owner, status, sortOrder, sortField, a, b);
    }
  }

  lemma {:induction false} ExecutionQueryAsks(taskId: Option<Uuid>, status: Option<int>, sortOrder: string)
    ensures Asks(ExecutionQuery(taskId, status, sortOrder), taskId, status, sortOrder, "created_at")
  {
    var q := ExecutionQuery(taskId, status, sortOrder);
    forall a, b
      ensures Matches(q.owner, q.status, a) <==> Wanted(taskId, status, a)
      ensures q.Order()(a, b) <==> ComesFirst(sortOrder, "created_at", a, b)
    {
      ExecutionQueryMeans(taskId, status, sortOrder, a, b);
    }
  }

  /** A listing of the matching rows is a listing of the wanted ones. */
  lemma {:induction false} ListingIsWanted(
      table: set<Row>, q: Query, owner: Option<Uuid>, status: Option<int>, sortOrder: string, sortField: string)
    requires UniqueIds(table) && Asks(q, owner, status, sortOrder, sortField)
    ensures Sorts(q.Order(), Matching(table, q))
    ensures IsListing(Listing(Matching(table, q), q.Order()), table, owner, status, sortOrder, sortField)
    ensures Matching(table, q) == set r | r in table && Wanted(owner, status, r)
  {
    RowOrderSorts(q.field, q.asc, Matching(table, q));
    var s := Listing(Matching(table, q), q.Order());
    forall i, j | 0 <= i < j < |s|
      ensures ComesFirst(sortOrder, sortField, s[i], s[j])
    {
      AscendsAt(s, q.Order(), i, j);
    }
  }

  /** A page of the matching rows past a position is the page of the wanted ones. */
  lemma {:induction false} PageIsWanted(
      table: set<Row>, q: Query, owner: Option<Uuid>, status: Option<int>, sortOrder: string, sortField: string,
      n: nat, behind: Position)
    requires UniqueIds(table) && Asks(q, owner, status, sortOrder, sortField) && n > 0
    requires Sorts(q.Order(), Matching(table, q))
    ensures IsPageOf(PageAt(Matching(table, q), behind, q.Order(), n), n, table, owner, status, sortOrder, sortField,
                     behind)
  {
    var p, rest := PageAt(Matching(table, q), behind, q.Order(), n), Remaining(Matching(table, q), behind, q.Order());
    var all := Listing(rest, q.Order());
    PageAscends(Matching(table, q), behind, q.Order(), n);
    forall i, j | 0 <= i < j < |p.rows|
      ensures ComesFirst(sortOrder, sortField, p.rows[i], p.rows[j])
    {
      AscendsAt(p.rows, q.Order(), i, j);
    }
    forall r <- table | IsNext(owner, status, sortOrder, sortField, behind, r) && r !in p.rows
      ensures p.hasMore && forall x <- p.rows :: ComesFirst(sortOrder, sortField, x, r)
    {
      PageReturnsOrPasses(Matching(table, q), behind, q.Order(), n, r);
      forall x <- p.rows
        ensures ComesFirst(sortOrder, sortField, x, r)
      {
        LastOfPageFollows(p.rows, q.Order(), x);
      }
    }
    if p.hasMore {
      var r := all[n];
      assert r in all;
      assert r !in p.rows by {
        if r in p.rows {
          var j :| 0 <= j < n && all[j] == r;
          AscendsAt(all, q.Order(), j, n);
        }
      }
    }
  }

  /**
   * Main result: a request for tasks, for any owner and status, any limit and any texts, is answered with the first
   * page of the wanted rows in the order it asks for; behind a row, by created_at and priority, with the page after
   * that row. The cursor of the last row comes along exactly when there is more.
   */
  lemma {:induction false} TaskAnswerMeans(
      table: set<Row>, owner: Option<Uuid>, status: Option<int>, limit: int, behind: Position,
      sortOrder: string, sortField: string)
    requires UniqueIds(table)
    requires behind.Some? ==> CursorSafe(behind.value) && sortField != "name" && sortField != "updated_at"
    ensures
      var r := TasksResult(table, owner, status, limit, TokenOf(behind), sortOrder, sortField, NO_FAILURES);
      && r.Ok?
      && IsPageOf(Page(r.value.rows, r.value.hasMore), PageSize(limit), table, owner, status, sortOrder, sortField,
                  behind)
      && (r.value.hasMore <==> r.value.next.Some?)
      && (r.value.hasMore ==>
            var last := r.value.rows[|r.value.rows| - 1];
            r.value.next == Some(Encoded(TaskCursor(last.createdAt, last.id, Some(last.priority)))))
  {
    var p := TasksAnswered(table, owner, status, limit, behind, sortOrder, sortField);
  }

  lemma {:induction false} TasksAnswered(
      table: set<Row>, owner: Option<Uuid>, status: Option<int>, limit: int, behind: Position,
      sortOrder: string, sortField: string) returns (p: Page)
    requires UniqueIds(table)
    requires behind.Some? ==> CursorSafe(behind.value) && sortField != "name" && sortField != "updated_at"
    ensures TasksResult(table, owner, status, limit, TokenOf(behind), sortOrder, sortField, NO_FAILURES)
         == Ok(TaskResponse(p))
    ensures IsPageOf(p, PageSize(limit), table, owner, status, sortOrder, sortField, behind)
  {
    var q, n := TaskQuery(owner, status, sortOrder, sortField), NormalLimit(limit);
    LimitMeans(limit);
    TaskQueryAsks(owner, status, sortOrder, sortField);
    RowOrderSorts(q.field, q.asc, Matching(table, q));
    p := PageAt(Matching(table, q), behind, q.Order(), n);
    PageIsWanted(table, q, owner, status, sortOrder, sortField, n, behind);
    assert CursorPage(table, q, n, CursorAt(behind)) == p by {
      if behind.Some? {
        TaskQueryMeans(owner, status, sortOrder, sortField, behind.value, behind.value);
        CursorPageIsPageAt(table, q, n, behind);
      } else {
        assert Chosen(table, q, None) == Remaining(Matching(table, q), None, q.Order());
      }
    }
  }

  /** The same for executions, of any task and status, always by created_at. */
  lemma {:induction false} ExecutionAnswerMeans(
      table: set<Row>, taskId: Option<Uuid>, status: Option<int>, limit: int, behind: Position, sortOrder: string)
    requires UniqueIds(table) && (behind.Some? ==> CursorSafe(behind.value))
    ensures
      var r := ExecutionsResult(table, taskId, status, limit, ExecutionTokenOf(behind), sortOrder, NO_FAILURES);
      && r.Ok?
      && IsPageOf(Page(r.value.rows, r.value.hasMore), PageSize(limit), table, taskId, status, sortOrder, "created_at",
                  behind)
      && (r.value.hasMore <==> r.value.next.Some?)
      && (r.value.hasMore ==>
            var last := r.value.rows[|r.value.rows| - 1];
            r.value.next == Some(Encoded(ExecutionCursor(last.createdAt, last.id))))
  {
    var p := ExecutionsAnswered(table, taskId, status, limit, behind, sortOrder);
  }

  lemma {:induction false} ExecutionsAnswered(
      table: set<Row>, taskId: Option<Uuid>, status: Option<int>, limit: int, behind: Position, sortOrder: string)
      returns (p: Page)
    requires UniqueIds(table) && (behind.Some? ==> CursorSafe(behind.value))
    ensures ExecutionsResult(table, taskId, status, limit, ExecutionTokenOf(behind), sortOrder, NO_FAILURES)
         == Ok(ExecutionResponse(p))
    ensures IsPageOf(p, PageSize(limit), table, taskId, status, sortOrder, "created_at", behind)
  {
    var q, n := ExecutionQuery(taskId, status, sortOrder), NormalLimit(limit);
    LimitMeans(limit);
    ExecutionQueryAsks(taskId, status, sortOrder);
    ExecutionPageIsPageAt(table, q, n, behind);
    p := PageAt(Matching(table, q), behind, q.Order(), n);
    PageIsWanted(table, q, taskId, status, sortOrder, "created_at", n, behind);
  }

  /** A request whose cursor does not decode is refused before anything else; then the operations fail in order. */
  lemma {:induction false} AnswersFail(
      table: set<Row>, owner: Option<Uuid>, status: Option<int>, limit: int, token: Option<Token<TaskCursor>>,
      sortOrder: string, sortField: string, fails: Failures)
    requires UniqueIds(table)
    ensures
      var r := TasksResult(table, owner, status, limit, token, sortOrder, sortField, fails);
      var t := token;
      var bad := (
        t.Some? && (t.value.Malformed? || t.value.cursor.id == NIL_UUID || t.value.cursor.createdAt == ZERO_TIME));
      && (r == Err(InvalidCursor) <==> bad)
      && (r == Err(QueryFailed) <==> !bad && fails.query)
      && (r == Err(ScanFailed) <==> !bad && !fails.query && fails.scan)
      && var calm := TasksResult(table, owner, status, limit, token, sortOrder, sortField, NO_FAILURES);
      && (bad || fails.query || fails.scan ||
          r == if fails.encoding && calm.Ok? && calm.value.hasMore then Err(EncodingFailed) else calm)
      && (!bad ==> calm.Ok?)
  {
  }

  /** The same for a request for executions. */
  lemma {:induction false} ExecutionAnswersFail(
      table: set<Row>, taskId: Option<Uuid>, status: Option<int>, limit: int,
      token: Option<Token<ExecutionCursor>>, sortOrder: string, fails: Failures)
    requires UniqueIds(table)
    ensures
      var r := ExecutionsResult(table, taskId, status, limit, token, sortOrder, fails);
      var t := token;
      var bad := (
        t.Some? && (t.value.Malformed? || t.value.cursor.id == NIL_UUID || t.value.cursor.createdAt == ZERO_TIME));
      && (r == Err(InvalidCursor) <==> bad)
      && (r == Err(QueryFailed) <==> !bad && fails.query)
      && (r == Err(ScanFailed) <==> !bad && !fails.query && fails.scan)
      && var calm := ExecutionsResult(table, taskId, status, limit, token, sortOrder, NO_FAILURES);
      && (bad || fails.query || fails.scan ||
          r == if fails.encoding && calm.Ok? && calm.value.hasMore then Err(EncodingFailed) else calm)
      && (!bad ==> calm.Ok?)
  {
  }

  /** A table behind SELECT ... WHERE ... ORDER BY ... LIMIT. */
  class Repository {
    var table: set<Row>

    constructor (rows: set<Row>)
      ensures table == rows
    {
      table := rows;
    }

    /** ORDER BY and LIMIT of the database. */
    method Sort(selected: set<Row>, field: SortField, asc: bool, limit: nat) returns (rows: seq<Row>)
      requires Sorts(RowOrder(field, asc), selected)
      ensures rows == Cut(Listing(selected, RowOrder(field, asc)), limit).rows
    {
      var before := RowOrder(field, asc);
      var pending := selected;
      rows := [];
      while pending != {} && |rows| < limit
        invariant |rows| <= limit && Sorts(before, pending)
        invariant Listing(selected, before) == rows + Listing(pending, before)
        decreases |pending|
      {
        FirstExists(before, pending);
        var r :| r in pending && IsFirst(before, pending, r);
        ListingStartsWithFirst(pending, before, r);
        rows := rows + [r];
        pending := pending - {r};
      }
    }

    /** WHERE of the database, with one argument for each occurrence of a placeholder. */
    method Where(clause: Clause, ghost q: Query, ghost cursor: Option<TaskCursor>) returns (selected: set<Row>)
      requires clause == TaskClause(cursor, q.asc, q.field, q.owner, q.status)
      ensures selected == Chosen(table, q, cursor)
    {
      ClauseSelects(table, q, cursor, clause);
      selected := set r | r in table && (clause.where.Some? ==> HoldsInOrder(clause.where.value, clause.args, r));
    }

    /** WHERE of the database for the text as it is written: placeholder $n is argument n. */
    method WhereAsWritten(clause: Clause) returns (selected: Result<set<Row>, PageError>)
      ensures selected.Ok? <==> (clause.where.Some? ==> TypedByNumber(clause.where.value, clause.args))
      ensures selected.Ok? ==>
                selected.value == set r | r in table &&
                  (clause.where.Some? ==> HoldsByNumber(clause.where.value, clause.args, r))
      ensures selected.Err? ==> selected.error == QueryFailed
    {
      if clause.where.Some? && !TypedByNumber(clause.where.value, clause.args) {
        return Err(QueryFailed);
      }
      return Ok(set r | r in table && (clause.where.Some? ==> HoldsByNumber(clause.where.value, clause.args, r)));
    }

    /** The scanning loop of scanTasks and scanTaskExecutions. */
    method Scan(rows: seq<Row>) returns (scanned: seq<Row>)
      ensures scanned == rows
    {
      scanned := [];
      for i := 0 to |rows|
        invariant scanned == rows[..i]
      {
        scanned := scanned + [rows[i]];
      }
    }

    /** Fetch one row more than the limit, note whether it is there, and drop it. */
    method FetchPage(selected: set<Row>, field: SortField, asc: bool, limit: nat)
      returns (rows: seq<Row>, hasMore: bool)
      requires Sorts(RowOrder(field, asc), selected)
      ensures Page(rows, hasMore) == Cut(Listing(selected, RowOrder(field, asc)), limit)
    {
      var fetched := Sort(selected, field, asc, limit + 1);
      rows := Scan(fetched);
      hasMore := |rows| > limit;
      if hasMore {
        rows := rows[..limit];
      }
    }

    /** The rows of a clause, one page of them. */
    method SelectPage(clause: Clause, q: Query, limit: nat, ghost cursor: Option<TaskCursor>)
      returns (rows: seq<Row>, hasMore: bool)
      requires UniqueIds(table)
      requires clause == TaskClause(cursor, q.asc, q.field, q.owner, q.status)
      ensures Page(rows, hasMore) == CursorPage(table, q, limit, cursor)
    {
      var selected := Where(clause, q, cursor);
      RowOrderSorts(q.field, q.asc, selected);
      rows, hasMore := FetchPage(selected, q.field, q.asc, limit);
    }

    /**
     * GetByUserIDCursor, GetByStatusCursor and ListCursor of the task repository: they differ only in
     * which filter they pass.
     */
    method GetTasksCursor(owner: Option<Uuid>, status: Option<int>, limit: int, token: Option<Token<TaskCursor>>,
                          sortOrder: string, sortField: string, fails: Failures)
      returns (r: Result<Response<TaskCursor>, PageError>)
      requires UniqueIds(table)
      ensures r == TasksResult(table, owner, status, limit, token, sortOrder, sortField, fails)
    {
      var req := new PaginationRequest(limit, token, sortOrder, sortField);
      req.Validate();
      var cursor := None;
      if req.cursor.Some? {
        var decoded := DecodeTaskCursor(req.cursor.value);
        if decoded.Err? {
          return Err(decoded.error);
        }
        cursor := Some(decoded.value);
      }
      var q := Query(owner, status, FieldOf(req.sortField), req.sortOrder == "asc");
      var clause := BuildTaskCursorWhere(cursor, q.asc, q.field, owner, status);
      if fails.query {
        return Err(QueryFailed);
      }
      assert q == TaskQuery(owner, status, sortOrder, sortField);
      var tasks, hasMore := SelectPage(clause, q, req.limit, cursor);
      if fails.scan {
        return Err(ScanFailed);
      }
      TasksResultOf(table, owner, status, limit, token, sortOrder, sortField, fails, Page(tasks, hasMore));
      var next := None;
      if hasMore && |tasks| > 0 {
        if fails.encoding {
          return Err(EncodingFailed);
        }
        next := Some(Encoded(CreateTaskCursor(tasks[|tasks| - 1])));
      }
      return Ok(Response(tasks, hasMore, next));
    }

    /** GetByTaskIDCursor, GetByStatusCursor and ListCursor of the execution repository: by created_at only. */
    method GetExecutionsCursor(taskId: Option<Uuid>, status: Option<int>, limit: int,
                               token: Option<Token<ExecutionCursor>>, sortOrder: string, sortField: string,
                               fails: Failures)
      returns (r: Result<Response<ExecutionCursor>, PageError>)
      requires UniqueIds(table)
      ensures r == ExecutionsResult(table, taskId, status, limit, token, sortOrder, fails)
    {
      var req := new PaginationRequest(limit, token, sortOrder, sortField);
      req.Validate();
      var cursor := None;
      if req.cursor.Some? {
        var decoded := DecodeExecutionCursor(req.cursor.value);
        if decoded.Err? {
          return Err(decoded.error);
        }
        cursor := Some(decoded.value);
      }
      var q := Query(taskId, status, ByCreatedAt, req.sortOrder == "asc");
      var clause := BuildExecutionCursorWhere(cursor, q.asc, taskId, status);
      if fails.query {
        return Err(QueryFailed);
      }
      var executions, hasMore :=
        SelectPage(clause, q, req.limit, if cursor.Some? then Some(cursor.value.AsTaskCursor()) else None);
      if fails.scan {
        return Err(ScanFailed);
      }
      ExecutionsResultOf(table, taskId, status, limit, token, sortOrder, fails, Page(executions, hasMore));
      var next := None;
      if hasMore && |executions| > 0 {
        if fails.encoding {
          return Err(EncodingFailed);
        }
        next := Some(Encoded(CreateExecutionCursor(executions[|executions| - 1])));
      }
      return Ok(Response(executions, hasMore, next));
    }

    /**
     * Main result for an unchanging table: following next-cursors from the start until there is no more
     * returns every matching row exactly once in ORDER BY order, in max(1, ceil(n / limit)) pages, for
     * any requested limit and order, by created_at and by priority.
     */
    method FollowTaskCursors(owner: Option<Uuid>, status: Option<int>, limit: int, sortOrder: string, sortField: string)
      returns (all: seq<Row>, pages: nat)
      requires UniqueIds(table) && forall r <- table :: CursorSafe(r)
      requires sortField != "name" && sortField != "updated_at"
      ensures
        var q := TaskQuery(owner, status, sortOrder, sortField);
        && Sorts(q.Order(), Matching(table, q))
        && all == Listing(Matching(table, q), q.Order())
      ensures IsListing(all, table, owner, status, sortOrder, sortField)
      ensures pages == PagesNeeded(|all|, PageSize(limit))
    {
      ghost var q := TaskQuery(owner, status, sortOrder, sortField);
      ghost var n := NormalLimit(limit);
      ghost var pos: Position := None;
      StartsOnTrack(table, q, n);
      LimitMeans(limit);
      TaskQueryAsks(owner, status, sortOrder, sortField);
      ListingIsWanted(table, q, owner, status, sortOrder, sortField);
      all, pages := [], 0;
      var token: Option<Token<TaskCursor>> := None;
      var more := true;
      while more
        invariant TokenAt(token, pos)
        invariant OnTrackFor(table, q, n, pos, all, pages, more)
        decreases more, Left(table, q, pos)
      {
        all, pages, more, token, pos := FetchFrom(owner, status, limit, token, sortOrder, sortField, all, pages, pos);
      }
    }

    /** One round of FollowTaskCursors: the page after a position is added, and the position moves behind it. */
    method FetchFrom(owner: Option<Uuid>, status: Option<int>, limit: int, token: Option<Token<TaskCursor>>,
                     sortOrder: string, sortField: string, all: seq<Row>, pages: nat, ghost pos: Position)
      returns (more: seq<Row>, count: nat, hasMore: bool, next: Option<Token<TaskCursor>>, ghost end: Position)
      requires UniqueIds(table) && forall r <- table :: CursorSafe(r)
      requires sortField != "name" && sortField != "updated_at" && TokenAt(token, pos)
      requires OnTrackFor(table, TaskQuery(owner, status, sortOrder, sortField), NormalLimit(limit), pos, all, pages,
                          true)
      ensures all <= more && count == pages + 1
      ensures TokenAt(next, end)
      ensures
        var q := TaskQuery(owner, status, sortOrder, sortField);
        && OnTrackFor(table, q, NormalLimit(limit), end, more, count, hasMore)
        && (hasMore ==> Left(table, q, end) < Left(table, q, pos))
    {
      ghost var q := TaskQuery(owner, status, sortOrder, sortField);
      ghost var n := NormalLimit(limit);
      var r := GetTasksCursor(owner, status, limit, token, sortOrder, sortField, NO_FAILURES);
      ghost var page := CursorPage(table, q, n, CursorAt(pos));
      CursorPageIsPageAt(table, q, n, pos);
      PageEndIsSafe(table, q, pos, n);
      RoundStaysOnTrack(table, q, n, pos, all, pages, page);
      end := EndOf(page);
      more, count, hasMore, next := all + r.value.rows, pages + 1, r.value.hasMore, r.value.next;
    }

    /** The same result for executions, which are always listed by created_at. */
    method FollowExecutionCursors(taskId: Option<Uuid>, status: Option<int>, limit: int, sortOrder: string)
      returns (all: seq<Row>, pages: nat)
      requires UniqueIds(table) && forall r <- table :: CursorSafe(r)
      ensures
        var q := ExecutionQuery(taskId, status, sortOrder);
        && Sorts(q.Order(), Matching(table, q))
        && all == Listing(Matching(table, q), q.Order())
      ensures IsListing(all, table, taskId, status, sortOrder, "created_at")
      ensures pages == PagesNeeded(|all|, PageSize(limit))
    {
      ghost var q := ExecutionQuery(taskId, status, sortOrder);
      ghost var n := NormalLimit(limit);
      ghost var pos: Position := None;
      StartsOnTrack(table, q, n);
      LimitMeans(limit);
      ExecutionQueryAsks(taskId, status, sortOrder);
      ListingIsWanted(table, q, taskId, status, sortOrder, "created_at");
      all, pages := [], 0;
      var token: Option<Token<ExecutionCursor>> := None;
      var more := true;
      while more
        invariant ExecutionTokenAt(token, pos)
        invariant OnTrackFor(table, q, n, pos, all, pages, more)
        decreases more, Left(table, q, pos)
      {
        all, pages, more, token, pos := FetchExecutionsFrom(taskId, status, limit, token, sortOrder, all, pages, pos);
      }
    }

    /** One round of FollowExecutionCursors. */
    method FetchExecutionsFrom(taskId: Option<Uuid>, status: Option<int>, limit: int,
                               token: Option<Token<ExecutionCursor>>, sortOrder: string,
                               all: seq<Row>, pages: nat, ghost pos: Position)
      returns (more: seq<Row>, count: nat, hasMore: bool, next: Option<Token<ExecutionCursor>>, ghost end: Position)
      requires UniqueIds(table) && forall r <- table :: CursorSafe(r)
      requires ExecutionTokenAt(token, pos)
      requires OnTrackFor(table, ExecutionQuery(taskId, status, sortOrder), NormalLimit(limit), pos, all, pages, true)
      ensures all <= more && count == pages + 1
      ensures ExecutionTokenAt(next, end)
      ensures
        var q := ExecutionQuery(taskId, status, sortOrder);
        && OnTrackFor(table, q, NormalLimit(limit), end, more, count, hasMore)
        && (hasMore ==> Left(table, q, end) < Left(table, q, pos))
    {
      ghost var q := ExecutionQuery(taskId, status, sortOrder);
      ghost var n := NormalLimit(limit);
      var r := GetExecutionsCursor(taskId, status, limit, token, sortOrder, "", NO_FAILURES);
      ghost var page := CursorPage(table, q, n, ExecutionCursorAt(pos));
      ExecutionPageIsPageAt(table, q, n, pos);
      PageEndIsSafe(table, q, pos, n);
      RoundStaysOnTrack(table, q, n, pos, all, pages, page);
      end := EndOf(page);
      more, count, hasMore, next := all + r.value.rows, pages + 1, r.value.hasMore, r.value.next;
    }

    /** One task page for the text as it is written: any cursor makes the database refuse the query. */
    method FetchAsWritten(owner: Option<Uuid>, status: Option<int>, limit: int, token: Option<Token<TaskCursor>>,
                          sortOrder: string, sortField: string)
      returns (r: Result<Response<TaskCursor>, PageError>)
      requires UniqueIds(table)
      ensures token.Some? ==> r.Err?
      ensures token.None? ==>
                r == TasksResult(table, owner, status, limit, None, sortOrder, sortField, NO_FAILURES)
    {
      var req := new PaginationRequest(limit, token, sortOrder, sortField);
      req.Validate();
      var cursor := None;
      if req.cursor.Some? {
        var decoded := DecodeTaskCursor(req.cursor.value);
        if decoded.Err? {
          return Err(decoded.error);
        }
        cursor := Some(decoded.value);
      }
      var q := Query(owner, status, FieldOf(req.sortField), req.sortOrder == "asc");
      var clause := BuildTaskCursorWhere(cursor, q.asc, q.field, owner, status);
      ClauseByNumberIff(cursor, q.asc, q.field, owner, status);
      var selected := WhereAsWritten(clause);
      if selected.Err? {
        return Err(selected.error);
      }
      FirstPageAsWritten(table, q);
      RowOrderSorts(q.field, q.asc, selected.value);
      var tasks, hasMore := FetchPage(selected.value, q.field, q.asc, req.limit);
      return Ok(TaskResponse(Page(tasks, hasMore)));
    }

    /**
     * Main result for the text as it is written: following cursors comes to an end exactly when the matching rows
     * fit one page, for every sort field and order; with more rows the second query is refused.
     */
    method FollowAsWritten(owner: Option<Uuid>, status: Option<int>, limit: int, sortOrder: string, sortField: string)
      returns (r: Result<seq<Row>, PageError>)
      requires UniqueIds(table)
      ensures r.Ok? <==> |set x | x in table && Wanted(owner, status, x)| <= PageSize(limit)
      ensures r.Ok? ==> IsListing(r.value, table, owner, status, sortOrder, sortField)
    {
      ghost var q := TaskQuery(owner, status, sortOrder, sortField);
      LimitMeans(limit);
      TaskQueryAsks(owner, status, sortOrder, sortField);
      ListingIsWanted(table, q, owner, status, sortOrder, sortField);
      assert Chosen(table, q, None) == Matching(table, q);
      var all: seq<Row>, token: Option<Token<TaskCursor>> := [], None;
      while true
        invariant token.None? ==> all == []
        invariant token.Some? ==> |Matching(table, q)| > NormalLimit(limit)
        decreases token.None?
      {
        var page := FetchAsWritten(owner, status, limit, token, sortOrder, sortField);
        if page.Err? {
          return Err(page.error);
        }
        all := all + page.value.rows;
        if !page.value.hasMore {
          return Ok(all);
        }
        token := page.value.next;
      }
    }

    /** One execution page for the text as it is written. */
    method FetchExecutionsAsWritten(taskId: Option<Uuid>, status: Option<int>, limit: int,
                                    token: Option<Token<ExecutionCursor>>, sortOrder: string)
      returns (r: Result<Response<ExecutionCursor>, PageError>)
      requires UniqueIds(table)
      ensures token.Some? ==> r.Err?
      ensures token.None? ==> r == ExecutionsResult(table, taskId, status, limit, None, sortOrder, NO_FAILURES)
    {
      var req := new PaginationRequest(limit, token, sortOrder, "");
      req.Validate();
      var cursor := None;
      if req.cursor.Some? {
        var decoded := DecodeExecutionCursor(req.cursor.value);
        if decoded.Err? {
          return Err(decoded.error);
        }
        cursor := Some(decoded.value);
      }
      var q := Query(taskId, status, ByCreatedAt, req.sortOrder == "asc");
      var clause := BuildExecutionCursorWhere(cursor, q.asc, taskId, status);
      ghost var bound := if cursor.Some? then Some(cursor.value.AsTaskCursor()) else None;
      ClauseByNumberIff(bound, q.asc, q.field, taskId, status);
      var selected := WhereAsWritten(clause);
      if selected.Err? {
        return Err(selected.error);
      }
      FirstPageAsWritten(table, q);
      RowOrderSorts(q.field, q.asc, selected.value);
      var executions, hasMore := FetchPage(selected.value, q.field, q.asc, req.limit);
      return Ok(ExecutionResponse(Page(executions, hasMore)));
    }

    /** The same for executions. */
    method FollowExecutionsAsWritten(taskId: Option<Uuid>, status: Option<int>, limit: int, sortOrder: string)
      returns (r: Result<seq<Row>, PageError>)
      requires UniqueIds(table)
      ensures r.Ok? <==> |set x | x in table && Wanted(taskId, status, x)| <= PageSize(limit)
      ensures r.Ok? ==> IsListing(r.value, table, taskId, status, sortOrder, "created_at")
    {
      ghost var q := ExecutionQuery(taskId, status, sortOrder);
      LimitMeans(limit);
      ExecutionQueryAsks(taskId, status, sortOrder);
      ListingIsWanted(table, q, taskId, status, sortOrder, "created_at");
      assert Chosen(table, q, None) == Matching(table, q);
      var all: seq<Row>, token: Option<Token<ExecutionCursor>> := [], None;
      while true
        invariant token.None? ==> all == []
        invariant token.Some? ==> |Matching(table, q)| > NormalLimit(limit)
        decreases token.None?
      {
        var page := FetchExecutionsAsWritten(taskId, status, limit, token, sortOrder);
        if page.Err? {
          return Err(page.error);
        }
        all := all + page.value.rows;
        if !page.value.hasMore {
          return Ok(all);
        }
        token := page.value.next;
      }
    }
  }

  /** The token is the encoded cursor of the position's row, which decodes. */
  ghost predicate ExecutionTokenAt(token: Option<Token<ExecutionCursor>>, pos: Position) {
    if pos.Some? then token == Some(Encoded(CreateExecutionCursor(pos.value))) && CursorSafe(pos.value)
    else token.None?
  }

  /** The same for tasks. */
  ghost predicate TokenAt(token: Option<Token<TaskCursor>>, pos: Position) {
    if pos.Some? then token == Some(Encoded(CreateTaskCursor(pos.value))) && CursorSafe(pos.value)
    else token.None?
  }

  lemma {:induction false} PageEndIsSafe(table: set<Row>, q: Query, pos: Position, n: nat)
    requires Sorts(q.Order(), Matching(table, q)) && forall r <- table :: CursorSafe(r)
    ensures
      var p := PageAt(Matching(table, q), pos, q.Order(), n);
      EndOf(p).Some? ==> CursorSafe(EndOf(p).value)
  {
    PageAscends(Matching(table, q), pos, q.Order(), n);
    var rows := PageAt(Matching(table, q), pos, q.Order(), n).rows;
    assert rows != [] ==> rows[|rows| - 1] in rows;
  }

  lemma ListingStartsWithFirst(rows: set<Row>, before: Before, r: Row)
    requires Sorts(before, rows) && IsFirst(before, rows, r)
    ensures Sorts(before, rows - {r})
    ensures Listing(rows, before) == [r] + Listing(rows - {r}, before)
  {
    var rest := Listing(rows - {r}, before);
    FirstThenRestLists(r, rest, rows, before);
    ListingIsUnique([r] + rest, Listing(rows, before), rows, before);
  }

  lemma ClauseSelects(table: set<Row>, q: Query, cursor: Option<TaskCursor>, clause: Clause)
    requires clause == TaskClause(cursor, q.asc, q.field, q.owner, q.status)
    ensures clause.where.Some? ==> |clause.args| == Occurrences(clause.where.value)
    ensures (set r | r in table && (clause.where.Some? ==> HoldsInOrder(clause.where.value, clause.args, r)))
         == Chosen(table, q, cursor)
  {
    ClauseInOrder(cursor, q.asc, q.field, q.owner, q.status, Row(0, 0, 0, 0, 0, 0, 0));
    forall r <- table
      ensures (clause.where.Some? ==> HoldsInOrder(clause.where.value, clause.args, r))
         <==> r in Chosen(table, q, cursor)
    {
      ClauseInOrder(cursor, q.asc, q.field, q.owner, q.status, r);
    }
  }

  /** Without a cursor the two ways of binding agree. */
  lemma FirstPageAsWritten(table: set<Row>, q: Query)
    ensures
      var clause := TaskClause(None, q.asc, q.field, q.owner, q.status);
      && (clause.where.Some? ==> TypedByNumber(clause.where.value, clause.args))
      && (set r | r in table && (clause.where.Some? ==> HoldsByNumber(clause.where.value, clause.args, r)))
         == Chosen(table, q, None)
  {
    ClauseByNumberIff(None, q.asc, q.field, q.owner, q.status);
    var filters := FilterConditions(q.owner, q.status);
    forall r <- table
      ensures filters != [] ==>
        (HoldsByNumber(Joined(filters), FilterArgs(q.owner, q.status), r) <==> Matches(q.owner, q.status, r))
    {
      if filters != [] {
        FiltersInOrder(q.owner, q.status, r);
      }
    }
  }

  /** What has been returned so far and what remains past the position make up the listing. */
  ghost predicate OnTrack(
    rows: set<Row>, before: Before, n: nat, pos: Position, all: seq<Row>, pages: nat, more: bool)
    requires n > 0 && Sorts(before, rows)
  {
    var rest := if more then Listing(Remaining(rows, pos, before), before) else [];
    && Listing(rows, before) == all + rest
    && PagesNeeded(|rows|, n) == pages + (if more then PagesNeeded(|rest|, n) else 0)
  }

  ghost predicate OnTrackFor(
    table: set<Row>, q: Query, n: nat, pos: Position, all: seq<Row>, pages: nat, more: bool)
    requires n > 0
  {
    && Sorts(q.Order(), Matching(table, q))
    && OnTrack(Matching(table, q), q.Order(), n, pos, all, pages, more)
  }

  /** How many matching rows are past the position. */
  ghost function Left(table: set<Row>, q: Query, pos: Position): nat {
    |Remaining(Matching(table, q), pos, q.Order())|
  }

  lemma StartsOnTrack(table: set<Row>, q: Query, n: nat)
    requires UniqueIds(table) && n > 0
    ensures OnTrackFor(table, q, n, None, [], 0, true)
  {
    RowOrderSorts(q.field, q.asc, Matching(table, q));
    assert Remaining(Matching(table, q), None, q.Order()) == Matching(table, q);
  }

  lemma {:induction false} MorePagesNeeded(rows: nat, rest: nat, n: nat)
    requires 0 < n && 0 < rest && rows == n + rest
    ensures PagesNeeded(rows, n) == 1 + PagesNeeded(rest, n)
  {
  }

  lemma {:induction false} Advance(
      rows: set<Row>, before: Before, n: nat, pos: Position, all: seq<Row>, pages: nat, p: Page)
    requires n > 0 && Sorts(before, rows) && OnTrack(rows, before, n, pos, all, pages, true)
    requires p == PageAt(rows, pos, before, n)
    ensures
      var next := EndOf(p);
      && OnTrack(rows, before, n, next, all + p.rows, pages + 1, p.hasMore)
      && (p.hasMore ==> |Remaining(rows, next, before)| < |Remaining(rows, pos, before)|)
  {
    if p.hasMore {
      RestAfterPage(rows, before, n, pos, p);
      var rest := Listing(Remaining(rows, EndOf(p), before), before);
      AdvanceBy(Listing(rows, before), all, p.rows, rest, n, pages, |rows|);
    } else {
      PageThenRest(rows, pos, before, n);
      AdvanceToEnd(Listing(rows, before), all, p.rows, n, pages, |rows|);
    }
  }

  lemma {:induction false} RestAfterPage(rows: set<Row>, before: Before, n: nat, pos: Position, p: Page)
    requires n > 0 && Sorts(before, rows) && p == PageAt(rows, pos, before, n) && p.hasMore
    ensures
      var rest := Listing(Remaining(rows, EndOf(p), before), before);
      && |p.rows| == n && rest != []
      && Listing(Remaining(rows, pos, before), before) == p.rows + rest
      && |Remaining(rows, EndOf(p), before)| < |Remaining(rows, pos, before)|
  {
    PageThenRest(rows, pos, before, n);
    assert EndOf(p) == Some(p.rows[n - 1]);
  }

  lemma {:induction false} AdvanceBy(
      listing: seq<Row>, all: seq<Row>, page: seq<Row>, rest: seq<Row>, n: nat, pages: nat, size: nat)
    requires n > 0 && |page| == n && rest != []
    requires listing == all + (page + rest) && PagesNeeded(size, n) == pages + PagesNeeded(|page + rest|, n)
    ensures listing == (all + page) + rest && PagesNeeded(size, n) == pages + 1 + PagesNeeded(|rest|, n)
  {
    MorePagesNeeded(|page + rest|, |rest|, n);
  }

  lemma {:induction false} AdvanceToEnd(
      listing: seq<Row>, all: seq<Row>, page: seq<Row>, n: nat, pages: nat, size: nat)
    requires n > 0 && |page| <= n
    requires listing == all + page && PagesNeeded(size, n) == pages + PagesNeeded(|page|, n)
    ensures listing == (all + page) + [] && PagesNeeded(size, n) == pages + 1
  {
  }

  /** The last row of a page that is not the last page. */
  function EndOf(p: Page): Position {
    if p.hasMore && p.rows != [] then Some(p.rows[|p.rows| - 1]) else None
  }

  lemma {:induction false} RoundStaysOnTrack(
      table: set<Row>, q: Query, n: nat, pos: Position, all: seq<Row>, pages: nat, p: Page)
    requires n > 0 && OnTrackFor(table, q, n, pos, all, pages, true)
    requires p == PageAt(Matching(table, q), pos, q.Order(), n)
    ensures OnTrackFor(table, q, n, EndOf(p), all + p.rows, pages + 1, p.hasMore)
    ensures p.hasMore ==> Left(table, q, EndOf(p)) < Left(table, q, pos)
  {
    Advance(Matching(table, q), q.Order(), n, pos, all, pages, p);
  }

  /** How many pages of n rows hold m rows; an empty table still takes one. */
  function PagesNeeded(m: nat, n: nat): nat
    requires n > 0
  {
    if m <= n then 1 else 1 + PagesNeeded(m - n, n)
  }

  /** PagesNeeded(m, n) is max(1, ceil(m / n)). */
  lemma {:induction false} PagesNeededIsCeiling(m: nat, n: nat)
    requires n > 0
    ensures PagesNeeded(m, n) > 0
    ensures if m == 0 then PagesNeeded(m, n) == 1
            else (PagesNeeded(m, n) - 1) * n < m <= PagesNeeded(m, n) * n
  {
    if m > n {
      PagesNeededIsCeiling(m - n, n);
      var p := PagesNeeded(m - n, n);
      assert (p + 1) * n == p * n + n && p * n == (p - 1) * n + n;
    }
  }

  // ----- Traversals of a changing table -----

  /**
   * Pages of tasks or of executions fetched one after another, each from the table as it then is, by
   * the previous page's cursor.
   */
  ghost predicate IsCursorTraversal(tables: seq<set<Row>>, pages: seq<Page>, q: Query, limit: nat) {
    && limit > 0
    && 0 < |pages| == |tables|
    && (forall i | 0 <= i < |pages| :: PageFetched(tables, pages, q, limit, i))
    && (forall i | 0 <= i < |pages| :: pages[i].hasMore <==> i < |pages| - 1)
  }

  ghost predicate PageFetched(tables: seq<set<Row>>, pages: seq<Page>, q: Query, limit: nat, i: nat)
    requires i < |pages| == |tables|
  {
    && UniqueIds(tables[i])
    && (|| (q.CursorSortable() && pages[i] == CursorPage(tables[i], q, limit, CursorAt(Start(pages, i))))
        || (q.field.ByCreatedAt? && pages[i] == CursorPage(tables[i], q, limit, ExecutionCursorAt(Start(pages, i)))))
  }

  predicate SameOrderColumns(columns: seq<Column>, a: Row, b: Row) {
    forall c <- columns :: KeyOf(a, c) == KeyOf(b, c)
  }

  /** x's row is in every fetched table, matches there, and keeps its order columns. */
  ghost predicate StaysInTables(tables: seq<set<Row>>, q: Query, x: Row) {
    forall i | 0 <= i < |tables| :: exists r :: StaysAs(tables[i], q, r, x)
  }

  ghost predicate StaysAs(table: set<Row>, q: Query, r: Row, x: Row) {
    r in table && r.id == x.id && Matches(q.owner, q.status, r) && SameOrderColumns(OrderColumns(q.field), r, x)
  }

  lemma {:induction false} SameColumnsOrderAlike(columns: seq<Column>, asc: bool, a: Row, b: Row, y: Row)
    requires SameOrderColumns(columns, a, b)
    ensures OrderedBefore(columns, asc, a, y) <==> OrderedBefore(columns, asc, b, y)
    ensures OrderedBefore(columns, asc, y, a) <==> OrderedBefore(columns, asc, y, b)
  {
    if columns != [] {
      assert columns[0] in columns;
      SameColumnsOrderAlike(columns[1..], asc, a, b, y);
    }
  }

  lemma SameColumnsTied(q: Query, r: Row, x: Row)
    requires SameOrderColumns(OrderColumns(q.field), r, x)
    ensures Tied(q.Order(), r, x)
  {
    forall y: Row
      ensures (q.Order()(r, y) <==> q.Order()(x, y)) && (q.Order()(y, r) <==> q.Order()(y, x))
    {
      SameColumnsOrderAlike(OrderColumns(q.field), q.asc, r, x, y);
    }
  }

  /**
   * Main result for a changing table: whatever is inserted, deleted or edited between the fetches, a row
   * that matches throughout and keeps its sort columns is returned exactly once by a finished traversal.
   */
  lemma StayingRowIsReturnedOnceByCursors(tables: seq<set<Row>>, pages: seq<Page>, q: Query, limit: nat, x: Row)
    requires IsCursorTraversal(tables, pages, q, limit) && StaysInTables(tables, q, x)
    ensures exists i, j :: ReturnedAt(pages, x, i, j)
    ensures forall i, j, k, l :: ReturnedAt(pages, x, i, j) && ReturnedAt(pages, x, k, l) ==> i == k && j == l
  {
    var matching := seq(|tables|, i requires 0 <= i < |tables| => Matching(tables[i], q));
    forall i | 0 <= i < |pages|
      ensures FetchedAt(matching, pages, q.Order(), limit, i)
    {
      assert PageFetched(tables, pages, q, limit, i);
      CursorPageIsPageAt(tables[i], q, limit, Start(pages, i));
      if q.field.ByCreatedAt? {
        ExecutionPageIsPageAt(tables[i], q, limit, Start(pages, i));
      }
    }
    forall i | 0 <= i < |matching|
      ensures UniqueIds(matching[i]) && exists r :: SameSpot(matching[i], q.Order(), r, x)
    {
      assert PageFetched(tables, pages, q, limit, i);
      var r :| StaysAs(tables[i], q, r, x);
      SameColumnsTied(q, r, x);
      assert SameSpot(matching[i], q.Order(), r, x);
    }
    RowOrderSorts(q.field, q.asc, {});
    StayingRowIsReturnedOnce(matching, pages, q.Order(), limit, x);
  }

  /** The ascending listing of a table is the descending one reversed. */
  lemma AscendingIsDescendingReversed(table: set<Row>, q: Query)
    requires UniqueIds(table)
    ensures Sorts(q.Order(), Matching(table, q)) && Sorts(RowOrder(q.field, !q.asc), Matching(table, q))
    ensures Listing(Matching(table, q), RowOrder(q.field, !q.asc)) == Reversed(Listing(Matching(table, q), q.Order()))
  {
    RowOrderSorts(q.field, q.asc, Matching(table, q));
    RowOrderSorts(q.field, !q.asc, Matching(table, q));
    DescendingIsConverse(q.field, q.asc);
    ConverseListingIsReversed(Matching(table, q), q.Order(), RowOrder(q.field, !q.asc));
  }
}
