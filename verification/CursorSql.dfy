/**
 * internal/database/cursor.go: the WHERE clauses of cursor pagination as conditions over numbered
 * placeholders together with their argument list, and the ORDER BY clauses they belong to.
 */
module CursorSql {
  import opened Models
  import opened Keyset

  datatype Column = Id | Owner | Status | Priority | CreatedAt | UpdatedAt | Name

  function KeyOf(r: Row, c: Column): int {
    match c
    case Id => r.id
    case Owner => r.owner
    case Status => r.status
    case Priority => r.priority
    case CreatedAt => r.createdAt
    case UpdatedAt => r.updatedAt
    case Name => r.name
  }

  datatype SqlType = UuidType | Timestamp | Integer | Text

  function TypeOf(c: Column): SqlType {
    match c
    case Id => UuidType
    case Owner => UuidType
    case Status => Text
    case Priority => Integer
    case CreatedAt => Timestamp
    case UpdatedAt => Timestamp
    case Name => Text
  }

  /** A query argument with its SQL type. */
  datatype Value = Value(sqlType: SqlType, key: int)

  datatype Op = Less | Greater | Equal

  predicate Compare(x: int, op: Op, y: int) {
    match op
    case Less => x < y
    case Greater => x > y
    case Equal => x == y
  }

  /** `column op $placeholder`, joined by AND and OR. */
  datatype Cond =
    | Test(column: Column, op: Op, placeholder: nat)
    | And(left: Cond, right: Cond)
    | Or(left: Cond, right: Cond)

  datatype Clause = Clause(where: Option<Cond>, args: seq<Value>)

  // ----- Sort fields and ORDER BY -----

  datatype SortField = ByCreatedAt | ByUpdatedAt | ByPriority | ByName

  /** The columns of buildOrderByClause; all share one direction. */
  function OrderColumns(field: SortField): seq<Column> {
    match field
    case ByPriority => [Priority, CreatedAt, Id]
    case ByCreatedAt => [CreatedAt, Id]
    case ByUpdatedAt => [UpdatedAt, Id]
    case ByName => [Name, CreatedAt, Id]
  }

  /** ORDER BY the columns: the first one that differs decides. */
  predicate OrderedBefore(columns: seq<Column>, asc: bool, a: Row, b: Row) {
    if columns == [] then false
    else
      var x, y := KeyOf(a, columns[0]), KeyOf(b, columns[0]);
      if x == y then OrderedBefore(columns[1..], asc, a, b)
      else if asc then x < y else x > y
  }

  /** The order of a listing, as a relation. */
  function RowOrder(field: SortField, asc: bool): Before {
    (a: Row, b: Row) => OrderedBefore(OrderColumns(field), asc, a, b)
  }

  lemma {:induction false} OrderedIrreflexive(columns: seq<Column>, asc: bool, a: Row)
    ensures !OrderedBefore(columns, asc, a, a)
  {
    if columns != [] {
      OrderedIrreflexive(columns[1..], asc, a);
    }
  }

  lemma {:induction false} OrderedTransitive(columns: seq<Column>, asc: bool, a: Row, b: Row, c: Row)
    requires OrderedBefore(columns, asc, a, b) && OrderedBefore(columns, asc, b, c)
    ensures OrderedBefore(columns, asc, a, c)
  {
    if KeyOf(a, columns[0]) == KeyOf(b, columns[0]) == KeyOf(c, columns[0]) {
      OrderedTransitive(columns[1..], asc, a, b, c);
    }
  }

  lemma {:induction false} OrderedTotal(columns: seq<Column>, asc: bool, a: Row, b: Row)
    requires Column.Id in columns && a.id != b.id
    ensures OrderedBefore(columns, asc, a, b) || OrderedBefore(columns, asc, b, a)
  {
    if KeyOf(a, columns[0]) == KeyOf(b, columns[0]) {
      OrderedTotal(columns[1..], asc, a, b);
    }
  }

  lemma {:induction false} OrderedReversed(columns: seq<Column>, asc: bool, a: Row, b: Row)
    ensures OrderedBefore(columns, asc, a, b) <==> OrderedBefore(columns, !asc, b, a)
  {
    if columns != [] {
      OrderedReversed(columns[1..], asc, a, b);
    }
  }

  /** Every ORDER BY clause is a strict total order on rows with distinct ids. */
  lemma RowOrderSorts(field: SortField, asc: bool, rows: set<Row>)
    requires UniqueIds(rows)
    ensures Sorts(RowOrder(field, asc), rows)
  {
    var before := RowOrder(field, asc);
    var columns := OrderColumns(field);
    forall a
      ensures !before(a, a)
    {
      OrderedIrreflexive(columns, asc, a);
    }
    forall a, b, c | before(a, b) && before(b, c)
      ensures before(a, c)
    {
      OrderedTransitive(columns, asc, a, b, c);
    }
    assert Column.Id in columns;
    forall a <- rows, b <- rows
      ensures a == b || before(a, b) || before(b, a)
    {
      if a.id != b.id {
        OrderedTotal(columns, asc, a, b);
      }
    }
  }

  /** Descending is the converse of ascending. */
  lemma DescendingIsConverse(field: SortField, asc: bool)
    ensures Converse(RowOrder(field, asc), RowOrder(field, !asc))
  {
    forall a: Row, b: Row
      ensures RowOrder(field, asc)(a, b) <==> RowOrder(field, !asc)(b, a)
    {
      OrderedReversed(OrderColumns(field), asc, a, b);
    }
  }

  // ----- Cursors -----

  datatype TaskCursor = TaskCursor(createdAt: int, id: Uuid, priority: Option<int>)

  datatype ExecutionCursor = ExecutionCursor(createdAt: int, id: Uuid)
  {
    function AsTaskCursor(): TaskCursor {
      TaskCursor(createdAt, id, None)
    }
  }

  /** CreateTaskCursor of a row; the repositories always pass the row's priority. */
  function CreateTaskCursor(r: Row): TaskCursor {
    TaskCursor(r.createdAt, r.id, Some(r.priority))
  }

  function CreateExecutionCursor(r: Row): ExecutionCursor {
    ExecutionCursor(r.createdAt, r.id)
  }

  // ----- Two ways to bind the arguments -----

  /** How many placeholders the text of the condition mentions. */
  function Occurrences(c: Cond): (n: nat)
    ensures n > 0
  {
    match c
    case Test(_, _, _) => 1
    case And(l, r) => Occurrences(l) + Occurrences(r)
    case Or(l, r) => Occurrences(l) + Occurrences(r)
  }

  /** One argument for each textual occurrence, from left to right: the binding the builders append for. */
  predicate HoldsInOrder(c: Cond, args: seq<Value>, r: Row)
    requires |args| == Occurrences(c)
  {
    match c
    case Test(column, op, _) => Compare(KeyOf(r, column), op, args[0].key)
    case And(l, k) =>
      HoldsInOrder(l, args[..Occurrences(l)], r) && HoldsInOrder(k, args[Occurrences(l)..], r)
    case Or(l, k) =>
      HoldsInOrder(l, args[..Occurrences(l)], r) || HoldsInOrder(k, args[Occurrences(l)..], r)
  }

  predicate TypedInOrder(c: Cond, args: seq<Value>)
    requires |args| == Occurrences(c)
  {
    match c
    case Test(column, _, _) => args[0].sqlType == TypeOf(column)
    case And(l, k) => TypedInOrder(l, args[..Occurrences(l)]) && TypedInOrder(k, args[Occurrences(l)..])
    case Or(l, k) => TypedInOrder(l, args[..Occurrences(l)]) && TypedInOrder(k, args[Occurrences(l)..])
  }

  /** Placeholder $n is argument n, as PostgreSQL binds them. */
  predicate TypedByNumber(c: Cond, args: seq<Value>) {
    match c
    case Test(column, _, n) => 1 <= n <= |args| && args[n - 1].sqlType == TypeOf(column)
    case And(l, k) => TypedByNumber(l, args) && TypedByNumber(k, args)
    case Or(l, k) => TypedByNumber(l, args) && TypedByNumber(k, args)
  }

  predicate HoldsByNumber(c: Cond, args: seq<Value>, r: Row)
    requires TypedByNumber(c, args)
  {
    match c
    case Test(column, op, n) => Compare(KeyOf(r, column), op, args[n - 1].key)
    case And(l, k) => HoldsByNumber(l, args, r) && HoldsByNumber(k, args, r)
    case Or(l, k) => HoldsByNumber(l, args, r) || HoldsByNumber(k, args, r)
  }

  /** Joining two conditions joins their argument lists. */
  lemma {:induction false} PairInOrder(l: Cond, ls: seq<Value>, k: Cond, ks: seq<Value>, r: Row)
    requires |ls| == Occurrences(l) && |ks| == Occurrences(k)
    ensures |ls + ks| == Occurrences(And(l, k)) == Occurrences(Or(l, k))
    ensures HoldsInOrder(And(l, k), ls + ks, r) <==> HoldsInOrder(l, ls, r) && HoldsInOrder(k, ks, r)
    ensures HoldsInOrder(Or(l, k), ls + ks, r) <==> HoldsInOrder(l, ls, r) || HoldsInOrder(k, ks, r)
    ensures TypedInOrder(And(l, k), ls + ks) <==> TypedInOrder(l, ls) && TypedInOrder(k, ks)
    ensures TypedInOrder(Or(l, k), ls + ks) <==> TypedInOrder(l, ls) && TypedInOrder(k, ks)
  {
    assert (ls + ks)[..|ls|] == ls && (ls + ks)[|ls|..] == ks;
  }

  // ----- The builders -----

  /** (column op $n OR (column = $n AND id op $n+1)) */
  function TimeCondition(column: Column, op: Op, n: nat): (c: Cond)
    ensures Occurrences(c) == 3
  {
    var tie := And(Test(column, Equal, n), Test(Id, op, n + 1));
    assert Occurrences(tie) == 2;
    Or(Test(column, op, n), tie)
  }

  function TimeArgs(createdAt: int, id: Uuid): seq<Value> {
    [Value(Timestamp, createdAt), Value(Timestamp, createdAt), Value(UuidType, id)]
  }

  /** The condition of a priority cursor: priority, then created_at, then id. */
  function PriorityCondition(op: Op, n: nat): (c: Cond)
    ensures Occurrences(c) == 6
  {
    var tie := And(Test(Priority, Equal, n), Test(CreatedAt, op, n + 1));
    var doubleTie := And(Test(Priority, Equal, n), Test(CreatedAt, Equal, n + 1));
    assert Occurrences(tie) == 2 && Occurrences(doubleTie) == 2;
    assert Occurrences(Or(Test(Priority, op, n), tie)) == 3;
    assert Occurrences(And(doubleTie, Test(Id, op, n + 2))) == 3;
    Or(Or(Test(Priority, op, n), tie), And(doubleTie, Test(Id, op, n + 2)))
  }

  function PriorityArgs(priority: int, createdAt: int, id: Uuid): seq<Value> {
    var p, t := Value(Integer, priority), Value(Timestamp, createdAt);
    [p, p, t, p, t, Value(UuidType, id)]
  }

  function OpOf(asc: bool): Op {
    if asc then Greater else Less
  }

  /** buildCursorCondition: the condition, numbered from n, and one argument for each occurrence. */
  function BuildCursorCondition(cursor: TaskCursor, asc: bool, field: SortField, n: nat): (r: (Cond, seq<Value>))
    ensures |r.1| == Occurrences(r.0)
  {
    match field
    case ByPriority =>
      if cursor.priority.None? then (TimeCondition(CreatedAt, OpOf(asc), n), TimeArgs(cursor.createdAt, cursor.id))
      else (PriorityCondition(OpOf(asc), n), PriorityArgs(cursor.priority.value, cursor.createdAt, cursor.id))
    case ByCreatedAt => (TimeCondition(CreatedAt, OpOf(asc), n), TimeArgs(cursor.createdAt, cursor.id))
    case ByUpdatedAt => (TimeCondition(UpdatedAt, OpOf(asc), n), TimeArgs(cursor.createdAt, cursor.id))
    case ByName => (TimeCondition(CreatedAt, OpOf(asc), n), TimeArgs(cursor.createdAt, cursor.id))
  }

  function Conjunction(conditions: seq<Cond>): Option<Cond> {
    if conditions == [] then None else Some(Joined(conditions))
  }

  function Joined(conditions: seq<Cond>): Cond
    requires conditions != []
  {
    if |conditions| == 1 then conditions[0]
    else And(Joined(conditions[..|conditions| - 1]), conditions[|conditions| - 1])
  }

  /** The equality filters that come before the cursor condition. */
  function FilterConditions(owner: Option<Uuid>, status: Option<int>): seq<Cond> {
    (if owner.Some? then [Test(Owner, Equal, 1)] else [])
    + (if status.Some? then [Test(Status, Equal, if owner.Some? then 2 else 1)] else [])
  }

  function FilterArgs(owner: Option<Uuid>, status: Option<int>): seq<Value> {
    (if owner.Some? then [Value(UuidType, owner.value)] else [])
    + (if status.Some? then [Value(Text, status.value)] else [])
  }

  function TaskClause(cursor: Option<TaskCursor>, asc: bool, field: SortField, owner: Option<Uuid>, status: Option<int>)
    : Clause
  {
    var filters, args := FilterConditions(owner, status), FilterArgs(owner, status);
    if cursor.None? then Clause(Conjunction(filters), args)
    else
      var (condition, cursorArgs) := BuildCursorCondition(cursor.value, asc, field, |args| + 1);
      Clause(Conjunction(filters + [condition]), args + cursorArgs)
  }

  /** How both builders begin: one condition and one argument for each filter that is present. */
  method AppendFilters(owner: Option<Uuid>, status: Option<int>)
    returns (conditions: seq<Cond>, args: seq<Value>, argIndex: nat)
    ensures conditions == FilterConditions(owner, status) && args == FilterArgs(owner, status)
    ensures argIndex == |args| + 1
  {
    conditions, args := [], [];
    argIndex := 1;
    if owner.Some? {
      conditions := conditions + [Test(Owner, Equal, argIndex)];
      args := args + [Value(UuidType, owner.value)];
      argIndex := argIndex + 1;
    }
    if status.Some? {
      conditions := conditions + [Test(Status, Equal, argIndex)];
      args := args + [Value(Text, status.value)];
      argIndex := argIndex + 1;
    }
  }

  /** BuildTaskCursorWhere: conditions and arguments are appended, then joined in a loop. */
  method BuildTaskCursorWhere(
      cursor: Option<TaskCursor>, asc: bool, field: SortField, owner: Option<Uuid>, status: Option<int>)
    returns (clause: Clause)
    ensures clause == TaskClause(cursor, asc, field, owner, status)
  {
    var conditions, args, argIndex := AppendFilters(owner, status);
    if cursor.Some? {
      var (condition, cursorArgs) := BuildCursorCondition(cursor.value, asc, field, argIndex);
      conditions := conditions + [condition];
      args := args + cursorArgs;
    }
    var where := Join(conditions);
    clause := Clause(where, args);
  }

  /** The loop that writes WHERE c0 AND c1 AND ... */
  method Join(conditions: seq<Cond>) returns (where: Option<Cond>)
    ensures where == Conjunction(conditions)
  {
    if |conditions| == 0 {
      return None;
    }
    var joined := conditions[0];
    for i := 1 to |conditions|
      invariant joined == Joined(conditions[..i])
    {
      assert conditions[..i + 1][..i] == conditions[..i];
      joined := And(joined, conditions[i]);
    }
    assert conditions[..|conditions|] == conditions;
    where := Some(joined);
  }

  /** BuildExecutionCursorWhere writes out both directions itself. */
  method BuildExecutionCursorWhere(
      cursor: Option<ExecutionCursor>, asc: bool, taskId: Option<Uuid>, status: Option<int>)
    returns (clause: Clause)
    ensures clause == ExecutionClause(cursor, asc, taskId, status)
  {
    var conditions, args, argIndex := AppendFilters(taskId, status);
    if cursor.Some? {
      if asc {
        conditions := conditions + [Or(Test(CreatedAt, Greater, argIndex),
                                       And(Test(CreatedAt, Equal, argIndex), Test(Id, Greater, argIndex + 1)))];
      } else {
        conditions := conditions + [Or(Test(CreatedAt, Less, argIndex),
                                       And(Test(CreatedAt, Equal, argIndex), Test(Id, Less, argIndex + 1)))];
      }
      args := args + [Value(Timestamp, cursor.value.createdAt), Value(Timestamp, cursor.value.createdAt),
                      Value(UuidType, cursor.value.id)];
    }
    var where := Join(conditions);
    clause := Clause(where, args);
  }

  /** An execution clause is the task clause by creation time. */
  function ExecutionClause(cursor: Option<ExecutionCursor>, asc: bool, taskId: Option<Uuid>, status: Option<int>)
    : Clause
  {
    var taskCursor := if cursor.Some? then Some(cursor.value.AsTaskCursor()) else None;
    TaskClause(taskCursor, asc, ByCreatedAt, taskId, status)
  }

  // ----- What the clauses select -----

  predicate Matches(owner: Option<Uuid>, status: Option<int>, r: Row) {
    && (owner.Some? ==> r.owner == owner.value)
    && (status.Some? ==> r.status == status.value)
  }

  /** The cursor condition alone, bound in order. */
  predicate AfterCursor(cursor: TaskCursor, asc: bool, field: SortField, r: Row) {
    var (condition, args) := BuildCursorCondition(cursor, asc, field, 1);
    HoldsInOrder(condition, args, r)
  }

  /** Appending one condition with its arguments to a joined clause. */
  lemma {:induction false} JoinedAppend(
      conditions: seq<Cond>, args: seq<Value>, last: Cond, lastArgs: seq<Value>, r: Row)
    requires conditions != [] && |args| == Occurrences(Joined(conditions)) && |lastArgs| == Occurrences(last)
    ensures Joined(conditions + [last]) == And(Joined(conditions), last)
    ensures |args + lastArgs| == Occurrences(Joined(conditions + [last]))
    ensures HoldsInOrder(Joined(conditions + [last]), args + lastArgs, r)
       <==> HoldsInOrder(Joined(conditions), args, r) && HoldsInOrder(last, lastArgs, r)
    ensures TypedInOrder(Joined(conditions + [last]), args + lastArgs)
       <==> TypedInOrder(Joined(conditions), args) && TypedInOrder(last, lastArgs)
  {
  }

  lemma {:induction false} FiltersInOrder(owner: Option<Uuid>, status: Option<int>, r: Row)
    requires FilterConditions(owner, status) != []
    ensures
      var c := Joined(FilterConditions(owner, status));
      && |FilterArgs(owner, status)| == Occurrences(c)
      && TypedInOrder(c, FilterArgs(owner, status))
      && TypedByNumber(c, FilterArgs(owner, status))
      && (HoldsInOrder(c, FilterArgs(owner, status), r) <==> Matches(owner, status, r))
      && (HoldsByNumber(c, FilterArgs(owner, status), r) <==> Matches(owner, status, r))
  {
  }

  lemma {:induction false} TimeConditionInOrder(column: Column, op: Op, n: nat, t: int, id: Uuid, r: Row)
    requires TypeOf(column) == Timestamp
    ensures TypedInOrder(TimeCondition(column, op, n), TimeArgs(t, id))
    ensures HoldsInOrder(TimeCondition(column, op, n), TimeArgs(t, id), r)
       <==> Compare(KeyOf(r, column), op, t) || (KeyOf(r, column) == t && Compare(r.id, op, id))
  {
    var a := TimeArgs(t, id);
    var first, second, third := Test(column, op, n), Test(column, Equal, n), Test(Id, op, n + 1);
    PairInOrder(second, [a[1]], third, [a[2]], r);
    PairInOrder(first, [a[0]], And(second, third), [a[1]] + [a[2]], r);
    assert a == [a[0]] + ([a[1]] + [a[2]]);
  }

  lemma {:induction false} PriorityConditionInOrder(op: Op, n: nat, p: int, t: int, id: Uuid, r: Row)
    ensures TypedInOrder(PriorityCondition(op, n), PriorityArgs(p, t, id))
    ensures HoldsInOrder(PriorityCondition(op, n), PriorityArgs(p, t, id), r)
       <==> || Compare(r.priority, op, p)
            || (r.priority == p && Compare(r.createdAt, op, t))
            || (r.priority == p && r.createdAt == t && Compare(r.id, op, id))
  {
    var a := PriorityArgs(p, t, id);
    var c0, c1, c2 := Test(Priority, op, n), Test(Priority, Equal, n), Test(CreatedAt, op, n + 1);
    var c3, c4, c5 := Test(Priority, Equal, n), Test(CreatedAt, Equal, n + 1), Test(Id, op, n + 2);
    PairInOrder(c1, [a[1]], c2, [a[2]], r);
    PairInOrder(c0, [a[0]], And(c1, c2), [a[1]] + [a[2]], r);
    PairInOrder(c3, [a[3]], c4, [a[4]], r);
    PairInOrder(And(c3, c4), [a[3]] + [a[4]], c5, [a[5]], r);
    var left, right := [a[0]] + ([a[1]] + [a[2]]), ([a[3]] + [a[4]]) + [a[5]];
    PairInOrder(Or(c0, And(c1, c2)), left, And(And(c3, c4), c5), right, r);
    assert a == left + right;
  }

  /** What the cursor condition says of a row, whatever number its placeholders start at. */
  lemma {:induction false} CursorConditionMeans(cursor: TaskCursor, asc: bool, field: SortField, n: nat, r: Row)
    ensures
      var (c, args) := BuildCursorCondition(cursor, asc, field, n);
      var op := OpOf(asc);
      && TypedInOrder(c, args)
      && (HoldsInOrder(c, args, r) <==>
            match field
            case ByPriority =>
              if cursor.priority.None? then
                Compare(r.createdAt, op, cursor.createdAt)
                || (r.createdAt == cursor.createdAt && Compare(r.id, op, cursor.id))
              else
                || Compare(r.priority, op, cursor.priority.value)
                || (r.priority == cursor.priority.value && Compare(r.createdAt, op, cursor.createdAt))
                || (r.priority == cursor.priority.value && r.createdAt == cursor.createdAt
                    && Compare(r.id, op, cursor.id))
            case ByUpdatedAt =>
              Compare(r.updatedAt, op, cursor.createdAt)
              || (r.updatedAt == cursor.createdAt && Compare(r.id, op, cursor.id))
            case _ =>
              Compare(r.createdAt, op, cursor.createdAt)
              || (r.createdAt == cursor.createdAt && Compare(r.id, op, cursor.id)))
  {
    match field
    case ByPriority =>
      if cursor.priority.Some? {
        PriorityConditionInOrder(OpOf(asc), n, cursor.priority.value, cursor.createdAt, cursor.id, r);
      } else {
        TimeConditionInOrder(CreatedAt, OpOf(asc), n, cursor.createdAt, cursor.id, r);
      }
    case ByUpdatedAt => TimeConditionInOrder(UpdatedAt, OpOf(asc), n, cursor.createdAt, cursor.id, r);
    case ByCreatedAt => TimeConditionInOrder(CreatedAt, OpOf(asc), n, cursor.createdAt, cursor.id, r);
    case ByName => TimeConditionInOrder(CreatedAt, OpOf(asc), n, cursor.createdAt, cursor.id, r);
  }

  lemma {:induction false} CursorConditionAt(cursor: TaskCursor, asc: bool, field: SortField, n: nat, r: Row)
    ensures
      var (c, args) := BuildCursorCondition(cursor, asc, field, n);
      TypedInOrder(c, args) && (HoldsInOrder(c, args, r) <==> AfterCursor(cursor, asc, field, r))
  {
    CursorConditionMeans(cursor, asc, field, n, r);
    CursorConditionMeans(cursor, asc, field, 1, r);
  }

  /** Any condition with its arguments, joined behind the filters with theirs. */
  lemma {:induction false} ConditionBehindFilters(
      owner: Option<Uuid>, status: Option<int>, condition: Cond, own: seq<Value>, r: Row)
    requires |own| == Occurrences(condition) && TypedInOrder(condition, own)
    ensures
      var c, args := Joined(FilterConditions(owner, status) + [condition]), FilterArgs(owner, status) + own;
      && |args| == Occurrences(c)
      && TypedInOrder(c, args)
      && (HoldsInOrder(c, args, r) <==> Matches(owner, status, r) && HoldsInOrder(condition, own, r))
  {
    var filters, args := FilterConditions(owner, status), FilterArgs(owner, status);
    if filters == [] {
      assert filters + [condition] == [condition] && args + own == own;
    } else {
      FiltersInOrder(owner, status, r);
      JoinedAppend(filters, args, condition, own, r);
    }
  }

  lemma {:induction false} CursorClauseInOrder(
      cursor: TaskCursor, asc: bool, field: SortField, owner: Option<Uuid>, status: Option<int>, r: Row)
    ensures
      var filters, args := FilterConditions(owner, status), FilterArgs(owner, status);
      var (condition, cursorArgs) := BuildCursorCondition(cursor, asc, field, |args| + 1);
      var c := Joined(filters + [condition]);
      && |args + cursorArgs| == Occurrences(c)
      && TypedInOrder(c, args + cursorArgs)
      && (HoldsInOrder(c, args + cursorArgs, r) <==> Matches(owner, status, r) && AfterCursor(cursor, asc, field, r))
  {
    var n := |FilterArgs(owner, status)| + 1;
    CursorConditionAt(cursor, asc, field, n, r);
    var (condition, cursorArgs) := BuildCursorCondition(cursor, asc, field, n);
    ConditionBehindFilters(owner, status, condition, cursorArgs, r);
  }

  /**
   * Bound in order, every clause is well typed and selects exactly the filtered rows that satisfy the
   * cursor condition.
   */
  lemma ClauseInOrder(
      cursor: Option<TaskCursor>, asc: bool, field: SortField, owner: Option<Uuid>, status: Option<int>, r: Row)
    ensures
      var clause := TaskClause(cursor, asc, field, owner, status);
      var selected := Matches(owner, status, r) && (cursor.Some? ==> AfterCursor(cursor.value, asc, field, r));
      match clause.where
      case None => clause.args == [] && selected
      case Some(c) =>
        && |clause.args| == Occurrences(c)
        && TypedInOrder(c, clause.args)
        && (HoldsInOrder(c, clause.args, r) <==> selected)
  {
    if FilterConditions(owner, status) != [] {
      FiltersInOrder(owner, status, r);
    }
    if cursor.Some? {
      CursorClauseInOrder(cursor.value, asc, field, owner, status, r);
    }
  }

  /** The second number of a cursor condition names the second argument, which has the first one's type. */
  lemma CursorConditionMisbound(cursor: TaskCursor, asc: bool, field: SortField, n: nat, all: seq<Value>)
    requires 1 <= n && n + 2 <= |all|
    requires all[n] == BuildCursorCondition(cursor, asc, field, n).1[1]
    ensures !TypedByNumber(BuildCursorCondition(cursor, asc, field, n).0, all)
  {
    var op := OpOf(asc);
    if field.ByPriority? && cursor.priority.Some? {
      var tie := And(Test(Priority, Equal, n), Test(CreatedAt, op, n + 1));
      assert !TypedByNumber(Test(CreatedAt, op, n + 1), all);
      assert !TypedByNumber(tie, all);
      assert !TypedByNumber(Or(Test(Priority, op, n), tie), all);
    } else {
      var column := if field.ByUpdatedAt? then UpdatedAt else CreatedAt;
      assert !TypedByNumber(Test(Id, op, n + 1), all);
      assert !TypedByNumber(And(Test(column, Equal, n), Test(Id, op, n + 1)), all);
    }
  }

  /**
   * As written, the text reuses $n while one argument is appended per occurrence. PostgreSQL binds by
   * number, so the clause is well typed if and only if there is no cursor: every cursor condition
   * compares its id (and, by priority, its created_at) with an argument of another type.
   */
  lemma ClauseByNumberIff(
      cursor: Option<TaskCursor>, asc: bool, field: SortField, owner: Option<Uuid>, status: Option<int>)
    ensures
      var clause := TaskClause(cursor, asc, field, owner, status);
      (clause.where.Some? ==> TypedByNumber(clause.where.value, clause.args)) <==> cursor.None?
  {
    var filters, args := FilterConditions(owner, status), FilterArgs(owner, status);
    if filters != [] {
      FiltersInOrder(owner, status, Row(0, 0, 0, 0, 0, 0, 0));
    }
    if cursor.Some? {
      var (condition, cursorArgs) := BuildCursorCondition(cursor.value, asc, field, |args| + 1);
      var all := args + cursorArgs;
      var n := |args| + 1;
      assert all[n] == cursorArgs[1] && all[n + 1] == cursorArgs[2];
      CursorConditionMisbound(cursor.value, asc, field, n, all);
      if filters != [] {
        assert (filters + [condition])[..|filters|] == filters;
        assert Joined(filters + [condition]) == And(Joined(filters), condition);
      } else {
        assert filters + [condition] == [condition];
      }
    }
  }

  // ----- The cursor condition and the order -----

  /** The cursor of any row selects exactly the rows that ORDER BY puts after that row. */
  ghost predicate CursorFollowsOrder(field: SortField, asc: bool) {
    forall a: Row, r: Row :: AfterCursor(CreateTaskCursor(a), asc, field, r) <==> RowOrder(field, asc)(a, r)
  }

  /** The ORDER BY of each field, written out. */
  lemma OrderMeans(field: SortField, asc: bool, a: Row, r: Row)
    ensures
      var op := OpOf(asc);
      var byId := Compare(r.id, op, a.id);
      var byTime := Compare(r.createdAt, op, a.createdAt) || (r.createdAt == a.createdAt && byId);
      RowOrder(field, asc)(a, r) <==>
        match field
        case ByPriority => Compare(r.priority, op, a.priority) || (r.priority == a.priority && byTime)
        case ByCreatedAt => byTime
        case ByUpdatedAt => Compare(r.updatedAt, op, a.updatedAt) || (r.updatedAt == a.updatedAt && byId)
        case ByName => Compare(r.name, op, a.name) || (r.name == a.name && byTime)
  {
    var columns := OrderColumns(field);
    assert [Id][1..] == [];
    assert OrderedBefore([Id], asc, a, r) <==> Compare(r.id, OpOf(asc), a.id);
    assert [CreatedAt, Id][1..] == [Id];
    assert OrderedBefore([CreatedAt, Id], asc, a, r)
        <==> || Compare(r.createdAt, OpOf(asc), a.createdAt)
             || (r.createdAt == a.createdAt && Compare(r.id, OpOf(asc), a.id));
    assert field.ByPriority? || field.ByName? ==> columns[1..] == [CreatedAt, Id];
    assert field.ByCreatedAt? || field.ByUpdatedAt? ==> columns[1..] == [Id];
  }

  /**
   * By created_at and priority the cursor conditions match their ORDER BY clauses, for all rows. The other sort
   * fields are the subject of SortFieldTraversals.
   */
  lemma CursorFollowsSortedOrder(field: SortField, asc: bool)
    requires field.ByCreatedAt? || field.ByPriority?
    ensures CursorFollowsOrder(field, asc)
  {
    forall a: Row, r: Row
      ensures AfterCursor(CreateTaskCursor(a), asc, field, r) <==> RowOrder(field, asc)(a, r)
    {
      CursorConditionMeans(CreateTaskCursor(a), asc, field, 1, r);
      OrderMeans(field, asc, a, r);
    }
  }

  /** By creation time the priority in a cursor makes no difference. */
  lemma PriorityIrrelevantByCreatedAt(cursor: TaskCursor, asc: bool, r: Row)
    ensures AfterCursor(cursor, asc, ByCreatedAt, r) <==> AfterCursor(cursor.(priority := None), asc, ByCreatedAt, r)
  {
    CursorConditionMeans(cursor, asc, ByCreatedAt, 1, r);
    CursorConditionMeans(cursor.(priority := None), asc, ByCreatedAt, 1, r);
  }
}
