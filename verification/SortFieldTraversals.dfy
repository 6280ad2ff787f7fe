/**
 * What following cursors does for each sort field on an unchanging table of rows as the code stores them,
 * with one argument for each mention of a placeholder: which fields lose rows, and which repeat them.
 */
module SortFieldTraversals {
  import opened Models
  import opened Keyset
  import opened CursorSql
  import opened Pagination

  /** Both times are set by the insert, later writes only raise updated_at, and cursors of the row decode. */
  predicate Stored(r: Row) {
    CursorSafe(r) && r.createdAt <= r.updatedAt
  }

  ghost predicate StoredTable(table: set<Row>) {
    UniqueIds(table) && forall r <- table :: Stored(r)
  }

  // ----- The cursor condition against the order -----

  predicate SelectsWhatFollows(field: SortField, asc: bool, a: Row, r: Row) {
    RowOrder(field, asc)(a, r) ==> AfterCursor(CreateTaskCursor(a), asc, field, r)
  }

  predicate SelectsOnlyWhatFollows(field: SortField, asc: bool, a: Row, r: Row) {
    AfterCursor(CreateTaskCursor(a), asc, field, r) ==> RowOrder(field, asc)(a, r)
  }

  ghost predicate LosesNothing(field: SortField, asc: bool) {
    forall a, r | Stored(a) && Stored(r) :: SelectsWhatFollows(field, asc, a, r)
  }

  ghost predicate RepeatsNothing(field: SortField, asc: bool) {
    forall a, r | Stored(a) && Stored(r) :: SelectsOnlyWhatFollows(field, asc, a, r)
  }

  predicate Keeps(field: SortField, asc: bool) {
    field.ByCreatedAt? || field.ByPriority? || (field.ByUpdatedAt? && asc)
  }

  predicate Advances(field: SortField, asc: bool) {
    field.ByCreatedAt? || field.ByPriority? || (field.ByUpdatedAt? && !asc)
  }

  predicate Ordered(asc: bool, x: int, y: int) {
    if asc then x < y else x > y
  }

  /**
   * When the cursor of `seen` loses `lost`: by name, when the later name was created on the wrong side; descending
   * by updated_at, when the earlier update was not before the creation of `seen`.
   */
  predicate Loses(field: SortField, asc: bool, seen: Row, lost: Row) {
    match field
    case ByName => Ordered(asc, seen.name, lost.name) && Ordered(asc, lost.createdAt, seen.createdAt)
    case ByUpdatedAt => !asc && seen.createdAt < lost.updatedAt < seen.updatedAt
    case _ => false
  }

  lemma {:induction false} CursorLosesRow(field: SortField, asc: bool, seen: Row, lost: Row)
    requires Loses(field, asc, seen, lost) && Stored(seen)
    ensures RowOrder(field, asc)(seen, lost)
    ensures !AfterCursor(CreateTaskCursor(seen), asc, field, seen)
    ensures !AfterCursor(CreateTaskCursor(seen), asc, field, lost)
  {
    OrderMeans(field, asc, seen, lost);
    CursorConditionMeans(CreateTaskCursor(seen), asc, field, 1, lost);
    CursorConditionMeans(CreateTaskCursor(seen), asc, field, 1, seen);
  }

  function LostPair(field: SortField, asc: bool): (Row, Row) {
    if field.ByUpdatedAt? then (Row(1, 0, 0, 0, 1, 9, 0), Row(2, 0, 0, 0, 2, 5, 0))
    else if asc then (Row(1, 0, 0, 0, 9, 9, 4), Row(2, 0, 0, 0, 4, 9, 5))
    else (Row(1, 0, 0, 0, 4, 9, 5), Row(2, 0, 0, 0, 9, 9, 4))
  }

  /** A cursor selects everything that follows its row exactly by created_at, priority and ascending updated_at. */
  lemma {:induction false} LosesNothingIff(field: SortField, asc: bool)
    ensures LosesNothing(field, asc) <==> Keeps(field, asc)
  {
    if Keeps(field, asc) {
      forall a, r | Stored(a) && Stored(r)
        ensures SelectsWhatFollows(field, asc, a, r)
      {
        CursorConditionMeans(CreateTaskCursor(a), asc, field, 1, r);
        OrderMeans(field, asc, a, r);
      }
    } else {
      var (seen, lost) := LostPair(field, asc);
      CursorLosesRow(field, asc, seen, lost);
      assert !SelectsWhatFollows(field, asc, seen, lost);
    }
  }

  /**
   * When a cursor selects again what came before it. By name: the second of three rows was created on the wrong
   * side of both others. Ascending by updated_at: the first of two rows was updated after its creation.
   */
  predicate RepeatsByName(asc: bool, a: Row, b: Row, c: Row) {
    && Ordered(asc, a.name, b.name) && Ordered(asc, b.name, c.name)
    && Ordered(asc, b.createdAt, a.createdAt) && Ordered(asc, b.createdAt, c.createdAt)
  }

  predicate LoopsByUpdate(a: Row, b: Row) {
    a.updatedAt < b.updatedAt && a.createdAt < a.updatedAt
  }

  lemma {:induction false} NameCursor(asc: bool, a: Row, r: Row)
    requires Ordered(asc, a.name, r.name) || Ordered(asc, r.name, a.name)
    ensures RowOrder(ByName, asc)(a, r) <==> Ordered(asc, a.name, r.name)
    ensures a.createdAt != r.createdAt ==>
              (AfterCursor(CreateTaskCursor(a), asc, ByName, r) <==> Ordered(asc, a.createdAt, r.createdAt))
  {
    OrderMeans(ByName, asc, a, r);
    CursorConditionMeans(CreateTaskCursor(a), asc, ByName, 1, r);
  }

  lemma {:induction false} UpdateCursor(a: Row, r: Row)
    requires a.createdAt != r.updatedAt
    ensures a.updatedAt < r.updatedAt ==> RowOrder(ByUpdatedAt, true)(a, r)
    ensures AfterCursor(CreateTaskCursor(a), true, ByUpdatedAt, r) <==> a.createdAt < r.updatedAt
  {
    OrderMeans(ByUpdatedAt, true, a, r);
    CursorConditionMeans(CreateTaskCursor(a), true, ByUpdatedAt, 1, r);
  }

  /** Rows that repeat: by name, a and c around b; by updated_at, a and b. */
  function RepeatedRows(field: SortField, asc: bool): (Row, Row, Row) {
    if field.ByUpdatedAt? then (Row(1, 0, 0, 0, 1, 5, 0), Row(2, 0, 0, 0, 2, 6, 0), Row(3, 0, 0, 0, 3, 7, 0))
    else if asc then (Row(1, 0, 0, 0, 9, 9, 1), Row(2, 0, 0, 0, 4, 9, 2), Row(3, 0, 0, 0, 5, 9, 3))
    else (Row(1, 0, 0, 0, 4, 9, 3), Row(2, 0, 0, 0, 9, 9, 2), Row(3, 0, 0, 0, 5, 9, 1))
  }

  lemma {:induction false} NothingPrecedesItself(field: SortField, asc: bool, a: Row, b: Row)
    requires a == b || RowOrder(field, asc)(a, b)
    ensures !RowOrder(field, asc)(b, a)
  {
    RowOrderSorts(field, asc, {});
  }

  /** It selects nothing else exactly by created_at, priority and descending updated_at. */
  lemma {:induction false} RepeatsNothingIff(field: SortField, asc: bool)
    ensures RepeatsNothing(field, asc) <==> Advances(field, asc)
  {
    if Advances(field, asc) {
      forall a, r | Stored(a) && Stored(r)
        ensures SelectsOnlyWhatFollows(field, asc, a, r)
      {
        CursorConditionMeans(CreateTaskCursor(a), asc, field, 1, r);
        OrderMeans(field, asc, a, r);
      }
    } else {
      var (a, b, c) := RepeatedRows(field, asc);
      if field.ByUpdatedAt? {
        UpdateCursor(a, a);
        NothingPrecedesItself(field, asc, a, a);
        assert !SelectsOnlyWhatFollows(field, asc, a, a);
      } else {
        NameCursor(asc, a, b);
        NameCursor(asc, b, a);
        assert !SelectsOnlyWhatFollows(field, asc, b, a);
      }
    }
  }

  /** Both hold, so that the cursor condition is the order, exactly by created_at and priority. */
  lemma CursorFollowsOrderIff(field: SortField, asc: bool)
    ensures LosesNothing(field, asc) && RepeatsNothing(field, asc) <==> field.ByCreatedAt? || field.ByPriority?
  {
    LosesNothingIff(field, asc);
    RepeatsNothingIff(field, asc);
  }

  /** Ascending by updated_at a row is selected by its own cursor exactly when it was updated after its creation. */
  lemma {:induction false} SelectsItselfIff(field: SortField, asc: bool, a: Row)
    requires Stored(a)
    ensures AfterCursor(CreateTaskCursor(a), asc, field, a)
       <==> field.ByUpdatedAt? && asc && a.createdAt < a.updatedAt
  {
    CursorConditionMeans(CreateTaskCursor(a), asc, field, 1, a);
  }

  // ----- Traversals -----

  /** Pages fetched one after another; only the last may have nothing after it. */
  ghost predicate Traversal(table: set<Row>, q: Query, limit: nat, pages: seq<Page>) {
    && limit > 0 && |pages| > 0 && StoredTable(table)
    && (forall i | 0 <= i < |pages| :: IsPage(table, q, limit, pages, i))
    && (forall i | 0 <= i < |pages| - 1 :: pages[i].hasMore)
  }

  ghost predicate IsPage(table: set<Row>, q: Query, limit: nat, pages: seq<Page>, i: nat)
    requires i < |pages| && UniqueIds(table)
  {
    pages[i] == CursorPage(table, q, limit, CursorAt(Start(pages, i)))
  }

  ghost predicate Finished(pages: seq<Page>) {
    |pages| > 0 && !pages[|pages| - 1].hasMore
  }

  ghost predicate IsReturned(pages: seq<Page>, x: Row) {
    exists i, j :: ReturnedAt(pages, x, i, j)
  }

  ghost predicate ReturnsAll(table: set<Row>, q: Query, pages: seq<Page>) {
    forall x <- Matching(table, q) :: IsReturned(pages, x)
  }

  ghost predicate ReturnsOnce(pages: seq<Page>) {
    forall x, i, j, k, l :: ReturnedAt(pages, x, i, j) && ReturnedAt(pages, x, k, l) ==> i == k && j == l
  }

  /** A page is in order, its rows match and its cursor selects them; more rows only come behind a full page. */
  lemma {:induction false} PageFacts(table: set<Row>, q: Query, limit: nat, pages: seq<Page>, i: nat)
    requires Traversal(table, q, limit, pages) && i < |pages|
    ensures Sorts(q.Order(), Chosen(table, q, CursorAt(Start(pages, i))))
    ensures pages[i] == PageAt(Chosen(table, q, CursorAt(Start(pages, i))), None, q.Order(), limit)
    ensures Ascends(pages[i].rows, q.Order())
    ensures forall r <- pages[i].rows :: r in Chosen(table, q, CursorAt(Start(pages, i)))
    ensures pages[i].hasMore ==> |pages[i].rows| == limit
  {
    var chosen := Chosen(table, q, CursorAt(Start(pages, i)));
    assert IsPage(table, q, limit, pages, i);
    RowOrderSorts(q.field, q.asc, chosen);
    assert Remaining(chosen, None, q.Order()) == chosen;
    PageAscends(chosen, None, q.Order(), limit);
  }

  /** Where a page starts there is a row of the table. */
  lemma {:induction false} StartIsStored(table: set<Row>, q: Query, limit: nat, pages: seq<Page>, i: nat)
    requires Traversal(table, q, limit, pages) && 0 < i < |pages|
    ensures
      var last := pages[i - 1].rows;
      last != [] && Start(pages, i) == Some(last[|last| - 1]) && last[|last| - 1] in table
  {
    PageFacts(table, q, limit, pages, i - 1);
    var last := pages[i - 1].rows;
    assert last[|last| - 1] in last;
  }

  /** From page i on, a row that the cursor of page i selects is returned, if the cursors lose nothing. */
  lemma {:induction false} SelectedRowIsReturned(
      table: set<Row>, q: Query, limit: nat, pages: seq<Page>, x: Row, i: nat)
    requires Traversal(table, q, limit, pages) && Finished(pages) && LosesNothing(q.field, q.asc)
    requires i < |pages| && x in Chosen(table, q, CursorAt(Start(pages, i)))
    ensures IsReturned(pages, x)
    decreases |pages| - i
  {
    PageFacts(table, q, limit, pages, i);
    var chosen, rows := Chosen(table, q, CursorAt(Start(pages, i))), pages[i].rows;
    PageReturnsOrPasses(chosen, None, q.Order(), limit, x);
    if x in rows {
      var j :| 0 <= j < |rows| && rows[j] == x;
      assert ReturnedAt(pages, x, i, j);
    } else {
      StartIsStored(table, q, limit, pages, i + 1);
      assert SelectsWhatFollows(q.field, q.asc, rows[limit - 1], x);
      SelectedRowIsReturned(table, q, limit, pages, x, i + 1);
    }
  }

  /** Rows of later pages come after the rows of earlier ones, if the cursors repeat nothing. */
  lemma {:induction false} LaterPagesFollow(
      table: set<Row>, q: Query, limit: nat, pages: seq<Page>, i: nat, k: nat, a: Row, b: Row)
    requires Traversal(table, q, limit, pages) && RepeatsNothing(q.field, q.asc)
    requires i < k < |pages| && a in pages[i].rows && b in pages[k].rows
    ensures RowOrder(q.field, q.asc)(a, b)
    decreases k - i
  {
    PageFacts(table, q, limit, pages, k);
    PageFacts(table, q, limit, pages, k - 1);
    StartIsStored(table, q, limit, pages, k);
    var previous := pages[k - 1].rows;
    var last := previous[|previous| - 1];
    assert SelectsOnlyWhatFollows(q.field, q.asc, last, b);
    if i < k - 1 {
      LaterPagesFollow(table, q, limit, pages, i, k - 1, a, last);
    } else {
      LastOfPageFollows(previous, q.Order(), a);
    }
    RowOrderSorts(q.field, q.asc, {});
  }

  lemma {:induction false} ReturnedInOrder(
      table: set<Row>, q: Query, limit: nat, pages: seq<Page>, x: Row, i: nat, j: nat, k: nat, l: nat)
    requires Traversal(table, q, limit, pages) && RepeatsNothing(q.field, q.asc)
    requires ReturnedAt(pages, x, i, j) && ReturnedAt(pages, x, k, l)
    ensures !(i < k) && (i == k ==> !(j < l))
  {
    var a, b := pages[i].rows[j], pages[k].rows[l];
    assert a in pages[i].rows && b in pages[k].rows;
    PageFacts(table, q, limit, pages, i);
    PageFacts(table, q, limit, pages, k);
    NothingPrecedesItself(q.field, q.asc, a, b);
    if i < k {
      LaterPagesFollow(table, q, limit, pages, i, k, a, b);
    } else if i == k {
      EqualRowsAreOne(pages[i].rows, q.Order(), j, l);
    }
  }

  lemma {:induction false} EqualRowsAreOne(s: seq<Row>, before: Before, j: nat, l: nat)
    requires Ascends(s, before) && j < |s| && l < |s| && s[j] == s[l] && !before(s[j], s[l])
    ensures !(j < l)
  {
    if j < l {
      AscendsAt(s, before, j, l);
    }
  }

  lemma {:induction false} KeepingFieldReturnsAll(table: set<Row>, q: Query, limit: nat, pages: seq<Page>)
    requires Traversal(table, q, limit, pages) && Finished(pages) && Keeps(q.field, q.asc)
    ensures ReturnsAll(table, q, pages)
  {
    LosesNothingIff(q.field, q.asc);
    forall x <- Matching(table, q)
      ensures IsReturned(pages, x)
    {
      SelectedRowIsReturned(table, q, limit, pages, x, 0);
    }
  }

  lemma {:induction false} AdvancingFieldReturnsOnce(table: set<Row>, q: Query, limit: nat, pages: seq<Page>)
    requires Traversal(table, q, limit, pages) && Advances(q.field, q.asc)
    ensures ReturnsOnce(pages)
  {
    RepeatsNothingIff(q.field, q.asc);
    forall x, i, j, k, l | ReturnedAt(pages, x, i, j) && ReturnedAt(pages, x, k, l)
      ensures i == k && j == l
    {
      ReturnedInOrder(table, q, limit, pages, x, i, j, k, l);
      ReturnedInOrder(table, q, limit, pages, x, k, l, i, j);
    }
  }

  // ----- The traversals that fail, as requests are answered -----

  function FieldText(field: SortField): string {
    match field
    case ByCreatedAt => "created_at"
    case ByUpdatedAt => "updated_at"
    case ByPriority => "priority"
    case ByName => "name"
  }

  function OrderText(asc: bool): string {
    if asc then "asc" else "desc"
  }

  /** The answer to a request for the tasks behind a row, or for the first ones. */
  ghost function Answer(table: set<Row>, field: SortField, asc: bool, limit: int, behind: Position)
    : Result<Response<TaskCursor>, PageError>
    requires UniqueIds(table)
  {
    TasksResult(table, None, None, limit, TokenOf(behind), OrderText(asc), FieldText(field), NO_FAILURES)
  }

  /** For any filters, a request behind a row whose cursor decodes gets the page for that cursor. */
  lemma {:induction false} AnswerIsPage(table: set<Row>, q: Query, limit: int, behind: Position)
    requires UniqueIds(table) && (behind.Some? ==> CursorSafe(behind.value))
    ensures
      var order, field := OrderText(q.asc), FieldText(q.field);
      TasksResult(table, q.owner, q.status, limit, TokenOf(behind), order, field, NO_FAILURES)
      == Ok(TaskResponse(CursorPage(table, q, NormalLimit(limit), CursorAt(behind))))
  {
  }

  /** The answer when the selected rows are known in order. */
  lemma {:induction false} AnswerIsCut(
      table: set<Row>, field: SortField, asc: bool, limit: nat, behind: Position, s: seq<Row>)
    requires UniqueIds(table) && (behind.Some? ==> CursorSafe(behind.value)) && 1 <= limit <= 100
    requires Lists(s, Chosen(table, Query(None, None, field, asc), CursorAt(behind)), RowOrder(field, asc))
    ensures CursorPage(table, Query(None, None, field, asc), limit, CursorAt(behind)) == Cut(s, limit)
    ensures Answer(table, field, asc, limit, behind) == Ok(TaskResponse(Cut(s, limit)))
  {
    var chosen := Chosen(table, Query(None, None, field, asc), CursorAt(behind));
    RowOrderSorts(field, asc, chosen);
    ListingIsUnique(s, Listing(chosen, RowOrder(field, asc)), chosen, RowOrder(field, asc));
    AnswerIsPage(table, Query(None, None, field, asc), limit, behind);
  }

  /** The selected rows are these two, in this order. */
  lemma {:induction false} ListsTwo(a: Row, b: Row, rows: set<Row>, before: Before)
    requires rows == {a, b} && before(a, b)
    ensures Lists([a, b], rows, before)
  {
  }

  lemma {:induction false} ListsThree(a: Row, b: Row, c: Row, rows: set<Row>, before: Before)
    requires rows == {a, b, c} && before(a, b) && before(b, c) && before(a, c)
    ensures Lists([a, b, c], rows, before)
  {
  }

  /**
   * A request for the first tasks is answered with the first page, the request with its next cursor, which is
   * that of `from`, with the second.
   */
  ghost predicate AnsweredAs(table: set<Row>, field: SortField, asc: bool, limit: nat, from: Row, pages: seq<Page>) {
    && StoredTable(table) && |pages| == 2
    && Answer(table, field, asc, limit, None) == Ok(TaskResponse(pages[0]))
    && TaskResponse(pages[0]).next == TokenOf(Some(from))
    && Answer(table, field, asc, limit, Some(from)) == Ok(TaskResponse(pages[1]))
    && Traversal(table, Query(None, None, field, asc), limit, pages)
  }

  /** The first page of a whole table, and the page behind its last row. */
  lemma {:induction false} TwoPagesAnswered(
      table: set<Row>, field: SortField, asc: bool, limit: nat, all: seq<Row>, next: seq<Row>)
    requires StoredTable(table) && 1 <= limit <= 100 && limit < |all|
    requires Lists(all, table, RowOrder(field, asc))
    requires Lists(next, Chosen(table, Query(None, None, field, asc), CursorAt(Some(all[limit - 1]))),
                   RowOrder(field, asc))
    ensures AnsweredAs(table, field, asc, limit, all[limit - 1], [Page(all[..limit], true), Cut(next, limit)])
  {
    var from := all[limit - 1];
    assert from in all;
    assert Chosen(table, Query(None, None, field, asc), None) == table;
    AnswerIsCut(table, field, asc, limit, None, all);
    AnswerIsCut(table, field, asc, limit, Some(from), next);
    NextIsLast(Page(all[..limit], true));
    TwoPagesTraverse(table, Query(None, None, field, asc), limit, Page(all[..limit], true), Cut(next, limit));
  }

  lemma {:induction false} NextIsLast(p: Page)
    requires p.hasMore && p.rows != []
    ensures TaskResponse(p).next == TokenOf(Some(p.rows[|p.rows| - 1]))
  {
  }

  lemma {:induction false} TwoPagesTraverse(table: set<Row>, q: Query, limit: nat, first: Page, second: Page)
    requires StoredTable(table) && limit > 0 && first.rows != [] && first.hasMore
    requires first == CursorPage(table, q, limit, None)
    requires second == CursorPage(table, q, limit, CursorAt(Some(first.rows[|first.rows| - 1])))
    ensures Traversal(table, q, limit, [first, second])
  {
    var pages := [first, second];
    assert IsPage(table, q, limit, pages, 0) && IsPage(table, q, limit, pages, 1);
  }

  /**
   * By name, and descending by updated_at: of two stored rows of which the first one's cursor loses the second,
   * one to a page, the first is returned, its cursor accepted, and the second page is empty and the last.
   */
  lemma {:induction false} TraversalLosesRow(field: SortField, asc: bool, seen: Row, lost: Row)
    requires StoredTable({seen, lost}) && Loses(field, asc, seen, lost)
    ensures AnsweredAs({seen, lost}, field, asc, 1, seen, [Page([seen], true), Page([], false)])
  {
    CursorLosesRow(field, asc, seen, lost);
    ListsTwo(seen, lost, {seen, lost}, RowOrder(field, asc));
    assert Chosen({seen, lost}, Query(None, None, field, asc), CursorAt(Some(seen))) == {};
    TwoPagesAnswered({seen, lost}, field, asc, 1, [seen, lost], []);
    assert [seen, lost][..1] == [seen];
  }

  /**
   * Ascending by updated_at: of two stored rows, one to a page, the first updated after its creation, the second
   * page is the first one again, with the same cursor: following cursors never ends.
   */
  lemma {:induction false} TraversalLoops(a: Row, b: Row)
    requires StoredTable({a, b}) && LoopsByUpdate(a, b)
    ensures AnsweredAs({a, b}, ByUpdatedAt, true, 1, a, [Page([a], true), Page([a], true)])
  {
    UpdateCursor(a, a);
    UpdateCursor(a, b);
    ListsTwo(a, b, {a, b}, RowOrder(ByUpdatedAt, true));
    assert Chosen({a, b}, Query(None, None, ByUpdatedAt, true), CursorAt(Some(a))) == {a, b};
    TwoPagesAnswered({a, b}, ByUpdatedAt, true, 1, [a, b], [a, b]);
    assert [a, b][..1] == [a];
  }

  lemma {:induction false} PageOfLoop(a: Row, b: Row, pages: seq<Page>, i: nat)
    requires StoredTable({a, b}) && LoopsByUpdate(a, b)
    requires Traversal({a, b}, Query(None, None, ByUpdatedAt, true), 1, pages) && i < |pages|
    ensures pages[i] == Page([a], true)
    decreases i
  {
    TraversalLoops(a, b);
    AnswerIsPage({a, b}, Query(None, None, ByUpdatedAt, true), 1, None);
    AnswerIsPage({a, b}, Query(None, None, ByUpdatedAt, true), 1, Some(a));
    assert IsPage({a, b}, Query(None, None, ByUpdatedAt, true), 1, pages, i);
    if i > 0 {
      PageOfLoop(a, b, pages, i - 1);
    }
  }

  /** No traversal of these rows is ever finished: every page is the first one. */
  lemma {:induction false} LoopNeverFinishes(a: Row, b: Row, pages: seq<Page>)
    requires StoredTable({a, b}) && LoopsByUpdate(a, b)
    requires Traversal({a, b}, Query(None, None, ByUpdatedAt, true), 1, pages)
    ensures !Finished(pages)
  {
    PageOfLoop(a, b, pages, |pages| - 1);
  }

  /** By name: of three stored rows, two to a page, the second page is the last and returns the first row again. */
  lemma {:induction false} TraversalRepeatsRow(asc: bool, a: Row, b: Row, c: Row)
    requires StoredTable({a, b, c}) && RepeatsByName(asc, a, b, c)
    ensures AnsweredAs({a, b, c}, ByName, asc, 2, b, [Page([a, b], true), Page([a, c], false)])
  {
    NameCursor(asc, a, b);
    NameCursor(asc, b, a);
    NameCursor(asc, b, c);
    NameCursor(asc, a, c);
    SelectsItselfIff(ByName, asc, b);
    ListsThree(a, b, c, {a, b, c}, RowOrder(ByName, asc));
    assert Chosen({a, b, c}, Query(None, None, ByName, asc), CursorAt(Some(b))) == {a, c};
    ListsTwo(a, c, {a, c}, RowOrder(ByName, asc));
    TwoPagesAnswered({a, b, c}, ByName, asc, 2, [a, b, c], [a, c]);
    assert [a, b, c][..2] == [a, b];
  }

  // ----- Exactly which fields work -----

  ghost predicate FinishedTraversalsReturnAll(field: SortField, asc: bool) {
    forall table, q: Query, limit, pages
      | q.field == field && q.asc == asc && Traversal(table, q, limit, pages) && Finished(pages) ::
      ReturnsAll(table, q, pages)
  }

  ghost predicate TraversalsReturnOnce(field: SortField, asc: bool) {
    forall table, q: Query, limit, pages | q.field == field && q.asc == asc && Traversal(table, q, limit, pages) ::
      ReturnsOnce(pages)
  }

  /**
   * Main result: every finished traversal returns every matching row if and only if the field is created_at,
   * priority, or updated_at ascending.
   */
  lemma {:induction false} FinishedTraversalsReturnAllIff(field: SortField, asc: bool)
    ensures FinishedTraversalsReturnAll(field, asc) <==> Keeps(field, asc)
  {
    if Keeps(field, asc) {
      forall table, q: Query, limit, pages
        | q.field == field && q.asc == asc && Traversal(table, q, limit, pages) && Finished(pages)
        ensures ReturnsAll(table, q, pages)
      {
        KeepingFieldReturnsAll(table, q, limit, pages);
      }
    } else {
      var (seen, lost) := LostPair(field, asc);
      var q, table, pages := Query(None, None, field, asc), {seen, lost}, [Page([seen], true), Page([], false)];
      TraversalLosesRow(field, asc, seen, lost);
      assert Traversal(table, q, 1, pages) && Finished(pages);
      assert lost in Matching(table, q) && !IsReturned(pages, lost);
    }
  }

  lemma {:induction false} TwiceOnTwoPages(table: set<Row>, q: Query, limit: nat, first: Page, second: Page)
    requires Traversal(table, q, limit, [first, second])
    requires first.rows != [] && second.rows != [] && first.rows[0] == second.rows[0]
    ensures !TraversalsReturnOnce(q.field, q.asc)
  {
    var pages := [first, second];
    assert ReturnedAt(pages, first.rows[0], 0, 0) && ReturnedAt(pages, first.rows[0], 1, 0);
    assert !ReturnsOnce(pages);
  }

  /**
   * Main result: no traversal returns a row twice if and only if the field is created_at, priority, or updated_at
   * descending.
   */
  lemma {:induction false} TraversalsReturnOnceIff(field: SortField, asc: bool)
    ensures TraversalsReturnOnce(field, asc) <==> Advances(field, asc)
  {
    if Advances(field, asc) {
      forall table, q: Query, limit, pages | q.field == field && q.asc == asc && Traversal(table, q, limit, pages)
        ensures ReturnsOnce(pages)
      {
        AdvancingFieldReturnsOnce(table, q, limit, pages);
      }
    } else {
      var (a, b, c) := RepeatedRows(field, asc);
      if field.ByUpdatedAt? {
        TraversalLoops(a, b);
        TwiceOnTwoPages({a, b}, Query(None, None, field, asc), 1, Page([a], true), Page([a], true));
      } else {
        TraversalRepeatsRow(asc, a, b, c);
        TwiceOnTwoPages({a, b, c}, Query(None, None, field, asc), 2, Page([a, b], true), Page([a, c], false));
      }
    }
  }
}
