/**
 * Keyset pagination for any strict order: the listing of a set of rows, the page after a position,
 * and what following positions enumerates. A position is a row value, the last row that was seen; it
 * need not be in the table any more.
 */
module Keyset {
  import opened Models

  /**
   * A row of `tasks` (owner is user_id) or of `task_executions` (owner is task_id; the columns that
   * table lacks hold 0). Texts stand as their rank in the collation order, times as instants.
   */
  datatype Row = Row(
    id: Uuid, owner: Uuid, status: int, priority: int, createdAt: int, updatedAt: int, name: int)

  type Before = (Row, Row) -> bool

  ghost predicate StrictOrder(before: Before) {
    && (forall a :: !before(a, a))
    && (forall a, b, c :: before(a, b) && before(b, c) ==> before(a, c))
  }

  ghost predicate TotalOn(before: Before, rows: set<Row>) {
    forall a, b {:trigger before(a, b)} | a in rows && b in rows :: a == b || before(a, b) || before(b, a)
  }

  /** The order sorts the rows of a table. */
  ghost predicate Sorts(before: Before, rows: set<Row>) {
    StrictOrder(before) && TotalOn(before, rows)
  }

  // ----- The rows of a query in order -----

  ghost predicate Ascends(s: seq<Row>, before: Before) {
    forall i, j {:trigger before(s[i], s[j])} | 0 <= i < j < |s| :: before(s[i], s[j])
  }

  /** `s` is exactly the given rows, each once, in order. */
  ghost predicate Lists(s: seq<Row>, rows: set<Row>, before: Before) {
    Ascends(s, before) && forall r :: r in s <==> r in rows
  }

  predicate IsFirst(before: Before, rows: set<Row>, r: Row) {
    r in rows && forall x <- rows :: x == r || before(r, x)
  }

  lemma {:induction false} FirstExists(before: Before, rows: set<Row>)
    requires Sorts(before, rows) && rows != {}
    ensures exists r :: IsFirst(before, rows, r)
    decreases rows
  {
    var a :| a in rows;
    var others := rows - {a};
    if others == {} {
      assert rows == {a};
      assert IsFirst(before, rows, a);
    } else {
      FirstExists(before, others);
      var b :| IsFirst(before, others, b);
      assert rows == others + {a};
      if before(a, b) {
        assert IsFirst(before, rows, a);
      } else {
        assert IsFirst(before, rows, b);
      }
    }
  }

  lemma FirstThenRestLists(r: Row, rest: seq<Row>, rows: set<Row>, before: Before)
    requires IsFirst(before, rows, r) && Lists(rest, rows - {r}, before)
    ensures Lists([r] + rest, rows, before)
  {
    var s := [r] + rest;
    forall i, j | 0 <= i < j < |s|
      ensures before(s[i], s[j])
    {
      if i == 0 {
        assert rest[j - 1] in rest;
      } else {
        assert before(rest[i - 1], rest[j - 1]);
      }
    }
    forall x
      ensures x in s <==> x in rows
    {
      assert x in s <==> x == r || x in rest;
    }
  }

  lemma {:induction false} ListingExists(rows: set<Row>, before: Before)
    requires Sorts(before, rows)
    ensures exists s :: Lists(s, rows, before) && |s| == |rows|
    decreases rows
  {
    if rows == {} {
      assert Lists([], rows, before);
    } else {
      FirstExists(before, rows);
      var r :| IsFirst(before, rows, r);
      ListingExists(rows - {r}, before);
      var s :| Lists(s, rows - {r}, before) && |s| == |rows - {r}|;
      FirstThenRestLists(r, s, rows, before);
    }
  }

  /** What the database returns for ORDER BY. */
  ghost function Listing(rows: set<Row>, before: Before): (s: seq<Row>)
    requires Sorts(before, rows)
    ensures Lists(s, rows, before) && |s| == |rows|
  {
    ListingExists(rows, before);
    var s :| Lists(s, rows, before) && |s| == |rows|;
    s
  }

  lemma TailLists(s: seq<Row>, rows: set<Row>, before: Before)
    requires StrictOrder(before) && Lists(s, rows, before) && s != []
    ensures Lists(s[1..], rows - {s[0]}, before)
  {
    forall r
      ensures r in s[1..] <==> r in rows - {s[0]}
    {
      if r in s[1..] {
        var j :| 0 < j < |s| && s[j] == r;
        assert before(s[0], s[j]);
      }
      if r in rows - {s[0]} {
        assert r in s;
      }
    }
  }

  lemma ListsItsHead(s: seq<Row>)
    ensures s == [] || s[0] in s
  {
  }

  lemma HeadIsFirst(s: seq<Row>, before: Before, r: Row)
    requires Ascends(s, before) && r in s
    ensures r == s[0] || before(s[0], r)
  {
  }

  lemma AscendingReflects(s: seq<Row>, before: Before, i: nat, j: nat)
    requires StrictOrder(before) && Ascends(s, before)
    requires i < |s| && j < |s| && before(s[i], s[j])
    ensures i < j
  {
    if j < i {
      AscendsAt(s, before, j, i);
    }
  }

  lemma AscendsAt(s: seq<Row>, before: Before, i: nat, j: nat)
    requires Ascends(s, before) && i < j < |s|
    ensures before(s[i], s[j])
  {
  }

  lemma HeadsAgree(s: seq<Row>, t: seq<Row>, rows: set<Row>, before: Before)
    requires StrictOrder(before) && Lists(s, rows, before) && Lists(t, rows, before)
    requires s != [] && t != []
    ensures s[0] == t[0]
  {
    assert t[0] in s && s[0] in t;
    HeadIsFirst(s, before, t[0]);
    HeadIsFirst(t, before, s[0]);
  }

  /** Only one sequence lists a set of rows in an order. */
  lemma {:induction false} ListingIsUnique(s: seq<Row>, t: seq<Row>, rows: set<Row>, before: Before)
    requires StrictOrder(before) && Lists(s, rows, before) && Lists(t, rows, before)
    ensures s == t
    decreases |s|
  {
    if s == [] {
      ListsItsHead(t);
    } else if t == [] {
      ListsItsHead(s);
    } else {
      HeadsAgree(s, t, rows, before);
      TailLists(s, rows, before);
      TailLists(t, rows, before);
      ListingIsUnique(s[1..], t[1..], rows - {s[0]}, before);
      assert s == [s[0]] + s[1..] && t == [t[0]] + t[1..];
    }
  }

  // ----- Pages -----

  type Position = Option<Row>

  predicate Past(pos: Position, before: Before, r: Row) {
    pos.Some? ==> before(pos.value, r)
  }

  function Remaining(rows: set<Row>, pos: Position, before: Before): set<Row> {
    set r | r in rows && Past(pos, before, r)
  }

  datatype Page = Page(rows: seq<Row>, hasMore: bool)

  /** The rows that fit a limit out of all the rows that remain. */
  function Cut(all: seq<Row>, limit: nat): Page {
    if |all| > limit then Page(all[..limit], true) else Page(all, false)
  }

  /** Fetch limit + 1 rows past the position and return at most limit of them. */
  ghost function PageAt(rows: set<Row>, pos: Position, before: Before, limit: nat): Page
    requires Sorts(before, rows)
  {
    Cut(Listing(Remaining(rows, pos, before), before), limit)
  }

  /** Continuing at the k-th row of a listing leaves exactly the rows listed after it. */
  lemma ContinuesAfter(rows: set<Row>, pos: Position, before: Before, all: seq<Row>, k: nat)
    requires Sorts(before, rows) && Lists(all, Remaining(rows, pos, before), before) && k < |all|
    ensures Lists(all[k + 1..], Remaining(rows, Some(all[k]), before), before)
  {
    var after := Remaining(rows, Some(all[k]), before);
    var tail := all[k + 1..];
    assert all[k] in all;
    forall r
      ensures r in tail <==> r in after
    {
      if r in tail {
        var j :| k < j < |all| && all[j] == r;
        assert all[j] in all;
      }
      if r in after {
        assert Past(pos, before, all[k]) && Past(pos, before, r);
        assert r in all;
        var j :| 0 <= j < |all| && all[j] == r;
        AscendingReflects(all, before, k, j);
        assert k < j && tail[j - k - 1] == r;
      }
    }
  }

  /** After a page with more to come, the rest of the listing is what the last row's position leaves. */
  lemma PageThenRest(rows: set<Row>, pos: Position, before: Before, limit: nat)
    requires Sorts(before, rows) && limit > 0
    ensures
      var p := PageAt(rows, pos, before, limit);
      var all := Listing(Remaining(rows, pos, before), before);
      if p.hasMore then
        && |p.rows| == limit < |all|
        && all == p.rows + Listing(Remaining(rows, Some(p.rows[limit - 1]), before), before)
      else p.rows == all && |all| <= limit
  {
    var all := Listing(Remaining(rows, pos, before), before);
    if |all| > limit {
      ContinuesAfter(rows, pos, before, all, limit - 1);
      var after := Remaining(rows, Some(all[limit - 1]), before);
      ListingIsUnique(all[limit..], Listing(after, before), after, before);
      assert all == all[..limit] + all[limit..];
    }
  }

  /** Listing a set by the converse order gives the reversed listing. */
  function Reversed(s: seq<Row>): (r: seq<Row>)
    ensures |r| == |s| && forall i | 0 <= i < |s| :: r[i] == s[|s| - 1 - i]
  {
    if s == [] then [] else Reversed(s[1..]) + [s[0]]
  }

  ghost predicate Converse(before: Before, after: Before) {
    forall a, b :: before(a, b) <==> after(b, a)
  }

  lemma ConverseListingIsReversed(rows: set<Row>, before: Before, after: Before)
    requires Sorts(before, rows) && Sorts(after, rows) && Converse(before, after)
    ensures Listing(rows, after) == Reversed(Listing(rows, before))
  {
    var s := Listing(rows, before);
    var t := Reversed(s);
    forall r
      ensures r in t <==> r in rows
    {
      if r in t {
        var i :| 0 <= i < |t| && t[i] == r;
        assert s[|s| - 1 - i] in s;
      }
      if r in rows {
        assert r in s;
        var i :| 0 <= i < |s| && s[i] == r;
        assert t[|s| - 1 - i] == r;
      }
    }
    assert Ascends(t, after);
    ListingIsUnique(t, Listing(rows, after), rows, after);
  }

  // ----- Traversals of a changing table -----

  /** Where page i starts: after the last row of the page before it. */
  function Start(pages: seq<Page>, i: nat): Position
    requires i <= |pages|
  {
    if i == 0 || pages[i - 1].rows == [] then None else Some(pages[i - 1].rows[|pages[i - 1].rows| - 1])
  }

  /** Page i is fetched from the rows that match when it is fetched. */
  ghost predicate FetchedAt(tables: seq<set<Row>>, pages: seq<Page>, before: Before, limit: nat, i: nat)
    requires i < |pages| == |tables|
  {
    Sorts(before, tables[i]) && pages[i] == PageAt(tables[i], Start(pages, i), before, limit)
  }

  /** A finished traversal: only the last page has nothing after it. */
  ghost predicate IsTraversal(tables: seq<set<Row>>, pages: seq<Page>, before: Before, limit: nat) {
    && StrictOrder(before) && limit > 0
    && 0 < |pages| == |tables|
    && (forall i | 0 <= i < |pages| :: FetchedAt(tables, pages, before, limit, i))
    && (forall i | 0 <= i < |pages| :: pages[i].hasMore <==> i < |pages| - 1)
  }

  /** The order cannot tell the two rows apart. */
  ghost predicate Tied(before: Before, r: Row, x: Row) {
    forall y :: (before(r, y) <==> before(x, y)) && (before(y, r) <==> before(y, x))
  }

  /** The matching row with x's id, where x was in the order. */
  ghost predicate SameSpot(rows: set<Row>, before: Before, r: Row, x: Row) {
    r in rows && r.id == x.id && Tied(before, r, x)
  }

  ghost predicate UniqueIds(rows: set<Row>) {
    forall a <- rows, b <- rows :: a.id == b.id ==> a == b
  }

  /** In every fetched table x's row matches and keeps its place in the order. */
  ghost predicate Stays(tables: seq<set<Row>>, before: Before, x: Row) {
    forall i | 0 <= i < |tables| :: UniqueIds(tables[i]) && exists r :: SameSpot(tables[i], before, r, x)
  }

  predicate ReturnedAt(pages: seq<Page>, x: Row, i: int, j: int) {
    0 <= i < |pages| && 0 <= j < |pages[i].rows| && pages[i].rows[j].id == x.id
  }

  /** One page: a row past its start is returned, or past its end when more is to come. */
  lemma PageReturnsOrPasses(rows: set<Row>, pos: Position, before: Before, limit: nat, r: Row)
    requires Sorts(before, rows) && limit > 0
    requires r in rows && Past(pos, before, r)
    ensures
      var p := PageAt(rows, pos, before, limit);
      r in p.rows || (p.hasMore && |p.rows| == limit && before(p.rows[limit - 1], r))
  {
    var all := Listing(Remaining(rows, pos, before), before);
    assert r in all;
    var k :| 0 <= k < |all| && all[k] == r;
    if |all| > limit {
      if k < limit {
        assert all[..limit][k] == r;
      } else {
        assert before(all[limit - 1], all[k]);
      }
    }
  }

  /** Every row of a page matches and is past its start, and the page is in order. */
  lemma PageAscends(rows: set<Row>, pos: Position, before: Before, limit: nat)
    requires Sorts(before, rows)
    ensures
      var p := PageAt(rows, pos, before, limit);
      Ascends(p.rows, before) && forall r <- p.rows :: r in rows && Past(pos, before, r)
  {
    var all := Listing(Remaining(rows, pos, before), before);
    assert forall r <- PageAt(rows, pos, before, limit).rows :: r in all;
  }

  /** From page i on, a staying row past the start of page i is returned. */
  lemma {:induction false} StayingRowIsReturned(
      tables: seq<set<Row>>, pages: seq<Page>, before: Before, limit: nat, x: Row, i: nat)
    requires IsTraversal(tables, pages, before, limit) && Stays(tables, before, x)
    requires i < |pages| && Past(Start(pages, i), before, x)
    ensures exists k, j :: ReturnedAt(pages, x, k, j)
    decreases |pages| - i
  {
    assert FetchedAt(tables, pages, before, limit, i);
    var r :| SameSpot(tables[i], before, r, x);
    PageReturnsOrPasses(tables[i], Start(pages, i), before, limit, r);
    if r in pages[i].rows {
      var j :| 0 <= j < |pages[i].rows| && pages[i].rows[j] == r;
      assert ReturnedAt(pages, x, i, j);
    } else {
      StayingRowIsReturned(tables, pages, before, limit, x, i + 1);
    }
  }

  lemma LastOfPageFollows(p: seq<Row>, before: Before, a: Row)
    requires Ascends(p, before) && a in p
    ensures a == p[|p| - 1] || before(a, p[|p| - 1])
  {
  }

  /** Rows of later pages come after the rows of earlier pages, whatever the table does in between. */
  lemma {:induction false} LaterPagesComeAfter(
      tables: seq<set<Row>>, pages: seq<Page>, before: Before, limit: nat, i: nat, k: nat, a: Row, b: Row)
    requires IsTraversal(tables, pages, before, limit)
    requires i < k < |pages| && a in pages[i].rows && b in pages[k].rows
    ensures before(a, b)
    decreases k - i
  {
    NextPageComesAfter(tables, pages, before, limit, k, b);
    var previous := pages[k - 1].rows;
    var last := previous[|previous| - 1];
    if i < k - 1 {
      LaterPagesComeAfter(tables, pages, before, limit, i, k - 1, a, last);
    } else {
      LastOfPageFollows(previous, before, a);
    }
  }

  lemma NextPageComesAfter(
      tables: seq<set<Row>>, pages: seq<Page>, before: Before, limit: nat, k: nat, b: Row)
    requires IsTraversal(tables, pages, before, limit)
    requires 0 < k < |pages| && b in pages[k].rows
    ensures
      var previous := pages[k - 1].rows;
      previous != [] && Ascends(previous, before) && before(previous[|previous| - 1], b)
  {
    assert FetchedAt(tables, pages, before, limit, k) && FetchedAt(tables, pages, before, limit, k - 1);
    PageAscends(tables[k], Start(pages, k), before, limit);
    PageAscends(tables[k - 1], Start(pages, k - 1), before, limit);
  }

  lemma ReturnedRowIsTied(
      tables: seq<set<Row>>, pages: seq<Page>, before: Before, limit: nat, x: Row, i: nat, j: nat)
    requires IsTraversal(tables, pages, before, limit) && Stays(tables, before, x) && ReturnedAt(pages, x, i, j)
    ensures Tied(before, pages[i].rows[j], x)
  {
    assert FetchedAt(tables, pages, before, limit, i);
    PageAscends(tables[i], Start(pages, i), before, limit);
    var r :| SameSpot(tables[i], before, r, x);
    assert pages[i].rows[j] in pages[i].rows;
    assert pages[i].rows[j] == r;
  }

  lemma ReturnedOnlyOnce(tables: seq<set<Row>>, pages: seq<Page>, before: Before, limit: nat, x: Row,
                         i: nat, j: nat, k: nat, l: nat)
    requires IsTraversal(tables, pages, before, limit) && Stays(tables, before, x)
    requires ReturnedAt(pages, x, i, j) && ReturnedAt(pages, x, k, l)
    ensures !(i < k) && (i == k ==> !(j < l))
  {
    var a, b := pages[i].rows[j], pages[k].rows[l];
    ReturnedRowIsTied(tables, pages, before, limit, x, i, j);
    ReturnedRowIsTied(tables, pages, before, limit, x, k, l);
    assert !before(a, b);
    if i < k {
      LaterPagesComeAfter(tables, pages, before, limit, i, k, a, b);
    } else if i == k && j < l {
      assert FetchedAt(tables, pages, before, limit, i);
      PageAscends(tables[i], Start(pages, i), before, limit);
    }
  }

  /**
   * Main result: rows may come and go between fetches, but a row that matches throughout and keeps its
   * place in the order is returned exactly once by a finished traversal.
   */
  lemma StayingRowIsReturnedOnce(tables: seq<set<Row>>, pages: seq<Page>, before: Before, limit: nat, x: Row)
    requires IsTraversal(tables, pages, before, limit) && Stays(tables, before, x)
    ensures exists i, j :: ReturnedAt(pages, x, i, j)
    ensures forall i, j, k, l :: ReturnedAt(pages, x, i, j) && ReturnedAt(pages, x, k, l) ==> i == k && j == l
  {
    StayingRowIsReturned(tables, pages, before, limit, x, 0);
    forall i, j, k, l | ReturnedAt(pages, x, i, j) && ReturnedAt(pages, x, k, l)
      ensures i == k && j == l
    {
      ReturnedOnlyOnce(tables, pages, before, limit, x, i, j, k, l);
      ReturnedOnlyOnce(tables, pages, before, limit, x, k, l, i, j);
    }
  }
}
