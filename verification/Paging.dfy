/**
Keyset pagination of services/tasks/internal/store (List) and internal/domain (Cursor):
pages in (created_at DESC, id DESC) order, each starting strictly after the last task of
the page before.

A task is its position, (createdAt, id); both are fixed for its life, and ids are numbers
standing for the database's collation order. A walk reads each page from the table as it
is then: tasks are inserted and deleted between the pages in any way.
*/
module Paging {
  const DEFAULT_PAGE_SIZE := 50
  const MAX_PAGE_SIZE := 200

  datatype Option<+T> = None | Some(value: T)

  datatype Pos = Pos(createdAt: nat, id: nat)

  type Table = set<Pos>

  /** One page, newest first; `next` is None on the last page. */
  datatype Page = Page(tasks: seq<Pos>, next: Option<Pos>)

  /** `a` is listed before `b`. */
  predicate Before(a: Pos, b: Pos) {
    a.createdAt > b.createdAt || (a.createdAt == b.createdAt && a.id > b.id)
  }

  predicate After(p: Pos, cursor: Option<Pos>) { cursor.None? || Before(cursor.value, p) }

  // ------------------------------------------------------------ the query

  /** `rows` are the rows of `t`, each once, in listing order. */
  ghost predicate Lists(rows: seq<Pos>, t: Table) {
    && (forall i, j :: 0 <= i < j < |rows| ==> Before(rows[i], rows[j]))
    && (forall p :: p in rows <==> p in t)
  }

  ghost predicate IsNewest(p: Pos, t: Table) {
    p in t && forall q :: q in t ==> q == p || Before(p, q)
  }

  lemma {:induction false} HasNewest(t: Table) returns (p: Pos)
    requires t != {}
    ensures IsNewest(p, t)
  {
    var q :| q in t;
    if t - {q} == {} {
      assert forall x :: x in t ==> x == q || x in t - {q};
      p := q;
    } else {
      assert forall x :: x in t ==> x == q || x in t - {q};
      var r := HasNewest(t - {q});
      p := if Before(q, r) then q else r;
    }
  }

  /** The table in listing order. */
  ghost function Sorted(t: Table): seq<Pos>
    ensures Lists(Sorted(t), t)
  {
    if t == {} then []
    else
      assert exists p :: IsNewest(p, t) by { var p := HasNewest(t); }
      var p :| IsNewest(p, t);
      [p] + Sorted(t - {p})
  }

  lemma {:induction false} ListingIsUnique(a: seq<Pos>, b: seq<Pos>, t: Table)
    requires Lists(a, t) && Lists(b, t)
    ensures a == b
  {
    assert forall k :: 0 <= k < |b| ==> b[k] in a;
    assert forall k :: 0 <= k < |a| ==> a[k] in b;
    if a != [] {
      assert a[0] == b[0];
      forall p | p in a[1..] ensures p in t - {a[0]} { assert p in a; }
      forall p | p in b[1..] ensures p in t - {b[0]} { assert p in b; }
      forall p | p in t - {a[0]} ensures p in a[1..] && p in b[1..] { assert p in a && p in b; }
      ListingIsUnique(a[1..], b[1..], t - {a[0]});
    }
  }

  ghost function Rest(t: Table, cursor: Option<Pos>): Table { set p | p in t && After(p, cursor) }

  function Least(a: int, b: int): int { if a < b then a else b }

  /** The database's answer: the rows after `cursor`, in order, at most `n`. */
  ghost function Query(t: Table, cursor: Option<Pos>, n: nat): seq<Pos> {
    var rows := Sorted(Rest(t, cursor));
    rows[..Least(n, |rows|)]
  }

  function Limit(limit: int): (n: nat)
    ensures 1 <= n <= MAX_PAGE_SIZE
    ensures n == if 1 <= limit <= MAX_PAGE_SIZE then limit else DEFAULT_PAGE_SIZE
  {
    if limit <= 0 || limit > MAX_PAGE_SIZE then DEFAULT_PAGE_SIZE else limit
  }

  /** The page made of an answer to a query for one row more than the limit. */
  function PageOf(rows: seq<Pos>, limit: nat): Page
    requires limit >= 1
  {
    if |rows| > limit then Page(rows[..limit], Some(rows[limit - 1])) else Page(rows, None)
  }

  ghost function List(t: Table, limit: int, cursor: Option<Pos>): Page {
    PageOf(Query(t, cursor, Limit(limit) + 1), Limit(limit))
  }

  /** What a page is, without the query: in order, after the cursor, and nothing of the table left out up to its end. */
  ghost predicate Stretch(page: Page, t: Table, cursor: Option<Pos>) {
    && (forall i, j :: 0 <= i < j < |page.tasks| ==> Before(page.tasks[i], page.tasks[j]))
    && (forall p :: p in page.tasks ==> p in t && After(p, cursor))
    && (forall p :: p in t && After(p, cursor) && p !in page.tasks ==> page.next.Some? && Before(page.next.value, p))
    && (page.next.Some? ==> |page.tasks| >= 1 && page.next.value == page.tasks[|page.tasks| - 1])
  }

  lemma PageIsNextStretch(t: Table, limit: int, cursor: Option<Pos>)
    ensures Stretch(List(t, limit, cursor), t, cursor)
    ensures |List(t, limit, cursor).tasks| <= Limit(limit)
    ensures var page := List(t, limit, cursor);
            page.next.Some? ==> |page.tasks| == Limit(limit) && exists p :: p in t && Before(page.next.value, p)
  {
    var rows, n := Sorted(Rest(t, cursor)), Limit(limit);
    var page := List(t, limit, cursor);
    assert page.tasks == rows[..Least(n, |rows|)];
    if page.next.Some? {
      assert rows[n] in rows;
      assert rows[n] in t && Before(page.next.value, rows[n]);
    }
    forall p | p in page.tasks ensures p in t && After(p, cursor) { assert p in rows; }
    forall p | p in t && After(p, cursor) && p !in page.tasks
      ensures page.next.Some? && Before(page.next.value, p)
    {
      assert p in rows;
      var k :| 0 <= k < |rows| && rows[k] == p;
      assert forall i :: 0 <= i < n && i < |rows| ==> rows[i] == page.tasks[i];
    }
  }

  /** Newest first, and among tasks of one time the larger id first, all of it strictly after the cursor in that order. */
  lemma NewestFirst(t: Table, limit: int, cursor: Option<Pos>)
    ensures var tasks := List(t, limit, cursor).tasks;
            && (forall i, j :: 0 <= i < j < |tasks| ==>
                  tasks[i].createdAt >= tasks[j].createdAt && (tasks[i].createdAt == tasks[j].createdAt ==> tasks[i].id > tasks[j].id))
            && (cursor.Some? ==> forall i :: 0 <= i < |tasks| ==>
                  tasks[i].createdAt <= cursor.value.createdAt && (tasks[i].createdAt == cursor.value.createdAt ==> tasks[i].id < cursor.value.id))
  {
    hide List;
    var tasks := List(t, limit, cursor).tasks;
    PageIsNextStretch(t, limit, cursor);
    forall i | 0 <= i < |tasks| ensures After(tasks[i], cursor) { assert tasks[i] in tasks; }
  }

  // ------------------------------------------------------------ walks

  /** Page `n` of a walk that reads page k from `ts[k]` with limit `ls[k]`. */
  ghost function PageAt(ts: seq<Table>, ls: seq<int>, n: nat): Page
    requires n < |ts| == |ls|
    decreases n, 1
  {
    List(ts[n], ls[n], CursorAt(ts, ls, n))
  }

  ghost function CursorAt(ts: seq<Table>, ls: seq<int>, n: nat): Option<Pos>
    requires n <= |ts| == |ls|
    decreases n, 0
  {
    if n == 0 then None else PageAt(ts, ls, n - 1).next
  }

  /** Every page but the last has a next one. */
  ghost predicate Walk(ts: seq<Table>, ls: seq<int>) {
    |ts| == |ls| && forall n :: 0 < n < |ts| ==> CursorAt(ts, ls, n).Some?
  }

  ghost predicate Finished(ts: seq<Table>, ls: seq<int>) {
    Walk(ts, ls) && |ts| > 0 && CursorAt(ts, ls, |ts|).None?
  }

  /** A task of page `i` is at or before the cursor of every later page. */
  lemma {:induction false} AtOrBeforeCursor(ts: seq<Table>, ls: seq<int>, i: nat, j: nat, p: Pos)
    requires Walk(ts, ls) && i < j < |ts| && p in PageAt(ts, ls, i).tasks
    ensures var c := CursorAt(ts, ls, j).value; p == c || Before(p, c)
  {
    hide List;
    PageIsNextStretch(ts[j - 1], ls[j - 1], CursorAt(ts, ls, j - 1));
    assert CursorAt(ts, ls, j).Some? && CursorAt(ts, ls, j).value in PageAt(ts, ls, j - 1).tasks;
    if i < j - 1 {
      AtOrBeforeCursor(ts, ls, i, j - 1, p);
    } else {
      var tasks := PageAt(ts, ls, i).tasks;
      var k :| 0 <= k < |tasks| && tasks[k] == p;
    }
  }

  /** However the table changes between the pages, tasks come in listing order within and across the pages:
      none appears twice. */
  lemma NoTaskTwice(ts: seq<Table>, ls: seq<int>, i: nat, j: nat, k: nat, l: nat)
    requires Walk(ts, ls) && i <= j < |ts|
    requires k < |PageAt(ts, ls, i).tasks| && l < |PageAt(ts, ls, j).tasks| && (i == j ==> k < l)
    ensures Before(PageAt(ts, ls, i).tasks[k], PageAt(ts, ls, j).tasks[l])
  {
    hide List;
    PageIsNextStretch(ts[j], ls[j], CursorAt(ts, ls, j));
    if i < j {
      AtOrBeforeCursor(ts, ls, i, j, PageAt(ts, ls, i).tasks[k]);
      assert PageAt(ts, ls, j).tasks[l] in PageAt(ts, ls, j).tasks;
    }
  }

  /** A task present throughout is on some page from `n` on, if it is after the cursor of page `n`. */
  lemma {:induction false} StillToCome(ts: seq<Table>, ls: seq<int>, n: nat, p: Pos) returns (k: nat)
    requires Finished(ts, ls) && n < |ts| && After(p, CursorAt(ts, ls, n)) && forall i :: n <= i < |ts| ==> p in ts[i]
    ensures n <= k < |ts| && p in PageAt(ts, ls, k).tasks
    decreases |ts| - n
  {
    hide List;
    PageIsNextStretch(ts[n], ls[n], CursorAt(ts, ls, n));
    if p in PageAt(ts, ls, n).tasks {
      k := n;
    } else {
      k := StillToCome(ts, ls, n + 1, p);
    }
  }

  /** A task present throughout a finished walk appears on exactly one page, once. */
  lemma PresentThroughoutAppearsOnce(ts: seq<Table>, ls: seq<int>, p: Pos) returns (n: nat, k: nat)
    requires Finished(ts, ls) && forall i :: 0 <= i < |ts| ==> p in ts[i]
    ensures n < |ts| && k < |PageAt(ts, ls, n).tasks| && PageAt(ts, ls, n).tasks[k] == p
    ensures forall m, l :: 0 <= m < |ts| && 0 <= l < |PageAt(ts, ls, m).tasks| && PageAt(ts, ls, m).tasks[l] == p ==> m == n && l == k
  {
    hide List;
    n := StillToCome(ts, ls, 0, p);
    k :| 0 <= k < |PageAt(ts, ls, n).tasks| && PageAt(ts, ls, n).tasks[k] == p;
    forall m, l | 0 <= m < |ts| && 0 <= l < |PageAt(ts, ls, m).tasks| && PageAt(ts, ls, m).tasks[l] == p && (m != n || l != k)
      ensures false
    {
      if m < n || (m == n && l < k) { NoTaskTwice(ts, ls, m, n, l, k); } else { NoTaskTwice(ts, ls, n, m, k, l); }
    }
  }

  /** The first `n` pages, one after the other. */
  ghost function Pages(ts: seq<Table>, ls: seq<int>, n: nat): seq<Pos>
    requires n <= |ts| == |ls|
  {
    if n == 0 then [] else Pages(ts, ls, n - 1) + PageAt(ts, ls, n - 1).tasks
  }

  ghost function UpTo(t: Table, cursor: Option<Pos>): Table { set p | p in t && (cursor.None? || !After(p, cursor)) }

  lemma {:induction false} PagesListUpToCursor(ts: seq<Table>, ls: seq<int>, t: Table, n: nat)
    requires Walk(ts, ls) && 0 < n <= |ts| && forall i :: 0 <= i < |ts| ==> ts[i] == t
    ensures Lists(Pages(ts, ls, n), UpTo(t, CursorAt(ts, ls, n)))
  {
    hide List, Stretch, Lists, UpTo, Before;
    var cursor, page := CursorAt(ts, ls, n - 1), PageAt(ts, ls, n - 1);
    PageIsNextStretch(t, ls[n - 1], cursor);
    if n == 1 {
      assert Pages(ts, ls, 1) == [] + page.tasks == page.tasks;
      FirstListing(page, t);
    } else {
      PagesListUpToCursor(ts, ls, t, n - 1);
      JoinListings(Pages(ts, ls, n - 1), page, t, cursor.value);
    }
  }

  lemma FirstListing(page: Page, t: Table)
    requires Stretch(page, t, None)
    ensures Lists(page.tasks, UpTo(t, page.next))
  {
    LastIsLast(page, t, None);
  }

  lemma LastIsLast(page: Page, t: Table, cursor: Option<Pos>)
    requires Stretch(page, t, cursor)
    ensures forall p :: p in page.tasks <==> p in t && After(p, cursor) && (page.next.None? || !After(p, page.next))
  {
    forall p | p in page.tasks && page.next.Some? ensures !After(p, page.next) {
      var k :| 0 <= k < |page.tasks| && page.tasks[k] == p;
    }
  }

  lemma JoinListings(sofar: seq<Pos>, page: Page, t: Table, c: Pos)
    requires Lists(sofar, UpTo(t, Some(c))) && Stretch(page, t, Some(c))
    ensures Lists(sofar + page.tasks, UpTo(t, page.next))
  {
    LastIsLast(page, t, Some(c));
    var all := sofar + page.tasks;
    forall i, j | 0 <= i < j < |all| ensures Before(all[i], all[j]) {
      if i < |sofar| { assert sofar[i] in UpTo(t, Some(c)); }
      if j >= |sofar| { assert page.tasks[j - |sofar|] in page.tasks; }
    }
    forall p ensures p in all <==> p in UpTo(t, page.next) {
      if page.next.Some? { assert page.tasks[|page.tasks| - 1] in page.tasks; }
    }
  }

  /** On a fixed table the pages are the whole table, in order. */
  lemma PagesAreTheTable(ts: seq<Table>, ls: seq<int>, t: Table)
    requires Finished(ts, ls) && forall i :: 0 <= i < |ts| ==> ts[i] == t
    ensures Pages(ts, ls, |ts|) == Sorted(t)
  {
    hide List, Stretch, Before;
    PagesListUpToCursor(ts, ls, t, |ts|);
    assert UpTo(t, None) == t;
    ListingIsUnique(Pages(ts, ls, |ts|), Sorted(t), t);
  }

  // ------------------------------------------------------------ walks end

  lemma {:induction false} ListedOnce(rows: seq<Pos>, t: Table)
    requires Lists(rows, t)
    ensures |rows| == |t|
  {
    if rows == [] {
      assert t == {};
    } else {
      var init, last := rows[..|rows| - 1], rows[|rows| - 1];
      assert rows == init + [last] && last in rows;
      forall p ensures p in init <==> p in t - {last} {
        if p in init { assert p in rows; }
        if p in t - {last} { assert p in rows; }
      }
      ListedOnce(init, t - {last});
    }
  }

  lemma {:induction false} EveryPageLists(ts: seq<Table>, ls: seq<int>, n: nat)
    requires n <= |ts| == |ls| && forall k :: 0 < k <= n ==> CursorAt(ts, ls, k).Some?
    ensures |Pages(ts, ls, n)| >= n
  {
    hide List;
    if n > 0 {
      EveryPageLists(ts, ls, n - 1);
      assert CursorAt(ts, ls, n).Some?;
      PageIsNextStretch(ts[n - 1], ls[n - 1], CursorAt(ts, ls, n - 1));
    }
  }

  /** On a fixed table, pages that all have a next one are fewer than the tasks. */
  lemma MorePagesNeedMoreTasks(ts: seq<Table>, ls: seq<int>, t: Table)
    requires Walk(ts, ls) && |ts| > 0 && CursorAt(ts, ls, |ts|).Some? && forall i :: 0 <= i < |ts| ==> ts[i] == t
    ensures |ts| < |t|
  {
    hide List, Stretch;
    var n := |ts|;
    var cursor := CursorAt(ts, ls, n);
    EveryPageLists(ts, ls, n);
    PagesListUpToCursor(ts, ls, t, n);
    ListedOnce(Pages(ts, ls, n), UpTo(t, cursor));
    PageIsNextStretch(t, ls[n - 1], CursorAt(ts, ls, n - 1));
    var p :| p in t && Before(cursor.value, p);
    Fewer(UpTo(t, cursor), t, p);
  }

  lemma Fewer(s: Table, t: Table, p: Pos)
    requires s <= t && p in t && p !in s
    ensures |s| < |t|
  {
    assert s <= t - {p};
    SubsetSize(s, t - {p});
  }

  lemma {:induction false} SubsetSize(s: Table, t: Table)
    requires s <= t
    ensures |s| <= |t|
  {
    if s != {} {
      var p :| p in s;
      SubsetSize(s - {p}, t - {p});
    }
  }

  lemma {:induction false} PrefixOfWalk(ts: seq<Table>, ls: seq<int>, k: nat, n: nat)
    requires n <= k <= |ts| == |ls|
    ensures CursorAt(ts[..k], ls[..k], n) == CursorAt(ts, ls, n)
  {
    if n > 0 { PrefixOfWalk(ts, ls, k, n - 1); }
  }

  /** On a fixed table a walk finishes, after at most as many pages as there are tasks, or one if there are none. */
  lemma WalkFinishes(ts: seq<Table>, ls: seq<int>, t: Table) returns (n: nat)
    requires |ts| == |ls| && |ts| >= 1 && |ts| >= |t| && forall i :: 0 <= i < |ts| ==> ts[i] == t
    ensures 1 <= n <= |ts| && (n == 1 || n <= |t|) && Finished(ts[..n], ls[..n])
  {
    hide PageAt;
    n := 1;
    while CursorAt(ts, ls, n).Some?
      invariant 1 <= n <= |ts| && (n == 1 || n <= |t|)
      invariant forall k :: 0 < k < n ==> CursorAt(ts, ls, k).Some?
      decreases |ts| - n
    {
      forall k: nat | k <= n ensures CursorAt(ts[..n], ls[..n], k) == CursorAt(ts, ls, k) { PrefixOfWalk(ts, ls, n, k); }
      MorePagesNeedMoreTasks(ts[..n], ls[..n], t);
      n := n + 1;
    }
    forall k: nat | k <= n ensures CursorAt(ts[..n], ls[..n], k) == CursorAt(ts, ls, k) { PrefixOfWalk(ts, ls, n, k); }
  }
}
