// Keyset pagination (internal/store/pagination.go) and the loops that drain it.

module Pagination {
  import opened Prelude

  const DEFAULT_LIST_PAGE_SIZE := 50
  const MAX_LIST_PAGE_SIZE := 100

  datatype Entity<+T> = Entity(id: Uuid, value: T)

  type Table<T> = map<Uuid, T>

  function NormalizePageSize(size: int): (limit: nat)
    ensures 1 <= limit <= MAX_LIST_PAGE_SIZE
    ensures 1 <= size <= MAX_LIST_PAGE_SIZE ==> limit == size
    ensures size > MAX_LIST_PAGE_SIZE ==> limit == MAX_LIST_PAGE_SIZE
    ensures size <= 0 ==> limit == 50
    ensures limit <= 100
  {
    if size <= 0 then DEFAULT_LIST_PAGE_SIZE else if size > MAX_LIST_PAGE_SIZE then MAX_LIST_PAGE_SIZE else size
  }

  ghost predicate Increasing<T>(items: seq<Entity<T>>) {
    forall i, j :: 0 <= i < j < |items| ==> items[i].id < items[j].id
  }

  ghost predicate HasId<T>(items: seq<Entity<T>>, id: Uuid) {
    exists i :: 0 <= i < |items| && items[i].id == id
  }

  predicate Beyond(cursor: Option<Uuid>, id: Uuid) {
    cursor.None? || cursor.value < id
  }

  predicate Matches<T>(table: Table<T>, keep: T -> bool, id: Uuid) {
    id in table && keep(table[id])
  }

  // Rows of the table, with their current values.
  ghost predicate FromTable<T>(table: Table<T>, keep: T -> bool, items: seq<Entity<T>>) {
    forall i :: 0 <= i < |items| ==> Matches(table, keep, items[i].id) && items[i].value == table[items[i].id]
  }

  // The first rows in id order beyond the cursor, and where to go on: no matching row is skipped,
  // there is a next cursor exactly when rows remain, and it is the last id returned.
  ghost predicate IsPage<T>(table: Table<T>, keep: T -> bool, cursor: Option<Uuid>, limit: nat,
                            items: seq<Entity<T>>, next: Option<Uuid>) {
    && Increasing(items) && FromTable(table, keep, items) && |items| <= limit
    && (forall i :: 0 <= i < |items| ==> Beyond(cursor, items[i].id))
    && (forall id :: Matches(table, keep, id) && Beyond(cursor, id) && !HasId(items, id) ==>
        next.Some? && next.value < id)
    && (next.Some? ==>
        && items != [] && |items| == limit && next.value == items[|items| - 1].id
        && exists id :: Matches(table, keep, id) && next.value < id)
  }

  lemma {:induction false} Least(s: set<Uuid>) returns (m: Uuid)
    requires s != {}
    ensures m in s && forall x :: x in s ==> m <= x
    decreases s
  {
    m :| m in s;
    var rest := s - {m};
    assert forall x :: x in s ==> x == m || x in rest;
    if rest != {} {
      var other := Least(rest);
      if other < m { m := other; }
    }
  }

  lemma LeastExists(s: set<Uuid>)
    requires s != {}
    ensures exists m :: m in s && forall x :: x in s ==> m <= x
  {
    var m := Least(s);
  }

  function Smallest(s: set<Uuid>): (m: Uuid)
    requires s != {}
    ensures m in s && forall x :: x in s ==> m <= x
  {
    LeastExists(s);
    var m: Uuid :| m in s && forall x :: x in s ==> m <= x;
    m
  }

  function Candidates<T>(table: Table<T>, keep: T -> bool, cursor: Option<Uuid>): set<Uuid> {
    set id | id in table && Matches(table, keep, id) && Beyond(cursor, id)
  }

  // SELECT ... WHERE keep AND id > cursor ORDER BY id ASC LIMIT limit, on the rows of one moment.
  function Select<T>(table: Table<T>, keep: T -> bool, cursor: Option<Uuid>, limit: nat): seq<Entity<T>>
    decreases limit
  {
    var hits := Candidates(table, keep, cursor);
    if hits == {} || limit == 0 then []
    else
      var first := Smallest(hits);
      [Entity(first, table[first])] + Select(table, keep, Some(first), limit - 1)
  }

  ghost predicate IsSelection<T>(table: Table<T>, keep: T -> bool, cursor: Option<Uuid>, limit: nat, items: seq<Entity<T>>) {
    && Increasing(items) && FromTable(table, keep, items) && |items| <= limit
    && (forall i :: 0 <= i < |items| ==> Beyond(cursor, items[i].id))
    && (forall id :: Matches(table, keep, id) && Beyond(cursor, id) && !HasId(items, id) ==>
        |items| == limit && forall i :: 0 <= i < |items| ==> items[i].id < id)
  }

  lemma {:induction false} SelectCorrect<T>(table: Table<T>, keep: T -> bool, cursor: Option<Uuid>, limit: nat)
    ensures IsSelection(table, keep, cursor, limit, Select(table, keep, cursor, limit))
    decreases limit
  {
    var hits := Candidates(table, keep, cursor);
    assert forall id :: Matches(table, keep, id) && Beyond(cursor, id) ==> id in hits;
    if hits != {} && limit > 0 {
      var first := Smallest(hits);
      SelectCorrect(table, keep, Some(first), limit - 1);
      SelectStep(table, keep, cursor, limit, hits, first, Select(table, keep, Some(first), limit - 1));
    }
  }

  lemma SelectStep<T>(table: Table<T>, keep: T -> bool, cursor: Option<Uuid>, limit: nat,
                      hits: set<Uuid>, first: Uuid, rest: seq<Entity<T>>)
    requires hits == Candidates(table, keep, cursor)
    requires first in hits && forall x :: x in hits ==> first <= x
    requires limit > 0 && IsSelection(table, keep, Some(first), limit - 1, rest)
    ensures IsSelection(table, keep, cursor, limit, [Entity(first, table[first])] + rest)
  {
    var items := [Entity(first, table[first])] + rest;
    forall i | 0 <= i < |items|
      ensures Matches(table, keep, items[i].id) && items[i].value == table[items[i].id] && Beyond(cursor, items[i].id)
      ensures forall j :: i < j < |items| ==> items[i].id < items[j].id
    {
      assert forall j :: 1 <= j < |items| ==> items[j] == rest[j - 1];
    }
    forall id | Matches(table, keep, id) && Beyond(cursor, id) && !HasId(items, id)
      ensures |items| == limit && forall i :: 0 <= i < |items| ==> items[i].id < id
    {
      SelectStepOmits(items, first, rest, id);
      assert id in hits;
    }
  }

  lemma SelectStepOmits<T>(items: seq<Entity<T>>, first: Uuid, rest: seq<Entity<T>>, id: Uuid)
    requires items != [] && items[0].id == first && items[1..] == rest && !HasId(items, id)
    ensures id != first && !HasId(rest, id)
    ensures forall i :: 1 <= i < |items| ==> items[i] == rest[i - 1]
  {
    assert items[0].id != id;
    assert forall i :: 0 <= i < |rest| ==> items[i + 1].id == rest[i].id;
  }

  // The page a query for one row more than the limit yields.
  function PageOf<T>(table: Table<T>, keep: T -> bool, cursor: Option<Uuid>, limit: nat): (seq<Entity<T>>, Option<Uuid>)
    requires limit > 0
  {
    var rows := Select(table, keep, cursor, limit + 1);
    if |rows| > limit then (rows[..limit], Some(rows[limit - 1].id)) else (rows, None)
  }

  lemma PageOfIsPage<T>(table: Table<T>, keep: T -> bool, cursor: Option<Uuid>, limit: nat)
    requires limit > 0
    ensures IsPage(table, keep, cursor, limit, PageOf(table, keep, cursor, limit).0, PageOf(table, keep, cursor, limit).1)
  {
    SelectCorrect(table, keep, cursor, limit + 1);
    TakePage(table, keep, cursor, limit, Select(table, keep, cursor, limit + 1));
  }

  lemma TakePage<T>(table: Table<T>, keep: T -> bool, cursor: Option<Uuid>, limit: nat, rows: seq<Entity<T>>)
    requires limit > 0 && IsSelection(table, keep, cursor, limit + 1, rows)
    ensures |rows| <= limit ==> IsPage(table, keep, cursor, limit, rows, None)
    ensures |rows| > limit ==> IsPage(table, keep, cursor, limit, rows[..limit], Some(rows[limit - 1].id))
  {
    if |rows| > limit {
      assert Matches(table, keep, rows[limit].id);
      forall id | Matches(table, keep, id) && Beyond(cursor, id) && !HasId(rows[..limit], id)
        ensures rows[limit - 1].id < id
      {
        assert forall i :: 0 <= i < limit ==> rows[..limit][i].id == rows[i].id;
      }
    }
  }

  method ListEntities<T>(table: Table<T>, keep: T -> bool, cursor: Option<Uuid>, pageSize: int)
    returns (items: seq<Entity<T>>, nextCursor: Option<Uuid>)
    ensures IsPage(table, keep, cursor, NormalizePageSize(pageSize), items, nextCursor)
  {
    var limit := NormalizePageSize(pageSize);
    var rows := Select(table, keep, cursor, limit + 1);
    SelectCorrect(table, keep, cursor, limit + 1);
    items := [];
    nextCursor := None;
    var lastID: Uuid := 0;
    var hasMore := false;
    for row := 0 to |rows|
      invariant row == |items| <= limit && items == rows[..row]
      invariant row > 0 ==> lastID == rows[row - 1].id
      invariant !hasMore
    {
      if |items| == limit {
        hasMore := true;
        break;
      }
      items := items + [rows[row]];
      lastID := rows[row].id;
    }
    if hasMore {
      nextCursor := Some(lastID);
    }
    assert rows[..|rows|] == rows;
    assert (items, nextCursor) == PageOf(table, keep, cursor, limit);
    PageOfIsPage(table, keep, cursor, limit);
  }

  ghost function Ids<T>(items: seq<Entity<T>>): set<Uuid> {
    set i | 0 <= i < |items| :: items[i].id
  }

  lemma IdsLast<T>(items: seq<Entity<T>>)
    requires Increasing(items) && items != []
    ensures var front, last := items[..|items| - 1], items[|items| - 1].id;
      Increasing(front) && Ids(items) == Ids(front) + {last} && last !in Ids(front)
  {}

  lemma {:induction false} IdsCount<T>(items: seq<Entity<T>>)
    requires Increasing(items)
    ensures |Ids(items)| == |items|
  {
    if items != [] {
      var front := items[..|items| - 1];
      IdsCount(front);
      IdsLast(items);
    }
  }

  // A page that lacks an id of another ends before that id, and the other has all of its ids.
  lemma BeforeMissing<T>(table: Table<T>, keep: T -> bool, cursor: Option<Uuid>, limit: nat,
                         a: seq<Entity<T>>, nextA: Option<Uuid>, b: seq<Entity<T>>, nextB: Option<Uuid>, i: nat)
    requires IsPage(table, keep, cursor, limit, a, nextA) && IsPage(table, keep, cursor, limit, b, nextB)
    requires i < |a| && !HasId(b, a[i].id)
    ensures nextB.Some? && |b| == limit && a[i].id !in Ids(b) && Ids(b) + {a[i].id} <= Ids(a)
  {
    assert Matches(table, keep, a[i].id);
    forall j | 0 <= j < |b| ensures b[j].id in Ids(a) - {a[i].id} {
      assert b[j].id <= nextB.value < a[i].id;
      assert HasId(a, b[j].id);
    }
  }

  lemma PageIncluded<T>(table: Table<T>, keep: T -> bool, cursor: Option<Uuid>, limit: nat,
                        a: seq<Entity<T>>, nextA: Option<Uuid>, b: seq<Entity<T>>, nextB: Option<Uuid>)
    requires IsPage(table, keep, cursor, limit, a, nextA) && IsPage(table, keep, cursor, limit, b, nextB)
    ensures Ids(a) <= Ids(b)
  {
    forall i | 0 <= i < |a| ensures HasId(b, a[i].id) {
      if !HasId(b, a[i].id) {
        BeforeMissing(table, keep, cursor, limit, a, nextA, b, nextB, i);
        IdsCount(a);
        IdsCount(b);
        SubsetSize(Ids(b) + {a[i].id}, Ids(a));
        assert false;
      }
    }
  }

  // A cursor and a limit determine the page.
  lemma PageIsUnique<T>(table: Table<T>, keep: T -> bool, cursor: Option<Uuid>, limit: nat,
                        a: seq<Entity<T>>, nextA: Option<Uuid>, b: seq<Entity<T>>, nextB: Option<Uuid>)
    requires IsPage(table, keep, cursor, limit, a, nextA) && IsPage(table, keep, cursor, limit, b, nextB)
    ensures a == b && nextA == nextB
  {
    PageIncluded(table, keep, cursor, limit, a, nextA, b, nextB);
    PageIncluded(table, keep, cursor, limit, b, nextB, a, nextA);
    forall e ensures e in a <==> e in b {
      if e in a { SameIdSameItem(table, keep, a, b, e); }
      if e in b { SameIdSameItem(table, keep, b, a, e); }
    }
    IncreasingUnique(a, b);
    if nextA.Some? {
      var id :| Matches(table, keep, id) && nextA.value < id;
      assert Beyond(cursor, id) && !HasId(b, id);
    }
    if nextB.Some? {
      var id :| Matches(table, keep, id) && nextB.value < id;
      assert Beyond(cursor, id) && !HasId(a, id);
    }
  }

  lemma SameIdSameItem<T>(table: Table<T>, keep: T -> bool, a: seq<Entity<T>>, b: seq<Entity<T>>, e: Entity<T>)
    requires FromTable(table, keep, a) && FromTable(table, keep, b) && Ids(a) <= Ids(b) && e in a
    ensures e in b
  {
    assert e.id in Ids(a);
    var j :| 0 <= j < |b| && b[j].id == e.id;
  }

  // ---- draining

  // views(p) is the table as the p-th page query sees it; None is a query that fails.
  type Views<T> = nat -> Option<Table<T>>

  ghost predicate MatchesThroughout<T>(views: Views<T>, keep: T -> bool, pages: nat, id: Uuid) {
    forall p :: 0 <= p < pages ==> views(p).Some? && Matches(views(p).value, keep, id)
  }

  ghost predicate SeenOnSomePage<T>(views: Views<T>, keep: T -> bool, pages: nat, item: Entity<T>) {
    exists p :: 0 <= p < pages && views(p).Some? && FromTable(views(p).value, keep, [item])
  }

  // What a drain guarantees while rows come and go between its page queries.
  ghost predicate IsDrain<T>(views: Views<T>, keep: T -> bool, pages: nat, items: seq<Entity<T>>) {
    && Increasing(items)
    && (forall i :: 0 <= i < |items| ==> SeenOnSomePage(views, keep, pages, items[i]))
    && (forall id :: MatchesThroughout(views, keep, pages, id) ==> HasId(items, id))
  }

  // The same as far as the cursor.
  ghost predicate DrainedTo<T>(views: Views<T>, keep: T -> bool, pages: nat, cursor: Option<Uuid>, items: seq<Entity<T>>) {
    && Increasing(items)
    && (forall i :: 0 <= i < |items| ==> SeenOnSomePage(views, keep, pages, items[i]))
    && (cursor.None? ==> items == [])
    && (cursor.Some? ==> items != [] && cursor.value == items[|items| - 1].id)
    && (forall id :: MatchesThroughout(views, keep, pages, id) && !Beyond(cursor, id) ==> HasId(items, id))
  }

  lemma NextIsFurther<T>(table: Table<T>, keep: T -> bool, cursor: Option<Uuid>, limit: nat, page: seq<Entity<T>>,
                         next: Option<Uuid>)
    requires IsPage(table, keep, cursor, limit, page, next)
    ensures next.Some? ==> Beyond(cursor, next.value)
  {}

  method Drain<T>(views: Views<T>, keep: T -> bool, pageSize: int)
    returns (r: Option<seq<Entity<T>>>, pages: nat)
    ensures pages > 0
    ensures r.Some? ==> IsDrain(views, keep, pages, r.value)
    ensures r.Some? ==> forall p :: 0 <= p < pages ==> views(p).Some?
    ensures r.None? ==> views(pages - 1).None?
  {
    var items: seq<Entity<T>> := [];
    var cursor := None;
    pages := 0;
    while true
      invariant DrainedTo(views, keep, pages, cursor, items)
      invariant forall p :: 0 <= p < pages ==> views(p).Some?
      decreases if cursor.None? then UUID_LIMIT else UUID_LIMIT - 1 - cursor.value
    {
      var table := views(pages);
      pages := pages + 1;
      if table.None? {
        return None, pages;
      }
      var page, next := ListEntities(table.value, keep, cursor, pageSize);
      DrainStep(views, keep, pages, cursor, items, page, next, NormalizePageSize(pageSize));
      NextIsFurther(table.value, keep, cursor, NormalizePageSize(pageSize), page, next);
      items := items + page;
      if next.None? {
        return Some(items), pages;
      }
      cursor := next;
    }
  }

  lemma HasIdAppend<T>(a: seq<Entity<T>>, b: seq<Entity<T>>, id: Uuid)
    ensures HasId(a + b, id) <==> HasId(a, id) || HasId(b, id)
  {
    if HasId(a, id) {
      var i :| 0 <= i < |a| && a[i].id == id;
      assert (a + b)[i].id == id;
    }
    if HasId(b, id) {
      var i :| 0 <= i < |b| && b[i].id == id;
      assert (a + b)[|a| + i].id == id;
    }
  }

  lemma DrainStepSeen<T>(views: Views<T>, keep: T -> bool, pages: nat, items: seq<Entity<T>>, page: seq<Entity<T>>)
    requires pages > 0 && views(pages - 1).Some? && FromTable(views(pages - 1).value, keep, page)
    requires forall i :: 0 <= i < |items| ==> SeenOnSomePage(views, keep, pages - 1, items[i])
    ensures forall i :: 0 <= i < |items + page| ==> SeenOnSomePage(views, keep, pages, (items + page)[i])
  {
    forall i | 0 <= i < |items + page| ensures SeenOnSomePage(views, keep, pages, (items + page)[i]) {
      if i < |items| {
        assert SeenOnSomePage(views, keep, pages - 1, items[i]);
      } else {
        assert FromTable(views(pages - 1).value, keep, [page[i - |items|]]);
      }
    }
  }

  lemma DrainStep<T>(views: Views<T>, keep: T -> bool, pages: nat, cursor: Option<Uuid>,
                     items: seq<Entity<T>>, page: seq<Entity<T>>, next: Option<Uuid>, limit: nat)
    requires pages > 0 && views(pages - 1).Some?
    requires IsPage(views(pages - 1).value, keep, cursor, limit, page, next)
    requires DrainedTo(views, keep, pages - 1, cursor, items)
    ensures next.Some? ==> DrainedTo(views, keep, pages, next, items + page)
    ensures next.None? ==> IsDrain(views, keep, pages, items + page)
  {
    DrainStepSeen(views, keep, pages, items, page);
    forall id | MatchesThroughout(views, keep, pages, id) && (next.None? || !Beyond(next, id))
      ensures HasId(items + page, id)
    {
      HasIdAppend(items, page, id);
      if Beyond(cursor, id) {
        assert HasId(page, id);
      } else {
        assert MatchesThroughout(views, keep, pages - 1, id);
      }
    }
  }

  // ---- an unchanged table

  lemma {:induction false} IncreasingUnique<T>(a: seq<Entity<T>>, b: seq<Entity<T>>)
    requires Increasing(a) && Increasing(b)
    requires forall e :: e in a <==> e in b
    ensures a == b
  {
    if a != [] { assert a[0] in b; }
    if b != [] { assert b[0] in a; }
    if a != [] && b != [] {
      assert a[0] == b[0] by {
        assert a[0] in b && b[0] in a;
      }
      forall e ensures e in a[1..] <==> e in b[1..] {
        assert e in a <==> e in b;
        assert a == [a[0]] + a[1..] && b == [b[0]] + b[1..];
      }
      IncreasingUnique(a[1..], b[1..]);
      assert a == [a[0]] + a[1..] && b == [b[0]] + b[1..];
    }
  }

  // On a table that does not change, every drain returns exactly the matching rows ...
  lemma StableDrain<T>(table: Table<T>, views: Views<T>, keep: T -> bool, pages: nat, items: seq<Entity<T>>)
    requires IsDrain(views, keep, pages, items)
    requires forall p :: 0 <= p < pages ==> views(p) == Some(table)
    ensures forall e :: e in items <==> Matches(table, keep, e.id) && e.value == table[e.id]
  {
    forall e: Entity<T> | Matches(table, keep, e.id) && e.value == table[e.id] ensures e in items {
      assert MatchesThroughout(views, keep, pages, e.id);
      assert HasId(items, e.id);
      var i :| 0 <= i < |items| && items[i].id == e.id;
      StableItem(table, views, keep, pages, items[i]);
    }
    forall e | e in items ensures Matches(table, keep, e.id) && e.value == table[e.id] {
      StableItem(table, views, keep, pages, e);
    }
  }

  lemma StableItem<T>(table: Table<T>, views: Views<T>, keep: T -> bool, pages: nat, e: Entity<T>)
    requires SeenOnSomePage(views, keep, pages, e)
    requires forall p :: 0 <= p < pages ==> views(p) == Some(table)
    ensures Matches(table, keep, e.id) && e.value == table[e.id]
  {
    var p :| 0 <= p < pages && views(p).Some? && FromTable(views(p).value, keep, [e]);
    assert [e][0] == e;
  }

  // ... so the page size does not show in the result.
  lemma PageSizeDoesNotMatter<T>(table: Table<T>, views: Views<T>, keep: T -> bool,
                                 pagesA: nat, a: seq<Entity<T>>, pagesB: nat, b: seq<Entity<T>>)
    requires IsDrain(views, keep, pagesA, a) && IsDrain(views, keep, pagesB, b)
    requires forall p :: 0 <= p < pagesA || 0 <= p < pagesB ==> views(p) == Some(table)
    ensures a == b
  {
    StableDrain(table, views, keep, pagesA, a);
    StableDrain(table, views, keep, pagesB, b);
    IncreasingUnique(a, b);
  }
}
