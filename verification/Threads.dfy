/** Keyset pagination of the thread list (`apps/api/src/services/threads.ts`).

    A thread's place in the list is its key: priority score (absent until enrichment writes
    one), time of the last message, id. Ids are compared as the database orders them.
 */
module Threads {
  import opened Common

  datatype Key = Key(score: Option<int>, lastMessageAt: int, id: nat)

  datatype Row = Row(key: Key, category: nat, isTrashed: bool)

  // ---- The order of the list ----

  predicate HigherScore(a: Option<int>, b: Option<int>) {
    a.Some? && (b.None? || a.value > b.value)
  }

  /** `a` comes strictly before `b`: score descending with absent scores last, then the last
      message descending, then the id descending. */
  predicate Before(a: Key, b: Key) {
    HigherScore(a.score, b.score)
    || (a.score == b.score
        && (a.lastMessageAt > b.lastMessageAt || (a.lastMessageAt == b.lastMessageAt && a.id > b.id)))
  }

  lemma BeforeIsAnOrder(a: Key, b: Key, c: Key)
    ensures !Before(a, a)
    ensures Before(a, b) && Before(b, c) ==> Before(a, c)
    ensures a == b || Before(a, b) || Before(b, a)
  {}

  // ---- The filter ----

  /** The database filters `afterCursor` is written with. A comparison with an absent score
      does not hold. */
  datatype Filter =
    | ScoreIsNull | ScoreIs(score: int) | ScoreBelow(score: int)
    | LastIs(time: int) | LastBelow(time: int) | IdBelow(id: nat)
    | And(left: Filter, right: Filter) | Or(left: Filter, right: Filter)

  predicate Matches(f: Filter, k: Key) {
    match f
    case ScoreIsNull => k.score.None?
    case ScoreIs(score) => k.score == Some(score)
    case ScoreBelow(score) => k.score.Some? && k.score.value < score
    case LastIs(time) => k.lastMessageAt == time
    case LastBelow(time) => k.lastMessageAt < time
    case IdBelow(id) => k.id < id
    case And(left, right) => Matches(left, k) && Matches(right, k)
    case Or(left, right) => Matches(left, k) || Matches(right, k)
  }

  function TieBreak(cursor: Key): Filter {
    Or(LastBelow(cursor.lastMessageAt), And(LastIs(cursor.lastMessageAt), IdBelow(cursor.id)))
  }

  function AfterCursor(cursor: Key): Filter {
    if cursor.score.None? then And(ScoreIsNull, TieBreak(cursor))
    else
      Or(ScoreBelow(cursor.score.value),
         Or(And(ScoreIs(cursor.score.value), TieBreak(cursor)), ScoreIsNull))
  }

  lemma TieBreakIs(cursor: Key, k: Key)
    ensures Matches(TieBreak(cursor), k) <==>
      k.lastMessageAt < cursor.lastMessageAt || (k.lastMessageAt == cursor.lastMessageAt && k.id < cursor.id)
  {
    assert Matches(And(LastIs(cursor.lastMessageAt), IdBelow(cursor.id)), k) <==>
      k.lastMessageAt == cursor.lastMessageAt && k.id < cursor.id;
  }

  /** The filter selects exactly the rows strictly after the cursor. */
  lemma AfterCursorIsStrictlyAfter(cursor: Key, k: Key)
    ensures Matches(AfterCursor(cursor), k) <==> Before(cursor, k)
  {
    TieBreakIs(cursor, k);
    if cursor.score.Some? {
      var tied := And(ScoreIs(cursor.score.value), TieBreak(cursor));
      assert Matches(tied, k) <==> k.score == cursor.score && Matches(TieBreak(cursor), k);
      assert Matches(Or(tied, ScoreIsNull), k) <==> Matches(tied, k) || k.score.None?;
    }
  }

  // ---- One request ----

  predicate Sorted(rows: seq<Row>) {
    forall i, j | 0 <= i < j < |rows| :: Before(rows[i].key, rows[j].key)
  }

  function Insert(row: Row, rows: seq<Row>): seq<Row> {
    if rows == [] || Before(row.key, rows[0].key) then [row] + rows
    else [rows[0]] + Insert(row, rows[1..])
  }

  /** Which rows a request asks for; category `None` is the unfiltered list. */
  predicate Wanted(row: Row, category: Option<nat>, cursor: Option<Key>) {
    && (category.Some? ==> row.category == category.value)
    && !row.isTrashed
    && (cursor.Some? ==> Matches(AfterCursor(cursor.value), row.key))
  }

  /** The wanted rows of a table in list order. */
  function Query(table: seq<Row>, category: Option<nat>, cursor: Option<Key>): seq<Row> {
    if table == [] then []
    else
      var rest := Query(table[1..], category, cursor);
      if Wanted(table[0], category, cursor) then Insert(table[0], rest) else rest
  }

  datatype Page = Page(items: seq<Row>, nextCursor: Option<Key>)

  /** `listThreads`: one row more than the page says whether there is a next page. */
  function ListThreads(table: seq<Row>, category: Option<nat>, cursor: Option<Key>, limit: nat): Page {
    var found := Query(table, category, cursor);
    var rows := found[..if |found| < limit + 1 then |found| else limit + 1];
    var page := rows[..if |rows| < limit then |rows| else limit];
    Page(page, if |rows| > limit && page != [] then Some(page[|page| - 1].key) else None)
  }

  predicate DistinctIds(table: seq<Row>) {
    forall i, j | 0 <= i < j < |table| :: table[i].key.id != table[j].key.id
  }

  lemma {:induction false} InsertSorted(row: Row, rows: seq<Row>)
    requires Sorted(rows) && forall r | r in rows :: r.key != row.key
    ensures Sorted(Insert(row, rows)) && forall r :: r in Insert(row, rows) <==> r == row || r in rows
  {
    if rows != [] && !Before(row.key, rows[0].key) {
      InsertSorted(row, rows[1..]);
      var tail := Insert(row, rows[1..]);
      BeforeIsAnOrder(rows[0].key, row.key, row.key);
      assert rows[0] in rows;
      forall j | 0 <= j < |tail| ensures Before(rows[0].key, tail[j].key) {
        assert tail[j] in tail;
        if tail[j] != row {
          var k :| 0 <= k < |rows[1..]| && rows[1..][k] == tail[j];
          assert rows[k + 1] == tail[j];
        }
      }
    } else if rows != [] {
      forall j | 0 <= j < |rows| ensures Before(row.key, rows[j].key) {
        BeforeIsAnOrder(row.key, rows[0].key, rows[j].key);
      }
    }
  }

  /** A request's rows: those of the table that are not in the trash, of the category asked for
      and after the cursor, each once, in list order. */
  lemma {:induction false} QueryIs(table: seq<Row>, category: Option<nat>, cursor: Option<Key>)
    requires DistinctIds(table)
    ensures Sorted(Query(table, category, cursor))
    ensures forall r :: r in Query(table, category, cursor) <==>
      r in table && !r.isTrashed && (category.None? || r.category == category.value)
      && (cursor.None? || Before(cursor.value, r.key))
    ensures forall r :: r in Query(table, category, cursor) <==> r in table && Wanted(r, category, cursor)
  {
    forall r: Row ensures Wanted(r, category, cursor) <==>
      !r.isTrashed && (category.None? || r.category == category.value) && (cursor.None? || Before(cursor.value, r.key))
    {
      if cursor.Some? { AfterCursorIsStrictlyAfter(cursor.value, r.key); }
    }
    if table != [] {
      QueryIs(table[1..], category, cursor);
      var rest := Query(table[1..], category, cursor);
      forall r | r in rest ensures r.key != table[0].key {
        var k :| 0 <= k < |table[1..]| && table[1..][k] == r;
        assert table[k + 1] == r;
      }
      if Wanted(table[0], category, cursor) { InsertSorted(table[0], rest); }
      assert forall r :: r in table <==> r == table[0] || r in table[1..];
    }
  }

  // ---- Many requests, against a table that changes in between ----

  /** The pages of a run of requests: the i-th one sees the i-th table, and the run stops at
      the first page without a next cursor. */
  function Pages(tables: seq<seq<Row>>, category: Option<nat>, cursor: Option<Key>, limit: nat): seq<Page> {
    if tables == [] then []
    else
      var page := ListThreads(tables[0], category, cursor, limit);
      if page.nextCursor.None? then [page]
      else [page] + Pages(tables[1..], category, page.nextCursor, limit)
  }

  predicate Finished(pages: seq<Page>) {
    pages != [] && pages[|pages| - 1].nextCursor.None?
  }

  predicate Shows(page: Page, key: Key) {
    exists i :: 0 <= i < |page.items| && page.items[i].key == key
  }

  /** A row with this key is in the table, not in the trash, and of the category asked for. */
  predicate Present(table: seq<Row>, category: Option<nat>, key: Key) {
    exists i :: 0 <= i < |table| && table[i].key == key && !table[i].isTrashed
      && (category.None? || table[i].category == category.value)
  }

  /** How many times the pages show a key. */
  function Shown(items: seq<Row>, key: Key): nat {
    if items == [] then 0 else (if items[0].key == key then 1 else 0) + Shown(items[1..], key)
  }

  function AllItems(pages: seq<Page>): seq<Row> {
    if pages == [] then [] else pages[0].items + AllItems(pages[1..])
  }

  lemma {:induction false} ShownConcat(a: seq<Row>, b: seq<Row>, key: Key)
    ensures Shown(a + b, key) == Shown(a, key) + Shown(b, key)
  {
    if a == [] {
      assert a + b == b;
    } else {
      assert (a + b)[1..] == a[1..] + b;
      ShownConcat(a[1..], b, key);
    }
  }

  lemma {:induction false} ShownSorted(items: seq<Row>, key: Key)
    requires Sorted(items)
    ensures Shown(items, key) == if exists i :: 0 <= i < |items| && items[i].key == key then 1 else 0
  {
    if items != [] {
      ShownSorted(items[1..], key);
      assert forall i | 0 < i < |items| :: items[i] == items[1..][i - 1];
      if items[0].key == key {
        forall i | 0 <= i < |items[1..]| ensures items[1..][i].key != key {
          BeforeIsAnOrder(items[0].key, items[i + 1].key, key);
        }
      }
    }
  }

  /** A page shows exactly the keys after its cursor and not after its next cursor. */
  lemma PageRange(table: seq<Row>, category: Option<nat>, cursor: Option<Key>, limit: nat, key: Key)
    requires DistinctIds(table) && 1 <= limit && Present(table, category, key)
    ensures var page := ListThreads(table, category, cursor, limit);
      Shows(page, key) <==>
        (cursor.Some? ==> Before(cursor.value, key)) && (page.nextCursor.Some? ==> !Before(page.nextCursor.value, key))
    ensures Sorted(ListThreads(table, category, cursor, limit).items)
    ensures var next := ListThreads(table, category, cursor, limit).nextCursor;
      next.Some? && cursor.Some? ==> Before(cursor.value, next.value)
  {
    QueryIs(table, category, cursor);
    var found := Query(table, category, cursor);
    var page := ListThreads(table, category, cursor, limit);
    assert page.items == found[..if |found| < limit then |found| else limit];
    var i :| 0 <= i < |table| && table[i].key == key && !table[i].isTrashed
      && (category.None? || table[i].category == category.value);
    if cursor.Some? {
      AfterCursorIsStrictlyAfter(cursor.value, key);
      if page.nextCursor.Some? {
        assert page.items[|page.items| - 1] in found;
        AfterCursorIsStrictlyAfter(cursor.value, page.nextCursor.value);
      }
    }
    if cursor.Some? ==> Before(cursor.value, key) {
      assert table[i] in found;
      var j :| 0 <= j < |found| && found[j] == table[i];
      if page.nextCursor.Some? {
        BeforeIsAnOrder(page.nextCursor.value, key, key);
        BeforeIsAnOrder(key, page.nextCursor.value, key);
        if j < limit { assert page.items[j].key == key; }
      } else {
        assert page.items[j].key == key;
      }
      if Shows(page, key) {
        var k :| 0 <= k < |page.items| && page.items[k].key == key;
        BeforeIsAnOrder(found[k].key, key, key);
      }
    } else {
      forall k | 0 <= k < |page.items| ensures page.items[k].key != key {
        assert page.items[k] in found;
      }
    }
  }

  ghost predicate StaysPut(tables: seq<seq<Row>>, category: Option<nat>, key: Key) {
    forall t | t in tables :: DistinctIds(t) && Present(t, category, key)
  }

  lemma PagesSplit(page: Page, rest: seq<Page>)
    ensures AllItems([page] + rest) == page.items + AllItems(rest)
    ensures rest == [] ==> AllItems([page]) == page.items
    ensures Finished([page] + rest) <==> (if rest == [] then page.nextCursor.None? else Finished(rest))
  {
    var pages := [page] + rest;
    assert pages[1..] == rest;
    if rest == [] {
      assert pages == [page] && page.items + [] == page.items;
    } else {
      assert pages[|pages| - 1] == rest[|rest| - 1];
    }
  }

  lemma {:induction false} ShownFrom(tables: seq<seq<Row>>, category: Option<nat>, cursor: Option<Key>, limit: nat, key: Key)
    requires 1 <= limit && StaysPut(tables, category, key)
    ensures cursor.Some? && !Before(cursor.value, key) ==>
      Shown(AllItems(Pages(tables, category, cursor, limit)), key) == 0
    ensures (cursor.Some? ==> Before(cursor.value, key)) && Finished(Pages(tables, category, cursor, limit)) ==>
      Shown(AllItems(Pages(tables, category, cursor, limit)), key) == 1
    decreases |tables|
  {
    if tables != [] {
      assert tables[0] in tables;
      PageRange(tables[0], category, cursor, limit, key);
      var page := ListThreads(tables[0], category, cursor, limit);
      ShownSorted(page.items, key);
      var pages := Pages(tables, category, cursor, limit);
      if page.nextCursor.None? {
        PagesSplit(page, []);
      } else {
        var rest := Pages(tables[1..], category, page.nextCursor, limit);
        PagesSplit(page, rest);
        ShownFrom(tables[1..], category, page.nextCursor, limit, key);
        ShownConcat(page.items, AllItems(rest), key);
        if cursor.Some? { BeforeIsAnOrder(cursor.value, page.nextCursor.value, key); }
      }
    }
  }

  /** For any limit and whatever happens to other rows between requests: a listed row whose
      key never changes is shown exactly once by a finished run. */
  lemma ShownExactlyOnce(tables: seq<seq<Row>>, category: Option<nat>, limit: nat, key: Key)
    requires 1 <= limit && StaysPut(tables, category, key)
    requires Finished(Pages(tables, category, None, limit))
    ensures Shown(AllItems(Pages(tables, category, None, limit)), key) == 1
  {
    ShownFrom(tables, category, None, limit, key);
  }

  // ---- Static data ----

  lemma {:induction false} SortedUnique(a: seq<Row>, b: seq<Row>)
    requires Sorted(a) && Sorted(b) && forall r :: r in a <==> r in b
    ensures a == b
  {
    assert b == [] || b[0] in b;
    if a != [] {
      assert a[0] in b && b != [] && b[0] in a;
      var i :| 0 <= i < |b| && b[i] == a[0];
      var j :| 0 <= j < |a| && a[j] == b[0];
      BeforeIsAnOrder(a[0].key, b[0].key, a[0].key);
      assert a[0] == b[0];
      forall r ensures r in a[1..] <==> r in b[1..] {
        InTail(a, r);
        InTail(b, r);
      }
      SortedUnique(a[1..], b[1..]);
    }
  }

  lemma InTail(a: seq<Row>, r: Row)
    requires Sorted(a) && a != []
    ensures r in a[1..] <==> r in a && r != a[0]
  {
    if r in a[1..] {
      var k :| 0 <= k < |a[1..]| && a[1..][k] == r;
      assert a[k + 1] == r;
      BeforeIsAnOrder(a[0].key, r.key, r.key);
    }
    if r in a && r != a[0] {
      var k :| 0 <= k < |a| && a[k] == r;
      assert a[1..][k - 1] == r;
    }
  }

  /** The next request finds exactly what the page before left over. */
  lemma NextQuery(table: seq<Row>, category: Option<nat>, cursor: Option<Key>, n: nat)
    requires DistinctIds(table) && 1 <= n <= |Query(table, category, cursor)|
    ensures Query(table, category, Some(Query(table, category, cursor)[n - 1].key)) == Query(table, category, cursor)[n..]
  {
    var found := Query(table, category, cursor);
    var last := found[n - 1].key;
    var after := Query(table, category, Some(last));
    QueryIs(table, category, cursor);
    QueryIs(table, category, Some(last));
    forall r ensures r in after <==> r in found[n..] {
      AfterCursorIsStrictlyAfter(last, r.key);
      if r in after {
        if cursor.Some? {
          AfterCursorIsStrictlyAfter(cursor.value, r.key);
          assert found[n - 1] in found;
          AfterCursorIsStrictlyAfter(cursor.value, last);
          BeforeIsAnOrder(cursor.value, last, r.key);
        }
        assert r in found;
        var k :| 0 <= k < |found| && found[k] == r;
        BeforeIsAnOrder(last, found[k].key, last);
        assert k >= n;
        assert found[n..][k - n] == r;
      }
      if r in found[n..] {
        var k :| 0 <= k < |found[n..]| && found[n..][k] == r;
        assert found[n + k] == r && found[n + k] in found;
      }
    }
    SortedUnique(after, found[n..]);
  }

  function Copies(table: seq<Row>, n: nat): seq<seq<Row>> {
    if n == 0 then [] else [table] + Copies(table, n - 1)
  }

  /** On a table that does not change, the pages of a run are finished after as many requests
      as there are rows left, and put together they are the whole sorted list. */
  lemma {:induction false} StaticPages(table: seq<Row>, category: Option<nat>, cursor: Option<Key>, limit: nat, n: nat)
    requires DistinctIds(table) && 1 <= limit && |Query(table, category, cursor)| < n
    ensures Finished(Pages(Copies(table, n), category, cursor, limit))
    ensures AllItems(Pages(Copies(table, n), category, cursor, limit)) == Query(table, category, cursor)
    decreases n
  {
    var found := Query(table, category, cursor);
    var page := ListThreads(table, category, cursor, limit);
    OnePage(table, category, cursor, limit);
    PagesOfCopies(table, category, cursor, limit, n);
    if |found| <= limit {
      PagesSplit(page, []);
    } else {
      NextQuery(table, category, cursor, limit);
      StaticPages(table, category, page.nextCursor, limit, n - 1);
      StaticStep(page, Pages(Copies(table, n - 1), category, page.nextCursor, limit), found, limit);
    }
  }

  lemma StaticStep(page: Page, rest: seq<Page>, found: seq<Row>, limit: nat)
    requires limit <= |found| && page.items == found[..limit]
    requires Finished(rest) && AllItems(rest) == found[limit..]
    ensures Finished([page] + rest) && AllItems([page] + rest) == found
  {
    PagesSplit(page, rest);
    assert found[..limit] + found[limit..] == found;
  }

  lemma OnePage(table: seq<Row>, category: Option<nat>, cursor: Option<Key>, limit: nat)
    requires 1 <= limit
    ensures var found, page := Query(table, category, cursor), ListThreads(table, category, cursor, limit);
      if |found| <= limit then page == Page(found, None) else page == Page(found[..limit], Some(found[limit - 1].key))
  {}

  lemma PagesOfCopies(table: seq<Row>, category: Option<nat>, cursor: Option<Key>, limit: nat, n: nat)
    requires 1 <= n
    ensures var page := ListThreads(table, category, cursor, limit);
      Pages(Copies(table, n), category, cursor, limit) ==
        if page.nextCursor.None? then [page]
        else [page] + Pages(Copies(table, n - 1), category, page.nextCursor, limit)
  {
    assert Copies(table, n)[0] == table && Copies(table, n)[1..] == Copies(table, n - 1);
  }

  /** A run over data that stays ends and lists exactly the rows that are not in the trash and
      of the category asked for: nothing lost, nothing repeated. */
  lemma StaticRun(table: seq<Row>, category: Option<nat>, limit: nat)
    requires DistinctIds(table) && 1 <= limit
    ensures var n := |Query(table, category, None)| + 1; var pages := Pages(Copies(table, n), category, None, limit);
      Finished(pages) && Sorted(AllItems(pages))
      && forall r :: r in AllItems(pages) <==>
           r in table && !r.isTrashed && (category.None? || r.category == category.value)
  {
    StaticPages(table, category, None, limit, |Query(table, category, None)| + 1);
    QueryIs(table, category, None);
  }
}
