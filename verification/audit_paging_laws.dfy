/**
 Paging shows every record once: the per-app slices add up to one global sort, walking older pages of
 a growing log neither repeats nor skips, on a fixed log it ends with the whole search result, and a
 newer page undoes an older one.
 */
module AuditPagingLaws {
  import opened Options
  import opened Sequences
  import opened AuditPaging

  // ---------------------------------------------------------------------- one sort, many slices

  function Elements(s: seq<Row>): set<Row> {
    set r <- s
  }

  lemma {:induction false} DistinctCount(direction: Direction, s: seq<Row>)
    requires InOrder(direction, s)
    ensures |Elements(s)| == |s|
  {
    if s != [] {
      var (init, last) := (s[..|s| - 1], s[|s| - 1]);
      DistinctCount(direction, init);
      assert s == init + [last];
      forall r | r in init ensures r != last {
        var i :| 0 <= i < |init| && init[i] == r;
        assert Before(direction, s[i], s[|s| - 1]);
      }
      assert Elements(s) == Elements(init) + {last};
    }
  }

  /** Fewer than `n` rows of a slice come before one of the first `n` of everything. */
  lemma FewBefore(direction: Direction, all: seq<Row>, i: nat, ahead: seq<Row>)
    requires InOrder(direction, all) && i < |all| && InOrder(direction, ahead)
    requires forall r <- ahead :: r in all && Before(direction, r, all[i])
    ensures |ahead| <= i
  {
    forall r | r in ahead ensures r in all[..i] {
      var j :| 0 <= j < |all| && all[j] == r;
      assert j >= i ==> all[j] == all[i] || Before(direction, all[i], all[j]);
    }
    DistinctCount(direction, ahead);
    DistinctCount(direction, all[..i]);
    SubsetSize(Elements(ahead), Elements(all[..i]));
  }

  /** What makes the first `n` of everything makes the first `n` of its slice. */
  lemma FirstOfSlice(direction: Direction, rows: set<Row>, slice: set<Row>, i: nat, n: nat)
    requires Keyed(rows) && slice <= rows && Keyed(slice) && i < |Ordered(direction, rows)| && i < n
    requires Ordered(direction, rows)[i] in slice
    ensures Ordered(direction, rows)[i] in Take(Ordered(direction, slice), n)
  {
    hide Ordered, IsNewer;
    OrderedMeans(direction, rows);
    OrderedMeans(direction, slice);
    var (all, own) := (Ordered(direction, rows), Ordered(direction, slice));
    var j :| 0 <= j < |own| && own[j] == all[i];
    var ahead := own[..j];
    forall r | r in ahead ensures r in all && Before(direction, r, all[i]) {
      var k :| 0 <= k < j && own[k] == r;
      assert own[k] in slice;
    }
    FewBefore(direction, all, i, ahead);
    assert Take(own, n)[j] == own[j];
  }

  ghost predicate Within(a: seq<Row>, b: seq<Row>) {
    forall r <- a :: r in b
  }

  lemma SameHead(direction: Direction, all: seq<Row>, fewer: seq<Row>, n: nat)
    requires InOrder(direction, all) && InOrder(direction, fewer) && n > 0 && all != []
    requires Within(fewer, all) && Within(Take(all, n), fewer)
    ensures fewer != [] && fewer[0] == all[0]
  {
    assert Take(all, n)[0] in fewer;
    assert fewer[0] in fewer;
    FirstIsFirst(direction, all, fewer);
  }

  lemma SameTail(direction: Direction, all: seq<Row>, fewer: seq<Row>, n: nat)
    requires InOrder(direction, all) && InOrder(direction, fewer) && n > 0 && all != [] && fewer != [] && fewer[0] == all[0]
    requires Within(fewer, all) && Within(Take(all, n), fewer)
    ensures Within(fewer[1..], all[1..]) && Within(Take(all[1..], n - 1), fewer[1..])
  {
    forall r | r in fewer[1..] ensures r in all[1..] {
      RestWithoutFirst(direction, all, r);
      RestWithoutFirst(direction, fewer, r);
    }
    forall r | r in Take(all[1..], n - 1) ensures r in fewer[1..] {
      TakeRest(all, n, r);
      RestWithoutFirst(direction, all, r);
      RestWithoutFirst(direction, fewer, r);
    }
  }

  lemma TakeOne(s: seq<Row>, n: nat)
    requires s != [] && n > 0
    ensures Take(s, n) == [s[0]] + Take(s[1..], n - 1)
  {
  }

  lemma RestInOrder(direction: Direction, s: seq<Row>)
    requires InOrder(direction, s) && s != []
    ensures InOrder(direction, s[1..])
  {
  }

  lemma WithinNothing(a: seq<Row>, b: seq<Row>)
    ensures Within(a, b) && b == [] ==> a == []
  {
    assert a == [] || a[0] in a;
  }

  /** Leaving rows out behind the first `n` does not change the first `n`. */
  lemma {:induction false} SameStart(direction: Direction, all: seq<Row>, fewer: seq<Row>, n: nat)
    requires InOrder(direction, all) && InOrder(direction, fewer)
    requires Within(fewer, all) && Within(Take(all, n), fewer)
    ensures Take(fewer, n) == Take(all, n)
    decreases n
  {
    if all == [] {
      WithinNothing(fewer, all);
    } else if n > 0 {
      SameHead(direction, all, fewer, n);
      SameTail(direction, all, fewer, n);
      RestInOrder(direction, all);
      RestInOrder(direction, fewer);
      SameStart(direction, all[1..], fewer[1..], n - 1);
      TakeOne(all, n);
      TakeOne(fewer, n);
    }
  }

  lemma TakeRest(s: seq<Row>, n: nat, r: Row)
    requires s != [] && n > 0 && r in Take(s[1..], n - 1)
    ensures r in Take(s, n) && r in s[1..]
  {
    var i :| 0 <= i < |Take(s[1..], n - 1)| && Take(s[1..], n - 1)[i] == r;
    assert Take(s, n)[i + 1] == r && s[1..][i] == r;
  }

  lemma PageSliceWithin(table: set<Row>, o: Search, app: string)
    requires Keyed(table) && Keyed(SliceRows(table, o, app))
    ensures forall r <- PageSlice(table, o, app) :: r in SliceRows(table, o, app)
  {
    OrderedMeans(Reading(o.cursor), SliceRows(table, o, app));
  }

  /** The union of each app's newest rows contains the newest overall: the lateral form is one global sort. */
  lemma SlicesAreOneSort(apps: set<string>, table: set<Row>, o: Search)
    requires Keyed(table)
    ensures PageQuery(apps, table, o) == GlobalQuery(apps, table, o)
  {
    var direction := Reading(o.cursor);
    var rows := set r <- Wanted(apps, table, o.scope, o.filters) | BeyondCursor(o.cursor, r);
    var slices := Slices(apps, table, o);
    SubsetKeyed(table, rows);
    SubsetKeyed(table, slices);
    OrderedMeans(direction, rows);
    OrderedMeans(direction, slices);
    forall r | r in slices ensures r in rows {
      var app :| app in apps && AppWanted(o, app) && r in PageSlice(table, o, app);
      SubsetKeyed(table, SliceRows(table, o, app));
      PageSliceWithin(table, o, app);
    }
    forall r | r in Take(Ordered(direction, rows), o.limit) ensures r in slices {
      var i :| 0 <= i < |Ordered(direction, rows)| && i < o.limit && Ordered(direction, rows)[i] == r;
      assert r in rows;
      SubsetKeyed(table, SliceRows(table, o, r.app));
      FirstOfSlice(direction, rows, SliceRows(table, o, r.app), i, o.limit);
      assert r in PageSlice(table, o, r.app);
    }
    SameStart(direction, Ordered(direction, rows), Ordered(direction, slices), o.limit);
  }

  // -------------------------------------------------------------------------- pages of a fixed log

  /** The whole search result, newest first. */
  ghost function Result(apps: set<string>, table: set<Row>, scope: Scope, filters: Filters): seq<Row>
    requires Keyed(table)
  {
    SubsetKeyed(table, Wanted(apps, table, scope, filters));
    Ordered(Older, Wanted(apps, table, scope, filters))
  }

  lemma ResultMeans(apps: set<string>, table: set<Row>, scope: Scope, filters: Filters)
    requires Keyed(table)
    ensures InOrder(Older, Result(apps, table, scope, filters))
    ensures forall r :: r in Result(apps, table, scope, filters) <==> r in Wanted(apps, table, scope, filters)
  {
    SubsetKeyed(table, Wanted(apps, table, scope, filters));
    OrderedMeans(Older, Wanted(apps, table, scope, filters));
  }

  /** The range plus tie-break of the query is the strict order on (ts, record_hash). */
  lemma PicksIsOrder(direction: Direction, at: Row, r: Row)
    ensures Picks(direction, CursorAt(direction, at), r) <==>
            (if direction.Older? then IsNewer(at, r) else IsNewer(r, at))
  {
  }

  lemma BehindMeans(m: seq<Row>, i: nat, r: Row)
    requires InOrder(Older, m) && 0 < i <= |m|
    ensures r in m[i..] <==> r in m && IsNewer(m[i - 1], r)
  {
    if r in m && IsNewer(m[i - 1], r) {
      var k :| 0 <= k < |m| && m[k] == r;
      assert k < i - 1 ==> IsNewer(m[k], m[i - 1]);
      assert m[i..][k - i] == r;
    }
    if r in m[i..] {
      var k :| i <= k < |m| && m[k] == r;
    }
  }

  lemma AheadMeans(m: seq<Row>, i: nat, r: Row)
    requires InOrder(Older, m) && i < |m|
    ensures r in Reversed(m[..i]) <==> r in m && IsNewer(r, m[i])
  {
    var back := Reversed(m[..i]);
    if r in m && IsNewer(r, m[i]) {
      var k :| 0 <= k < |m| && m[k] == r;
      assert k > i ==> IsNewer(m[i], m[k]);
      assert back[i - 1 - k] == r;
    }
    if r in back {
      var k :| 0 <= k < i && back[k] == r;
      assert m[i - 1 - k] == r;
    }
  }

  lemma ReversedOrder(m: seq<Row>)
    requires InOrder(Older, m)
    ensures InOrder(Newer, Reversed(m))
  {
  }

  /** The rows after position `i` of the result, as a cursor at the row before it finds them. */
  lemma OlderThan(apps: set<string>, table: set<Row>, scope: Scope, filters: Filters, i: nat, limit: nat)
    requires Keyed(table) && 0 < i <= |Result(apps, table, scope, filters)|
    ensures var m := Result(apps, table, scope, filters);
            GlobalQuery(apps, table, Search(scope, filters, Some(CursorAt(Older, m[i - 1])), limit)) == Take(m[i..], limit)
  {
    var m := Result(apps, table, scope, filters);
    ResultMeans(apps, table, scope, filters);
    var rows := set r <- Wanted(apps, table, scope, filters) | BeyondCursor(Some(CursorAt(Older, m[i - 1])), r);
    SubsetKeyed(table, rows);
    OrderedMeans(Older, rows);
    forall r ensures r in Ordered(Older, rows) <==> r in m[i..] {
      PicksIsOrder(Older, m[i - 1], r);
      BehindMeans(m, i, r);
    }
    OneOrder(Older, Ordered(Older, rows), m[i..]);
  }

  lemma NewerThan(apps: set<string>, table: set<Row>, scope: Scope, filters: Filters, i: nat, limit: nat)
    requires Keyed(table) && i < |Result(apps, table, scope, filters)|
    ensures var m := Result(apps, table, scope, filters);
            GlobalQuery(apps, table, Search(scope, filters, Some(CursorAt(Newer, m[i])), limit)) == Take(Reversed(m[..i]), limit)
  {
    var m := Result(apps, table, scope, filters);
    ResultMeans(apps, table, scope, filters);
    var rows := set r <- Wanted(apps, table, scope, filters) | BeyondCursor(Some(CursorAt(Newer, m[i])), r);
    SubsetKeyed(table, rows);
    OrderedMeans(Newer, rows);
    forall r ensures r in Ordered(Newer, rows) <==> r in Reversed(m[..i]) {
      PicksIsOrder(Newer, m[i], r);
      AheadMeans(m, i, r);
    }
    ReversedOrder(m[..i]);
    OneOrder(Newer, Ordered(Newer, rows), Reversed(m[..i]));
  }

  lemma FirstQuery(apps: set<string>, table: set<Row>, scope: Scope, filters: Filters, limit: nat)
    requires Keyed(table)
    ensures GlobalQuery(apps, table, Search(scope, filters, None, limit)) == Take(Result(apps, table, scope, filters), limit)
  {
    var rows := set r <- Wanted(apps, table, scope, filters) | BeyondCursor(None, r);
    assert rows == Wanted(apps, table, scope, filters);
  }

  /** The page that shows positions `i` to `j` of the result, with links to both sides where there is more. */
  ghost function Shows(m: seq<Row>, i: nat, j: nat): Page
    requires i <= j <= |m|
  {
    Page(m[i..j],
         if i > 0 && i < j then Some(CursorAt(Newer, m[i])) else None,
         if j < |m| && i < j then Some(CursorAt(Older, m[j - 1])) else None)
  }

  function End(m: seq<Row>, i: nat, pageSize: nat): nat {
    if i + pageSize <= |m| then i + pageSize else |m|
  }

  /** Where the forward page that starts at position `i` is asked for. */
  ghost function ForwardCursor(m: seq<Row>, i: nat): Option<Cursor>
    requires i <= |m|
  {
    if i == 0 then None else Some(CursorAt(Older, m[i - 1]))
  }

  lemma ForwardShows(m: seq<Row>, i: nat, pageSize: nat)
    requires pageSize >= 1 && i <= |m|
    ensures PageOf(Take(m[i..], pageSize + 1), ForwardCursor(m, i), pageSize) == Shows(m, i, End(m, i, pageSize))
  {
    assert Take(Take(m[i..], pageSize + 1), pageSize) == m[i..End(m, i, pageSize)];
  }

  function Start(i: nat, pageSize: nat): nat {
    if i <= pageSize then 0 else i - pageSize
  }

  lemma TakeTwice(s: seq<Row>, n: nat)
    ensures Take(Take(s, n + 1), n) == Take(s, n)
  {
  }

  lemma ReversedTake(m: seq<Row>, i: nat, n: nat)
    requires i <= |m|
    ensures Reversed(Take(Reversed(m[..i]), n)) == m[Start(i, n)..i]
  {
  }

  lemma BackwardShows(m: seq<Row>, i: nat, pageSize: nat)
    requires pageSize >= 1 && 0 < i < |m|
    ensures PageOf(Take(Reversed(m[..i]), pageSize + 1), Some(CursorAt(Newer, m[i])), pageSize) == Shows(m, Start(i, pageSize), i)
  {
    hide Reversed;
    TakeTwice(Reversed(m[..i]), pageSize);
    ReversedTake(m, i, pageSize);
  }

  lemma ForwardPage(apps: set<string>, table: set<Row>, scope: Scope, filters: Filters, i: nat, pageSize: nat)
    requires Keyed(table) && pageSize >= 1 && i <= |Result(apps, table, scope, filters)|
    ensures var m := Result(apps, table, scope, filters);
            ListPage(apps, table, scope, filters, ForwardCursor(m, i), pageSize) == Shows(m, i, End(m, i, pageSize))
  {
    var m := Result(apps, table, scope, filters);
    SlicesAreOneSort(apps, table, Search(scope, filters, ForwardCursor(m, i), pageSize + 1));
    if i == 0 {
      FirstQuery(apps, table, scope, filters, pageSize + 1);
      assert m[0..] == m;
    } else {
      OlderThan(apps, table, scope, filters, i, pageSize + 1);
    }
    ForwardShows(m, i, pageSize);
  }

  /** Paging back from the page that starts at position `i`. */
  lemma BackwardPage(apps: set<string>, table: set<Row>, scope: Scope, filters: Filters, i: nat, pageSize: nat)
    requires Keyed(table) && pageSize >= 1 && 0 < i < |Result(apps, table, scope, filters)|
    ensures var m := Result(apps, table, scope, filters);
            ListPage(apps, table, scope, filters, Some(CursorAt(Newer, m[i])), pageSize) == Shows(m, Start(i, pageSize), i)
  {
    var m := Result(apps, table, scope, filters);
    SlicesAreOneSort(apps, table, Search(scope, filters, Some(CursorAt(Newer, m[i])), pageSize + 1));
    NewerThan(apps, table, scope, filters, i, pageSize + 1);
    BackwardShows(m, i, pageSize);
  }

  /** A row of the table that the session may see and the search asks for, said of its fields. */
  predicate Sought(apps: set<string>, table: set<Row>, scope: Scope, filters: Filters, r: Row) {
    && r in table && r.app in apps
    && (scope == Everything || (scope.Only? && r.app in scope.apps))
    && (filters.app == None || filters.app == Some(r.app))
    && r.ts >= filters.since && r.ts < filters.until
    && (filters.verdict == None || filters.verdict == Some(r.verdict))
    && (filters.reason == None || (r.reason.Some? && filters.reason == Some(r.reason.value)))
  }

  /** Strictly on the far side of the cursor, by timestamp and then by hash. */
  predicate Beyond(cursor: Option<Cursor>, r: Row) {
    match cursor
    case None => true
    case Some(Cursor(Older, ts, hash)) => r.ts < ts || (r.ts == ts && r.hash < hash)
    case Some(Cursor(Newer, ts, hash)) => r.ts > ts || (r.ts == ts && r.hash > hash)
  }

  /** The result holds exactly the rows that are sought, newest first. */
  lemma ResultIsSought(apps: set<string>, table: set<Row>, scope: Scope, filters: Filters)
    requires Keyed(table)
    ensures var m := Result(apps, table, scope, filters);
            && (forall r :: r in m <==> Sought(apps, table, scope, filters, r))
            && (forall i, j :: 0 <= i < j < |m| ==> m[i].ts > m[j].ts || (m[i].ts == m[j].ts && m[i].hash > m[j].hash))
  {
    hide Result;
    ResultMeans(apps, table, scope, filters);
    var m := Result(apps, table, scope, filters);
    forall i, j | 0 <= i < j < |m| ensures m[i].ts > m[j].ts || (m[i].ts == m[j].ts && m[i].hash > m[j].hash) {
      assert Before(Older, m[i], m[j]);
    }
  }

  /** The rows a page takes from what the query found, read in the direction of its cursor. */
  lemma PageTakes(apps: set<string>, table: set<Row>, scope: Scope, filters: Filters, cursor: Option<Cursor>, pageSize: nat)
    returns (rows: set<Row>, taken: seq<Row>)
    requires Keyed(table)
    ensures forall r :: r in rows <==> Sought(apps, table, scope, filters, r) && Beyond(cursor, r)
    ensures Keyed(rows) && taken == Take(Ordered(Reading(cursor), rows), pageSize)
    ensures ListPage(apps, table, scope, filters, cursor, pageSize).rows == if Reading(cursor).Newer? then Reversed(taken) else taken
  {
    hide Ordered, PageQuery;
    SlicesAreOneSort(apps, table, Search(scope, filters, cursor, pageSize + 1));
    rows := set r <- Wanted(apps, table, scope, filters) | BeyondCursor(cursor, r);
    SubsetKeyed(table, rows);
    TakeTwice(Ordered(Reading(cursor), rows), pageSize);
    taken := Take(Ordered(Reading(cursor), rows), pageSize);
  }

  /**
   Every page, for whatever cursor: rows that are sought and lie beyond the cursor, newest first, no
   more than fit. What is sought and left out lies farther from the cursor than all of a full page.
   */
  lemma ListedPageMeans(apps: set<string>, table: set<Row>, scope: Scope, filters: Filters, cursor: Option<Cursor>, pageSize: nat)
    requires Keyed(table)
    ensures var rows := ListPage(apps, table, scope, filters, cursor, pageSize).rows;
            && |rows| <= pageSize && InOrder(Older, rows)
            && (forall r <- rows :: Sought(apps, table, scope, filters, r) && Beyond(cursor, r))
            && (forall r :: Sought(apps, table, scope, filters, r) && Beyond(cursor, r) && r !in rows ==>
                  |rows| == pageSize && forall shown <- rows :: Before(Reading(cursor), shown, r))
  {
    hide ListPage, Ordered, Sought, Beyond, Before;
    var direction := Reading(cursor);
    var rows, taken := PageTakes(apps, table, scope, filters, cursor, pageSize);
    OrderedMeans(direction, rows);
    TakenMeans(direction, Ordered(direction, rows), pageSize);
    if direction.Newer? {
      TurnedRound(taken);
    }
  }

  /** The first `n` of an ordered sequence, and what is behind them. */
  lemma TakenMeans(direction: Direction, s: seq<Row>, n: nat)
    requires InOrder(direction, s)
    ensures var taken := Take(s, n);
            && |taken| <= n && InOrder(direction, taken) && (forall r <- taken :: r in s)
            && (forall r <- s :: r !in taken ==> |taken| == n && forall shown <- taken :: Before(direction, shown, r))
  {
    hide Before;
    var taken := Take(s, n);
    forall r | r in s && r !in taken ensures |taken| == n && forall shown <- taken :: Before(direction, shown, r) {
      var k :| 0 <= k < |s| && s[k] == r;
      assert forall i :: 0 <= i < |taken| ==> taken[i] == s[i];
    }
  }

  lemma TurnedRound(s: seq<Row>)
    requires InOrder(Newer, s)
    ensures InOrder(Older, Reversed(s)) && |Reversed(s)| == |s| && forall r :: r in Reversed(s) <==> r in s
  {
    var back := Reversed(s);
    forall r | r in s ensures r in back {
      var k :| 0 <= k < |s| && s[k] == r;
      assert back[|s| - 1 - k] == r;
    }
  }

  lemma ShownLinks(m: seq<Row>, i: nat, j: nat)
    requires i < j <= |m|
    ensures Shows(m, i, j).older == if j < |m| then ForwardCursor(m, j) else None
    ensures Shows(m, i, j).newer == if i > 0 then Some(CursorAt(Newer, m[i])) else None
  {
  }

  /** A way to answer cursors with pages that agrees with the result `m`. */
  ghost predicate Answers(pages: Option<Cursor> -> Page, m: seq<Row>, pageSize: nat) {
    && (forall i: nat {:trigger ForwardCursor(m, i)} | i <= |m| :: pages(ForwardCursor(m, i)) == Shows(m, i, End(m, i, pageSize)))
    && (forall i: nat {:trigger m[i]} | 0 < i < |m| :: pages(Some(CursorAt(Newer, m[i]))) == Shows(m, Start(i, pageSize), i))
  }

  /** listAuditPage over a fixed log, cursor by cursor. */
  ghost function PagesOf(apps: set<string>, table: set<Row>, scope: Scope, filters: Filters, pageSize: nat): Option<Cursor> -> Page
    requires Keyed(table)
  {
    (cursor: Option<Cursor>) => ListPage(apps, table, scope, filters, cursor, pageSize)
  }

  lemma PagesAnswer(apps: set<string>, table: set<Row>, scope: Scope, filters: Filters, pageSize: nat)
    requires Keyed(table) && pageSize >= 1
    ensures Answers(PagesOf(apps, table, scope, filters, pageSize), Result(apps, table, scope, filters), pageSize)
  {
    var m := Result(apps, table, scope, filters);
    forall i: nat | i <= |m| {
      ForwardPage(apps, table, scope, filters, i, pageSize);
    }
    forall i: nat | 0 < i < |m| {
      BackwardPage(apps, table, scope, filters, i, pageSize);
    }
  }

  lemma AnswersEach(pages: Option<Cursor> -> Page, m: seq<Row>, i: nat, pageSize: nat)
    requires Answers(pages, m, pageSize) && i <= |m|
    ensures pages(ForwardCursor(m, i)) == Shows(m, i, End(m, i, pageSize))
    ensures 0 < i < |m| ==> pages(Some(CursorAt(Newer, m[i]))) == Shows(m, Start(i, pageSize), i)
  {
    hide Shows, ForwardCursor, CursorAt, Start, End;
  }

  /**
   On a fixed log, `newer` from the page after the one at position `i` is that page again, links and
   all. Page k starts at position k times the page size.
   */
  lemma BackUndoesForward(pages: Option<Cursor> -> Page, m: seq<Row>, i: nat, pageSize: nat)
    requires Answers(pages, m, pageSize) && pageSize >= 1 && i + pageSize < |m|
    ensures var page := pages(ForwardCursor(m, i));
            page.older.Some? && pages(page.older).newer.Some? && pages(pages(page.older).newer) == page
  {
    hide Answers, Shows, ForwardCursor, CursorAt;
    var j := i + pageSize;
    AnswersEach(pages, m, i, pageSize);
    AnswersEach(pages, m, j, pageSize);
    ShownLinks(m, i, j);
    ShownLinks(m, j, End(m, j, pageSize));
    ForwardIsCursor(m, j);
  }

  lemma ForwardIsCursor(m: seq<Row>, j: nat)
    requires 0 < j <= |m|
    ensures ForwardCursor(m, j).Some?
  {
  }

  lemma ShowsMeans(m: seq<Row>, i: nat, j: nat)
    requires i <= j <= |m| && (i == j ==> j == |m|)
    ensures Shows(m, i, j).rows == m[i..j] && (Shows(m, i, j).older.None? <==> j == |m|)
  {
  }

  /** Every row shown by following `older` from position `i` until there is no such link. */
  ghost function WalkFrom(pages: Option<Cursor> -> Page, m: seq<Row>, i: nat, pageSize: nat): seq<Row>
    requires Answers(pages, m, pageSize) && pageSize >= 1 && i <= |m|
    decreases |m| - i
  {
    var page := pages(ForwardCursor(m, i));
    if page.older.None? then page.rows
    else
      ShowsMeans(m, i, End(m, i, pageSize));
      page.rows + WalkFrom(pages, m, End(m, i, pageSize), pageSize)
  }

  /** On a fixed log the walk ends, and has shown the sorted search result, each row once. */
  lemma {:induction false} WalkShowsResult(pages: Option<Cursor> -> Page, m: seq<Row>, i: nat, pageSize: nat)
    requires Answers(pages, m, pageSize) && pageSize >= 1 && i <= |m|
    ensures WalkFrom(pages, m, i, pageSize) == m[i..]
    decreases |m| - i
  {
    hide Shows;
    var j := End(m, i, pageSize);
    ShowsMeans(m, i, j);
    if j < |m| {
      WalkShowsResult(pages, m, j, pageSize);
      assert m[i..] == m[i..j] + m[j..];
    }
  }

  /** Both, for the pages of listAuditPage. */
  lemma FixedLog(apps: set<string>, table: set<Row>, scope: Scope, filters: Filters, pageSize: nat)
    requires Keyed(table) && pageSize >= 1
    ensures var (pages, m) := (PagesOf(apps, table, scope, filters, pageSize), Result(apps, table, scope, filters));
            && Answers(pages, m, pageSize)
            && WalkFrom(pages, m, 0, pageSize) == m
            && forall i: nat | i + pageSize < |m| :: pages(pages(pages(ForwardCursor(m, i)).older).newer) == pages(ForwardCursor(m, i))
  {
    var (pages, m) := (PagesOf(apps, table, scope, filters, pageSize), Result(apps, table, scope, filters));
    PagesAnswer(apps, table, scope, filters, pageSize);
    WalkShowsResult(pages, m, 0, pageSize);
    forall i: nat | i + pageSize < |m| ensures pages(pages(pages(ForwardCursor(m, i)).older).newer) == pages(ForwardCursor(m, i)) {
      BackUndoesForward(pages, m, i, pageSize);
    }
  }

  // ------------------------------------------------------------------------- pages of a growing log

  /** A search over whatever the log holds when a page is fetched. */
  datatype View = View(apps: set<string>, scope: Scope, filters: Filters, pageSize: nat)

  ghost function Fetch(v: View, table: set<Row>, cursor: Option<Cursor>): Page
    requires Keyed(table)
  {
    ListPage(v.apps, table, v.scope, v.filters, cursor, v.pageSize)
  }

  function Found(v: View, table: set<Row>): set<Row> {
    Wanted(v.apps, table, v.scope, v.filters)
  }

  /** Read forward from a cursor: the page shows some of the rows beyond it and says whether there are more. */
  ghost predicate Advances(page: Page, rows: set<Row>) {
    match page
    case Page(shown, _, older) =>
      && InOrder(Older, shown) && (forall r <- shown :: r in rows)
      && (older.Some? ==> shown != [] && older == Some(CursorAt(Older, shown[|shown| - 1])))
      && (forall r <- rows :: r in shown || (older.Some? && IsNewer(shown[|shown| - 1], r)))
  }

  lemma PageAdvances(fetched: seq<Row>, all: seq<Row>, cursor: Option<Cursor>, pageSize: nat, rows: set<Row>)
    requires pageSize >= 1 && InOrder(Older, all) && forall r :: r in all <==> r in rows
    requires fetched == Take(all, pageSize + 1) && (cursor.Some? ==> cursor.value.direction.Older?)
    ensures Advances(PageOf(fetched, cursor, pageSize), rows)
  {
    var shown := Take(fetched, pageSize);
    assert shown == Take(all, pageSize);
    assert forall i :: 0 <= i < |shown| ==> shown[i] == all[i];
    forall r | r in rows ensures r in shown || (|all| > pageSize && IsNewer(shown[|shown| - 1], r)) {
      var k :| 0 <= k < |all| && all[k] == r;
      assert k < |shown| ==> shown[k] == r;
    }
  }

  /** The rows a page may show. */
  function Candidates(v: View, table: set<Row>, cursor: Option<Cursor>): set<Row> {
    set r <- Found(v, table) | BeyondCursor(cursor, r)
  }

  lemma FetchIsSorted(v: View, table: set<Row>, cursor: Option<Cursor>)
    requires Keyed(table)
    ensures Keyed(Candidates(v, table, cursor))
    ensures Fetch(v, table, cursor)
         == PageOf(Take(Ordered(Reading(cursor), Candidates(v, table, cursor)), v.pageSize + 1), cursor, v.pageSize)
  {
    SubsetKeyed(table, Candidates(v, table, cursor));
    SlicesAreOneSort(v.apps, table, Search(v.scope, v.filters, cursor, v.pageSize + 1));
  }

  lemma FetchAdvances(v: View, table: set<Row>, cursor: Option<Cursor>, page: Page)
    requires Keyed(table) && v.pageSize >= 1 && (cursor.Some? ==> cursor.value.direction.Older?)
    requires page == Fetch(v, table, cursor)
    ensures Advances(page, Candidates(v, table, cursor))
  {
    var rows := Candidates(v, table, cursor);
    FetchIsSorted(v, table, cursor);
    OrderedMeans(Older, rows);
    PageAdvances(Take(Ordered(Older, rows), v.pageSize + 1), Ordered(Older, rows), cursor, v.pageSize, rows);
  }

  /** Where page k is asked for. */
  function AskedAt(pages: seq<Page>, k: nat): Option<Cursor>
    requires k < |pages|
  {
    if k == 0 then None else pages[k - 1].older
  }

  /** Page k is what the log held then; only a page with an `older` link has a successor. */
  ghost predicate FetchedAt(v: View, tables: seq<set<Row>>, pages: seq<Page>, k: nat)
    requires k < |pages| == |tables|
  {
    && Keyed(tables[k]) && pages[k] == Fetch(v, tables[k], AskedAt(pages, k))
    && (k > 0 ==> AskedAt(pages, k).Some?)
  }

  /** Following `older` while records are written: `tables[k]` is the log when page k is fetched. */
  ghost predicate IsWalk(v: View, tables: seq<set<Row>>, pages: seq<Page>) {
    && |pages| == |tables| >= 1 && v.pageSize >= 1
    && (forall k :: 0 < k < |tables| ==> tables[k - 1] <= tables[k])
    && (forall k :: 0 <= k < |pages| ==> FetchedAt(v, tables, pages, k))
  }

  function Shown(pages: seq<Page>): seq<Row> {
    if pages == [] then [] else Shown(pages[..|pages| - 1]) + pages[|pages| - 1].rows
  }

  lemma {:induction false} TablesGrow(tables: seq<set<Row>>, k: nat)
    requires k < |tables| && forall i :: 0 < i < |tables| ==> tables[i - 1] <= tables[i]
    ensures tables[0] <= tables[k]
  {
    if k > 0 {
      TablesGrow(tables, k - 1);
    }
  }

  /** Everything shown so far in strict order; what is still to come lies behind the last row. */
  ghost predicate SoFar(v: View, first: set<Row>, shown: seq<Row>, older: Option<Cursor>) {
    && InOrder(Older, shown)
    && (older.Some? ==> shown != [] && older == Some(CursorAt(Older, shown[|shown| - 1])))
    && (forall r <- Found(v, first) :: r in shown || (older.Some? && IsNewer(shown[|shown| - 1], r)))
  }

  lemma NextPage(v: View, first: set<Row>, shown: seq<Row>, older: Cursor, page: Page, rows: set<Row>)
    requires SoFar(v, first, shown, Some(older)) && Advances(page, rows)
    requires forall r <- rows :: Picks(Older, older, r)
    requires forall r <- Found(v, first) :: Picks(Older, older, r) ==> r in rows
    ensures SoFar(v, first, shown + page.rows, page.older)
  {
    var (last, all) := (shown[|shown| - 1], shown + page.rows);
    forall i, j | 0 <= i < |shown| && 0 <= j < |page.rows| ensures IsNewer(shown[i], page.rows[j]) {
      assert page.rows[j] in page.rows;
      PicksIsOrder(Older, last, page.rows[j]);
      assert i < |shown| - 1 ==> Before(Older, shown[i], last);
    }
    forall i, j | 0 <= i < j < |all| ensures Before(Older, all[i], all[j]) {
      if i < |shown| <= j {
        assert all[i] == shown[i] && all[j] == page.rows[j - |shown|];
      }
    }
    assert page.rows != [] ==> all[|all| - 1] == page.rows[|page.rows| - 1];
    forall r | r in Found(v, first) ensures r in all || (page.older.Some? && IsNewer(all[|all| - 1], r)) {
      PicksIsOrder(Older, last, r);
    }
  }

  lemma {:induction false} WalkSoFar(v: View, tables: seq<set<Row>>, pages: seq<Page>, k: nat)
    requires IsWalk(v, tables, pages) && k < |pages|
    ensures SoFar(v, tables[0], Shown(pages[..k + 1]), pages[k].older)
    decreases k
  {
    assert pages[..k + 1][..k] == pages[..k];
    if k == 0 {
      assert FetchedAt(v, tables, pages, 0);
      FetchAdvances(v, tables[0], None, pages[0]);
      FirstPage(v, tables[0], pages[0]);
      assert Shown(pages[..1]) == Shown(pages[..0]) + pages[0].rows == pages[0].rows;
    } else {
      WalkSoFar(v, tables, pages, k - 1);
      LaterPage(v, tables, pages, k);
    }
  }

  lemma FirstPage(v: View, table: set<Row>, page: Page)
    requires Advances(page, Candidates(v, table, None))
    ensures SoFar(v, table, page.rows, page.older)
  {
    assert forall r <- Found(v, table) :: r in Candidates(v, table, None);
  }

  lemma LaterPage(v: View, tables: seq<set<Row>>, pages: seq<Page>, k: nat)
    requires IsWalk(v, tables, pages) && 0 < k < |pages|
    requires SoFar(v, tables[0], Shown(pages[..k]), pages[k - 1].older)
    ensures SoFar(v, tables[0], Shown(pages[..k]) + pages[k].rows, pages[k].older)
  {
    var older := pages[k - 1].older;
    assert FetchedAt(v, tables, pages, k);
    var rows := Candidates(v, tables[k], older);
    FetchAdvances(v, tables[k], older, pages[k]);
    TablesGrow(tables, k);
    assert forall r <- Found(v, tables[0]) :: Picks(Older, older.value, r) ==> r in rows;
    NextPage(v, tables[0], Shown(pages[..k]), older.value, pages[k], rows);
  }

  /**
   Whatever is written while an operator pages: the rows shown are strictly older and older, so none
   comes twice, and once there is no older page every matching record that was there from the start
   has been shown.
   */
  lemma PagingNeitherRepeatsNorSkips(v: View, tables: seq<set<Row>>, pages: seq<Page>)
    requires IsWalk(v, tables, pages)
    ensures InOrder(Older, Shown(pages))
    ensures pages[|pages| - 1].older.None? ==> forall r <- Found(v, tables[0]) :: r in Shown(pages)
  {
    hide FetchedAt;
    WalkSoFar(v, tables, pages, |pages| - 1);
    assert pages[..|pages|] == pages;
  }

  // ------------------------------------------------------------------------------------- cursors

  /** toISOString and Date parsing; a record_hash as text. */
  datatype Codec = Codec(iso: int -> string, parse: string -> Option<int>, text: nat -> string, rank: string -> Option<nat>)

  ghost predicate Inverse(c: Codec) {
    && (forall t {:trigger c.iso(t)} :: c.iso(t) != "" && '|' !in c.iso(t) && c.parse(c.iso(t)) == Some(t))
    && (forall h: nat {:trigger c.text(h)} :: c.text(h) != "" && c.rank(c.text(h)) == Some(h))
  }

  function IndexOf(s: string, c: char): int {
    if s == "" then -1
    else if s[0] == c then 0
    else
      var at := IndexOf(s[1..], c);
      if at < 0 then -1 else at + 1
  }

  function EncodeCursor(c: Codec, ts: int, hash: nat): string {
    c.iso(ts) + "|" + c.text(hash)
  }

  /** decodeCursor: None for text that is no position. */
  function DecodeCursor(c: Codec, value: string): Option<(int, nat)> {
    var separator := IndexOf(value, '|');
    if separator <= 0 || separator >= |value| then None
    else
      var ts := c.parse(value[..separator]);
      var hash := if separator + 1 == |value| then None else c.rank(value[separator + 1..]);
      if ts.None? || hash.None? then None else Some((ts.value, hash.value))
  }

  /** parseAuditCursor over the two parameters of the query string. */
  function ParseCursor(c: Codec, after: string, before: string): Option<Cursor> {
    var older := DecodeCursor(c, after);
    if older.Some? then Some(Cursor(Older, older.value.0, older.value.1))
    else
      var newer := DecodeCursor(c, before);
      if newer.None? then None else Some(Cursor(Newer, newer.value.0, newer.value.1))
  }

  lemma {:induction false} FirstSeparator(head: string, tail: string)
    requires '|' !in head
    ensures IndexOf(head + "|" + tail, '|') == |head|
  {
    var s := head + "|" + tail;
    if head != "" {
      assert head[0] in head && s[0] == head[0] && s[1..] == head[1..] + "|" + tail;
      FirstSeparator(head[1..], tail);
    }
  }

  /** A link leads back to the cursor it was made from, in either direction. */
  lemma LinksRoundTrip(c: Codec, cursor: Cursor)
    requires Inverse(c)
    ensures var text := EncodeCursor(c, cursor.ts, cursor.hash);
            ParseCursor(c, if cursor.direction.Older? then text else "", if cursor.direction.Newer? then text else "") == Some(cursor)
  {
    var (head, tail) := (c.iso(cursor.ts), c.text(cursor.hash));
    FirstSeparator(head, tail);
    var s := head + "|" + tail;
    assert s[..|head|] == head && s[|head| + 1..] == tail;
  }
}
