/**
 packages/dashboard/lib/audit-queries.ts and audit-filters.ts: keyset paging over the audit log.

 The table is a set of rows. A record_hash is its rank in the order the database compares hashes by,
 so (ts, hash) orders the log totally and newest first means larger first.
 */
module AuditPaging {
  import opened Options

  datatype Verdict = Serve | Suppress

  datatype Row = Row(ts: int, hash: nat, app: string, verdict: Verdict, reason: Option<string>)

  /** None stands for "any"; the window is half open. */
  datatype Filters = Filters(app: Option<string>, since: int, until: int, verdict: Option<Verdict>, reason: Option<string>)

  datatype Direction = Older | Newer

  datatype Cursor = Cursor(direction: Direction, ts: int, hash: nat)

  /** Those of the `apps` table a session may see. */
  datatype Scope = Everything | Only(apps: set<string>)

  datatype Search = Search(scope: Scope, filters: Filters, cursor: Option<Cursor>, limit: nat)

  /** record_hash is the primary key. */
  ghost predicate Keyed(table: set<Row>) {
    forall a <- table, b <- table :: a.hash == b.hash ==> a == b
  }

  // ----------------------------------------------------------------------------------- order

  predicate IsNewer(a: Row, b: Row) {
    a.ts > b.ts || (a.ts == b.ts && a.hash > b.hash)
  }

  /** `a` comes before `b` in rows read in this direction. */
  predicate Before(direction: Direction, a: Row, b: Row) {
    if direction.Older? then IsNewer(a, b) else IsNewer(b, a)
  }

  predicate InOrder(direction: Direction, s: seq<Row>) {
    forall i, j :: 0 <= i < j < |s| ==> Before(direction, s[i], s[j])
  }

  predicate IsFirst(direction: Direction, rows: set<Row>, first: Row) {
    first in rows && forall r <- rows :: r == first || Before(direction, first, r)
  }

  lemma {:induction false} HasFirst(direction: Direction, rows: set<Row>) returns (first: Row)
    requires Keyed(rows) && rows != {}
    ensures IsFirst(direction, rows, first)
    decreases |rows|
  {
    var pick :| pick in rows;
    var rest := rows - {pick};
    first := pick;
    assert forall r <- rows :: r == pick || r in rest;
    if rest != {} {
      var other := HasFirst(direction, rest);
      assert pick.hash != other.hash;
      first := if Before(direction, other, pick) then other else pick;
    }
  }

  /** ORDER BY ts, record_hash. */
  ghost function Ordered(direction: Direction, rows: set<Row>): seq<Row>
    requires Keyed(rows)
    decreases |rows|
  {
    if rows == {} then []
    else
      assert exists first :: IsFirst(direction, rows, first) by {
        var first := HasFirst(direction, rows);
      }
      var first :| IsFirst(direction, rows, first);
      [first] + Ordered(direction, rows - {first})
  }

  lemma {:induction false} OrderedMeans(direction: Direction, rows: set<Row>)
    requires Keyed(rows)
    ensures InOrder(direction, Ordered(direction, rows)) && |Ordered(direction, rows)| == |rows|
    ensures forall r :: r in Ordered(direction, rows) <==> r in rows
    decreases |rows|
  {
    if rows != {} {
      var s := Ordered(direction, rows);
      assert IsFirst(direction, rows, s[0]) && s[1..] == Ordered(direction, rows - {s[0]});
      OrderedMeans(direction, rows - {s[0]});
      assert s == [s[0]] + s[1..];
      forall i, j | 0 <= i < j < |s| ensures Before(direction, s[i], s[j]) {
        assert s[j] in s[1..];
        if i > 0 {
          assert s[i] == s[1..][i - 1] && s[j] == s[1..][j - 1];
        }
      }
    }
  }

  function Take(s: seq<Row>, limit: nat): seq<Row> {
    if |s| <= limit then s else s[..limit]
  }

  /** Rows in order have only one order. */
  lemma {:induction false} OneOrder(direction: Direction, a: seq<Row>, b: seq<Row>)
    requires InOrder(direction, a) && InOrder(direction, b) && forall r :: r in a <==> r in b
    ensures a == b
  {
    assert |b| > 0 ==> b[0] in b;
    if a != [] {
      assert a[0] in a;
      FirstIsFirst(direction, a, b);
      var (x, y) := (a[1..], b[1..]);
      forall r ensures r in x <==> r in y {
        RestWithoutFirst(direction, a, r);
        RestWithoutFirst(direction, b, r);
      }
      OneOrder(direction, x, y);
    }
  }

  lemma FirstIsFirst(direction: Direction, a: seq<Row>, b: seq<Row>)
    requires InOrder(direction, a) && InOrder(direction, b) && a != [] && b != [] && a[0] in b && b[0] in a
    ensures a[0] == b[0]
  {
  }

  lemma RestWithoutFirst(direction: Direction, s: seq<Row>, r: Row)
    requires InOrder(direction, s) && s != []
    ensures r in s[1..] <==> r in s && r != s[0]
  {
    if r in s[1..] {
      var i :| 1 <= i < |s| && s[i] == r;
      assert Before(direction, s[0], s[i]);
    }
  }

  // ---------------------------------------------------------------------------------- queries

  predicate Picks(direction: Direction, cursor: Cursor, r: Row) {
    if direction.Older?
    then r.ts <= cursor.ts && (r.ts < cursor.ts || r.hash < cursor.hash)
    else r.ts >= cursor.ts && (r.ts > cursor.ts || r.hash > cursor.hash)
  }

  /** sliceConditions, apart from the app. */
  predicate Matches(filters: Filters, r: Row) {
    && filters.since <= r.ts < filters.until
    && (filters.verdict.Some? ==> r.verdict == filters.verdict.value)
    && (filters.reason.Some? ==> r.reason == filters.reason)
  }

  predicate BeyondCursor(cursor: Option<Cursor>, r: Row) {
    cursor.Some? ==> Picks(cursor.value.direction, cursor.value, r)
  }

  predicate AppWanted(o: Search, app: string) {
    && (o.filters.app.Some? ==> app == o.filters.app.value)
    && (o.scope.Only? ==> app in o.scope.apps)
  }

  function Reading(cursor: Option<Cursor>): Direction {
    if cursor.Some? then cursor.value.direction else Older
  }

  /** One app's slice, before ORDER BY and LIMIT. */
  function SliceRows(table: set<Row>, o: Search, app: string): set<Row> {
    set r <- table | r.app == app && Matches(o.filters, r) && BeyondCursor(o.cursor, r)
  }

  lemma SubsetKeyed(table: set<Row>, rows: set<Row>)
    requires Keyed(table) && rows <= table
    ensures Keyed(rows)
  {
  }

  /** pageSlice: one app's newest (or oldest) rows. */
  ghost function PageSlice(table: set<Row>, o: Search, app: string): seq<Row>
    requires Keyed(table)
  {
    SubsetKeyed(table, SliceRows(table, o, app));
    Take(Ordered(Reading(o.cursor), SliceRows(table, o, app)), o.limit)
  }

  /** The lateral join: the slices of every app wanted, together. */
  ghost function Slices(apps: set<string>, table: set<Row>, o: Search): set<Row>
    requires Keyed(table)
  {
    set app <- apps, r <- table | AppWanted(o, app) && r in PageSlice(table, o, app) :: r
  }

  /** auditPageQuery. */
  ghost function PageQuery(apps: set<string>, table: set<Row>, o: Search): seq<Row>
    requires Keyed(table)
  {
    SubsetKeyed(table, Slices(apps, table, o));
    Take(Ordered(Reading(o.cursor), Slices(apps, table, o)), o.limit)
  }

  /** What the search is about, whatever the cursor. */
  function Wanted(apps: set<string>, table: set<Row>, scope: Scope, filters: Filters): set<Row> {
    set r <- table | r.app in apps && AppWanted(Search(scope, filters, None, 0), r.app) && Matches(filters, r)
  }

  /** One sort over the whole table. */
  ghost function GlobalQuery(apps: set<string>, table: set<Row>, o: Search): seq<Row>
    requires Keyed(table)
  {
    var rows := set r <- Wanted(apps, table, o.scope, o.filters) | BeyondCursor(o.cursor, r);
    SubsetKeyed(table, rows);
    Take(Ordered(Reading(o.cursor), rows), o.limit)
  }

  datatype Page = Page(rows: seq<Row>, newer: Option<Cursor>, older: Option<Cursor>)

  function Reversed(s: seq<Row>): (r: seq<Row>)
    ensures |r| == |s| && forall i :: 0 <= i < |s| ==> r[i] == s[|s| - 1 - i]
  {
    seq(|s|, i requires 0 <= i < |s| => s[|s| - 1 - i])
  }

  function CursorAt(direction: Direction, r: Row): Cursor {
    Cursor(direction, r.ts, r.hash)
  }

  /** What listAuditPage makes of the rows it fetched. */
  function PageOf(fetched: seq<Row>, cursor: Option<Cursor>, pageSize: nat): Page {
    var backwards := cursor.Some? && cursor.value.direction.Newer?;
    var extra := |fetched| > pageSize;
    var rows := if backwards then Reversed(Take(fetched, pageSize)) else Take(fetched, pageSize);
    var hasOlder := if backwards then true else extra;
    var hasNewer := if backwards then extra else cursor.Some?;
    Page(rows,
         if hasNewer && rows != [] then Some(CursorAt(Newer, rows[0])) else None,
         if hasOlder && rows != [] then Some(CursorAt(Older, rows[|rows| - 1])) else None)
  }

  /** listAuditPage. */
  ghost function ListPage(apps: set<string>, table: set<Row>, scope: Scope, filters: Filters, cursor: Option<Cursor>, pageSize: nat): Page
    requires Keyed(table)
  {
    PageOf(PageQuery(apps, table, Search(scope, filters, cursor, pageSize + 1)), cursor, pageSize)
  }
}
