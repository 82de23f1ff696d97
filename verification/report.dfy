/**
 packages/dashboard/lib/report.ts: the numbers of a verification report, from the records and what
 verification said of each.

 What a record's classification lists is read by two functions of `Reading`; `collate` stands for the
 order localeCompare sorts names in. Rates are left out: they divide two of the counts below.
 */
module Report {
  import opened Options
  import opened Sequences
  import opened Utf16
  import opened AuditRecords
  import opened Verify

  datatype Input = Input(
    auditId: JsString, recordHash: JsString, appId: JsString, appName: Option<JsString>, record: Option<AuditRecord>,
    impressions: nat, clicks: nat, verification: Response)

  datatype Reading = Reading(
    contract: Contract, categories: AuditRecord -> set<JsString>, sensitive: AuditRecord -> set<JsString>,
    collate: JsString -> int)

  // --------------------------------------------------------------------------------------- sums

  /** Over every record. */
  function Total(records: seq<Input>, g: Input -> nat): nat {
    if records == [] then 0 else Total(records[..|records| - 1], g) + g(records[|records| - 1])
  }

  /** Over the records of one app. */
  function TotalOf(records: seq<Input>, app: JsString, g: Input -> nat): nat {
    if records == [] then 0
    else
      var last := records[|records| - 1];
      TotalOf(records[..|records| - 1], app, g) + if last.appId == app then g(last) else 0
  }

  function IsServe(rd: Reading, i: Input): bool {
    i.record.Some? && i.record.value[Decided] == Said(rd.contract, Serve)
  }

  function One(i: Input): nat { 1 }
  function Impressions(i: Input): nat { i.impressions }
  function Clicks(i: Input): nat { i.clicks }
  function Serves(rd: Reading): Input -> nat { (i: Input) => if IsServe(rd, i) then 1 else 0 }
  function Unreadable(i: Input): nat { if i.record.None? then 1 else 0 }

  datatype Totals = Totals(records: nat, unreadable: nat, serves: nat, impressions: nat, clicks: nat)

  /** totalsOf. */
  function TotalsOf(rd: Reading, records: seq<Input>): Totals {
    Totals(|records|, Total(records, Unreadable), Total(records, Serves(rd)), Total(records, Impressions), Total(records, Clicks))
  }

  // -------------------------------------------------------------------------------------- by app

  datatype AppRow = AppRow(appId: JsString, appName: Option<JsString>, records: nat, serves: nat, impressions: nat, clicks: nat)

  /** The name on the first record of the app. */
  function FirstName(records: seq<Input>, app: JsString): Option<JsString> {
    if records == [] then None
    else if records[0].appId == app then records[0].appName
    else FirstName(records[1..], app)
  }

  function RowFor(rd: Reading, records: seq<Input>, app: JsString): AppRow {
    AppRow(app, FirstName(records, app), TotalOf(records, app, One), TotalOf(records, app, Serves(rd)),
           TotalOf(records, app, Impressions), TotalOf(records, app, Clicks))
  }

  predicate HasApp(records: seq<Input>, app: JsString) {
    exists i :: 0 <= i < |records| && records[i].appId == app
  }

  /** One true row for each app that has a record. */
  ghost predicate RowsOf(rd: Reading, records: seq<Input>, rows: map<JsString, AppRow>) {
    && (forall app <- rows :: HasApp(records, app) && rows[app] == RowFor(rd, records, app))
    && (forall i :: 0 <= i < |records| ==> records[i].appId in rows)
  }

  lemma {:induction false} FirstNameMore(records: seq<Input>, last: Input, app: JsString)
    ensures FirstName(records + [last], app) ==
            if HasApp(records, app) then FirstName(records, app) else if last.appId == app then last.appName else None
  {
    var all := records + [last];
    if records == [] {
      assert all[1..] == [];
    } else {
      assert all[1..] == records[1..] + [last];
      FirstNameMore(records[1..], last, app);
      assert HasApp(records, app) <==> records[0].appId == app || HasApp(records[1..], app) by {
        if HasApp(records, app) {
          var i :| 0 <= i < |records| && records[i].appId == app;
          assert i > 0 ==> records[1..][i - 1] == records[i];
        }
      }
    }
  }

  /** One more record changes the row of its own app and no other. */
  lemma RowMore(rd: Reading, records: seq<Input>, last: Input, app: JsString)
    requires HasApp(records, app) || last.appId == app
    ensures var (before, row) := (RowFor(rd, records, app), RowFor(rd, records + [last], app));
            if last.appId != app then row == before
            else row == AppRow(app, if HasApp(records, app) then before.appName else last.appName, before.records + 1,
                               before.serves + Serves(rd)(last), before.impressions + last.impressions, before.clicks + last.clicks)
  {
    FirstNameMore(records, last, app);
    assert (records + [last])[..|records|] == records;
  }

  lemma {:induction false} NoneYet(records: seq<Input>, app: JsString, g: Input -> nat)
    requires !HasApp(records, app)
    ensures TotalOf(records, app, g) == 0
  {
    if records != [] {
      NoneYet(records[..|records| - 1], app, g);
    }
  }

  lemma HasAppMore(records: seq<Input>, last: Input, app: JsString)
    ensures HasApp(records + [last], app) <==> HasApp(records, app) || last.appId == app
  {
    var all := records + [last];
    assert all[|records|] == last;
    if HasApp(records, app) {
      var i :| 0 <= i < |records| && records[i].appId == app;
      assert all[i] == records[i];
    }
  }

  /** What a new app starts from. */
  function EmptyRow(input: Input): AppRow {
    AppRow(input.appId, input.appName, 0, 0, 0, 0)
  }

  function Counted(rd: Reading, row: AppRow, input: Input): AppRow {
    AppRow(row.appId, row.appName, row.records + 1, row.serves + Serves(rd)(input), row.impressions + input.impressions,
           row.clicks + input.clicks)
  }

  lemma OwnRowMore(rd: Reading, records: seq<Input>, last: Input)
    ensures RowFor(rd, records + [last], last.appId) ==
            Counted(rd, if HasApp(records, last.appId) then RowFor(rd, records, last.appId) else EmptyRow(last), last)
  {
    RowMore(rd, records, last, last.appId);
    if !HasApp(records, last.appId) {
      NoneYet(records, last.appId, One);
      NoneYet(records, last.appId, Serves(rd));
      NoneYet(records, last.appId, Impressions);
      NoneYet(records, last.appId, Clicks);
    }
  }

  lemma RowsMore(rd: Reading, records: seq<Input>, rows: map<JsString, AppRow>, last: Input)
    requires RowsOf(rd, records, rows)
    ensures RowsOf(rd, records + [last], rows[last.appId := RowFor(rd, records + [last], last.appId)])
  {
    var all := records + [last];
    var next := rows[last.appId := RowFor(rd, all, last.appId)];
    forall app | app in next ensures HasApp(all, app) && next[app] == RowFor(rd, all, app) {
      HasAppMore(records, last, app);
      if app != last.appId {
        RowMore(rd, records, last, app);
      }
    }
  }

  lemma KnownApps(rd: Reading, records: seq<Input>, rows: map<JsString, AppRow>, app: JsString)
    requires RowsOf(rd, records, rows)
    ensures app in rows <==> HasApp(records, app)
  {
    if HasApp(records, app) {
      var i :| 0 <= i < |records| && records[i].appId == app;
    }
  }

  method AddTo(rd: Reading, row: AppRow, input: Input) returns (r: AppRow)
    ensures r == Counted(rd, row, input)
  {
    r := row.(records := row.records + 1, serves := row.serves + (if IsServe(rd, input) then 1 else 0));
    r := r.(impressions := r.impressions + input.impressions, clicks := r.clicks + input.clicks);
  }

  /** byApp, up to the sort. */
  method ByApp(rd: Reading, records: seq<Input>) returns (rows: map<JsString, AppRow>)
    ensures RowsOf(rd, records, rows)
  {
    hide EmptyRow, TotalOf;
    rows := map[];
    var i := 0;
    while i < |records|
      invariant 0 <= i <= |records|
      invariant RowsOf(rd, records[..i], rows)
    {
      var input := records[i];
      KnownApps(rd, records[..i], rows, input.appId);
      OwnRowMore(rd, records[..i], input);
      RowsMore(rd, records[..i], rows, input);
      assert records[..i + 1] == records[..i] + [input];
      var row := if input.appId in rows then rows[input.appId] else EmptyRow(input);
      row := AddTo(rd, row, input);
      rows := rows[input.appId := row];
      i := i + 1;
    }
    assert records[..i] == records;
  }

  // --------------------------------------------------------------------------------------- sorting

  /** A comparator Array.prototype.sort can follow: a strict weak order. */
  ghost predicate Comparator<T(!new)>(before: (T, T) -> bool) {
    && (forall a, b :: before(a, b) ==> !before(b, a))
    && (forall a, b, c {:trigger before(c, b), before(b, a)} :: !before(c, b) && !before(b, a) ==> !before(c, a))
  }

  predicate InOrder<T>(before: (T, T) -> bool, s: seq<T>) {
    forall i, j :: 0 <= i < j < |s| ==> !before(s[j], s[i])
  }

  function Insert<T>(before: (T, T) -> bool, s: seq<T>, x: T): seq<T> {
    if s == [] then [x]
    else if before(x, s[|s| - 1]) then Insert(before, s[..|s| - 1], x) + [s[|s| - 1]]
    else s + [x]
  }

  lemma {:induction false} InsertMeans<T(!new)>(before: (T, T) -> bool, s: seq<T>, x: T)
    ensures |Insert(before, s, x)| == |s| + 1 && forall y :: y in Insert(before, s, x) <==> y in s || y == x
  {
    if s != [] {
      var (init, last) := (s[..|s| - 1], s[|s| - 1]);
      assert s == init + [last];
      InsertMeans(before, init, x);
    }
  }

  lemma {:induction false} InsertInOrder<T(!new)>(before: (T, T) -> bool, s: seq<T>, x: T)
    requires Comparator(before) && InOrder(before, s)
    ensures InOrder(before, Insert(before, s, x))
  {
    if s != [] {
      var (init, last) := (s[..|s| - 1], s[|s| - 1]);
      if before(x, last) {
        InsertInOrder(before, init, x);
        InsertMeans(before, init, x);
        var t := Insert(before, init, x);
        forall i | 0 <= i < |t| ensures !before(last, t[i]) {
          assert t[i] in t;
        }
      } else {
        forall i | 0 <= i < |s| ensures !before(x, s[i]) {
          assert i < |s| - 1 ==> !before(last, s[i]);
        }
      }
    }
  }

  predicate DistinctKeys<T>(keyOf: T -> JsString, s: seq<T>) {
    forall i, j :: 0 <= i < j < |s| ==> keyOf(s[i]) != keyOf(s[j])
  }

  lemma {:induction false} InsertDistinct<T(!new)>(before: (T, T) -> bool, keyOf: T -> JsString, s: seq<T>, x: T)
    requires DistinctKeys(keyOf, s) && forall y <- s :: keyOf(y) != keyOf(x)
    ensures DistinctKeys(keyOf, Insert(before, s, x))
  {
    if s != [] && before(x, s[|s| - 1]) {
      var (init, last) := (s[..|s| - 1], s[|s| - 1]);
      assert forall y <- init :: y in s;
      InsertDistinct(before, keyOf, init, x);
      InsertMeans(before, init, x);
      assert last in s;
      OthersKeys(keyOf, s);
      var t := Insert(before, init, x);
      forall y | y in t ensures keyOf(y) != keyOf(last) {
        if y !in init {
          assert y == x;
          assert keyOf(last) != keyOf(x);
        } else {
          assert y in s[..|s| - 1];
        }
      }
      DistinctMore(keyOf, t, last);
    } else {
      DistinctMore(keyOf, s, x);
    }
  }

  lemma OthersKeys<T>(keyOf: T -> JsString, s: seq<T>)
    requires DistinctKeys(keyOf, s) && s != []
    ensures forall y <- s[..|s| - 1] :: keyOf(y) != keyOf(s[|s| - 1])
  {
  }

  lemma DistinctMore<T>(keyOf: T -> JsString, s: seq<T>, last: T)
    requires DistinctKeys(keyOf, s) && forall y <- s :: keyOf(y) != keyOf(last)
    ensures DistinctKeys(keyOf, s + [last])
  {
  }

  /** Most impressions first, then most records, then by name. */
  predicate RowBefore(rd: Reading, a: AppRow, b: AppRow) {
    || a.impressions > b.impressions
    || (a.impressions == b.impressions && a.records > b.records)
    || (a.impressions == b.impressions && a.records == b.records && rd.collate(a.appId) < rd.collate(b.appId))
  }

  function RowOrder(rd: Reading): (AppRow, AppRow) -> bool {
    (a: AppRow, b: AppRow) => RowBefore(rd, a, b)
  }

  datatype Ranked = Ranked(key: JsString, count: nat)

  /** Most frequent first, then by name. */
  predicate CountBefore(rd: Reading, a: Ranked, b: Ranked) {
    a.count > b.count || (a.count == b.count && rd.collate(a.key) < rd.collate(b.key))
  }

  function CountOrder(rd: Reading): (Ranked, Ranked) -> bool {
    (a: Ranked, b: Ranked) => CountBefore(rd, a, b)
  }

  /** The values of a Map in order, each once. */
  ghost predicate Lists<T>(before: (T, T) -> bool, entries: map<JsString, T>, keyOf: T -> JsString, s: seq<T>) {
    && InOrder(before, s) && |s| == |entries| && DistinctKeys(keyOf, s)
    && (forall x <- s :: keyOf(x) in entries && x == entries[keyOf(x)])
    && (forall k <- entries :: entries[k] in s)
  }

  /** The values of a Map, sorted. */
  method SortedValues<T(!new)>(before: (T, T) -> bool, entries: map<JsString, T>, keyOf: T -> JsString) returns (s: seq<T>)
    requires Comparator(before) && forall k <- entries :: keyOf(entries[k]) == k
    ensures Lists(before, entries, keyOf, s)
  {
    s := [];
    var keys := entries.Keys;
    while keys != {}
      invariant keys <= entries.Keys && InOrder(before, s) && |s| + |keys| == |entries| && DistinctKeys(keyOf, s)
      invariant forall x <- s :: keyOf(x) in entries && keyOf(x) !in keys && x == entries[keyOf(x)]
      invariant forall k <- entries :: k in keys || entries[k] in s
      decreases |keys|
    {
      var key :| key in keys;
      InsertInOrder(before, s, entries[key]);
      InsertMeans(before, s, entries[key]);
      InsertDistinct(before, keyOf, s, entries[key]);
      s := Insert(before, s, entries[key]);
      keys := keys - {key};
    }
  }

  function AppOf(row: AppRow): JsString { row.appId }

  /** One row for every app, with its counts, in the order of the report. */
  ghost predicate AppsRanked(rd: Reading, records: seq<Input>, rows: seq<AppRow>) {
    exists byApp :: RowsOf(rd, records, byApp) && Lists(RowOrder(rd), byApp, AppOf, rows)
  }

  /** byApp. */
  method RankedApps(rd: Reading, records: seq<Input>) returns (rows: seq<AppRow>)
    ensures AppsRanked(rd, records, rows)
  {
    var found := ByApp(rd, records);
    rows := SortedValues(RowOrder(rd), found, AppOf);
  }

  // ---------------------------------------------------------------------------------- conservation

  function SumRows(rows: seq<AppRow>, f: AppRow -> nat): nat {
    if rows == [] then 0 else SumRows(rows[..|rows| - 1], f) + f(rows[|rows| - 1])
  }

  /** The sum over some apps of what each of them has. */
  function SumApps(apps: seq<JsString>, records: seq<Input>, g: Input -> nat): nat {
    if apps == [] then 0 else SumApps(apps[..|apps| - 1], records, g) + TotalOf(records, apps[|apps| - 1], g)
  }

  predicate DistinctApps(apps: seq<JsString>) {
    forall i, j :: 0 <= i < j < |apps| ==> apps[i] != apps[j]
  }

  lemma {:induction false} SumAppsEmpty(apps: seq<JsString>, g: Input -> nat)
    ensures SumApps(apps, [], g) == 0
  {
    if apps != [] {
      SumAppsEmpty(apps[..|apps| - 1], g);
    }
  }

  lemma LastIsNew(apps: seq<JsString>)
    requires DistinctApps(apps) && apps != []
    ensures apps[|apps| - 1] !in apps[..|apps| - 1]
  {
  }

  lemma {:induction false} SumAppsMore(apps: seq<JsString>, records: seq<Input>, last: Input, g: Input -> nat)
    requires DistinctApps(apps)
    ensures SumApps(apps, records + [last], g) == SumApps(apps, records, g) + (if last.appId in apps then g(last) else 0)
  {
    assert (records + [last])[..|records|] == records;
    if apps != [] {
      var (init, app) := (apps[..|apps| - 1], apps[|apps| - 1]);
      SumAppsMore(init, records, last, g);
      LastIsNew(apps);
      assert apps == init + [app];
    }
  }

  /** Each record belongs to exactly one of the apps, so the apps add up to the whole. */
  lemma {:induction false} AppsAddUp(apps: seq<JsString>, records: seq<Input>, g: Input -> nat)
    requires DistinctApps(apps) && forall i :: 0 <= i < |records| ==> records[i].appId in apps
    ensures SumApps(apps, records, g) == Total(records, g)
  {
    if records == [] {
      SumAppsEmpty(apps, g);
    } else {
      var (init, last) := (records[..|records| - 1], records[|records| - 1]);
      AppsAddUp(apps, init, g);
      SumAppsMore(apps, init, last, g);
      assert records == init + [last];
    }
  }

  function AppsOf(rows: seq<AppRow>): seq<JsString> {
    seq(|rows|, i requires 0 <= i < |rows| => rows[i].appId)
  }

  lemma {:induction false} RowsAreApps(rows: seq<AppRow>, records: seq<Input>, f: AppRow -> nat, g: Input -> nat)
    requires forall i :: 0 <= i < |rows| ==> f(rows[i]) == TotalOf(records, rows[i].appId, g)
    ensures SumRows(rows, f) == SumApps(AppsOf(rows), records, g)
  {
    if rows != [] {
      var init := rows[..|rows| - 1];
      RowsAreApps(init, records, f, g);
      assert AppsOf(rows)[..|rows| - 1] == AppsOf(init);
    }
  }

  lemma {:induction false} TotalOfOnes(records: seq<Input>)
    ensures Total(records, One) == |records|
  {
    if records != [] {
      TotalOfOnes(records[..|records| - 1]);
    }
  }

  lemma ColumnAddsUp(records: seq<Input>, rows: seq<AppRow>, f: AppRow -> nat, g: Input -> nat)
    requires DistinctApps(AppsOf(rows)) && forall i :: 0 <= i < |records| ==> records[i].appId in AppsOf(rows)
    requires forall i :: 0 <= i < |rows| ==> f(rows[i]) == TotalOf(records, rows[i].appId, g)
    ensures SumRows(rows, f) == Total(records, g)
  {
    RowsAreApps(rows, records, f, g);
    AppsAddUp(AppsOf(rows), records, g);
  }

  lemma ListedApps(rd: Reading, records: seq<Input>, rows: seq<AppRow>)
    requires AppsRanked(rd, records, rows)
    ensures DistinctApps(AppsOf(rows)) && forall i :: 0 <= i < |records| ==> records[i].appId in AppsOf(rows)
    ensures forall i :: 0 <= i < |rows| ==> rows[i] == RowFor(rd, records, rows[i].appId)
  {
    hide RowOrder, InOrder, TotalOf, FirstName, HasApp;
    var byApp :| RowsOf(rd, records, byApp) && Lists(RowOrder(rd), byApp, AppOf, rows);
    forall i | 0 <= i < |rows| ensures rows[i] == RowFor(rd, records, rows[i].appId) {
      assert rows[i] in rows;
    }
    forall i, j | 0 <= i < j < |rows| ensures AppsOf(rows)[i] != AppsOf(rows)[j] {
      assert AppOf(rows[i]) != AppOf(rows[j]);
    }
    forall i | 0 <= i < |records| ensures records[i].appId in AppsOf(rows) {
      var row := byApp[records[i].appId];
      assert row in rows;
      var k :| 0 <= k < |rows| && rows[k] == row;
      assert AppsOf(rows)[k] == row.appId;
    }
  }

  /** Per-app records, serves, impressions and clicks sum to the totals. */
  lemma AppsSumToTotals(rd: Reading, records: seq<Input>, rows: seq<AppRow>)
    requires AppsRanked(rd, records, rows)
    ensures var t := TotalsOf(rd, records);
            && SumRows(rows, (r: AppRow) => r.records) == t.records
            && SumRows(rows, (r: AppRow) => r.serves) == t.serves
            && SumRows(rows, (r: AppRow) => r.impressions) == t.impressions
            && SumRows(rows, (r: AppRow) => r.clicks) == t.clicks
  {
    hide AppsRanked;
    ListedApps(rd, records, rows);
    ColumnAddsUp(records, rows, (r: AppRow) => r.records, One);
    ColumnAddsUp(records, rows, (r: AppRow) => r.serves, Serves(rd));
    ColumnAddsUp(records, rows, (r: AppRow) => r.impressions, Impressions);
    ColumnAddsUp(records, rows, (r: AppRow) => r.clicks, Clicks);
    TotalOfOnes(records);
  }

  // ---------------------------------------------------------------------------------- categories

  /** On how many records a tag stands. */
  function Tally(records: seq<Input>, tags: Input -> set<JsString>, tag: JsString): nat {
    if records == [] then 0
    else Tally(records[..|records| - 1], tags, tag) + if tag in tags(records[|records| - 1]) then 1 else 0
  }

  /** A count for every tag that stands anywhere, and the true one. */
  ghost predicate Tallies(records: seq<Input>, tags: Input -> set<JsString>, counts: map<JsString, nat>) {
    forall tag :: (if tag in counts then counts[tag] else 0) == Tally(records, tags, tag) && (tag in counts ==> counts[tag] > 0)
  }

  /** `bump` for each tag of each record. */
  method CountTags(records: seq<Input>, tags: Input -> set<JsString>) returns (counts: map<JsString, nat>)
    ensures Tallies(records, tags, counts)
  {
    counts := map[];
    var i := 0;
    while i < |records|
      invariant 0 <= i <= |records|
      invariant Tallies(records[..i], tags, counts)
    {
      assert records[..i + 1][..i] == records[..i];
      ghost var before := counts;
      var left := tags(records[i]);
      while left != {}
        invariant left <= tags(records[i])
        invariant forall tag :: (if tag in counts then counts[tag] else 0) ==
                    (if tag in before then before[tag] else 0) + (if tag in tags(records[i]) && tag !in left then 1 else 0)
        invariant forall tag <- counts :: counts[tag] > 0
        decreases |left|
      {
        var tag :| tag in left;
        left := left - {tag};
        counts := counts[tag := (if tag in counts then counts[tag] else 0) + 1];
      }
      i := i + 1;
    }
    assert records[..i] == records;
  }

  /** rank: the true counts, each tag once, most frequent first. */
  method Rank(rd: Reading, counts: map<JsString, nat>) returns (ranked: seq<Ranked>)
    ensures Lists(CountOrder(rd), (map k | k in counts :: Ranked(k, counts[k])), (r: Ranked) => r.key, ranked)
  {
    ranked := SortedValues(CountOrder(rd), map k | k in counts :: Ranked(k, counts[k]), (r: Ranked) => r.key);
  }

  function CategoriesOf(rd: Reading): Input -> set<JsString> {
    (i: Input) => if i.record.None? then {} else rd.categories(i.record.value)
  }

  function SensitiveOf(rd: Reading): Input -> set<JsString> {
    (i: Input) => if i.record.None? then {} else rd.sensitive(i.record.value)
  }

  datatype Distribution = Distribution(records: nat, ranked: seq<Ranked>)

  /** What `ranked` is the ranking of: for every tag on any record how many records it stands on. */
  ghost predicate Ranks(rd: Reading, records: seq<Input>, tags: Input -> set<JsString>, ranked: seq<Ranked>) {
    && InOrder(CountOrder(rd), ranked)
    && (forall r <- ranked :: r.count == Tally(records, tags, r.key) > 0)
    && (forall tag :: Tally(records, tags, tag) > 0 ==> Ranked(tag, Tally(records, tags, tag)) in ranked)
    && (forall i, j :: 0 <= i < j < |ranked| ==> ranked[i].key != ranked[j].key)
  }

  method RankTags(rd: Reading, records: seq<Input>, tags: Input -> set<JsString>) returns (ranked: seq<Ranked>)
    ensures Ranks(rd, records, tags, ranked)
  {
    var counts := CountTags(records, tags);
    ranked := Rank(rd, counts);
    ghost var entries := map k | k in counts :: Ranked(k, counts[k]);
    forall tag | Tally(records, tags, tag) > 0 ensures Ranked(tag, Tally(records, tags, tag)) in ranked {
      assert tag in counts && entries[tag] in ranked;
    }
  }

  function Readable(i: Input): nat { if i.record.Some? then 1 else 0 }

  /** categoryDistribution. */
  method CategoryDistribution(rd: Reading, records: seq<Input>) returns (d: Distribution)
    ensures d.records == Total(records, Readable) && Ranks(rd, records, CategoriesOf(rd), d.ranked)
    ensures d.records + TotalsOf(rd, records).unreadable == |records|
  {
    var readable := 0;
    var i := 0;
    while i < |records|
      invariant 0 <= i <= |records| && readable == Total(records[..i], Readable)
      invariant readable + Total(records[..i], Unreadable) == i
    {
      assert records[..i + 1][..i] == records[..i];
      if records[i].record.Some? {
        readable := readable + 1;
      }
      i := i + 1;
    }
    assert records[..i] == records;
    var ranked := RankTags(rd, records, CategoriesOf(rd));
    d := Distribution(readable, ranked);
  }

  function Exposed(rd: Reading): Input -> nat {
    (i: Input) => if SensitiveOf(rd)(i) != {} then 1 else 0
  }

  /** sensitiveExposures. */
  method SensitiveExposures(rd: Reading, records: seq<Input>) returns (d: Distribution, healthy: bool)
    ensures d.records == Total(records, Exposed(rd)) && Ranks(rd, records, SensitiveOf(rd), d.ranked)
    ensures healthy <==> forall i :: 0 <= i < |records| && records[i].record.Some? ==> rd.sensitive(records[i].record.value) == {}
  {
    var exposed := 0;
    var i := 0;
    while i < |records|
      invariant 0 <= i <= |records| && exposed == Total(records[..i], Exposed(rd))
      invariant exposed == 0 <==> forall k :: 0 <= k < i ==> SensitiveOf(rd)(records[k]) == {}
    {
      assert records[..i + 1][..i] == records[..i];
      if SensitiveOf(rd)(records[i]) != {} {
        exposed := exposed + 1;
      }
      i := i + 1;
    }
    assert records[..i] == records;
    var ranked := RankTags(rd, records, SensitiveOf(rd));
    d := Distribution(exposed, ranked);
    healthy := exposed == 0;
  }

  // ------------------------------------------------------------------------------------ integrity

  datatype Status = AllVerified | NoneVerified | Partial | Empty

  datatype Failure = Failure(auditId: JsString, recordHash: JsString, checks: seq<CheckName>)

  datatype Integrity = Integrity(
    status: Status, verified: nat, failed: nat, total: nat, failedChecks: seq<CheckName>, failures: seq<Failure>, omitted: nat)

  const MAX_LISTED_FAILURES := 50

  predicate IsIntegrityCheck(name: CheckName) {
    name != DisclosureCheck && name != SeparationCheck
  }

  /** failedChecksOf. */
  function FailedChecks(checks: seq<Check>): seq<CheckName> {
    if checks == [] then []
    else
      var (rest, last) := (FailedChecks(checks[..|checks| - 1]), checks[|checks| - 1]);
      if !last.ok && IsIntegrityCheck(last.name) then rest + [last.name] else rest
  }

  lemma {:induction false} FailedChecksMeans(checks: seq<Check>, name: CheckName)
    ensures name in FailedChecks(checks) <==>
              IsIntegrityCheck(name) && exists i :: 0 <= i < |checks| && !checks[i].ok && checks[i].name == name
  {
    if checks != [] {
      FailedChecksMeans(checks[..|checks| - 1], name);
      assert forall i :: 0 <= i < |checks| - 1 ==> checks[..|checks| - 1][i] == checks[i];
    }
  }

  function FailedOf(i: Input): seq<CheckName> {
    FailedChecks(i.verification.checks)
  }

  function FailuresOf(records: seq<Input>): seq<Failure> {
    if records == [] then []
    else
      var (rest, last) := (FailuresOf(records[..|records| - 1]), records[|records| - 1]);
      if FailedOf(last) == [] then rest else rest + [Failure(last.auditId, last.recordHash, FailedOf(last))]
  }

  function Verified(i: Input): nat { if FailedOf(i) == [] then 1 else 0 }

  function StatusOf(verified: nat, total: nat): Status {
    if total == 0 then Empty else if verified == total then AllVerified else if verified == 0 then NoneVerified else Partial
  }

  /** Some record fails an integrity check of that name. */
  ghost predicate FailsSomewhere(records: seq<Input>, name: CheckName) {
    IsIntegrityCheck(name) && exists i :: 0 <= i < |records| && FailsCheck(records[i].verification.checks, name)
  }

  ghost predicate FailsCheck(checks: seq<Check>, name: CheckName) {
    exists k :: 0 <= k < |checks| && !checks[k].ok && checks[k].name == name
  }

  predicate InCheckOrder(names: seq<CheckName>) {
    forall i, j :: 0 <= i < j < |names| ==> OrderOf(names[i]) < OrderOf(names[j])
  }

  /** Array.prototype.filter over the check names. */
  function OfThose(names: seq<CheckName>, failed: set<CheckName>): seq<CheckName> {
    if names == [] then []
    else OfThose(names[..|names| - 1], failed) + if names[|names| - 1] in failed then [names[|names| - 1]] else []
  }

  lemma {:induction false} FilteredMeans(names: seq<CheckName>, failed: set<CheckName>)
    requires InCheckOrder(names)
    ensures forall name :: name in OfThose(names, failed) <==> name in names && name in failed
    ensures InCheckOrder(OfThose(names, failed))
  {
    if names != [] {
      var (init, last) := (names[..|names| - 1], names[|names| - 1]);
      assert names == init + [last];
      FilteredMeans(init, failed);
      assert forall name :: name in OfThose(init, failed) ==> OrderOf(name) < OrderOf(last);
    }
  }

  lemma EveryCheckIsListed(name: CheckName)
    ensures name in CHECK_ORDER
    ensures InCheckOrder(CHECK_ORDER)
  {
    assert CHECK_ORDER[OrderOf(name)] == name;
  }

  lemma FailsMeans(records: seq<Input>, name: CheckName)
    ensures FailsSomewhere(records, name) <==> exists i :: 0 <= i < |records| && name in FailedOf(records[i])
  {
    forall i | 0 <= i < |records|
      ensures name in FailedOf(records[i]) <==> IsIntegrityCheck(name) && FailsCheck(records[i].verification.checks, name)
    {
      FailedChecksMeans(records[i].verification.checks, name);
    }
  }

  lemma OneMoreFailing(records: seq<Input>, last: Input)
    ensures Total(records + [last], Verified) == Total(records, Verified) + Verified(last)
    ensures FailuresOf(records + [last]) == FailuresOf(records)
         + if FailedOf(last) == [] then [] else [Failure(last.auditId, last.recordHash, FailedOf(last))]
  {
    hide FailedOf;
    assert (records + [last])[..|records|] == records;
  }

  lemma NoneFails()
    ensures forall name :: !FailsSomewhere([], name)
  {
  }

  /** chainIntegrity's loop. */
  method SortOut(records: seq<Input>) returns (verified: nat, failures: seq<Failure>, failedChecks: set<CheckName>)
    ensures verified == Total(records, Verified) && failures == FailuresOf(records) && verified + |failures| == |records|
    ensures forall n :: n in failedChecks <==> FailsSomewhere(records, n)
  {
    hide FailedOf, FailsSomewhere;
    NoneFails();
    failures, failedChecks, verified := [], {}, 0;
    var i := 0;
    while i < |records|
      invariant 0 <= i <= |records|
      invariant verified == Total(records[..i], Verified) && failures == FailuresOf(records[..i])
      invariant verified + |failures| == i
      invariant forall n :: n in failedChecks <==> FailsSomewhere(records[..i], n)
    {
      var checks := FailedOf(records[i]);
      FailsMore(records[..i], records[i]);
      OneMoreFailing(records[..i], records[i]);
      assert records[..i + 1] == records[..i] + [records[i]];
      if checks == [] {
        verified := verified + 1;
      } else {
        failedChecks := failedChecks + set n | n in checks;
        failures := failures + [Failure(records[i].auditId, records[i].recordHash, checks)];
      }
      i := i + 1;
    }
    assert records[..i] == records;
  }

  /** chainIntegrity. */
  method ChainIntegrity(records: seq<Input>) returns (r: Integrity)
    ensures r.total == |records| && r.verified == Total(records, Verified)
    ensures r.verified + r.failed == r.total && |r.failures| + r.omitted == r.failed
    ensures r.failures <= FailuresOf(records) && |r.failures| <= 50 && (r.omitted > 0 ==> |r.failures| == 50)
    ensures forall name :: name in r.failedChecks <==> FailsSomewhere(records, name)
    ensures InCheckOrder(r.failedChecks)
    ensures r.status == StatusOf(r.verified, r.total)
  {
    hide FailedOf, FailuresOf, FailsSomewhere, InCheckOrder, OfThose;
    var verified, failures, failedChecks := SortOut(records);
    forall name ensures name in CHECK_ORDER {
      EveryCheckIsListed(name);
    }
    EveryCheckIsListed(SchemaCheck);
    FilteredMeans(CHECK_ORDER, failedChecks);
    var listed := if |failures| <= MAX_LISTED_FAILURES then |failures| else MAX_LISTED_FAILURES;
    r := Integrity(StatusOf(verified, |records|), verified, |failures|, |records|, OfThose(CHECK_ORDER, failedChecks),
                   failures[..listed], |failures| - listed);
  }

  lemma FailsMore(records: seq<Input>, last: Input)
    ensures forall n :: FailsSomewhere(records + [last], n) <==> FailsSomewhere(records, n) || n in FailedOf(last)
  {
    hide FailedOf, FailsSomewhere;
    var all := records + [last];
    assert all[|records|] == last && forall i :: 0 <= i < |records| ==> all[i] == records[i];
    forall n ensures FailsSomewhere(all, n) <==> FailsSomewhere(records, n) || n in FailedOf(last) {
      FailsMeans(all, n);
      FailsMeans(records, n);
    }
  }

  lemma {:induction false} VerifiedBounds(records: seq<Input>)
    ensures Total(records, Verified) <= |records|
    ensures Total(records, Verified) == |records| <==> forall i :: 0 <= i < |records| ==> FailedOf(records[i]) == []
    ensures Total(records, Verified) == 0 <==> forall i :: 0 <= i < |records| ==> FailedOf(records[i]) != []
  {
    if records != [] {
      VerifiedBounds(records[..|records| - 1]);
      assert forall i :: 0 <= i < |records| - 1 ==> records[..|records| - 1][i] == records[i];
    }
  }

  /** `all`, `none`, `partial` and `empty` say what they say of the records themselves. */
  lemma StatusMeans(records: seq<Input>)
    ensures var s := StatusOf(Total(records, Verified), |records|);
            && (s == Empty <==> records == [])
            && (s == AllVerified <==> records != [] && forall i :: 0 <= i < |records| ==> FailedOf(records[i]) == [])
            && (s == NoneVerified <==> records != [] && forall i :: 0 <= i < |records| ==> FailedOf(records[i]) != [])
  {
    VerifiedBounds(records);
  }

  // ----------------------------------------------------------------------------------- compliance

  /** label.trim(). */
  function TrimmedUnits(s: JsString): JsString {
    TrimmedOf(s, (unit: CodeUnit) => IsWhite(unit))
  }

  /** isDisclosureCompliant: the report's own list of conditions. */
  predicate IsDisclosureCompliant(rd: Reading, record: Option<AuditRecord>) {
    record.Some? && (
      var block := record.value[DisclosureBlock];
      var caption := Prop(rd.contract, block, LabelKey);
      && caption.Str? && TrimmedUnits(caption.s) != []
      && Prop(rd.contract, block, PositionKey) == Said(rd.contract, AfterAnswer)
      && Prop(rd.contract, block, StyleKey) == Said(rd.contract, SeparateBlock))
  }

  function Compliant(rd: Reading): Input -> nat {
    (i: Input) => if IsDisclosureCompliant(rd, i.record) then 1 else 0
  }

  /** How many records verification's own disclosure check accepts. */
  function Accepted(rd: Reading): Input -> nat {
    (i: Input) => if i.record.Some? && CheckDisclosure(rd.contract, i.record.value).ok then 1 else 0
  }

  /** Trimming leaves something of a label exactly when the check finds a unit that is not blank. */
  lemma CompliantIsAccepted(rd: Reading, i: Input)
    ensures Compliant(rd)(i) == Accepted(rd)(i)
  {
    if i.record.Some? {
      var caption := Prop(rd.contract, i.record.value[DisclosureBlock], LabelKey);
      if caption.Str? {
        TrimmedAway(caption.s, (unit: CodeUnit) => IsWhite(unit));
      }
    }
  }

  /** The report's disclosure numerator counts exactly the records that verification would pass. */
  lemma {:induction false} DisclosureAgrees(rd: Reading, records: seq<Input>)
    ensures Total(records, Compliant(rd)) == Total(records, Accepted(rd)) <= |records|
  {
    if records != [] {
      DisclosureAgrees(rd, records[..|records| - 1]);
      CompliantIsAccepted(rd, records[|records| - 1]);
    }
  }
}
