/**
 What the numbers of a report mean, said of the records themselves: every count is the number of records
 with a property of their fields, every ranking is an order on the fields of its rows, and the failures
 are the records that fail.
 */
module ReportLaws {
  import opened Options
  import opened Utf16
  import opened CanonicalJson
  import opened AuditRecords
  import opened Verify
  import opened Report

  // ------------------------------------------------------------------------------------- counts

  /** Where the records with a property stand. */
  function Where(records: seq<Input>, p: Input -> bool): set<nat> {
    set i | 0 <= i < |records| && p(records[i])
  }

  lemma {:induction false} CountIs(records: seq<Input>, g: Input -> nat, p: Input -> bool)
    requires forall x: Input :: g(x) == if p(x) then 1 else 0
    ensures Total(records, g) == |set i | 0 <= i < |records| && p(records[i])|
  {
    if records == [] {
      assert Where(records, p) == {};
    } else {
      var (init, n) := (records[..|records| - 1], |records| - 1);
      CountIs(init, g, p);
      assert Where(records, p) == Where(init, p) + if p(records[n]) then {n} else {};
    }
  }

  /** The records of one app are counted as if there were no others. */
  lemma {:induction false} TotalOfIsTotal(records: seq<Input>, app: JsString, g: Input -> nat)
    ensures TotalOf(records, app, g) == Total(records, (x: Input) => if x.appId == app then g(x) else 0)
  {
    if records != [] {
      TotalOfIsTotal(records[..|records| - 1], app, g);
    }
  }

  lemma CountOfIs(records: seq<Input>, app: JsString, g: Input -> nat, p: Input -> bool)
    requires forall x: Input :: g(x) == if p(x) then 1 else 0
    ensures TotalOf(records, app, g) == |set i | 0 <= i < |records| && records[i].appId == app && p(records[i])|
  {
    TotalOfIsTotal(records, app, g);
    var (h, q) := ((x: Input) => if x.appId == app then g(x) else 0, (x: Input) => x.appId == app && p(x));
    CountIs(records, h, q);
    assert (set i | 0 <= i < |records| && q(records[i])) ==
           (set i | 0 <= i < |records| && records[i].appId == app && p(records[i]));
  }

  function Sum(s: seq<nat>): nat {
    if s == [] then 0 else Sum(s[..|s| - 1]) + s[|s| - 1]
  }

  function AllImpressions(records: seq<Input>): seq<nat> {
    seq(|records|, i requires 0 <= i < |records| => records[i].impressions)
  }

  function AllClicks(records: seq<Input>): seq<nat> {
    seq(|records|, i requires 0 <= i < |records| => records[i].clicks)
  }

  /** The records of one app. */
  function Of(records: seq<Input>, app: JsString): seq<Input> {
    if records == [] then []
    else
      var (earlier, last) := (Of(records[..|records| - 1], app), records[|records| - 1]);
      if last.appId == app then earlier + [last] else earlier
  }

  lemma {:induction false} SumsAre(records: seq<Input>)
    ensures Total(records, Impressions) == Sum(AllImpressions(records)) && Total(records, Clicks) == Sum(AllClicks(records))
  {
    if records != [] {
      var init := records[..|records| - 1];
      SumsAre(init);
      assert AllImpressions(records)[..|init|] == AllImpressions(init) && AllClicks(records)[..|init|] == AllClicks(init);
    }
  }

  lemma {:induction false} TotalOfThose(records: seq<Input>, app: JsString, g: Input -> nat)
    ensures TotalOf(records, app, g) == Total(Of(records, app), g)
  {
    if records != [] {
      TotalOfThose(records[..|records| - 1], app, g);
      var earlier := Of(records[..|records| - 1], app);
      assert (earlier + [records[|records| - 1]])[..|earlier|] == earlier;
    }
  }

  /** A readable record that decided to serve. */
  ghost predicate Served(rd: Reading, i: Input) {
    exists r :: i.record == Some(r) && r[Decided] == Str(rd.contract.word(Serve))
  }

  lemma ServedIs(rd: Reading)
    ensures forall x: Input :: Serves(rd)(x) == if Served(rd, x) then 1 else 0
  {
  }

  /** The totals count the unreadable records and the serves; nothing is counted twice or left out. */
  lemma TotalsCount(rd: Reading, records: seq<Input>)
    ensures var t := TotalsOf(rd, records);
            && t.records == |records|
            && t.serves == |set i | 0 <= i < |records| && Served(rd, records[i])|
            && t.unreadable == |set i | 0 <= i < |records| && records[i].record == None|
            && t.impressions == Sum(AllImpressions(records)) && t.clicks == Sum(AllClicks(records))
  {
    hide Served, Sum, AllImpressions, AllClicks;
    SumsAre(records);
    ServedIs(rd);
    CountIs(records, Serves(rd), (x: Input) => Served(rd, x));
    CountIs(records, Unreadable, (x: Input) => x.record == None);
    assert (set i | 0 <= i < |records| && ((x: Input) => Served(rd, x))(records[i])) ==
           (set i | 0 <= i < |records| && Served(rd, records[i]));
    assert (set i | 0 <= i < |records| && ((x: Input) => x.record == None)(records[i])) ==
           (set i | 0 <= i < |records| && records[i].record == None);
  }

  // --------------------------------------------------------------------------------- the app rows

  lemma RowCounts(rd: Reading, records: seq<Input>, app: JsString)
    ensures var row := RowFor(rd, records, app);
            && row.records == |set i | 0 <= i < |records| && records[i].appId == app|
            && row.serves == |set i | 0 <= i < |records| && records[i].appId == app && Served(rd, records[i])|
  {
    hide Served, TotalOf;
    ServedIs(rd);
    CountOfIs(records, app, Serves(rd), (x: Input) => Served(rd, x));
    CountOfIs(records, app, One, (x: Input) => true);
    assert (set i | 0 <= i < |records| && records[i].appId == app && ((x: Input) => true)(records[i])) ==
           (set i | 0 <= i < |records| && records[i].appId == app);
    assert (set i | 0 <= i < |records| && records[i].appId == app && ((x: Input) => Served(rd, x))(records[i])) ==
           (set i | 0 <= i < |records| && records[i].appId == app && Served(rd, records[i]));
  }

  predicate FirstOf(records: seq<Input>, app: JsString, i: nat) {
    i < |records| && records[i].appId == app && forall k :: 0 <= k < i ==> records[k].appId != app
  }

  lemma {:induction false} NameIsFirst(records: seq<Input>, app: JsString, i: nat)
    requires FirstOf(records, app, i)
    ensures FirstName(records, app) == records[i].appName
  {
    if i > 0 {
      assert records[0].appId != app;
      NameIsFirst(records[1..], app, i - 1);
    }
  }

  lemma RowSums(rd: Reading, records: seq<Input>, app: JsString)
    ensures var row := RowFor(rd, records, app);
            && row.appId == app && row.appName == FirstName(records, app)
            && row.impressions == Sum(AllImpressions(Of(records, app)))
            && row.clicks == Sum(AllClicks(Of(records, app)))
  {
    hide FirstName, TotalOf, Total, Of, Sum, AllImpressions, AllClicks;
    TotalOfThose(records, app, Impressions);
    TotalOfThose(records, app, Clicks);
    SumsAre(Of(records, app));
  }

  predicate HasRow(rows: seq<AppRow>, app: JsString) {
    exists j :: 0 <= j < |rows| && rows[j].appId == app
  }

  /** One row for each app of any record. */
  lemma AppsListed(rd: Reading, records: seq<Input>, rows: seq<AppRow>)
    requires AppsRanked(rd, records, rows)
    ensures forall app :: HasApp(records, app) <==> HasRow(rows, app)
    ensures forall i, j :: 0 <= i < j < |rows| ==> rows[i].appId != rows[j].appId
    ensures forall row <- rows :: row == RowFor(rd, records, row.appId)
  {
    hide RowFor, HasApp, RowOrder, InOrder;
    var byApp :| RowsOf(rd, records, byApp) && Lists(RowOrder(rd), byApp, AppOf, rows);
    forall i, j | 0 <= i < j < |rows| ensures rows[i].appId != rows[j].appId {
      assert AppOf(rows[i]) != AppOf(rows[j]);
    }
    forall row | row in rows ensures row.appId in byApp && row == RowFor(rd, records, row.appId) {
      assert AppOf(row) in byApp;
    }
    forall app ensures HasApp(records, app) <==> HasRow(rows, app) {
      KnownApps(rd, records, byApp, app);
      if app in byApp {
        assert byApp[app] in rows && byApp[app] == RowFor(rd, records, app);
        RowSums(rd, records, app);
      }
    }
  }

  /**
   A row by app: named as on the first record of the app, with the number of its records and serves and the
   sums of their impressions and clicks.
   */
  lemma AppRowMeans(rd: Reading, records: seq<Input>, rows: seq<AppRow>, row: AppRow)
    requires AppsRanked(rd, records, rows) && row in rows
    ensures row.records == |set i | 0 <= i < |records| && records[i].appId == row.appId|
    ensures row.serves == |set i | 0 <= i < |records| && records[i].appId == row.appId && Served(rd, records[i])|
    ensures row.impressions == Sum(AllImpressions(Of(records, row.appId)))
    ensures row.clicks == Sum(AllClicks(Of(records, row.appId)))
    ensures forall i: nat :: FirstOf(records, row.appId, i) ==> row.appName == records[i].appName
  {
    hide RowFor, Served, FirstName, TotalOf, Of, Sum, AllImpressions, AllClicks, AppsRanked;
    AppsListed(rd, records, rows);
    RowCounts(rd, records, row.appId);
    RowSums(rd, records, row.appId);
    forall i: nat | FirstOf(records, row.appId, i) ensures row.appName == records[i].appName {
      NameIsFirst(records, row.appId, i);
    }
  }

  // -------------------------------------------------------------------------------- the rankings

  /** Most impressions first, among equals most records, among equals by name. */
  lemma AppsInOrder(rd: Reading, records: seq<Input>, rows: seq<AppRow>, i: nat, j: nat)
    requires AppsRanked(rd, records, rows) && i < j < |rows|
    ensures rows[i].impressions >= rows[j].impressions
    ensures rows[i].impressions == rows[j].impressions ==> rows[i].records >= rows[j].records
    ensures rows[i].impressions == rows[j].impressions && rows[i].records == rows[j].records ==>
              rd.collate(rows[i].appId) <= rd.collate(rows[j].appId)
  {
    hide RowsOf;
    var byApp :| RowsOf(rd, records, byApp) && Lists(RowOrder(rd), byApp, AppOf, rows);
    assert !RowOrder(rd)(rows[j], rows[i]);
  }

  lemma TallyIs(records: seq<Input>, tags: Input -> set<JsString>, tag: JsString)
    ensures Tally(records, tags, tag) == |set i | 0 <= i < |records| && tag in tags(records[i])|
  {
    var g := (x: Input) => if tag in tags(x) then 1 else 0;
    TallyIsTotal(records, tags, tag, g);
    CountIs(records, g, (x: Input) => tag in tags(x));
    assert Where(records, (x: Input) => tag in tags(x)) == set i | 0 <= i < |records| && tag in tags(records[i]);
  }

  lemma {:induction false} TallyIsTotal(records: seq<Input>, tags: Input -> set<JsString>, tag: JsString, g: Input -> nat)
    requires forall x: Input :: g(x) == if tag in tags(x) then 1 else 0
    ensures Tally(records, tags, tag) == Total(records, g)
  {
    if records != [] {
      TallyIsTotal(records[..|records| - 1], tags, tag, g);
    }
  }

  predicate Occurs(records: seq<Input>, tags: Input -> set<JsString>, tag: JsString) {
    exists i :: 0 <= i < |records| && tag in tags(records[i])
  }

  predicate Listed(ranked: seq<Ranked>, tag: JsString) {
    exists j :: 0 <= j < |ranked| && ranked[j].key == tag
  }

  lemma OccursIs(records: seq<Input>, tags: Input -> set<JsString>, tag: JsString)
    ensures Occurs(records, tags, tag) <==> Tally(records, tags, tag) > 0
  {
    hide Tally;
    TallyIs(records, tags, tag);
    var on := set i | 0 <= i < |records| && tag in tags(records[i]);
    if Occurs(records, tags, tag) {
      var i :| 0 <= i < |records| && tag in tags(records[i]);
      assert i in on;
    } else {
      assert on == {};
    }
  }

  /**
   A ranking lists every tag that stands on a record, once, with the number of records it stands on; most
   records first, among equals by name.
   */
  lemma RankingMeans(rd: Reading, records: seq<Input>, tags: Input -> set<JsString>, ranked: seq<Ranked>)
    requires Ranks(rd, records, tags, ranked)
    ensures forall r <- ranked :: r.count == |set i | 0 <= i < |records| && r.key in tags(records[i])|
    ensures forall tag :: Occurs(records, tags, tag) <==> Listed(ranked, tag)
    ensures forall i, j :: 0 <= i < j < |ranked| ==>
              && ranked[i].key != ranked[j].key && ranked[i].count >= ranked[j].count
              && (ranked[i].count == ranked[j].count ==> rd.collate(ranked[i].key) <= rd.collate(ranked[j].key))
  {
    hide Tally, Occurs;
    forall r | r in ranked ensures r.count == |set i | 0 <= i < |records| && r.key in tags(records[i])| {
      TallyIs(records, tags, r.key);
    }
    forall i, j | 0 <= i < j < |ranked|
      ensures ranked[i].count >= ranked[j].count
      ensures ranked[i].count == ranked[j].count ==> rd.collate(ranked[i].key) <= rd.collate(ranked[j].key)
    {
      assert !CountOrder(rd)(ranked[j], ranked[i]);
    }
    forall tag ensures Occurs(records, tags, tag) <==> Listed(ranked, tag) {
      OccursIs(records, tags, tag);
      if Occurs(records, tags, tag) {
        assert Ranked(tag, Tally(records, tags, tag)) in ranked;
      }
    }
  }

  /** On how many readable records a category stands. */
  lemma CategoryTally(rd: Reading, records: seq<Input>, tag: JsString)
    ensures Tally(records, CategoriesOf(rd), tag)
         == |set i | 0 <= i < |records| && records[i].record.Some? && tag in rd.categories(records[i].record.value)|
  {
    hide Tally;
    TallyIs(records, CategoriesOf(rd), tag);
    assert (set i | 0 <= i < |records| && tag in CategoriesOf(rd)(records[i])) ==
           (set i | 0 <= i < |records| && records[i].record.Some? && tag in rd.categories(records[i].record.value));
  }

  /** On how many readable records a sensitive flag stands. */
  lemma SensitiveTally(rd: Reading, records: seq<Input>, tag: JsString)
    ensures Tally(records, SensitiveOf(rd), tag)
         == |set i | 0 <= i < |records| && records[i].record.Some? && tag in rd.sensitive(records[i].record.value)|
  {
    hide Tally;
    TallyIs(records, SensitiveOf(rd), tag);
    assert (set i | 0 <= i < |records| && tag in SensitiveOf(rd)(records[i])) ==
           (set i | 0 <= i < |records| && records[i].record.Some? && tag in rd.sensitive(records[i].record.value));
  }

  predicate Flagged(rd: Reading, i: Input) {
    i.record.Some? && rd.sensitive(i.record.value) != {}
  }

  lemma ExposedIs(rd: Reading, x: Input)
    ensures Exposed(rd)(x) == if Flagged(rd, x) then 1 else 0
  {
    if x.record.None? {
      assert SensitiveOf(rd)(x) == {};
    } else {
      assert SensitiveOf(rd)(x) == rd.sensitive(x.record.value);
    }
  }

  /** On how many readable records any sensitive flag stands. */
  lemma ExposedCounts(rd: Reading, records: seq<Input>)
    ensures Total(records, Exposed(rd)) == |set i | 0 <= i < |records| && Flagged(rd, records[i])|
  {
    hide Total, Flagged, Exposed;
    forall x: Input ensures Exposed(rd)(x) == if Flagged(rd, x) then 1 else 0 {
      ExposedIs(rd, x);
    }
    CountIs(records, Exposed(rd), (x: Input) => Flagged(rd, x));
    assert (set i | 0 <= i < |records| && ((x: Input) => Flagged(rd, x))(records[i])) ==
           (set i | 0 <= i < |records| && Flagged(rd, records[i]));
  }

  // -------------------------------------------------------------------------------- the failures

  /** The record fails an integrity check: any but those of disclosure and separation. */
  ghost predicate Fails(input: Input, name: CheckName) {
    && name != DisclosureCheck && name != SeparationCheck
    && exists k :: 0 <= k < |input.verification.checks| &&
         !input.verification.checks[k].ok && input.verification.checks[k].name == name
  }

  ghost predicate FailsAny(input: Input) {
    exists name :: Fails(input, name)
  }

  lemma FailedIs(input: Input)
    ensures forall name :: name in FailedOf(input) <==> Fails(input, name)
    ensures FailedOf(input) == [] <==> !FailsAny(input)
  {
    forall name ensures name in FailedOf(input) <==> Fails(input, name) {
      FailedChecksMeans(input.verification.checks, name);
    }
    if FailedOf(input) != [] {
      assert FailedOf(input)[0] in FailedOf(input);
    }
  }

  /** The failures stand for the records at `at`, in order: their ids, hashes and failed checks. */
  ghost predicate StandFor(records: seq<Input>, failures: seq<Failure>, at: seq<nat>) {
    && |at| == |failures| && (forall k :: 0 <= k < |at| ==> at[k] < |records|)
    && (forall k, m :: 0 <= k < m < |at| ==> at[k] < at[m])
    && (forall k :: 0 <= k < |at| ==>
          && failures[k].auditId == records[at[k]].auditId && failures[k].recordHash == records[at[k]].recordHash
          && forall name :: name in failures[k].checks <==> Fails(records[at[k]], name))
    && (forall i :: 0 <= i < |records| && FailsAny(records[i]) ==> i in at)
    && (forall k :: 0 <= k < |at| ==> FailsAny(records[at[k]]))
  }

  lemma StandsMore(records: seq<Input>, last: Input, failures: seq<Failure>, at: seq<nat>)
    requires StandFor(records, failures, at) && FailsAny(last)
    ensures StandFor(records + [last], failures + [Failure(last.auditId, last.recordHash, FailedOf(last))], at + [|records|])
  {
    hide FailedOf, Fails, FailsAny;
    FailedIs(last);
    var (all, next) := (records + [last], at + [|records|]);
    assert all[|records|] == last && forall i :: 0 <= i < |records| ==> all[i] == records[i];
    forall i | 0 <= i < |all| && FailsAny(all[i]) ensures i in next {
      assert i == |records| ==> next[|at|] == i;
      assert i < |records| ==> i in at;
    }
  }

  lemma StandsStill(records: seq<Input>, last: Input, failures: seq<Failure>, at: seq<nat>)
    requires StandFor(records, failures, at) && !FailsAny(last)
    ensures StandFor(records + [last], failures, at)
  {
    hide Fails, FailsAny;
    var all := records + [last];
    assert all[|records|] == last && forall i :: 0 <= i < |records| ==> all[i] == records[i];
  }

  /** The failures are the records that fail, each once and in their order. */
  lemma {:induction false} FailuresMean(records: seq<Input>) returns (at: seq<nat>)
    ensures StandFor(records, FailuresOf(records), at)
  {
    hide FailedOf, Fails, FailsAny, StandFor;
    if records == [] {
      at := [];
      NothingStands();
    } else {
      var (init, last) := (records[..|records| - 1], records[|records| - 1]);
      at := FailuresMean(init);
      assert records == init + [last];
      FailedIs(last);
      if FailsAny(last) {
        StandsMore(init, last, FailuresOf(init), at);
        at := at + [|init|];
      } else {
        StandsStill(init, last, FailuresOf(init), at);
      }
    }
  }

  lemma NothingStands()
    ensures StandFor([], [], [])
  {
  }

  /** The counts of chainIntegrity: the records that fail and those that do not. */
  lemma VerifiedCounts(records: seq<Input>)
    ensures Total(records, Verified) == |set i | 0 <= i < |records| && !FailsAny(records[i])|
  {
    hide FailedOf, FailsAny;
    forall x: Input ensures Verified(x) == if !FailsAny(x) then 1 else 0 {
      FailedIs(x);
    }
    CountIs(records, Verified, (x: Input) => !FailsAny(x));
    assert (set i | 0 <= i < |records| && ((x: Input) => !FailsAny(x))(records[i])) ==
           (set i | 0 <= i < |records| && !FailsAny(records[i]));
  }
}
