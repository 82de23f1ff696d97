/**
 packages/dashboard/lib/report-bundle.ts and report-generate.ts: the downloadable evidence for a
 report, and the verification contexts rebuilt from it without the database.

 The reader at the top is the one the gateway verifies with
 (packages/gateway/src/audit-api/verify-context.ts): rows by position and by hash, and how far
 retention has pruned each app. The order `localeCompare` sorts by is a parameter, `Arrange`.
 */
module ReportBundle {
  import opened Options
  import opened Utf16
  import opened CanonicalJson
  import opened AuditRecords
  import opened Chain
  import opened Verify
  import opened RecordBuilder
  import opened ChainStore
  import opened ChainVerdicts

  /** A row of audit_records: the columns are copies of what the stored document says. */
  datatype StoredRow = StoredRow(
    id: JsString, appId: JsString, position: nat, recordHash: JsString, supersedesHash: Option<JsString>,
    isLatest: bool, ts: JsString, document: Value)

  datatype Watermark = Watermark(prunedThrough: nat, prunedBefore: JsString)

  datatype Store = Store(rows: seq<StoredRow>, watermarks: map<JsString, Watermark>, catalog: Catalog)

  /** A context with the heap its `superseded` points into. */
  datatype Placed = Placed(context: Context, heap: Contexts)

  // ------------------------------------------------------------------------- the full context

  function RowAt(rows: seq<StoredRow>, app: JsString, position: nat): (r: Option<StoredRow>)
    ensures r.Some? ==> r.value in rows && r.value.appId == app && r.value.position == position
    ensures r.None? ==> forall row <- rows :: row.appId != app || row.position != position
  {
    if rows == [] then None
    else if rows[0].appId == app && rows[0].position == position then Some(rows[0])
    else RowAt(rows[1..], app, position)
  }

  function RowHashed(rows: seq<StoredRow>, hash: JsString): (r: Option<StoredRow>)
    ensures r.Some? ==> r.value in rows && r.value.recordHash == hash
    ensures r.None? ==> forall row <- rows :: row.recordHash != hash
  {
    if rows == [] then None
    else if rows[0].recordHash == hash then Some(rows[0])
    else RowHashed(rows[1..], hash)
  }

  function LatestRow(rows: seq<StoredRow>, id: JsString): Option<StoredRow> {
    if rows == [] then None
    else if rows[0].isLatest && rows[0].id == id then Some(rows[0])
    else LatestRow(rows[1..], id)
  }

  /** The app's row at the position before. */
  function RowBefore(rows: seq<StoredRow>, row: StoredRow): Option<StoredRow> {
    if row.position <= 1 then None else RowAt(rows, row.appId, row.position - 1)
  }

  /** Retention has taken the row before this one. */
  predicate PrunedBefore(store: Store, row: StoredRow) {
    && row.position > 1 && RowBefore(store.rows, row).None?
    && row.appId in store.watermarks && row.position - 1 <= store.watermarks[row.appId].prunedThrough
  }

  function PredecessorDocument(c: Contract, store: Store, row: StoredRow): Value {
    var previous := RowBefore(store.rows, row);
    if previous.Some? then previous.value.document
    else if PrunedBefore(store, row) then Marker(c, store.watermarks[row.appId].prunedBefore)
    else Null
  }

  function CreativeIdOf(c: Contract, document: Value): Value {
    Prop(c, Peek(c, document, Creative), CreativeIdKey)
  }

  function StoredCreativeHash(env: Env, catalog: Catalog, id: JsString): Value {
    if id in catalog then Str(ContentHash(env, catalog[id])) else Null
  }

  function SupersededRow(c: Contract, rows: seq<StoredRow>, document: Value): Option<StoredRow> {
    var hash := Peek(c, document, SupersedesHash);
    if hash.Str? then RowHashed(rows, hash.s) else None
  }

  function AttestingDocument(rows: seq<StoredRow>, row: StoredRow): Value {
    if row.isLatest then Undefined
    else
      var latest := LatestRow(rows, row.id);
      if latest.Some? && latest.value.supersedesHash == Some(row.recordHash) then latest.value.document else Undefined
  }

  function OnlyPrevious(previous: Value): Context {
    EMPTY_CONTEXT.(prevRecord := previous)
  }

  /** buildVerifyContext, from the database. */
  function RowContext(env: Env, store: Store, row: StoredRow): Placed {
    var c := env.contract;
    var id := CreativeIdOf(c, row.document);
    var superseded := SupersededRow(c, store.rows, row.document);
    Placed(
      Context(
        PredecessorDocument(c, store, row),
        if id.Str? then StoredCreativeHash(env, store.catalog, id.s) else Undefined,
        AttestingDocument(store.rows, row),
        if superseded.Some? then superseded.value.document
        else if Peek(c, row.document, SupersedesHash).Str? then Null else Undefined,
        Undefined, if superseded.Some? then Some(0) else None),
      if superseded.None? then [] else [OnlyPrevious(PredecessorDocument(c, store, superseded.value))])
  }

  // -------------------------------------------------------------------------------- collecting

  datatype Entry = Entry(
    auditId: JsString, appId: JsString, position: nat, recordHash: JsString, isLatest: bool, ts: JsString,
    document: Value, redacted: bool)

  datatype Role = PredecessorRole | SupersededRole

  datatype Supporting = Supporting(entry: Entry, role: Role)

  /** bundleRecordOf. */
  function EntryOf(row: StoredRow): Entry {
    Entry(row.id, row.appId, row.position, row.recordHash, row.isLatest, row.ts, row.document, false)
  }

  function SupportingAs(row: Option<StoredRow>, role: Role): seq<Supporting> {
    if row.None? then [] else [Supporting(EntryOf(row.value), role)]
  }

  function ColumnSuperseded(rows: seq<StoredRow>, row: StoredRow): Option<StoredRow> {
    if row.supersedesHash.None? then None else RowHashed(rows, row.supersedesHash.value)
  }

  /** What the checks of `row` read besides the row: its neighbour, its older version, and that one's. */
  function SupportOf(rows: seq<StoredRow>, row: StoredRow): seq<Supporting> {
    var superseded := ColumnSuperseded(rows, row);
    SupportingAs(RowBefore(rows, row), PredecessorRole) + SupportingAs(superseded, SupersededRole)
    + if superseded.None? then [] else SupportingAs(RowBefore(rows, superseded.value), PredecessorRole)
  }

  method SupportingOf(rows: seq<StoredRow>, row: StoredRow) returns (found: seq<Supporting>)
    ensures found == SupportOf(rows, row)
  {
    found := [];
    var previous := if row.position > 1 then RowAt(rows, row.appId, row.position - 1) else None;
    if previous.Some? {
      found := found + [Supporting(EntryOf(previous.value), PredecessorRole)];
    }
    if row.supersedesHash.Some? {
      var superseded := RowHashed(rows, row.supersedesHash.value);
      if superseded.Some? {
        found := found + [Supporting(EntryOf(superseded.value), SupersededRole)];
        var before := RowBefore(rows, superseded.value);
        if before.Some? {
          found := found + [Supporting(EntryOf(before.value), PredecessorRole)];
        }
      }
    }
  }

  function SupportOfAll(rows: seq<StoredRow>, reported: seq<StoredRow>): seq<Supporting> {
    if reported == [] then []
    else SupportOf(rows, reported[0]) + SupportOfAll(rows, reported[1..])
  }

  function EntriesOf(reported: seq<StoredRow>): seq<Entry> {
    seq(|reported|, i requires 0 <= i < |reported| => EntryOf(reported[i]))
  }

  // --------------------------------------------------------------------------------- redacting

  /** The two fields the chain check reads off a predecessor. */
  function ReferenceDocument(c: Contract, hash: JsString, app: JsString): Value {
    Obj([Member(c.key(RecordHash), Str(hash)), Member(c.key(AppId), Str(app))])
  }

  function ChainReference(c: Contract, e: Entry): Entry {
    e.(document := ReferenceDocument(c, e.recordHash, e.appId), redacted := true)
  }

  datatype Kept = Kept(entry: Entry, full: bool)

  function KeptAt(kept: seq<Kept>, hash: JsString): (at: Option<nat>)
    ensures at.Some? ==> at.value < |kept| && kept[at.value].entry.recordHash == hash
    ensures at.None? ==> forall k <- kept :: k.entry.recordHash != hash
  {
    if kept == [] then None
    else if kept[|kept| - 1].entry.recordHash == hash then Some(|kept| - 1)
    else KeptAt(kept[..|kept| - 1], hash)
  }

  /** Map.set: a known hash keeps its place and stays full once it was. */
  function Keep(kept: seq<Kept>, s: Supporting): seq<Kept> {
    var at := KeptAt(kept, s.entry.recordHash);
    if at.None? then kept + [Kept(s.entry, s.role.SupersededRole?)]
    else kept[at.value := Kept(s.entry, s.role.SupersededRole? || kept[at.value].full)]
  }

  function Collected(records: seq<Supporting>, reported: set<JsString>): seq<Kept> {
    if records == [] then []
    else
      var last := records[|records| - 1];
      var rest := Collected(records[..|records| - 1], reported);
      if last.entry.recordHash in reported then rest else Keep(rest, last)
  }

  function Shown(c: Contract, k: Kept): Entry {
    if k.full then k.entry else ChainReference(c, k.entry)
  }

  function ShownAll(c: Contract, kept: seq<Kept>): seq<Entry> {
    seq(|kept|, i requires 0 <= i < |kept| => Shown(c, kept[i]))
  }

  type Arrange = seq<Entry> -> seq<Entry>

  /** `sorted` returns the same entries in some order. */
  ghost predicate Rearranges(arrange: Arrange) {
    forall s {:trigger arrange(s)} :: multiset(arrange(s)) == multiset(s)
  }

  /** supportingEntries. */
  method SupportingEntries(c: Contract, records: seq<Supporting>, reported: set<JsString>, arrange: Arrange)
    returns (entries: seq<Entry>)
    ensures entries == arrange(ShownAll(c, Collected(records, reported)))
  {
    var byHash: seq<Kept> := [];
    var i := 0;
    while i < |records|
      invariant 0 <= i <= |records|
      invariant byHash == Collected(records[..i], reported)
    {
      assert records[..i + 1][..i] == records[..i];
      if records[i].entry.recordHash !in reported {
        byHash := Keep(byHash, records[i]);
      }
      i := i + 1;
    }
    assert records[..i] == records;
    entries := arrange(ShownAll(c, byHash));
  }

  /** One entry a hash, the last one given, where the first one stood. */
  function Unique(records: seq<Entry>): seq<Kept> {
    if records == [] then []
    else Keep(Unique(records[..|records| - 1]), Supporting(records[|records| - 1], SupersededRole))
  }

  /** uniqueRecords. */
  method UniqueRecords(c: Contract, records: seq<Entry>, arrange: Arrange) returns (entries: seq<Entry>)
    ensures entries == arrange(ShownAll(c, Unique(records)))
  {
    var byHash: seq<Kept> := [];
    var i := 0;
    while i < |records|
      invariant 0 <= i <= |records|
      invariant byHash == Unique(records[..i])
    {
      assert records[..i + 1][..i] == records[..i];
      byHash := Keep(byHash, Supporting(records[i], SupersededRole));
      i := i + 1;
    }
    assert records[..i] == records;
    entries := arrange(ShownAll(c, byHash));
  }

  datatype BundleCreative = BundleCreative(id: JsString, content: CreativeContent)

  datatype Bundle = Bundle(records: seq<Entry>, supporting: seq<Entry>, creatives: seq<BundleCreative>)

  function HashesOf(records: seq<Entry>): set<JsString> {
    set e <- records :: e.recordHash
  }

  function BundleOf(c: Contract, rows: seq<StoredRow>, reported: seq<StoredRow>, creatives: seq<BundleCreative>, arrange: Arrange): Bundle {
    var records := EntriesOf(reported);
    Bundle(arrange(ShownAll(c, Unique(records))),
           arrange(ShownAll(c, Collected(SupportOfAll(rows, reported), HashesOf(records)))), creatives)
  }

  /** collectReportData's records, then buildReportBundle. */
  method BuildReportBundle(c: Contract, rows: seq<StoredRow>, reported: seq<StoredRow>, creatives: seq<BundleCreative>, arrange: Arrange)
    returns (bundle: Bundle)
    ensures bundle == BundleOf(c, rows, reported, creatives, arrange)
  {
    var support: seq<Supporting> := [];
    var i := |reported|;
    while i > 0
      invariant 0 <= i <= |reported|
      invariant support == SupportOfAll(rows, reported[i..])
    {
      i := i - 1;
      var found := SupportingOf(rows, reported[i]);
      assert reported[i..][1..] == reported[i + 1..];
      support := found + support;
    }
    var records := EntriesOf(reported);
    var unique := UniqueRecords(c, records, arrange);
    var supporting := SupportingEntries(c, support, HashesOf(records), arrange);
    bundle := Bundle(unique, supporting, creatives);
  }

  // -------------------------------------------------------------------- rebuilding the contexts

  function LastAt(entries: seq<Entry>, app: JsString, position: nat): (r: Option<Entry>)
    ensures r.Some? ==> r.value in entries && r.value.appId == app && r.value.position == position
    ensures r.None? ==> forall e <- entries :: e.appId != app || e.position != position
  {
    if entries == [] then None
    else
      var last := entries[|entries| - 1];
      if last.appId == app && last.position == position then Some(last)
      else LastAt(entries[..|entries| - 1], app, position)
  }

  function LastHashed(entries: seq<Entry>, hash: JsString): (r: Option<Entry>)
    ensures r.Some? ==> r.value in entries && r.value.recordHash == hash
    ensures r.None? ==> forall e <- entries :: e.recordHash != hash
  {
    if entries == [] then None
    else if entries[|entries| - 1].recordHash == hash then Some(entries[|entries| - 1])
    else LastHashed(entries[..|entries| - 1], hash)
  }

  function VersionsOf(entries: seq<Entry>, id: JsString): seq<Entry> {
    if entries == [] then []
    else
      VersionsOf(entries[..|entries| - 1], id)
      + if entries[|entries| - 1].auditId == id then [entries[|entries| - 1]] else []
  }

  function LastCreative(env: Env, creatives: seq<BundleCreative>, id: JsString): Option<JsString> {
    if creatives == [] then None
    else if creatives[|creatives| - 1].id == id then Some(ContentHash(env, creatives[|creatives| - 1].content))
    else LastCreative(env, creatives[..|creatives| - 1], id)
  }

  /** A position key `app#seq` is a pair: digits follow its last hash sign. */
  datatype BundleIndex = BundleIndex(
    byPosition: map<(JsString, nat), Entry>, byHash: map<JsString, Entry>, byId: map<JsString, seq<Entry>>,
    creativeHashes: map<JsString, JsString>)

  function Fetch<K, V>(m: map<K, V>, key: K): Option<V> {
    if key in m then Some(m[key]) else None
  }

  function FetchAll<K, V>(m: map<K, seq<V>>, key: K): seq<V> {
    if key in m then m[key] else []
  }

  ghost predicate Indexes(index: BundleIndex, entries: seq<Entry>) {
    && (forall app, position :: Fetch(index.byPosition, (app, position)) == LastAt(entries, app, position))
    && (forall hash :: Fetch(index.byHash, hash) == LastHashed(entries, hash))
    && (forall id :: FetchAll(index.byId, id) == VersionsOf(entries, id))
  }

  lemma PositionsMore(byPosition: map<(JsString, nat), Entry>, entries: seq<Entry>, e: Entry)
    requires forall app, position :: Fetch(byPosition, (app, position)) == LastAt(entries, app, position)
    ensures forall app, position :: Fetch(byPosition[(e.appId, e.position) := e], (app, position)) == LastAt(entries + [e], app, position)
  {
    assert (entries + [e])[..|entries|] == entries;
  }

  lemma HashesMore(byHash: map<JsString, Entry>, entries: seq<Entry>, e: Entry)
    requires forall hash :: Fetch(byHash, hash) == LastHashed(entries, hash)
    ensures forall hash :: Fetch(byHash[e.recordHash := e], hash) == LastHashed(entries + [e], hash)
  {
    assert (entries + [e])[..|entries|] == entries;
  }

  lemma VersionsMore(byId: map<JsString, seq<Entry>>, entries: seq<Entry>, e: Entry)
    requires forall id :: FetchAll(byId, id) == VersionsOf(entries, id)
    ensures forall id :: FetchAll(byId[e.auditId := FetchAll(byId, e.auditId) + [e]], id) == VersionsOf(entries + [e], id)
  {
    assert (entries + [e])[..|entries|] == entries;
  }

  ghost predicate IndexesCreatives(env: Env, index: BundleIndex, creatives: seq<BundleCreative>) {
    forall id :: Fetch(index.creativeHashes, id) == LastCreative(env, creatives, id)
  }

  function All(bundle: Bundle): seq<Entry> {
    bundle.records + bundle.supporting
  }

  method IndexCreatives(env: Env, creatives: seq<BundleCreative>) returns (hashes: map<JsString, JsString>)
    ensures forall id :: Fetch(hashes, id) == LastCreative(env, creatives, id)
  {
    hashes := map[];
    var k := 0;
    while k < |creatives|
      invariant 0 <= k <= |creatives|
      invariant forall id :: Fetch(hashes, id) == LastCreative(env, creatives[..k], id)
    {
      assert creatives[..k + 1][..k] == creatives[..k];
      hashes := hashes[creatives[k].id := ContentHash(env, creatives[k].content)];
      k := k + 1;
    }
    assert creatives[..k] == creatives;
  }

  lemma IndexesNothing()
    ensures Indexes(BundleIndex(map[], map[], map[], map[]), [])
  {
  }

  method IndexBundle(env: Env, bundle: Bundle) returns (index: BundleIndex)
    ensures Indexes(index, All(bundle)) && IndexesCreatives(env, index, bundle.creatives)
  {
    hide LastAt, LastHashed, VersionsOf, Fetch, FetchAll, All;
    var entries := All(bundle);
    IndexesNothing();
    var byPosition: map<(JsString, nat), Entry> := map[];
    var byHash: map<JsString, Entry> := map[];
    var byId: map<JsString, seq<Entry>> := map[];
    var i := 0;
    while i < |entries|
      invariant 0 <= i <= |entries|
      invariant Indexes(BundleIndex(byPosition, byHash, byId, map[]), entries[..i])
    {
      var e := entries[i];
      assert entries[..i + 1] == entries[..i] + [e];
      PositionsMore(byPosition, entries[..i], e);
      HashesMore(byHash, entries[..i], e);
      VersionsMore(byId, entries[..i], e);
      byPosition := byPosition[(e.appId, e.position) := e];
      byHash := byHash[e.recordHash := e];
      byId := byId[e.auditId := FetchAll(byId, e.auditId) + [e]];
      i := i + 1;
    }
    assert entries[..i] == entries;
    var creativeHashes := IndexCreatives(env, bundle.creatives);
    index := BundleIndex(byPosition, byHash, byId, creativeHashes);
  }

  function PredecessorIn(entries: seq<Entry>, e: Entry): Value {
    if e.position <= 1 then Null
    else
      var previous := LastAt(entries, e.appId, e.position - 1);
      if previous.None? then Null else previous.value.document
  }

  /** The first other version that parses and supersedes `e`. */
  function AttestationIn(c: Contract, versions: seq<Entry>, e: Entry): Value {
    if versions == [] then Undefined
    else
      var parsed := Parse(c, versions[0].document);
      if versions[0].recordHash != e.recordHash && parsed.Some? && parsed.value[SupersedesHash] == Str(e.recordHash)
      then versions[0].document
      else AttestationIn(c, versions[1..], e)
  }

  function CreativeHashIn(env: Env, creatives: seq<BundleCreative>, r: AuditRecord): Value {
    var id := Prop(env.contract, r[Creative], CreativeIdKey);
    if r[Creative].Null? then Undefined
    else
      var hash := if id.Str? then LastCreative(env, creatives, id.s) else None;
      if hash.None? then Null else Str(hash.value)
  }

  function SupersededIn(entries: seq<Entry>, r: AuditRecord): Option<Entry> {
    if r[SupersedesHash].Str? then LastHashed(entries, r[SupersedesHash].s) else None
  }

  /** bundleVerifyContext, from the bundle alone. */
  function BundleContext(env: Env, bundle: Bundle, e: Entry): Placed {
    var (c, entries) := (env.contract, All(bundle));
    var parsed := Parse(c, e.document);
    if parsed.None? then Placed(OnlyPrevious(PredecessorIn(entries, e)), [])
    else
      var superseded := SupersededIn(entries, parsed.value);
      Placed(
        Context(
          PredecessorIn(entries, e), CreativeHashIn(env, bundle.creatives, parsed.value),
          if e.isLatest then Undefined else AttestationIn(c, VersionsOf(entries, e.auditId), e),
          if superseded.Some? then superseded.value.document
          else if parsed.value[SupersedesHash].Null? then Undefined else Null,
          Undefined, if superseded.Some? then Some(0) else None),
        if superseded.None? then [] else [OnlyPrevious(PredecessorIn(entries, superseded.value))])
  }

  method PredecessorOf(index: BundleIndex, e: Entry, ghost entries: seq<Entry>) returns (previous: Value)
    requires Indexes(index, entries)
    ensures previous == PredecessorIn(entries, e)
  {
    if e.position <= 1 {
      return Null;
    }
    var found := Fetch(index.byPosition, (e.appId, e.position - 1));
    previous := if found.None? then Null else found.value.document;
  }

  method BundleVerifyContext(env: Env, index: BundleIndex, e: Entry, ghost bundle: Bundle) returns (placed: Placed)
    requires Indexes(index, All(bundle)) && IndexesCreatives(env, index, bundle.creatives)
    ensures placed == BundleContext(env, bundle, e)
  {
    var c := env.contract;
    var previous := PredecessorOf(index, e, All(bundle));
    var ctx := OnlyPrevious(previous);
    var heap: Contexts := [];
    var parsed := Parse(c, e.document);
    if parsed.None? {
      return Placed(ctx, heap);
    }
    var r := parsed.value;
    if !r[Creative].Null? {
      var id := Prop(c, r[Creative], CreativeIdKey);
      var hash := if id.Str? then Fetch(index.creativeHashes, id.s) else None;
      ctx := ctx.(storedCreativeHash := if hash.None? then Null else Str(hash.value));
    }
    if !r[SupersedesHash].Null? {
      var superseded := if r[SupersedesHash].Str? then Fetch(index.byHash, r[SupersedesHash].s) else None;
      ctx := ctx.(supersededRecord := if superseded.None? then Null else superseded.value.document);
      if superseded.Some? {
        var before := PredecessorOf(index, superseded.value, All(bundle));
        heap := [OnlyPrevious(before)];
        ctx := ctx.(superseded := Some(0));
      }
    }
    if !e.isLatest {
      ctx := ctx.(supersededBy := AttestationIn(c, FetchAll(index.byId, e.auditId), e));
    }
    placed := Placed(ctx, heap);
  }
}
