/**
 The bundle of a chain the system itself wrote: whatever was appended and attested, every reported
 record verifies offline as it verifies in the log.
 */
module ReportChain {
  import opened Options
  import opened Utf16
  import opened CanonicalJson
  import opened AuditRecords
  import opened Chain
  import opened Verify
  import opened ChainStore
  import opened ChainRuns
  import opened ChainSteps
  import opened ChainVerdicts
  import opened ReportBundle
  import opened ReportBundleLaws

  /** A row of one app's log as audit_records stores it: positions count from 1. */
  function StoredOf(c: Contract, rows: seq<Row>, i: nat): StoredRow
    requires i < |rows|
  {
    var r := rows[i].record;
    StoredRow(TextOf(r[Id]), TextOf(r[AppId]), i + 1, TextOf(r[RecordHash]),
              if r[SupersedesHash].Str? then Some(r[SupersedesHash].s) else None, rows[i].isLatest, TextOf(r[Ts]), Document(c, r))
  }

  function StoredRows(c: Contract, rows: seq<Row>): (stored: seq<StoredRow>)
    ensures |stored| == |rows| && forall i :: 0 <= i < |rows| ==> stored[i] == StoredOf(c, rows, i)
  {
    seq(|rows|, i requires 0 <= i < |rows| => StoredOf(c, rows, i))
  }

  /** Nothing was pruned. */
  function StoreOf(c: Contract, catalog: Catalog, rows: seq<Row>): Store {
    Store(StoredRows(c, rows), map[], catalog)
  }

  /** What an intact log says of one of its rows. */
  ghost predicate Plain(c: Contract, app: JsString, row: Row) {
    && row.record[RecordHash].Str? && row.record[AppId] == Str(app)
    && (row.record[SupersedesHash].Null? || row.record[SupersedesHash].Str?)
    && Parse(c, Document(c, row.record)) == Some(row.record)
  }

  lemma RowIsPlain(env: Env, catalog: Catalog, ring: KeyRing, app: JsString, rows: seq<Row>, i: nat)
    requires Sound(env) && Intact(env, catalog, ring, Str(app), Log(rows)) && i < |rows|
    ensures Plain(env.contract, app, rows[i])
  {
    hide Sealed, Document, Parse;
    RowSealed(env, catalog, ring, Str(app), rows, i);
    HashIsHash(env.contract, rows[i].record);
    ParseDocument(env.contract, rows[i].record);
    ParsedField(env.contract, Document(env.contract, rows[i].record), SupersedesHash);
    assert LinkedAt(env.contract, Str(app), rows, i);
  }

  lemma StoredAgrees(c: Contract, app: JsString, rows: seq<Row>, i: nat)
    requires Lawful(c) && i < |rows| && Plain(c, app, rows[i])
    ensures Agrees(c, StoredOf(c, rows, i)) && StoredOf(c, rows, i).appId == app
    ensures Str(StoredOf(c, rows, i).recordHash) == HashOf(rows[i])
  {
    NotPruned(c, rows[i].record);
    PeekDocument(c, rows[i].record, RecordHash);
    PeekDocument(c, rows[i].record, AppId);
    PeekDocument(c, rows[i].record, SupersedesHash);
  }

  /** Hashes of different rows differ: the log's invariant and the table's key. */
  ghost predicate HashesApart(rows: seq<Row>) {
    forall i, k :: 0 <= i < k < |rows| ==> HashOf(rows[i]) != HashOf(rows[k])
  }

  lemma HashDecides(rows: seq<Row>, i: nat, k: nat)
    requires HashesApart(rows) && i < |rows| && k < |rows|
    ensures HashOf(rows[i]) == HashOf(rows[k]) <==> i == k
  {
  }

  lemma StoredKeyed(c: Contract, app: JsString, rows: seq<Row>)
    requires Lawful(c) && HashesApart(rows) && forall i :: 0 <= i < |rows| ==> Plain(c, app, rows[i])
    ensures Keyed(StoredRows(c, rows))
  {
    hide Plain, Lawful, HashesApart;
    var stored := StoredRows(c, rows);
    forall a, b | a in stored && b in stored && (a.position == b.position || a.recordHash == b.recordHash) ensures a == b {
      var i :| 0 <= i < |stored| && stored[i] == a;
      var k :| 0 <= k < |stored| && stored[k] == b;
      HashRead(c, app, rows[i]);
      HashRead(c, app, rows[k]);
      HashDecides(rows, i, k);
    }
  }

  lemma HashRead(c: Contract, app: JsString, row: Row)
    requires Plain(c, app, row)
    ensures HashOf(row) == Str(TextOf(row.record[RecordHash]))
  {
  }

  lemma StoreConsistent(c: Contract, app: JsString, rows: seq<Row>)
    requires Lawful(c) && HashesApart(rows) && forall i :: 0 <= i < |rows| ==> Plain(c, app, rows[i])
    ensures Consistent(c, StoredRows(c, rows))
  {
    var stored := StoredRows(c, rows);
    forall row | row in stored ensures Agrees(c, row) {
      var i :| 0 <= i < |stored| && stored[i] == row;
      StoredAgrees(c, app, rows, i);
    }
    StoredKeyed(c, app, rows);
  }

  lemma StoredIn(c: Contract, rows: seq<Row>, i: nat)
    requires i < |rows|
    ensures StoredOf(c, rows, i) in StoredRows(c, rows)
  {
    assert StoredRows(c, rows)[i] == StoredOf(c, rows, i);
  }

  lemma FoundAt(c: Contract, app: JsString, rows: seq<Row>, i: nat)
    requires Lawful(c) && i < |rows| && forall k :: 0 <= k < |rows| ==> Plain(c, app, rows[k])
    ensures RowAt(StoredRows(c, rows), app, i + 1) == Some(StoredOf(c, rows, i))
  {
    var stored := StoredRows(c, rows);
    StoredIn(c, rows, i);
    StoredAgrees(c, app, rows, i);
    var found := RowAt(stored, app, i + 1);
    var k :| 0 <= k < |stored| && stored[k] == found.value;
    assert stored[k].position == k + 1;
  }

  /** The row before, found by its position. */
  lemma SamePredecessor(c: Contract, app: JsString, catalog: Catalog, rows: seq<Row>, i: nat)
    requires Lawful(c) && i < |rows| && forall k :: 0 <= k < |rows| ==> Plain(c, app, rows[k])
    ensures PredecessorDocument(c, StoreOf(c, catalog, rows), StoredOf(c, rows, i)) == PreviousDocument(c, rows, i)
    ensures NeighbourKept(c, StoreOf(c, catalog, rows), StoredOf(c, rows, i))
  {
    hide IsPruned, Lawful, Document;
    StoredAgrees(c, app, rows, i);
    if i > 0 {
      FoundAt(c, app, rows, i - 1);
      NotPruned(c, rows[i - 1].record);
    }
  }

  /** The superseded row, found by its hash. */
  lemma SameSuperseded(c: Contract, app: JsString, rows: seq<Row>, i: nat)
    requires Lawful(c) && i < |rows| && HashesApart(rows) && forall k :: 0 <= k < |rows| ==> Plain(c, app, rows[k])
    ensures SupersededRow(c, StoredRows(c, rows), Document(c, rows[i].record))
         == match SupersededAt(rows, i) case None => None case Some(j) => Some(StoredOf(c, rows, j))
  {
    var (stored, hash) := (StoredRows(c, rows), rows[i].record[SupersedesHash]);
    PeekDocument(c, rows[i].record, SupersedesHash);
    if hash.Str? {
      var found := RowHashed(stored, hash.s);
      if found.Some? {
        var k :| 0 <= k < |stored| && stored[k] == found.value;
        StoredAgrees(c, app, rows, k);
        SameHash(rows, hash, k);
      } else if SupersededAt(rows, i).Some? {
        StoredIn(c, rows, SupersededAt(rows, i).value);
        StoredAgrees(c, app, rows, SupersededAt(rows, i).value);
        assert false;
      }
    }
  }

  lemma SameHash(rows: seq<Row>, hash: Value, k: nat)
    requires HashesApart(rows) && k < |rows| && HashOf(rows[k]) == hash
    ensures FindByHash(rows, hash) == Some(k)
  {
    HashDecides(rows, FindByHash(rows, hash).value, k);
  }

  /** The context read from the table is the context of the log. */
  lemma SameContext(env: Env, app: JsString, catalog: Catalog, rows: seq<Row>, i: nat)
    requires Lawful(env.contract) && i < |rows| && rows[i].isLatest && HashesApart(rows)
    requires forall k :: 0 <= k < |rows| ==> Plain(env.contract, app, rows[k])
    ensures RowContext(env, StoreOf(env.contract, catalog, rows), StoredOf(env.contract, rows, i))
         == Placed(ContextOf(env, catalog, rows, i), HeapOf(env, rows, i))
    ensures NeighboursKept(env.contract, StoreOf(env.contract, catalog, rows), StoredOf(env.contract, rows, i))
  {
    hide PredecessorDocument, SupersededRow, PrunedBefore, NeighbourKept, HashesApart, Document, Lawful, Parse;
    var c := env.contract;
    SamePredecessor(c, app, catalog, rows, i);
    SameSuperseded(c, app, rows, i);
    PeekDocument(c, rows[i].record, SupersedesHash);
    PeekDocument(c, rows[i].record, Creative);
    if SupersededAt(rows, i).Some? {
      SamePredecessor(c, app, catalog, rows, SupersededAt(rows, i).value);
    }
  }

  lemma HashesAreApart(env: Env, catalog: Catalog, ring: KeyRing, app: Value, rows: seq<Row>)
    requires Intact(env, catalog, ring, app, Log(rows))
    ensures HashesApart(rows)
  {
    if rows != [] {
      RowSealed(env, catalog, ring, app, rows, 0);
    }
  }

  /**
   From commands to the auditor's machine: after any run of appends and attestations, a record in a
   report's bundle passes all eight checks offline, unless it is a serve nobody attested, which fails
   exactly `separation_attested`.
   */
  lemma ReachableReportsReverify(env: Env, catalog: Catalog, ring: KeyRing, app: JsString, commands: seq<Command>,
                                 reported: seq<StoredRow>, creatives: seq<BundleCreative>, arrange: Arrange, i: nat)
    requires Sound(env) && KeepsCreativeId(env.contract) && Rearranges(arrange)
    requires forall n :: 0 <= n < |commands| ==> GoodCommand(env, catalog, ring, Str(app), commands[n])
    requires i < |Run(env, commands)|
    requires var (c, rows) := (env.contract, Run(env, commands));
             && Reportable(StoredRows(c, rows), reported) && StoredOf(c, rows, i) in reported
             && ListsCreatives(c, creatives, catalog, reported)
    ensures var (c, rows) := (env.contract, Run(env, commands));
            var row := StoredOf(c, rows, i);
            var bundled := BundleContext(env, BundleOf(c, StoredRows(c, rows), reported, creatives, arrange), EntryOf(row));
            FailsOnlySeparation(VerifyWith(env, row.document, ring, bundled.context, bundled.heap), NeverAttestedServe(c, rows[i]))
  {
    var (c, rows) := (env.contract, Run(env, commands));
    EveryRunIsIntact(env, catalog, ring, Str(app), commands);
    HashesAreApart(env, catalog, ring, Str(app), rows);
    forall k | 0 <= k < |rows| ensures Plain(c, app, rows[k]) {
      RowIsPlain(env, catalog, ring, app, rows, k);
    }
    StoreConsistent(c, app, rows);
    SameContext(env, app, catalog, rows, i);
    EveryRunVerifies(env, catalog, ring, Str(app), commands, i);
    RedactionPreservesVerdicts(env, StoreOf(c, catalog, rows), reported, creatives, arrange, ring, StoredOf(c, rows, i));
  }
}
