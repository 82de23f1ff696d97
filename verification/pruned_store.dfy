/**
 What retention leaves in the database: the prefix the job may delete, and the verification context that
 is then read from the table and the watermark.
 */
module PrunedStore {
  import opened Options
  import opened Utf16
  import opened CanonicalJson
  import opened AuditRecords
  import opened Chain
  import opened Verify
  import RecordBuilder
  import opened ChainStore
  import opened ChainRuns
  import opened ChainSteps
  import opened ChainVerdicts
  import opened ChainRetention
  import opened ReportBundle
  import opened ReportBundleLaws
  import opened ReportChain

  // ---------------------------------------------------------------------------- the prefix chosen

  /** A record with a readable time at or after the cutoff. */
  ghost predicate FromCutoff(env: Env, row: Row, cutoff: int) {
    exists ts :: DateOf(env, row.record[Ts]) == Some(ts) && ts >= cutoff
  }

  /** The job takes exactly the rows in front of the first one that is not older than the cutoff. */
  lemma {:induction false} PrefixChosen(env: Env, rows: seq<Row>, cutoff: int, n: nat)
    ensures PrunableThrough(env, rows, cutoff) == n <==>
              && n <= |rows| && (forall k :: 0 <= k < n ==> !FromCutoff(env, rows[k], cutoff))
              && (n < |rows| ==> FromCutoff(env, rows[n], cutoff))
  {
    hide DateOf;
    if rows != [] {
      if n > 0 {
        PrefixChosen(env, rows[1..], cutoff, n - 1);
      }
      assert forall k :: 1 <= k < |rows| ==> rows[1..][k - 1] == rows[k];
    }
  }

  // ------------------------------------------------------------------------------ what is left

  /** The table without its first `n` rows. */
  function Left(c: Contract, catalog: Catalog, rows: seq<Row>, n: nat, watermarks: map<JsString, Watermark>): Store
    requires n <= |rows|
  {
    Store(StoredRows(c, rows)[n..], watermarks, catalog)
  }

  lemma LeftAt(c: Contract, rows: seq<Row>, n: nat, i: nat)
    requires n <= i < |rows|
    ensures StoredOf(c, rows, i) in StoredRows(c, rows)[n..]
  {
    assert StoredRows(c, rows)[n..][i - n] == StoredOf(c, rows, i);
  }

  /** Whatever is left is one of the rows from `n` on. */
  lemma LeftIs(c: Contract, rows: seq<Row>, n: nat, row: StoredRow) returns (i: nat)
    requires n <= |rows| && row in StoredRows(c, rows)[n..]
    ensures n <= i < |rows| && row == StoredOf(c, rows, i)
  {
    var k :| 0 <= k < |rows| - n && StoredRows(c, rows)[n..][k] == row;
    i := k + n;
  }

  lemma LeftFound(c: Contract, app: JsString, rows: seq<Row>, n: nat, i: nat)
    requires Lawful(c) && n <= |rows| && i < |rows| && forall k :: 0 <= k < |rows| ==> ReportChain.Plain(c, app, rows[k])
    ensures RowAt(StoredRows(c, rows)[n..], app, i + 1) == if i < n then None else Some(StoredOf(c, rows, i))
  {
    hide ReportChain.Plain, Lawful, StoredRows;
    var found := RowAt(StoredRows(c, rows)[n..], app, i + 1);
    if found.Some? {
      var k := LeftIs(c, rows, n, found.value);
    } else if i >= n {
      LeftAt(c, rows, n, i);
      StoredAgrees(c, app, rows, i);
    }
  }

  /** What the table and the watermark say of the predecessor of a row that is left. */
  lemma PredecessorRead(c: Contract, app: JsString, catalog: Catalog, rows: seq<Row>, n: nat,
                        watermarks: map<JsString, Watermark>, i: nat)
    requires Lawful(c) && n <= i < |rows| && forall k :: 0 <= k < |rows| ==> ReportChain.Plain(c, app, rows[k])
    ensures PredecessorDocument(c, Left(c, catalog, rows, n, watermarks), StoredOf(c, rows, i)) ==
              if i > n then Document(c, rows[i - 1].record)
              else if n > 0 && app in watermarks && watermarks[app].prunedThrough >= n then Marker(c, watermarks[app].prunedBefore)
              else Null
  {
    hide Lawful, Document, StoredRows, RowAt, Marker, ReportChain.Plain, TextOf;
    StoredAgrees(c, app, rows, i);
    if i > 0 {
      LeftFound(c, app, rows, n, i - 1);
    }
  }

  lemma SupersededRead(c: Contract, app: JsString, rows: seq<Row>, n: nat, i: nat)
    requires Lawful(c) && n <= i < |rows| && HashesApart(rows) && forall k :: 0 <= k < |rows| ==> ReportChain.Plain(c, app, rows[k])
    ensures SupersededRow(c, StoredRows(c, rows)[n..], Document(c, rows[i].record))
         == match OriginalLeft(rows, n, i) case None => None case Some(j) => Some(StoredOf(c, rows, j))
  {
    hide Lawful, Document, StoredRows, HashesApart;
    var hash := rows[i].record[SupersedesHash];
    PeekDocument(c, rows[i].record, SupersedesHash);
    if hash.Str? {
      var found := RowHashed(StoredRows(c, rows)[n..], hash.s);
      if found.Some? {
        var k := LeftIs(c, rows, n, found.value);
        StoredAgrees(c, app, rows, k);
        SameHash(rows, hash, k);
      } else if OriginalLeft(rows, n, i).Some? {
        var k := OriginalLeft(rows, n, i).value;
        LeftAt(c, rows, n, k);
        StoredAgrees(c, app, rows, k);
        assert false;
      }
    }
  }

  // ------------------------------------------------------------------------- the version attesting

  predicate IdsAreText(rows: seq<Row>) {
    forall k :: 0 <= k < |rows| ==> IdOf(rows[k]).Str?
  }

  /** No id has two latest versions. */
  lemma OneLatest(rows: seq<Row>, i: nat, k: nat)
    requires Versioned(Log(rows)) && i < |rows| && k < |rows|
    requires rows[i].isLatest && rows[k].isLatest && IdOf(rows[i]) == IdOf(rows[k])
    ensures i == k
  {
    hide HasHeir, HasOriginal;
    assert i < k ==> Attests(rows[k], rows[i]);
    assert k < i ==> Attests(rows[i], rows[k]);
  }

  lemma {:induction false} LatestIs(rows: seq<StoredRow>, id: JsString)
    ensures var latest := LatestRow(rows, id);
            && (latest.Some? ==> latest.value in rows && latest.value.isLatest && latest.value.id == id)
            && (latest.None? ==> forall row <- rows :: !(row.isLatest && row.id == id))
  {
    if rows != [] {
      LatestIs(rows[1..], id);
    }
  }

  lemma LatestFound(rows: seq<Row>, k: nat)
    requires Versioned(Log(rows)) && k < |rows| && rows[k].isLatest
    ensures FindLatest(rows, IdOf(rows[k])) == Some(k)
  {
    hide Versioned;
    OneLatest(rows, FindLatest(rows, IdOf(rows[k])).value, k);
  }

  lemma LatestLeft(c: Contract, rows: seq<Row>, n: nat, k: nat)
    requires Versioned(Log(rows)) && IdsAreText(rows) && n <= k < |rows| && rows[k].isLatest
    ensures LatestRow(StoredRows(c, rows)[n..], TextOf(IdOf(rows[k]))) == Some(StoredOf(c, rows, k))
  {
    hide Versioned, StoredRows;
    var (left, id) := (StoredRows(c, rows)[n..], TextOf(IdOf(rows[k])));
    LatestIs(left, id);
    LeftAt(c, rows, n, k);
    var found := LeftIs(c, rows, n, LatestRow(left, id).value);
    OneLatest(rows, found, k);
  }

  /** An older version that is left finds the version that attests it. */
  lemma AttestingRead(c: Contract, app: JsString, rows: seq<Row>, n: nat, i: nat)
    requires Lawful(c) && Versioned(Log(rows)) && IdsAreText(rows) && n <= i < |rows|
    requires forall k :: 0 <= k < |rows| ==> ReportChain.Plain(c, app, rows[k])
    ensures AttestingDocument(StoredRows(c, rows)[n..], StoredOf(c, rows, i)) == SupersededByOf(c, rows, i)
  {
    hide Versioned, StoredRows, Document, Lawful;
    if !rows[i].isLatest {
      var k := HeirOf(rows, i);
      AttestsFacts(rows[k], rows[i]);
      SameIds(rows[k], rows[i]);
      LatestFound(rows, k);
      LatestLeft(c, rows, n, k);
      StoredAgrees(c, app, rows, i);
      StoredAgrees(c, app, rows, k);
    }
  }

  lemma SameIds(next: Row, prior: Row)
    requires Attests(next, prior)
    ensures IdOf(next) == IdOf(prior)
  {
  }

  // -------------------------------------------------------------------------------- the context

  ghost predicate Stored(env: Env, app: JsString, rows: seq<Row>) {
    && Lawful(env.contract) && Versioned(Log(rows)) && HashesApart(rows) && IdsAreText(rows)
    && forall k :: 0 <= k < |rows| ==> ReportChain.Plain(env.contract, app, rows[k])
  }

  lemma IntactIsStored(env: Env, catalog: Catalog, ring: KeyRing, app: JsString, rows: seq<Row>)
    requires Sound(env) && Intact(env, catalog, ring, Str(app), Log(rows))
    ensures Stored(env, app, rows)
  {
    hide Sound, Intact, Versioned, HashesApart, Lawful, Sealed, ReportChain.Plain;
    SoundIsLawful(env);
    HashesAreApart(env, catalog, ring, Str(app), rows);
    VersionedIntact(env, catalog, ring, Str(app), rows);
    forall k | 0 <= k < |rows| ensures ReportChain.Plain(env.contract, app, rows[k]) && IdOf(rows[k]).Str? {
      RowIsPlain(env, catalog, ring, app, rows, k);
      RowSealed(env, catalog, ring, Str(app), rows, k);
      IdIsText(env.contract, rows[k].record);
    }
  }

  lemma VersionedIntact(env: Env, catalog: Catalog, ring: KeyRing, app: Value, rows: seq<Row>)
    requires Intact(env, catalog, ring, app, Log(rows))
    ensures Versioned(Log(rows))
  {
  }

  lemma IdIsText(c: Contract, r: AuditRecord)
    requires Valid(c, r)
    ensures r[Id].Str?
  {
    assert Usable(c, Id, r[Id]);
  }

  /** The stored hash of the creative a row names. */
  lemma StoredHashRead(env: Env, catalog: Catalog, r: AuditRecord)
    requires Lawful(env.contract)
    ensures var id := CreativeIdOf(env.contract, Document(env.contract, r));
            (if id.Str? then StoredCreativeHash(env, catalog, id.s) else Undefined) == StoredHash(env, catalog, r)
  {
    hide RecordBuilder.ContentHash, Document, Lawful;
    PeekDocument(env.contract, r, Creative);
  }

  /** What is read of the row itself and of everything but its predecessors. */
  lemma PartsRead(env: Env, app: JsString, catalog: Catalog, rows: seq<Row>, n: nat, i: nat)
    requires Stored(env, app, rows) && n <= i < |rows|
    ensures var (c, stored, row) := (env.contract, StoredRows(env.contract, rows)[n..], StoredOf(env.contract, rows, i));
            && SupersededRow(c, stored, row.document) ==
                 (match OriginalLeft(rows, n, i) case None => None case Some(j) => Some(StoredOf(c, rows, j)))
            && AttestingDocument(stored, row) == SupersededByOf(c, rows, i)
            && Peek(c, row.document, SupersedesHash) == rows[i].record[SupersedesHash]
            && (if CreativeIdOf(c, row.document).Str? then StoredCreativeHash(env, catalog, CreativeIdOf(c, row.document).s)
                else Undefined) == StoredHash(env, catalog, rows[i].record)
  {
    hide SupersededRow, HashesApart, Document, Lawful, Versioned, AttestingDocument, SupersededByOf, StoredRows,
      ReportChain.Plain, CreativeIdOf, StoredCreativeHash, StoredHash, IdsAreText, OriginalLeft, Peek;
    SupersededRead(env.contract, app, rows, n, i);
    AttestingRead(env.contract, app, rows, n, i);
    PeekDocument(env.contract, rows[i].record, SupersedesHash);
    StoredHashRead(env, catalog, rows[i].record);
  }

  lemma PrunedPredecessor(env: Env, app: JsString, catalog: Catalog, rows: seq<Row>, n: nat,
                          watermarks: map<JsString, Watermark>, cutoff: JsString, i: nat)
    requires Stored(env, app, rows) && 0 < n <= i < |rows|
    requires app in watermarks && watermarks[app] == Watermark(n, cutoff)
    ensures PredecessorDocument(env.contract, Left(env.contract, catalog, rows, n, watermarks), StoredOf(env.contract, rows, i))
         == PreviousAfter(env.contract, rows, n, cutoff, i)
  {
    hide PredecessorDocument, HashesApart, Document, Lawful, Versioned, StoredRows, ReportChain.Plain, Marker,
      IdsAreText;
    PredecessorRead(env.contract, app, catalog, rows, n, watermarks, i);
  }

  lemma WholePredecessor(env: Env, app: JsString, catalog: Catalog, rows: seq<Row>, watermarks: map<JsString, Watermark>, i: nat)
    requires Stored(env, app, rows) && i < |rows|
    ensures PredecessorDocument(env.contract, Left(env.contract, catalog, rows, 0, watermarks), StoredOf(env.contract, rows, i))
         == PreviousDocument(env.contract, rows, i)
  {
    hide PredecessorDocument, HashesApart, Document, Lawful, Versioned, StoredRows, ReportChain.Plain, Marker,
      IdsAreText;
    PredecessorRead(env.contract, app, catalog, rows, 0, watermarks, i);
  }

  /**
   The context read from the database after the first `n` rows were deleted and the watermark was moved
   behind them is the context of a survivor, whichever version it is.
   */
  lemma PrunedContextRead(env: Env, app: JsString, catalog: Catalog, rows: seq<Row>, n: nat,
                          watermarks: map<JsString, Watermark>, cutoff: JsString, i: nat)
    requires Stored(env, app, rows) && 0 < n <= i < |rows|
    requires app in watermarks && watermarks[app] == Watermark(n, cutoff)
    ensures RowContext(env, Left(env.contract, catalog, rows, n, watermarks), StoredOf(env.contract, rows, i))
         == Placed(ContextAfter(env, catalog, rows, n, cutoff, i), HeapAfter(env, rows, n, cutoff, i))
  {
    hide Stored, PredecessorDocument, SupersededRow, Document, AttestingDocument, SupersededByOf, StoredRows,
      PreviousAfter, CreativeIdOf, StoredCreativeHash, StoredHash, OriginalLeft, Peek;
    PrunedPredecessor(env, app, catalog, rows, n, watermarks, cutoff, i);
    PartsRead(env, app, catalog, rows, n, i);
    if OriginalLeft(rows, n, i).Some? {
      OriginalIsLeft(rows, n, i);
      PrunedPredecessor(env, app, catalog, rows, n, watermarks, cutoff, OriginalLeft(rows, n, i).value);
    }
  }

  lemma OriginalIsLeft(rows: seq<Row>, n: nat, i: nat)
    requires i < |rows| && OriginalLeft(rows, n, i).Some?
    ensures n <= OriginalLeft(rows, n, i).value < |rows|
    ensures n == 0 ==> OriginalLeft(rows, n, i) == SupersededAt(rows, i)
  {
  }

  /** With nothing deleted it is the context of the log, whichever version is asked for and whatever the watermark. */
  lemma WholeContextRead(env: Env, app: JsString, catalog: Catalog, rows: seq<Row>, watermarks: map<JsString, Watermark>, i: nat)
    requires Stored(env, app, rows) && i < |rows|
    ensures RowContext(env, Left(env.contract, catalog, rows, 0, watermarks), StoredOf(env.contract, rows, i))
         == Placed(ContextOf(env, catalog, rows, i), HeapOf(env, rows, i))
  {
    hide Stored, PredecessorDocument, SupersededRow, Document, AttestingDocument, SupersededByOf, StoredRows,
      PreviousDocument, CreativeIdOf, StoredCreativeHash, StoredHash, SupersededAt, Peek;
    WholePredecessor(env, app, catalog, rows, watermarks, i);
    PartsRead(env, app, catalog, rows, 0, i);
    if SupersededAt(rows, i).Some? {
      OriginalIsLeft(rows, 0, i);
      WholePredecessor(env, app, catalog, rows, watermarks, SupersededAt(rows, i).value);
    }
  }

  /** A gap the watermark does not cover is no retention: the first survivor fails its chain check as having no predecessor. */
  lemma UncoveredGapFails(env: Env, app: JsString, catalog: Catalog, ring: KeyRing, rows: seq<Row>, n: nat,
                          watermarks: map<JsString, Watermark>)
    requires Sound(env) && Intact(env, catalog, ring, Str(app), Log(rows)) && 0 < n < |rows|
    requires app in watermarks ==> watermarks[app].prunedThrough < n
    ensures var placed := RowContext(env, Left(env.contract, catalog, rows, n, watermarks), StoredOf(env.contract, rows, n));
            CheckChain(env, rows[n].record, placed.context.prevRecord) == Fail(ChainCheck, PreviousMissing)
  {
    hide PredecessorDocument, HashesApart, Document, Lawful, Versioned, StoredRows, ReportChain.Plain, Marker,
      Sound, Sealed, SupersededRow, AttestingDocument;
    IntactIsStored(env, catalog, ring, app, rows);
    PredecessorRead(env.contract, app, catalog, rows, n, watermarks, n);
    NotFirst(env, catalog, ring, app, rows, n);
  }

  lemma NotFirst(env: Env, catalog: Catalog, ring: KeyRing, app: JsString, rows: seq<Row>, n: nat)
    requires Sound(env) && Intact(env, catalog, ring, Str(app), Log(rows)) && 0 < n < |rows|
    ensures rows[n].record[PrevHash] != Said(env.contract, Genesis)
  {
    hide Sealed, Versioned;
    assert LinkedAt(env.contract, Str(app), rows, n);
    RowSealed(env, catalog, ring, Str(app), rows, n - 1);
    HashIsHash(env.contract, rows[n - 1].record);
  }
}
