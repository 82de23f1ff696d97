/**
 What retention costs: the oldest rows of a log are deleted, the first that is left stands behind a
 `pruned` marker, and an attestation whose original went with them has nothing left to point at.
 */
module ChainRetention {
  import opened Options
  import opened Utf16
  import opened CanonicalJson
  import opened AuditRecords
  import opened Chain
  import opened Verify
  import opened VerifyLaws
  import opened ChainStore
  import opened ChainRuns
  import opened ChainSteps
  import opened ChainVerdicts

  /** The predecessor of a survivor: the first one's is the marker. */
  function PreviousAfter(c: Contract, rows: seq<Row>, n: nat, cutoff: JsString, i: nat): Value
    requires i < |rows|
  {
    if i == n then Marker(c, cutoff) else PreviousDocument(c, rows, i)
  }

  /** The original of a survivor, if that is still there. */
  function OriginalLeft(rows: seq<Row>, n: nat, i: nat): Option<nat>
    requires i < |rows|
  {
    var prior := SupersededAt(rows, i);
    if prior.Some? && prior.value >= n then prior else None
  }

  /** That is the row the shortened table finds under the hash. */
  lemma OriginalLeftIsFound(rows: seq<Row>, n: nat, i: nat)
    requires Versioned(Log(rows)) && n <= i < |rows| && rows[i].record[SupersedesHash].Str?
    ensures FindByHash(rows[n..], rows[i].record[SupersedesHash])
         == match OriginalLeft(rows, n, i) case None => None case Some(j) => Some(j - n)
  {
    hide HasOriginal, HasHeir;
    var (hash, left) := (rows[i].record[SupersedesHash], rows[n..]);
    var (found, all) := (FindByHash(left, hash), FindByHash(rows, hash));
    forall k | n <= k < |rows| ensures left[k - n] == rows[k] {
    }
    if found.Some? {
      assert left[found.value] == rows[n + found.value];
      assert all.value == n + found.value;
    }
  }

  /** The context of a survivor once the first `n` rows are gone. */
  function ContextAfter(env: Env, catalog: Catalog, rows: seq<Row>, n: nat, cutoff: JsString, i: nat): Context
    requires i < |rows|
  {
    var (c, prior) := (env.contract, OriginalLeft(rows, n, i));
    Context(
      PreviousAfter(c, rows, n, cutoff, i), StoredHash(env, catalog, rows[i].record), SupersededByOf(c, rows, i),
      if prior.Some? then Document(c, rows[prior.value].record) else if rows[i].record[SupersedesHash].Str? then Null else Undefined,
      Undefined, if prior.Some? then Some(0) else None)
  }

  function HeapAfter(env: Env, rows: seq<Row>, n: nat, cutoff: JsString, i: nat): Contexts
    requires i < |rows|
  {
    var prior := OriginalLeft(rows, n, i);
    if prior.None? then []
    else [Context(PreviousAfter(env.contract, rows, n, cutoff, prior.value), Undefined, Undefined, Undefined, Undefined, None)]
  }

  /** Everything passes but the eighth check, which has no original to look at. */
  ghost predicate FailsOnlySupersedes(response: Response) {
    && |response.checks| == 8 && !response.valid
    && (forall n :: 0 <= n < 7 ==> response.checks[n].ok)
    && response.checks[7] == Fail(SupersedesCheck, SupersededMissing)
  }

  lemma ChainAfter(env: Env, catalog: Catalog, ring: KeyRing, app: Value, rows: seq<Row>, n: nat, cutoff: JsString, i: nat)
    requires Sound(env) && Intact(env, catalog, ring, app, Log(rows)) && 0 < n <= i < |rows|
    requires NotBefore(env, rows[n].record, cutoff)
    ensures CheckChain(env, rows[i].record, PreviousAfter(env.contract, rows, n, cutoff, i)).ok
  {
    hide CheckChain, Sound, Sealed, LinkedAt, Versioned, NotBefore;
    PruningKeepsChain(env, catalog, ring, app, rows, n, cutoff, i);
  }

  lemma ContextAfterParts(env: Env, catalog: Catalog, rows: seq<Row>, n: nat, cutoff: JsString, i: nat)
    requires i < |rows|
    ensures var (ctx, prior) := (ContextAfter(env, catalog, rows, n, cutoff, i), OriginalLeft(rows, n, i));
            && ctx.prevRecord == PreviousAfter(env.contract, rows, n, cutoff, i)
            && ctx.storedCreativeHash == StoredHash(env, catalog, rows[i].record)
            && ctx.supersededBy == SupersededByOf(env.contract, rows, i)
            && (prior.None? && rows[i].record[SupersedesHash].Str? ==> ctx.supersededRecord.Null?)
            && (prior.Some? ==>
                  && ctx.supersededRecord == Document(env.contract, rows[prior.value].record) && ctx.verifySuperseded.Undefined?
                  && ContextAt(HeapAfter(env, rows, n, cutoff, i), ctx.superseded)
                     == EMPTY_CONTEXT.(prevRecord := PreviousAfter(env.contract, rows, n, cutoff, prior.value)))
  {
    hide PreviousAfter, StoredHash, SupersededByOf, Document, OriginalLeft;
  }

  /** The eighth check of a survivor that attests nothing, or whose original is left. */
  lemma StillSupersedes(env: Env, catalog: Catalog, ring: KeyRing, app: Value, rows: seq<Row>, n: nat, cutoff: JsString, i: nat)
    requires Sound(env) && Intact(env, catalog, ring, app, Log(rows)) && 0 < n <= i < |rows|
    requires NotBefore(env, rows[n].record, cutoff)
    requires IsUnattested(rows[i].record) || OriginalLeft(rows, n, i).Some?
    ensures SupersedesOk(env, rows[i].record, ring, ContextAfter(env, catalog, rows, n, cutoff, i), HeapAfter(env, rows, n, cutoff, i))
  {
    hide Sealed, LinkedAt, CheckChain, VerifyWith, StoredHash, Document, Valid, NotBefore, ContextAfter, HeapAfter,
      PreviousAfter, Versioned;
    var (ctx, heap) := (ContextAfter(env, catalog, rows, n, cutoff, i), HeapAfter(env, rows, n, cutoff, i));
    if IsUnattested(rows[i].record) {
      UnattestedSettles(env, rows[i].record, ctx, heap);
    } else {
      var j := OriginalOf(rows, i);
      OriginalFound(env, catalog, ring, app, rows, i, j);
      ContextAfterParts(env, catalog, rows, n, cutoff, i);
      ChainAfter(env, catalog, ring, app, rows, n, cutoff, j);
      AttestationPasses(env, catalog, ring, app, rows, i, j, ctx, heap);
    }
  }

  /** Behind a deleted original: nothing to compare with, so the check settles there. */
  lemma NothingToSupersede(env: Env, r: AuditRecord, ctx: Context, heap: Contexts)
    requires !r[SupersedesHash].Null? && ctx.supersededRecord.Null?
    ensures SupersedesFirst(env, r, ctx, heap) == Settle(Fail(SupersedesCheck, SupersededMissing))
  {
  }

  lemma OwnChecksAfter(env: Env, catalog: Catalog, ring: KeyRing, app: Value, rows: seq<Row>, n: nat, cutoff: JsString, i: nat)
    requires Sound(env) && Intact(env, catalog, ring, app, Log(rows)) && 0 < n <= i < |rows|
    requires NotBefore(env, rows[n].record, cutoff)
    ensures var (c, r, ctx) := (env.contract, rows[i].record, ContextAfter(env, catalog, rows, n, cutoff, i));
            var own := OwnChecks(env, Document(c, r), r, ring, ctx);
            && Parse(c, Document(c, r)) == Some(r) && SixOk(own)
            && own[6].name == SeparationCheck && (own[6].ok <==> !NeverAttestedServe(c, rows[i]))
  {
    hide Sealed, LinkedAt, CheckChain, Versioned, NotBefore, PreviousAfter, StoredHash, NeverAttestedServe, Parse,
      Document, SupersededByOf, OwnChecks;
    ContextAfterParts(env, catalog, rows, n, cutoff, i);
    ChainAfter(env, catalog, ring, app, rows, n, cutoff, i);
    OwnChecksPass(env, catalog, ring, app, rows, i, ContextAfter(env, catalog, rows, n, cutoff, i));
    SeparationDecided(env, catalog, ring, app, rows, i);
  }

  lemma SettledVerdict(env: Env, r: AuditRecord, ring: KeyRing, ctx: Context, heap: Contexts, last: Check)
    requires Lawful(env.contract) && Parse(env.contract, Document(env.contract, r)) == Some(r)
    requires SupersedesFirst(env, r, ctx, heap) == Settle(last)
    ensures VerifyWith(env, Document(env.contract, r), ring, ctx, heap)
         == Respond(OwnChecks(env, Document(env.contract, r), r, ring, ctx) + [last])
  {
    hide Parse, SupersedesFirst, OwnChecks, Lawful;
  }

  /**
   Deleting a non-empty prefix whose first survivor is not dated before the cutoff: every survivor
   verifies as it did, but an attestation whose original was deleted, which fails exactly `supersedes`.
   */
  lemma SurvivorsVerify(env: Env, catalog: Catalog, ring: KeyRing, app: Value, rows: seq<Row>, n: nat, cutoff: JsString, i: nat)
    requires Sound(env) && Intact(env, catalog, ring, app, Log(rows)) && 0 < n <= i < |rows|
    requires NotBefore(env, rows[n].record, cutoff)
    ensures var response := VerifyWith(env, Document(env.contract, rows[i].record), ring, ContextAfter(env, catalog, rows, n, cutoff, i),
                                       HeapAfter(env, rows, n, cutoff, i));
            if IsUnattested(rows[i].record) || OriginalLeft(rows, n, i).Some?
            then FailsOnlySeparation(response, NeverAttestedServe(env.contract, rows[i]))
            else FailsOnlySupersedes(response)
  {
    hide Sealed, LinkedAt, CheckChain, Versioned, NotBefore, StoredHash, Parse, OwnChecks, ContextAfter, HeapAfter,
      VerifyWith, FailsOnlySeparation, SupersedesFirst, OriginalLeft, Sound;
    var (r, ctx, heap) := (rows[i].record, ContextAfter(env, catalog, rows, n, cutoff, i), HeapAfter(env, rows, n, cutoff, i));
    SoundIsLawful(env);
    OwnChecksAfter(env, catalog, ring, app, rows, n, cutoff, i);
    var own := OwnChecks(env, Document(env.contract, r), r, ring, ctx);
    if IsUnattested(r) || OriginalLeft(rows, n, i).Some? {
      StillSupersedes(env, catalog, ring, app, rows, n, cutoff, i);
      var last := VerdictOf(env, r, ring, ctx, heap);
      EightChecks(own, last, NeverAttestedServe(env.contract, rows[i]));
    } else {
      var j := OriginalOf(rows, i);
      OriginalFound(env, catalog, ring, app, rows, i, j);
      AttestedNames(env, catalog, ring, app, rows, i);
      ContextAfterParts(env, catalog, rows, n, cutoff, i);
      NothingToSupersede(env, r, ctx, heap);
      SettledVerdict(env, r, ring, ctx, heap, Fail(SupersedesCheck, SupersededMissing));
      SevenPass(own);
    }
  }

  /** What an attested row supersedes it names by a hash. */
  lemma AttestedNames(env: Env, catalog: Catalog, ring: KeyRing, app: Value, rows: seq<Row>, i: nat)
    requires Intact(env, catalog, ring, app, Log(rows)) && i < |rows| && !IsUnattested(rows[i].record)
    ensures rows[i].record[SupersedesHash].Str?
  {
    hide LinkedAt;
    RowSealed(env, catalog, ring, app, rows, i);
    var j := OriginalOf(rows, i);
    RowSealed(env, catalog, ring, app, rows, j);
    HashIsHash(env.contract, rows[j].record);
    AttestsFacts(rows[i], rows[j]);
  }

  lemma SevenPass(own: seq<Check>)
    requires SixOk(own) && own[6].ok
    ensures FailsOnlySupersedes(Respond(own + [Fail(SupersedesCheck, SupersededMissing)]))
  {
    var all := own + [Fail(SupersedesCheck, SupersededMissing)];
    assert all[7] == Fail(SupersedesCheck, SupersededMissing) && forall n :: 0 <= n < 7 ==> all[n] == own[n];
  }

  /** What the retention job deletes costs a survivor nothing but the original it attests. */
  lemma RetentionCosts(env: Env, catalog: Catalog, ring: KeyRing, app: Value, rows: seq<Row>, cutoff: JsString, i: nat)
    requires Sound(env) && Intact(env, catalog, ring, app, Log(rows)) && env.dateParse(cutoff).Some?
    requires 0 < PrunableThrough(env, rows, env.dateParse(cutoff).value) <= i < |rows|
    ensures var n := PrunableThrough(env, rows, env.dateParse(cutoff).value);
            var response := VerifyWith(env, Document(env.contract, rows[i].record), ring, ContextAfter(env, catalog, rows, n, cutoff, i),
                                       HeapAfter(env, rows, n, cutoff, i));
            if IsUnattested(rows[i].record) || OriginalLeft(rows, n, i).Some?
            then FailsOnlySeparation(response, NeverAttestedServe(env.contract, rows[i]))
            else FailsOnlySupersedes(response)
  {
    hide Sealed, LinkedAt, CheckChain, Versioned, StoredHash, Parse, OwnChecks, ContextAfter, HeapAfter, VerifyWith,
      FailsOnlySeparation, FailsOnlySupersedes, OriginalLeft, Sound;
    FirstKept(env, rows, env.dateParse(cutoff).value);
    SurvivorsVerify(env, catalog, ring, app, rows, PrunableThrough(env, rows, env.dateParse(cutoff).value), cutoff, i);
  }
}
