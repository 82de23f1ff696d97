/**
 What `verify` answers for every row of an intact log under the context built from its neighbours,
 and what pruning a prefix of the log leaves of that answer.
 */
module ChainVerdicts {
  import opened Options
  import opened Utf16
  import opened CanonicalJson
  import opened AuditRecords
  import opened Chain
  import opened Verify
  import opened VerifyLaws
  import opened ChainStore
  import opened ChainRuns
  import opened ChainSteps

  /** The one thing verification holds against a row of an intact log. */
  ghost predicate NeverAttestedServe(c: Contract, row: Row) {
    row.isLatest && IsUnattested(row.record) && row.record[Decided] == Said(c, Serve)
  }

  // --------------------------------------------------------------------------------- own checks

  lemma NotPruned(c: Contract, r: AuditRecord)
    requires Lawful(c)
    ensures !IsPruned(c, Document(c, r))
  {
    var m := Document(c, r).members;
    forall i | 0 <= i < |m| ensures m[i].key != c.word(PrunedKey) {
      assert m[i] == FieldMember(c, r, FieldAt(i));
      assert c.fieldOf(c.key(FieldAt(i))) == Some(FieldAt(i));
    }
    LookupMisses(m, c.word(PrunedKey));
  }

  lemma PeekDocument(c: Contract, r: AuditRecord, f: Field)
    requires Lawful(c)
    ensures Document(c, r).Obj? && Peek(c, Document(c, r), f) == r[f]
  {
    DocumentField(c, r, f);
  }

  lemma LinkChecks(env: Env, r: AuditRecord, p: AuditRecord)
    requires Lawful(env.contract)
    requires r[PrevHash] == p[RecordHash] && r[AppId] == p[AppId] && IsHashText(env.contract, p[RecordHash])
    ensures CheckChain(env, r, Document(env.contract, p)).ok
  {
    NotPruned(env.contract, p);
    PeekDocument(env.contract, p, RecordHash);
    PeekDocument(env.contract, p, AppId);
  }

  lemma ChainChecks(env: Env, catalog: Catalog, ring: KeyRing, app: Value, rows: seq<Row>, i: nat)
    requires Lawful(env.contract) && Intact(env, catalog, ring, app, Log(rows)) && i < |rows|
    ensures CheckChain(env, rows[i].record, PreviousDocument(env.contract, rows, i)).ok
  {
    assert LinkedAt(env.contract, app, rows, i);
    if i > 0 {
      assert LinkedAt(env.contract, app, rows, i - 1) && Sealed(env, catalog, ring, rows[i - 1].record);
      HashIsHash(env.contract, rows[i - 1].record);
      LinkChecks(env, rows[i].record, rows[i - 1].record);
    }
  }

  /** Six of the seven own checks pass wherever the chain check does; the seventh depends on who attests the row. */
  lemma OwnChecksPass(env: Env, catalog: Catalog, ring: KeyRing, app: Value, rows: seq<Row>, i: nat, ctx: Context)
    requires Lawful(env.contract) && Intact(env, catalog, ring, app, Log(rows)) && i < |rows|
    requires CheckChain(env, rows[i].record, ctx.prevRecord).ok
    requires ctx.storedCreativeHash == StoredHash(env, catalog, rows[i].record)
    ensures var (c, r) := (env.contract, rows[i].record);
            && Parse(c, Document(c, r)) == Some(r)
            && SixOk(OwnChecks(env, Document(c, r), r, ring, ctx))
            && OwnChecks(env, Document(c, r), r, ring, ctx)[6] == CheckSeparation(c, r, ctx.supersededBy)
  {
    var r := rows[i].record;
    assert Sealed(env, catalog, ring, r);
    SealedParts(env, catalog, ring, r);
    ParseDocument(env.contract, r);
    SealedPasses(env, catalog, ring, r, ctx);
  }

  lemma SealedPasses(env: Env, catalog: Catalog, ring: KeyRing, r: AuditRecord, ctx: Context)
    requires Sealed(env, catalog, ring, r) && CheckChain(env, r, ctx.prevRecord).ok
    requires ctx.storedCreativeHash == StoredHash(env, catalog, r)
    ensures var own := OwnChecks(env, Document(env.contract, r), r, ring, ctx);
            SixOk(own) && own[6] == CheckSeparation(env.contract, r, ctx.supersededBy)
  {
    hide CheckSeparation, Document, Valid, CheckChain, StoredHash;
  }

  predicate SixOk(checks: seq<Check>) {
    |checks| == 7 && forall n :: 0 <= n < 6 ==> checks[n].ok
  }

  // ------------------------------------------------------------------------------- separation

  /** The positions around a superseded row: found by hash, and its heir found by id. */
  lemma VersionsFound(rows: seq<Row>, k: nat, j: nat)
    requires Versioned(Log(rows)) && j < k < |rows| && Attests(rows[k], rows[j]) && HashOf(rows[j]).Str?
    ensures SupersededAt(rows, k) == Some(j)
    ensures rows[k].isLatest ==> FindLatest(rows, IdOf(rows[j])) == Some(k)
  {
    var found := FindLatest(rows, IdOf(rows[j]));
    if rows[k].isLatest && found != Some(k) {
      var m := found.value;
      if m < k {
        TwoVersions(rows, m, k);
      } else {
        TwoVersions(rows, k, m);
      }
    }
  }

  lemma AttestsInContext(c: Contract, next: Row, prior: Row)
    requires Lawful(c) && Attests(next, prior)
    requires next.record[ModelOutputHash].Str? && next.record[AttestedAt].Str?
    ensures AttestsRecord(c, prior.record, Document(c, next.record))
  {
    forall f: Field ensures Peek(c, Document(c, next.record), f) == next.record[f] {
      PeekDocument(c, next.record, f);
    }
    assert !IsAttestationField(AppId);
  }

  lemma AttestedTexts(c: Contract, r: AuditRecord)
    requires Valid(c, r) && IsAttested(r)
    ensures r[ModelOutputHash].Str? && r[AttestedAt].Str?
  {
    assert Usable(c, ModelOutputHash, r[ModelOutputHash]);
    assert Usable(c, AttestedAt, r[AttestedAt]);
  }

  lemma DecidedEitherWay(c: Contract, r: AuditRecord)
    requires Lawful(c) && Valid(c, r)
    ensures r[Decided] == Said(c, Suppress) <==> r[Decided] != Said(c, Serve)
  {
    assert Usable(c, Decided, r[Decided]);
  }

  lemma HeirInContext(env: Env, catalog: Catalog, ring: KeyRing, app: Value, rows: seq<Row>, i: nat)
    requires Lawful(env.contract) && Intact(env, catalog, ring, app, Log(rows)) && i < |rows| && !rows[i].isLatest
    ensures IsUnattested(rows[i].record)
    ensures AttestsRecord(env.contract, rows[i].record, SupersededByOf(env.contract, rows, i))
  {
    assert Sealed(env, catalog, ring, rows[i].record);
    HashIsHash(env.contract, rows[i].record);
    var k := HeirOf(rows, i);
    VersionsFound(rows, k, i);
    assert Sealed(env, catalog, ring, rows[k].record);
    AttestedTexts(env.contract, rows[k].record);
    AttestsInContext(env.contract, rows[k], rows[i]);
  }

  lemma HeirOf(rows: seq<Row>, i: nat) returns (k: nat)
    requires Versioned(Log(rows)) && i < |rows| && !rows[i].isLatest
    ensures i < k < |rows| && rows[k].isLatest && Attests(rows[k], rows[i])
  {
    assert HasHeir(rows, i);
    k :| i < k < |rows| && rows[k].isLatest && Attests(rows[k], rows[i]);
  }

  lemma OriginalOf(rows: seq<Row>, k: nat) returns (j: nat)
    requires Versioned(Log(rows)) && k < |rows| && !IsUnattested(rows[k].record)
    ensures j < k && Attests(rows[k], rows[j]) && IsAttested(rows[k].record)
  {
    assert HasOriginal(rows, k);
    j :| 0 <= j < k && Attests(rows[k], rows[j]);
  }

  lemma SeparationDecided(env: Env, catalog: Catalog, ring: KeyRing, app: Value, rows: seq<Row>, i: nat)
    requires Lawful(env.contract) && Intact(env, catalog, ring, app, Log(rows)) && i < |rows|
    ensures CheckSeparation(env.contract, rows[i].record, SupersededByOf(env.contract, rows, i)).ok
        <==> !NeverAttestedServe(env.contract, rows[i])
  {
    assert Sealed(env, catalog, ring, rows[i].record);
    DecidedEitherWay(env.contract, rows[i].record);
    if !rows[i].isLatest {
      HeirInContext(env, catalog, ring, app, rows, i);
    } else if !IsUnattested(rows[i].record) {
      var j := OriginalOf(rows, i);
    }
  }

  // ------------------------------------------------------------------------------- supersedes

  lemma SameBodyText(env: Env, p: AuditRecord, r: AuditRecord)
    requires forall f: Field {:trigger IsAttestationField(f)} :: !IsAttestationField(f) ==> r[f] == p[f]
    ensures FieldsDocument(env.contract, p, BODY_FIELDS) == FieldsDocument(env.contract, r, BODY_FIELDS)
  {
    var (m, n) := (FieldsDocument(env.contract, p, BODY_FIELDS).members, FieldsDocument(env.contract, r, BODY_FIELDS).members);
    forall i | 0 <= i < |m| ensures m[i] == n[i] {
      FieldsEnumerated(Id, i);
      BodyFieldsFirst(FieldAt(i));
      assert !IsAttestationField(FieldAt(i));
    }
  }

  lemma BodyAccepted(env: Env, r: AuditRecord)
    requires Sound(env) && Valid(env.contract, r)
    ensures env.canonicalize(FieldsDocument(env.contract, r, BODY_FIELDS)).Text?
  {
    var doc := FieldsDocument(env.contract, r, BODY_FIELDS);
    forall i | 0 <= i < |doc.members| ensures Accepts(doc.members[i].value) {
      assert doc.members[i] == FieldMember(env.contract, r, FieldAt(i));
      assert Usable(env.contract, FieldAt(i), r[FieldAt(i)]);
    }
    assert Accepts(doc);
  }

  lemma CopyIsFaithful(env: Env, next: Row, prior: Row)
    requires Sound(env) && Valid(env.contract, next.record) && Valid(env.contract, prior.record)
    requires Attests(next, prior)
    ensures Parse(env.contract, Document(env.contract, prior.record)).Some?
    ensures Unfaithful(env, next.record, Document(env.contract, prior.record)).None?
  {
    hide Valid, Document, Parse;
    ParseDocument(env.contract, prior.record);
    SameBodyText(env, prior.record, next.record);
    BodyAccepted(env, next.record);
  }

  lemma CopyIsNoStranger(c: Contract, next: Row, prior: Row)
    requires Lawful(c) && Valid(c, prior.record)
    requires Attests(next, prior)
    ensures Stranger(c, next.record, Document(c, prior.record)).None?
  {
    hide Parse, Document, Valid;
    ParseDocument(c, prior.record);
    PeekDocument(c, prior.record, RecordHash);
    PeekDocument(c, prior.record, Id);
    PeekDocument(c, prior.record, AppId);
    PeekDocument(c, prior.record, SupersedesHash);
    assert !IsAttestationField(AppId);
  }

  lemma StepRecurses(env: Env, r: AuditRecord, ctx: Context, heap: Contexts, prior: Value)
    requires !r[SupersedesHash].Null? && ctx.supersededRecord == prior && ctx.verifySuperseded.Undefined?
    requires Stranger(env.contract, r, prior).None? && Unfaithful(env, r, prior).None?
    ensures SupersedesFirst(env, r, ctx, heap) == Recurse(prior, NestedContext(Document(env.contract, r), ctx, heap))
  {
  }

  /** An original is valid under any context that places it and names its attestation. */
  lemma OriginalVerifies(env: Env, catalog: Catalog, ring: KeyRing, app: Value, rows: seq<Row>, j: nat, ctx: Context, heap: Contexts)
    requires Sound(env) && Intact(env, catalog, ring, app, Log(rows)) && j < |rows| && IsUnattested(rows[j].record)
    requires CheckChain(env, rows[j].record, ctx.prevRecord).ok
    requires ctx.storedCreativeHash == StoredHash(env, catalog, rows[j].record)
    requires AttestsRecord(env.contract, rows[j].record, ctx.supersededBy)
    ensures VerifyWith(env, Document(env.contract, rows[j].record), ring, ctx, heap).valid
  {
    hide Sealed, Versioned, CheckChain, VerifyWith, OwnChecks, AttestsRecord;
    var r := rows[j].record;
    OwnChecksPass(env, catalog, ring, app, rows, j, ctx);
    OriginalIsValid(env, r, ring, ctx, heap);
  }

  lemma OriginalIsValid(env: Env, r: AuditRecord, ring: KeyRing, ctx: Context, heap: Contexts)
    requires Lawful(env.contract) && IsUnattested(r) && Parse(env.contract, Document(env.contract, r)) == Some(r)
    requires SixOk(OwnChecks(env, Document(env.contract, r), r, ring, ctx))
    requires OwnChecks(env, Document(env.contract, r), r, ring, ctx)[6] == CheckSeparation(env.contract, r, ctx.supersededBy)
    requires AttestsRecord(env.contract, r, ctx.supersededBy)
    ensures VerifyWith(env, Document(env.contract, r), ring, ctx, heap).valid
  {
    OriginalSettles(env, Document(env.contract, r), ring, ctx, heap);
    AllOk(OwnChecks(env, Document(env.contract, r), r, ring, ctx), Pass(SupersedesCheck, NotApplicable));
  }

  /** A context that leads an attestation to its original, placed well where it stands. */
  ghost predicate LeadsToOriginal(env: Env, catalog: Catalog, next: Row, prior: Row, ctx: Context, heap: Contexts) {
    var nested := ContextAt(heap, ctx.superseded);
    && ctx.supersededRecord == Document(env.contract, prior.record) && ctx.verifySuperseded.Undefined?
    && ctx.storedCreativeHash == StoredHash(env, catalog, next.record) && nested.storedCreativeHash.Undefined?
    && CheckChain(env, prior.record, nested.prevRecord).ok
  }

  /** The eighth check passes on an attestation that is led to its original. */
  lemma AttestationPasses(env: Env, catalog: Catalog, ring: KeyRing, app: Value, rows: seq<Row>, k: nat, j: nat, ctx: Context, heap: Contexts)
    requires Sound(env) && Intact(env, catalog, ring, app, Log(rows)) && j < k < |rows| && Attests(rows[k], rows[j])
    requires LeadsToOriginal(env, catalog, rows[k], rows[j], ctx, heap)
    ensures SupersedesOk(env, rows[k].record, ring, ctx, heap)
  {
    hide Sealed, Versioned, Valid, LinkedAt, CheckChain, VerifyWith, StoredHash, Document, Sound, SupersedesFirst;
    var c := env.contract;
    OriginalFound(env, catalog, ring, app, rows, k, j);
    AttestationRecurses(env, rows[k], rows[j], ctx, heap);
    SoundIsLawful(env);
    RecursionEnds(env, rows[k].record, ctx, heap);
    AttestedTexts(c, rows[k].record);
    AttestsInContext(c, rows[k], rows[j]);
    SameStoredHash(env, catalog, rows[k], rows[j]);
    OriginalVerifies(env, catalog, ring, app, rows, j, NestedContext(Document(c, rows[k].record), ctx, heap), heap);
  }

  lemma SoundIsLawful(env: Env)
    requires Sound(env)
    ensures Lawful(env.contract)
  {
  }

  lemma SameStoredHash(env: Env, catalog: Catalog, next: Row, prior: Row)
    requires next.record[Creative] == prior.record[Creative]
    ensures StoredHash(env, catalog, next.record) == StoredHash(env, catalog, prior.record)
  {
  }

  lemma ContextLeads(env: Env, catalog: Catalog, rows: seq<Row>, k: nat, j: nat)
    requires k < |rows| && j < |rows| && SupersededAt(rows, k) == Some(j)
    ensures var (ctx, heap) := (ContextOf(env, catalog, rows, k), HeapOf(env, rows, k));
            && ctx.supersededRecord == Document(env.contract, rows[j].record) && ctx.verifySuperseded.Undefined?
            && ctx.storedCreativeHash == StoredHash(env, catalog, rows[k].record)
            && ContextAt(heap, ctx.superseded) == EMPTY_CONTEXT.(prevRecord := PreviousDocument(env.contract, rows, j))
  {
    hide Document, StoredHash, PreviousDocument, SupersededByOf;
  }

  /** The eighth check passes on every row. */
  lemma SupersedesPasses(env: Env, catalog: Catalog, ring: KeyRing, app: Value, rows: seq<Row>, k: nat)
    requires Sound(env) && Intact(env, catalog, ring, app, Log(rows)) && k < |rows|
    ensures SupersedesOk(env, rows[k].record, ring, ContextOf(env, catalog, rows, k), HeapOf(env, rows, k))
  {
    hide Sealed, LinkedAt, CheckChain, VerifyWith, StoredHash, Document, Valid, Versioned, ContextOf, HeapOf,
      PreviousDocument, Sound;
    var (ctx, heap) := (ContextOf(env, catalog, rows, k), HeapOf(env, rows, k));
    if IsUnattested(rows[k].record) {
      SoundIsLawful(env);
      UnattestedSettles(env, rows[k].record, ctx, heap);
    } else {
      var j := OriginalOf(rows, k);
      SoundIsLawful(env);
      OriginalFound(env, catalog, ring, app, rows, k, j);
      ContextLeads(env, catalog, rows, k, j);
      ChainChecks(env, catalog, ring, app, rows, j);
      AttestationPasses(env, catalog, ring, app, rows, k, j, ctx, heap);
    }
  }

  lemma UnattestedSettles(env: Env, r: AuditRecord, ctx: Context, heap: Contexts)
    requires IsUnattested(r)
    ensures SupersedesFirst(env, r, ctx, heap) == Settle(Pass(SupersedesCheck, NotApplicable))
  {
  }

  lemma RowSealed(env: Env, catalog: Catalog, ring: KeyRing, app: Value, rows: seq<Row>, i: nat)
    requires Intact(env, catalog, ring, app, Log(rows)) && i < |rows|
    ensures Valid(env.contract, rows[i].record) && Sealed(env, catalog, ring, rows[i].record) && Versioned(Log(rows))
  {
    assert Sealed(env, catalog, ring, rows[i].record);
    SealedParts(env, catalog, ring, rows[i].record);
  }

  lemma AttestsFacts(next: Row, prior: Row)
    requires Attests(next, prior)
    ensures next.record[SupersedesHash] == HashOf(prior) && next.record[Creative] == prior.record[Creative]
  {
    assert !IsAttestationField(Creative);
  }

  lemma OriginalFound(env: Env, catalog: Catalog, ring: KeyRing, app: Value, rows: seq<Row>, k: nat, j: nat)
    requires Sound(env) && Intact(env, catalog, ring, app, Log(rows)) && j < k < |rows| && Attests(rows[k], rows[j])
    ensures Valid(env.contract, rows[j].record) && Valid(env.contract, rows[k].record)
    ensures SupersededAt(rows, k) == Some(j) && !rows[k].record[SupersedesHash].Null?
    ensures rows[k].record[Creative] == rows[j].record[Creative]
  {
    RowSealed(env, catalog, ring, app, rows, j);
    RowSealed(env, catalog, ring, app, rows, k);
    HashIsHash(env.contract, rows[j].record);
    VersionsFound(rows, k, j);
    AttestsFacts(rows[k], rows[j]);
  }

  lemma AttestationRecurses(env: Env, next: Row, prior: Row, ctx: Context, heap: Contexts)
    requires Sound(env) && Valid(env.contract, next.record) && Valid(env.contract, prior.record) && Attests(next, prior)
    requires !next.record[SupersedesHash].Null?
    requires ctx.supersededRecord == Document(env.contract, prior.record) && ctx.verifySuperseded.Undefined?
    ensures SupersedesFirst(env, next.record, ctx, heap)
         == Recurse(Document(env.contract, prior.record), NestedContext(Document(env.contract, next.record), ctx, heap))
  {
    hide Valid, Document, Stranger, Unfaithful, SupersedesFirst;
    CopyIsNoStranger(env.contract, next, prior);
    CopyIsFaithful(env, next, prior);
    StepRecurses(env, next.record, ctx, heap, Document(env.contract, prior.record));
  }

  // -------------------------------------------------------------------------------- the verdict

  /** Eight checks, of which only `separation_attested` may fail, and exactly when `unproven`. */
  ghost predicate FailsOnlySeparation(response: Response, unproven: bool) {
    && |response.checks| == 8
    && (forall n :: 0 <= n < 8 && n != 6 ==> response.checks[n].ok)
    && response.checks[6].name == SeparationCheck
    && (response.checks[6].ok <==> !unproven)
    && (response.valid <==> !unproven)
  }

  lemma EightChecks(own: seq<Check>, last: Check, unproven: bool)
    requires SixOk(own) && last.ok && own[6].name == SeparationCheck && (own[6].ok <==> !unproven)
    ensures FailsOnlySeparation(Respond(own + [last]), unproven)
  {
    var all := own + [last];
    assert all[7] == last && forall n :: 0 <= n < 7 ==> all[n] == own[n];
  }

  /** `last` is how verification of a parsed record ends. */
  lemma VerdictOf(env: Env, r: AuditRecord, ring: KeyRing, ctx: Context, heap: Contexts) returns (last: Check)
    requires Lawful(env.contract) && Parse(env.contract, Document(env.contract, r)) == Some(r)
    requires SupersedesOk(env, r, ring, ctx, heap)
    ensures VerifyWith(env, Document(env.contract, r), ring, ctx, heap)
         == Respond(OwnChecks(env, Document(env.contract, r), r, ring, ctx) + [last])
    ensures last.ok
  {
    var step := SupersedesFirst(env, r, ctx, heap);
    if step.Settle? {
      last := step.check;
    } else {
      RecursionEnds(env, r, ctx, heap);
      last := SupersedesLast(VerifyWith(env, step.superseded, ring, step.context, heap));
    }
  }

  lemma ContextParts(env: Env, catalog: Catalog, rows: seq<Row>, i: nat)
    requires i < |rows|
    ensures var ctx := ContextOf(env, catalog, rows, i);
            && ctx.prevRecord == PreviousDocument(env.contract, rows, i)
            && ctx.storedCreativeHash == StoredHash(env, catalog, rows[i].record)
            && ctx.supersededBy == SupersededByOf(env.contract, rows, i)
  {
  }

  /**
   Every row of an intact log passes all eight checks, an attestation and the version it supersedes
   alike; only a serve that was never attested fails, and then exactly `separation_attested`.
   */
  lemma EveryRowVerifies(env: Env, catalog: Catalog, ring: KeyRing, app: Value, rows: seq<Row>, i: nat)
    requires Sound(env) && Intact(env, catalog, ring, app, Log(rows)) && i < |rows|
    ensures FailsOnlySeparation(VerifyRow(env, catalog, ring, rows, i), NeverAttestedServe(env.contract, rows[i]))
  {
    hide ContextOf, HeapOf, OwnChecks, VerifyWith, Intact, FailsOnlySeparation, NeverAttestedServe, SupersedesOk,
      Parse, CheckChain, StoredHash, SupersededByOf, PreviousDocument, IsAttested, IsUnattested, AttestsRecord;
    var (ctx, heap) := (ContextOf(env, catalog, rows, i), HeapOf(env, rows, i));
    ContextParts(env, catalog, rows, i);
    ChainChecks(env, catalog, ring, app, rows, i);
    OwnChecksPass(env, catalog, ring, app, rows, i, ctx);
    SeparationDecided(env, catalog, ring, app, rows, i);
    SupersedesPasses(env, catalog, ring, app, rows, i);
    var last := VerdictOf(env, rows[i].record, ring, ctx, heap);
    EightChecks(OwnChecks(env, Document(env.contract, rows[i].record), rows[i].record, ring, ctx), last,
                NeverAttestedServe(env.contract, rows[i]));
  }

  /** The same of every state any run of appends and attestations reaches. */
  lemma EveryRunVerifies(env: Env, catalog: Catalog, ring: KeyRing, app: Value, commands: seq<Command>, i: nat)
    requires Sound(env) && forall n :: 0 <= n < |commands| ==> GoodCommand(env, catalog, ring, app, commands[n])
    requires i < |Run(env, commands)|
    ensures FailsOnlySeparation(VerifyRow(env, catalog, ring, Run(env, commands), i),
                                NeverAttestedServe(env.contract, Run(env, commands)[i]))
  {
    EveryRunIsIntact(env, catalog, ring, app, commands);
    EveryRowVerifies(env, catalog, ring, app, Run(env, commands), i);
  }

  // -------------------------------------------------------------------------------- retention

  /** PrunedPredecessor. */
  function Marker(c: Contract, cutoff: JsString): Value {
    Obj([Member(c.word(PrunedKey), Bool(true)), Member(c.word(RetainCutoffKey), Str(cutoff))])
  }

  lemma MarkerRead(c: Contract, cutoff: JsString)
    requires Lawful(c)
    ensures IsPruned(c, Marker(c, cutoff)) && Prop(c, Marker(c, cutoff), RetainCutoffKey) == Str(cutoff)
  {
    LookupFinds(Marker(c, cutoff).members, 1);
  }

  /** The chain check of a row after the first `n` were deleted under `cutoff`. */
  function CheckAfterPruning(env: Env, rows: seq<Row>, n: nat, cutoff: JsString, i: nat): Check
    requires n <= i < |rows|
  {
    CheckChain(env, rows[i].record,
               if i == n then Marker(env.contract, cutoff) else PreviousDocument(env.contract, rows, i))
  }

  ghost predicate NotBefore(env: Env, r: AuditRecord, cutoff: JsString) {
    DateOf(env, r[Ts]).Some? && env.dateParse(cutoff).Some? && DateOf(env, r[Ts]).value >= env.dateParse(cutoff).value
  }

  /**
   Deleting any non-empty prefix: every survivor behind the first keeps its chain verdict, and the
   first is rescued by the marker exactly when it is not dated before the cutoff.
   */
  lemma PruningKeepsChain(env: Env, catalog: Catalog, ring: KeyRing, app: Value, rows: seq<Row>, n: nat, cutoff: JsString, i: nat)
    requires Sound(env) && Intact(env, catalog, ring, app, Log(rows)) && 0 < n <= i < |rows|
    ensures i > n ==> CheckAfterPruning(env, rows, n, cutoff, i).ok
    ensures i == n ==> (CheckAfterPruning(env, rows, n, cutoff, i).ok <==> NotBefore(env, rows[n].record, cutoff))
  {
    hide Parse, Versioned, Document, Valid, DateOf;
    ChainChecks(env, catalog, ring, app, rows, i);
    MarkerRead(env.contract, cutoff);
    assert LinkedAt(env.contract, app, rows, i) && Sealed(env, catalog, ring, rows[i - 1].record);
    HashIsHash(env.contract, rows[i - 1].record);
  }

  /** prunableThroughSeq: everything before the first row that is not dated before the cutoff. */
  function PrunableThrough(env: Env, rows: seq<Row>, cutoff: int): (n: nat)
    ensures n <= |rows|
  {
    if rows == [] then 0
    else
      var ts := DateOf(env, rows[0].record[Ts]);
      if ts.Some? && ts.value >= cutoff then 0 else 1 + PrunableThrough(env, rows[1..], cutoff)
  }

  lemma {:induction false} FirstKept(env: Env, rows: seq<Row>, cutoff: int)
    requires PrunableThrough(env, rows, cutoff) < |rows|
    ensures var ts := DateOf(env, rows[PrunableThrough(env, rows, cutoff)].record[Ts]); ts.Some? && ts.value >= cutoff
  {
    var ts := DateOf(env, rows[0].record[Ts]);
    if !(ts.Some? && ts.value >= cutoff) {
      FirstKept(env, rows[1..], cutoff);
    }
  }

  /** What the retention job deletes never costs a survivor its chain verdict. */
  lemma RetentionKeepsChain(env: Env, catalog: Catalog, ring: KeyRing, app: Value, rows: seq<Row>, cutoff: JsString, i: nat)
    requires Sound(env) && Intact(env, catalog, ring, app, Log(rows)) && env.dateParse(cutoff).Some?
    requires 0 < PrunableThrough(env, rows, env.dateParse(cutoff).value) <= i < |rows|
    ensures CheckAfterPruning(env, rows, PrunableThrough(env, rows, env.dateParse(cutoff).value), cutoff, i).ok
  {
    var n := PrunableThrough(env, rows, env.dateParse(cutoff).value);
    FirstKept(env, rows, env.dateParse(cutoff).value);
    PruningKeepsChain(env, catalog, ring, app, rows, n, cutoff, i);
  }
}
