/**
 Every state of the log that appends and attestations can reach, keys rotating as they like, and
 what verification says about every row of it.
 */
module ChainRuns {
  import opened Options
  import opened Utf16
  import opened CanonicalJson
  import opened AuditRecords
  import opened Chain
  import opened Verify
  import opened RecordBuilder
  import opened ChainStore

  // ------------------------------------------------------------------------ what callers promise

  /** The ring publishes the public half of the key under its key_id, as rotation requires. */
  ghost predicate InRing(env: Env, ring: KeyRing, signing: SigningKey) {
    signing.key_id in ring && ring[signing.key_id] == env.crypto.publicOf(signing.private_pem)
  }

  /** The catalog still holds the selected candidate with the content it was selected with. */
  predicate StoredAsSelected(c: Contract, catalog: Catalog, input: Input) {
    match Decide(c, input.policyResult, input.mediation)
    case Served(candidate) => candidate.id in catalog && catalog[candidate.id] == candidate.content
    case Suppressed(_) => true
  }

  /** Typed fields, a label that is not blank, and a creative the catalog holds. */
  ghost predicate GoodInput(env: Env, catalog: Catalog, app: Value, input: Input) {
    && Str(input.app_id) == app
    && (forall f: Field {:trigger IsAttestationField(f)} :: !IsAttestationField(f) ==>
          SettledAndUsable(env.contract, f, BuildAuditBody(env, input)[f]))
    && !AllBlank(input.disclosure.labelText)
    && StoredAsSelected(env.contract, catalog, input)
  }

  predicate SettledAndUsable(c: Contract, f: Field, v: Value) {
    Settled(c, f, v) && Usable(c, f, v)
  }

  ghost predicate GoodCommand(env: Env, catalog: Catalog, ring: KeyRing, app: Value, command: Command) {
    && InRing(env, ring, command.signing)
    && (command.Append? ==> GoodInput(env, catalog, app, command.input))
  }

  // ------------------------------------------------------------------------------ the invariant

  /** What one record shows by itself, wherever it stands. */
  ghost predicate Sealed(env: Env, catalog: Catalog, ring: KeyRing, r: AuditRecord) {
    match env
    case Env(c, _, _, _, _) =>
      && Valid(c, r)
      && CheckRecordHash(env, Document(c, r), r).ok
      && CheckSignature(env, r, ring).ok
      && CheckDisclosure(c, r).ok
      && CheckCreativeHash(c, r, StoredHash(env, catalog, r)).ok
  }

  ghost predicate LinkedAt(c: Contract, app: Value, rows: seq<Row>, i: nat)
    requires i < |rows|
  {
    && rows[i].record[PrevHash] == (if i == 0 then Said(c, Genesis) else HashOf(rows[i - 1]))
    && rows[i].record[AppId] == app
  }

  /** `next` is the attestation of `prior`. */
  ghost predicate Attests(next: Row, prior: Row) {
    && IsAttested(next.record) && IsUnattested(prior.record) && !prior.isLatest
    && next.record[SupersedesHash] == HashOf(prior) && IdOf(next) == IdOf(prior)
    && forall f: Field {:trigger IsAttestationField(f)} :: !IsAttestationField(f) ==> next.record[f] == prior.record[f]
  }

  ghost predicate HasOriginal(rows: seq<Row>, i: nat)
    requires i < |rows|
  {
    IsUnattested(rows[i].record) || exists j :: 0 <= j < i && Attests(rows[i], rows[j])
  }

  ghost predicate HasHeir(rows: seq<Row>, i: nat)
    requires i < |rows|
  {
    rows[i].isLatest || exists k :: i < k < |rows| && rows[k].isLatest && Attests(rows[k], rows[i])
  }

  datatype Log = Log(rows: seq<Row>)

  ghost predicate Versioned(log: Log) {
    match log
    case Log(rows) =>
      && (forall i, k :: 0 <= i < k < |rows| ==> HashOf(rows[i]) != HashOf(rows[k]))
      && (forall i {:trigger HasOriginal(rows, i)} :: 0 <= i < |rows| ==> HasOriginal(rows, i))
      && (forall i {:trigger HasHeir(rows, i)} :: 0 <= i < |rows| ==> HasHeir(rows, i))
      && (forall i, k {:trigger Attests(rows[k], rows[i])} ::
            0 <= i < k < |rows| && IdOf(rows[i]) == IdOf(rows[k]) ==> Attests(rows[k], rows[i]))
  }

  ghost predicate Intact(env: Env, catalog: Catalog, ring: KeyRing, app: Value, log: Log) {
    match log
    case Log(rows) =>
      && (forall i {:trigger Sealed(env, catalog, ring, rows[i].record)} ::
            0 <= i < |rows| ==> Sealed(env, catalog, ring, rows[i].record))
      && (forall i {:trigger LinkedAt(env.contract, app, rows, i)} ::
            0 <= i < |rows| ==> LinkedAt(env.contract, app, rows, i))
      && Versioned(log)
  }

  // -------------------------------------------------------------------- versions, step by step

  lemma VersionedAppend(rows: seq<Row>, record: AuditRecord)
    requires Versioned(Log(rows)) && Insertable(rows, record) && IsUnattested(record)
    ensures Versioned(Log(rows + [Row(record, true)]))
  {
    var after := rows + [Row(record, true)];
    forall i | 0 <= i < |rows| ensures IdOf(rows[i]) != record[Id] {
      assert HasHeir(rows, i);
    }
    forall i | 0 <= i < |after| ensures HasOriginal(after, i) && HasHeir(after, i) {
      if i < |rows| {
        CarryOver(rows, after, i);
      }
    }
  }

  /** A row keeps its original and its heir when others are added behind. */
  lemma CarryOver(rows: seq<Row>, after: seq<Row>, i: nat)
    requires Versioned(Log(rows)) && i < |rows| <= |after| && forall j :: 0 <= j < |rows| ==> after[j] == rows[j]
    ensures HasOriginal(after, i) && HasHeir(after, i)
  {
    assert HasOriginal(rows, i) && HasHeir(rows, i);
    if !IsUnattested(rows[i].record) {
      var j :| 0 <= j < i && Attests(rows[i], rows[j]);
      assert Attests(after[i], after[j]);
    }
    if !rows[i].isLatest {
      var k :| i < k < |rows| && rows[k].isLatest && Attests(rows[k], rows[i]);
      assert Attests(after[k], after[i]);
    }
  }

  /** The row being superseded is alone with its id, so nobody attests it yet. */
  lemma AloneWithId(rows: seq<Row>, at: nat, i: nat)
    requires Versioned(Log(rows)) && at < |rows| && i < |rows| && i != at
    requires rows[at].isLatest && IsUnattested(rows[at].record)
    ensures IdOf(rows[i]) != IdOf(rows[at])
  {
    if IdOf(rows[i]) == IdOf(rows[at]) {
      if i < at {
        TwoVersions(rows, i, at);
      } else {
        TwoVersions(rows, at, i);
      }
    }
  }

  lemma TwoVersions(rows: seq<Row>, i: nat, k: nat)
    requires Versioned(Log(rows)) && i < k < |rows| && IdOf(rows[i]) == IdOf(rows[k])
    ensures IsAttested(rows[k].record) && IsUnattested(rows[i].record) && !rows[i].isLatest
  {
    assert Attests(rows[k], rows[i]);
  }

  ghost predicate Supersedable(rows: seq<Row>, at: nat, record: AuditRecord) {
    && Versioned(Log(rows)) && at < |rows| && rows[at].isLatest && IsUnattested(rows[at].record)
    && Attests(Row(record, true), rows[at].(isLatest := false))
  }

  lemma VersionedAttest(rows: seq<Row>, at: nat, record: AuditRecord)
    requires Supersedable(rows, at, record) && FindByHash(rows, record[RecordHash]).None?
    ensures Versioned(Log(Superseded(rows, at) + [Row(record, true)]))
  {
    hide FindByHash;
    var after := Superseded(rows, at) + [Row(record, true)];
    forall i, k | 0 <= i < k < |after| && IdOf(after[i]) == IdOf(after[k])
      ensures Attests(after[k], after[i])
    {
      PairsAfterAttest(rows, at, record, i, k);
    }
    forall i | 0 <= i < |after| ensures HasOriginal(after, i) {
      OriginalAfterAttest(rows, at, record, i);
    }
    forall i | 0 <= i < |after| ensures HasHeir(after, i) {
      HeirAfterAttest(rows, at, record, i);
    }
  }

  lemma PairsAfterAttest(rows: seq<Row>, at: nat, record: AuditRecord, i: nat, k: nat)
    requires Supersedable(rows, at, record) && i < k <= |rows|
    requires var after := Superseded(rows, at) + [Row(record, true)]; IdOf(after[i]) == IdOf(after[k])
    ensures var after := Superseded(rows, at) + [Row(record, true)]; Attests(after[k], after[i])
  {
    if i != at && k != at && k < |rows| {
      assert Attests(rows[k], rows[i]);
    } else if i != at {
      AloneWithId(rows, at, i);
    } else if k < |rows| {
      AloneWithId(rows, at, k);
    }
  }

  lemma OriginalAfterAttest(rows: seq<Row>, at: nat, record: AuditRecord, i: nat)
    requires Supersedable(rows, at, record) && i <= |rows|
    ensures HasOriginal(Superseded(rows, at) + [Row(record, true)], i)
  {
    var after := Superseded(rows, at) + [Row(record, true)];
    if i == |rows| {
      assert Attests(after[i], after[at]);
    } else if !IsUnattested(after[i].record) {
      assert HasOriginal(rows, i);
      var j :| 0 <= j < i && Attests(rows[i], rows[j]);
      assert Attests(after[i], after[j]);
    }
  }

  lemma HeirAfterAttest(rows: seq<Row>, at: nat, record: AuditRecord, i: nat)
    requires Supersedable(rows, at, record) && i <= |rows|
    ensures HasHeir(Superseded(rows, at) + [Row(record, true)], i)
  {
    var after := Superseded(rows, at) + [Row(record, true)];
    if i == at {
      assert Attests(after[|rows|], after[at]);
    } else if i < |rows| && !rows[i].isLatest {
      assert HasHeir(rows, i);
      var k :| i < k < |rows| && rows[k].isLatest && Attests(rows[k], rows[i]);
      assert Attests(after[k], after[i]);
    }
  }

  /** No id ever gets a second attestation. */
  lemma OneAttestationPerId(rows: seq<Row>, i: nat, k: nat)
    requires Versioned(Log(rows)) && i < k < |rows| && IdOf(rows[i]) == IdOf(rows[k])
    ensures rows[i].record[SupersedesHash].Null?
  {
    assert Attests(rows[k], rows[i]);
  }

  // -------------------------------------------------------------- sealing, record by record

  predicate IsSealField(f: Field) {
    f.RecordHash? || f.Signature? || f.KeyId?
  }

  /** Everything signing does not add is already in order. */
  ghost predicate Draft(env: Env, catalog: Catalog, r: AuditRecord) {
    match env
    case Env(c, _, _, _, _) =>
      && (forall f: Field {:trigger SettledAndUsable(c, f, r[f])} :: !IsSealField(f) ==> SettledAndUsable(c, f, r[f]))
      && Refined(c, r)
      && CheckDisclosure(c, r).ok
      && CheckCreativeHash(c, r, StoredHash(env, catalog, r)).ok
  }

  ghost predicate SameUnsealed(a: AuditRecord, b: AuditRecord) {
    forall f: Field {:trigger IsSealField(f)} :: !IsSealField(f) ==> a[f] == b[f]
  }

  lemma SealTouchesThree(r: AuditRecord, draft: AuditRecord, key_id: Value, hash: JsString, signature: JsString)
    requires r == WithSignature(draft[KeyId := key_id], hash, signature)
    ensures SameUnsealed(r, draft)
  {
  }

  lemma SignedUnsealed(env: Env, draft: AuditRecord, signing: SigningKey, r: AuditRecord)
    requires SignRecord(env, draft, signing) == Some(r)
    ensures SameUnsealed(r, draft)
  {
    SignedShape(env, draft, signing);
    var hash := Hashed(env, draft, signing).text;
    SealTouchesThree(r, draft, Str(signing.key_id), hash, env.crypto.sign(hash, signing.private_pem));
  }

  lemma SignedSeals(env: Env, draft: AuditRecord, signing: SigningKey, r: AuditRecord)
    requires SignRecord(env, draft, signing) == Some(r)
    ensures env.contract.accepts(KeyId, r[KeyId]) && r[KeyId] == Str(signing.key_id)
    ensures r[RecordHash] == Str(env.crypto.sha256(HashInput(env, Document(env.contract, draft[KeyId := Str(signing.key_id)])).text))
    ensures r[Signature] == Str(env.crypto.sign(TextOf(r[RecordHash]), signing.private_pem))
  {
    SignedShape(env, draft, signing);
  }

  lemma SealFieldFits(env: Env, r: AuditRecord, f: Field, hashed: JsString, pem: JsString)
    requires Sound(env) && IsSealField(f)
    requires env.contract.accepts(KeyId, r[KeyId]) && r[RecordHash] == Str(env.crypto.sha256(hashed))
    requires r[Signature] == Str(env.crypto.sign(TextOf(r[RecordHash]), pem))
    ensures SettledAndUsable(env.contract, f, r[f])
  {
    assert f.RecordHash? ==> IsHashField(f);
    AcceptedAsIs(env.contract, f, r[f]);
  }

  lemma RefinedCarries(c: Contract, r: AuditRecord, draft: AuditRecord)
    requires Refined(c, draft) && SameUnsealed(r, draft)
    ensures Refined(c, r)
  {
    assert !IsSealField(Decided) && !IsSealField(Creative) && !IsSealField(Reason);
  }

  lemma SignedValid(env: Env, catalog: Catalog, draft: AuditRecord, signing: SigningKey, r: AuditRecord)
    requires Sound(env) && Draft(env, catalog, draft) && SignRecord(env, draft, signing) == Some(r)
    ensures Valid(env.contract, r)
  {
    hide Refined, Valid, CheckDisclosure, CheckCreativeHash;
    var c := env.contract;
    SignedUnsealed(env, draft, signing, r);
    SignedSeals(env, draft, signing, r);
    forall f: Field ensures SettledAndUsable(c, f, r[f]) {
      if IsSealField(f) {
        SealFieldFits(env, r, f, HashInput(env, Document(c, draft[KeyId := Str(signing.key_id)])).text, signing.private_pem);
      } else {
        assert SettledAndUsable(c, f, draft[f]);
      }
    }
    RefinedCarries(c, r, draft);
    AllSettled(c, r);
  }

  lemma AllSettled(c: Contract, r: AuditRecord)
    requires Refined(c, r) && forall f: Field {:trigger SettledAndUsable(c, f, r[f])} :: SettledAndUsable(c, f, r[f])
    ensures Valid(c, r)
  {
    forall f: Field ensures Settled(c, f, r[f]) && Usable(c, f, r[f]) {
      assert SettledAndUsable(c, f, r[f]);
    }
  }

  lemma HashChecks(env: Env, draft: AuditRecord, signing: SigningKey, r: AuditRecord)
    requires Lawful(env.contract) && SignRecord(env, draft, signing) == Some(r)
    ensures CheckRecordHash(env, Document(env.contract, r), r).ok
  {
    SignedRecomputes(env, draft, signing);
  }

  lemma SignatureChecks(env: Env, ring: KeyRing, draft: AuditRecord, signing: SigningKey, r: AuditRecord)
    requires Ideal(env.crypto) && InRing(env, ring, signing) && SignRecord(env, draft, signing) == Some(r)
    ensures CheckSignature(env, r, ring).ok
  {
    SignedSeals(env, draft, signing, r);
  }

  lemma PartsCheck(env: Env, catalog: Catalog, r: AuditRecord, draft: AuditRecord)
    requires Draft(env, catalog, draft)
    requires r[DisclosureBlock] == draft[DisclosureBlock] && r[Creative] == draft[Creative]
    ensures CheckDisclosure(env.contract, r).ok
    ensures CheckCreativeHash(env.contract, r, StoredHash(env, catalog, r)).ok
  {
  }

  lemma SignedSealed(env: Env, catalog: Catalog, ring: KeyRing, draft: AuditRecord, signing: SigningKey, r: AuditRecord)
    requires Sound(env) && InRing(env, ring, signing) && Draft(env, catalog, draft)
    requires SignRecord(env, draft, signing) == Some(r)
    ensures Sealed(env, catalog, ring, r)
  {
    hide SignRecord, Draft;
    SignedUnsealed(env, draft, signing, r);
    assert !IsSealField(DisclosureBlock) && !IsSealField(Creative);
    PartsCheck(env, catalog, r, draft);
    SignedValid(env, catalog, draft, signing, r);
    HashChecks(env, draft, signing, r);
    SignatureChecks(env, ring, draft, signing, r);
  }
}
