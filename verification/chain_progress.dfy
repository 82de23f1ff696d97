/**
 What a step of the log does, not only what it keeps: signing succeeds on every record the schema
 fits, an attestation is refused for its exact reasons only, and each step inserts exactly one row
 unless the row is known already.
 */
module ChainProgress {
  import opened Options
  import opened Utf16
  import opened CanonicalJson
  import opened AuditRecords
  import opened Chain
  import opened Verify
  import opened RecordBuilder
  import opened ChainStore
  import opened ChainRuns
  import opened ChainSteps
  import opened ChainVerdicts

  // ------------------------------------------------------------------------------------ signing

  /** Everything that is hashed is JSON. */
  ghost predicate HashedFieldsAccepted(r: AuditRecord) {
    forall f: Field {:trigger r[f]} :: !IsSealField(f) ==> Accepts(r[f])
  }

  lemma UnsignedAccepted(c: Contract, r: AuditRecord)
    requires HashedFieldsAccepted(r) && Accepts(r[KeyId])
    ensures Accepts(Unsigned(c, Document(c, r)))
  {
    hide Lawful, WithoutSignature;
    var m := Document(c, r).members;
    KeptMembers(c, m);
    var kept := WithoutSignature(c, m);
    forall i | 0 <= i < |kept| ensures Accepts(kept[i].value) {
      assert kept[i] in kept && kept[i] in m;
      var k :| 0 <= k < |m| && m[k] == kept[i];
      assert m[k] == FieldMember(c, r, FieldAt(k));
    }
  }

  /** signRecord fails for its key alone. */
  lemma SigningDecided(env: Env, r: AuditRecord, signing: SigningKey)
    requires Sound(env) && HashedFieldsAccepted(r)
    ensures SignRecord(env, r, signing).Some? <==>
            env.contract.accepts(KeyId, Str(signing.key_id)) && env.crypto.usable(signing.private_pem)
  {
    hide Document, Unsigned, Lawful, HashedFieldsAccepted, Accepts;
    var unsigned := r[KeyId := Str(signing.key_id)];
    KeyedAccepted(r, Str(signing.key_id));
    UnsignedAccepted(env.contract, unsigned);
  }

  lemma KeyedAccepted(r: AuditRecord, key: Value)
    requires HashedFieldsAccepted(r) && key.Str?
    ensures HashedFieldsAccepted(r[KeyId := key]) && Accepts(r[KeyId := key][KeyId])
  {
  }

  lemma FittingIsAccepted(c: Contract, r: AuditRecord)
    requires AllFit(c, r)
    ensures HashedFieldsAccepted(r)
  {
    forall f: Field {:trigger r[f]} | !IsSealField(f) ensures Accepts(r[f]) {
      assert SettledAndUsable(c, f, r[f]);
    }
  }

  /** What a signed record carries besides the fields of `draft`. */
  ghost predicate SealedBy(env: Env, r: AuditRecord, draft: AuditRecord, signing: SigningKey) {
    && (forall f: Field {:trigger r[f]} :: !f.KeyId? && !f.RecordHash? && !f.Signature? ==> r[f] == draft[f])
    && r[KeyId] == Str(signing.key_id) && r[RecordHash].Str?
    && ComputeRecordHash(env, Document(env.contract, r)) == Text(r[RecordHash].s)
    && r[Signature] == Str(env.crypto.sign(r[RecordHash].s, signing.private_pem))
  }

  lemma SignedIsSealed(env: Env, draft: AuditRecord, signing: SigningKey)
    requires Lawful(env.contract) && SignRecord(env, draft, signing).Some?
    ensures SealedBy(env, SignRecord(env, draft, signing).value, draft, signing)
  {
    hide Document, SignRecord, ComputeRecordHash, Lawful;
    SignedRecomputes(env, draft, signing);
  }

  // ---------------------------------------------------------------------------------- attesting

  /** Attestation has left a trace in one of its four fields. */
  predicate Touched(r: AuditRecord) {
    r[SeparationAttestation] != Bool(false) || r[ModelOutputHash] != Null || r[AttestedAt] != Null || r[SupersedesHash] != Null
  }

  /** The attestation of `original`: five fields set, the seal renewed, everything else as it was. */
  ghost predicate AttestationOf(env: Env, r: AuditRecord, original: AuditRecord, output: JsString, now: JsString, prev: JsString,
                                signing: SigningKey) {
    && r[ModelOutputHash] == Str(output) && r[SeparationAttestation] == Bool(true) && r[AttestedAt] == Str(now)
    && r[SupersedesHash] == original[RecordHash] && r[PrevHash] == Str(prev)
    && (forall f: Field {:trigger IsAttestationField(f)} :: !IsAttestationField(f) ==> r[f] == original[f])
    && r[KeyId] == Str(signing.key_id) && r[RecordHash].Str?
    && ComputeRecordHash(env, Document(env.contract, r)) == Text(r[RecordHash].s)
    && r[Signature] == Str(env.crypto.sign(r[RecordHash].s, signing.private_pem))
  }

  lemma SealedCopy(env: Env, r: AuditRecord, original: AuditRecord, output: JsString, now: JsString, prev: JsString, signing: SigningKey)
    requires SealedBy(env, r, AttestedCopy(original, output, now, prev), signing)
    ensures AttestationOf(env, r, original, output, now, prev, signing)
  {
    hide AttestedCopy;
    var copy := AttestedCopy(original, output, now, prev);
    AttestedCopyIsCopy(original, output, now, prev);
    forall f: Field | !IsAttestationField(f) ensures r[f] == original[f] {
      assert r[f] == copy[f];
    }
  }

  lemma CopyAccepted(env: Env, original: AuditRecord, output: JsString, now: JsString, prev: JsString)
    requires Sound(env) && Valid(env.contract, original)
    requires env.contract.accepts(ModelOutputHash, Str(output)) && env.contract.accepts(AttestedAt, Str(now))
    requires env.contract.accepts(PrevHash, Str(prev))
    ensures HashedFieldsAccepted(AttestedCopy(original, output, now, prev))
  {
    hide AttestedCopy, Valid, Sound, AllFit, HashedFieldsAccepted, IsCopy;
    var copy := AttestedCopy(original, output, now, prev);
    AttestedCopyIsCopy(original, output, now, prev);
    CopyFits(env, copy, original, Str(output), Str(now), Str(prev));
    FittingIsAccepted(env.contract, copy);
  }

  /** What `attest` asks for besides an untouched record and a key. */
  predicate WellPut(c: Contract, output: JsString, now: JsString, prev: JsString) {
    && c.accepts(ModelOutputHash, Str(output)) && c.accepts(AttestedAt, Str(now))
    && c.accepts(PrevHash, Str(prev)) && prev != c.word(Genesis)
  }

  predicate KeyWorks(env: Env, signing: SigningKey) {
    env.contract.accepts(KeyId, Str(signing.key_id)) && env.crypto.usable(signing.private_pem)
  }

  /** An attestation succeeds exactly when nothing it asks for is missing, and then it is one. */
  lemma AttestSucceeds(env: Env, raw: Value, output: JsString, now: JsString, prev: JsString, signing: SigningKey)
    requires Sound(env)
    ensures var (c, outcome) := (env.contract, Attest(env, raw, output, now, prev, signing));
            && (outcome.Attested? <==>
                  Parse(c, raw).Some? && !Touched(Parse(c, raw).value) && WellPut(c, output, now, prev) && KeyWorks(env, signing))
            && (outcome.Attested? ==> AttestationOf(env, outcome.record, Parse(c, raw).value, output, now, prev, signing))
  {
    hide Parse, Valid, AttestationOf, SealedBy, SignRecord, AttestedCopy, HashedFieldsAccepted, Lawful;
    var (c, parsed) := (env.contract, Parse(env.contract, raw));
    if parsed.Some? && WellPut(c, output, now, prev) {
      ParsedIsValid(c, raw);
      var copy := AttestedCopy(parsed.value, output, now, prev);
      CopyAccepted(env, parsed.value, output, now, prev);
      SigningDecided(env, copy, signing);
      if SignRecord(env, copy, signing).Some? {
        SignedIsSealed(env, copy, signing);
        SealedCopy(env, SignRecord(env, copy, signing).value, parsed.value, output, now, prev, signing);
      }
    }
  }

  /** Each refusal has its own reason: the first thing that is missing, in the order they are looked at. */
  lemma RefusalsDecided(env: Env, raw: Value, output: JsString, now: JsString, prev: JsString, signing: SigningKey)
    requires Sound(env)
    ensures var (c, parsed, outcome) := (env.contract, Parse(env.contract, raw), Attest(env, raw, output, now, prev, signing));
            && (outcome == Refused(InvalidRecord) <==> parsed.None?)
            && (outcome == Refused(AlreadyAttested) <==> parsed.Some? && Touched(parsed.value))
            && (outcome == Refused(InvalidModelOutputHash) <==>
                  parsed.Some? && !Touched(parsed.value) && !c.accepts(ModelOutputHash, Str(output)))
            && (outcome == Refused(InvalidAttestedAt) <==>
                  && parsed.Some? && !Touched(parsed.value) && c.accepts(ModelOutputHash, Str(output))
                  && !c.accepts(AttestedAt, Str(now)))
            && (outcome == Refused(InvalidPrevHash) <==>
                  && parsed.Some? && !Touched(parsed.value) && c.accepts(ModelOutputHash, Str(output))
                  && c.accepts(AttestedAt, Str(now)) && (!c.accepts(PrevHash, Str(prev)) || prev == c.word(Genesis)))
            && (outcome == KeyError <==>
                  parsed.Some? && !Touched(parsed.value) && WellPut(c, output, now, prev) && !KeyWorks(env, signing))
  {
    hide Parse, SignRecord, AttestedCopy, Sound, AttestationOf;
    AttestSucceeds(env, raw, output, now, prev, signing);
  }

  // -------------------------------------------------------------------------------------- steps

  /** An id has one latest row in a log whose versions are in order. */
  lemma OnlyLatest(rows: seq<Row>, at: nat, id: JsString)
    requires Versioned(Log(rows)) && at < |rows| && rows[at].isLatest && IdOf(rows[at]) == Str(id)
    ensures FindLatest(rows, Str(id)) == Some(at)
  {
    hide HasOriginal, HasHeir;
    var found := FindLatest(rows, Str(id)).value;
    if found < at {
      TwoVersions(rows, found, at);
    } else if at < found {
      TwoVersions(rows, at, found);
    }
  }

  /** The hash a next record names: that of the last row, which is never the genesis word. */
  lemma LastHash(env: Env, catalog: Catalog, ring: KeyRing, app: Value, rows: seq<Row>)
    requires Sound(env) && Intact(env, catalog, ring, app, Log(rows)) && rows != []
    ensures var prev := TextOf(HashOf(rows[|rows| - 1]));
            && NextPrevHash(env.contract, LatestRecord(rows)) == Str(prev) == HashOf(rows[|rows| - 1])
            && env.contract.accepts(PrevHash, Str(prev)) && prev != env.contract.word(Genesis)
  {
    hide LinkedAt, Versioned, Sealed;
    RowSealed(env, catalog, ring, app, rows, |rows| - 1);
    HashIsHash(env.contract, rows[|rows| - 1].record);
    NextLinkAccepted(env, catalog, ring, app, rows);
  }

  predicate HashKnown(rows: seq<Row>, r: AuditRecord) {
    exists i :: 0 <= i < |rows| && HashOf(rows[i]) == r[RecordHash]
  }

  lemma HashLookedUp(rows: seq<Row>, r: AuditRecord)
    ensures FindByHash(rows, r[RecordHash]).Some? <==> HashKnown(rows, r)
  {
  }

  /**
   Attesting the latest version of an id, untouched so far, with well-put values and a key that works:
   exactly one row comes in, its attestation, and the attested row stops being the latest; unless a
   row with that very hash is there already.
   */
  lemma LatestIsAttested(env: Env, catalog: Catalog, ring: KeyRing, app: Value, rows: seq<Row>, at: nat,
                         id: JsString, output: JsString, now: JsString, signing: SigningKey) returns (r: AuditRecord)
    requires Sound(env) && Intact(env, catalog, ring, app, Log(rows)) && KeyWorks(env, signing)
    requires at < |rows| && rows[at].isLatest && IdOf(rows[at]) == Str(id) && !Touched(rows[at].record)
    requires env.contract.accepts(ModelOutputHash, Str(output)) && env.contract.accepts(AttestedAt, Str(now))
    ensures AttestationOf(env, r, rows[at].record, output, now, TextOf(HashOf(rows[|rows| - 1])), signing)
    ensures AttestStep(env, rows, id, output, now, signing)
         == if HashKnown(rows, r) then rows else rows[at := Row(rows[at].record, false)] + [Row(r, true)]
  {
    hide Sound, LinkedAt, Versioned, Sealed, Valid, Parse, Document, AttestationOf, FindByHash, FindLatest,
      HashKnown, SignRecord, AttestedCopy, IdOf;
    var (c, current, prev) := (env.contract, rows[at].record, TextOf(HashOf(rows[|rows| - 1])));
    OnlyLatest(rows, at, id);
    LastHash(env, catalog, ring, app, rows);
    RowSealed(env, catalog, ring, app, rows, at);
    SoundIsLawful(env);
    ParseDocument(c, current);
    AttestSucceeds(env, Document(c, current), output, now, prev, signing);
    r := Attest(env, Document(c, current), output, now, prev, signing).record;
    HashLookedUp(rows, r);
    assert rows[at].(isLatest := false) == Row(current, false);
  }

  /** And it is the only way a row comes in by attesting. */
  lemma OtherwiseUnchanged(env: Env, catalog: Catalog, ring: KeyRing, app: Value, rows: seq<Row>,
                           id: JsString, output: JsString, now: JsString, signing: SigningKey)
    requires Sound(env) && Intact(env, catalog, ring, app, Log(rows))
    requires || !KeyWorks(env, signing) || !env.contract.accepts(ModelOutputHash, Str(output))
             || !env.contract.accepts(AttestedAt, Str(now))
             || (forall at :: 0 <= at < |rows| && rows[at].isLatest && IdOf(rows[at]) == Str(id) ==> Touched(rows[at].record))
    ensures AttestStep(env, rows, id, output, now, signing) == rows
  {
    hide Sound, Intact, Valid, Document, AttestationOf, FindByHash, SignRecord, AttestedCopy, Parse;
    var found := FindLatest(rows, Str(id));
    if found.Some? {
      var (c, current) := (env.contract, rows[found.value].record);
      var prev := TextOf(NextPrevHash(c, LatestRecord(rows)));
      AttestSucceeds(env, Document(c, current), output, now, prev, signing);
      RowParses(env, catalog, ring, app, rows, found.value);
    }
  }

  lemma RowParses(env: Env, catalog: Catalog, ring: KeyRing, app: Value, rows: seq<Row>, i: nat)
    requires Sound(env) && Intact(env, catalog, ring, app, Log(rows)) && i < |rows|
    ensures Parse(env.contract, Document(env.contract, rows[i].record)) == Some(rows[i].record)
  {
    hide LinkedAt, Versioned, Sealed, Valid, Parse, Document;
    RowSealed(env, catalog, ring, app, rows, i);
    ParseDocument(env.contract, rows[i].record);
  }

  /** What is built from an input, chained to the last row. */
  function Drafted(env: Env, rows: seq<Row>, input: Input): AuditRecord {
    BuildAuditBody(env, input)[PrevHash := if rows == [] then Said(env.contract, Genesis) else HashOf(rows[|rows| - 1])]
  }

  /** A good input and a key that works: exactly one row comes in, unless its hash or a version of its id is there. */
  lemma InputIsAppended(env: Env, catalog: Catalog, ring: KeyRing, app: Value, rows: seq<Row>, input: Input, signing: SigningKey)
    returns (r: AuditRecord)
    requires Sound(env) && Intact(env, catalog, ring, app, Log(rows)) && KeyWorks(env, signing) && GoodInput(env, catalog, app, input)
    ensures SealedBy(env, r, Drafted(env, rows, input), signing)
    ensures AppendStep(env, rows, input, signing)
         == if HashKnown(rows, r) || (exists i :: 0 <= i < |rows| && rows[i].isLatest && IdOf(rows[i]) == Str(input.id)) then rows
            else rows + [Row(r, true)]
  {
    hide Sound, Intact, GoodInput, SealedBy, HashKnown, FindByHash, SignRecord, BuildAuditBody,
      HashedFieldsAccepted, Lawful, FindLatest;
    SoundIsLawful(env);
    var draft := Drafted(env, rows, input);
    NextLinkAccepted(env, catalog, ring, app, rows);
    InputAccepted(env, catalog, app, input, draft[PrevHash]);
    SigningDecided(env, draft, signing);
    SignedIsSealed(env, draft, signing);
    r := SignRecord(env, draft, signing).value;
    HashLookedUp(rows, r);
    AppendedId(env, input, draft, r, signing);
  }

  lemma AppendedId(env: Env, input: Input, draft: AuditRecord, r: AuditRecord, signing: SigningKey)
    requires SealedBy(env, r, draft, signing) && draft == BuildAuditBody(env, input)[PrevHash := draft[PrevHash]]
    ensures r[Id] == Str(input.id)
  {
    assert r[Id] == draft[Id];
  }

  lemma InputAccepted(env: Env, catalog: Catalog, app: Value, input: Input, prev: Value)
    requires Sound(env) && GoodInput(env, catalog, app, input) && env.contract.accepts(PrevHash, prev)
    ensures HashedFieldsAccepted(BuildAuditBody(env, input)[PrevHash := prev])
  {
    hide Sound, GoodInput, BuildAuditBody, GoodBody, IsUnattested, HashedFieldsAccepted, AllFit;
    var body := BuildAuditBody(env, input);
    InputIsNewBody(env, catalog, app, input);
    FreshFrom(body, app, prev);
    BodyFieldsFit(env, catalog, body);
    FreshFits(env, app, body[PrevHash := prev], body, prev);
    FittingIsAccepted(env.contract, body[PrevHash := prev]);
  }

  lemma BodyFieldsFit(env: Env, catalog: Catalog, body: AuditRecord)
    requires GoodBody(env, catalog, body)
    ensures forall f: Field {:trigger IsAttestationField(f)} :: !IsAttestationField(f) ==> SettledAndUsable(env.contract, f, body[f])
  {
  }

  /**
   Attesting settles what appending left open: a serve nobody attested yet fails exactly
   `separation_attested`, and once it is attested it passes all eight checks, and so does its attestation.
   */
  lemma AttestingSettles(env: Env, catalog: Catalog, ring: KeyRing, app: Value, rows: seq<Row>, at: nat,
                         id: JsString, output: JsString, now: JsString, signing: SigningKey)
    requires Sound(env) && Intact(env, catalog, ring, app, Log(rows)) && KeyWorks(env, signing) && InRing(env, ring, signing)
    requires at < |rows| && rows[at].isLatest && IdOf(rows[at]) == Str(id) && !Touched(rows[at].record)
    requires rows[at].record[Decided] == Said(env.contract, Serve)
    requires env.contract.accepts(ModelOutputHash, Str(output)) && env.contract.accepts(AttestedAt, Str(now))
    ensures FailsOnlySeparation(VerifyRow(env, catalog, ring, rows, at), true)
    ensures var after := AttestStep(env, rows, id, output, now, signing);
            after != rows ==>
              && |after| == |rows| + 1
              && VerifyRow(env, catalog, ring, after, at).valid && VerifyRow(env, catalog, ring, after, |rows|).valid
  {
    hide Sound, Intact, FailsOnlySeparation, VerifyRow, AttestStep, AttestationOf, HashKnown, IdOf, KeyWorks;
    SoundIsLawful(env);
    EveryRowVerifies(env, catalog, ring, app, rows, at);
    var r := LatestIsAttested(env, catalog, ring, app, rows, at, id, output, now, signing);
    var after := AttestStep(env, rows, id, output, now, signing);
    if after != rows {
      AttestKeeps(env, catalog, ring, app, rows, id, output, now, signing);
      EveryRowVerifies(env, catalog, ring, app, after, at);
      EveryRowVerifies(env, catalog, ring, app, after, |rows|);
      AttestedIsTouched(env, r, rows[at].record, output, now, TextOf(HashOf(rows[|rows| - 1])), signing);
      AllEight(VerifyRow(env, catalog, ring, after, at));
      AllEight(VerifyRow(env, catalog, ring, after, |rows|));
    }
  }

  lemma AttestedIsTouched(env: Env, r: AuditRecord, original: AuditRecord, output: JsString, now: JsString, prev: JsString,
                          signing: SigningKey)
    requires AttestationOf(env, r, original, output, now, prev, signing)
    ensures !IsUnattested(r)
  {
  }

  lemma AllEight(response: Response)
    requires FailsOnlySeparation(response, false)
    ensures response.valid
  {
  }
}
