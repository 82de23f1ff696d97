/**
 Each step of the log keeps it intact, so every run does.
 */
module ChainSteps {
  import opened Options
  import opened Utf16
  import opened CanonicalJson
  import opened AuditRecords
  import opened Chain
  import opened Verify
  import opened RecordBuilder
  import opened ChainStore
  import opened ChainRuns

  // ------------------------------------------------------------------------------------ drafts

  lemma ChainFieldFits(env: Env, r: AuditRecord, f: Field)
    requires Sound(env) && IsAttestationField(f) && !IsSealField(f)
    requires f.SeparationAttestation? ==> r[f].Bool?
    requires f.PrevHash? ==> env.contract.accepts(f, r[f])
    requires IsNullableField(f) ==> r[f] == Null || env.contract.accepts(f, r[f])
    ensures SettledAndUsable(env.contract, f, r[f])
  {
    AcceptedAsIs(env.contract, f, r[f]);
  }

  /** A fresh body hung behind `prev`: unattested, about this app, otherwise as built. */
  ghost predicate IsFresh(draft: AuditRecord, body: AuditRecord, app: Value, prev: Value) {
    && draft[PrevHash] == prev && draft[AppId] == app && IsUnattested(draft)
    && (forall f: Field {:trigger IsAttestationField(f)} :: !IsAttestationField(f) ==> draft[f] == body[f])
  }

  lemma FreshFrom(body: AuditRecord, app: Value, prev: Value)
    requires body[AppId] == app && IsUnattested(body)
    ensures IsFresh(body[PrevHash := prev], body, app, prev)
  {
  }

  /** GoodInput, said of the body alone. */
  ghost predicate GoodBody(env: Env, catalog: Catalog, body: AuditRecord) {
    && (forall f: Field {:trigger IsAttestationField(f)} :: !IsAttestationField(f) ==> SettledAndUsable(env.contract, f, body[f]))
    && Refined(env.contract, body)
    && CheckDisclosure(env.contract, body).ok
    && CheckCreativeHash(env.contract, body, StoredHash(env, catalog, body)).ok
  }

  lemma FreshFits(env: Env, app: Value, draft: AuditRecord, body: AuditRecord, prev: Value)
    requires Sound(env) && IsFresh(draft, body, app, prev) && env.contract.accepts(PrevHash, prev)
    requires forall f: Field {:trigger IsAttestationField(f)} :: !IsAttestationField(f) ==> SettledAndUsable(env.contract, f, body[f])
    ensures AllFit(env.contract, draft)
  {
    forall f: Field | !IsSealField(f) ensures SettledAndUsable(env.contract, f, draft[f]) {
      if IsAttestationField(f) {
        ChainFieldFits(env, draft, f);
      }
    }
  }

  lemma FreshBodyFields(draft: AuditRecord, body: AuditRecord, app: Value, prev: Value)
    requires IsFresh(draft, body, app, prev)
    ensures draft[Decided] == body[Decided] && draft[Creative] == body[Creative] && draft[Reason] == body[Reason]
    ensures draft[DisclosureBlock] == body[DisclosureBlock]
  {
    assert !IsAttestationField(Decided) && !IsAttestationField(Creative);
    assert !IsAttestationField(Reason) && !IsAttestationField(DisclosureBlock);
  }

  lemma FreshDraft(env: Env, catalog: Catalog, app: Value, draft: AuditRecord, body: AuditRecord, prev: Value)
    requires Sound(env) && IsFresh(draft, body, app, prev) && env.contract.accepts(PrevHash, prev)
    requires GoodBody(env, catalog, body)
    ensures Draft(env, catalog, draft)
  {
    FreshFits(env, app, draft, body, prev);
    FreshBodyFields(draft, body, app, prev);
    DraftFrom(env, catalog, draft, body);
  }

  /** The checks that only look at the body come out the same for the same body. */
  lemma KeepsBody(env: Env, catalog: Catalog, r: AuditRecord, s: AuditRecord)
    requires r[Decided] == s[Decided] && r[Creative] == s[Creative] && r[Reason] == s[Reason]
    requires r[DisclosureBlock] == s[DisclosureBlock]
    ensures Refined(env.contract, r) == Refined(env.contract, s)
    ensures CheckDisclosure(env.contract, r) == CheckDisclosure(env.contract, s)
    ensures CheckCreativeHash(env.contract, r, StoredHash(env, catalog, r))
         == CheckCreativeHash(env.contract, s, StoredHash(env, catalog, s))
  {
  }

  ghost predicate AllFit(c: Contract, r: AuditRecord) {
    forall f: Field {:trigger SettledAndUsable(c, f, r[f])} :: !IsSealField(f) ==> SettledAndUsable(c, f, r[f])
  }

  lemma DraftFrom(env: Env, catalog: Catalog, r: AuditRecord, s: AuditRecord)
    requires AllFit(env.contract, r) && Refined(env.contract, s) && CheckDisclosure(env.contract, s).ok
    requires CheckCreativeHash(env.contract, s, StoredHash(env, catalog, s)).ok
    requires r[Decided] == s[Decided] && r[Creative] == s[Creative] && r[Reason] == s[Reason]
    requires r[DisclosureBlock] == s[DisclosureBlock]
    ensures Draft(env, catalog, r)
  {
    KeepsBody(env, catalog, r, s);
  }

  /** `copy` is `original` with the attestation fields set, hung behind `prev`. */
  ghost predicate IsCopy(copy: AuditRecord, original: AuditRecord, output: Value, now: Value, prev: Value) {
    && copy[ModelOutputHash] == output && copy[SeparationAttestation] == Bool(true) && copy[AttestedAt] == now
    && copy[SupersedesHash] == original[RecordHash] && copy[PrevHash] == prev
    && (forall f: Field {:trigger IsAttestationField(f)} :: !IsAttestationField(f) ==> copy[f] == original[f])
  }

  lemma AttestedCopyIsCopy(original: AuditRecord, output: JsString, now: JsString, prev: JsString)
    ensures IsCopy(AttestedCopy(original, output, now, prev), original, Str(output), Str(now), Str(prev))
  {
  }

  lemma CopyDraft(env: Env, catalog: Catalog, ring: KeyRing, copy: AuditRecord, original: AuditRecord,
                  output: Value, now: Value, prev: Value)
    requires Sound(env) && Sealed(env, catalog, ring, original) && IsCopy(copy, original, output, now, prev)
    requires env.contract.accepts(ModelOutputHash, output) && env.contract.accepts(AttestedAt, now)
    requires env.contract.accepts(PrevHash, prev)
    ensures Draft(env, catalog, copy)
  {
    hide Sealed, Valid, Sound, Draft, IsCopy, AllFit;
    SealedParts(env, catalog, ring, original);
    CopyFits(env, copy, original, output, now, prev);
    CopyBodyFields(copy, original, output, now, prev);
    DraftFrom(env, catalog, copy, original);
  }

  lemma CopyBodyFields(copy: AuditRecord, original: AuditRecord, output: Value, now: Value, prev: Value)
    requires IsCopy(copy, original, output, now, prev)
    ensures copy[Decided] == original[Decided] && copy[Creative] == original[Creative] && copy[Reason] == original[Reason]
    ensures copy[DisclosureBlock] == original[DisclosureBlock]
  {
    assert !IsAttestationField(Decided) && !IsAttestationField(Creative);
    assert !IsAttestationField(Reason) && !IsAttestationField(DisclosureBlock);
  }

  lemma CopyFits(env: Env, copy: AuditRecord, original: AuditRecord, output: Value, now: Value, prev: Value)
    requires Sound(env) && Valid(env.contract, original) && IsCopy(copy, original, output, now, prev)
    requires env.contract.accepts(ModelOutputHash, output) && env.contract.accepts(AttestedAt, now)
    requires env.contract.accepts(PrevHash, prev)
    ensures AllFit(env.contract, copy)
  {
    HashIsHash(env.contract, original);
    assert IsHashField(SupersedesHash);
    forall f: Field | !IsSealField(f) ensures SettledAndUsable(env.contract, f, copy[f]) {
      CopyFieldFits(env, copy, original, output, now, prev, f);
    }
  }

  lemma CopyFieldFits(env: Env, copy: AuditRecord, original: AuditRecord, output: Value, now: Value, prev: Value, f: Field)
    requires Sound(env) && Valid(env.contract, original) && IsCopy(copy, original, output, now, prev)
    requires env.contract.accepts(ModelOutputHash, output) && env.contract.accepts(AttestedAt, now)
    requires env.contract.accepts(PrevHash, prev) && env.contract.accepts(SupersedesHash, original[RecordHash])
    requires !IsSealField(f)
    ensures SettledAndUsable(env.contract, f, copy[f])
  {
    hide Valid, SettledAndUsable, Sound;
    if IsAttestationField(f) {
      ChainFieldFits(env, copy, f);
    } else {
      ValidField(env.contract, original, f);
    }
  }

  lemma ValidField(c: Contract, r: AuditRecord, f: Field)
    requires Valid(c, r)
    ensures SettledAndUsable(c, f, r[f])
  {
    assert Settled(c, f, r[f]) && Usable(c, f, r[f]);
  }

  lemma SealedParts(env: Env, catalog: Catalog, ring: KeyRing, r: AuditRecord)
    requires Sealed(env, catalog, ring, r)
    ensures Valid(env.contract, r) && Refined(env.contract, r) && CheckDisclosure(env.contract, r).ok
    ensures CheckCreativeHash(env.contract, r, StoredHash(env, catalog, r)).ok
  {
  }

  // ------------------------------------------------------------------------------------- steps

  lemma NextLinkAccepted(env: Env, catalog: Catalog, ring: KeyRing, app: Value, rows: seq<Row>)
    requires Sound(env) && Intact(env, catalog, ring, app, Log(rows))
    ensures env.contract.accepts(PrevHash, NextPrevHash(env.contract, LatestRecord(rows)))
  {
    if rows != [] {
      var last := rows[|rows| - 1].record;
      assert Sealed(env, catalog, ring, last);
      HashIsHash(env.contract, last);
      assert IsHashField(PrevHash);
    }
  }

  lemma HashIsHash(c: Contract, r: AuditRecord)
    requires Valid(c, r)
    ensures IsHashText(c, r[RecordHash])
  {
    assert Usable(c, RecordHash, r[RecordHash]);
  }

  lemma SameRecordsLinked(c: Contract, app: Value, rows: seq<Row>, after: seq<Row>, i: nat)
    requires i < |rows| <= |after| && forall k :: 0 <= k < |rows| ==> after[k].record == rows[k].record
    requires LinkedAt(c, app, rows, i)
    ensures LinkedAt(c, app, after, i)
  {
  }

  /** A sealed, linked row behind an intact log leaves it intact once the versions are in order. */
  lemma IntactExtends(env: Env, catalog: Catalog, ring: KeyRing, app: Value, rows: seq<Row>, after: seq<Row>)
    requires Intact(env, catalog, ring, app, Log(rows)) && Versioned(Log(after))
    requires |after| == |rows| + 1 && forall i :: 0 <= i < |rows| ==> after[i].record == rows[i].record
    requires Sealed(env, catalog, ring, after[|rows|].record) && LinkedAt(env.contract, app, after, |rows|)
    ensures Intact(env, catalog, ring, app, Log(after))
  {
    hide Sealed, LinkedAt, Versioned;
    forall i | 0 <= i < |after| ensures Sealed(env, catalog, ring, after[i].record) {
      assert i < |rows| ==> Sealed(env, catalog, ring, rows[i].record);
    }
    forall i | 0 <= i < |after| ensures LinkedAt(env.contract, app, after, i) {
      if i < |rows| {
        assert LinkedAt(env.contract, app, rows, i);
        SameRecordsLinked(env.contract, app, rows, after, i);
      }
    }
  }

  /** A body the contract accepts, new and about this app. */
  ghost predicate NewBody(env: Env, catalog: Catalog, app: Value, body: AuditRecord) {
    GoodBody(env, catalog, body) && body[AppId] == app && IsUnattested(body)
  }

  /** The disclosure check passes on what is built from a policy whose label is not blank. */
  lemma DisclosurePasses(env: Env, input: Input)
    requires SettledAndUsable(env.contract, DisclosureBlock, BuildAuditBody(env, input)[DisclosureBlock])
    requires !AllBlank(input.disclosure.labelText)
    ensures CheckDisclosure(env.contract, BuildAuditBody(env, input)).ok
  {
    var c := env.contract;
    var d := DisclosureValue(c, input.disclosure);
    assert BuildAuditBody(env, input)[DisclosureBlock] == d;
    assert d.members[0] == Member(c.word(LabelKey), Str(input.disclosure.labelText));
    assert Prop(c, d, LabelKey) == Str(input.disclosure.labelText);
  }

  /** The creative check passes on what is built from a candidate the catalog holds as selected. */
  lemma CreativePasses(env: Env, catalog: Catalog, input: Input)
    requires Sound(env) && StoredAsSelected(env.contract, catalog, input)
    ensures var body := BuildAuditBody(env, input);
            CheckCreativeHash(env.contract, body, StoredHash(env, catalog, body)).ok
  {
    hide CreativeValue, Prop, BuildAuditBody, Lawful;
    var (c, body) := (env.contract, BuildAuditBody(env, input));
    var outcome := Decide(c, input.policyResult, input.mediation);
    BodyDecided(env, input);
    if outcome.Served? {
      BuiltCreative(env, input);
      CreativeReads(env, outcome.candidate);
      ContentHashed(env, outcome.candidate.content);
    }
  }

  lemma CreativeReads(env: Env, candidate: Candidate)
    requires KeysApart(env.contract)
    ensures Prop(env.contract, CreativeValue(env, candidate), CreativeIdKey) == Str(candidate.id)
    ensures Prop(env.contract, CreativeValue(env, candidate), ContentHashKey) == Str(ContentHash(env, candidate.content))
  {
    var m := CreativeValue(env, candidate).members;
    var key := env.contract.word(ContentHashKey);
    assert m[1..][0] == m[1] && m[1..][1..] == m[2..];
    assert m[2..][0] == m[2] && m[2..][1..] == m[3..] && m[3..][0] == m[3];
    assert Lookup(m[3..], key) == m[3].value;
    assert Lookup(m[2..], key) == Lookup(m[3..], key);
    assert Lookup(m[1..], key) == Lookup(m[2..], key);
  }

  lemma BodyNamesApp(env: Env, input: Input)
    ensures BuildAuditBody(env, input)[AppId] == Str(input.app_id)
  {
  }

  lemma InputIsNewBody(env: Env, catalog: Catalog, app: Value, input: Input)
    requires Sound(env) && GoodInput(env, catalog, app, input)
    ensures NewBody(env, catalog, app, BuildAuditBody(env, input))
  {
    hide IsUnattested, SettledAndUsable, Refined, CheckDisclosure, CheckCreativeHash, AllBlank, BodyValue,
      StoredHash;
    ServesOnlyWhenBothAgree(env, input);
    BodyUnattested(env, input);
    BodyNamesApp(env, input);
    assert !IsAttestationField(DisclosureBlock);
    DisclosurePasses(env, input);
    CreativePasses(env, catalog, input);
  }

  /** The record an append inserts, when it inserts one. */
  lemma Appended(env: Env, catalog: Catalog, ring: KeyRing, app: Value, body: AuditRecord, prev: Value, signing: SigningKey, r: AuditRecord)
    requires Sound(env) && env.contract.accepts(PrevHash, prev)
    requires InRing(env, ring, signing) && NewBody(env, catalog, app, body)
    requires SignRecord(env, body[PrevHash := prev], signing) == Some(r)
    ensures Sealed(env, catalog, ring, r) && r[PrevHash] == prev && r[AppId] == app && IsUnattested(r)
  {
    hide GoodBody, SignRecord, Draft, Sealed, SameUnsealed;
    var draft := body[PrevHash := prev];
    FreshFrom(body, app, prev);
    FreshDraft(env, catalog, app, draft, body, prev);
    SignedSealed(env, catalog, ring, draft, signing, r);
    SignedUnsealed(env, draft, signing, r);
    FreshLink(draft, body, app, prev, r);
  }

  lemma FreshLink(draft: AuditRecord, body: AuditRecord, app: Value, prev: Value, r: AuditRecord)
    requires IsFresh(draft, body, app, prev) && SameUnsealed(r, draft)
    ensures r[PrevHash] == prev && r[AppId] == app && IsUnattested(r)
  {
    assert !IsSealField(PrevHash) && !IsSealField(AppId) && !IsSealField(SeparationAttestation);
    assert !IsSealField(ModelOutputHash) && !IsSealField(AttestedAt) && !IsSealField(SupersedesHash);
  }

  ghost predicate Follows(env: Env, catalog: Catalog, ring: KeyRing, app: Value, rows: seq<Row>, r: AuditRecord) {
    match env
    case Env(c, _, _, _, _) =>
      Sealed(env, catalog, ring, r) && r[PrevHash] == NextPrevHash(c, LatestRecord(rows)) && r[AppId] == app
  }

  lemma FollowsExtends(env: Env, catalog: Catalog, ring: KeyRing, app: Value, rows: seq<Row>, after: seq<Row>, r: AuditRecord)
    requires Intact(env, catalog, ring, app, Log(rows)) && Versioned(Log(after))
    requires |after| == |rows| + 1 && forall i :: 0 <= i < |rows| ==> after[i].record == rows[i].record
    requires after[|rows|] == Row(r, true) && Follows(env, catalog, ring, app, rows, r)
    ensures Intact(env, catalog, ring, app, Log(after))
  {
    assert |rows| > 0 ==> after[|rows| - 1].record == rows[|rows| - 1].record;
    IntactExtends(env, catalog, ring, app, rows, after);
  }

  lemma AppendKeeps(env: Env, catalog: Catalog, ring: KeyRing, app: Value, rows: seq<Row>, input: Input, signing: SigningKey)
    requires Sound(env) && Intact(env, catalog, ring, app, Log(rows))
    requires InRing(env, ring, signing) && GoodInput(env, catalog, app, input)
    ensures Intact(env, catalog, ring, app, Log(AppendStep(env, rows, input, signing)))
  {
    hide LinkedAt, Sealed, Versioned, GoodInput, BuildAuditBody, NewBody, InRing, IsUnattested, SignRecord, Lawful,
      Ideal, KeysApart, IsHashField, IsHashText, Accepts;
    var prev := NextPrevHash(env.contract, LatestRecord(rows));
    var r := BuildAuditRecord(env, input, prev, signing);
    if r.Some? && Insertable(rows, r.value) {
      NextLinkAccepted(env, catalog, ring, app, rows);
      InputIsNewBody(env, catalog, app, input);
      Appended(env, catalog, ring, app, BuildAuditBody(env, input), prev, signing, r.value);
      VersionedAppend(rows, r.value);
      FollowsExtends(env, catalog, ring, app, rows, rows + [Row(r.value, true)], r.value);
    }
  }

  /** The record an attestation inserts, when it inserts one. */
  lemma AttestedRecord(env: Env, catalog: Catalog, ring: KeyRing, current: AuditRecord,
                       output: JsString, now: JsString, prev: JsString, signing: SigningKey, r: AuditRecord)
    requires Sound(env) && Sealed(env, catalog, ring, current) && InRing(env, ring, signing)
    requires Attest(env, Document(env.contract, current), output, now, prev, signing) == Attested(r)
    ensures Sealed(env, catalog, ring, r) && r[PrevHash] == Str(prev) && r[AppId] == current[AppId]
    ensures Attests(Row(r, true), Row(current, false))
  {
    SealedParts(env, catalog, ring, current);
    AttestedMeans(env, current, output, now, prev, signing, r);
    AttestedCopyIsCopy(current, output, now, prev);
    var copy := AttestedCopy(current, output, now, prev);
    CopyDraft(env, catalog, ring, copy, current, Str(output), Str(now), Str(prev));
    SignedSealed(env, catalog, ring, copy, signing, r);
    SignedUnsealed(env, copy, signing, r);
    CopyLink(copy, current, Str(output), Str(now), Str(prev), r);
  }

  lemma AttestOutcome(env: Env, catalog: Catalog, ring: KeyRing, app: Value, rows: seq<Row>,
                      id: JsString, output: JsString, now: JsString, signing: SigningKey)
    returns (at: nat, r: Option<AuditRecord>)
    requires Sound(env) && Intact(env, catalog, ring, app, Log(rows)) && InRing(env, ring, signing)
    ensures r.Some? ==> at < |rows|
    ensures AttestStep(env, rows, id, output, now, signing)
         == if r.None? then rows else Superseded(rows, at) + [Row(r.value, true)]
    ensures r.Some? ==> Supersedable(rows, at, r.value) && FindByHash(rows, r.value[RecordHash]).None?
    ensures r.Some? ==> Follows(env, catalog, ring, app, rows, r.value)
  {
    var found := FindLatest(rows, Str(id));
    at, r := 0, None;
    if found.Some? && AttestStep(env, rows, id, output, now, signing) != rows {
      at := found.value;
      var current := rows[at].record;
      var prev := TextOf(NextPrevHash(env.contract, LatestRecord(rows)));
      var outcome := Attest(env, Document(env.contract, current), output, now, prev, signing);
      r := Some(outcome.record);
      assert Sealed(env, catalog, ring, current) && LinkedAt(env.contract, app, rows, at);
      AttestedRecord(env, catalog, ring, current, output, now, prev, signing, outcome.record);
      PrevIsText(env, catalog, ring, app, rows);
      assert rows[at].(isLatest := false) == Row(current, false);
    }
  }

  lemma AttestKeeps(env: Env, catalog: Catalog, ring: KeyRing, app: Value, rows: seq<Row>,
                    id: JsString, output: JsString, now: JsString, signing: SigningKey)
    requires Sound(env) && Intact(env, catalog, ring, app, Log(rows)) && InRing(env, ring, signing)
    ensures Intact(env, catalog, ring, app, Log(AttestStep(env, rows, id, output, now, signing)))
  {
    hide LinkedAt, Sealed, Versioned, Sound, AttestStep, FindByHash;
    var at, r := AttestOutcome(env, catalog, ring, app, rows, id, output, now, signing);
    if r.Some? {
      VersionedAttest(rows, at, r.value);
      FollowsExtends(env, catalog, ring, app, rows, Superseded(rows, at) + [Row(r.value, true)], r.value);
    }
  }

  lemma PrevIsText(env: Env, catalog: Catalog, ring: KeyRing, app: Value, rows: seq<Row>)
    requires Intact(env, catalog, ring, app, Log(rows))
    ensures Str(TextOf(NextPrevHash(env.contract, LatestRecord(rows)))) == NextPrevHash(env.contract, LatestRecord(rows))
  {
    if rows != [] {
      assert Sealed(env, catalog, ring, rows[|rows| - 1].record);
      HashIsHash(env.contract, rows[|rows| - 1].record);
    }
  }

  lemma AttestedMeans(env: Env, current: AuditRecord, output: JsString, now: JsString, prev: JsString, signing: SigningKey, r: AuditRecord)
    requires Sound(env) && Valid(env.contract, current)
    requires Attest(env, Document(env.contract, current), output, now, prev, signing) == Attested(r)
    ensures env.contract.accepts(ModelOutputHash, Str(output)) && env.contract.accepts(AttestedAt, Str(now))
    ensures env.contract.accepts(PrevHash, Str(prev)) && IsUnattested(current)
    ensures SignRecord(env, AttestedCopy(current, output, now, prev), signing) == Some(r)
  {
    ParseDocument(env.contract, current);
  }

  lemma CopyLink(copy: AuditRecord, current: AuditRecord, output: Value, now: Value, prev: Value, r: AuditRecord)
    requires IsUnattested(current) && output.Str? && now.Str?
    requires IsCopy(copy, current, output, now, prev) && SameUnsealed(r, copy)
    ensures r[PrevHash] == prev && r[AppId] == current[AppId]
    ensures Attests(Row(r, true), Row(current, false))
  {
    assert !IsSealField(PrevHash) && !IsSealField(AppId) && !IsSealField(SeparationAttestation) && !IsSealField(Id);
    assert !IsSealField(ModelOutputHash) && !IsSealField(AttestedAt) && !IsSealField(SupersedesHash);
    assert !IsAttestationField(AppId) && !IsAttestationField(Id);
    forall f: Field | !IsAttestationField(f) ensures r[f] == current[f] {
      assert !IsSealField(f);
    }
  }

  lemma StepKeeps(env: Env, catalog: Catalog, ring: KeyRing, app: Value, rows: seq<Row>, command: Command)
    requires Sound(env) && Intact(env, catalog, ring, app, Log(rows)) && GoodCommand(env, catalog, ring, app, command)
    ensures Intact(env, catalog, ring, app, Log(Step(env, rows, command)))
  {
    match command
    case Append(input, signing) => AppendKeeps(env, catalog, ring, app, rows, input, signing);
    case AttestLatest(id, output, now, signing) => AttestKeeps(env, catalog, ring, app, rows, id, output, now, signing);
  }

  /** Whatever was appended and attested, in whatever order and under whatever keys. */
  lemma {:induction false} EveryRunIsIntact(env: Env, catalog: Catalog, ring: KeyRing, app: Value, commands: seq<Command>)
    requires Sound(env) && forall i :: 0 <= i < |commands| ==> GoodCommand(env, catalog, ring, app, commands[i])
    ensures Intact(env, catalog, ring, app, Log(Run(env, commands)))
  {
    if commands != [] {
      var n := |commands| - 1;
      EveryRunIsIntact(env, catalog, ring, app, commands[..n]);
      StepKeeps(env, catalog, ring, app, Run(env, commands[..n]), commands[n]);
    }
  }
}
