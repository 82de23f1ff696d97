/**
 What a verdict implies: verification recurses at most once whatever the contexts look like, and a
 valid attestation comes with a valid original that it copies faithfully.
 */
module VerifyLaws {
  import opened Options
  import opened Sequences
  import opened Utf16
  import opened CanonicalJson
  import opened CanonicalJsonLaws
  import opened AuditRecords
  import opened Chain
  import opened Verify

  /** Canonical texts of objects can be told apart from whatever follows them, and read back. */
  ghost predicate Readable(canonicalize: Value -> Canonicalized) {
    forall a: Value, b: Value, x: JsString, y: JsString {:trigger canonicalize(a).text + x, canonicalize(b).text + y} ::
      && a.Obj? && b.Obj? && WellFormed(a) && WellFormed(b)
      && canonicalize(a).Text? && canonicalize(b).Text?
      && canonicalize(a).text + x == canonicalize(b).text + y
      ==> Same(a, b) && x == y
  }

  /** The canonical form of canonical_json.dfy is readable. */
  lemma CanonicalIsReadable()
    ensures Readable(Canonical)
  {
    forall a: Value, b: Value, x: JsString, y: JsString |
      && a.Obj? && b.Obj? && WellFormed(a) && WellFormed(b)
      && Canonical(a).Text? && Canonical(b).Text? && Canonical(a).text + x == Canonical(b).text + y
      ensures Same(a, b) && x == y
    {
      SplitsUniquely(a, b, x, y);
    }
  }

  // ------------------------------------------------------------------------------- one level

  /** A record whose supersedes check cannot look any further. */
  function VerifyOriginal(env: Env, raw: Value, ring: KeyRing, ctx: Context): Response {
    var parsed := Parse(env.contract, raw);
    if parsed.None? then SchemaFailed()
    else Respond(OwnChecks(env, raw, parsed.value, ring, ctx) + [Pass(SupersedesCheck, NotApplicable)])
  }

  /** The same verdict without recursion: the superseded record is verified as an original. */
  function VerifyTwoLevels(env: Env, raw: Value, ring: KeyRing, ctx: Context, heap: Contexts): Response {
    var parsed := Parse(env.contract, raw);
    if parsed.None? then SchemaFailed()
    else
      var step := SupersedesFirst(env, parsed.value, ctx, heap);
      var last :=
        if step.Settle? then step.check
        else SupersedesLast(VerifyOriginal(env, step.superseded, ring, step.context));
      Respond(OwnChecks(env, raw, parsed.value, ring, ctx) + [last])
  }

  lemma OriginalSettles(env: Env, raw: Value, ring: KeyRing, ctx: Context, heap: Contexts)
    requires Lawful(env.contract) && Level(env.contract, raw) == 0
    ensures VerifyWith(env, raw, ring, ctx, heap) == VerifyOriginal(env, raw, ring, ctx)
  {
  }

  /** Contexts may nest without end or contain themselves: one level of recursion is all there is. */
  lemma OneLevelIsEnough(env: Env, raw: Value, ring: KeyRing, ctx: Context, heap: Contexts)
    requires Lawful(env.contract)
    ensures VerifyWith(env, raw, ring, ctx, heap) == VerifyTwoLevels(env, raw, ring, ctx, heap)
  {
    var parsed := Parse(env.contract, raw);
    if parsed.Some? {
      var step := SupersedesFirst(env, parsed.value, ctx, heap);
      if step.Recurse? {
        RecursionEnds(env, parsed.value, ctx, heap);
        OriginalSettles(env, step.superseded, ring, step.context, heap);
      }
    }
  }

  // ------------------------------------------------------------------------------- soundness

  predicate Passed(checks: seq<Check>) {
    forall i :: 0 <= i < |checks| ==> checks[i].ok
  }

  lemma AllOk(checks: seq<Check>, last: Check)
    ensures Respond(checks + [last]).valid <==> Passed(checks) && last.ok
  {
    var all := checks + [last];
    assert all[|checks|] == last;
    assert forall i :: 0 <= i < |checks| ==> all[i] == checks[i];
  }

  /** The supersedes check ends well, directly or through a valid original. */
  ghost predicate SupersedesOk(env: Env, r: AuditRecord, ring: KeyRing, ctx: Context, heap: Contexts)
    requires Lawful(env.contract)
  {
    match SupersedesFirst(env, r, ctx, heap)
    case Settle(check) => check.ok
    case Recurse(prior, nested) => Level(env.contract, prior) == 0 && VerifyWith(env, prior, ring, nested, heap).valid
  }

  /** A valid verdict is a parsed record, seven own checks that passed, and the eighth settled well. */
  lemma ValidMeans(env: Env, raw: Value, ring: KeyRing, ctx: Context, heap: Contexts)
    requires Lawful(env.contract) && VerifyWith(env, raw, ring, ctx, heap).valid
    ensures Parse(env.contract, raw).Some?
    ensures Passed(OwnChecks(env, raw, Parse(env.contract, raw).value, ring, ctx))
    ensures SupersedesOk(env, Parse(env.contract, raw).value, ring, ctx, heap)
  {
    var parsed := Parse(env.contract, raw);
    if parsed.Some? {
      var own := OwnChecks(env, raw, parsed.value, ring, ctx);
      var step := SupersedesFirst(env, parsed.value, ctx, heap);
      if step.Settle? {
        AllOk(own, step.check);
      } else {
        RecursionEnds(env, parsed.value, ctx, heap);
        AllOk(own, SupersedesLast(VerifyWith(env, step.superseded, ring, step.context, heap)));
      }
    }
  }

  /** The digest the record carries is the digest of the document that carries it. */
  ghost predicate HashStands(env: Env, raw: Value, r: AuditRecord)
    requires raw.Obj?
  {
    var body := env.canonicalize(Unsigned(env.contract, raw));
    var prev := Get(env.contract, raw.members, PrevHash);
    body.Text? && r[RecordHash] == Str(env.crypto.sha256(body.text + if prev.Str? then prev.s else []))
  }

  ghost predicate SignatureStands(env: Env, r: AuditRecord, ring: KeyRing) {
    exists hash, signature, key ::
      && r[RecordHash] == Str(hash) && r[Signature] == Str(signature) && r[KeyId] == Str(key)
      && key in ring && env.crypto.verifies(hash, signature, ring[key])
  }

  /** Retention's marker, or any other object that says so. */
  predicate SaysPruned(c: Contract, v: Value) {
    v.Obj? && Lookup(v.members, c.word(PrunedKey)) == Bool(true)
  }

  /** Both dates can be read, and the record's is not before the cutoff of its pruned predecessor. */
  ghost predicate PostDates(env: Env, r: AuditRecord, previous: Value) {
    var v := Prop(env.contract, previous, RetainCutoffKey);
    exists text ::
      && (v == Str(text) || (!v.Str? && env.textOf(v) == Some(text)))
      && env.dateParse(text).Some? && r[Ts].Str? && env.dateParse(r[Ts].s).Some?
      && env.dateParse(text).value <= env.dateParse(r[Ts].s).value
  }

  /** First in its app, behind the record it names, or behind what retention took before its time. */
  ghost predicate PlaceStands(env: Env, r: AuditRecord, previous: Value) {
    var c := env.contract;
    if r[PrevHash] == Said(c, Genesis) then previous == Null || previous == Undefined
    else if SaysPruned(c, previous) then PostDates(env, r, previous)
    else
      && (previous.Obj? || previous.Foreign?)
      && Peek(c, previous, RecordHash) == r[PrevHash] && Peek(c, previous, AppId) == r[AppId]
  }

  lemma PostDatesDecided(env: Env, r: AuditRecord, previous: Value)
    ensures PostDates(env, r, previous) <==>
              var (cutoff, ts) := (CutoffOf(env, previous), DateOf(env, r[Ts]));
              cutoff.Some? && ts.Some? && ts.value >= cutoff.value
  {
    var text := StringOf(env, Prop(env.contract, previous, RetainCutoffKey));
    if CutoffOf(env, previous).Some? {
      assert env.dateParse(text.value).Some?;
    }
  }

  ghost predicate CreativeStands(c: Contract, r: AuditRecord, stored: Value) {
    r[Creative].Null? || (stored.Str? && stored.s != [] && Prop(c, r[Creative], ContentHashKey) == stored)
  }

  ghost predicate DisclosureStands(c: Contract, r: AuditRecord) {
    exists caption ::
      && Prop(c, r[DisclosureBlock], LabelKey) == Str(caption)
      && (exists i :: 0 <= i < |caption| && !IsWhite(caption[i]))
      && Prop(c, r[DisclosureBlock], PositionKey) == Said(c, AfterAnswer)
      && Prop(c, r[DisclosureBlock], StyleKey) == Said(c, SeparateBlock)
  }

  ghost predicate SeparationStands(c: Contract, r: AuditRecord, supersededBy: Value) {
    IsAttested(r) || (IsUnattested(r) && (AttestsRecord(c, r, supersededBy) || r[Decided] == Said(c, Suppress)))
  }

  lemma HashAndPlaceDecided(env: Env, raw: Value, r: AuditRecord, previous: Value)
    requires raw.Obj?
    ensures CheckRecordHash(env, raw, r).ok <==> HashStands(env, raw, r)
    ensures CheckChain(env, r, previous).ok <==> PlaceStands(env, r, previous)
  {
    hide CutoffOf, DateOf, PostDates;
    PostDatesDecided(env, r, previous);
  }

  lemma SignatureDecided(env: Env, r: AuditRecord, ring: KeyRing)
    ensures CheckSignature(env, r, ring).ok <==> SignatureStands(env, r, ring)
  {
    if CheckSignature(env, r, ring).ok {
      assert r[RecordHash] == Str(r[RecordHash].s) && r[Signature] == Str(r[Signature].s) && r[KeyId] == Str(r[KeyId].s);
    }
  }

  lemma ContentDecided(c: Contract, r: AuditRecord, stored: Value, supersededBy: Value)
    ensures CheckCreativeHash(c, r, stored).ok <==> CreativeStands(c, r, stored)
    ensures CheckDisclosure(c, r).ok <==> DisclosureStands(c, r)
    ensures CheckSeparation(c, r, supersededBy).ok <==> SeparationStands(c, r, supersededBy)
  {
    var caption := Prop(c, r[DisclosureBlock], LabelKey);
    if CheckDisclosure(c, r).ok {
      assert caption == Str(caption.s);
    }
  }

  /** What the seven own checks say together. */
  ghost predicate Stands(env: Env, raw: Value, r: AuditRecord, ring: KeyRing, ctx: Context)
    requires raw.Obj?
  {
    && HashStands(env, raw, r) && PlaceStands(env, r, ctx.prevRecord) && SignatureStands(env, r, ring)
    && CreativeStands(env.contract, r, ctx.storedCreativeHash) && DisclosureStands(env.contract, r)
    && SeparationStands(env.contract, r, ctx.supersededBy)
  }

  lemma PassedSeven(checks: seq<Check>)
    requires |checks| == 7
    ensures Passed(checks) <==>
              checks[0].ok && checks[1].ok && checks[2].ok && checks[3].ok && checks[4].ok && checks[5].ok && checks[6].ok
  {
  }

  lemma OwnChecksDecided(env: Env, raw: Value, r: AuditRecord, ring: KeyRing, ctx: Context)
    requires raw.Obj?
    ensures Passed(OwnChecks(env, raw, r, ring, ctx)) <==> Stands(env, raw, r, ring, ctx)
  {
    hide HashStands, PlaceStands, SignatureStands, DisclosureStands, SeparationStands;
    PassedSeven(OwnChecks(env, raw, r, ring, ctx));
    HashAndPlaceDecided(env, raw, r, ctx.prevRecord);
    SignatureDecided(env, r, ring);
    ContentDecided(env.contract, r, ctx.storedCreativeHash, ctx.supersededBy);
  }

  /**
   `verify` says valid exactly when the document parses, its digest, place, signature, creative,
   disclosure and separation all stand, and what it supersedes, if anything, settles well.
   */
  lemma VerdictDecided(env: Env, raw: Value, ring: KeyRing, ctx: Context, heap: Contexts)
    requires Lawful(env.contract)
    ensures VerifyWith(env, raw, ring, ctx, heap).valid <==>
              && Parse(env.contract, raw).Some?
              && Stands(env, raw, Parse(env.contract, raw).value, ring, ctx)
              && SupersedesOk(env, Parse(env.contract, raw).value, ring, ctx, heap)
  {
    var parsed := Parse(env.contract, raw);
    if parsed.Some? {
      OwnChecksDecided(env, raw, parsed.value, ring, ctx);
      var own := OwnChecks(env, raw, parsed.value, ring, ctx);
      var step := SupersedesFirst(env, parsed.value, ctx, heap);
      if step.Settle? {
        AllOk(own, step.check);
      } else {
        RecursionEnds(env, parsed.value, ctx, heap);
        AllOk(own, SupersedesLast(VerifyWith(env, step.superseded, ring, step.context, heap)));
      }
    }
  }

  /** Everything outside the eight attestation fields is the same JSON in both versions. */
  ghost predicate SameBody(a: AuditRecord, b: AuditRecord) {
    forall f: Field :: !IsAttestationField(f) ==> Same(a[f], b[f])
  }

  /**
   A valid verdict on a record that supersedes another, unless that verification was switched off:
   the record is fully attested, and what it supersedes is an original of the same id and app that
   it copies on everything outside the attestation fields, and that verifies in its own right.
   */
  lemma ValidAttestationIsFaithful(env: Env, raw: Value, ring: KeyRing, ctx: Context, heap: Contexts)
    requires Lawful(env.contract) && Readable(env.canonicalize)
    requires VerifyWith(env, raw, ring, ctx, heap).valid
    requires Parse(env.contract, raw).Some? && !Parse(env.contract, raw).value[SupersedesHash].Null?
    requires ctx.verifySuperseded != Bool(false)
    ensures var r := Parse(env.contract, raw).value;
            var prior := Parse(env.contract, ctx.supersededRecord);
            && IsAttested(r)
            && prior.Some?
            && prior.value[RecordHash] == r[SupersedesHash]
            && prior.value[Id] == r[Id] && prior.value[AppId] == r[AppId]
            && prior.value[SupersedesHash].Null?
            && SameBody(prior.value, r)
            && VerifyWith(env, ctx.supersededRecord, ring,
                          NestedContext(Document(env.contract, r), ctx, heap), heap).valid
  {
    var r := Parse(env.contract, raw).value;
    ValidMeans(env, raw, ring, ctx, heap);
    StepOfValid(env, r, ring, ctx, heap);
    SeparationPassed(env, raw, r, ring, ctx);
    AttestedWhenSuperseding(env.contract, r, ctx.supersededBy);
    OriginalHasNoPrior(env.contract, r, ctx.supersededRecord);
    NoStranger(env.contract, r, ctx.supersededRecord);
    PriorIdentity(env.contract, r, ctx.supersededRecord);
    ParsedIsValid(env.contract, raw);
    ParsedIsValid(env.contract, ctx.supersededRecord);
    FaithfulBody(env, r, ctx.supersededRecord);
  }

  lemma StepOfValid(env: Env, r: AuditRecord, ring: KeyRing, ctx: Context, heap: Contexts)
    requires !r[SupersedesHash].Null? && ctx.verifySuperseded != Bool(false)
    requires Lawful(env.contract) && SupersedesOk(env, r, ring, ctx, heap)
    ensures SupersedesFirst(env, r, ctx, heap)
         == Recurse(ctx.supersededRecord, NestedContext(Document(env.contract, r), ctx, heap))
    ensures Stranger(env.contract, r, ctx.supersededRecord).None?
    ensures Unfaithful(env, r, ctx.supersededRecord).None?
  {
  }

  lemma SeparationPassed(env: Env, raw: Value, r: AuditRecord, ring: KeyRing, ctx: Context)
    requires raw.Obj? && Passed(OwnChecks(env, raw, r, ring, ctx))
    ensures CheckSeparation(env.contract, r, ctx.supersededBy).ok
  {
    assert OwnChecks(env, raw, r, ring, ctx)[6].ok;
  }

  lemma AttestedWhenSuperseding(c: Contract, r: AuditRecord, supersededBy: Value)
    requires CheckSeparation(c, r, supersededBy).ok && !r[SupersedesHash].Null?
    ensures IsAttested(r)
  {
  }

  lemma NoStranger(c: Contract, r: AuditRecord, prior: Value)
    requires Stranger(c, r, prior).None?
    ensures prior.Obj? && Parse(c, prior).Some?
    ensures Get(c, prior.members, RecordHash) == r[SupersedesHash] && Get(c, prior.members, Id) == r[Id]
    ensures Get(c, prior.members, AppId) == r[AppId]
  {
  }

  lemma PriorIdentity(c: Contract, r: AuditRecord, prior: Value)
    requires Lawful(c) && Parse(c, prior).Some?
    requires Get(c, prior.members, RecordHash) == r[SupersedesHash] && Get(c, prior.members, Id) == r[Id]
    requires Get(c, prior.members, AppId) == r[AppId]
    ensures var p := Parse(c, prior).value;
            p[RecordHash] == r[SupersedesHash] && p[Id] == r[Id] && p[AppId] == r[AppId]
  {
    ParsedPlainField(c, prior, RecordHash);
    ParsedPlainField(c, prior, Id);
    ParsedPlainField(c, prior, AppId);
  }

  lemma FaithfulTexts(env: Env, r: AuditRecord, prior: Value)
    requires Parse(env.contract, prior).Some? && Unfaithful(env, r, prior).None?
    ensures var (theirs, ours) := (AttestedBodyOf(env, Parse(env.contract, prior).value), AttestedBodyOf(env, r));
            theirs.Text? && theirs == ours
  {
  }

  lemma FaithfulBody(env: Env, r: AuditRecord, prior: Value)
    requires Lawful(env.contract) && Readable(env.canonicalize)
    requires Parse(env.contract, prior).Some? && Unfaithful(env, r, prior).None?
    requires Valid(env.contract, r) && Valid(env.contract, Parse(env.contract, prior).value)
    ensures SameBody(Parse(env.contract, prior).value, r)
  {
    var (c, p) := (env.contract, Parse(env.contract, prior).value);
    var (theirs, ours) := (FieldsDocument(c, p, BODY_FIELDS), FieldsDocument(c, r, BODY_FIELDS));
    FaithfulTexts(env, r, prior);
    BodyWellFormed(c, p);
    BodyWellFormed(c, r);
    SameTexts(env, theirs, ours);
    SameFields(c, p, r);
  }

  lemma SameTexts(env: Env, a: Value, b: Value)
    requires Readable(env.canonicalize) && a.Obj? && b.Obj? && WellFormed(a) && WellFormed(b)
    requires env.canonicalize(a).Text? && env.canonicalize(a) == env.canonicalize(b)
    ensures Same(a, b)
  {
    var none: JsString := [];
    assert env.canonicalize(a).text + none == env.canonicalize(b).text + none;
  }

  lemma BodyWellFormed(c: Contract, r: AuditRecord)
    requires Lawful(c) && Valid(c, r)
    ensures WellFormed(FieldsDocument(c, r, BODY_FIELDS))
  {
    var m := FieldsDocument(c, r, BODY_FIELDS).members;
    DocumentKeysDistinct(c, r, BODY_FIELDS);
    forall i | 0 <= i < |m| ensures WellFormed(m[i].value) {
      assert m[i] == FieldMember(c, r, FieldAt(i));
      assert Usable(c, FieldAt(i), r[FieldAt(i)]);
    }
  }

  lemma SameFields(c: Contract, a: AuditRecord, b: AuditRecord)
    requires Valid(c, a) && Valid(c, b)
    requires Same(FieldsDocument(c, a, BODY_FIELDS), FieldsDocument(c, b, BODY_FIELDS))
    ensures SameBody(a, b)
  {
    var (m, n) := (FieldsDocument(c, a, BODY_FIELDS).members, FieldsDocument(c, b, BODY_FIELDS).members);
    forall f: Field | !IsAttestationField(f) ensures Same(a[f], b[f]) {
      FieldsEnumerated(f, 0);
      BodyFieldsFirst(f);
      var i := Position(f);
      assert m[i] == FieldMember(c, a, f) && n[i] == FieldMember(c, b, f);
      assert Usable(c, f, a[f]) && Usable(c, f, b[f]);
      assert Paired(m[i], n[i]);
    }
  }

  lemma BodyFieldsFirst(f: Field)
    ensures IsAttestationField(f) <==> Position(f) >= BODY_FIELDS
  {
  }
}
