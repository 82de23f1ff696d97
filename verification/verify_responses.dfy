/**
 What a response of `verify` says, check by check: the eight names in their order, each flag in terms
 of the record and of what surrounds it, and nothing reported that is not so.
 */
module VerifyResponses {
  import opened Options
  import opened Sequences
  import opened Utf16
  import opened CanonicalJson
  import opened AuditRecords
  import opened Chain
  import opened Verify
  import opened VerifyLaws

  // ---------------------------------------------------------------------------- the separation

  /** The four fields that attesting sets, all of them or none. */
  predicate FullyAttested(r: AuditRecord) {
    r[SeparationAttestation] == Bool(true) && r[ModelOutputHash] != Null && r[AttestedAt] != Null
  }

  predicate NeverAttested(r: AuditRecord) {
    r[SeparationAttestation] == Bool(false) && r[ModelOutputHash] == Null && r[AttestedAt] == Null && r[SupersedesHash] == Null
  }

  /** `next` carries the hash, id and app of `r` and a complete attestation. */
  predicate CarriesAttestation(c: Contract, r: AuditRecord, next: Value) {
    && next.Obj?
    && Get(c, next.members, SupersedesHash) == r[RecordHash]
    && Get(c, next.members, Id) == r[Id] && Get(c, next.members, AppId) == r[AppId]
    && Get(c, next.members, SeparationAttestation) == Bool(true)
    && Get(c, next.members, ModelOutputHash).Str? && Get(c, next.members, AttestedAt).Str?
  }

  predicate Separated(c: Contract, r: AuditRecord, supersededBy: Value) {
    || FullyAttested(r)
    || (NeverAttested(r) && (CarriesAttestation(c, r, supersededBy) || r[Decided] == Said(c, Suppress)))
  }

  lemma SeparationIsSeparated(c: Contract, r: AuditRecord, supersededBy: Value)
    ensures SeparationStands(c, r, supersededBy) <==> Separated(c, r, supersededBy)
  {
  }

  // --------------------------------------------------------------------------- the superseded

  /** `prior` is an original of the same id and app, named by its hash, with the same attested body. */
  ghost predicate Attests(env: Env, r: AuditRecord, prior: Value)
  {
    var p := Parse(env.contract, prior);
    && p.Some?
    && p.value[RecordHash] == r[SupersedesHash] && p.value[Id] == r[Id] && p.value[AppId] == r[AppId]
    && p.value[SupersedesHash] == Null
    && AttestedBodyOf(env, r).Text? && AttestedBodyOf(env, p.value) == AttestedBodyOf(env, r)
  }

  /** What the superseded record is verified under: its own surroundings, its creative's hash inherited. */
  function Inherited(c: Contract, r: AuditRecord, ctx: Context, heap: Contexts): Context {
    var own := if ctx.superseded.Some? && ctx.superseded.value < |heap| then heap[ctx.superseded.value] else EMPTY_CONTEXT;
    var stored := if own.storedCreativeHash == Undefined then ctx.storedCreativeHash else own.storedCreativeHash;
    Context(own.prevRecord, stored, Document(c, r), own.supersededRecord, own.verifySuperseded, own.superseded)
  }

  ghost predicate OriginalStands(env: Env, prior: Value, ring: KeyRing, ctx: Context) {
    Parse(env.contract, prior).Some? && Stands(env, prior, Parse(env.contract, prior).value, ring, ctx)
  }

  /** Nothing is superseded, or a faithfully copied original that stands as well, unless that was not asked. */
  ghost predicate SupersedesStands(env: Env, r: AuditRecord, ring: KeyRing, ctx: Context, heap: Contexts) {
    || r[SupersedesHash] == Null
    || (&& Attests(env, r, ctx.supersededRecord)
        && (ctx.verifySuperseded == Bool(false)
            || OriginalStands(env, ctx.supersededRecord, ring, Inherited(env.contract, r, ctx, heap))))
  }

  lemma StrangerDecided(c: Contract, r: AuditRecord, prior: Value)
    requires Lawful(c) && !r[SupersedesHash].Null?
    ensures Stranger(c, r, prior).None? <==>
              && Parse(c, prior).Some?
              && var p := Parse(c, prior).value;
                 && p[RecordHash] == r[SupersedesHash] && p[Id] == r[Id] && p[AppId] == r[AppId] && p[SupersedesHash] == Null
  {
    hide Get, Lookup, StrippedFields;
    if Parse(c, prior).Some? {
      ParsedPlainField(c, prior, RecordHash);
      ParsedPlainField(c, prior, Id);
      ParsedPlainField(c, prior, AppId);
      ParsedPlainField(c, prior, SupersedesHash);
      ParsedShape(c, prior);
    }
  }

  lemma ParsedShape(c: Contract, raw: Value)
    requires Lawful(c) && Parse(c, raw).Some?
    ensures var v := Parse(c, raw).value[SupersedesHash]; v.Null? || v.Str?
  {
    ParsedField(c, raw, SupersedesHash);
  }

  lemma AttestsDecided(env: Env, r: AuditRecord, prior: Value)
    requires Lawful(env.contract) && !r[SupersedesHash].Null?
    ensures Attests(env, r, prior) <==>
              Stranger(env.contract, r, prior).None? && Unfaithful(env, r, prior).None?
  {
    hide Lawful, FieldsOk, Refined, AttestedBodyOf, Stranger;
    StrangerDecided(env.contract, r, prior);
  }

  lemma OriginalDecided(env: Env, prior: Value, ring: KeyRing, ctx: Context, heap: Contexts)
    requires Lawful(env.contract) && Level(env.contract, prior) == 0
    ensures VerifyWith(env, prior, ring, ctx, heap).valid <==> OriginalStands(env, prior, ring, ctx)
  {
    hide Lawful, Parse, Stands, VerifyWith;
    VerdictDecided(env, prior, ring, ctx, heap);
  }

  lemma SupersedesDecided(env: Env, r: AuditRecord, ring: KeyRing, ctx: Context, heap: Contexts)
    requires Lawful(env.contract)
    ensures SupersedesOk(env, r, ring, ctx, heap) <==> SupersedesStands(env, r, ring, ctx, heap)
  {
    hide Lawful, Parse, OriginalStands, VerifyWith, Stranger, Unfaithful, Attests, Level;
    if !r[SupersedesHash].Null? {
      AttestsDecided(env, r, ctx.supersededRecord);
      if SupersedesFirst(env, r, ctx, heap).Recurse? {
        RecursionEnds(env, r, ctx, heap);
        OriginalDecided(env, ctx.supersededRecord, ring, Inherited(env.contract, r, ctx, heap), heap);
      }
    }
  }

  // ------------------------------------------------------------------------- the eight checks

  /** The flag each check must carry. */
  ghost predicate Holds(env: Env, raw: Value, r: AuditRecord, ring: KeyRing, ctx: Context, heap: Contexts, name: CheckName)
    requires raw.Obj?
  {
    match name
    case SchemaCheck => true
    case RecordHashCheck => HashStands(env, raw, r)
    case ChainCheck => PlaceStands(env, r, ctx.prevRecord)
    case SignatureCheck => SignatureStands(env, r, ring)
    case CreativeHashCheck => CreativeStands(env.contract, r, ctx.storedCreativeHash)
    case DisclosureCheck => DisclosureStands(env.contract, r)
    case SeparationCheck => Separated(env.contract, r, ctx.supersededBy)
    case SupersedesCheck => SupersedesStands(env, r, ring, ctx, heap)
  }

  lemma ParsedIsObject(c: Contract, raw: Value)
    requires Parse(c, raw).Some?
    ensures raw.Obj?
  {
    hide FieldsOk, Refined;
  }

  lemma ResponseIs(env: Env, raw: Value, ring: KeyRing, ctx: Context, heap: Contexts) returns (last: Check)
    requires Lawful(env.contract) && Parse(env.contract, raw).Some?
    ensures raw.Obj?
    ensures VerifyWith(env, raw, ring, ctx, heap) ==
              Respond(OwnChecks(env, raw, Parse(env.contract, raw).value, ring, ctx) + [last])
    ensures last.name == SupersedesCheck
    ensures last.ok <==> SupersedesOk(env, Parse(env.contract, raw).value, ring, ctx, heap)
    ensures var step := SupersedesFirst(env, Parse(env.contract, raw).value, ctx, heap);
            last == if step.Settle? then step.check
                    else SupersedesLast(VerifyWith(env, step.superseded, ring, step.context, heap))
  {
    hide Lawful, Parse, OwnChecks, Respond, Level, Stranger, Unfaithful;
    ParsedIsObject(env.contract, raw);
    var r := Parse(env.contract, raw).value;
    var step := SupersedesFirst(env, r, ctx, heap);
    if step.Settle? {
      last := step.check;
    } else {
      RecursionEnds(env, r, ctx, heap);
      last := SupersedesLast(VerifyWith(env, step.superseded, ring, step.context, heap));
    }
  }

  lemma OwnFlags(env: Env, raw: Value, r: AuditRecord, ring: KeyRing, ctx: Context, heap: Contexts)
    requires raw.Obj?
    ensures var own := OwnChecks(env, raw, r, ring, ctx);
            && |own| == 7
            && forall i {:trigger own[i]} :: 0 <= i < 7 ==>
                 && own[i].name == CHECK_ORDER[i]
                 && (own[i].ok <==> Holds(env, raw, r, ring, ctx, heap, CHECK_ORDER[i]))
  {
    hide HashStands, PlaceStands, SignatureStands, CreativeStands, DisclosureStands, SeparationStands, Separated,
      SupersedesStands, CheckRecordHash, CheckChain, CheckSignature, CheckCreativeHash, CheckDisclosure,
      CheckSeparation;
    HashAndPlaceDecided(env, raw, r, ctx.prevRecord);
    SignatureDecided(env, r, ring);
    ContentDecided(env.contract, r, ctx.storedCreativeHash, ctx.supersededBy);
    SeparationIsSeparated(env.contract, r, ctx.supersededBy);
    ChainNamed(env, raw, r, ctx.prevRecord);
    ContentNamed(env, r, ring, ctx);
  }

  lemma ChainNamed(env: Env, raw: Value, r: AuditRecord, previous: Value)
    requires raw.Obj?
    ensures CheckRecordHash(env, raw, r).name == RecordHashCheck && CheckChain(env, r, previous).name == ChainCheck
  {
    hide CutoffOf, DateOf, StringOf, IsPruned, Prop, Peek;
  }

  lemma ContentNamed(env: Env, r: AuditRecord, ring: KeyRing, ctx: Context)
    ensures CheckSignature(env, r, ring).name == SignatureCheck
    ensures CheckCreativeHash(env.contract, r, ctx.storedCreativeHash).name == CreativeHashCheck
    ensures CheckDisclosure(env.contract, r).name == DisclosureCheck
    ensures CheckSeparation(env.contract, r, ctx.supersededBy).name == SeparationCheck
  {
    hide Prop, AllBlank, AttestsRecord, IsAttested, IsUnattested;
  }

  lemma LastFlag(env: Env, raw: Value, r: AuditRecord, ring: KeyRing, ctx: Context, heap: Contexts)
    requires Lawful(env.contract) && raw.Obj?
    ensures SupersedesOk(env, r, ring, ctx, heap) <==> Holds(env, raw, r, ring, ctx, heap, SupersedesCheck)
  {
    hide Lawful, SupersedesOk, SupersedesStands;
    SupersedesDecided(env, r, ring, ctx, heap);
  }

  /**
   Every response has the eight checks in their order and is valid when all of them are ok. A document
   the schema rejects fails them all, seven as skipped; otherwise each flag says what its name says.
   */
  lemma EightChecks(env: Env, raw: Value, ring: KeyRing, ctx: Context, heap: Contexts)
    requires Lawful(env.contract)
    ensures var (response, parsed) := (VerifyWith(env, raw, ring, ctx, heap), Parse(env.contract, raw));
            && |response.checks| == 8
            && (forall i {:trigger response.checks[i]} :: 0 <= i < 8 ==> response.checks[i].name == CHECK_ORDER[i])
            && (response.valid <==> forall i :: 0 <= i < 8 ==> response.checks[i].ok)
            && (parsed.None? ==> response.checks[0].detail == SchemaIssues && !response.checks[0].ok)
            && (parsed.None? ==> forall i :: 1 <= i < 8 ==> !response.checks[i].ok && response.checks[i].detail == SkippedSchemaInvalid)
            && (parsed.Some? ==> forall i {:trigger response.checks[i]} :: 0 <= i < 8 ==>
                  (response.checks[i].ok <==> Holds(env, raw, parsed.value, ring, ctx, heap, CHECK_ORDER[i])))
  {
    hide Lawful, Parse, Stands, OwnChecks, Holds, SupersedesOk, SupersedesFirst, Level;
    var parsed := Parse(env.contract, raw);
    if parsed.Some? {
      var last := ResponseIs(env, raw, ring, ctx, heap);
      OwnFlags(env, raw, parsed.value, ring, ctx, heap);
      LastFlag(env, raw, parsed.value, ring, ctx, heap);
      LastOfAll(OwnChecks(env, raw, parsed.value, ring, ctx), last);
    } else {
      RejectedIs(env, raw, ring, ctx, heap);
    }
  }

  lemma LastOfAll(own: seq<Check>, last: Check)
    requires |own| == 7
    ensures (own + [last])[7] == last && forall i {:trigger (own + [last])[i]} :: 0 <= i < 7 ==> (own + [last])[i] == own[i]
  {
  }

  lemma RejectedIs(env: Env, raw: Value, ring: KeyRing, ctx: Context, heap: Contexts)
    requires Lawful(env.contract) && Parse(env.contract, raw).None?
    ensures var response := VerifyWith(env, raw, ring, ctx, heap);
            && |response.checks| == 8 && !response.valid && !response.checks[0].ok && response.checks[0].detail == SchemaIssues
            && (forall i {:trigger response.checks[i]} :: 0 <= i < 8 ==> response.checks[i].name == CHECK_ORDER[i])
            && (forall i {:trigger response.checks[i]} :: 1 <= i < 8 ==>
                  !response.checks[i].ok && response.checks[i].detail == SkippedSchemaInvalid)
  {
    hide Lawful, Parse, OwnChecks, Respond, Level;
  }

  // -------------------------------------------------------------------------------- the details

  /** The details of a check that passed. */
  predicate Approves(d: Detail) {
    || d.NoDetail? || d.NotApplicable? || d.GenesisOk? || d.PrunedOk? || d.KeyNamed? || d.AttestedBySuperseding?
    || d.SupersededNotVerified? || d.SupersededVerified?
  }

  ghost predicate HashClaim(env: Env, raw: Value, r: AuditRecord, d: Detail)
    requires raw.Obj?
  {
    match d
    case NoDetail => true
    case HashMismatch => env.canonicalize(Unsigned(env.contract, raw)).Text? && !HashStands(env, raw, r)
    case ThrewTypeError => env.canonicalize(Unsigned(env.contract, raw)).TypeError?
    case _ => false
  }

  /** String() of the cutoff does not throw. */
  predicate HasCutoffText(env: Env, previous: Value) {
    var v := Prop(env.contract, previous, RetainCutoffKey);
    v.Str? || env.textOf(v).Some?
  }

  ghost predicate ChainClaim(env: Env, r: AuditRecord, previous: Value, d: Detail) {
    var (c, first) := (env.contract, r[PrevHash] == Said(env.contract, Genesis));
    match d
    case NoDetail => !first && Peek(c, previous, RecordHash) == r[PrevHash] && Peek(c, previous, AppId) == r[AppId]
    case GenesisOk => first && (previous == Null || previous == Undefined)
    case GenesisWithPrevious => first && previous != Null && previous != Undefined
    case PrunedOk => !first && SaysPruned(c, previous) && PostDates(env, r, previous)
    case PrunedBeforeCutoff => !first && SaysPruned(c, previous) && !PostDates(env, r, previous)
    case ThrewTypeError => !first && SaysPruned(c, previous) && !HasCutoffText(env, previous)
    case PreviousMissing => !first && !previous.Obj? && !previous.Foreign?
    case PreviousMismatch => !first && Peek(c, previous, RecordHash) != r[PrevHash]
    case PreviousOtherApp => !first && Peek(c, previous, RecordHash) == r[PrevHash] && Peek(c, previous, AppId) != r[AppId]
    case _ => false
  }

  predicate KeyKnown(r: AuditRecord, ring: KeyRing, key: JsString) {
    r[KeyId] == Str(key) && key in ring
  }

  ghost predicate SignatureClaim(r: AuditRecord, ring: KeyRing, d: Detail) {
    match d
    case KeyNamed(key) => KeyKnown(r, ring, key)
    case UnknownKeyId => forall key :: !KeyKnown(r, ring, key)
    case BadSignature => exists key :: KeyKnown(r, ring, key)
    case _ => false
  }

  ghost predicate ContentClaim(c: Contract, r: AuditRecord, stored: Value, d: Detail) {
    match d
    case NoDetail => r[Creative] != Null
    case NotApplicable => r[Creative] == Null
    case StoredCreativeMissing => r[Creative] != Null && (!stored.Str? || stored.s == [])
    case CreativeMismatch => r[Creative] != Null && stored.Str? && Prop(c, r[Creative], ContentHashKey) != stored
    case _ => false
  }

  ghost predicate DisclosureClaim(c: Contract, r: AuditRecord, d: Detail) {
    var caption := Prop(c, r[DisclosureBlock], LabelKey);
    match d
    case NoDetail => true
    case LabelEmpty => caption.Str? ==> forall i :: 0 <= i < |caption.s| ==> IsWhite(caption.s[i])
    case WrongPosition => Prop(c, r[DisclosureBlock], PositionKey) != Said(c, AfterAnswer)
    case WrongStyle => Prop(c, r[DisclosureBlock], StyleKey) != Said(c, SeparateBlock)
    case _ => false
  }

  ghost predicate SeparationClaim(c: Contract, r: AuditRecord, supersededBy: Value, d: Detail) {
    match d
    case NoDetail => FullyAttested(r)
    case AttestedBySuperseding => NeverAttested(r) && CarriesAttestation(c, r, supersededBy)
    case NotApplicable => NeverAttested(r) && r[Decided] == Said(c, Suppress)
    case AttestationIncomplete => !FullyAttested(r) && !NeverAttested(r)
    case NotAttested => NeverAttested(r) && r[Decided] != Said(c, Suppress)
    case _ => false
  }

  lemma HashClaims(env: Env, raw: Value, r: AuditRecord)
    requires raw.Obj?
    ensures var check := CheckRecordHash(env, raw, r);
            HashClaim(env, raw, r, check.detail) && (check.ok <==> Approves(check.detail))
  {
  }

  lemma ChainClaims(env: Env, r: AuditRecord, previous: Value)
    ensures var check := CheckChain(env, r, previous);
            ChainClaim(env, r, previous, check.detail) && (check.ok <==> Approves(check.detail))
  {
    hide CutoffOf, DateOf, Peek, PostDates;
    PostDatesDecided(env, r, previous);
  }

  lemma SignatureClaims(env: Env, r: AuditRecord, ring: KeyRing)
    ensures var check := CheckSignature(env, r, ring);
            SignatureClaim(r, ring, check.detail) && (check.ok <==> Approves(check.detail))
  {
    if r[KeyId].Str? {
      assert r[KeyId].s in ring ==> KeyKnown(r, ring, r[KeyId].s);
    }
  }

  lemma ContentClaims(c: Contract, r: AuditRecord, stored: Value)
    ensures var (creative, disclosure) := (CheckCreativeHash(c, r, stored), CheckDisclosure(c, r));
            && ContentClaim(c, r, stored, creative.detail) && (creative.ok <==> Approves(creative.detail))
            && DisclosureClaim(c, r, disclosure.detail) && (disclosure.ok <==> Approves(disclosure.detail))
  {
  }

  lemma SeparationClaims(c: Contract, r: AuditRecord, supersededBy: Value)
    ensures var check := CheckSeparation(c, r, supersededBy);
            SeparationClaim(c, r, supersededBy, check.detail) && (check.ok <==> Approves(check.detail))
  {
  }

  /** The failed ones and no others, in the order of the checks. */
  ghost predicate Lists(failed: seq<CheckName>, checks: seq<Check>) {
    && (forall name :: name in failed <==> exists i :: 0 <= i < |checks| && checks[i].name == name && !checks[i].ok)
    && (forall i, j :: 0 <= i < j < |failed| ==> OrderOf(failed[i]) < OrderOf(failed[j]))
  }

  lemma {:induction false} FailedAreListed(checks: seq<Check>)
    requires forall i, j :: 0 <= i < j < |checks| ==> OrderOf(checks[i].name) < OrderOf(checks[j].name)
    ensures Lists(FailedNames(checks), checks)
  {
    if checks != [] {
      FailedAreListed(checks[1..]);
      assert forall i :: 1 <= i < |checks| ==> checks[1..][i - 1] == checks[i];
      assert forall name :: name in FailedNames(checks[1..]) ==> OrderOf(checks[0].name) < OrderOf(name);
    }
  }

  /** The names, in order, of what fails when `prior` is verified. */
  ghost predicate ListsFailures(env: Env, prior: Value, ring: KeyRing, ctx: Context, heap: Contexts, failed: seq<CheckName>)
    requires prior.Obj? && Parse(env.contract, prior).Some?
  {
    && (forall name :: name in failed <==> !Holds(env, prior, Parse(env.contract, prior).value, ring, ctx, heap, name))
    && (forall i, j :: 0 <= i < j < |failed| ==> OrderOf(failed[i]) < OrderOf(failed[j]))
  }

  lemma FailuresListed(env: Env, prior: Value, ring: KeyRing, ctx: Context, heap: Contexts)
    requires Lawful(env.contract) && prior.Obj? && Parse(env.contract, prior).Some?
    ensures ListsFailures(env, prior, ring, ctx, heap, FailedNames(VerifyWith(env, prior, ring, ctx, heap).checks))
  {
    hide Lawful, Parse, Holds, VerifyWith, FailedNames;
    var checks := VerifyWith(env, prior, ring, ctx, heap).checks;
    EightChecks(env, prior, ring, ctx, heap);
    forall i, j | 0 <= i < j < |checks| ensures OrderOf(checks[i].name) < OrderOf(checks[j].name) {
      Ranked(i);
      Ranked(j);
    }
    FailedAreListed(checks);
    forall name
      ensures name in FailedNames(checks) <==> !Holds(env, prior, Parse(env.contract, prior).value, ring, ctx, heap, name)
    {
      Ranked(OrderOf(name));
      assert checks[OrderOf(name)].name == name;
    }
  }

  lemma Ranked(i: nat)
    requires i < 8
    ensures OrderOf(CHECK_ORDER[i]) == i && forall name :: OrderOf(name) == i ==> CHECK_ORDER[i] == name
  {
  }

  ghost predicate SupersedesClaim(env: Env, r: AuditRecord, ring: KeyRing, ctx: Context, heap: Contexts, d: Detail) {
    var (c, prior) := (env.contract, ctx.supersededRecord);
    if d.NotApplicable? then r[SupersedesHash] == Null
    else
      && r[SupersedesHash] != Null
      && match d
         case SupersededMissing => !prior.Obj? && !prior.Foreign?
         case SupersededMismatch => Peek(c, prior, RecordHash) != r[SupersedesHash]
         case SupersededOtherId => Peek(c, prior, Id) != r[Id]
         case SupersededOtherApp => Peek(c, prior, AppId) != r[AppId]
         case SupersededIsAttestation => Peek(c, prior, SupersedesHash).Str?
         case SupersededSchemaInvalid => Parse(c, prior).None?
         case ThrewTypeError =>
           Parse(c, prior).Some? && (AttestedBodyOf(env, Parse(c, prior).value).TypeError? || AttestedBodyOf(env, r).TypeError?)
         case BodyMismatch => Parse(c, prior).Some? && AttestedBodyOf(env, Parse(c, prior).value) != AttestedBodyOf(env, r)
         case SupersededNotVerified => Attests(env, r, prior) && ctx.verifySuperseded == Bool(false)
         case SupersededVerified => Attests(env, r, prior) && OriginalStands(env, prior, ring, Inherited(c, r, ctx, heap))
         case SupersededInvalid(failed) =>
           && Attests(env, r, prior) && prior.Obj? && !OriginalStands(env, prior, ring, Inherited(c, r, ctx, heap))
           && ListsFailures(env, prior, ring, Inherited(c, r, ctx, heap), heap, failed)
         case _ => false
  }

  lemma StrangerClaims(env: Env, r: AuditRecord, ring: KeyRing, ctx: Context, heap: Contexts)
    requires !r[SupersedesHash].Null? && Stranger(env.contract, r, ctx.supersededRecord).Some?
    ensures var d := Stranger(env.contract, r, ctx.supersededRecord).value;
            SupersedesClaim(env, r, ring, ctx, heap, d) && !Approves(d)
  {
    hide Parse, Peek, OriginalStands, Attests;
  }

  lemma UnfaithfulClaims(env: Env, r: AuditRecord, ring: KeyRing, ctx: Context, heap: Contexts)
    requires !r[SupersedesHash].Null? && Parse(env.contract, ctx.supersededRecord).Some?
    requires Unfaithful(env, r, ctx.supersededRecord).Some?
    ensures var d := Unfaithful(env, r, ctx.supersededRecord).value;
            SupersedesClaim(env, r, ring, ctx, heap, d) && !Approves(d)
  {
    hide Parse, Peek, OriginalStands, Attests, AttestedBodyOf;
  }

  lemma NestedClaims(env: Env, r: AuditRecord, ring: KeyRing, ctx: Context, heap: Contexts)
    requires Lawful(env.contract) && SupersedesFirst(env, r, ctx, heap).Recurse?
    ensures var step := SupersedesFirst(env, r, ctx, heap);
            var last := SupersedesLast(VerifyWith(env, step.superseded, ring, step.context, heap));
            SupersedesClaim(env, r, ring, ctx, heap, last.detail) && (last.ok <==> Approves(last.detail))
  {
    hide Lawful, Parse, OriginalStands, VerifyWith, Stranger, Unfaithful, Attests, Level, ListsFailures,
      FailedNames;
    var (prior, inherited) := (ctx.supersededRecord, Inherited(env.contract, r, ctx, heap));
    AttestsDecided(env, r, prior);
    RecursionEnds(env, r, ctx, heap);
    NoStranger(env.contract, r, prior);
    OriginalDecided(env, prior, ring, inherited, heap);
    FailuresListed(env, prior, ring, inherited, heap);
  }

  lemma SettledClaims(env: Env, r: AuditRecord, ring: KeyRing, ctx: Context, heap: Contexts)
    requires Lawful(env.contract) && SupersedesFirst(env, r, ctx, heap).Settle?
    ensures var check := SupersedesFirst(env, r, ctx, heap).check;
            SupersedesClaim(env, r, ring, ctx, heap, check.detail) && (check.ok <==> Approves(check.detail))
  {
    hide Lawful, Parse, OriginalStands, Stranger, Unfaithful, Attests, ListsFailures, NestedContext;
    if !r[SupersedesHash].Null? {
      if Stranger(env.contract, r, ctx.supersededRecord).Some? {
        StrangerClaims(env, r, ring, ctx, heap);
      } else {
        NoStranger(env.contract, r, ctx.supersededRecord);
        AttestsDecided(env, r, ctx.supersededRecord);
        if Unfaithful(env, r, ctx.supersededRecord).Some? {
          UnfaithfulClaims(env, r, ring, ctx, heap);
        }
      }
    }
  }

  /** What a detail claims, under the check that reports it. */
  ghost predicate Claims(env: Env, raw: Value, r: AuditRecord, ring: KeyRing, ctx: Context, heap: Contexts, name: CheckName, d: Detail)
    requires raw.Obj?
  {
    match name
    case SchemaCheck => d.NoDetail?
    case RecordHashCheck => HashClaim(env, raw, r, d)
    case ChainCheck => ChainClaim(env, r, ctx.prevRecord, d)
    case SignatureCheck => SignatureClaim(r, ring, d)
    case CreativeHashCheck => ContentClaim(env.contract, r, ctx.storedCreativeHash, d)
    case DisclosureCheck => DisclosureClaim(env.contract, r, d)
    case SeparationCheck => SeparationClaim(env.contract, r, ctx.supersededBy, d)
    case SupersedesCheck => SupersedesClaim(env, r, ring, ctx, heap, d)
  }

  /** Whatever detail is reported is so, and it alone tells whether the check passed. */
  lemma DetailsAreTrue(env: Env, raw: Value, ring: KeyRing, ctx: Context, heap: Contexts, i: nat)
    requires Lawful(env.contract) && raw.Obj? && Parse(env.contract, raw).Some? && i < 8
    ensures var response := VerifyWith(env, raw, ring, ctx, heap);
            && |response.checks| == 8
            && Claims(env, raw, Parse(env.contract, raw).value, ring, ctx, heap, CHECK_ORDER[i], response.checks[i].detail)
            && (response.checks[i].ok <==> Approves(response.checks[i].detail))
  {
    hide Lawful, Parse, OwnChecks, SupersedesFirst, SupersedesLast, VerifyWith, Claims, Approves;
    var r := Parse(env.contract, raw).value;
    var last := ResponseIs(env, raw, ring, ctx, heap);
    SevenOwn(env, raw, r, ring, ctx);
    LastOfAll(OwnChecks(env, raw, r, ring, ctx), last);
    if i < 7 {
      OwnDetails(env, raw, r, ring, ctx, heap, i);
    } else {
      LastDetail(env, raw, r, ring, ctx, heap, last);
    }
  }

  lemma SevenOwn(env: Env, raw: Value, r: AuditRecord, ring: KeyRing, ctx: Context)
    requires raw.Obj?
    ensures |OwnChecks(env, raw, r, ring, ctx)| == 7
  {
    hide CheckRecordHash, CheckChain, CheckSignature, CheckCreativeHash, CheckDisclosure, CheckSeparation;
  }

  lemma OwnDetails(env: Env, raw: Value, r: AuditRecord, ring: KeyRing, ctx: Context, heap: Contexts, i: nat)
    requires raw.Obj? && i < 7
    ensures var own := OwnChecks(env, raw, r, ring, ctx);
            && |own| == 7
            && Claims(env, raw, r, ring, ctx, heap, CHECK_ORDER[i], own[i].detail) && (own[i].ok <==> Approves(own[i].detail))
  {
    hide CheckRecordHash, CheckChain, CheckSignature, CheckCreativeHash, CheckDisclosure, CheckSeparation,
      HashClaim, ChainClaim, SignatureClaim, ContentClaim, DisclosureClaim, SeparationClaim, SupersedesClaim;
    HashClaims(env, raw, r);
    ChainClaims(env, r, ctx.prevRecord);
    SignatureClaims(env, r, ring);
    ContentClaims(env.contract, r, ctx.storedCreativeHash);
    SeparationClaims(env.contract, r, ctx.supersededBy);
  }

  lemma LastDetail(env: Env, raw: Value, r: AuditRecord, ring: KeyRing, ctx: Context, heap: Contexts, last: Check)
    requires Lawful(env.contract) && raw.Obj?
    requires var step := SupersedesFirst(env, r, ctx, heap);
             last == if step.Settle? then step.check
                     else SupersedesLast(VerifyWith(env, step.superseded, ring, step.context, heap))
    ensures Claims(env, raw, r, ring, ctx, heap, SupersedesCheck, last.detail) && (last.ok <==> Approves(last.detail))
  {
    hide Lawful, Parse, OwnChecks, SupersedesFirst, SupersedesLast, VerifyWith, SupersedesClaim, Approves;
    if SupersedesFirst(env, r, ctx, heap).Settle? {
      SettledClaims(env, r, ring, ctx, heap);
    } else {
      NestedClaims(env, r, ring, ctx, heap);
    }
  }
}
