/**
 packages/core/src/audit/verify.ts, verify-checks.ts and verify-supersedes.ts: the eight checks,
 in order, over a document as loaded.

 Contexts live in a heap and refer to each other by position, so a context can be nested to any
 depth and can even contain itself; recursion can stop only because the checks stop it.
 */
module Verify {
  import opened Options
  import opened Sequences
  import opened Utf16
  import opened CanonicalJson
  import opened AuditRecords
  import opened Chain

  datatype CheckName =
    SchemaCheck | RecordHashCheck | ChainCheck | SignatureCheck | CreativeHashCheck | DisclosureCheck
    | SeparationCheck | SupersedesCheck

  /** VerifyCheckName.options. */
  const CHECK_ORDER: seq<CheckName> := [
    SchemaCheck, RecordHashCheck, ChainCheck, SignatureCheck, CreativeHashCheck, DisclosureCheck, SeparationCheck,
    SupersedesCheck]

  function OrderOf(name: CheckName): nat {
    match name
    case SchemaCheck => 0
    case RecordHashCheck => 1
    case ChainCheck => 2
    case SignatureCheck => 3
    case CreativeHashCheck => 4
    case DisclosureCheck => 5
    case SeparationCheck => 6
    case SupersedesCheck => 7
  }

  /** VERIFY_DETAIL, plus the details that carry a value. */
  datatype Detail =
    | NoDetail | SkippedSchemaInvalid | SchemaIssues | NotApplicable | HashMismatch | GenesisOk | PrunedOk
    | PrunedBeforeCutoff | GenesisWithPrevious | PreviousMissing | PreviousMismatch | PreviousOtherApp
    | UnknownKeyId | BadSignature | KeyNamed(key_id: JsString) | StoredCreativeMissing | CreativeMismatch
    | LabelEmpty | WrongPosition | WrongStyle | NotAttested | AttestationIncomplete | AttestedBySuperseding
    | SupersededMissing | SupersededMismatch | SupersededOtherId | SupersededOtherApp | SupersededIsAttestation
    | SupersededSchemaInvalid | BodyMismatch | SupersededNotVerified | SupersededVerified
    | SupersededInvalid(failed: seq<CheckName>) | ThrewTypeError

  datatype Check = Check(name: CheckName, ok: bool, detail: Detail)

  datatype Response = Response(valid: bool, checks: seq<Check>)

  /** key_id -> public key, every key ever used. */
  type KeyRing = map<JsString, JsString>

  /** VerifyContext; `superseded` is a position in the heap of contexts. */
  datatype Context = Context(
    prevRecord: Value, storedCreativeHash: Value, supersededBy: Value, supersededRecord: Value,
    verifySuperseded: Value, superseded: Option<nat>)

  const EMPTY_CONTEXT := Context(Undefined, Undefined, Undefined, Undefined, Undefined, None)

  type Contexts = seq<Context>

  function Pass(name: CheckName, detail: Detail): Check {
    Check(name, true, detail)
  }

  function Fail(name: CheckName, detail: Detail): Check {
    Check(name, false, detail)
  }

  predicate IsAbsent(v: Value) {
    v.Null? || v.Undefined?
  }

  predicate IsPlainObject(v: Value) {
    v.Obj? || v.Foreign?
  }

  /** A field of a value that may or may not be a record. */
  function Peek(c: Contract, v: Value, f: Field): Value {
    if v.Obj? then Get(c, v.members, f) else Undefined
  }

  // ---------------------------------------------------------------------------- verify-checks

  function CheckRecordHash(env: Env, raw: Value, r: AuditRecord): Check
    requires raw.Obj?
  {
    var computed := ComputeRecordHash(env, raw);
    if computed.TypeError? then Fail(RecordHashCheck, ThrewTypeError)
    else if Str(computed.text) == r[RecordHash] then Pass(RecordHashCheck, NoDetail)
    else Fail(RecordHashCheck, HashMismatch)
  }

  /** Retention's stand-in for a deleted predecessor: any object whose `pruned` is true. */
  predicate IsPruned(c: Contract, v: Value) {
    IsPlainObject(v) && Prop(c, v, PrunedKey) == Bool(true)
  }

  function DateOf(env: Env, v: Value): Option<int> {
    if v.Str? then env.dateParse(v.s) else None
  }

  /** String(v): a string is itself, anything else as the environment prints it; None: it throws. */
  function StringOf(env: Env, v: Value): Option<JsString> {
    if v.Str? then Some(v.s) else env.textOf(v)
  }

  /** Date.parse(String(previous.retain_cutoff)), when that is a date at all. */
  function CutoffOf(env: Env, previous: Value): Option<int> {
    var text := StringOf(env, Prop(env.contract, previous, RetainCutoffKey));
    if text.Some? then env.dateParse(text.value) else None
  }

  function CheckChain(env: Env, r: AuditRecord, previous: Value): Check {
    if r[PrevHash] == Said(env.contract, Genesis) then
      if IsAbsent(previous) then Pass(ChainCheck, GenesisOk) else Fail(ChainCheck, GenesisWithPrevious)
    else if IsPruned(env.contract, previous) then
      var (cutoff, ts) := (CutoffOf(env, previous), DateOf(env, r[Ts]));
      if cutoff.Some? && ts.Some? && ts.value >= cutoff.value then Pass(ChainCheck, PrunedOk)
      else if StringOf(env, Prop(env.contract, previous, RetainCutoffKey)).None? then Fail(ChainCheck, ThrewTypeError)
      else Fail(ChainCheck, PrunedBeforeCutoff)
    else if !IsPlainObject(previous) then Fail(ChainCheck, PreviousMissing)
    else if Peek(env.contract, previous, RecordHash) != r[PrevHash] then Fail(ChainCheck, PreviousMismatch)
    else if Peek(env.contract, previous, AppId) != r[AppId] then Fail(ChainCheck, PreviousOtherApp)
    else Pass(ChainCheck, NoDetail)
  }

  function CheckSignature(env: Env, r: AuditRecord, ring: KeyRing): Check {
    var (hash, signature, key) := (r[RecordHash], r[Signature], r[KeyId]);
    if !key.Str? || key.s !in ring then Fail(SignatureCheck, UnknownKeyId)
    else if hash.Str? && signature.Str? && env.crypto.verifies(hash.s, signature.s, ring[key.s]) then
      Pass(SignatureCheck, KeyNamed(key.s))
    else Fail(SignatureCheck, BadSignature)
  }

  function CheckCreativeHash(c: Contract, r: AuditRecord, stored: Value): Check {
    if r[Creative].Null? then Pass(CreativeHashCheck, NotApplicable)
    else if !stored.Str? || stored.s == [] then Fail(CreativeHashCheck, StoredCreativeMissing)
    else if stored == Prop(c, r[Creative], ContentHashKey) then Pass(CreativeHashCheck, NoDetail)
    else Fail(CreativeHashCheck, CreativeMismatch)
  }

  /** label.trim().length === 0: every unit is white space. */
  predicate AllBlank(s: JsString) {
    forall i :: 0 <= i < |s| ==> IsWhite(s[i])
  }

  function CheckDisclosure(c: Contract, r: AuditRecord): Check {
    var d := r[DisclosureBlock];
    var caption := Prop(c, d, LabelKey);
    if !caption.Str? || AllBlank(caption.s) then Fail(DisclosureCheck, LabelEmpty)
    else if Prop(c, d, PositionKey) != Said(c, AfterAnswer) then Fail(DisclosureCheck, WrongPosition)
    else if Prop(c, d, StyleKey) != Said(c, SeparateBlock) then Fail(DisclosureCheck, WrongStyle)
    else Pass(DisclosureCheck, NoDetail)
  }

  predicate AttestsRecord(c: Contract, r: AuditRecord, next: Value) {
    && IsPlainObject(next)
    && Peek(c, next, SupersedesHash) == r[RecordHash]
    && Peek(c, next, Id) == r[Id]
    && Peek(c, next, AppId) == r[AppId]
    && Peek(c, next, SeparationAttestation) == Bool(true)
    && Peek(c, next, ModelOutputHash).Str?
    && Peek(c, next, AttestedAt).Str?
  }

  function CheckSeparation(c: Contract, r: AuditRecord, supersededBy: Value): Check {
    if IsAttested(r) then Pass(SeparationCheck, NoDetail)
    else if !IsUnattested(r) then Fail(SeparationCheck, AttestationIncomplete)
    else if AttestsRecord(c, r, supersededBy) then Pass(SeparationCheck, AttestedBySuperseding)
    else if r[Decided] == Said(c, Suppress) then Pass(SeparationCheck, NotApplicable)
    else Fail(SeparationCheck, NotAttested)
  }

  // ------------------------------------------------------------------------ verify-supersedes

  /** What attestation and chaining may change between two versions. */
  predicate IsAttestationField(f: Field) {
    || f.ModelOutputHash? || f.SeparationAttestation? || f.AttestedAt? || f.SupersedesHash? || f.PrevHash?
    || f.KeyId? || f.RecordHash? || f.Signature?
  }

  /** The eight attestation fields are the last ones declared. */
  const BODY_FIELDS := 17

  /** attestedBodyOf. */
  function AttestedBodyOf(env: Env, r: AuditRecord): Canonicalized {
    env.canonicalize(FieldsDocument(env.contract, r, BODY_FIELDS))
  }

  function ContextAt(heap: Contexts, at: Option<nat>): Context {
    if at.Some? && at.value < |heap| then heap[at.value] else EMPTY_CONTEXT
  }

  /** The superseded record's own context, told which record attests it. */
  function NestedContext(raw: Value, ctx: Context, heap: Contexts): Context {
    var nested := ContextAt(heap, ctx.superseded);
    nested.(storedCreativeHash :=
              if nested.storedCreativeHash.Undefined? then ctx.storedCreativeHash else nested.storedCreativeHash,
            supersededBy := raw)
  }

  /** checkSupersedes up to the point where it either answers or verifies the superseded record. */
  datatype SupersedesStep = Settle(check: Check) | Recurse(superseded: Value, context: Context)

  function SupersedesFirst(env: Env, r: AuditRecord, ctx: Context, heap: Contexts): SupersedesStep {
    var (c, prior) := (env.contract, ctx.supersededRecord);
    if r[SupersedesHash].Null? then Settle(Pass(SupersedesCheck, NotApplicable))
    else
      var stranger := Stranger(c, r, prior);
      if stranger.Some? then Settle(Fail(SupersedesCheck, stranger.value))
      else
        var unfaithful := Unfaithful(env, r, prior);
        if unfaithful.Some? then Settle(Fail(SupersedesCheck, unfaithful.value))
        else if ctx.verifySuperseded == Bool(false) then Settle(Pass(SupersedesCheck, SupersededNotVerified))
        else Recurse(prior, NestedContext(Document(c, r), ctx, heap))
  }

  /** Why `prior` cannot be the record `r` claims to supersede. */
  function Stranger(c: Contract, r: AuditRecord, prior: Value): Option<Detail> {
    if !IsPlainObject(prior) then Some(SupersededMissing)
    else if Peek(c, prior, RecordHash) != r[SupersedesHash] then Some(SupersededMismatch)
    else if Peek(c, prior, Id) != r[Id] then Some(SupersededOtherId)
    else if Peek(c, prior, AppId) != r[AppId] then Some(SupersededOtherApp)
    else if Peek(c, prior, SupersedesHash).Str? then Some(SupersededIsAttestation)
    else if Parse(c, prior).None? then Some(SupersededSchemaInvalid)
    else None
  }

  /** Why `r` is not a faithful copy of `prior`. */
  function Unfaithful(env: Env, r: AuditRecord, prior: Value): Option<Detail>
    requires Parse(env.contract, prior).Some?
  {
    var (theirs, ours) := (AttestedBodyOf(env, Parse(env.contract, prior).value), AttestedBodyOf(env, r));
    if theirs.TypeError? || ours.TypeError? then Some(ThrewTypeError)
    else if theirs != ours then Some(BodyMismatch)
    else None
  }

  function FailedNames(checks: seq<Check>): seq<CheckName> {
    if checks == [] then []
    else (if checks[0].ok then [] else [checks[0].name]) + FailedNames(checks[1..])
  }

  function SupersedesLast(nested: Response): Check {
    if nested.valid then Pass(SupersedesCheck, SupersededVerified)
    else Fail(SupersedesCheck, SupersededInvalid(FailedNames(nested.checks)))
  }

  // --------------------------------------------------------------------------------- verify.ts

  function SchemaFailed(): Response {
    Response(false, [
      Fail(SchemaCheck, SchemaIssues), Fail(RecordHashCheck, SkippedSchemaInvalid),
      Fail(ChainCheck, SkippedSchemaInvalid), Fail(SignatureCheck, SkippedSchemaInvalid),
      Fail(CreativeHashCheck, SkippedSchemaInvalid), Fail(DisclosureCheck, SkippedSchemaInvalid),
      Fail(SeparationCheck, SkippedSchemaInvalid), Fail(SupersedesCheck, SkippedSchemaInvalid)])
  }

  /** The seven checks that look at one record only. */
  function OwnChecks(env: Env, raw: Value, r: AuditRecord, ring: KeyRing, ctx: Context): seq<Check>
    requires raw.Obj?
  {
    [Pass(SchemaCheck, NoDetail), CheckRecordHash(env, raw, r), CheckChain(env, r, ctx.prevRecord),
     CheckSignature(env, r, ring), CheckCreativeHash(env.contract, r, ctx.storedCreativeHash), CheckDisclosure(env.contract, r),
     CheckSeparation(env.contract, r, ctx.supersededBy)]
  }

  function Respond(checks: seq<Check>): Response {
    Response(forall i :: 0 <= i < |checks| ==> checks[i].ok, checks)
  }

  /** How deep the supersedes check can still go: an attestation may recurse, an original cannot. */
  function Level(c: Contract, raw: Value): nat {
    var parsed := Parse(c, raw);
    if parsed.Some? && !parsed.value[SupersedesHash].Null? then 1 else 0
  }

  function VerifyWith(env: Env, raw: Value, ring: KeyRing, ctx: Context, heap: Contexts): Response
    requires Lawful(env.contract)
    decreases Level(env.contract, raw)
  {
    var c := env.contract;
    var parsed := Parse(c, raw);
    if parsed.None? then SchemaFailed()
    else
      var r := parsed.value;
      var own := OwnChecks(env, raw, r, ring, ctx);
      var step := SupersedesFirst(env, r, ctx, heap);
      if step.Settle? then Respond(own + [step.check])
      else
        RecursionEnds(env, r, ctx, heap);
        Respond(own + [SupersedesLast(VerifyWith(env, step.superseded, ring, step.context, heap))])
  }

  lemma OriginalHasNoPrior(c: Contract, r: AuditRecord, prior: Value)
    requires Lawful(c) && Stranger(c, r, prior).None?
    ensures Parse(c, prior).Some? && Parse(c, prior).value[SupersedesHash].Null?
  {
    ParsedField(c, prior, SupersedesHash);
  }

  lemma RecursesIntoPrior(env: Env, r: AuditRecord, ctx: Context, heap: Contexts)
    requires SupersedesFirst(env, r, ctx, heap).Recurse?
    ensures SupersedesFirst(env, r, ctx, heap).superseded == ctx.supersededRecord
    ensures !r[SupersedesHash].Null? && Stranger(env.contract, r, ctx.supersededRecord).None?
  {
  }

  /** Whatever is verified recursively is an original, whatever context it is verified under. */
  lemma RecursionEnds(env: Env, r: AuditRecord, ctx: Context, heap: Contexts)
    requires Lawful(env.contract) && SupersedesFirst(env, r, ctx, heap).Recurse?
    ensures !r[SupersedesHash].Null? && Level(env.contract, SupersedesFirst(env, r, ctx, heap).superseded) == 0
  {
    RecursesIntoPrior(env, r, ctx, heap);
    OriginalHasNoPrior(env.contract, r, ctx.supersededRecord);
  }
}
