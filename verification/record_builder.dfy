/**
 packages/core/src/audit/record.ts: from what the pipeline produced to a chained, signed record.
 Identity hashes and the copies of nested values are taken as given.
 */
module RecordBuilder {
  import opened Options
  import opened Utf16
  import opened CanonicalJson
  import opened AuditRecords
  import opened Chain

  datatype CreativeContent = CreativeContent(
    advertiser: JsString, advertiser_domain: JsString, headline: JsString, body: JsString, cta: JsString,
    url_template: JsString)

  datatype Candidate = Candidate(id: JsString, content: CreativeContent)

  datatype Mediation = Mediation(selected: Option<Candidate>, trace: Value)

  datatype PolicyResult = PolicyResult(allowed: bool, reason: Option<JsString>, decisions: Value)

  datatype Disclosure = Disclosure(labelText: JsString, position: JsString, style: JsString)

  datatype Input = Input(
    id: JsString, app_id: JsString, conversation_id_hash: JsString, user_hash: Option<JsString>,
    turn_id: JsString, ts: JsString, surface: Value, classification: Value, policy_version: Value,
    policy_hash: JsString, disclosure: Disclosure, policyResult: PolicyResult, override_rejected: Value,
    mediation: Option<Mediation>, emptyTrace: Value)

  /** creativeContent: the six fields that decide what a user sees and where a click goes. */
  function ContentValue(c: Contract, content: CreativeContent): Value {
    Obj([
      Member(c.word(AdvertiserKey), Str(content.advertiser)),
      Member(c.word(AdvertiserDomainKey), Str(content.advertiser_domain)),
      Member(c.word(HeadlineKey), Str(content.headline)), Member(c.word(BodyKey), Str(content.body)),
      Member(c.word(CtaKey), Str(content.cta)), Member(c.word(UrlTemplateKey), Str(content.url_template))])
  }

  function ContentText(env: Env, content: CreativeContent): JsString {
    var canonical := env.canonicalize(ContentValue(env.contract, content));
    if canonical.Text? then canonical.text else []
  }

  /** creativeContentHash. */
  function ContentHash(env: Env, content: CreativeContent): JsString {
    env.crypto.sha256(ContentText(env, content))
  }

  function CreativeValue(env: Env, candidate: Candidate): Value {
    var c := env.contract;
    Obj([Member(c.word(CreativeIdKey), Str(candidate.id)),
         Member(c.word(AdvertiserKey), Str(candidate.content.advertiser)),
         Member(c.word(AdvertiserDomainKey), Str(candidate.content.advertiser_domain)),
         Member(c.word(ContentHashKey), Str(ContentHash(env, candidate.content)))])
  }

  function DisclosureValue(c: Contract, d: Disclosure): Value {
    Obj([Member(c.word(LabelKey), Str(d.labelText)), Member(c.word(PositionKey), Str(d.position)),
         Member(c.word(StyleKey), Str(d.style))])
  }

  datatype Outcome = Served(candidate: Candidate) | Suppressed(reason: Value)

  /** decide: a serve needs an allowing policy and a selected candidate; anything else suppresses. */
  function Decide(c: Contract, policy: PolicyResult, mediation: Option<Mediation>): Outcome {
    if !policy.allowed then
      Suppressed(if policy.reason.Some? then Str(policy.reason.value) else Said(c, ErrorReason))
    else if mediation.None? || mediation.value.selected.None? then Suppressed(Said(c, NoFillReason))
    else Served(mediation.value.selected.value)
  }

  function NullableText(t: Option<JsString>): Value {
    if t.Some? then Str(t.value) else Null
  }

  function BodyValue(env: Env, input: Input, f: Field): Value {
    var c := env.contract;
    var outcome := Decide(c, input.policyResult, input.mediation);
    match f
    case Id => Str(input.id)
    case AppId => Str(input.app_id)
    case ConversationIdHash => Str(input.conversation_id_hash)
    case UserHash => NullableText(input.user_hash)
    case TurnId => Str(input.turn_id)
    case Ts => Str(input.ts)
    case Surface => input.surface
    case Classification => input.classification
    case PolicyVersion => input.policy_version
    case PolicyHash => Str(input.policy_hash)
    case PolicyDecisions => input.policyResult.decisions
    case OverrideRejected => input.override_rejected
    case Decided => Said(c, if outcome.Served? then Serve else Suppress)
    case Reason => if outcome.Served? then Null else outcome.reason
    case Demand => if input.mediation.None? then input.emptyTrace else input.mediation.value.trace
    case Creative => if outcome.Served? then CreativeValue(env, outcome.candidate) else Null
    case DisclosureBlock => DisclosureValue(c, input.disclosure)
    case SeparationAttestation => Bool(false)
    case _ => Null
  }

  /** buildAuditBody: every field but the four that chaining and signing add. */
  function BuildAuditBody(env: Env, input: Input): AuditRecord {
    map f: Field | true :: BodyValue(env, input, f)
  }

  function BuildAuditRecord(env: Env, input: Input, prevHash: Value, signing: SigningKey): Option<AuditRecord> {
    SignRecord(env, BuildAuditBody(env, input)[PrevHash := prevHash], signing)
  }

  /** The four fields the outcome decides. */
  lemma BodyDecided(env: Env, input: Input)
    ensures var (c, body, outcome) := (env.contract, BuildAuditBody(env, input), Decide(env.contract, input.policyResult, input.mediation));
            && body[Decided] == Said(c, if outcome.Served? then Serve else Suppress)
            && (body[Creative].Null? <==> outcome.Suppressed?)
            && body[Reason] == if outcome.Served? then Null else outcome.reason
  {
  }

  lemma BuiltCreative(env: Env, input: Input)
    ensures BuildAuditBody(env, input)[Creative]
         == match Decide(env.contract, input.policyResult, input.mediation)
            case Served(candidate) => CreativeValue(env, candidate)
            case Suppressed(_) => Null
  {
    hide CreativeValue;
  }

  lemma ContentHashed(env: Env, content: CreativeContent)
    requires Sound(env)
    ensures env.contract.isHash(ContentHash(env, content)) && ContentHash(env, content) != []
  {
    var text: JsString :| ContentHash(env, content) == env.crypto.sha256(text);
  }

  lemma OutcomeDecides(c: Contract, policy: PolicyResult, mediation: Option<Mediation>)
    ensures Decide(c, policy, mediation).Served? <==> policy.allowed && mediation.Some? && mediation.value.selected.Some?
    ensures Decide(c, policy, mediation).Suppressed? ==> Decide(c, policy, mediation).reason.Str?
  {
  }

  /** A new record has not been attested. */
  lemma BodyUnattested(env: Env, input: Input)
    ensures IsUnattested(BuildAuditBody(env, input))
  {
    hide Said;
  }

  /** Fail closed, both ways: a record serves exactly when policy and mediation both agreed. */
  lemma ServesOnlyWhenBothAgree(env: Env, input: Input)
    requires Lawful(env.contract)
    ensures var body := BuildAuditBody(env, input);
            && (body[Decided] == Said(env.contract, Serve) <==>
                  input.policyResult.allowed && input.mediation.Some? && input.mediation.value.selected.Some?)
            && Refined(env.contract, body)
            && (body[Decided] == Said(env.contract, Suppress) <==> body[Creative].Null?)
  {
    BodyDecided(env, input);
    OutcomeDecides(env.contract, input.policyResult, input.mediation);
  }
}
