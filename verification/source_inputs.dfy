/**
 What the evaluate pipeline hands to the record builder is good input for the chain: the creative and
 the disclosure it builds are spelled as packages/schemas/src/audit-record.ts wants them.
 */
module SourceInputs {
  import opened CanonicalJson
  import opened AuditRecords
  import opened AuditContract
  import opened Chain
  import opened Verify
  import opened RecordBuilder
  import opened ChainStore
  import opened ChainRuns

  /** A selected candidate as the demand schema types it. */
  predicate TypedCandidate(candidate: Candidate) {
    HasPrefix(Str(candidate.id), "cr_") && candidate.content.advertiser != [] && candidate.content.advertiser_domain != []
  }

  /** The fields the builder copies, typed; the disclosure and the candidate as their own schemas have them. */
  ghost predicate TypedInput(env: Env, input: Input) {
    && (forall f: Field {:trigger IsAttestationField(f)} ::
          !IsAttestationField(f) && !f.Decided? && !f.Creative? && !f.DisclosureBlock? ==>
            SettledAndUsable(env.contract, f, BuildAuditBody(env, input)[f]))
    && Str(input.disclosure.position) == Said(env.contract, AfterAnswer)
    && Str(input.disclosure.style) == Said(env.contract, SeparateBlock)
    && var outcome := Decide(env.contract, input.policyResult, input.mediation);
       outcome.Served? ==> TypedCandidate(outcome.candidate)
  }

  lemma AcceptedIsUsable(p: Patterns, f: Field, v: Value)
    requires Idempotent(p) && FieldOk(p, f, v) && Strip(p, f, v) == v
    ensures SettledAndUsable(SourceContract(p), f, v)
  {
    FieldIsUsable(p, f, v);
  }

  lemma DecidedFits(p: Patterns, env: Env, input: Input)
    requires env.contract == SourceContract(p) && Idempotent(p)
    ensures SettledAndUsable(env.contract, Decided, BuildAuditBody(env, input)[Decided])
  {
    hide SettledAndUsable;
    BodyDecided(env, input);
    AcceptedIsUsable(p, Decided, BuildAuditBody(env, input)[Decided]);
  }

  lemma CreativeFits(p: Patterns, env: Env, input: Input)
    requires env.contract == SourceContract(p) && Idempotent(p) && Sound(env) && TypedInput(env, input)
    ensures SettledAndUsable(env.contract, Creative, BuildAuditBody(env, input)[Creative])
  {
    hide SettledAndUsable, CreativeValue, Lawful;
    BuiltCreative(env, input);
    var outcome := Decide(env.contract, input.policyResult, input.mediation);
    if outcome.Served? {
      ContentHashed(env, outcome.candidate.content);
      BuiltCreativeIsSettled(p, env, outcome.candidate);
    }
    AcceptedIsUsable(p, Creative, BuildAuditBody(env, input)[Creative]);
  }

  lemma DisclosureFits(p: Patterns, env: Env, input: Input)
    requires env.contract == SourceContract(p) && Idempotent(p) && TypedInput(env, input)
    requires !AllBlank(input.disclosure.labelText)
    ensures SettledAndUsable(env.contract, DisclosureBlock, BuildAuditBody(env, input)[DisclosureBlock])
  {
    hide SettledAndUsable;
    BuiltDisclosureIsSettled(p, input.disclosure);
    AcceptedIsUsable(p, DisclosureBlock, DisclosureValue(env.contract, input.disclosure));
  }

  /**
   With typed fields, a label that is not blank and a candidate the catalog holds as it was selected,
   an input is good: what both content checks need is built, not supposed.
   */
  lemma SourceInputIsGood(p: Patterns, env: Env, catalog: Catalog, app: Value, input: Input)
    requires env.contract == SourceContract(p) && Idempotent(p) && Sound(env)
    requires TypedInput(env, input) && Str(input.app_id) == app
    requires !AllBlank(input.disclosure.labelText) && StoredAsSelected(env.contract, catalog, input)
    ensures GoodInput(env, catalog, app, input)
  {
    hide SettledAndUsable, Lawful, BuildAuditBody, AllBlank, StoredAsSelected, Sound;
    DecidedFits(p, env, input);
    CreativeFits(p, env, input);
    DisclosureFits(p, env, input);
  }
}
