/**
 What a built record says: every input is where the record says it is, and the hash it carries of a
 creative's content binds that content.
 */
module BuiltRecords {
  import opened Options
  import opened Utf16
  import opened CanonicalJson
  import opened CanonicalJsonLaws
  import opened AuditRecords
  import opened Chain
  import opened VerifyLaws
  import opened RecordBuilder
  import opened AuditContract
  import opened ChainProgress

  const CONTENT_WORDS := [AdvertiserKey, AdvertiserDomainKey, HeadlineKey, BodyKey, CtaKey, UrlTemplateKey]

  predicate Apart(c: Contract, words: seq<Word>) {
    forall i, j :: 0 <= i < j < |words| ==> c.word(words[i]) != c.word(words[j])
  }

  /** Keys that are written side by side differ. */
  predicate NestedKeysApart(c: Contract) {
    Apart(c, CONTENT_WORDS) && Apart(c, CREATIVE_WORDS) && Apart(c, DISCLOSURE_WORDS)
  }

  lemma SourceNestedKeys(p: Patterns)
    ensures NestedKeysApart(SourceContract(p))
  {
    hide FieldOf, KeyOf, FieldOk, Strip, IsSha256, WordText;
    var c := SourceContract(p);
    WordsTellApart();
    ContentWordsTellApart();
    assert forall w :: c.word(w) == Ascii(WordText(w));
    hide SourceContract;
  }

  lemma ContentWordsTellApart()
    ensures DistinctWords(CONTENT_WORDS)
  {
    forall i, j | 0 <= i < j < 6
      ensures Ascii(WordText(CONTENT_WORDS[i])) != Ascii(WordText(CONTENT_WORDS[j]))
    {
      assert |WordText(CONTENT_WORDS[i])| != |WordText(CONTENT_WORDS[j])|;
    }
  }

  // -------------------------------------------------------------------------------- the content

  function ContentTexts(content: CreativeContent): (t: seq<JsString>)
    ensures |t| == 6
  {
    [content.advertiser, content.advertiser_domain, content.headline, content.body, content.cta, content.url_template]
  }

  lemma ContentMembers(c: Contract, content: CreativeContent)
    ensures ContentValue(c, content).Obj? && |ContentValue(c, content).members| == 6
    ensures forall i :: 0 <= i < 6 ==>
              ContentValue(c, content).members[i] == Member(c.word(CONTENT_WORDS[i]), Str(ContentTexts(content)[i]))
  {
  }

  lemma ContentIsJson(c: Contract, content: CreativeContent)
    requires Apart(c, CONTENT_WORDS)
    ensures Accepts(ContentValue(c, content)) && WellFormed(ContentValue(c, content))
  {
    hide ContentValue, ContentTexts;
    ContentMembers(c, content);
    var m := ContentValue(c, content).members;
    forall i | 0 <= i < |m| ensures Accepts(m[i].value) && WellFormed(m[i].value) {
      assert m[i].value == Str(ContentTexts(content)[i]);
    }
  }

  lemma SameContent(c: Contract, a: CreativeContent, b: CreativeContent)
    requires Same(ContentValue(c, a), ContentValue(c, b))
    ensures a == b
  {
    hide ContentValue;
    ContentMembers(c, a);
    ContentMembers(c, b);
    var (m, n) := (ContentValue(c, a).members, ContentValue(c, b).members);
    forall i | 0 <= i < 6 ensures ContentTexts(a)[i] == ContentTexts(b)[i] {
      assert Paired(m[i], n[i]);
      assert Same(m[i].value, n[i].value);
    }
    TextsAreContent(a, b);
  }

  lemma TextsAreContent(a: CreativeContent, b: CreativeContent)
    requires forall i :: 0 <= i < 6 ==> ContentTexts(a)[i] == ContentTexts(b)[i]
    ensures a == b
  {
    assert ContentTexts(a)[0] == ContentTexts(b)[0] && ContentTexts(a)[1] == ContentTexts(b)[1];
    assert ContentTexts(a)[2] == ContentTexts(b)[2] && ContentTexts(a)[3] == ContentTexts(b)[3];
    assert ContentTexts(a)[4] == ContentTexts(b)[4] && ContentTexts(a)[5] == ContentTexts(b)[5];
  }

  /** The hashed text changes with any of the six fields, and with nothing else. */
  lemma ContentTextTells(env: Env, a: CreativeContent, b: CreativeContent)
    requires Sound(env) && Readable(env.canonicalize) && NestedKeysApart(env.contract)
    ensures ContentText(env, a) == ContentText(env, b) <==> a == b
  {
    hide Readable, ContentValue;
    ContentIsJson(env.contract, a);
    ContentIsJson(env.contract, b);
    if ContentText(env, a) == ContentText(env, b) {
      var (v, w) := (ContentValue(env.contract, a), ContentValue(env.contract, b));
      ContentMembers(env.contract, a);
      ContentMembers(env.contract, b);
      SameTexts(env, v, w);
      SameContent(env.contract, a, b);
    }
  }

  /** Equal content hashes mean equal content, or two texts that collide. */
  lemma ContentHashBinds(env: Env, a: CreativeContent, b: CreativeContent)
    requires Sound(env) && Readable(env.canonicalize) && NestedKeysApart(env.contract)
    requires ContentHash(env, a) == ContentHash(env, b)
    ensures || a == b
            || (&& ContentText(env, a) != ContentText(env, b)
                && env.crypto.sha256(ContentText(env, a)) == env.crypto.sha256(ContentText(env, b)))
  {
    hide Sound, Readable, NestedKeysApart, ContentText;
    ContentTextTells(env, a, b);
  }

  // --------------------------------------------------------------------------- the built record

  /** Who, when and where, as handed in. */
  ghost predicate CopiedTurn(input: Input, r: AuditRecord) {
    && r[Id] == Str(input.id) && r[AppId] == Str(input.app_id) && r[TurnId] == Str(input.turn_id) && r[Ts] == Str(input.ts)
    && r[ConversationIdHash] == Str(input.conversation_id_hash)
    && (input.user_hash.None? ==> r[UserHash] == Null)
    && (input.user_hash.Some? ==> r[UserHash] == Str(input.user_hash.value))
    && r[Surface] == input.surface && r[Classification] == input.classification
  }

  /** The policy, the demand and the disclosure, as handed in. */
  ghost predicate CopiedPolicy(c: Contract, input: Input, r: AuditRecord) {
    && r[PolicyVersion] == input.policy_version && r[PolicyHash] == Str(input.policy_hash)
    && r[PolicyDecisions] == input.policyResult.decisions && r[OverrideRejected] == input.override_rejected
    && (input.mediation.None? ==> r[Demand] == input.emptyTrace)
    && (input.mediation.Some? ==> r[Demand] == input.mediation.value.trace)
    && Prop(c, r[DisclosureBlock], LabelKey) == Str(input.disclosure.labelText)
    && Prop(c, r[DisclosureBlock], PositionKey) == Str(input.disclosure.position)
    && Prop(c, r[DisclosureBlock], StyleKey) == Str(input.disclosure.style)
  }

  ghost predicate Copied(c: Contract, input: Input, r: AuditRecord) {
    CopiedTurn(input, r) && CopiedPolicy(c, input, r)
  }

  predicate Selected(input: Input, candidate: Candidate) {
    input.policyResult.allowed && input.mediation.Some? && input.mediation.value.selected == Some(candidate)
  }

  /** The candidate that was selected, by its id, advertiser and content. */
  ghost predicate Shows(env: Env, candidate: Candidate, creative: Value) {
    && Prop(env.contract, creative, CreativeIdKey) == Str(candidate.id)
    && Prop(env.contract, creative, AdvertiserKey) == Str(candidate.content.advertiser)
    && Prop(env.contract, creative, AdvertiserDomainKey) == Str(candidate.content.advertiser_domain)
    && Prop(env.contract, creative, ContentHashKey) == Str(ContentHash(env, candidate.content))
  }

  /** A serve shows what was selected; a suppression says why, whichever step it was. */
  ghost predicate Explains(env: Env, input: Input, r: AuditRecord) {
    var c := env.contract;
    && (forall candidate :: Selected(input, candidate) ==>
          r[Decided] == Said(c, Serve) && r[Reason] == Null && Shows(env, candidate, r[Creative]))
    && ((forall candidate :: !Selected(input, candidate)) ==>
          && r[Decided] == Said(c, Suppress) && r[Creative] == Null
          && r[Reason] == if input.policyResult.allowed then Said(c, NoFillReason)
                          else if input.policyResult.reason.Some? then Str(input.policyResult.reason.value)
                          else Said(c, ErrorReason))
  }

  lemma DisclosureReads(c: Contract, d: Disclosure)
    requires Apart(c, DISCLOSURE_WORDS)
    ensures var v := DisclosureValue(c, d);
            && Prop(c, v, LabelKey) == Str(d.labelText) && Prop(c, v, PositionKey) == Str(d.position)
            && Prop(c, v, StyleKey) == Str(d.style)
  {
    hide Lookup;
    var m := DisclosureValue(c, d).members;
    assert forall i :: 0 <= i < 3 ==> m[i].key == c.word(DISCLOSURE_WORDS[i]);
    forall i | 0 <= i < 3 ensures Lookup(m, m[i].key) == m[i].value {
      LookupFinds(m, i);
    }
    assert m[0].key == c.word(LabelKey) && m[1].key == c.word(PositionKey) && m[2].key == c.word(StyleKey);
  }

  lemma CreativeReads(env: Env, candidate: Candidate)
    requires Apart(env.contract, CREATIVE_WORDS)
    ensures Shows(env, candidate, CreativeValue(env, candidate))
  {
    hide Lookup, ContentHash;
    var (c, m) := (env.contract, CreativeValue(env, candidate).members);
    assert forall i :: 0 <= i < 4 ==> m[i].key == c.word(CREATIVE_WORDS[i]);
    forall i | 0 <= i < 4 ensures Lookup(m, m[i].key) == m[i].value {
      LookupFinds(m, i);
    }
    assert m[0].key == c.word(CreativeIdKey) && m[1].key == c.word(AdvertiserKey);
    assert m[2].key == c.word(AdvertiserDomainKey) && m[3].key == c.word(ContentHashKey);
  }

  lemma TurnCopied(env: Env, input: Input)
    ensures CopiedTurn(input, BuildAuditBody(env, input))
  {
    hide CreativeValue, DisclosureValue, Decide, Said;
  }

  lemma PolicyCopied(env: Env, input: Input)
    requires NestedKeysApart(env.contract)
    ensures CopiedPolicy(env.contract, input, BuildAuditBody(env, input))
  {
    hide Prop, CreativeValue, DisclosureValue, Decide, Said;
    DisclosureReads(env.contract, input.disclosure);
  }

  lemma BodyExplains(env: Env, input: Input)
    requires NestedKeysApart(env.contract)
    ensures Explains(env, input, BuildAuditBody(env, input))
  {
    hide CreativeValue, Shows, BuildAuditBody, Said;
    BodyDecided(env, input);
    BuiltCreative(env, input);
    if input.mediation.Some? && input.mediation.value.selected.Some? {
      CreativeReads(env, input.mediation.value.selected.value);
      assert input.policyResult.allowed ==> Selected(input, input.mediation.value.selected.value);
    }
  }

  /** The four fields that chaining and signing add may differ. */
  predicate SameBut(a: AuditRecord, b: AuditRecord) {
    forall f: Field {:trigger b[f]} :: !f.PrevHash? && !f.RecordHash? && !f.Signature? && !f.KeyId? ==> b[f] == a[f]
  }

  lemma SealedSameBut(env: Env, body: AuditRecord, prev: Value, r: AuditRecord, signing: SigningKey)
    requires SealedBy(env, r, body[PrevHash := prev], signing)
    ensures SameBut(body, r) && r[PrevHash] == prev && r[KeyId] == Str(signing.key_id)
  {
    hide ComputeRecordHash, Document;
  }

  lemma SealedTurn(input: Input, body: AuditRecord, r: AuditRecord)
    requires SameBut(body, r) && CopiedTurn(input, body)
    ensures CopiedTurn(input, r)
  {
  }

  lemma SealedPolicy(env: Env, input: Input, body: AuditRecord, r: AuditRecord)
    requires SameBut(body, r) && CopiedPolicy(env.contract, input, body)
    ensures CopiedPolicy(env.contract, input, r)
  {
    hide Prop;
  }

  lemma SealedExplains(env: Env, input: Input, body: AuditRecord, r: AuditRecord)
    requires SameBut(body, r) && Explains(env, input, body)
    ensures Explains(env, input, r)
    ensures r[SeparationAttestation] == body[SeparationAttestation] && r[ModelOutputHash] == body[ModelOutputHash]
    ensures r[AttestedAt] == body[AttestedAt] && r[SupersedesHash] == body[SupersedesHash]
  {
    hide Shows, Prop, Selected, Said;
  }

  /** A built record says everything it was built from, bears no attestation and names its predecessor. */
  lemma BuiltRecordSays(env: Env, input: Input, prev: Value, signing: SigningKey)
    requires Lawful(env.contract) && NestedKeysApart(env.contract)
    requires BuildAuditRecord(env, input, prev, signing).Some?
    ensures var r := BuildAuditRecord(env, input, prev, signing).value;
            && Copied(env.contract, input, r) && Explains(env, input, r)
            && r[SeparationAttestation] == Bool(false)
            && r[ModelOutputHash] == Null && r[AttestedAt] == Null && r[SupersedesHash] == Null
            && r[PrevHash] == prev && r[KeyId] == Str(signing.key_id)
  {
    hide Lawful, BuildAuditBody, SignRecord, NestedKeysApart, CopiedTurn, CopiedPolicy, Explains, SameBut, SealedBy;
    var body := BuildAuditBody(env, input);
    TurnCopied(env, input);
    PolicyCopied(env, input);
    BodyExplains(env, input);
    BodyUnattested(env, input);
    var r := BuildAuditRecord(env, input, prev, signing).value;
    SignedIsSealed(env, body[PrevHash := prev], signing);
    SealedSameBut(env, body, prev, r, signing);
    SealedTurn(input, body, r);
    SealedPolicy(env, input, body, r);
    SealedExplains(env, input, body, r);
  }
}
