/**
 The contract of packages/schemas/src/audit-record.ts, spelled out: the keys, the literals and the
 pattern of each field. It is lawful, so what is proved of every lawful contract holds of it.
 */
module AuditContract {
  import opened Options
  import opened Utf16
  import opened CanonicalJson
  import opened AuditRecords
  import opened Chain
  import opened RecordBuilder
  import opened VerifyLaws

  function Name(f: Field): string {
    match f
    case Id => "id"
    case AppId => "app_id"
    case ConversationIdHash => "conversation_id_hash"
    case UserHash => "user_hash"
    case TurnId => "turn_id"
    case Ts => "ts"
    case Surface => "surface"
    case Classification => "classification"
    case PolicyVersion => "policy_version"
    case PolicyHash => "policy_hash"
    case PolicyDecisions => "policy_decisions"
    case OverrideRejected => "override_rejected"
    case Decided => "decision"
    case Reason => "reason"
    case Demand => "demand"
    case Creative => "creative"
    case DisclosureBlock => "disclosure"
    case ModelOutputHash => "model_output_hash"
    case SeparationAttestation => "separation_attestation"
    case AttestedAt => "attested_at"
    case SupersedesHash => "supersedes_hash"
    case PrevHash => "prev_hash"
    case RecordHash => "record_hash"
    case Signature => "signature"
    case KeyId => "key_id"
  }

  function WordText(w: Word): string {
    match w
    case Genesis => "genesis"
    case Serve => "serve"
    case Suppress => "suppress"
    case AfterAnswer => "after_answer"
    case SeparateBlock => "separate_block"
    case ErrorReason => "error"
    case NoFillReason => "no_fill"
    case CreativeIdKey => "id"
    case AdvertiserKey => "advertiser"
    case AdvertiserDomainKey => "advertiser_domain"
    case ContentHashKey => "content_hash"
    case HeadlineKey => "headline"
    case BodyKey => "body"
    case CtaKey => "cta"
    case UrlTemplateKey => "url_template"
    case LabelKey => "label"
    case PositionKey => "position"
    case StyleKey => "style"
    case PrunedKey => "pruned"
    case RetainCutoffKey => "retain_cutoff"
  }

  /** The nested schemas and the patterns of timestamps, reasons, signatures and key ids. */
  datatype Patterns = Patterns(
    nested: (Field, Value) -> Option<Value>,
    spelled: (Field, JsString) -> bool)

  /** Parsing a nested value yields JSON, and parsing it again changes nothing. */
  ghost predicate Idempotent(p: Patterns) {
    forall f, v {:trigger p.nested(f, v)} :: p.nested(f, v).Some? ==>
      var r := p.nested(f, v).value;
      Accepts(r) && WellFormed(r) && p.nested(f, r) == Some(r)
  }

  const HASH_PREFIX: JsString := [115, 104, 97, 50, 53, 54, 58]

  predicate IsHexDigit(c: CodeUnit) {
    IsDigit(c) || 97 <= c <= 102
  }

  /** sha256: and 64 lowercase hex digits. */
  predicate IsSha256(s: JsString) {
    |s| == 71 && s[..7] == HASH_PREFIX && forall i :: 7 <= i < 71 ==> IsHexDigit(s[i])
  }

  predicate HasPrefix(v: Value, prefix: string) {
    v.Str? && |v.s| > |prefix| && Ascii(prefix) <= v.s
  }

  predicate IsHash(v: Value) {
    v.Str? && IsSha256(v.s)
  }

  predicate IsText(v: Value) {
    v.Str? && v.s != []
  }

  function At(v: Value, w: Word): Value {
    if v.Obj? then Lookup(v.members, Ascii(WordText(w))) else Undefined
  }

  predicate CreativeOk(v: Value) {
    && v.Obj? && HasPrefix(At(v, CreativeIdKey), "cr_") && IsText(At(v, AdvertiserKey))
    && IsText(At(v, AdvertiserDomainKey)) && IsHash(At(v, ContentHashKey))
  }

  predicate DisclosureOk(v: Value) {
    && v.Obj? && IsText(At(v, LabelKey)) && At(v, PositionKey) == Str(Ascii(WordText(AfterAnswer)))
    && At(v, StyleKey) == Str(Ascii(WordText(SeparateBlock)))
  }

  predicate TextFieldOk(p: Patterns, f: Field, v: Value) {
    match f
    case Id => HasPrefix(v, "aud_")
    case AppId => HasPrefix(v, "app_")
    case ConversationIdHash => IsHash(v)
    case UserHash => v.Null? || IsHash(v)
    case TurnId => IsText(v)
    case PolicyHash => IsHash(v)
    case Decided => v == Str(Ascii(WordText(Serve))) || v == Str(Ascii(WordText(Suppress)))
    case Reason => v.Null? || (v.Str? && p.spelled(Reason, v.s))
    case ModelOutputHash => v.Null? || IsHash(v)
    case SeparationAttestation => v.Bool?
    case AttestedAt => v.Null? || (v.Str? && p.spelled(AttestedAt, v.s))
    case SupersedesHash => v.Null? || IsHash(v)
    case PrevHash => IsHash(v) || v == Str(Ascii(WordText(Genesis)))
    case RecordHash => IsHash(v)
    case _ => v.Str? && p.spelled(f, v.s)
  }

  const MAX_SAFE_INTEGER: JsString := Ascii("9007199254740991")

  /** The text of an integer from 1 to 2^53 - 1. */
  predicate IsCount(t: JsString) {
    && t != [] && t[0] != 48 && (forall i :: 0 <= i < |t| ==> IsDigit(t[i]))
    && (|t| < |MAX_SAFE_INTEGER| || (|t| == |MAX_SAFE_INTEGER| && !Less(MAX_SAFE_INTEGER, t)))
  }

  predicate IsScalar(f: Field) {
    !IsNested(f) && !f.PolicyVersion?
  }

  predicate FieldOk(p: Patterns, f: Field, v: Value) {
    if IsScalar(f) then TextFieldOk(p, f, v)
    else if f.Creative? then v.Null? || CreativeOk(v)
    else if f.DisclosureBlock? then DisclosureOk(v)
    else if f.PolicyVersion? then v.Num? && v.n.Finite? && IsCount(v.n.text)
    else p.nested(f, v).Some?
  }

  /** The four keys of a creative, the three of a disclosure; any other is dropped. */
  function Picked(v: Value, words: seq<Word>): Value {
    Obj(seq(|words|, i requires 0 <= i < |words| => Member(Ascii(WordText(words[i])), At(v, words[i]))))
  }

  const CREATIVE_WORDS := [CreativeIdKey, AdvertiserKey, AdvertiserDomainKey, ContentHashKey]
  const DISCLOSURE_WORDS := [LabelKey, PositionKey, StyleKey]

  function Strip(p: Patterns, f: Field, v: Value): Value {
    if IsScalar(f) then v
    else if f.Creative? then if v.Obj? then Picked(v, CREATIVE_WORDS) else v
    else if f.DisclosureBlock? then Picked(v, DISCLOSURE_WORDS)
    else if f.PolicyVersion? then v
    else if p.nested(f, v).Some? then p.nested(f, v).value else v
  }

  function KeyOf(f: Field): JsString {
    Ascii(Name(f))
  }

  /** The field a key names, looked for from the front. */
  function FieldOf(key: JsString, from: nat): Option<Field>
    requires from <= FIELD_COUNT
    decreases FIELD_COUNT - from
  {
    if from == FIELD_COUNT then None
    else if KeyOf(FieldAt(from)) == key then Some(FieldAt(from))
    else FieldOf(key, from + 1)
  }

  function SourceContract(p: Patterns): Contract {
    Contract(
      (f: Field) => KeyOf(f), (key: JsString) => FieldOf(key, 0), (w: Word) => Ascii(WordText(w)),
      (s: JsString) => IsSha256(s), (f: Field, v: Value) => FieldOk(p, f, v), (f: Field, v: Value) => Strip(p, f, v))
  }

  // --------------------------------------------------------------------------------------- keys

  /** The length and the first letter already tell the 25 names apart. */
  function FieldNamed(length: nat, first: char): Option<Field> {
    if length == 2 then Some(if first == 'i' then Id else Ts)
    else if length == 6 then
      Some(if first == 'a' then AppId else if first == 'r' then Reason else if first == 'd' then Demand else KeyId)
    else if length == 7 then Some(if first == 't' then TurnId else Surface)
    else if length == 8 then Some(if first == 'd' then Decided else Creative)
    else if length == 9 then Some(if first == 'u' then UserHash else if first == 'p' then PrevHash else Signature)
    else if length == 10 then Some(DisclosureBlock)
    else if length == 11 then
      Some(if first == 'p' then PolicyHash else if first == 'a' then AttestedAt else RecordHash)
    else if length == 14 then Some(if first == 'c' then Classification else PolicyVersion)
    else if length == 15 then Some(SupersedesHash)
    else if length == 16 then Some(PolicyDecisions)
    else if length == 17 then Some(if first == 'o' then OverrideRejected else ModelOutputHash)
    else if length == 20 then Some(ConversationIdHash)
    else if length == 22 then Some(SeparationAttestation)
    else None
  }

  lemma NameIdentifies(f: Field)
    ensures |Name(f)| > 0 && Name(f)[0] < '\U{00ff}'
    ensures FieldNamed(|Name(f)|, Name(f)[0]) == Some(f)
  {
  }

  lemma KeyInjective(f: Field, g: Field)
    requires KeyOf(f) == KeyOf(g)
    ensures f == g
  {
    hide FieldNamed, Name;
    NameIdentifies(f);
    NameIdentifies(g);
    assert KeyOf(f)[0] == KeyOf(g)[0];
  }

  lemma {:induction false} FieldOfKey(f: Field, from: nat)
    requires from <= Position(f)
    ensures FieldOf(KeyOf(f), from) == Some(f)
    decreases Position(f) - from
  {
    FieldsEnumerated(f, from);
    if KeyOf(FieldAt(from)) == KeyOf(f) {
      KeyInjective(FieldAt(from), f);
    } else {
      FieldOfKey(f, from + 1);
    }
  }

  lemma {:induction false} NoSuchField(key: JsString, from: nat)
    requires from <= FIELD_COUNT && forall f: Field {:trigger KeyOf(f)} :: KeyOf(f) != key
    ensures FieldOf(key, from).None?
    decreases FIELD_COUNT - from
  {
    if from < FIELD_COUNT {
      NoSuchField(key, from + 1);
    }
  }

  lemma PrunedIsNoField(f: Field)
    ensures KeyOf(f) != Ascii(WordText(PrunedKey))
  {
    NameIdentifies(f);
    assert Ascii(WordText(PrunedKey))[0] == 112 && KeyOf(KeyId)[0] == 107;
  }

  lemma CutoffIsNoField(f: Field)
    ensures KeyOf(f) != Ascii(WordText(RetainCutoffKey))
  {
    NameIdentifies(f);
    assert Ascii(WordText(RetainCutoffKey))[0] == 114;
  }

  // --------------------------------------------------------------------------------- fields

  predicate DistinctWords(words: seq<Word>) {
    forall i, j :: 0 <= i < j < |words| ==> Ascii(WordText(words[i])) != Ascii(WordText(words[j]))
  }

  lemma WordsTellApart()
    ensures DistinctWords(CREATIVE_WORDS) && DistinctWords(DISCLOSURE_WORDS)
  {
    forall i, j | 0 <= i < j < 4
      ensures Ascii(WordText(CREATIVE_WORDS[i])) != Ascii(WordText(CREATIVE_WORDS[j]))
    {
      assert |WordText(CREATIVE_WORDS[i])| != |WordText(CREATIVE_WORDS[j])|;
    }
    forall i, j | 0 <= i < j < 3
      ensures Ascii(WordText(DISCLOSURE_WORDS[i])) != Ascii(WordText(DISCLOSURE_WORDS[j]))
    {
      assert Ascii(WordText(LabelKey))[0] == 108 && Ascii(WordText(StyleKey))[0] == 115;
      assert |WordText(PositionKey)| == 8;
    }
  }

  lemma PickedKeeps(v: Value, words: seq<Word>)
    requires v.Obj? && DistinctWords(words)
    ensures Picked(v, words).Obj? && DistinctKeys(Picked(v, words).members)
    ensures forall i :: 0 <= i < |words| ==> At(Picked(v, words), words[i]) == At(v, words[i])
    ensures Picked(Picked(v, words), words) == Picked(v, words)
  {
    var m := Picked(v, words).members;
    assert forall i :: 0 <= i < |m| ==> m[i].key == Ascii(WordText(words[i]));
    forall i | 0 <= i < |words| ensures At(Picked(v, words), words[i]) == At(v, words[i]) {
      LookupFinds(m, i);
    }
  }

  lemma PickedIsText(v: Value, words: seq<Word>)
    requires v.Obj? && DistinctWords(words) && forall i :: 0 <= i < |words| ==> At(v, words[i]).Str?
    ensures Accepts(Picked(v, words)) && WellFormed(Picked(v, words))
  {
    PickedKeeps(v, words);
    var m := Picked(v, words).members;
    assert forall i :: 0 <= i < |m| ==> m[i].value == At(v, words[i]);
  }

  /** What the checks rely on, read off the pattern of each scalar field. */
  lemma ScalarIsUsable(p: Patterns, f: Field, v: Value)
    requires IsScalar(f) && TextFieldOk(p, f, v)
    ensures Shaped(SourceContract(p), f, v) && Accepts(v) && WellFormed(v)
  {
  }

  lemma CreativeIsUsable(p: Patterns, v: Value)
    requires FieldOk(p, Creative, v)
    ensures var r := Strip(p, Creative, v);
            && FieldOk(p, Creative, r) && Strip(p, Creative, r) == r
            && Shaped(SourceContract(p), Creative, r) && Accepts(r) && WellFormed(r)
  {
    if v.Obj? {
      WordsTellApart();
      PickedKeeps(v, CREATIVE_WORDS);
      PickedIsText(v, CREATIVE_WORDS);
      var r := Picked(v, CREATIVE_WORDS);
      assert At(r, CREATIVE_WORDS[0]) == At(v, CreativeIdKey) && At(r, CREATIVE_WORDS[1]) == At(v, AdvertiserKey);
      assert At(r, CREATIVE_WORDS[2]) == At(v, AdvertiserDomainKey);
      assert At(r, CREATIVE_WORDS[3]) == At(v, ContentHashKey);
    }
  }

  lemma SourceKeepsCreativeId(p: Patterns)
    ensures KeepsCreativeId(SourceContract(p))
  {
    var c := SourceContract(p);
    forall v | c.accepts(Creative, v) ensures Prop(c, c.strip(Creative, v), CreativeIdKey) == Prop(c, v, CreativeIdKey) {
      if v.Obj? {
        WordsTellApart();
        PickedKeeps(v, CREATIVE_WORDS);
        assert At(Picked(v, CREATIVE_WORDS), CREATIVE_WORDS[0]) == At(v, CreativeIdKey);
      }
    }
  }

  lemma DisclosureIsUsable(p: Patterns, v: Value)
    requires FieldOk(p, DisclosureBlock, v)
    ensures var r := Strip(p, DisclosureBlock, v);
            && FieldOk(p, DisclosureBlock, r) && Strip(p, DisclosureBlock, r) == r
            && Shaped(SourceContract(p), DisclosureBlock, r) && Accepts(r) && WellFormed(r)
  {
    WordsTellApart();
    PickedKeeps(v, DISCLOSURE_WORDS);
    PickedIsText(v, DISCLOSURE_WORDS);
    var r := Picked(v, DISCLOSURE_WORDS);
    assert At(r, DISCLOSURE_WORDS[0]) == At(v, LabelKey) && At(r, DISCLOSURE_WORDS[1]) == At(v, PositionKey);
    assert At(r, DISCLOSURE_WORDS[2]) == At(v, StyleKey);
  }

  /** An object spelled as the schema spells it is kept as it is. */
  lemma PickedFrom(words: seq<Word>, values: seq<Value>, v: Value)
    requires DistinctWords(words) && |values| == |words|
    requires v == Obj(seq(|words|, i requires 0 <= i < |words| => Member(Ascii(WordText(words[i])), values[i])))
    ensures Picked(v, words) == v && forall i :: 0 <= i < |words| ==> At(v, words[i]) == values[i]
  {
    assert forall i :: 0 <= i < |words| ==> v.members[i].key == Ascii(WordText(words[i]));
    forall i | 0 <= i < |words| ensures At(v, words[i]) == values[i] {
      LookupFinds(v.members, i);
    }
    assert Picked(v, words).members == v.members;
  }

  /** What the record builder writes for a served creative is accepted with nothing left to strip. */
  lemma BuiltCreativeIsSettled(p: Patterns, env: Env, candidate: Candidate)
    requires env.contract == SourceContract(p) && HasPrefix(Str(candidate.id), "cr_")
    requires candidate.content.advertiser != [] && candidate.content.advertiser_domain != []
    requires IsSha256(ContentHash(env, candidate.content))
    ensures FieldOk(p, Creative, CreativeValue(env, candidate))
    ensures Strip(p, Creative, CreativeValue(env, candidate)) == CreativeValue(env, candidate)
  {
    var v := CreativeValue(env, candidate);
    var values := [Str(candidate.id), Str(candidate.content.advertiser), Str(candidate.content.advertiser_domain),
                   Str(ContentHash(env, candidate.content))];
    WordsTellApart();
    CreativeSpelled(env, p, candidate, values);
    PickedFrom(CREATIVE_WORDS, values, v);
    assert At(v, CREATIVE_WORDS[0]) == values[0] && At(v, CREATIVE_WORDS[1]) == values[1];
    assert At(v, CREATIVE_WORDS[2]) == values[2] && At(v, CREATIVE_WORDS[3]) == values[3];
  }

  lemma CreativeSpelled(env: Env, p: Patterns, candidate: Candidate, values: seq<Value>)
    requires env.contract == SourceContract(p)
    requires values == [Str(candidate.id), Str(candidate.content.advertiser), Str(candidate.content.advertiser_domain),
                        Str(ContentHash(env, candidate.content))]
    ensures CreativeValue(env, candidate)
         == Obj(seq(4, i requires 0 <= i < 4 => Member(Ascii(WordText(CREATIVE_WORDS[i])), values[i])))
  {
  }

  /** And for the disclosure of a policy whose label is not empty. */
  lemma BuiltDisclosureIsSettled(p: Patterns, d: Disclosure)
    requires d.labelText != [] && d.position == Ascii(WordText(AfterAnswer)) && d.style == Ascii(WordText(SeparateBlock))
    ensures FieldOk(p, DisclosureBlock, DisclosureValue(SourceContract(p), d))
    ensures Strip(p, DisclosureBlock, DisclosureValue(SourceContract(p), d)) == DisclosureValue(SourceContract(p), d)
  {
    var (v, values) := (DisclosureValue(SourceContract(p), d), [Str(d.labelText), Str(d.position), Str(d.style)]);
    WordsTellApart();
    assert v.members == seq(3, i requires 0 <= i < 3 => Member(Ascii(WordText(DISCLOSURE_WORDS[i])), values[i]));
    PickedFrom(DISCLOSURE_WORDS, values, v);
    assert At(v, DISCLOSURE_WORDS[0]) == values[0] && At(v, DISCLOSURE_WORDS[1]) == values[1];
    assert At(v, DISCLOSURE_WORDS[2]) == values[2];
  }

  lemma FieldIsUsable(p: Patterns, f: Field, v: Value)
    requires Idempotent(p) && FieldOk(p, f, v)
    ensures var r := Strip(p, f, v);
            FieldOk(p, f, r) && Strip(p, f, r) == r && Usable(SourceContract(p), f, r)
  {
    if IsScalar(f) {
      ScalarIsUsable(p, f, v);
    } else if f.Creative? {
      CreativeIsUsable(p, v);
    } else if f.DisclosureBlock? {
      DisclosureIsUsable(p, v);
    } else if !f.PolicyVersion? {
      assert p.nested(f, v).Some?;
    }
  }

  lemma GenesisIsNoHash()
    ensures !IsSha256(Ascii(WordText(Genesis)))
  {
    assert |WordText(Genesis)| == 7;
  }

  lemma MarkerWordsDiffer()
    ensures Ascii(WordText(PrunedKey)) != Ascii(WordText(RetainCutoffKey))
    ensures Ascii(WordText(Serve)) != Ascii(WordText(Suppress))
  {
    assert |WordText(PrunedKey)| != |WordText(RetainCutoffKey)| && |WordText(Serve)| != |WordText(Suppress)|;
  }

  /** The contract of the source is one of the contracts every law of this project is proved for. */
  lemma SourceContractIsLawful(p: Patterns)
    requires Idempotent(p)
    ensures Lawful(SourceContract(p))
  {
    var c := SourceContract(p);
    forall f: Field ensures c.fieldOf(c.key(f)) == Some(f) && KeyOf(f) != Ascii(WordText(PrunedKey)) {
      FieldOfKey(f, 0);
      PrunedIsNoField(f);
    }
    NoSuchField(Ascii(WordText(PrunedKey)), 0);
    GenesisIsNoHash();
    MarkerWordsDiffer();
    forall f: Field, v: Value | c.accepts(f, v)
      ensures Settled(c, f, c.strip(f, v)) && Usable(c, f, c.strip(f, v))
      ensures !IsNested(f) ==> Settled(c, f, v)
    {
      FieldIsUsable(p, f, v);
    }
  }

  /** Hashes, nulls, the genesis word and both booleans go where chaining and attesting put them. */
  lemma ChainValuesAccepted(p: Patterns)
    ensures forall h, f :: IsSha256(h) && IsHashField(f) ==> FieldOk(p, f, Str(h))
    ensures forall f :: IsNullableField(f) ==> FieldOk(p, f, Null)
    ensures FieldOk(p, PrevHash, Str(Ascii(WordText(Genesis))))
    ensures forall b :: FieldOk(p, SeparationAttestation, Bool(b))
  {
  }

  ghost predicate Roomy(c: Contract) {
    && (forall h, f :: c.isHash(h) && IsHashField(f) ==> c.accepts(f, Str(h)))
    && (forall f :: IsNullableField(f) ==> c.accepts(f, Null))
    && c.accepts(PrevHash, Said(c, Genesis))
    && (forall b :: c.accepts(SeparationAttestation, Bool(b)))
    && !c.isHash([])
  }

  lemma SourceContractIsRoomy(p: Patterns)
    ensures Roomy(SourceContract(p))
  {
    ChainValuesAccepted(p);
  }

  lemma SourceKeysApart(p: Patterns)
    ensures KeysApart(SourceContract(p))
  {
    WordsTellApart();
    forall f: Field ensures KeyOf(f) != Ascii(WordText(RetainCutoffKey)) {
      CutoffIsNoField(f);
    }
    NoSuchField(Ascii(WordText(RetainCutoffKey)), 0);
    assert CREATIVE_WORDS[0] == CreativeIdKey && CREATIVE_WORDS[1] == AdvertiserKey;
    assert CREATIVE_WORDS[2] == AdvertiserDomainKey && CREATIVE_WORDS[3] == ContentHashKey;
  }

  lemma SoundFromParts(env: Env)
    requires Lawful(env.contract) && KeysApart(env.contract) && Ideal(env.crypto) && Roomy(env.contract) && env.canonicalize == Canonical
    requires forall x :: env.contract.isHash(env.crypto.sha256(x))
    requires forall m, p {:trigger env.crypto.sign(m, p)} :: env.contract.accepts(Signature, Str(env.crypto.sign(m, p)))
    ensures Sound(env)
  {
  }

  /**
   With SHA-256 printing what the contract calls a hash, and signatures spelled as it spells them,
   the whole environment of the source is sound and its canonical text readable.
   */
  lemma SourceIsSound(p: Patterns, c: Contract, crypto: Crypto, dateParse: JsString -> Option<int>,
                      textOf: Value -> Option<JsString>)
    requires Idempotent(p) && Ideal(crypto) && c == SourceContract(p)
    requires forall x :: c.isHash(crypto.sha256(x))
    requires forall m, k {:trigger crypto.sign(m, k)} :: c.accepts(Signature, Str(crypto.sign(m, k)))
    ensures Sound(Env(c, Canonical, crypto, dateParse, textOf)) && Readable(Canonical)
  {
    SourceContractIsLawful(p);
    SourceContractIsRoomy(p);
    SourceKeysApart(p);
    SoundFromParts(Env(c, Canonical, crypto, dateParse, textOf));
    CanonicalIsReadable();
  }
}
