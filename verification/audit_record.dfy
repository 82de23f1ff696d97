/**
 packages/schemas/src/audit-record.ts: the audit record, its JSON document and the parsing that
 turns a stored document back into a record.

 A record is the object the code handles: one JSON value for each of the 25 declared fields. The
 spelling of keys and literals and the pattern of each field are a parameter, `Contract`; the
 contract of the source is given in audit_contract.dfy.
 */
module AuditRecords {
  import opened Options
  import opened Utf16
  import opened CanonicalJson

  /** The members of the document, in the order the contract declares them. */
  datatype Field =
    | Id | AppId | ConversationIdHash | UserHash | TurnId | Ts | Surface | Classification
    | PolicyVersion | PolicyHash | PolicyDecisions | OverrideRejected | Decided | Reason | Demand
    | Creative | DisclosureBlock | ModelOutputHash | SeparationAttestation | AttestedAt
    | SupersedesHash | PrevHash | RecordHash | Signature | KeyId

  const FIELD_COUNT := 25

  function FieldAt(i: nat): Field {
    match i
    case 0 => Id case 1 => AppId case 2 => ConversationIdHash case 3 => UserHash case 4 => TurnId
    case 5 => Ts case 6 => Surface case 7 => Classification case 8 => PolicyVersion
    case 9 => PolicyHash case 10 => PolicyDecisions case 11 => OverrideRejected case 12 => Decided
    case 13 => Reason case 14 => Demand case 15 => Creative case 16 => DisclosureBlock
    case 17 => ModelOutputHash case 18 => SeparationAttestation case 19 => AttestedAt
    case 20 => SupersedesHash case 21 => PrevHash case 22 => RecordHash case 23 => Signature
    case _ => KeyId
  }

  function Position(f: Field): (i: nat)
    ensures i < FIELD_COUNT
  {
    match f
    case Id => 0 case AppId => 1 case ConversationIdHash => 2 case UserHash => 3 case TurnId => 4
    case Ts => 5 case Surface => 6 case Classification => 7 case PolicyVersion => 8
    case PolicyHash => 9 case PolicyDecisions => 10 case OverrideRejected => 11 case Decided => 12
    case Reason => 13 case Demand => 14 case Creative => 15 case DisclosureBlock => 16
    case ModelOutputHash => 17 case SeparationAttestation => 18 case AttestedAt => 19
    case SupersedesHash => 20 case PrevHash => 21 case RecordHash => 22 case Signature => 23
    case KeyId => 24
  }

  lemma FieldsEnumerated(f: Field, i: nat)
    requires i < FIELD_COUNT
    ensures FieldAt(Position(f)) == f && Position(FieldAt(i)) == i
  {
  }

  /** A parsed record: every declared field, nothing else. */
  type AuditRecord = r: map<Field, Value> | forall f: Field :: f in r
    witness map f: Field | true :: Null

  // ------------------------------------------------------------------------------ the contract

  /** The literals and nested keys the checks compare with. */
  datatype Word =
    | Genesis | Serve | Suppress | AfterAnswer | SeparateBlock
    | ErrorReason | NoFillReason
    | CreativeIdKey | AdvertiserKey | AdvertiserDomainKey | ContentHashKey
    | HeadlineKey | BodyKey | CtaKey | UrlTemplateKey
    | LabelKey | PositionKey | StyleKey | PrunedKey | RetainCutoffKey

  /** How keys and literals are spelled, what a field accepts, and what parsing keeps of it. */
  datatype Contract = Contract(
    key: Field -> JsString,
    fieldOf: JsString -> Option<Field>,
    word: Word -> JsString,
    isHash: JsString -> bool,
    accepts: (Field, Value) -> bool,
    strip: (Field, Value) -> Value)

  function Said(c: Contract, w: Word): Value {
    Str(c.word(w))
  }

  /** A property of an object; undefined for anything that has none. */
  function Prop(c: Contract, v: Value, w: Word): Value {
    if v.Obj? then Lookup(v.members, c.word(w)) else Undefined
  }

  predicate IsHashText(c: Contract, v: Value) {
    v.Str? && c.isHash(v.s)
  }

  predicate Shaped(c: Contract, f: Field, v: Value) {
    match f
    case Id => v.Str?
    case AppId => v.Str?
    case Ts => v.Str?
    case Decided => v == Said(c, Serve) || v == Said(c, Suppress)
    case Creative => v.Null? || (v.Obj? && Prop(c, v, CreativeIdKey).Str? && IsHashText(c, Prop(c, v, ContentHashKey)))
    case DisclosureBlock =>
      && v.Obj? && Prop(c, v, LabelKey).Str?
      && Prop(c, v, PositionKey) == Said(c, AfterAnswer) && Prop(c, v, StyleKey) == Said(c, SeparateBlock)
    case ModelOutputHash => v.Null? || v.Str?
    case SeparationAttestation => v.Bool?
    case AttestedAt => v.Null? || v.Str?
    case SupersedesHash => v.Null? || IsHashText(c, v)
    case PrevHash => IsHashText(c, v) || v == Said(c, Genesis)
    case RecordHash => IsHashText(c, v)
    case Signature => v.Str?
    case KeyId => v.Str?
    case _ => true
  }

  /** Nested objects lose their unknown keys; every other field is kept as it came. */
  predicate IsNested(f: Field) {
    || f.Surface? || f.Classification? || f.PolicyDecisions? || f.OverrideRejected? || f.Demand?
    || f.Creative? || f.DisclosureBlock?
  }

  /** Accepted, with nothing left to strip. */
  predicate Settled(c: Contract, f: Field, v: Value) {
    c.accepts(f, v) && c.strip(f, v) == v
  }

  /** JSON of the shape the checks expect. */
  predicate Usable(c: Contract, f: Field, v: Value) {
    Shaped(c, f, v) && Accepts(v) && WellFormed(v)
  }

  /** Keys tell fields apart, and parsing yields settled JSON of the right shape. */
  ghost predicate Lawful(c: Contract) {
    && (forall f :: c.fieldOf(c.key(f)) == Some(f))
    && c.fieldOf(c.word(PrunedKey)).None? && c.word(PrunedKey) != c.word(RetainCutoffKey)
    && !c.isHash(c.word(Genesis))
    && c.word(Serve) != c.word(Suppress)
    && (forall f, v {:trigger Settled(c, f, v)} :: c.accepts(f, v) && !IsNested(f) ==> Settled(c, f, v))
    && (forall f, v {:trigger Usable(c, f, c.strip(f, v))} :: c.accepts(f, v) ==>
          Settled(c, f, c.strip(f, v)) && Usable(c, f, c.strip(f, v)))
  }

  /** Nested keys that are written side by side differ, and no field is spelled like a marker's cutoff. */
  predicate KeysApart(c: Contract) {
    && c.word(ContentHashKey) != c.word(CreativeIdKey) && c.word(ContentHashKey) != c.word(AdvertiserKey)
    && c.word(ContentHashKey) != c.word(AdvertiserDomainKey)
    && c.fieldOf(c.word(RetainCutoffKey)).None?
  }

  /** Parsing a creative keeps its id. */
  ghost predicate KeepsCreativeId(c: Contract) {
    forall v {:trigger c.strip(Creative, v)} :: c.accepts(Creative, v) ==>
      Prop(c, c.strip(Creative, v), CreativeIdKey) == Prop(c, v, CreativeIdKey)
  }

  /** The two refinements: a serve names a creative and no reason, a suppression the reverse. */
  predicate Refined(c: Contract, r: AuditRecord) {
    && (r[Decided] == Said(c, Serve) ==> !r[Creative].Null? && r[Reason].Null?)
    && (r[Decided] == Said(c, Suppress) ==> r[Creative].Null? && !r[Reason].Null?)
  }

  function Get(c: Contract, members: seq<Member>, f: Field): Value {
    Lookup(members, c.key(f))
  }

  predicate FieldsOk(c: Contract, members: seq<Member>) {
    forall f: Field :: c.accepts(f, Get(c, members, f))
  }

  function StrippedFields(c: Contract, members: seq<Member>): AuditRecord {
    map f: Field | true :: c.strip(f, Get(c, members, f))
  }

  /** AuditRecord.safeParse: every declared field checked, unknown keys dropped. */
  function Parse(c: Contract, raw: Value): Option<AuditRecord> {
    if raw.Obj? && FieldsOk(c, raw.members) && Refined(c, StrippedFields(c, raw.members))
    then Some(StrippedFields(c, raw.members))
    else None
  }

  // ------------------------------------------------------------------------------ the document

  function FieldMember(c: Contract, r: AuditRecord, f: Field): Member {
    Member(c.key(f), r[f])
  }

  /** The first `count` fields of a record as an object. */
  function FieldsDocument(c: Contract, r: AuditRecord, count: nat): Value {
    Obj(seq(count, i requires 0 <= i < count => FieldMember(c, r, FieldAt(i))))
  }

  /** The record as the JSON object that is hashed, stored and handed to a verifier. */
  function Document(c: Contract, r: AuditRecord): Value {
    FieldsDocument(c, r, FIELD_COUNT)
  }

  /** What the contract accepts as it stands. */
  ghost predicate Valid(c: Contract, r: AuditRecord) {
    && (forall f: Field :: Settled(c, f, r[f]))
    && (forall f: Field {:trigger Usable(c, f, r[f])} :: Usable(c, f, r[f]))
    && Refined(c, r)
  }

  lemma DocumentKeysDistinct(c: Contract, r: AuditRecord, count: nat)
    requires Lawful(c) && count <= FIELD_COUNT
    ensures DistinctKeys(FieldsDocument(c, r, count).members)
  {
    var m := FieldsDocument(c, r, count).members;
    forall i, j | 0 <= i < j < |m| ensures m[i].key != m[j].key {
      FieldsEnumerated(Id, i);
      FieldsEnumerated(Id, j);
    }
  }

  lemma DocumentField(c: Contract, r: AuditRecord, f: Field)
    requires Lawful(c)
    ensures Document(c, r).Obj? && Get(c, Document(c, r).members, f) == r[f]
  {
    var m := Document(c, r).members;
    FieldsEnumerated(f, 0);
    DocumentKeysDistinct(c, r, FIELD_COUNT);
    assert m[Position(f)] == FieldMember(c, r, f);
    LookupFinds(m, Position(f));
  }

  lemma DocumentFields(c: Contract, r: AuditRecord)
    requires Lawful(c)
    ensures Document(c, r).Obj? && forall f: Field :: Get(c, Document(c, r).members, f) == r[f]
  {
    forall f: Field ensures Get(c, Document(c, r).members, f) == r[f] {
      DocumentField(c, r, f);
    }
  }

  /** A record the contract accepts is read back from its own document. */
  lemma ParseDocument(c: Contract, r: AuditRecord)
    requires Lawful(c) && Valid(c, r)
    ensures Parse(c, Document(c, r)) == Some(r)
  {
    DocumentFields(c, r);
    NothingStripped(c, Document(c, r).members, r);
  }

  lemma NothingStripped(c: Contract, m: seq<Member>, r: AuditRecord)
    requires forall f: Field :: Get(c, m, f) == r[f]
    requires forall f: Field :: Settled(c, f, r[f])
    ensures FieldsOk(c, m) && StrippedFields(c, m) == r
  {
    forall f: Field ensures c.accepts(f, Get(c, m, f)) && StrippedFields(c, m)[f] == r[f] {
      assert Settled(c, f, r[f]);
    }
  }

  lemma AcceptedAsIs(c: Contract, f: Field, v: Value)
    requires Lawful(c) && c.accepts(f, v) && !IsNested(f)
    ensures Settled(c, f, v) && Usable(c, f, v)
  {
    assert Settled(c, f, v);
    assert Usable(c, f, c.strip(f, v));
  }

  /** What parsing took from the raw document, nested objects apart, is what the document says. */
  lemma ParsedField(c: Contract, raw: Value, f: Field)
    requires Lawful(c) && Parse(c, raw).Some?
    ensures Settled(c, f, Parse(c, raw).value[f]) && Usable(c, f, Parse(c, raw).value[f])
    ensures !IsNested(f) ==> Parse(c, raw).value[f] == Get(c, raw.members, f)
  {
    var v := Get(c, raw.members, f);
    assert c.accepts(f, v);
    assert Usable(c, f, c.strip(f, v));
    assert !IsNested(f) ==> Settled(c, f, v);
  }

  lemma ParsedPlainField(c: Contract, raw: Value, f: Field)
    requires Lawful(c) && Parse(c, raw).Some? && !IsNested(f)
    ensures Parse(c, raw).value[f] == Get(c, raw.members, f)
  {
    ParsedField(c, raw, f);
  }

  lemma ParsedIsValid(c: Contract, raw: Value)
    requires Lawful(c) && Parse(c, raw).Some?
    ensures raw.Obj? && Valid(c, Parse(c, raw).value)
  {
    forall f: Field
      ensures Settled(c, f, Parse(c, raw).value[f])
      ensures Usable(c, f, Parse(c, raw).value[f])
    {
      ParsedField(c, raw, f);
    }
  }
}
