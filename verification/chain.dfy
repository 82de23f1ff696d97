/**
 packages/core/src/audit/chain.ts and attest.ts: hashing, signing and attesting audit records.

 SHA-256, Ed25519 and the canonical text are parameters here. All that is ever assumed of the two
 primitives is that a digest is spelled as the contract spells hashes and that what a key signed its
 public half verifies; nothing says digests do not collide.
 */
module Chain {
  import opened Options
  import opened Utf16
  import opened CanonicalJson
  import opened AuditRecords

  datatype Crypto = Crypto(
    sha256: JsString -> JsString,
    usable: JsString -> bool,
    sign: (JsString, JsString) -> JsString,
    publicOf: JsString -> JsString,
    verifies: (JsString, JsString, JsString) -> bool)

  /**
   What the model leaves open: the contract, the canonical text, the primitives, Date.parse, and
   String(v) of a value that is not a string, which throws for some objects.
   */
  datatype Env = Env(
    contract: Contract,
    canonicalize: Value -> Canonicalized,
    crypto: Crypto,
    dateParse: JsString -> Option<int>,
    textOf: Value -> Option<JsString>)

  /** `sign(message, private)` always verifies under `publicOf(private)`. */
  ghost predicate Ideal(k: Crypto) {
    forall m, p :: k.verifies(m, k.sign(m, p), k.publicOf(p))
  }

  ghost predicate Sound(env: Env) {
    && Lawful(env.contract)
    && Ideal(env.crypto)
    && (forall v :: Accepts(v) ==> env.canonicalize(v).Text?)
    && (forall x :: env.contract.isHash(env.crypto.sha256(x)))
    && (forall m, p :: env.contract.accepts(Signature, Str(env.crypto.sign(m, p))))
    && (forall h, f :: env.contract.isHash(h) && IsHashField(f) ==> env.contract.accepts(f, Str(h)))
    && (forall f :: IsNullableField(f) ==> env.contract.accepts(f, Null))
    && env.contract.accepts(PrevHash, Said(env.contract, Genesis))
    && (forall b :: env.contract.accepts(SeparationAttestation, Bool(b)))
    && KeysApart(env.contract) && !env.contract.isHash([])
  }

  predicate IsNullableField(f: Field) {
    f.ModelOutputHash? || f.AttestedAt? || f.SupersedesHash?
  }

  predicate IsHashField(f: Field) {
    f.RecordHash? || f.PrevHash? || f.SupersedesHash? || f.ModelOutputHash?
  }

  datatype SigningKey = SigningKey(key_id: JsString, private_pem: JsString)

  // ------------------------------------------------------------------------------ hash input

  predicate IsSignatureKey(c: Contract, key: JsString) {
    key == c.key(RecordHash) || key == c.key(Signature)
  }

  function WithoutSignature(c: Contract, members: seq<Member>): seq<Member> {
    if members == [] then []
    else if IsSignatureKey(c, members[0].key) then WithoutSignature(c, members[1..])
    else [members[0]] + WithoutSignature(c, members[1..])
  }

  /** unsignedOf: the document without record_hash and signature, every other key kept as given. */
  function Unsigned(c: Contract, raw: Value): Value {
    if raw.Obj? then Obj(WithoutSignature(c, raw.members)) else raw
  }

  function TextOf(v: Value): JsString {
    if v.Str? then v.s else []
  }

  /** recordHashInput: the canonical unsigned document with prev_hash once more behind it. */
  function HashInput(env: Env, raw: Value): Canonicalized
    requires raw.Obj?
  {
    var body := env.canonicalize(Unsigned(env.contract, raw));
    if body.TypeError? then TypeError
    else Text(body.text + TextOf(Get(env.contract, raw.members, PrevHash)))
  }

  /** computeRecordHash: a TypeError when the document is not JSON. */
  function ComputeRecordHash(env: Env, raw: Value): Canonicalized
    requires raw.Obj?
  {
    var input := HashInput(env, raw);
    if input.TypeError? then TypeError else Text(env.crypto.sha256(input.text))
  }

  lemma {:induction false} KeptMembers(c: Contract, members: seq<Member>)
    ensures forall m :: m in WithoutSignature(c, members) <==>
              m in members && m.key != c.key(RecordHash) && m.key != c.key(Signature)
    ensures DistinctKeys(members) ==> DistinctKeys(WithoutSignature(c, members))
  {
    if members != [] {
      KeptMembers(c, members[1..]);
      var tail := WithoutSignature(c, members[1..]);
      forall i | 0 <= i < |tail| && DistinctKeys(members) ensures tail[i].key != members[0].key {
        assert tail[i] in tail;
      }
    }
  }

  /** Every other key keeps its value. */
  lemma {:induction false} KeptLookup(c: Contract, members: seq<Member>, key: JsString)
    requires key != c.key(RecordHash) && key != c.key(Signature)
    ensures Lookup(WithoutSignature(c, members), key) == Lookup(members, key)
  {
    if members != [] {
      KeptLookup(c, members[1..], key);
      if !IsSignatureKey(c, members[0].key) {
        var tail := WithoutSignature(c, members[1..]);
        assert ([members[0]] + tail)[1..] == tail;
      }
    }
  }

  lemma StillAccepted(c: Contract, members: seq<Member>)
    requires Accepts(Obj(members))
    ensures Accepts(Obj(WithoutSignature(c, members)))
  {
    KeptMembers(c, members);
    var kept := WithoutSignature(c, members);
    forall i | 0 <= i < |kept| ensures Dropped(kept[i]) || Accepts(kept[i].value) {
      assert kept[i] in kept && kept[i] in members;
    }
  }

  lemma UnsignedWellFormed(c: Contract, raw: Value)
    requires WellFormed(raw)
    ensures WellFormed(Unsigned(c, raw))
  {
    if raw.Obj? {
      KeptMembers(c, raw.members);
      var kept := WithoutSignature(c, raw.members);
      forall i | 0 <= i < |kept| ensures WellFormed(kept[i].value) {
        assert kept[i] in kept;
      }
    }
  }

  /** Only the two signature members may differ: the hash input does not see them. */
  lemma {:induction false} SignatureInvisible(c: Contract, a: seq<Member>, b: seq<Member>)
    requires |a| == |b|
    requires forall i :: 0 <= i < |a| ==>
               a[i].key == b[i].key && (a[i] == b[i] || a[i].key == c.key(RecordHash) || a[i].key == c.key(Signature))
    ensures WithoutSignature(c, a) == WithoutSignature(c, b)
  {
    if a != [] {
      assert a[0].key == b[0].key && (a[0] == b[0] || a[0].key == c.key(RecordHash) || a[0].key == c.key(Signature));
      SignatureInvisible(c, a[1..], b[1..]);
    }
  }

  // --------------------------------------------------------------------------------- signing

  /** signRecord: None for a malformed key_id, an unusable key or a record that is not JSON. */
  function SignRecord(env: Env, record: AuditRecord, signing: SigningKey): Option<AuditRecord> {
    if !env.contract.accepts(KeyId, Str(signing.key_id)) then None
    else
      var unsigned := record[KeyId := Str(signing.key_id)];
      var hash := ComputeRecordHash(env, Document(env.contract, unsigned));
      if hash.TypeError? || !env.crypto.usable(signing.private_pem) then None
      else Some(WithSignature(unsigned, hash.text, env.crypto.sign(hash.text, signing.private_pem)))
  }

  function WithSignature(unsigned: AuditRecord, hash: JsString, signature: JsString): AuditRecord {
    unsigned[RecordHash := Str(hash)][Signature := Str(signature)]
  }

  function NextPrevHash(c: Contract, previous: Option<AuditRecord>): Value {
    if previous.None? then Said(c, Genesis) else previous.value[RecordHash]
  }

  lemma SigningKeepsHash(env: Env, unsigned: AuditRecord, hash: JsString, signature: JsString)
    requires Lawful(env.contract)
    ensures ComputeRecordHash(env, Document(env.contract, WithSignature(unsigned, hash, signature)))
         == ComputeRecordHash(env, Document(env.contract, unsigned))
  {
    var c := env.contract;
    var signed := WithSignature(unsigned, hash, signature);
    var (a, b) := (Document(c, unsigned), Document(c, signed));
    DocumentField(c, unsigned, PrevHash);
    DocumentField(c, signed, PrevHash);
    SignatureInvisible(c, a.members, b.members);
    assert Unsigned(c, a) == Unsigned(c, b);
  }

  function Hashed(env: Env, record: AuditRecord, signing: SigningKey): Canonicalized {
    ComputeRecordHash(env, Document(env.contract, record[KeyId := Str(signing.key_id)]))
  }

  lemma SignedShape(env: Env, record: AuditRecord, signing: SigningKey)
    requires SignRecord(env, record, signing).Some?
    ensures Hashed(env, record, signing).Text?
    ensures var hash := Hashed(env, record, signing).text;
            SignRecord(env, record, signing).value ==
            WithSignature(record[KeyId := Str(signing.key_id)], hash, env.crypto.sign(hash, signing.private_pem))
  {
  }

  /** Signing touches three fields, and the hash recomputes from the signed document itself. */
  lemma SignedRecomputes(env: Env, record: AuditRecord, signing: SigningKey)
    requires Lawful(env.contract) && SignRecord(env, record, signing).Some?
    ensures var r := SignRecord(env, record, signing).value;
            && r[RecordHash].Str?
            && ComputeRecordHash(env, Document(env.contract, r)) == Text(r[RecordHash].s)
            && r == WithSignature(record[KeyId := Str(signing.key_id)], r[RecordHash].s,
                                  env.crypto.sign(r[RecordHash].s, signing.private_pem))
  {
    SignedShape(env, record, signing);
    var unsigned := record[KeyId := Str(signing.key_id)];
    var hash := Hashed(env, record, signing).text;
    SigningKeepsHash(env, unsigned, hash, env.crypto.sign(hash, signing.private_pem));
  }

  // ------------------------------------------------------------------------------- attesting

  datatype AttestOutcome =
    | Attested(record: AuditRecord)
    | Refused(reason: RefusalReason)
    | KeyError

  datatype RefusalReason =
    InvalidRecord | AlreadyAttested | InvalidModelOutputHash | InvalidAttestedAt | InvalidPrevHash

  predicate IsAttested(r: AuditRecord) {
    r[SeparationAttestation] == Bool(true) && !r[ModelOutputHash].Null? && !r[AttestedAt].Null?
  }

  predicate IsUnattested(r: AuditRecord) {
    r[SeparationAttestation] == Bool(false) && r[ModelOutputHash].Null? && r[AttestedAt].Null? && r[SupersedesHash].Null?
  }

  /** The copy of `original` that attests it, before it is signed. */
  function AttestedCopy(original: AuditRecord, output: JsString, now: JsString, prev: JsString): AuditRecord {
    original[ModelOutputHash := Str(output)][SeparationAttestation := Bool(true)][AttestedAt := Str(now)]
            [SupersedesHash := original[RecordHash]][PrevHash := Str(prev)]
  }

  function Attest(env: Env, raw: Value, output: JsString, now: JsString, prev: JsString, signing: SigningKey): AttestOutcome
  {
    var c := env.contract;
    var parsed := Parse(c, raw);
    if parsed.None? then Refused(InvalidRecord)
    else if !IsUnattested(parsed.value) then Refused(AlreadyAttested)
    else if !c.accepts(ModelOutputHash, Str(output)) then Refused(InvalidModelOutputHash)
    else if !c.accepts(AttestedAt, Str(now)) then Refused(InvalidAttestedAt)
    else if !c.accepts(PrevHash, Str(prev)) || prev == c.word(Genesis) then Refused(InvalidPrevHash)
    else
      var signed := SignRecord(env, AttestedCopy(parsed.value, output, now, prev), signing);
      if signed.None? then KeyError else Attested(signed.value)
  }
}
