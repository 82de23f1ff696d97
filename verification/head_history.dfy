/**
 The head of a chain fixes its whole history: what a sequence of stored documents that passes
 `record_hash` and `chain` position by position can look like, given its last record_hash.
 */
module HeadHistory {
  import opened Options
  import opened Utf16
  import opened CanonicalJson
  import opened CanonicalJsonLaws
  import opened AuditRecords
  import opened Chain
  import opened Verify
  import opened VerifyLaws

  /** The document passes the two checks in the place after `previous`. */
  ghost predicate Placed(env: Env, doc: Value, previous: Value) {
    && WellFormed(doc)
    && Parse(env.contract, doc).Some?
    && CheckRecordHash(env, doc, Parse(env.contract, doc).value).ok
    && CheckChain(env, Parse(env.contract, doc).value, previous).ok
  }

  function Last(docs: seq<Value>): Value {
    if docs == [] then Null else docs[|docs| - 1]
  }

  /** Every document in its place. */
  ghost predicate Passing(env: Env, docs: seq<Value>) {
    if docs == [] then true
    else Passing(env, docs[..|docs| - 1]) && Placed(env, Last(docs), Last(docs[..|docs| - 1]))
  }

  /**
   No document that another one stands behind reads as retention's `pruned` marker: the chain check
   takes any object whose `pruned` is true for one (see AnyHeadHasAnotherPast).
   */
  ghost predicate NoneHides(env: Env, docs: seq<Value>) {
    forall i :: 0 <= i < |docs| - 1 ==> !IsPruned(env.contract, docs[i])
  }

  function HashOf(env: Env, doc: Value): Value {
    Peek(env.contract, doc, RecordHash)
  }

  /** Two documents whose hash inputs differ although their digests do not. */
  ghost predicate Collide(env: Env, p: Value, q: Value) {
    && p.Obj? && q.Obj? && HashInput(env, p).Text? && HashInput(env, q).Text?
    && HashInput(env, p).text != HashInput(env, q).text
    && env.crypto.sha256(HashInput(env, p).text) == env.crypto.sha256(HashInput(env, q).text)
  }

  /** Equal up to the signature: the same JSON under every key but that one, the same record_hash. */
  ghost predicate SameUnsigned(env: Env, a: Value, b: Value) {
    && a.Obj? && b.Obj? && HashOf(env, a) == HashOf(env, b)
    && forall key: JsString {:trigger Lookup(a.members, key)} ::
         key != env.contract.key(RecordHash) && key != env.contract.key(Signature) ==>
           Same(Lookup(a.members, key), Lookup(b.members, key))
  }

  /** Objects that are the same JSON have the same JSON under every key. */
  lemma SameUnderKey(a: Value, b: Value, key: JsString)
    requires a.Obj? && b.Obj? && Same(a, b)
    requires DistinctKeys(a.members) && DistinctKeys(b.members)
    ensures Same(Lookup(a.members, key), Lookup(b.members, key))
  {
    var (v, w) := (Lookup(a.members, key), Lookup(b.members, key));
    if !v.Undefined? {
      var i := Found(a.members, key);
      assert HasKey(b.members, key);
      var j :| 0 <= j < |b.members| && !Dropped(b.members[j]) && b.members[j].key == key;
      LookupFinds(b.members, j);
      assert Paired(a.members[i], b.members[j]);
    } else if !w.Undefined? {
      var j := Found(b.members, key);
      assert HasKey(a.members, key);
      var i :| 0 <= i < |a.members| && !Dropped(a.members[i]) && a.members[i].key == key;
      LookupFinds(a.members, i);
    }
  }

  lemma {:induction false} Found(members: seq<Member>, key: JsString) returns (i: nat)
    requires !Lookup(members, key).Undefined?
    ensures i < |members| && members[i] == Member(key, Lookup(members, key))
  {
    if members[0].key == key {
      i := 0;
    } else {
      i := Found(members[1..], key);
      i := i + 1;
    }
  }

  lemma SameApart(env: Env, a: Value, b: Value)
    requires a.Obj? && b.Obj? && WellFormed(a) && WellFormed(b) && HashOf(env, a) == HashOf(env, b)
    requires Same(Unsigned(env.contract, a), Unsigned(env.contract, b))
    ensures SameUnsigned(env, a, b)
  {
    hide Same, WellFormed, Lookup;
    var c := env.contract;
    UnsignedWellFormed(c, a);
    UnsignedWellFormed(c, b);
    KeysDiffer(Unsigned(c, a));
    KeysDiffer(Unsigned(c, b));
    forall key: JsString | key != c.key(RecordHash) && key != c.key(Signature)
      ensures Same(Lookup(a.members, key), Lookup(b.members, key))
    {
      KeptLookup(c, a.members, key);
      KeptLookup(c, b.members, key);
      SameUnderKey(Unsigned(c, a), Unsigned(c, b), key);
    }
  }

  lemma KeysDiffer(v: Value)
    requires v.Obj? && WellFormed(v)
    ensures DistinctKeys(v.members)
  {
  }

  lemma PlacedFacts(env: Env, doc: Value, previous: Value)
    requires Lawful(env.contract) && Placed(env, doc, previous)
    ensures doc.Obj? && HashInput(env, doc).Text?
    ensures HashOf(env, doc) == Str(env.crypto.sha256(HashInput(env, doc).text))
    ensures Parse(env.contract, doc).value[PrevHash] == Get(env.contract, doc.members, PrevHash)
    ensures Get(env.contract, doc.members, PrevHash).Str?
  {
    hide Get;
    ParsedPlainField(env.contract, doc, RecordHash);
    ParsedPlainField(env.contract, doc, PrevHash);
    ParsedField(env.contract, doc, PrevHash);
  }

  /** Equal hashes mean the same document and the same prev_hash, unless the two collide. */
  lemma SameHashSameDocument(env: Env, a: Value, b: Value, beforeA: Value, beforeB: Value)
    requires Lawful(env.contract) && Readable(env.canonicalize)
    requires Placed(env, a, beforeA) && Placed(env, b, beforeB) && HashOf(env, a) == HashOf(env, b)
    ensures || Collide(env, a, b)
            || (SameUnsigned(env, a, b)
                && Parse(env.contract, a).value[PrevHash] == Parse(env.contract, b).value[PrevHash])
  {
    PlacedFacts(env, a, beforeA);
    PlacedFacts(env, b, beforeB);
    var (x, y) := (HashInput(env, a).text, HashInput(env, b).text);
    if x == y {
      UnsignedWellFormed(env.contract, a);
      UnsignedWellFormed(env.contract, b);
      var (u, v) := (Unsigned(env.contract, a), Unsigned(env.contract, b));
      var (p, q) := (TextOf(Get(env.contract, a.members, PrevHash)), TextOf(Get(env.contract, b.members, PrevHash)));
      assert x == env.canonicalize(u).text + p && y == env.canonicalize(v).text + q;
      SameApart(env, a, b);
    }
  }

  /** The chain check of a well-placed document says which document stands before it. */
  lemma PlaceSaysPredecessor(env: Env, doc: Value, previous: Value)
    requires Lawful(env.contract) && Placed(env, doc, previous)
    requires previous.Null? || (previous.Obj? && !IsPruned(env.contract, previous))
    ensures var prev := Parse(env.contract, doc).value[PrevHash];
            && (prev == Said(env.contract, Genesis) <==> previous.Null?)
            && (previous.Obj? ==> HashOf(env, previous) == prev)
  {
  }

  ghost predicate SameHistory(env: Env, a: seq<Value>, b: seq<Value>) {
    |a| == |b| && forall i :: 0 <= i < |a| ==> SameUnsigned(env, a[i], b[i])
  }

  predicate CanPrecede(env: Env, v: Value) {
    v.Null? || (v.Obj? && !IsPruned(env.contract, v))
  }

  lemma StepBack(env: Env, p: Value, q: Value, beforeP: Value, beforeQ: Value)
    requires Lawful(env.contract) && Readable(env.canonicalize)
    requires Placed(env, p, beforeP) && Placed(env, q, beforeQ) && HashOf(env, p) == HashOf(env, q)
    requires CanPrecede(env, beforeP) && CanPrecede(env, beforeQ)
    ensures || Collide(env, p, q)
            || (&& SameUnsigned(env, p, q)
                && (beforeP.Null? <==> beforeQ.Null?)
                && (beforeP.Obj? && beforeQ.Obj? ==> HashOf(env, beforeP) == HashOf(env, beforeQ)))
  {
    SameHashSameDocument(env, p, q, beforeP, beforeQ);
    PlaceSaysPredecessor(env, p, beforeP);
    PlaceSaysPredecessor(env, q, beforeQ);
  }

  /**
   Two chains that end in the same record_hash are equally long and equal record by record up to
   signatures, or two of their own records, equally far from the head, collide: no record can be
   reordered, inserted, removed, rewritten or forked off without that.
   */
  lemma {:induction false} HeadFixesHistory(env: Env, a: seq<Value>, b: seq<Value>) returns (back: nat)
    requires Lawful(env.contract) && Readable(env.canonicalize)
    requires |a| > 0 && |b| > 0 && Passing(env, a) && Passing(env, b) && NoneHides(env, a) && NoneHides(env, b)
    requires HashOf(env, Last(a)) == HashOf(env, Last(b))
    ensures || SameHistory(env, a, b)
            || (back < |a| && back < |b| && Collide(env, a[|a| - 1 - back], b[|b| - 1 - back]))
    decreases |a|
  {
    hide Placed, Collide, SameUnsigned;
    var (c, d) := (a[..|a| - 1], b[..|b| - 1]);
    PassingFacts(env, a);
    PassingFacts(env, b);
    back := 0;
    StepBack(env, Last(a), Last(b), Last(c), Last(d));
    if !Collide(env, Last(a), Last(b)) {
      if |c| > 0 {
        var earlier := HeadFixesHistory(env, c, d);
        back := earlier + 1;
      }
      if SameHistory(env, c, d) {
        HistoryExtends(env, a, b);
      }
    }
  }

  lemma HistoryExtends(env: Env, a: seq<Value>, b: seq<Value>)
    requires |a| > 0 && |b| > 0 && SameHistory(env, a[..|a| - 1], b[..|b| - 1])
    requires SameUnsigned(env, a[|a| - 1], b[|b| - 1])
    ensures SameHistory(env, a, b)
  {
    forall i | 0 <= i < |a| - 1 ensures SameUnsigned(env, a[i], b[i]) {
      assert SameUnsigned(env, a[..|a| - 1][i], b[..|b| - 1][i]);
    }
  }

  /** What stands before the last document of a chain that hides nothing. */
  lemma PassingFacts(env: Env, docs: seq<Value>)
    requires Lawful(env.contract) && docs != [] && Passing(env, docs) && NoneHides(env, docs)
    ensures var earlier := docs[..|docs| - 1];
            && Passing(env, earlier) && NoneHides(env, earlier) && Placed(env, Last(docs), Last(earlier))
            && CanPrecede(env, Last(earlier)) && (Last(earlier).Null? <==> earlier == [])
  {
    hide CheckChain, CheckRecordHash, HashInput, Parse, IsPruned;
    var earlier := docs[..|docs| - 1];
    if earlier != [] {
      PlacedFacts(env, Last(earlier), Last(earlier[..|earlier| - 1]));
    }
  }

  // ---------------------------------------------------------------------------------- lookalikes

  /**
   Behind an object that says `pruned: true` and names a cutoff the record does not pre-date, as text
   or as anything String() makes a date of, the chain check passes whatever its record_hash is.
   */
  lemma MarkerHidesAnyBreak(env: Env, r: AuditRecord, cutoff: Value, others: seq<Member>)
    requires Lawful(env.contract) && r[PrevHash] != Said(env.contract, Genesis)
    requires StringOf(env, cutoff).Some? && env.dateParse(StringOf(env, cutoff).value).Some? && DateOf(env, r[Ts]).Some?
    requires DateOf(env, r[Ts]).value >= env.dateParse(StringOf(env, cutoff).value).value
    ensures var marked := Obj([Member(env.contract.word(PrunedKey), Bool(true)),
                               Member(env.contract.word(RetainCutoffKey), cutoff)] + others);
            CheckChain(env, r, marked) == Pass(ChainCheck, PrunedOk)
  {
    var c := env.contract;
    var marked := Obj([Member(c.word(PrunedKey), Bool(true)), Member(c.word(RetainCutoffKey), cutoff)] + others);
    assert marked.members[0] == Member(c.word(PrunedKey), Bool(true));
    assert marked.members[1..][0] == Member(c.word(RetainCutoffKey), cutoff);
    assert Prop(c, marked, PrunedKey) == Bool(true);
    assert Lookup(marked.members, c.word(RetainCutoffKey)) == Lookup(marked.members[1..], c.word(RetainCutoffKey));
  }

  /** A record that stays valid with another value in one of its plain fields. */
  lemma ValidWith(c: Contract, r: AuditRecord, f: Field, v: Value)
    requires Lawful(c) && Valid(c, r) && c.accepts(f, v) && !IsNested(f) && !f.Decided? && !f.Reason?
    ensures Valid(c, r[f := v])
  {
    hide Settled, Usable, Lawful;
    AcceptedAsIs(c, f, v);
    var s := r[f := v];
    forall g: Field
      ensures Settled(c, g, s[g])
      ensures Usable(c, g, s[g])
    {
      assert Settled(c, g, r[g]) && Usable(c, g, r[g]);
    }
    assert s[Decided] == r[Decided] && s[Creative] == r[Creative] && s[Reason] == r[Reason];
  }

  /** The document of a record with the two members of a marker behind its own. */
  function Marked(c: Contract, r: AuditRecord, cutoff: JsString): (d: Value)
    ensures d.Obj?
  {
    Obj(Document(c, r).members
        + [Member(c.word(PrunedKey), Bool(true)), Member(c.word(RetainCutoffKey), Str(cutoff))])
  }

  lemma MarkedKeys(env: Env, r: AuditRecord, cutoff: JsString)
    requires Sound(env)
    ensures DistinctKeys(Marked(env.contract, r, cutoff).members)
  {
    var c := env.contract;
    var (m, n) := (Marked(c, r, cutoff).members, Document(c, r).members);
    DocumentKeysDistinct(c, r, FIELD_COUNT);
    forall i | 0 <= i < |n| ensures m[i].key != c.word(PrunedKey) && m[i].key != c.word(RetainCutoffKey) {
      assert m[i] == FieldMember(c, r, FieldAt(i));
      assert c.fieldOf(c.key(FieldAt(i))) == Some(FieldAt(i));
    }
  }

  /** It still reads as the record, and as a marker with that cutoff. */
  lemma MarkedReads(env: Env, r: AuditRecord, cutoff: JsString)
    requires Sound(env)
    ensures var d := Marked(env.contract, r, cutoff);
            && (forall f: Field :: Get(env.contract, d.members, f) == r[f])
            && IsPruned(env.contract, d) && CutoffOf(env, d) == env.dateParse(cutoff)
  {
    var c := env.contract;
    var m := Marked(c, r, cutoff).members;
    MarkedKeys(env, r, cutoff);
    LookupFinds(m, FIELD_COUNT);
    LookupFinds(m, FIELD_COUNT + 1);
    forall f: Field ensures Get(c, m, f) == r[f] {
      FieldsEnumerated(f, 0);
      assert m[Position(f)] == FieldMember(c, r, f);
      LookupFinds(m, Position(f));
    }
  }

  lemma MarkedParses(env: Env, r: AuditRecord, cutoff: JsString)
    requires Sound(env) && Valid(env.contract, r)
    ensures var d := Marked(env.contract, r, cutoff); Parse(env.contract, d) == Some(r) && WellFormed(d) && Accepts(d)
  {
    var c := env.contract;
    var m := Marked(c, r, cutoff).members;
    MarkedKeys(env, r, cutoff);
    MarkedReads(env, r, cutoff);
    NothingStripped(c, m, r);
    forall i | 0 <= i < |m| ensures WellFormed(m[i].value) && Accepts(m[i].value) {
      if i < FIELD_COUNT {
        assert m[i] == FieldMember(c, r, FieldAt(i)) && Usable(c, FieldAt(i), r[FieldAt(i)]);
      }
    }
  }

  /** The marked document with the record_hash it has to carry. */
  function Stamped(env: Env, r: AuditRecord, cutoff: JsString): AuditRecord {
    var hash := ComputeRecordHash(env, Marked(env.contract, r, cutoff));
    if hash.TypeError? then r else r[RecordHash := Str(hash.text)]
  }

  lemma StampedHash(env: Env, r: AuditRecord, cutoff: JsString, hash: JsString)
    requires Sound(env)
    ensures ComputeRecordHash(env, Marked(env.contract, r[RecordHash := Str(hash)], cutoff))
         == ComputeRecordHash(env, Marked(env.contract, r, cutoff))
  {
    hide IsPruned, CutoffOf, Lawful;
    var (c, s) := (env.contract, r[RecordHash := Str(hash)]);
    MarkedReads(env, r, cutoff);
    MarkedReads(env, s, cutoff);
    SignatureInvisible(c, Marked(c, r, cutoff).members, Marked(c, s, cutoff).members);
    assert Unsigned(c, Marked(c, r, cutoff)) == Unsigned(c, Marked(c, s, cutoff));
  }

  /** A marked document passes its own hash check, and stands wherever the record would. */
  lemma StampedStands(env: Env, r: AuditRecord, cutoff: JsString, previous: Value)
    requires Sound(env) && Valid(env.contract, r) && CheckChain(env, Stamped(env, r, cutoff), previous).ok
    ensures var d := Marked(env.contract, Stamped(env, r, cutoff), cutoff);
            Placed(env, d, previous) && IsPruned(env.contract, d) && CutoffOf(env, d) == env.dateParse(cutoff)
  {
    hide Marked, Parse, CheckChain, IsPruned, CutoffOf, Valid;
    var c := env.contract;
    MarkedParses(env, r, cutoff);
    var base := Marked(c, r, cutoff);
    MarkedAccepted(env, r, cutoff);
    var hash := ComputeRecordHash(env, base).text;
    StampedHash(env, r, cutoff, hash);
    ValidWith(c, r, RecordHash, Str(hash));
    MarkedParses(env, Stamped(env, r, cutoff), cutoff);
    MarkedReads(env, Stamped(env, r, cutoff), cutoff);
  }

  lemma MarkedAccepted(env: Env, r: AuditRecord, cutoff: JsString)
    requires Sound(env) && Valid(env.contract, r)
    ensures ComputeRecordHash(env, Marked(env.contract, r, cutoff)).Text?
    ensures var hash := ComputeRecordHash(env, Marked(env.contract, r, cutoff)).text;
            env.contract.isHash(hash) && env.contract.accepts(RecordHash, Str(hash))
  {
    hide Marked, Parse, Valid, Lawful;
    MarkedParses(env, r, cutoff);
    StillAccepted(env.contract, Marked(env.contract, r, cutoff).members);
    assert IsHashField(RecordHash);
  }

  /**
   Without NoneHides no head of two or more records fixes anything: another chain, of another length,
   passes both checks document by document and ends in the very same one.
   */
  lemma AnyHeadHasAnotherPast(env: Env, a: seq<Value>) returns (b: seq<Value>)
    requires Sound(env) && |a| >= 2 && Passing(env, a)
    requires DateOf(env, Parse(env.contract, Last(a)).value[Ts]).Some?
    ensures Passing(env, b) && |b| >= 2 && Last(b) == Last(a) && |b| != |a| && !SameHistory(env, a, b)
  {
    hide Marked, Stamped, Parse, CheckChain, CheckRecordHash, IsPruned, CutoffOf, Valid, Placed, Sound;
    var (c, head, earlier) := (env.contract, Last(a), a[..|a| - 1]);
    assert Placed(env, Last(earlier), Last(earlier[..|earlier| - 1]));
    BehindADocument(env, head, Last(earlier), Last(earlier[..|earlier| - 1]));
    var r := Parse(c, head).value;
    var ts := r[Ts].s;
    var x := FirstMarked(env, r, ts);
    BehindReadable(env, r, x);
    if |a| != 2 {
      b := [x, head];
      Rehung(env, head, Last(earlier), x);
      PassingTwo(env, x, head);
    } else {
      StampedKeeps(env, r, ts);
      BehindReadable(env, Stamped(env, r, ts), x);
      StampedStands(env, r, ts, x);
      var z := Marked(c, Stamped(env, r, ts), ts);
      BehindReadable(env, r, z);
      Rehung(env, head, Last(earlier), z);
      b := [x, z, head];
      PassingTwo(env, x, z);
      assert b[..2] == [x, z];
    }
  }

  lemma BehindADocument(env: Env, doc: Value, previous: Value, earlier: Value)
    requires Sound(env) && Placed(env, doc, previous) && Placed(env, previous, earlier)
    ensures Parse(env.contract, doc).Some?
    ensures var r := Parse(env.contract, doc).value;
            Valid(env.contract, r) && r[PrevHash] != Said(env.contract, Genesis)
  {
    hide Valid, Parse;
    PlacedFacts(env, previous, earlier);
    ParsedIsValid(env.contract, doc);
  }

  lemma Rehung(env: Env, doc: Value, previous: Value, other: Value)
    requires Placed(env, doc, previous) && CheckChain(env, Parse(env.contract, doc).value, other).ok
    ensures Placed(env, doc, other)
  {
  }

  lemma StampedKeeps(env: Env, r: AuditRecord, cutoff: JsString)
    ensures Stamped(env, r, cutoff)[PrevHash] == r[PrevHash] && Stamped(env, r, cutoff)[Ts] == r[Ts]
  {
  }

  /** A marked document that opens a chain. */
  lemma FirstMarked(env: Env, r: AuditRecord, cutoff: JsString) returns (x: Value)
    requires Sound(env) && Valid(env.contract, r)
    ensures Placed(env, x, Null) && IsPruned(env.contract, x) && CutoffOf(env, x) == env.dateParse(cutoff)
  {
    hide Marked, Stamped, Parse, IsPruned, CutoffOf, Valid, Placed;
    var c := env.contract;
    var first := r[PrevHash := Said(c, Genesis)];
    ValidWith(c, r, PrevHash, Said(c, Genesis));
    StampedKeeps(env, first, cutoff);
    StampedStands(env, first, cutoff, Null);
    x := Marked(c, Stamped(env, first, cutoff), cutoff);
  }

  lemma PassingTwo(env: Env, x: Value, y: Value)
    requires Placed(env, x, Null) && Placed(env, y, x)
    ensures Passing(env, [x, y])
  {
    assert [x, y][..1] == [x] && [x][..0] == [];
  }

  /**
   When a passing chain check pins the predecessor of every valid record to its prev_hash: exactly
   when that object is not a marker with a readable cutoff. `r0` is any valid record, `later` any
   date from the cutoff on, `one` and `two` are two digests.
   */
  lemma ChainPinsPredecessor(env: Env, previous: Value, r0: AuditRecord, later: JsString, one: JsString, two: JsString)
    requires Sound(env) && previous.Obj? && Valid(env.contract, r0)
    requires one != two && env.contract.isHash(one) && env.contract.isHash(two)
    requires CutoffOf(env, previous).Some? ==>
               && env.contract.accepts(Ts, Str(later)) && env.dateParse(later).Some?
               && env.dateParse(later).value >= CutoffOf(env, previous).value
    ensures (forall r: AuditRecord :: Valid(env.contract, r) && r[PrevHash] != Said(env.contract, Genesis) && CheckChain(env, r, previous).ok ==>
               Peek(env.contract, previous, RecordHash) == r[PrevHash])
       <==> !(IsPruned(env.contract, previous) && CutoffOf(env, previous).Some?)
  {
    hide Valid;
    var c := env.contract;
    if IsPruned(c, previous) && CutoffOf(env, previous).Some? {
      var hash := if Str(one) != Peek(c, previous, RecordHash) then one else two;
      var r := Hanging(env, r0, hash, later);
      BehindReadable(env, r, previous);
      assert Valid(c, r) && CheckChain(env, r, previous).ok;
    }
  }

  /** A valid record that hangs behind whatever `hash` is a digest of, dated `later`. */
  lemma Hanging(env: Env, r0: AuditRecord, hash: JsString, later: JsString) returns (r: AuditRecord)
    requires Sound(env) && Valid(env.contract, r0) && env.contract.isHash(hash) && env.contract.accepts(Ts, Str(later))
    ensures Valid(env.contract, r) && r[PrevHash] == Str(hash) && r[Ts] == Str(later)
    ensures r[PrevHash] != Said(env.contract, Genesis)
  {
    hide Valid;
    assert IsHashField(PrevHash);
    ValidWith(env.contract, r0, PrevHash, Str(hash));
    r := r0[PrevHash := Str(hash)];
    ValidWith(env.contract, r, Ts, Str(later));
    r := r[Ts := Str(later)];
  }

  lemma BehindReadable(env: Env, r: AuditRecord, marked: Value)
    requires r[PrevHash] != Said(env.contract, Genesis) && IsPruned(env.contract, marked) && CutoffOf(env, marked).Some?
    requires DateOf(env, r[Ts]).Some? && DateOf(env, r[Ts]).value >= CutoffOf(env, marked).value
    ensures CheckChain(env, r, marked).ok
  {
  }
}
