/**
 Redaction preserves verdicts: every reported record verifies from the bundle as it verifies from
 the database, although a predecessor is cut down to two fields, and no document leaves in full
 unless it is a reported record or an older version of one.
 */
module ReportBundleLaws {
  import opened Options
  import opened Utf16
  import opened CanonicalJson
  import opened AuditRecords
  import opened Chain
  import opened Verify
  import opened VerifyLaws
  import opened RecordBuilder
  import opened ChainStore
  import opened ChainVerdicts
  import opened ReportBundle

  // ------------------------------------------------------------- what a verdict does not depend on

  /** Two contexts that differ in the predecessor only; where their heaps keep the nested one is no matter. */
  predicate SameButPrevious(a: Context, b: Context) {
    a == b.(prevRecord := a.prevRecord, superseded := a.superseded)
  }

  predicate PlacedAlike(a: Placed, b: Placed) {
    && SameButPrevious(a.context, b.context)
    && SameButPrevious(ContextAt(a.heap, a.context.superseded), ContextAt(b.heap, b.context.superseded))
  }

  /** Of the seven own checks the predecessor decides one. */
  lemma OwnChecksAlike(env: Env, raw: Value, r: AuditRecord, ring: KeyRing, a: Context, b: Context)
    requires raw.Obj? && SameButPrevious(a, b)
    ensures var (x, y) := (OwnChecks(env, raw, r, ring, a), OwnChecks(env, raw, r, ring, b));
            && |x| == |y| == 7 && (forall i :: 0 <= i < 7 && i != 2 ==> x[i] == y[i])
            && x[2] == CheckChain(env, r, a.prevRecord) && y[2] == CheckChain(env, r, b.prevRecord)
  {
  }

  lemma StepsAlike(env: Env, r: AuditRecord, a: Placed, b: Placed)
    requires PlacedAlike(a, b)
    ensures var (x, y) := (SupersedesFirst(env, r, a.context, a.heap), SupersedesFirst(env, r, b.context, b.heap));
            if x.Settle? then x == y
            else && y.Recurse? && x.superseded == y.superseded == a.context.supersededRecord
                 && SameButPrevious(x.context, y.context)
                 && x.context.prevRecord == ContextAt(a.heap, a.context.superseded).prevRecord
                 && y.context.prevRecord == ContextAt(b.heap, b.context.superseded).prevRecord
  {
  }

  lemma {:induction false} FailedNamesHold(checks: seq<Check>, name: CheckName)
    ensures name in FailedNames(checks) <==> exists i :: 0 <= i < |checks| && !checks[i].ok && checks[i].name == name
  {
    if checks != [] {
      FailedNamesHold(checks[1..], name);
      assert forall i :: 0 < i < |checks| ==> checks[i] == checks[1..][i - 1];
    }
  }

  lemma {:induction false} SameFailedNames(x: seq<Check>, y: seq<Check>)
    requires |x| == |y| && forall i :: 0 <= i < |x| ==> x[i].ok == y[i].ok && x[i].name == y[i].name
    ensures FailedNames(x) == FailedNames(y) && Respond(x).valid == Respond(y).valid
  {
    if x != [] {
      assert forall i :: 0 < i < |x| ==> x[i] == x[1..][i - 1] && y[i] == y[1..][i - 1];
      SameFailedNames(x[1..], y[1..]);
    }
  }

  /** What the attestation says of its original changes exactly when the original's chain check turns. */
  lemma NestedDecided(x: seq<Check>, y: seq<Check>, at: nat)
    requires at < |x| == |y| && (forall i :: 0 <= i < |x| && i != at ==> x[i] == y[i])
    requires x[at].name == y[at].name && forall i :: 0 <= i < |x| && i != at ==> x[i].name != x[at].name
    ensures SupersedesLast(Respond(x)) == SupersedesLast(Respond(y)) <==> x[at].ok == y[at].ok
  {
    if x[at].ok == y[at].ok {
      SameFailedNames(x, y);
    } else {
      FailedNamesHold(x, x[at].name);
      FailedNamesHold(y, x[at].name);
    }
  }

  lemma OriginalsDecided(env: Env, raw: Value, ring: KeyRing, a: Context, b: Context)
    requires SameButPrevious(a, b) && Parse(env.contract, raw).Some?
    ensures var r := Parse(env.contract, raw).value;
            SupersedesLast(VerifyOriginal(env, raw, ring, a)) == SupersedesLast(VerifyOriginal(env, raw, ring, b))
            <==> CheckChain(env, r, a.prevRecord).ok == CheckChain(env, r, b.prevRecord).ok
  {
    var r := Parse(env.contract, raw).value;
    OwnChecksAlike(env, raw, r, ring, a, b);
    OwnNames(env, raw, r, ring, a);
    var settled := [Pass(SupersedesCheck, NotApplicable)];
    var (x, y) := (OwnChecks(env, raw, r, ring, a) + settled, OwnChecks(env, raw, r, ring, b) + settled);
    NestedDecided(x, y, 2);
  }

  lemma OwnNames(env: Env, raw: Value, r: AuditRecord, ring: KeyRing, ctx: Context)
    requires raw.Obj?
    ensures var own := OwnChecks(env, raw, r, ring, ctx);
            |own| == 7 && own[2].name == ChainCheck && forall i :: 0 <= i < 7 && i != 2 ==> own[i].name != ChainCheck && own[i].name != SupersedesCheck
  {
  }

  lemma LastDecided(env: Env, r: AuditRecord, ring: KeyRing, a: Placed, b: Placed)
    requires Lawful(env.contract) && PlacedAlike(a, b)
    ensures SupersedesFirst(env, r, a.context, a.heap).Recurse? ==> Parse(env.contract, a.context.supersededRecord).Some?
    ensures LastOf(env, r, ring, a) == LastOf(env, r, ring, b) <==> NestedChainAgrees(env, r, a, b)
  {
    StepsAlike(env, r, a, b);
    var (x, y) := (SupersedesFirst(env, r, a.context, a.heap), SupersedesFirst(env, r, b.context, b.heap));
    if x.Recurse? {
      RecursesIntoPrior(env, r, a.context, a.heap);
      OriginalHasNoPrior(env.contract, r, a.context.supersededRecord);
      OriginalsDecided(env, x.superseded, ring, x.context, y.context);
    }
  }

  /** The eighth check, of two levels. */
  function LastOf(env: Env, r: AuditRecord, ring: KeyRing, p: Placed): Check {
    var step := SupersedesFirst(env, r, p.context, p.heap);
    if step.Settle? then step.check else SupersedesLast(VerifyOriginal(env, step.superseded, ring, step.context))
  }

  /** Where the supersedes check looks into the older version, that version's chain check passes in both or neither. */
  predicate NestedChainAgrees(env: Env, r: AuditRecord, a: Placed, b: Placed) {
    var prior := Parse(env.contract, a.context.supersededRecord);
    SupersedesFirst(env, r, a.context, a.heap).Recurse? && prior.Some? ==>
      CheckChain(env, prior.value, ContextAt(a.heap, a.context.superseded).prevRecord).ok
      == CheckChain(env, prior.value, ContextAt(b.heap, b.context.superseded).prevRecord).ok
  }

  /**
   Contexts that differ in predecessors only give one and the same response exactly when the chain
   check answers the same, and the older version's chain check, where it is asked, turns out the same.
   */
  lemma ResponsesDecided(env: Env, raw: Value, ring: KeyRing, a: Placed, b: Placed)
    requires Lawful(env.contract) && PlacedAlike(a, b) && Parse(env.contract, raw).Some?
    ensures var r := Parse(env.contract, raw).value;
            VerifyWith(env, raw, ring, a.context, a.heap) == VerifyWith(env, raw, ring, b.context, b.heap)
            <==> CheckChain(env, r, a.context.prevRecord) == CheckChain(env, r, b.context.prevRecord) && NestedChainAgrees(env, r, a, b)
  {
    hide OwnChecks, SupersedesFirst, CheckChain, VerifyOriginal, Parse, Lawful, PlacedAlike, NestedChainAgrees;
    var r := Parse(env.contract, raw).value;
    ParsedObject(env.contract, raw);
    TwoLevels(env, raw, ring, a);
    TwoLevels(env, raw, ring, b);
    ContextsOf(a, b);
    OwnChecksAlike(env, raw, r, ring, a.context, b.context);
    LastDecided(env, r, ring, a, b);
    var (x, y) := (OwnChecks(env, raw, r, ring, a.context), OwnChecks(env, raw, r, ring, b.context));
    Appended(x, y, LastOf(env, r, ring, a), LastOf(env, r, ring, b));
  }

  lemma ContextsOf(a: Placed, b: Placed)
    requires PlacedAlike(a, b)
    ensures SameButPrevious(a.context, b.context)
  {
  }

  lemma ParsedObject(c: Contract, raw: Value)
    requires Parse(c, raw).Some?
    ensures raw.Obj?
  {
  }

  lemma Appended(x: seq<Check>, y: seq<Check>, p: Check, q: Check)
    requires |x| == |y| == 7 && forall i :: 0 <= i < 7 && i != 2 ==> x[i] == y[i]
    ensures Respond(x + [p]) == Respond(y + [q]) <==> x[2] == y[2] && p == q
  {
    if Respond(x + [p]) == Respond(y + [q]) {
      assert (x + [p])[2] == (y + [q])[2] && (x + [p])[7] == (y + [q])[7];
    }
    if x[2] == y[2] {
      assert x == y;
    }
  }

  lemma TwoLevels(env: Env, raw: Value, ring: KeyRing, p: Placed)
    requires Lawful(env.contract) && Parse(env.contract, raw).Some?
    ensures var r := Parse(env.contract, raw).value;
            raw.Obj? && VerifyWith(env, raw, ring, p.context, p.heap) == Respond(OwnChecks(env, raw, r, ring, p.context) + [LastOf(env, r, ring, p)])
  {
    hide OwnChecks, SupersedesFirst, VerifyOriginal, SupersedesLast;
    OneLevelIsEnough(env, raw, ring, p.context, p.heap);
  }

  // -------------------------------------------------------------------------- what is collected

  ghost predicate Listed(records: seq<Supporting>, e: Entry) {
    exists s <- records :: s.entry == e
  }

  ghost predicate ListedAsOlder(records: seq<Supporting>, hash: JsString) {
    exists s <- records :: s.entry.recordHash == hash && s.role.SupersededRole?
  }

  ghost predicate HashKept(kept: seq<Kept>, hash: JsString) {
    exists k <- kept :: k.entry.recordHash == hash
  }

  ghost predicate FullIn(kept: seq<Kept>, hash: JsString) {
    exists k <- kept :: k.entry.recordHash == hash && k.full
  }

  predicate DistinctHashes(kept: seq<Kept>) {
    forall i, j :: 0 <= i < j < |kept| ==> kept[i].entry.recordHash != kept[j].entry.recordHash
  }

  lemma KeepMeans(kept: seq<Kept>, s: Supporting)
    requires DistinctHashes(kept)
    ensures DistinctHashes(Keep(kept, s)) && HashKept(Keep(kept, s), s.entry.recordHash)
    ensures forall hash :: HashKept(kept, hash) ==> HashKept(Keep(kept, s), hash)
    ensures forall k <- Keep(kept, s) ::
              if k.entry.recordHash != s.entry.recordHash then k in kept
              else k.entry == s.entry && (k.full <==> (s.role.SupersededRole? || FullIn(kept, s.entry.recordHash)))
  {
    var at := KeptAt(kept, s.entry.recordHash);
    var next := Keep(kept, s);
    var i := if at.None? then |kept| else at.value;
    assert next[i] in next;
    forall hash | HashKept(kept, hash) ensures HashKept(next, hash) {
      var j :| 0 <= j < |kept| && kept[j].entry.recordHash == hash;
      assert next[j] in next;
    }
    if at.Some? {
      assert kept[at.value] in kept;
    }
  }

  /** Map.set over the supporting records: one entry a hash, full when any of them was an older version. */
  lemma {:induction false} CollectedMeans(records: seq<Supporting>, reported: set<JsString>)
    ensures DistinctHashes(Collected(records, reported))
    ensures forall k <- Collected(records, reported) ::
              && Listed(records, k.entry) && k.entry.recordHash !in reported
              && (k.full <==> ListedAsOlder(records, k.entry.recordHash))
    ensures forall s <- records :: s.entry.recordHash in reported || HashKept(Collected(records, reported), s.entry.recordHash)
  {
    if records != [] {
      var (init, last) := (records[..|records| - 1], records[|records| - 1]);
      assert records == init + [last];
      CollectedMeans(init, reported);
      var rest := Collected(init, reported);
      if last.entry.recordHash !in reported {
        KeepMeans(rest, last);
        CollectedStep(init, last, rest);
      } else {
        GrowOther(init, last);
      }
    }
  }

  lemma GrowOther(init: seq<Supporting>, last: Supporting)
    ensures forall e :: Listed(init + [last], e) <==> Listed(init, e) || last.entry == e
    ensures forall hash :: ListedAsOlder(init + [last], hash) <==>
              ListedAsOlder(init, hash) || (last.entry.recordHash == hash && last.role.SupersededRole?)
  {
    var all := init + [last];
    assert forall s :: s in all <==> s in init || s == last;
  }

  lemma CollectedStep(init: seq<Supporting>, last: Supporting, rest: seq<Kept>)
    requires DistinctHashes(rest)
    requires forall k <- rest :: k.full <==> ListedAsOlder(init, k.entry.recordHash)
    requires forall s <- init | s.entry.recordHash == last.entry.recordHash :: HashKept(rest, s.entry.recordHash)
    ensures forall k <- Keep(rest, last) :: k.full <==> ListedAsOlder(init + [last], k.entry.recordHash)
    ensures forall k <- Keep(rest, last) :: k in rest || k.entry == last.entry
    ensures forall e :: Listed(init + [last], e) <==> Listed(init, e) || last.entry == e
  {
    GrowOther(init, last);
    KeepMeans(rest, last);
  }

  lemma {:induction false} UniqueMeans(records: seq<Entry>)
    ensures DistinctHashes(Unique(records))
    ensures forall k <- Unique(records) :: k.full && k.entry in records
    ensures forall e <- records :: HashKept(Unique(records), e.recordHash)
  {
    if records != [] {
      var (init, last) := (records[..|records| - 1], records[|records| - 1]);
      UniqueMeans(init);
      KeepMeans(Unique(init), Supporting(last, SupersededRole));
    }
  }

  // ------------------------------------------------------------------------------- the entries

  /** The columns copy the document. */
  ghost predicate Agrees(c: Contract, row: StoredRow) {
    && row.document.Obj?
    && Peek(c, row.document, RecordHash) == Str(row.recordHash)
    && Peek(c, row.document, AppId) == Str(row.appId)
    && row.supersedesHash == (var h := Peek(c, row.document, SupersedesHash); if h.Str? then Some(h.s) else None)
  }

  /** Positions and hashes are unique: the two keys of the table. */
  ghost predicate Keyed(rows: seq<StoredRow>) {
    && (forall a <- rows, b <- rows :: a.appId == b.appId && a.position == b.position ==> a == b)
    && (forall a <- rows, b <- rows :: a.recordHash == b.recordHash ==> a == b)
  }

  ghost predicate Consistent(c: Contract, rows: seq<StoredRow>) {
    Keyed(rows) && forall row <- rows :: Agrees(c, row)
  }

  ghost predicate CopyOf(c: Contract, e: Entry, row: StoredRow) {
    e == EntryOf(row) || e == ChainReference(c, EntryOf(row))
  }

  ghost predicate FromStore(c: Contract, rows: seq<StoredRow>, e: Entry) {
    exists row <- rows :: CopyOf(c, e, row)
  }

  lemma ArrangedIn(arrange: Arrange, s: seq<Entry>, e: Entry)
    requires Rearranges(arrange)
    ensures e in arrange(s) <==> e in s
  {
    assert e in multiset(arrange(s)) <==> e in multiset(s);
  }

  lemma {:induction false} SupportFromStore(rows: seq<StoredRow>, reported: seq<StoredRow>)
    ensures forall s <- SupportOfAll(rows, reported) :: exists row <- rows :: s.entry == EntryOf(row)
  {
    if reported != [] {
      SupportFromStore(rows, reported[1..]);
      forall s | s in SupportOf(rows, reported[0]) ensures exists row <- rows :: s.entry == EntryOf(row) {
      }
    }
  }

  /** An older version is collected only for the reported record whose column names it. */
  lemma {:induction false} OlderVersionsNamed(rows: seq<StoredRow>, reported: seq<StoredRow>)
    ensures forall s <- SupportOfAll(rows, reported) | s.role.SupersededRole? ::
              exists r <- reported :: r.supersedesHash == Some(s.entry.recordHash)
  {
    if reported != [] {
      OlderVersionsNamed(rows, reported[1..]);
      forall s | s in SupportOf(rows, reported[0]) && s.role.SupersededRole?
        ensures reported[0].supersedesHash == Some(s.entry.recordHash)
      {
      }
    }
  }

  lemma {:induction false} SupportIncluded(rows: seq<StoredRow>, reported: seq<StoredRow>, row: StoredRow)
    requires row in reported
    ensures forall s <- SupportOf(rows, row) :: s in SupportOfAll(rows, reported)
  {
    if row != reported[0] {
      SupportIncluded(rows, reported[1..], row);
    }
  }

  lemma EntryIsReported(reported: seq<StoredRow>, e: Entry)
    requires e in EntriesOf(reported)
    ensures exists r <- reported :: e == EntryOf(r)
  {
    var i :| 0 <= i < |reported| && EntriesOf(reported)[i] == e;
    assert reported[i] in reported;
  }

  lemma ReportedHasEntry(reported: seq<StoredRow>, row: StoredRow)
    requires row in reported
    ensures EntryOf(row) in EntriesOf(reported)
  {
    var i :| 0 <= i < |reported| && reported[i] == row;
    assert EntriesOf(reported)[i] == EntryOf(row);
  }

  lemma ShownIn(c: Contract, kept: seq<Kept>, e: Entry)
    ensures e in ShownAll(c, kept) <==> exists k <- kept :: e == Shown(c, k)
  {
    if e in ShownAll(c, kept) {
      var i :| 0 <= i < |kept| && ShownAll(c, kept)[i] == e;
      assert kept[i] in kept;
    }
    if exists k <- kept :: e == Shown(c, k) {
      var i :| 0 <= i < |kept| && e == Shown(c, kept[i]);
      assert ShownAll(c, kept)[i] == e;
    }
  }

  lemma RecordEntries(c: Contract, rows: seq<StoredRow>, reported: seq<StoredRow>, creatives: seq<BundleCreative>, arrange: Arrange, e: Entry)
    requires Rearranges(arrange) && e in BundleOf(c, rows, reported, creatives, arrange).records
    ensures exists r <- reported :: e == EntryOf(r)
  {
    var records := EntriesOf(reported);
    ArrangedIn(arrange, ShownAll(c, Unique(records)), e);
    ShownIn(c, Unique(records), e);
    UniqueMeans(records);
    EntryIsReported(reported, e);
  }

  lemma SupportingEntry(c: Contract, rows: seq<StoredRow>, reported: seq<StoredRow>, creatives: seq<BundleCreative>, arrange: Arrange, e: Entry)
    requires Rearranges(arrange) && e in BundleOf(c, rows, reported, creatives, arrange).supporting
    ensures FromStore(c, rows, e)
    ensures e.redacted ==> e.document == ReferenceDocument(c, e.recordHash, e.appId)
    ensures e.redacted <==> !ListedAsOlder(SupportOfAll(rows, reported), e.recordHash)
    ensures forall r <- reported :: r.recordHash != e.recordHash
  {
    var (support, hashes) := (SupportOfAll(rows, reported), HashesOf(EntriesOf(reported)));
    var kept := Collected(support, hashes);
    ArrangedIn(arrange, ShownAll(c, kept), e);
    ShownIn(c, kept, e);
    CollectedMeans(support, hashes);
    SupportFromStore(rows, reported);
    var k :| k in kept && e == Shown(c, k);
    assert Listed(support, k.entry);
    forall r | r in reported ensures r.recordHash != e.recordHash {
      ReportedHasEntry(reported, r);
    }
  }

  /**
   No competitor's document leaves: whatever the bundle holds in full is a reported record or the
   version a reported record supersedes, and anything else is two fields.
   */
  lemma OnlyOwnDocumentsInFull(c: Contract, rows: seq<StoredRow>, reported: seq<StoredRow>, creatives: seq<BundleCreative>, arrange: Arrange, e: Entry)
    requires Rearranges(arrange) && e in All(BundleOf(c, rows, reported, creatives, arrange))
    ensures if e.redacted then e.document == ReferenceDocument(c, e.recordHash, e.appId)
            else (exists r <- reported :: e == EntryOf(r)) || (exists r <- reported :: r.supersedesHash == Some(e.recordHash))
  {
    var bundle := BundleOf(c, rows, reported, creatives, arrange);
    if e in bundle.records {
      RecordEntries(c, rows, reported, creatives, arrange, e);
    } else {
      SupportingEntry(c, rows, reported, creatives, arrange, e);
      OlderVersionsNamed(rows, reported);
    }
  }

  lemma EveryEntryFromStore(c: Contract, rows: seq<StoredRow>, reported: seq<StoredRow>, creatives: seq<BundleCreative>, arrange: Arrange, e: Entry)
    requires Rearranges(arrange) && e in All(BundleOf(c, rows, reported, creatives, arrange))
    requires forall r <- reported :: r in rows
    ensures FromStore(c, rows, e)
  {
    if e in BundleOf(c, rows, reported, creatives, arrange).records {
      RecordEntries(c, rows, reported, creatives, arrange, e);
      var r :| r in reported && e == EntryOf(r);
      assert CopyOf(c, e, r);
    } else {
      SupportingEntry(c, rows, reported, creatives, arrange, e);
    }
  }

  lemma HashInRecords(c: Contract, rows: seq<StoredRow>, reported: seq<StoredRow>, creatives: seq<BundleCreative>, arrange: Arrange, row: StoredRow)
    requires Rearranges(arrange) && row in reported
    ensures exists e <- BundleOf(c, rows, reported, creatives, arrange).records :: e.recordHash == row.recordHash
  {
    var records := EntriesOf(reported);
    ReportedHasEntry(reported, row);
    UniqueMeans(records);
    var k :| k in Unique(records) && k.entry.recordHash == EntryOf(row).recordHash;
    ShownIn(c, Unique(records), k.entry);
    ArrangedIn(arrange, ShownAll(c, Unique(records)), k.entry);
  }

  /** Whatever was collected is in the bundle under its hash. */
  lemma SupportIsThere(c: Contract, rows: seq<StoredRow>, reported: seq<StoredRow>, creatives: seq<BundleCreative>, arrange: Arrange, s: Supporting)
    requires Rearranges(arrange) && s in SupportOfAll(rows, reported)
    ensures exists e <- All(BundleOf(c, rows, reported, creatives, arrange)) :: e.recordHash == s.entry.recordHash
  {
    var (support, hashes) := (SupportOfAll(rows, reported), HashesOf(EntriesOf(reported)));
    var bundle := BundleOf(c, rows, reported, creatives, arrange);
    var hash := s.entry.recordHash;
    if hash in hashes {
      var r :| r in EntriesOf(reported) && r.recordHash == hash;
      EntryIsReported(reported, r);
      var row :| row in reported && r == EntryOf(row);
      HashInRecords(c, rows, reported, creatives, arrange, row);
      var e :| e in bundle.records && e.recordHash == hash;
      assert e in All(bundle);
    } else {
      var kept := Collected(support, hashes);
      CollectedMeans(support, hashes);
      var k :| k in kept && k.entry.recordHash == hash;
      var e := Shown(c, k);
      ShownIn(c, kept, e);
      ArrangedIn(arrange, ShownAll(c, kept), e);
      assert e in All(bundle) && e.recordHash == hash;
    }
  }

  // --------------------------------------------------------------------------------- neighbours

  lemma MarkerKeyIsNoField(c: Contract, f: Field)
    requires Lawful(c)
    ensures c.key(f) != c.word(PrunedKey)
  {
    assert c.fieldOf(c.key(f)) == Some(f);
  }

  lemma ReferenceReads(c: Contract, hash: JsString, app: JsString)
    requires Lawful(c)
    ensures var d := ReferenceDocument(c, hash, app);
            d.Obj? && !IsPruned(c, d) && Peek(c, d, RecordHash) == Str(hash) && Peek(c, d, AppId) == Str(app)
  {
    MarkerKeyIsNoField(c, RecordHash);
    MarkerKeyIsNoField(c, AppId);
    var m := ReferenceDocument(c, hash, app).members;
    assert c.fieldOf(c.key(RecordHash)) == Some(RecordHash) && c.fieldOf(c.key(AppId)) == Some(AppId);
    LookupMisses(m, c.word(PrunedKey));
    LookupFinds(m, 0);
    LookupFinds(m, 1);
  }

  ghost predicate Holds(c: Contract, rows: seq<StoredRow>, entries: seq<Entry>) {
    forall e <- entries :: FromStore(c, rows, e)
  }

  ghost predicate HashPresent(entries: seq<Entry>, hash: JsString) {
    exists e <- entries :: e.recordHash == hash
  }

  /** A neighbour that exists is found in the bundle, whole or cut down, and nothing else is. */
  lemma NeighbourFound(c: Contract, rows: seq<StoredRow>, entries: seq<Entry>, row: StoredRow)
    requires Keyed(rows) && Holds(c, rows, entries) && row.position > 1
    requires RowBefore(rows, row).Some? ==> HashPresent(entries, RowBefore(rows, row).value.recordHash)
    ensures var found := LastAt(entries, row.appId, row.position - 1);
            && (found.Some? <==> RowBefore(rows, row).Some?)
            && (found.Some? ==> CopyOf(c, found.value, RowBefore(rows, row).value))
  {
    hide LastAt, RowAt;
    var (previous, found) := (RowBefore(rows, row), LastAt(entries, row.appId, row.position - 1));
    if previous.Some? {
      var e :| e in entries && e.recordHash == previous.value.recordHash;
      assert FromStore(c, rows, e);
      var p :| p in rows && CopyOf(c, e, p);
      assert p == previous.value;
    }
    if found.Some? {
      assert FromStore(c, rows, found.value);
      var q :| q in rows && CopyOf(c, found.value, q);
      assert q.appId == row.appId && q.position == row.position - 1;
    }
  }

  // ------------------------------------------------------------------------------ the contexts

  function ParsedCreativeId(c: Contract, document: Value): Value {
    var parsed := Parse(c, document);
    if parsed.None? then Undefined else Prop(c, parsed.value[Creative], CreativeIdKey)
  }

  /** listReportCreatives: the stored creatives that the reported records name. */
  ghost predicate ListsCreatives(c: Contract, creatives: seq<BundleCreative>, catalog: Catalog, reported: seq<StoredRow>) {
    && (forall b <- creatives :: b.id in catalog && catalog[b.id] == b.content)
    && (forall r <- reported :: var id := ParsedCreativeId(c, r.document);
          id.Str? && id.s in catalog ==> exists b <- creatives :: b.id == id.s)
  }

  lemma {:induction false} CreativeListed(env: Env, creatives: seq<BundleCreative>, catalog: Catalog, id: JsString)
    requires forall b <- creatives :: b.id in catalog && catalog[b.id] == b.content
    ensures LastCreative(env, creatives, id) ==
            if (exists b <- creatives :: b.id == id) then Some(ContentHash(env, catalog[id])) else None
  {
    if creatives != [] {
      var (init, last) := (creatives[..|creatives| - 1], creatives[|creatives| - 1]);
      assert creatives == init + [last] && last in creatives;
      assert forall b :: b in creatives <==> b in init || b == last;
      CreativeListed(env, init, catalog, id);
    }
  }

  lemma CreativeHashAlike(env: Env, store: Store, reported: seq<StoredRow>, creatives: seq<BundleCreative>, row: StoredRow)
    requires Lawful(env.contract) && KeepsCreativeId(env.contract) && row in reported
    requires ListsCreatives(env.contract, creatives, store.catalog, reported) && Parse(env.contract, row.document).Some?
    ensures CreativeHashIn(env, creatives, Parse(env.contract, row.document).value)
         == RowContext(env, store, row).context.storedCreativeHash
  {
    var c := env.contract;
    var raw := Get(c, row.document.members, Creative);
    var kept := c.strip(Creative, raw);
    assert c.accepts(Creative, raw) && Parse(c, row.document).value[Creative] == kept;
    assert Usable(c, Creative, kept);
    var id := Prop(c, kept, CreativeIdKey);
    assert id == CreativeIdOf(c, row.document);
    if id.Str? {
      CreativeListed(env, creatives, store.catalog, id.s);
      assert ParsedCreativeId(c, row.document) == id;
    }
  }

  /** The row before was not pruned, and is not a document that a chain check would read as a marker. */
  ghost predicate NeighbourKept(c: Contract, store: Store, row: StoredRow) {
    var previous := RowBefore(store.rows, row);
    !PrunedBefore(store, row) && (previous.Some? ==> !IsPruned(c, previous.value.document))
  }

  /** So for the record and for the version it supersedes. */
  ghost predicate NeighboursKept(c: Contract, store: Store, row: StoredRow) {
    var superseded := SupersededRow(c, store.rows, row.document);
    NeighbourKept(c, store, row) && (superseded.Some? ==> NeighbourKept(c, store, superseded.value))
  }

  /** The query behind a report: stored rows, the latest version of each id. */
  ghost predicate Reportable(rows: seq<StoredRow>, reported: seq<StoredRow>) {
    forall r <- reported :: r in rows && r.isLatest
  }

  lemma BundleHolds(c: Contract, rows: seq<StoredRow>, reported: seq<StoredRow>, creatives: seq<BundleCreative>, arrange: Arrange)
    requires Rearranges(arrange) && Reportable(rows, reported)
    ensures Holds(c, rows, All(BundleOf(c, rows, reported, creatives, arrange)))
  {
    forall e | e in All(BundleOf(c, rows, reported, creatives, arrange)) ensures FromStore(c, rows, e) {
      EveryEntryFromStore(c, rows, reported, creatives, arrange, e);
    }
  }

  lemma SupportPresent(c: Contract, rows: seq<StoredRow>, reported: seq<StoredRow>, creatives: seq<BundleCreative>, arrange: Arrange,
                       row: StoredRow, s: Supporting)
    requires Rearranges(arrange) && row in reported && s in SupportOf(rows, row)
    ensures HashPresent(All(BundleOf(c, rows, reported, creatives, arrange)), s.entry.recordHash)
  {
    SupportIncluded(rows, reported, row);
    SupportIsThere(c, rows, reported, creatives, arrange, s);
  }

  lemma OlderVersionPresent(c: Contract, rows: seq<StoredRow>, reported: seq<StoredRow>, creatives: seq<BundleCreative>, arrange: Arrange,
                            row: StoredRow)
    requires Rearranges(arrange) && row in reported && ColumnSuperseded(rows, row).Some?
    ensures HashPresent(All(BundleOf(c, rows, reported, creatives, arrange)), ColumnSuperseded(rows, row).value.recordHash)
    ensures ListedAsOlder(SupportOfAll(rows, reported), ColumnSuperseded(rows, row).value.recordHash)
  {
    var s := Supporting(EntryOf(ColumnSuperseded(rows, row).value), SupersededRole);
    assert s in SupportOf(rows, row);
    SupportPresent(c, rows, reported, creatives, arrange, row, s);
    SupportIncluded(rows, reported, row);
  }

  /** The version a reported record supersedes is in the bundle whole. */
  lemma OlderVersionWhole(c: Contract, rows: seq<StoredRow>, reported: seq<StoredRow>, creatives: seq<BundleCreative>, arrange: Arrange,
                          row: StoredRow)
    requires Rearranges(arrange) && Reportable(rows, reported) && Keyed(rows) && row in reported
    requires row.supersedesHash.Some?
    ensures var (prior, found) := (ColumnSuperseded(rows, row),
                                   LastHashed(All(BundleOf(c, rows, reported, creatives, arrange)), row.supersedesHash.value));
            found == if prior.Some? then Some(EntryOf(prior.value)) else None
  {
    var entries := All(BundleOf(c, rows, reported, creatives, arrange));
    var (prior, found) := (ColumnSuperseded(rows, row), LastHashed(entries, row.supersedesHash.value));
    BundleHolds(c, rows, reported, creatives, arrange);
    if prior.Some? {
      OlderVersionPresent(c, rows, reported, creatives, arrange, row);
      assert found.Some?;
    }
    if found.Some? {
      OnlyVersionOfHash(c, rows, found.value, prior);
      WholeOrReported(c, rows, reported, creatives, arrange, found.value);
    }
  }

  lemma OnlyVersionOfHash(c: Contract, rows: seq<StoredRow>, e: Entry, prior: Option<StoredRow>)
    requires Keyed(rows) && FromStore(c, rows, e)
    requires if prior.Some? then prior.value in rows && prior.value.recordHash == e.recordHash
             else forall row <- rows :: row.recordHash != e.recordHash
    ensures prior.Some? && (e.redacted || e == EntryOf(prior.value))
  {
    var q :| q in rows && CopyOf(c, e, q);
  }

  lemma WholeOrReported(c: Contract, rows: seq<StoredRow>, reported: seq<StoredRow>, creatives: seq<BundleCreative>, arrange: Arrange,
                        e: Entry)
    requires Rearranges(arrange) && e in All(BundleOf(c, rows, reported, creatives, arrange))
    requires ListedAsOlder(SupportOfAll(rows, reported), e.recordHash)
    ensures !e.redacted
  {
    if e in BundleOf(c, rows, reported, creatives, arrange).records {
      RecordEntries(c, rows, reported, creatives, arrange, e);
    } else {
      SupportingEntry(c, rows, reported, creatives, arrange, e);
    }
  }

  // ------------------------------------------------------------------------------ predecessors

  lemma ColumnsSuffice(c: Contract, rows: seq<StoredRow>, row: StoredRow)
    requires Lawful(c) && Agrees(c, row) && Parse(c, row.document).Some?
    ensures var r := Parse(c, row.document).value;
            && r[SupersedesHash] == Peek(c, row.document, SupersedesHash)
            && row.supersedesHash == (if r[SupersedesHash].Str? then Some(r[SupersedesHash].s) else None)
            && (r[SupersedesHash].Null? || r[SupersedesHash].Str?)
            && SupersededRow(c, rows, row.document) == ColumnSuperseded(rows, row)
  {
    ParsedField(c, row.document, SupersedesHash);
  }

  /** The bundle holds the row in full: it is reported, or a reported record supersedes it. */
  ghost predicate KeptWhole(rows: seq<StoredRow>, reported: seq<StoredRow>, row: StoredRow) {
    (exists r <- reported :: r.recordHash == row.recordHash) || ListedAsOlder(SupportOfAll(rows, reported), row.recordHash)
  }

  /** What a bundle has to say about the row before: nothing, the document, or two fields of it. */
  ghost function BundledPrevious(c: Contract, rows: seq<StoredRow>, reported: seq<StoredRow>, row: StoredRow): Value {
    var previous := RowBefore(rows, row);
    if previous.None? then Null
    else if KeptWhole(rows, reported, previous.value) then previous.value.document
    else ReferenceDocument(c, previous.value.recordHash, previous.value.appId)
  }

  lemma WholeOrCut(c: Contract, rows: seq<StoredRow>, reported: seq<StoredRow>, creatives: seq<BundleCreative>, arrange: Arrange,
                   row: StoredRow, e: Entry)
    requires Rearranges(arrange) && Reportable(rows, reported) && Keyed(rows) && row in rows
    requires e in All(BundleOf(c, rows, reported, creatives, arrange)) && CopyOf(c, e, row)
    ensures e == if KeptWhole(rows, reported, row) then EntryOf(row) else ChainReference(c, EntryOf(row))
  {
    hide BundleOf;
    if e in BundleOf(c, rows, reported, creatives, arrange).records {
      RecordEntries(c, rows, reported, creatives, arrange, e);
    } else {
      SupportingEntry(c, rows, reported, creatives, arrange, e);
    }
  }

  /** The predecessor the bundle gives to a reported record, and to the version it supersedes. */
  lemma PreviousInBundle(c: Contract, rows: seq<StoredRow>, reported: seq<StoredRow>, creatives: seq<BundleCreative>, arrange: Arrange,
                         row: StoredRow, neighbour: StoredRow)
    requires Keyed(rows) && Rearranges(arrange) && Reportable(rows, reported) && row in reported
    requires neighbour == row || Some(neighbour) == ColumnSuperseded(rows, row)
    ensures PredecessorIn(All(BundleOf(c, rows, reported, creatives, arrange)), EntryOf(neighbour))
         == BundledPrevious(c, rows, reported, neighbour)
  {
    hide BundleOf, Keyed, KeptWhole, LastAt, RowAt;
    var (entries, previous) := (All(BundleOf(c, rows, reported, creatives, arrange)), RowBefore(rows, neighbour));
    BundleHolds(c, rows, reported, creatives, arrange);
    if previous.Some? {
      var s := Supporting(EntryOf(previous.value), PredecessorRole);
      assert s in SupportOf(rows, row);
      SupportPresent(c, rows, reported, creatives, arrange, row, s);
    }
    if neighbour.position > 1 {
      NeighbourFound(c, rows, entries, neighbour);
      if previous.Some? {
        WholeOrCut(c, rows, reported, creatives, arrange, previous.value,
                   LastAt(entries, neighbour.appId, neighbour.position - 1).value);
      }
    }
  }

  /**
   The chain check of `r` cannot tell the bundle from the table: nothing was pruned before the row,
   and the row before is no marker's lookalike that was cut down, unless `r` opens its chain.
   */
  ghost predicate NeighbourSurvives(c: Contract, store: Store, reported: seq<StoredRow>, r: AuditRecord, row: StoredRow) {
    var previous := RowBefore(store.rows, row);
    && !PrunedBefore(store, row)
    && (previous.Some? && IsPruned(c, previous.value.document) ==>
          r[PrevHash] == Said(c, Genesis) || KeptWhole(store.rows, reported, previous.value))
  }

  lemma ChainDecided(env: Env, store: Store, reported: seq<StoredRow>, r: AuditRecord, row: StoredRow)
    requires Lawful(env.contract) && Consistent(env.contract, store.rows)
    ensures CheckChain(env, r, BundledPrevious(env.contract, store.rows, reported, row))
         == CheckChain(env, r, PredecessorDocument(env.contract, store, row))
       <==> NeighbourSurvives(env.contract, store, reported, r, row)
  {
    hide Lawful, KeptWhole, Keyed, Marker, ReferenceDocument, IsPruned;
    var (c, previous) := (env.contract, RowBefore(store.rows, row));
    if PrunedBefore(store, row) {
      MarkerTold(env, r, store.watermarks[row.appId].prunedBefore);
    } else if previous.Some? {
      assert Agrees(c, previous.value);
      ReferenceIsEnough(env, r, previous.value);
    }
  }

  /**
   Two fields are all of a predecessor the chain check reads: a document cut down to them is told from
   the whole one exactly when that reads as a marker to a record that does not open its chain.
   */
  lemma ReferenceIsEnough(env: Env, r: AuditRecord, row: StoredRow)
    requires Lawful(env.contract) && Agrees(env.contract, row)
    ensures CheckChain(env, r, ReferenceDocument(env.contract, row.recordHash, row.appId)) == CheckChain(env, r, row.document)
       <==> (IsPruned(env.contract, row.document) ==> r[PrevHash] == Said(env.contract, Genesis))
  {
    hide IsPruned, Lawful, CutoffOf, StringOf, DateOf, ReferenceDocument;
    ReferenceReads(env.contract, row.recordHash, row.appId);
  }

  lemma MarkerTold(env: Env, r: AuditRecord, cutoff: JsString)
    requires Lawful(env.contract)
    ensures CheckChain(env, r, Marker(env.contract, cutoff)) != CheckChain(env, r, Null)
  {
    MarkerRead(env.contract, cutoff);
  }

  // -------------------------------------------------------------------------------- the theorem

  lemma PlacedFromParts(env: Env, bundle: Bundle, store: Store, row: StoredRow, superseded: Option<StoredRow>)
    requires Parse(env.contract, row.document).Some? && row.isLatest
    requires var r := Parse(env.contract, row.document).value;
             && r[SupersedesHash] == Peek(env.contract, row.document, SupersedesHash)
             && (r[SupersedesHash].Null? || r[SupersedesHash].Str?)
             && SupersededIn(All(bundle), r) == (if superseded.Some? then Some(EntryOf(superseded.value)) else None)
             && CreativeHashIn(env, bundle.creatives, r) == RowContext(env, store, row).context.storedCreativeHash
    requires SupersededRow(env.contract, store.rows, row.document) == superseded
    ensures var (bundled, stored) := (BundleContext(env, bundle, EntryOf(row)), RowContext(env, store, row));
            && PlacedAlike(stored, bundled)
            && bundled.context.prevRecord == PredecessorIn(All(bundle), EntryOf(row))
            && stored.context.prevRecord == PredecessorDocument(env.contract, store, row)
            && (superseded.Some? ==>
                  && stored.context.supersededRecord == superseded.value.document
                  && ContextAt(bundled.heap, bundled.context.superseded).prevRecord == PredecessorIn(All(bundle), EntryOf(superseded.value))
                  && ContextAt(stored.heap, stored.context.superseded).prevRecord
                     == PredecessorDocument(env.contract, store, superseded.value))
            && (superseded.None? ==> !stored.context.supersededRecord.Obj?)
  {
    hide Parse, PredecessorIn, PredecessorDocument, All, CreativeHashIn, SupersededIn, SupersededRow,
      StoredCreativeHash, CreativeIdOf;
  }

  /** The two contexts differ in predecessors only, and those are what the store decides. */
  lemma ContextsRebuilt(env: Env, store: Store, reported: seq<StoredRow>, creatives: seq<BundleCreative>, arrange: Arrange, row: StoredRow)
    requires Lawful(env.contract) && KeepsCreativeId(env.contract)
    requires Consistent(env.contract, store.rows) && Rearranges(arrange) && Reportable(store.rows, reported)
    requires ListsCreatives(env.contract, creatives, store.catalog, reported)
    requires row in reported && Parse(env.contract, row.document).Some?
    ensures var bundled := BundleContext(env, BundleOf(env.contract, store.rows, reported, creatives, arrange), EntryOf(row));
            var (stored, superseded) := (RowContext(env, store, row), SupersededRow(env.contract, store.rows, row.document));
            && PlacedAlike(stored, bundled)
            && bundled.context.prevRecord == BundledPrevious(env.contract, store.rows, reported, row)
            && stored.context.prevRecord == PredecessorDocument(env.contract, store, row)
            && (superseded.Some? ==>
                  && stored.context.supersededRecord == superseded.value.document
                  && ContextAt(bundled.heap, bundled.context.superseded).prevRecord
                     == BundledPrevious(env.contract, store.rows, reported, superseded.value)
                  && ContextAt(stored.heap, stored.context.superseded).prevRecord
                     == PredecessorDocument(env.contract, store, superseded.value))
            && (superseded.None? ==> !stored.context.supersededRecord.Obj?)
  {
    hide BundleOf, BundleContext, RowContext, PlacedAlike, BundledPrevious, PredecessorDocument, PredecessorIn,
      Keyed, Lawful, Parse, ContextAt;
    var (c, rows) := (env.contract, store.rows);
    var (bundle, superseded) := (BundleOf(c, rows, reported, creatives, arrange), ColumnSuperseded(rows, row));
    ColumnsSuffice(c, rows, row);
    CreativeHashAlike(env, store, reported, creatives, row);
    PreviousInBundle(c, rows, reported, creatives, arrange, row, row);
    if row.supersedesHash.Some? {
      OlderVersionWhole(c, rows, reported, creatives, arrange, row);
    }
    if superseded.Some? {
      PreviousInBundle(c, rows, reported, creatives, arrange, row, superseded.value);
    }
    BundleKeepsCreatives(c, rows, reported, creatives, arrange);
    PlacedFromParts(env, bundle, store, row, superseded);
  }

  lemma BundleKeepsCreatives(c: Contract, rows: seq<StoredRow>, reported: seq<StoredRow>, creatives: seq<BundleCreative>, arrange: Arrange)
    ensures BundleOf(c, rows, reported, creatives, arrange).creatives == creatives
  {
  }

  /** The older version's chain check passes on what the bundle holds exactly when it passes on what the table holds. */
  ghost predicate OlderVersionAgrees(env: Env, store: Store, reported: seq<StoredRow>, prior: StoredRow) {
    var parsed := Parse(env.contract, prior.document);
    parsed.Some? ==>
      CheckChain(env, parsed.value, BundledPrevious(env.contract, store.rows, reported, prior)).ok
      == CheckChain(env, parsed.value, PredecessorDocument(env.contract, store, prior)).ok
  }

  /** The response from the bundle, and the one from the database. */
  ghost predicate SameResponse(env: Env, store: Store, bundle: Bundle, ring: KeyRing, row: StoredRow)
    requires Lawful(env.contract)
  {
    var (bundled, stored) := (BundleContext(env, bundle, EntryOf(row)), RowContext(env, store, row));
    VerifyWith(env, row.document, ring, bundled.context, bundled.heap) == VerifyWith(env, row.document, ring, stored.context, stored.heap)
  }

  /** Verification of the row looks into the version it supersedes. */
  predicate LooksInto(env: Env, store: Store, row: StoredRow, prior: StoredRow) {
    var stored := RowContext(env, store, row);
    && SupersededRow(env.contract, store.rows, row.document) == Some(prior)
    && Parse(env.contract, row.document).Some?
    && SupersedesFirst(env, Parse(env.contract, row.document).value, stored.context, stored.heap).Recurse?
  }

  /**
   When redaction preserves a verdict: the whole response of a reported record is the same offline
   exactly when its own chain check cannot tell the difference and, where an older version is looked
   into, that version's chain check turns out the same. For any store whose columns copy the documents.
   */
  lemma RedactionDecided(env: Env, store: Store, reported: seq<StoredRow>, creatives: seq<BundleCreative>, arrange: Arrange,
                         ring: KeyRing, row: StoredRow)
    requires Lawful(env.contract) && KeepsCreativeId(env.contract)
    requires Consistent(env.contract, store.rows) && Rearranges(arrange) && Reportable(store.rows, reported)
    requires ListsCreatives(env.contract, creatives, store.catalog, reported)
    requires row in reported && Parse(env.contract, row.document).Some?
    ensures SameResponse(env, store, BundleOf(env.contract, store.rows, reported, creatives, arrange), ring, row)
       <==> && NeighbourSurvives(env.contract, store, reported, Parse(env.contract, row.document).value, row)
            && forall prior <- store.rows :: LooksInto(env, store, row, prior) ==> OlderVersionAgrees(env, store, reported, prior)
  {
    hide Lawful, Keyed, KeptWhole, IsPruned, BundleOf, BundleContext, RowContext, PlacedAlike, BundledPrevious,
      PredecessorDocument, CheckChain, NeighbourSurvives, Parse, VerifyWith, ContextAt;
    var (c, r) := (env.contract, Parse(env.contract, row.document).value);
    var (bundled, stored) := (BundleContext(env, BundleOf(c, store.rows, reported, creatives, arrange), EntryOf(row)), RowContext(env, store, row));
    ContextsRebuilt(env, store, reported, creatives, arrange, row);
    ResponsesDecided(env, row.document, ring, stored, bundled);
    ChainDecided(env, store, reported, r, row);
    if SupersedesFirst(env, r, stored.context, stored.heap).Recurse? {
      RecursesIntoPrior(env, r, stored.context, stored.heap);
      OriginalHasNoPrior(c, r, stored.context.supersededRecord);
      ParsedObject(c, stored.context.supersededRecord);
    }
  }

  /**
   Redaction preserves verdicts: with no pruned neighbour, and no lookalike of a marker among the
   documents that stand before, verifying a reported record offline, from the bundle, answers exactly
   what verifying it from the database answers, check by check.
   */
  lemma RedactionPreservesVerdicts(env: Env, store: Store, reported: seq<StoredRow>, creatives: seq<BundleCreative>, arrange: Arrange,
                                   ring: KeyRing, row: StoredRow)
    requires Lawful(env.contract) && KeepsCreativeId(env.contract)
    requires Consistent(env.contract, store.rows) && Rearranges(arrange) && Reportable(store.rows, reported)
    requires ListsCreatives(env.contract, creatives, store.catalog, reported)
    requires row in reported && NeighboursKept(env.contract, store, row)
    ensures SameResponse(env, store, BundleOf(env.contract, store.rows, reported, creatives, arrange), ring, row)
  {
    hide Lawful, Keyed, KeptWhole, IsPruned, BundleOf, BundledPrevious, PredecessorDocument, CheckChain,
      ListsCreatives;
    if Parse(env.contract, row.document).Some? {
      RedactionDecided(env, store, reported, creatives, arrange, ring, row);
      forall prior | prior in store.rows && LooksInto(env, store, row, prior) ensures OlderVersionAgrees(env, store, reported, prior) {
        var parsed := Parse(env.contract, prior.document);
        if parsed.Some? {
          ChainDecided(env, store, reported, parsed.value, prior);
        }
      }
    }
  }

  /** Every column as it is stored, nothing cut down. */
  predicate AsStored(e: Entry, row: StoredRow) {
    && e.auditId == row.id && e.appId == row.appId && e.position == row.position && e.recordHash == row.recordHash
    && e.isLatest == row.isLatest && e.ts == row.ts && e.document == row.document && !e.redacted
  }

  /** Every reported record is in the bundle, as stored. */
  lemma ReportedInFull(c: Contract, rows: seq<StoredRow>, reported: seq<StoredRow>, creatives: seq<BundleCreative>, arrange: Arrange, row: StoredRow)
    requires Rearranges(arrange) && Reportable(rows, reported) && Keyed(rows) && row in reported
    ensures exists e :: e in BundleOf(c, rows, reported, creatives, arrange).records && AsStored(e, row)
    ensures EntryOf(row) in BundleOf(c, rows, reported, creatives, arrange).records
  {
    HashInRecords(c, rows, reported, creatives, arrange, row);
    var e :| e in BundleOf(c, rows, reported, creatives, arrange).records && e.recordHash == row.recordHash;
    RecordEntries(c, rows, reported, creatives, arrange, e);
    assert AsStored(EntryOf(row), row);
  }

  /**
   A bundle has no retention marker, so a record whose predecessor was pruned gets another response
   offline, whatever the record says.
   */
  lemma PrunedNeighbourIsLost(env: Env, store: Store, reported: seq<StoredRow>, creatives: seq<BundleCreative>, arrange: Arrange,
                              ring: KeyRing, row: StoredRow)
    requires Lawful(env.contract) && KeepsCreativeId(env.contract)
    requires Consistent(env.contract, store.rows) && Rearranges(arrange) && Reportable(store.rows, reported)
    requires ListsCreatives(env.contract, creatives, store.catalog, reported)
    requires row in reported && PrunedBefore(store, row) && Parse(env.contract, row.document).Some?
    ensures !SameResponse(env, store, BundleOf(env.contract, store.rows, reported, creatives, arrange), ring, row)
  {
    RedactionDecided(env, store, reported, creatives, arrange, ring, row);
  }

  /** And so does one behind a stored document that says `pruned: true`, once that is cut down. */
  lemma LookalikeIsLost(env: Env, store: Store, reported: seq<StoredRow>, creatives: seq<BundleCreative>, arrange: Arrange,
                        ring: KeyRing, row: StoredRow, previous: StoredRow)
    requires Lawful(env.contract) && KeepsCreativeId(env.contract)
    requires Consistent(env.contract, store.rows) && Rearranges(arrange) && Reportable(store.rows, reported)
    requires ListsCreatives(env.contract, creatives, store.catalog, reported)
    requires row in reported && Parse(env.contract, row.document).Some?
    requires Parse(env.contract, row.document).value[PrevHash] != Said(env.contract, Genesis)
    requires RowBefore(store.rows, row) == Some(previous) && IsPruned(env.contract, previous.document)
    requires !KeptWhole(store.rows, reported, previous)
    ensures !SameResponse(env, store, BundleOf(env.contract, store.rows, reported, creatives, arrange), ring, row)
  {
    RedactionDecided(env, store, reported, creatives, arrange, ring, row);
  }
}
