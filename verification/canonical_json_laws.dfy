/**
 What the canonical form promises: it forgets exactly the member order, the undefined members and
 the sign of zero, and nothing else; it can be read back; and what follows it is never ambiguous.
 */
module CanonicalJsonLaws {
  import opened Utf16
  import opened CanonicalJson
  import opened JsonReader

  /** The same JSON document: no order among members, no undefined members, 0 is -0. */
  ghost predicate Same(a: Value, b: Value)
    decreases a
  {
    if a.Num? && b.Num? then
      SameNumber(a.n, b.n)
    else if a.Arr? && b.Arr? then
      |a.items| == |b.items| && forall i :: 0 <= i < |a.items| ==> Same(a.items[i], b.items[i])
    else if a.Obj? && b.Obj? then
      && (forall i :: 0 <= i < |a.members| && !Dropped(a.members[i]) ==> HasKey(b.members, a.members[i].key))
      && (forall j :: 0 <= j < |b.members| && !Dropped(b.members[j]) ==> HasKey(a.members, b.members[j].key))
      && (forall i, j | 0 <= i < |a.members| && 0 <= j < |b.members| ::
            Paired(a.members[i], b.members[j]) ==> Same(a.members[i].value, b.members[j].value))
    else
      a == b
  }

  predicate SameNumber(a: Number, b: Number) {
    Fold(a) == Fold(b)
  }

  function Fold(n: Number): Number {
    if n.NegativeZero? then Finite([48]) else n
  }

  ghost predicate HasKey(members: seq<Member>, key: JsString) {
    exists i :: 0 <= i < |members| && !Dropped(members[i]) && members[i].key == key
  }

  predicate Paired(m: Member, n: Member) {
    !Dropped(m) && !Dropped(n) && m.key == n.key
  }

  // --------------------------------------------------------------------------------- sorting

  lemma {:induction false} InsertKeepsSorted(m: Member, sorted: seq<Member>)
    requires SortedByKey(sorted) && forall i :: 0 <= i < |sorted| ==> sorted[i].key != m.key
    ensures SortedByKey(InsertByKey(m, sorted))
  {
    if sorted == [] {
    } else if Less(m.key, sorted[0].key) {
      forall i | 0 < i < |sorted| ensures Less(m.key, sorted[i].key) {
        LessTransitive(m.key, sorted[0].key, sorted[i].key);
      }
    } else {
      InsertKeepsSorted(m, sorted[1..]);
      InsertPermutes(m, sorted[1..]);
      var tail := InsertByKey(m, sorted[1..]);
      forall i | 0 <= i < |tail| ensures Less(sorted[0].key, tail[i].key) {
        LessTotal(m.key, sorted[0].key);
        assert tail[i] in multiset(tail);
        assert tail[i] == m || tail[i] in sorted[1..];
      }
    }
  }

  lemma {:induction false} SortSorts(members: seq<Member>)
    requires DistinctKeys(members)
    ensures SortedByKey(SortByKey(members))
  {
    if members != [] {
      SortSorts(members[1..]);
      var tail := SortByKey(members[1..]);
      forall i | 0 <= i < |tail| ensures tail[i].key != members[0].key {
        assert tail[i] in multiset(tail);
        assert tail[i] in members[1..];
      }
      InsertKeepsSorted(members[0], tail);
    }
  }

  /** A strictly sorted list is determined by its elements. */
  lemma {:induction false} SortedIsUnique(a: seq<Member>, b: seq<Member>)
    requires SortedByKey(a) && SortedByKey(b)
    requires forall m :: m in a <==> m in b
    ensures a == b
  {
    if a == [] || b == [] {
      HasFirst(a);
      HasFirst(b);
    } else {
      SameHead(a, b);
      forall m ensures m in a[1..] <==> m in b[1..] {
        TailMembership(a, m);
        TailMembership(b, m);
      }
      SortedIsUnique(a[1..], b[1..]);
      assert a == [a[0]] + a[1..] && b == [b[0]] + b[1..];
    }
  }

  lemma HasFirst(a: seq<Member>)
    ensures a != [] ==> exists m :: m in a
  {
    if a != [] {
      assert a[0] in a;
    }
  }

  lemma SameHead(a: seq<Member>, b: seq<Member>)
    requires a != [] && b != [] && SortedByKey(a) && SortedByKey(b)
    requires forall m :: m in a <==> m in b
    ensures a[0] == b[0]
  {
    assert a[0] in b && b[0] in a;
    if a[0] != b[0] {
      LessAsymmetric(a[0].key, b[0].key);
      assert false;
    }
  }

  lemma TailMembership(a: seq<Member>, m: Member)
    requires a != [] && SortedByKey(a)
    ensures m in a[1..] <==> m in a && m != a[0]
  {
    LessIrreflexive(a[0].key);
    assert a == [a[0]] + a[1..];
  }

  lemma SameElements(a: seq<Member>, b: seq<Member>)
    requires multiset(a) == multiset(b)
    ensures forall m :: m in a <==> m in b
  {
    forall m ensures m in a <==> m in b {
      assert m in multiset(a) <==> m in multiset(b);
    }
  }

  // ------------------------------------------------------------------------------ normalising

  predicate Acceptable(members: seq<Member>) {
    forall i :: 0 <= i < |members| ==> Dropped(members[i]) || Accepts(members[i].value)
  }

  function Normalized(m: Member): Member
    requires !Dropped(m) && Accepts(m.value)
  {
    Member(m.key, Normalize(m.value))
  }

  lemma {:induction false} NormalizedItem(items: seq<Value>, i: int)
    requires forall k :: 0 <= k < |items| ==> Accepts(items[k])
    requires 0 <= i < |items|
    ensures NormalizeItems(items)[i] == Normalize(items[i])
  {
    if i > 0 {
      NormalizedItem(items[1..], i - 1);
    }
  }

  lemma {:induction false} NormalizedMembers(members: seq<Member>)
    requires Acceptable(members)
    ensures forall i | 0 <= i < |members| && !Dropped(members[i]) ::
              Normalized(members[i]) in NormalizeMembers(members)
    ensures forall m | m in NormalizeMembers(members) ::
              exists i :: 0 <= i < |members| && !Dropped(members[i]) && m == Normalized(members[i])
  {
    if members != [] {
      var tail := members[1..];
      NormalizedMembers(tail);
      forall i | 0 <= i < |members| && !Dropped(members[i])
        ensures Normalized(members[i]) in NormalizeMembers(members)
      {
        assert i > 0 ==> members[i] == tail[i - 1];
      }
      forall m | m in NormalizeMembers(members)
        ensures exists i :: 0 <= i < |members| && !Dropped(members[i]) && m == Normalized(members[i])
      {
        if m in NormalizeMembers(tail) {
          var i :| 0 <= i < |tail| && !Dropped(tail[i]) && m == Normalized(tail[i]);
          assert members[i + 1] == tail[i];
        }
      }
    }
  }

  lemma {:induction false} NormalizedKeysDistinct(members: seq<Member>)
    requires Acceptable(members) && DistinctKeys(members)
    ensures DistinctKeys(NormalizeMembers(members))
  {
    if members != [] {
      NormalizedKeysDistinct(members[1..]);
      NormalizedMembers(members[1..]);
      var tail := NormalizeMembers(members[1..]);
      forall i | 0 <= i < |tail| ensures tail[i].key != members[0].key {
        assert tail[i] in tail;
      }
    }
  }

  lemma {:induction false} ItemsDecided(items: seq<Value>, others: seq<Value>)
    requires |items| == |others| && forall i :: 0 <= i < |items| ==> Accepts(items[i]) && Accepts(others[i])
    ensures NormalizeItems(items) == NormalizeItems(others) <==>
            forall i :: 0 <= i < |items| ==> Normalize(items[i]) == Normalize(others[i])
  {
    hide Normalize, Accepts;
    forall i | 0 <= i < |items|
      ensures NormalizeItems(items)[i] == Normalize(items[i]) && NormalizeItems(others)[i] == Normalize(others[i])
    {
      NormalizedItem(items, i);
      NormalizedItem(others, i);
    }
  }

  /** Normal forms coincide exactly when the documents are the same. */
  lemma {:induction false} NormalFormDecides(a: Value, b: Value)
    requires Accepts(a) && Accepts(b) && WellFormed(a) && WellFormed(b)
    ensures Normalize(a) == Normalize(b) <==> Same(a, b)
    decreases a
  {
    hide SortByKey, NormalizeItems, NormalizeMembers, DistinctKeys;
    if a.Arr? && b.Arr? && |a.items| == |b.items| {
      forall i | 0 <= i < |a.items|
        ensures Normalize(a.items[i]) == Normalize(b.items[i]) <==> Same(a.items[i], b.items[i])
      {
        NormalFormDecides(a.items[i], b.items[i]);
      }
      ItemsDecided(a.items, b.items);
    } else if a.Obj? && b.Obj? {
      forall i, j | 0 <= i < |a.members| && 0 <= j < |b.members| && Paired(a.members[i], b.members[j])
        ensures Normalize(a.members[i].value) == Normalize(b.members[j].value)
            <==> Same(a.members[i].value, b.members[j].value)
      {
        NormalFormDecides(a.members[i].value, b.members[j].value);
      }
      ObjectsDecided(a.members, b.members);
    }
  }

  ghost predicate MembersAgree(ms: seq<Member>, ns: seq<Member>)
    requires Acceptable(ms) && Acceptable(ns)
  {
    && (forall i :: 0 <= i < |ms| && !Dropped(ms[i]) ==> HasKey(ns, ms[i].key))
    && (forall j :: 0 <= j < |ns| && !Dropped(ns[j]) ==> HasKey(ms, ns[j].key))
    && (forall i, j | 0 <= i < |ms| && 0 <= j < |ns| && Paired(ms[i], ns[j]) ::
          Normalize(ms[i].value) == Normalize(ns[j].value))
  }

  lemma ObjectsDecided(ms: seq<Member>, ns: seq<Member>)
    requires Acceptable(ms) && Acceptable(ns) && DistinctKeys(ms) && DistinctKeys(ns)
    ensures SortByKey(NormalizeMembers(ms)) == SortByKey(NormalizeMembers(ns)) <==> MembersAgree(ms, ns)
  {
    var a, b := NormalizeMembers(ms), NormalizeMembers(ns);
    if MembersAgree(ms, ns) {
      forall m ensures m in a <==> m in b {
        if m in a { AgreeingMember(ms, ns, m); }
        if m in b { AgreeingMember(ns, ms, m); }
      }
      NormalizedKeysDistinct(ms);
      NormalizedKeysDistinct(ns);
      SortSorts(a);
      SortSorts(b);
      SameElements(a, SortByKey(a));
      SameElements(b, SortByKey(b));
      SortedIsUnique(SortByKey(a), SortByKey(b));
    } else if SortByKey(a) == SortByKey(b) {
      assert multiset(a) == multiset(SortByKey(a)) == multiset(b);
      SameElements(a, b);
      ElementsAgree(ms, ns);
      ElementsAgree(ns, ms);
      assert false;
    }
  }

  lemma AgreeingMember(ms: seq<Member>, ns: seq<Member>, m: Member)
    requires Acceptable(ms) && Acceptable(ns) && MembersAgree(ms, ns)
    requires m in NormalizeMembers(ms)
    ensures m in NormalizeMembers(ns)
  {
    hide Normalize, Accepts, NormalizeMembers;
    NormalizedMembers(ms);
    NormalizedMembers(ns);
    var i :| 0 <= i < |ms| && !Dropped(ms[i]) && m == Normalized(ms[i]);
    assert HasKey(ns, ms[i].key);
    var j :| 0 <= j < |ns| && !Dropped(ns[j]) && ns[j].key == ms[i].key;
    assert Paired(ms[i], ns[j]);
    assert Normalized(ns[j]) == m;
  }

  lemma ElementsAgree(ms: seq<Member>, ns: seq<Member>)
    requires Acceptable(ms) && Acceptable(ns) && DistinctKeys(ns)
    requires forall m :: m in NormalizeMembers(ms) ==> m in NormalizeMembers(ns)
    ensures forall i :: 0 <= i < |ms| && !Dropped(ms[i]) ==> HasKey(ns, ms[i].key)
    ensures forall i, j | 0 <= i < |ms| && 0 <= j < |ns| && Paired(ms[i], ns[j]) ::
              Normalize(ms[i].value) == Normalize(ns[j].value)
  {
    hide Normalize, Accepts, NormalizeMembers;
    NormalizedMembers(ms);
    NormalizedMembers(ns);
    forall i | 0 <= i < |ms| && !Dropped(ms[i])
      ensures HasKey(ns, ms[i].key)
      ensures forall j | 0 <= j < |ns| && Paired(ms[i], ns[j]) :: Normalize(ms[i].value) == Normalize(ns[j].value)
    {
      var m := Normalized(ms[i]);
      assert m in NormalizeMembers(ns);
      var k :| 0 <= k < |ns| && !Dropped(ns[k]) && m == Normalized(ns[k]);
      forall j | 0 <= j < |ns| && Paired(ms[i], ns[j]) ensures j == k {
        assert ns[j].key == ns[k].key;
      }
    }
  }

  // ------------------------------------------------------------------------------- the theorems

  /** The reader recovers the normal form of whatever was canonicalised. */
  lemma ReadsBack(v: Value, rest: JsString)
    requires Accepts(v) && (v.Num? ==> EndsNumber(rest))
    ensures ParseValue(Canonical(v).text + rest) == Read(Normalize(v), rest)
  {
    ParsePrinted(Normalize(v), rest);
  }

  /** Section 3.2.3 of RFC 8785: in every object of the value the keys come in code unit order. */
  ghost predicate InCodeUnitOrder(v: Value) {
    match v
    case Arr(items) => forall i :: 0 <= i < |items| ==> InCodeUnitOrder(items[i])
    case Obj(members) =>
      && (forall i, j :: 0 <= i < j < |members| ==> ComesBefore(members[i].key, members[j].key))
      && (forall i :: 0 <= i < |members| ==> InCodeUnitOrder(members[i].value))
    case _ => true
  }

  lemma SortedInOrder(members: seq<Member>)
    requires Acceptable(members) && DistinctKeys(members)
    ensures var sorted := SortByKey(NormalizeMembers(members));
            forall i, j :: 0 <= i < j < |sorted| ==> ComesBefore(sorted[i].key, sorted[j].key)
  {
    hide Less, ComesBefore, SortByKey;
    NormalizedKeysDistinct(members);
    SortSorts(NormalizeMembers(members));
    var sorted := SortByKey(NormalizeMembers(members));
    forall i, j | 0 <= i < j < |sorted| ensures ComesBefore(sorted[i].key, sorted[j].key) {
      LessIsCodeUnitOrder(sorted[i].key, sorted[j].key);
    }
  }

  /** Every member that is printed comes from one that was given. */
  lemma SortedFrom(members: seq<Member>, m: Member)
    requires Acceptable(members) && m in SortByKey(NormalizeMembers(members))
    ensures exists i :: 0 <= i < |members| && !Dropped(members[i]) && m == Normalized(members[i])
  {
    hide SortByKey, NormalizeMembers, Normalize, Accepts;
    NormalizedMembers(members);
    SameElements(NormalizeMembers(members), SortByKey(NormalizeMembers(members)));
  }

  lemma {:induction false} NormalizedInOrder(v: Value)
    requires Accepts(v) && WellFormed(v)
    ensures InCodeUnitOrder(Normalize(v))
  {
    hide SortByKey, NormalizeItems, NormalizeMembers, DistinctKeys, ComesBefore;
    if v.Arr? {
      forall i | 0 <= i < |v.items| ensures InCodeUnitOrder(NormalizeItems(v.items)[i]) {
        NormalizedItem(v.items, i);
        NormalizedInOrder(v.items[i]);
      }
    } else if v.Obj? {
      SortedInOrder(v.members);
      var sorted := SortByKey(NormalizeMembers(v.members));
      forall k | 0 <= k < |sorted| ensures InCodeUnitOrder(sorted[k].value) {
        SortedFrom(v.members, sorted[k]);
        var i :| 0 <= i < |v.members| && !Dropped(v.members[i]) && sorted[k] == Normalized(v.members[i]);
        NormalizedInOrder(v.members[i].value);
      }
    }
  }

  /** What a reader finds in a canonical text: in every object the keys ascend by code unit. */
  lemma PrintsInCodeUnitOrder(v: Value, rest: JsString)
    requires Accepts(v) && WellFormed(v) && (v.Num? ==> EndsNumber(rest))
    ensures var read := ParseValue(Canonical(v).text + rest);
            read.Read? && read.rest == rest && InCodeUnitOrder(read.value)
  {
    hide ParseValue, Normalize, Print, WellFormed, InCodeUnitOrder;
    ReadsBack(v, rest);
    NormalizedInOrder(v);
  }

  /**
   A canonical text followed by anything splits in one way only: no canonical text is a proper
   prefix of another, and the two halves of a record's hash input cannot trade characters.
   */
  lemma SplitsUniquely(a: Value, b: Value, x: JsString, y: JsString)
    requires Accepts(a) && Accepts(b) && WellFormed(a) && WellFormed(b)
    requires (a.Num? ==> EndsNumber(x)) && (b.Num? ==> EndsNumber(y))
    requires Canonical(a).text + x == Canonical(b).text + y
    ensures Same(a, b) && x == y
  {
    ReadsBack(a, x);
    ReadsBack(b, y);
    NormalFormDecides(a, b);
  }

  /** Injective and order-blind at once: equal texts are equal documents, and conversely. */
  lemma CanonicalDecidesSameness(a: Value, b: Value)
    requires Accepts(a) && Accepts(b) && WellFormed(a) && WellFormed(b)
    ensures Canonical(a) == Canonical(b) <==> Same(a, b)
  {
    NormalFormDecides(a, b);
    if Canonical(a) == Canonical(b) {
      SplitsUniquely(a, b, [], []);
    }
  }

  /** Two objects that differ only in the order of their members print identically. */
  lemma MemberOrderIsIrrelevant(ms: seq<Member>, ns: seq<Member>)
    requires multiset(ms) == multiset(ns) && DistinctKeys(ms)
    ensures Canonical(Obj(ms)) == Canonical(Obj(ns))
  {
    SameElements(ms, ns);
    SameAcceptance(ms, ns);
    SameElements(ns, ms);
    SameAcceptance(ns, ms);
    if Accepts(Obj(ms)) {
      forall m ensures m in NormalizeMembers(ms) <==> m in NormalizeMembers(ns) {
        SharedMember(ms, ns, m);
        SharedMember(ns, ms, m);
      }
      PermutedKeysDistinct(ms, ns);
      SameSorted(ms, ns);
    }
  }

  lemma SameAcceptance(ms: seq<Member>, ns: seq<Member>)
    requires forall m :: m in ns ==> m in ms
    ensures Accepts(Obj(ms)) ==> Accepts(Obj(ns))
  {
    forall i | 0 <= i < |ns| && Accepts(Obj(ms)) ensures Dropped(ns[i]) || Accepts(ns[i].value) {
      assert ns[i] in ms;
      var j :| 0 <= j < |ms| && ms[j] == ns[i];
    }
  }

  lemma SameSorted(ms: seq<Member>, ns: seq<Member>)
    requires Acceptable(ms) && Acceptable(ns) && DistinctKeys(ms) && DistinctKeys(ns)
    requires forall m :: m in NormalizeMembers(ms) <==> m in NormalizeMembers(ns)
    ensures SortByKey(NormalizeMembers(ms)) == SortByKey(NormalizeMembers(ns))
  {
    NormalizedKeysDistinct(ms);
    NormalizedKeysDistinct(ns);
    SortSorts(NormalizeMembers(ms));
    SortSorts(NormalizeMembers(ns));
    SameElements(NormalizeMembers(ms), SortByKey(NormalizeMembers(ms)));
    SameElements(NormalizeMembers(ns), SortByKey(NormalizeMembers(ns)));
    SortedIsUnique(SortByKey(NormalizeMembers(ms)), SortByKey(NormalizeMembers(ns)));
  }

  lemma SharedMember(ms: seq<Member>, ns: seq<Member>, m: Member)
    requires Acceptable(ms) && Acceptable(ns) && forall k :: k in ms ==> k in ns
    ensures m in NormalizeMembers(ms) ==> m in NormalizeMembers(ns)
  {
    NormalizedMembers(ms);
    NormalizedMembers(ns);
    if m in NormalizeMembers(ms) {
      var i :| 0 <= i < |ms| && !Dropped(ms[i]) && m == Normalized(ms[i]);
      assert ms[i] in ns;
      var j :| 0 <= j < |ns| && ns[j] == ms[i];
    }
  }

  lemma PermutedKeysDistinct(ms: seq<Member>, ns: seq<Member>)
    requires multiset(ms) == multiset(ns) && DistinctKeys(ms)
    ensures DistinctKeys(ns)
  {
    SortSorts(ms);
    var sorted := SortByKey(ms);
    forall i, j | 0 <= i < j < |ns| ensures ns[i].key != ns[j].key {
      if ns[i] == ns[j] {
        TwiceInSeq(ns, i, j);
        OnceWhenDistinct(ms, ns[i]);
        assert false;
      } else {
        SameElements(ms, ns);
        assert ns[i] in ms && ns[j] in ms;
      }
    }
  }

  lemma TwiceInSeq(s: seq<Member>, i: int, j: int)
    requires 0 <= i < j < |s| && s[i] == s[j]
    ensures multiset(s)[s[i]] >= 2
  {
    assert s == s[..i] + [s[i]] + s[i + 1..j] + [s[j]] + s[j + 1..];
  }

  lemma {:induction false} OnceWhenDistinct(s: seq<Member>, m: Member)
    requires DistinctKeys(s)
    ensures multiset(s)[m] <= 1
  {
    if s != [] {
      OnceWhenDistinct(s[1..], m);
      assert s == [s[0]] + s[1..];
      if m == s[0] {
        assert m !in s[1..];
      }
    }
  }
}
