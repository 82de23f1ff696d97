/**
 `serialize` of packages/core/src/canonical/canonicalize.ts as it runs: arrays element by element,
 objects key by sorted key, stopping with a TypeError at the first value that is not JSON.
 */
module Canonicalize {
  import opened Utf16
  import opened CanonicalJson
  import opened CanonicalJsonLaws

  /** Object.keys(record).sort(). */
  function SortedKeys(members: seq<Member>): (keys: seq<JsString>)
    ensures |keys| == |members|
  {
    SortedSize(members);
    seq(|members|, i requires 0 <= i < |members| => SortByKey(members)[i].key)
  }

  lemma SortedSize(members: seq<Member>)
    ensures |SortByKey(members)| == |members|
  {
    assert |multiset(SortByKey(members))| == |SortByKey(members)|;
    assert |multiset(members)| == |members|;
  }

  method Serialize(v: Value) returns (r: Canonicalized)
    requires WellFormed(v)
    ensures r == Canonical(v)
    decreases v, 1
  {
    match v
    case Null => return Text(NULL_TEXT);
    case Bool(b) => return Text(if b then TRUE_TEXT else FALSE_TEXT);
    case Str(s) => return Text(PrintString(s));
    case Num(n) =>
      if n.NonFinite? { return TypeError; }
      return Text(if n.NegativeZero? then [48] else n.text);
    case Arr(items) => r := SerializeArray(v);
    case Obj(members) => r := SerializeObject(v);
    case Undefined => return TypeError;
    case Foreign => return TypeError;
  }

  method SerializeArray(v: Value) returns (r: Canonicalized)
    requires v.Arr? && WellFormed(v)
    ensures r == Canonical(v)
    decreases v, 0
  {
    var items := v.items;
    var parts: seq<JsString> := [];
    for i := 0 to |items|
      invariant |parts| == i
      invariant forall k :: 0 <= k < i ==> Accepts(items[k]) && parts[k] == Print(Normalize(items[k]))
    {
      var item := Serialize(items[i]);
      if item.TypeError? { return TypeError; }
      parts := parts + [item.text];
    }
    ItemsPrinted(items, parts);
    return Text([OPEN_BRACKET] + Join(parts, [COMMA]) + [CLOSE_BRACKET]);
  }

  lemma {:induction false} ItemsPrinted(items: seq<Value>, parts: seq<JsString>)
    requires |parts| == |items|
    requires forall k :: 0 <= k < |items| ==> Accepts(items[k]) && parts[k] == Print(Normalize(items[k]))
    ensures parts == PrintItems(NormalizeItems(items))
  {
    if items != [] {
      var rest, tail := items[1..], parts[1..];
      assert forall k :: 0 <= k < |rest| ==> rest[k] == items[k + 1] && tail[k] == parts[k + 1];
      ItemsPrinted(rest, tail);
      assert NormalizeItems(items) == [Normalize(items[0])] + NormalizeItems(rest);
      assert parts == [parts[0]] + tail;
    }
  }

  /** The strings pushed so far, one for each member of `built`. */
  ghost predicate PrintedAs(parts: seq<JsString>, built: seq<Member>) {
    |parts| == |built| && forall k :: 0 <= k < |built| ==> Plain(built[k].value) && parts[k] == PrintMember(built[k])
  }

  lemma {:induction false} MembersPrinted(members: seq<Member>, parts: seq<JsString>)
    requires PrintedAs(parts, members)
    ensures parts == PrintMembers(members)
  {
    if members != [] {
      MembersPrinted(members[1..], parts[1..]);
      assert parts == [parts[0]] + parts[1..];
    }
  }

  lemma PrintedMore(parts: seq<JsString>, built: seq<Member>, m: Member)
    requires PrintedAs(parts, built) && Plain(m.value)
    ensures PrintedAs(parts + [PrintMember(m)], built + [m])
  {
  }

  /** `built` is what the loop has printed once the keys in `done` are behind it. */
  ghost predicate Progress(members: seq<Member>, done: seq<JsString>, built: seq<Member>) {
    && SortedByKey(built)
    && (forall m :: m in built ==> m.key in done && Plain(m.value))
    && (forall m :: m in members && m.key in done && !Dropped(m) ==> Accepts(m.value) && Normalized(m) in built)
    && (forall n :: n in built ==> exists m :: m in members && !Dropped(m) && Accepts(m.value) && n == Normalized(m))
  }

  method SerializeObject(v: Value) returns (r: Canonicalized)
    requires v.Obj? && WellFormed(v)
    ensures r == Canonical(v)
    decreases v, 0
  {
    hide Lookup, SortByKey, Print, Normalize;
    var record := v.members;
    var keys := SortedKeys(record);
    KeysSorted(record);
    var members: seq<JsString> := [];
    ghost var built: seq<Member> := [];
    for i := 0 to |keys|
      invariant Progress(record, keys[..i], built)
      invariant PrintedAs(members, built)
    {
      var key := keys[i];
      var item := Lookup(record, key);
      ghost var at := Located(v, i);
      if item.Undefined? {
        Skipped(record, keys, i, built, at);
      } else {
        var text := Serialize(item);
        if text.TypeError? {
          Refused(v, at);
          return TypeError;
        }
        PrintedMore(members, built, Normalized(record[at]));
        members := members + [PrintString(key) + [COLON] + text.text];
        Extended(record, keys, i, built, at);
        built := built + [Normalized(record[at])];
      }
    }
    ObjectPrinted(v, keys, built, members);
    return Text([OPEN_BRACE] + Join(members, [COMMA]) + [CLOSE_BRACE]);
  }

  lemma Located(v: Value, i: nat) returns (at: nat)
    requires v.Obj? && WellFormed(v) && i < |v.members|
    ensures var key := SortedKeys(v.members)[i];
            var item := Lookup(v.members, key);
            at < |v.members| && v.members[at] == Member(key, item) && item < v && WellFormed(item)
  {
    var keys := SortedKeys(v.members);
    KeysSorted(v.members);
    assert keys[i] in keys;
    at :| at < |v.members| && v.members[at].key == keys[i];
    LookupFinds(v.members, at);
    assert v.members[at].value < v;
  }

  lemma ObjectPrinted(v: Value, keys: seq<JsString>, built: seq<Member>, members: seq<JsString>)
    requires v.Obj? && DistinctKeys(v.members) && Progress(v.members, keys[..|keys|], built)
    requires forall m :: m in v.members ==> m.key in keys
    requires PrintedAs(members, built)
    ensures Canonical(v) == Text([OPEN_BRACE] + Join(members, [COMMA]) + [CLOSE_BRACE])
  {
    AllPrinted(v.members, keys, built);
    MembersPrinted(built, members);
  }

  lemma Refused(v: Value, at: nat)
    requires v.Obj? && at < |v.members| && !Dropped(v.members[at]) && !Accepts(v.members[at].value)
    ensures Canonical(v) == TypeError
  {
  }

  lemma KeysSorted(members: seq<Member>)
    requires DistinctKeys(members)
    ensures var keys := SortedKeys(members);
            && (forall i, j :: 0 <= i < j < |keys| ==> Less(keys[i], keys[j]))
            && (forall m :: m in members ==> m.key in keys)
            && (forall k :: k in keys ==> exists i :: 0 <= i < |members| && members[i].key == k)
  {
    hide DistinctKeys, SortByKey;
    SortSorts(members);
    SortedSize(members);
    var sorted := SortByKey(members);
    SameElements(members, sorted);
    forall m | m in members ensures m.key in SortedKeys(members) {
      assert m in sorted;
      var i :| 0 <= i < |sorted| && sorted[i] == m;
      assert SortedKeys(members)[i] == m.key;
    }
    forall k | k in SortedKeys(members) ensures exists i :: 0 <= i < |members| && members[i].key == k {
      var i :| 0 <= i < |sorted| && sorted[i].key == k;
      assert sorted[i] in members;
    }
  }

  /** Object.keys(record).sort(): every key once, in code unit order. */
  lemma KeysInCodeUnitOrder(members: seq<Member>)
    requires DistinctKeys(members)
    ensures var keys := SortedKeys(members);
            && |keys| == |members| && (forall i, j :: 0 <= i < j < |keys| ==> ComesBefore(keys[i], keys[j]))
            && (forall k :: k in keys <==> exists i :: 0 <= i < |members| && members[i].key == k)
  {
    hide Less, ComesBefore, SortByKey;
    KeysSorted(members);
    var keys := SortedKeys(members);
    forall i, j | 0 <= i < j < |keys| ensures ComesBefore(keys[i], keys[j]) {
      LessIsCodeUnitOrder(keys[i], keys[j]);
    }
  }

  lemma Skipped(members: seq<Member>, keys: seq<JsString>, i: nat, built: seq<Member>, at: nat)
    requires DistinctKeys(members) && i < |keys| && Progress(members, keys[..i], built)
    requires at < |members| && members[at].key == keys[i] && Dropped(members[at])
    ensures Progress(members, keys[..i + 1], built)
  {
    assert keys[..i + 1] == keys[..i] + [keys[i]];
  }

  lemma Extended(members: seq<Member>, keys: seq<JsString>, i: nat, built: seq<Member>, at: nat)
    requires DistinctKeys(members) && i < |keys| && Progress(members, keys[..i], built)
    requires forall a, b :: 0 <= a < b < |keys| ==> Less(keys[a], keys[b])
    requires at < |members| && members[at].key == keys[i] && !Dropped(members[at]) && Accepts(members[at].value)
    ensures Progress(members, keys[..i + 1], built + [Normalized(members[at])])
  {
    assert keys[..i + 1] == keys[..i] + [keys[i]];
    forall k | 0 <= k < |built| ensures Less(built[k].key, keys[i]) {
      assert built[k] in built;
    }
  }

  lemma AllPrinted(members: seq<Member>, keys: seq<JsString>, built: seq<Member>)
    requires DistinctKeys(members) && Progress(members, keys[..|keys|], built)
    requires forall m :: m in members ==> m.key in keys
    ensures Acceptable(members) && built == SortByKey(NormalizeMembers(members))
    ensures forall i :: 0 <= i < |built| ==> Plain(built[i].value)
  {
    assert keys[..|keys|] == keys;
    forall i | 0 <= i < |members| ensures Dropped(members[i]) || Accepts(members[i].value) {
      assert members[i] in members;
    }
    NormalizedMembers(members);
    var kept := NormalizeMembers(members);
    forall m ensures m in built <==> m in kept {
      if m in kept {
        var i :| 0 <= i < |members| && !Dropped(members[i]) && m == Normalized(members[i]);
        assert members[i] in members;
      }
    }
    NormalizedKeysDistinct(members);
    SortSorts(kept);
    SameElements(kept, SortByKey(kept));
    SortedIsUnique(built, SortByKey(kept));
  }
}
