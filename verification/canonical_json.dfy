/**
 packages/core/src/canonical/canonicalize.ts: the one string form of a JSON value that
 record_hash, content_hash and the supersedes check digest or compare.

 `Canonical` is the specification (normalise, then print), `Serialize` the code's own loop over
 sorted keys, and `ParseValue` an independent reader that undoes the printing.
 */
module CanonicalJson {
  import opened Utf16

  /** A finite number as its shortest round-trip text, which names every double but -0 uniquely. */
  type NumberText = t: JsString | IsNumberText(t) witness [48]

  datatype Number = Finite(text: NumberText) | NegativeZero | NonFinite

  /** Any JavaScript value: JSON, plus what canonicalize drops (undefined) or refuses (foreign). */
  datatype Value =
    | Null
    | Bool(b: bool)
    | Num(n: Number)
    | Str(s: JsString)
    | Arr(items: seq<Value>)
    | Obj(members: seq<Member>)
    | Undefined
    | Foreign

  datatype Member = Member(key: JsString, value: Value)

  datatype Canonicalized = Text(text: JsString) | TypeError

  const QUOTE: CodeUnit := 34
  const COMMA: CodeUnit := 44
  const COLON: CodeUnit := 58
  const BACKSLASH: CodeUnit := 92
  const OPEN_BRACKET: CodeUnit := 91
  const CLOSE_BRACKET: CodeUnit := 93
  const OPEN_BRACE: CodeUnit := 123
  const CLOSE_BRACE: CodeUnit := 125
  const NULL_TEXT: JsString := [110, 117, 108, 108]
  const TRUE_TEXT: JsString := [116, 114, 117, 101]
  const FALSE_TEXT: JsString := [102, 97, 108, 115, 101]

  predicate IsDigit(c: CodeUnit) {
    48 <= c <= 57
  }

  /** 0-9 + - . e, the alphabet of a printed number. */
  predicate IsNumberUnit(c: CodeUnit) {
    IsDigit(c) || c == 43 || c == 45 || c == 46 || c == 101
  }

  predicate IsNumberText(t: JsString) {
    |t| > 0 && (IsDigit(t[0]) || t[0] == 45) && forall i :: 0 <= i < |t| ==> IsNumberUnit(t[i])
  }

  // ------------------------------------------------------------------ strings, as JSON.stringify

  function HexDigit(d: int): CodeUnit
    requires 0 <= d < 16
  {
    if d < 10 then 48 + d else 87 + d
  }

  function Hex4(c: CodeUnit): (t: JsString)
    ensures |t| == 4
  {
    [HexDigit(c / 4096), HexDigit(c / 256 % 16), HexDigit(c / 16 % 16), HexDigit(c % 16)]
  }

  predicate IsHighSurrogate(c: CodeUnit) {
    0xD800 <= c < 0xDC00
  }

  predicate IsLowSurrogate(c: CodeUnit) {
    0xDC00 <= c < 0xE000
  }

  function EscapeUnit(c: CodeUnit): JsString {
    if c == QUOTE || c == BACKSLASH then [BACKSLASH, c]
    else if c == 8 then [BACKSLASH, 98]
    else if c == 9 then [BACKSLASH, 116]
    else if c == 10 then [BACKSLASH, 110]
    else if c == 12 then [BACKSLASH, 102]
    else if c == 13 then [BACKSLASH, 114]
    else if c < 32 || IsHighSurrogate(c) || IsLowSurrogate(c) then [BACKSLASH, 117] + Hex4(c)
    else [c]
  }

  /** Well-formed JSON.stringify: a surrogate pair is kept as is, a lone surrogate is escaped. */
  function Escape(s: JsString): JsString {
    if s == [] then []
    else if |s| >= 2 && IsHighSurrogate(s[0]) && IsLowSurrogate(s[1]) then s[..2] + Escape(s[2..])
    else EscapeUnit(s[0]) + Escape(s[1..])
  }

  function PrintString(s: JsString): JsString {
    [QUOTE] + Escape(s) + [QUOTE]
  }

  // ------------------------------------------------------------------------------ normal form

  /** A member is left out of the output, as JSON.stringify leaves it out. */
  predicate Dropped(m: Member) {
    m.value.Undefined?
  }

  /** canonicalize returns a string for exactly these values; for any other it throws. */
  predicate Accepts(v: Value) {
    match v
    case Num(n) => !n.NonFinite?
    case Arr(items) => forall i :: 0 <= i < |items| ==> Accepts(items[i])
    case Obj(members) => forall i :: 0 <= i < |members| ==> Dropped(members[i]) || Accepts(members[i].value)
    case Undefined => false
    case Foreign => false
    case _ => true
  }

  /** Two members of one object never share a key: what every JavaScript object guarantees. */
  predicate DistinctKeys(members: seq<Member>) {
    forall i, j :: 0 <= i < j < |members| ==> members[i].key != members[j].key
  }

  predicate WellFormed(v: Value) {
    match v
    case Arr(items) => forall i :: 0 <= i < |items| ==> WellFormed(items[i])
    case Obj(members) =>
      DistinctKeys(members) && forall i :: 0 <= i < |members| ==> WellFormed(members[i].value)
    case _ => true
  }

  /** Nothing left to drop, refuse or fold: what a JSON text can denote. */
  predicate Plain(v: Value) {
    match v
    case Num(n) => n.Finite?
    case Arr(items) => forall i :: 0 <= i < |items| ==> Plain(items[i])
    case Obj(members) => forall i :: 0 <= i < |members| ==> Plain(members[i].value)
    case Undefined => false
    case Foreign => false
    case _ => true
  }

  predicate SortedByKey(members: seq<Member>) {
    forall i, j :: 0 <= i < j < |members| ==> Less(members[i].key, members[j].key)
  }

  function InsertByKey(m: Member, sorted: seq<Member>): seq<Member> {
    if sorted == [] || Less(m.key, sorted[0].key) then [m] + sorted
    else [sorted[0]] + InsertByKey(m, sorted[1..])
  }

  function SortByKey(members: seq<Member>): (r: seq<Member>)
    ensures multiset(r) == multiset(members)
  {
    if members == [] then []
    else
      InsertPermutes(members[0], SortByKey(members[1..]));
      assert members == [members[0]] + members[1..];
      InsertByKey(members[0], SortByKey(members[1..]))
  }

  lemma {:induction false} InsertPermutes(m: Member, sorted: seq<Member>)
    ensures multiset(InsertByKey(m, sorted)) == multiset(sorted) + multiset{m}
  {
    if sorted != [] && !Less(m.key, sorted[0].key) {
      InsertPermutes(m, sorted[1..]);
      assert sorted == [sorted[0]] + sorted[1..];
    }
  }

  /** What canonicalize prints: members sorted, undefined dropped, -0 folded into 0. */
  function Normalize(v: Value): (r: Value)
    requires Accepts(v)
    ensures Plain(r)
    decreases v, 1
  {
    match v
    case Num(n) => if n.NegativeZero? then Num(Finite([48])) else v
    case Arr(items) => Arr(NormalizeItems(items))
    case Obj(members) =>
      var kept := NormalizeMembers(members);
      var ordered := SortByKey(kept);
      SortKeepsPlain(kept, ordered);
      Obj(ordered)
    case _ => v
  }

  function NormalizeItems(items: seq<Value>): (r: seq<Value>)
    requires forall i :: 0 <= i < |items| ==> Accepts(items[i])
    ensures |r| == |items| && forall i :: 0 <= i < |r| ==> Plain(r[i])
    decreases items, 0
  {
    if items == [] then [] else [Normalize(items[0])] + NormalizeItems(items[1..])
  }

  function NormalizeMembers(members: seq<Member>): (r: seq<Member>)
    requires forall i :: 0 <= i < |members| ==> Dropped(members[i]) || Accepts(members[i].value)
    ensures forall i :: 0 <= i < |r| ==> Plain(r[i].value)
    decreases members, 0
  {
    if members == [] then []
    else
      var rest := NormalizeMembers(members[1..]);
      if Dropped(members[0]) then rest
      else [Member(members[0].key, Normalize(members[0].value))] + rest
  }

  lemma SortKeepsPlain(members: seq<Member>, ordered: seq<Member>)
    requires forall i :: 0 <= i < |members| ==> Plain(members[i].value)
    requires multiset(ordered) == multiset(members)
    ensures forall i :: 0 <= i < |ordered| ==> Plain(ordered[i].value)
  {
    forall i | 0 <= i < |ordered| ensures Plain(ordered[i].value) {
      assert ordered[i] in multiset(ordered);
      assert ordered[i] in members;
    }
  }

  // -------------------------------------------------------------------------------- printing

  function Print(v: Value): JsString
    requires Plain(v)
    decreases v, 1
  {
    match v
    case Null => NULL_TEXT
    case Bool(b) => if b then TRUE_TEXT else FALSE_TEXT
    case Num(n) => n.text
    case Str(s) => PrintString(s)
    case Arr(items) => [OPEN_BRACKET] + Join(PrintItems(items), [COMMA]) + [CLOSE_BRACKET]
    case Obj(members) => [OPEN_BRACE] + Join(PrintMembers(members), [COMMA]) + [CLOSE_BRACE]
  }

  function PrintItems(items: seq<Value>): (r: seq<JsString>)
    requires forall i :: 0 <= i < |items| ==> Plain(items[i])
    ensures |r| == |items|
    decreases items, 0
  {
    if items == [] then [] else [Print(items[0])] + PrintItems(items[1..])
  }

  function PrintMembers(members: seq<Member>): (r: seq<JsString>)
    requires forall i :: 0 <= i < |members| ==> Plain(members[i].value)
    ensures |r| == |members|
    decreases members, 0
  {
    if members == [] then []
    else [PrintMember(members[0])] + PrintMembers(members[1..])
  }

  function PrintMember(m: Member): JsString
    requires Plain(m.value)
    decreases m, 0
  {
    PrintString(m.key) + [COLON] + Print(m.value)
  }

  function Canonical(v: Value): Canonicalized {
    if Accepts(v) then Text(Print(Normalize(v))) else TypeError
  }

  /** record[key]: undefined when there is no such property. */
  function Lookup(members: seq<Member>, key: JsString): Value {
    if members == [] then Undefined
    else if members[0].key == key then members[0].value
    else Lookup(members[1..], key)
  }

  lemma {:induction false} LookupFinds(members: seq<Member>, i: nat)
    requires DistinctKeys(members) && i < |members|
    ensures Lookup(members, members[i].key) == members[i].value
  {
    if i > 0 {
      LookupFinds(members[1..], i - 1);
    }
  }

  lemma {:induction false} LookupMisses(members: seq<Member>, key: JsString)
    requires forall i :: 0 <= i < |members| ==> members[i].key != key
    ensures Lookup(members, key) == Undefined
  {
    if members != [] {
      LookupMisses(members[1..], key);
    }
  }
}
