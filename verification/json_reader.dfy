/**
 A reader for JSON text (RFC 8259 without insignificant whitespace), written independently of the
 printer, and the proof that it undoes `Print` whatever text follows the value.
 */
module JsonReader {
  import opened Options
  import opened Sequences
  import opened Utf16
  import opened CanonicalJson

  datatype Parsed<+T> = Stuck | Read(value: T, rest: JsString)

  // -------------------------------------------------------------------------------- strings

  function HexValue(c: CodeUnit): Option<int> {
    if IsDigit(c) then Some(c - 48)
    else if 97 <= c <= 102 then Some(c - 87)
    else if 65 <= c <= 70 then Some(c - 55)
    else None
  }

  function Hex4Value(t: JsString): (r: Option<CodeUnit>)
    requires |t| == 4
  {
    var a, b, c, d := HexValue(t[0]), HexValue(t[1]), HexValue(t[2]), HexValue(t[3]);
    if a.Some? && b.Some? && c.Some? && d.Some? then
      var v := a.value * 4096 + b.value * 256 + c.value * 16 + d.value;
      if 0 <= v < 0x1_0000 then Some(v) else None
    else None
  }

  /** What follows a backslash, `u` apart. */
  function SimpleEscape(c: CodeUnit): Option<CodeUnit> {
    if c == QUOTE || c == BACKSLASH || c == 47 then Some(c)
    else if c == 98 then Some(8)
    else if c == 116 then Some(9)
    else if c == 110 then Some(10)
    else if c == 102 then Some(12)
    else if c == 114 then Some(13)
    else None
  }

  function Prepend(c: CodeUnit, tail: Parsed<JsString>): Parsed<JsString> {
    if tail.Read? then Read([c] + tail.value, tail.rest) else Stuck
  }

  /** The string whose opening quote has just been read. */
  function ReadString(t: JsString): (r: Parsed<JsString>)
    ensures r.Read? ==> |r.rest| < |t|
    decreases |t|
  {
    if t == [] then Stuck
    else if t[0] == QUOTE then Read([], t[1..])
    else if t[0] == BACKSLASH then
      if |t| < 2 then Stuck
      else if t[1] == 117 then
        if |t| < 6 then Stuck
        else
          var unit := Hex4Value(t[2..6]);
          if unit.Some? then Prepend(unit.value, ReadString(t[6..])) else Stuck
      else
        var unit := SimpleEscape(t[1]);
        if unit.Some? then Prepend(unit.value, ReadString(t[2..])) else Stuck
    else if t[0] < 32 then Stuck
    else Prepend(t[0], ReadString(t[1..]))
  }

  lemma Nibbles(c: CodeUnit)
    ensures c == c / 4096 * 4096 + c / 256 % 16 * 256 + c / 16 % 16 * 16 + c % 16
  {
    var high := c / 16;
    assert c == high * 16 + c % 16;
    assert high == high / 16 * 16 + high % 16;
    assert high / 16 == c / 256 && high / 16 / 16 == c / 4096;
  }

  lemma Hex4Digits(a: int, b: int, c: int, d: int)
    requires 0 <= a < 16 && 0 <= b < 16 && 0 <= c < 16 && 0 <= d < 16
    ensures Hex4Value([HexDigit(a), HexDigit(b), HexDigit(c), HexDigit(d)])
         == Some(a * 4096 + b * 256 + c * 16 + d)
  {
  }

  lemma Hex4RoundTrip(c: CodeUnit)
    ensures Hex4Value(Hex4(c)) == Some(c)
  {
    Nibbles(c);
    Hex4Digits(c / 4096, c / 256 % 16, c / 16 % 16, c % 16);
  }

  lemma ReadEscapedUnit(c: CodeUnit, rest: JsString)
    ensures ReadString(EscapeUnit(c) + rest) == Prepend(c, ReadString(rest))
  {
    var t := EscapeUnit(c) + rest;
    if |EscapeUnit(c)| == 6 {
      Hex4RoundTrip(c);
      assert t[2..6] == Hex4(c) && t[6..] == rest;
    } else if |EscapeUnit(c)| == 2 {
      assert t[2..] == rest;
    } else {
      assert t[1..] == rest;
    }
  }

  lemma ReadPlainUnit(c: CodeUnit, rest: JsString)
    requires IsHighSurrogate(c) || IsLowSurrogate(c)
    ensures ReadString([c] + rest) == Prepend(c, ReadString(rest))
  {
    assert ([c] + rest)[1..] == rest;
  }

  lemma ReadPair(high: CodeUnit, low: CodeUnit, tail: JsString, s: JsString, rest: JsString)
    requires IsHighSurrogate(high) && IsLowSurrogate(low) && ReadString(tail) == Read(s, rest)
    ensures ReadString([high, low] + tail) == Read([high, low] + s, rest)
  {
    assert [high, low] + tail == [high] + ([low] + tail);
    ReadPlainUnit(high, [low] + tail);
    ReadPlainUnit(low, tail);
    assert [high, low] + s == [high] + ([low] + s);
  }

  lemma EscapePair(s: JsString)
    requires |s| >= 2 && IsHighSurrogate(s[0]) && IsLowSurrogate(s[1])
    ensures Escape(s) == [s[0], s[1]] + Escape(s[2..]) && s == [s[0], s[1]] + s[2..]
  {
    hide EscapeUnit, Hex4, HexDigit;
    assert s[..2] == [s[0], s[1]];
  }

  lemma EscapeOne(s: JsString)
    requires s != [] && !(|s| >= 2 && IsHighSurrogate(s[0]) && IsLowSurrogate(s[1]))
    ensures Escape(s) == EscapeUnit(s[0]) + Escape(s[1..]) && s == [s[0]] + s[1..]
  {
  }

  lemma ReadQuote(rest: JsString)
    ensures ReadString(Escape([]) + [QUOTE] + rest) == Read([], rest)
  {
    assert (Escape([]) + [QUOTE] + rest)[1..] == rest;
  }

  /** Reading the printed string gives the string back, and what stood behind it. */
  lemma {:induction false} ReadEscaped(s: JsString, rest: JsString, text: JsString)
    requires text == Escape(s) + [QUOTE] + rest
    ensures ReadString(text) == Read(s, rest)
    decreases |s|
  {
    if s == [] {
      ReadQuote(rest);
    } else if |s| >= 2 && IsHighSurrogate(s[0]) && IsLowSurrogate(s[1]) {
      var tail := Escape(s[2..]) + [QUOTE] + rest;
      ReadEscaped(s[2..], rest, tail);
      EscapePair(s);
      Regrouped([s[0], s[1]], Escape(s[2..]), [QUOTE], rest);
      ReadPair(s[0], s[1], tail, s[2..], rest);
    } else {
      var tail := Escape(s[1..]) + [QUOTE] + rest;
      ReadEscaped(s[1..], rest, tail);
      EscapeOne(s);
      Regrouped(EscapeUnit(s[0]), Escape(s[1..]), [QUOTE], rest);
      ReadEscapedUnit(s[0], tail);
    }
  }

  // --------------------------------------------------------------------------------- values

  function NumberSpan(t: JsString): (n: nat)
    ensures n <= |t| && forall i :: 0 <= i < n ==> IsNumberUnit(t[i])
    ensures n < |t| ==> !IsNumberUnit(t[n])
  {
    if t == [] || !IsNumberUnit(t[0]) then 0 else 1 + NumberSpan(t[1..])
  }

  function ReadWord(t: JsString, word: JsString, v: Value): Parsed<Value>
    requires |word| > 0
  {
    if word <= t then Read(v, t[|word|..]) else Stuck
  }

  /** One value from the front of `t`, with what is left of it. */
  function ParseValue(t: JsString): (r: Parsed<Value>)
    ensures r.Read? ==> |r.rest| < |t|
    decreases |t|, 0
  {
    if t == [] then Stuck
    else if t[0] == 110 then ReadWord(t, NULL_TEXT, Null)
    else if t[0] == 116 then ReadWord(t, TRUE_TEXT, Bool(true))
    else if t[0] == 102 then ReadWord(t, FALSE_TEXT, Bool(false))
    else if t[0] == QUOTE then
      var s := ReadString(t[1..]);
      if s.Read? then Read(Str(s.value), s.rest) else Stuck
    else if t[0] == OPEN_BRACKET then
      if |t| > 1 && t[1] == CLOSE_BRACKET then Read(Arr([]), t[2..])
      else
        var items := ParseItems(t[1..]);
        if items.Read? then Read(Arr(items.value), items.rest) else Stuck
    else if t[0] == OPEN_BRACE then
      if |t| > 1 && t[1] == CLOSE_BRACE then Read(Obj([]), t[2..])
      else
        var members := ParseMembers(t[1..]);
        if members.Read? then Read(Obj(members.value), members.rest) else Stuck
    else if IsDigit(t[0]) || t[0] == 45 then
      var n := NumberSpan(t);
      Read(Num(Finite(t[..n])), t[n..])
    else Stuck
  }

  /** One or more comma-separated values up to the closing bracket. */
  function ParseItems(t: JsString): (r: Parsed<seq<Value>>)
    ensures r.Read? ==> |r.rest| < |t|
    decreases |t|, 1
  {
    var first := ParseValue(t);
    if first.Stuck? || first.rest == [] then Stuck
    else if first.rest[0] == CLOSE_BRACKET then Read([first.value], first.rest[1..])
    else if first.rest[0] == COMMA then
      var more := ParseItems(first.rest[1..]);
      if more.Read? then Read([first.value] + more.value, more.rest) else Stuck
    else Stuck
  }

  function ParseMember(t: JsString): (r: Parsed<Member>)
    ensures r.Read? ==> |r.rest| < |t|
    decreases |t|, 1
  {
    if t == [] || t[0] != QUOTE then Stuck
    else
      var key := ReadString(t[1..]);
      if key.Stuck? || key.rest == [] || key.rest[0] != COLON then Stuck
      else
        var v := ParseValue(key.rest[1..]);
        if v.Read? then Read(Member(key.value, v.value), v.rest) else Stuck
  }

  function ParseMembers(t: JsString): (r: Parsed<seq<Member>>)
    ensures r.Read? ==> |r.rest| < |t|
    decreases |t|, 2
  {
    var first := ParseMember(t);
    if first.Stuck? || first.rest == [] then Stuck
    else if first.rest[0] == CLOSE_BRACE then Read([first.value], first.rest[1..])
    else if first.rest[0] == COMMA then
      var more := ParseMembers(first.rest[1..]);
      if more.Read? then Read([first.value] + more.value, more.rest) else Stuck
    else Stuck
  }

  // ------------------------------------------------------------------------------ round trip

  /** Nothing that could be read as a continuation of the number just printed. */
  predicate EndsNumber(rest: JsString) {
    rest == [] || !IsNumberUnit(rest[0])
  }

  lemma SpanOfNumber(t: NumberText, rest: JsString)
    requires EndsNumber(rest)
    ensures NumberSpan(t + rest) == |t|
  {
    var text := t + rest;
    assert forall i :: 0 <= i < |t| ==> text[i] == t[i];
    assert rest != [] ==> text[|t|] == rest[0];
  }

  // One reading step each: what the reader does with text of a known shape.

  lemma ReadsScalar(v: Value, rest: JsString)
    requires Plain(v) && !v.Arr? && !v.Obj? && (v.Num? ==> EndsNumber(rest))
    ensures ParseValue(Print(v) + rest) == Read(v, rest)
  {
    var t := Print(v) + rest;
    if v.Num? {
      SpanOfNumber(v.n.text, rest);
      assert t[..|v.n.text|] == v.n.text && t[|v.n.text|..] == rest;
    } else if v.Str? {
      ReadEscaped(v.s, rest, Escape(v.s) + [QUOTE] + rest);
      assert t[1..] == Escape(v.s) + [QUOTE] + rest;
    } else {
      assert t[|Print(v)|..] == rest;
    }
  }

  lemma ReadsArray(body: JsString, items: seq<Value>, rest: JsString)
    requires body != [] && body[0] != CLOSE_BRACKET
    requires ParseItems(body + ([CLOSE_BRACKET] + rest)) == Read(items, rest)
    ensures ParseValue([OPEN_BRACKET] + body + [CLOSE_BRACKET] + rest) == Read(Arr(items), rest)
  {
    hide ParseItems, ParseMembers, ReadString, ReadWord, NumberSpan;
    var t := [OPEN_BRACKET] + body + [CLOSE_BRACKET] + rest;
    assert t[1..] == body + ([CLOSE_BRACKET] + rest);
    assert t[1] == body[0];
  }

  lemma ReadsObject(body: JsString, members: seq<Member>, rest: JsString)
    requires body != [] && body[0] != CLOSE_BRACE
    requires ParseMembers(body + ([CLOSE_BRACE] + rest)) == Read(members, rest)
    ensures ParseValue([OPEN_BRACE] + body + [CLOSE_BRACE] + rest) == Read(Obj(members), rest)
  {
    hide ParseItems, ParseMembers, ReadString, ReadWord, NumberSpan;
    var t := [OPEN_BRACE] + body + [CLOSE_BRACE] + rest;
    assert t[1..] == body + ([CLOSE_BRACE] + rest);
    assert t[1] == body[0];
  }

  lemma ReadsMember(key: JsString, text: JsString, v: Value, rest: JsString)
    requires ParseValue(text + rest) == Read(v, rest)
    ensures ParseMember(PrintString(key) + [COLON] + text + rest) == Read(Member(key, v), rest)
  {
    hide ReadString, Escape;
    var t := PrintString(key) + [COLON] + text + rest;
    var tail := [COLON] + (text + rest);
    assert t[1..] == Escape(key) + [QUOTE] + tail;
    ReadEscaped(key, tail, Escape(key) + [QUOTE] + tail);
    assert tail[1..] == text + rest;
  }

  lemma ReadsItems(t: JsString, v: Value, after: JsString, more: seq<Value>, rest: JsString)
    requires ParseValue(t) == Read(v, after)
    requires || (after == [CLOSE_BRACKET] + rest && more == [])
             || (after != [] && after[0] == COMMA && ParseItems(after[1..]) == Read(more, rest))
    ensures ParseItems(t) == Read([v] + more, rest)
  {
    assert after == [CLOSE_BRACKET] + rest ==> after[1..] == rest && [v] + more == [v];
  }

  lemma ReadsMembers(t: JsString, m: Member, after: JsString, more: seq<Member>, rest: JsString)
    requires ParseMember(t) == Read(m, after)
    requires || (after == [CLOSE_BRACE] + rest && more == [])
             || (after != [] && after[0] == COMMA && ParseMembers(after[1..]) == Read(more, rest))
    ensures ParseMembers(t) == Read([m] + more, rest)
  {
    assert after == [CLOSE_BRACE] + rest ==> after[1..] == rest && [m] + more == [m];
  }

  lemma PrintStartsProperly(v: Value)
    requires Plain(v)
    ensures |Print(v)| > 0 && Print(v)[0] != CLOSE_BRACKET
  {
  }

  lemma JoinCons(parts: seq<JsString>, tail: JsString)
    requires |parts| > 1
    ensures Join(parts, [COMMA]) + tail == parts[0] + ([COMMA] + (Join(parts[1..], [COMMA]) + tail))
  {
  }

  lemma JoinStarts(parts: seq<JsString>)
    requires |parts| > 0 && |parts[0]| > 0
    ensures Join(parts, [COMMA]) != [] && Join(parts, [COMMA])[0] == parts[0][0]
  {
  }

  lemma {:induction false} ParsePrinted(v: Value, rest: JsString)
    requires Plain(v) && (v.Num? ==> EndsNumber(rest))
    ensures ParseValue(Print(v) + rest) == Read(v, rest)
    decreases v, 1
  {
    if v.Arr? && v.items != [] {
      ParsePrintedItems(v.items, rest);
      PrintStartsProperly(v.items[0]);
      JoinStarts(PrintItems(v.items));
      ReadsArray(Join(PrintItems(v.items), [COMMA]), v.items, rest);
    } else if v.Obj? && v.members != [] {
      ParsePrintedMembers(v.members, rest);
      JoinStarts(PrintMembers(v.members));
      ReadsObject(Join(PrintMembers(v.members), [COMMA]), v.members, rest);
    } else if v.Arr? || v.Obj? {
      assert (Print(v) + rest)[2..] == rest;
    } else {
      ReadsScalar(v, rest);
    }
  }

  lemma {:induction false} ParsePrintedItems(items: seq<Value>, rest: JsString)
    requires items != [] && forall i :: 0 <= i < |items| ==> Plain(items[i])
    ensures ParseItems(Join(PrintItems(items), [COMMA]) + ([CLOSE_BRACKET] + rest)) == Read(items, rest)
    decreases items, 0
  {
    var close := [CLOSE_BRACKET] + rest;
    var parts := PrintItems(items);
    assert items == [items[0]] + items[1..];
    if |items| == 1 {
      ParsePrinted(items[0], close);
      ReadsItems(parts[0] + close, items[0], close, [], rest);
    } else {
      var tail := Join(PrintItems(items[1..]), [COMMA]) + close;
      JoinCons(parts, close);
      ParsePrinted(items[0], [COMMA] + tail);
      ParsePrintedItems(items[1..], rest);
      assert ([COMMA] + tail)[1..] == tail;
      ReadsItems(parts[0] + ([COMMA] + tail), items[0], [COMMA] + tail, items[1..], rest);
    }
  }

  lemma {:induction false} ParsePrintedMember(m: Member, rest: JsString)
    requires Plain(m.value) && EndsNumber(rest)
    ensures ParseMember(PrintMember(m) + rest) == Read(m, rest)
    decreases m, 0
  {
    ParsePrinted(m.value, rest);
    ReadsMember(m.key, Print(m.value), m.value, rest);
  }

  lemma {:induction false} ParsePrintedMembers(members: seq<Member>, rest: JsString)
    requires members != [] && forall i :: 0 <= i < |members| ==> Plain(members[i].value)
    ensures ParseMembers(Join(PrintMembers(members), [COMMA]) + ([CLOSE_BRACE] + rest)) == Read(members, rest)
    decreases members, 0
  {
    var close := [CLOSE_BRACE] + rest;
    var parts := PrintMembers(members);
    assert members == [members[0]] + members[1..];
    if |members| == 1 {
      ParsePrintedMember(members[0], close);
      ReadsMembers(parts[0] + close, members[0], close, [], rest);
    } else {
      var tail := Join(PrintMembers(members[1..]), [COMMA]) + close;
      JoinCons(parts, close);
      ParsePrintedMember(members[0], [COMMA] + tail);
      ParsePrintedMembers(members[1..], rest);
      assert ([COMMA] + tail)[1..] == tail;
      ReadsMembers(parts[0] + ([COMMA] + tail), members[0], [COMMA] + tail, members[1..], rest);
    }
  }
}
