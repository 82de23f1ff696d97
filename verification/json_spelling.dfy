/**
 The spelling of strings that section 3.2.2.2 of RFC 8785 asks for: among all texts that a JSON reader
 reads as a string and that are well-formed UTF-16, the printed one is the shortest, and with lower-case
 hexadecimal digits it is the only one of its length.
 */
module JsonSpelling {
  import opened Options
  import opened Utf16
  import opened CanonicalJson
  import opened JsonReader

  predicate IsSurrogate(c: CodeUnit) {
    IsHighSurrogate(c) || IsLowSurrogate(c)
  }

  /** Well-formed UTF-16: every surrogate is half of a pair. */
  predicate WellPaired(t: JsString) {
    if t == [] then true
    else if IsHighSurrogate(t[0]) then |t| >= 2 && IsLowSurrogate(t[1]) && WellPaired(t[2..])
    else !IsLowSurrogate(t[0]) && WellPaired(t[1..])
  }

  predicate IsCapitalHex(c: CodeUnit) {
    65 <= c <= 70
  }

  /** No `\u` escape in front of the closing quote has a capital digit. */
  predicate LowerHex(t: JsString)
    decreases |t|
  {
    if t == [] || t[0] == QUOTE then true
    else if t[0] != BACKSLASH then LowerHex(t[1..])
    else if |t| < 2 then true
    else if t[1] != 117 then LowerHex(t[2..])
    else |t| >= 6 ==> (forall i :: 2 <= i < 6 ==> !IsCapitalHex(t[i])) && LowerHex(t[6..])
  }

  /** One more unit in front costs its own escape, or less where it completes a pair. */
  lemma OneMoreUnit(c: CodeUnit, s: JsString)
    ensures |Escape([c] + s)| <= |EscapeUnit(c)| + |Escape(s)|
    ensures |Escape([c] + s)| == |EscapeUnit(c)| + |Escape(s)| ==> Escape([c] + s) == EscapeUnit(c) + Escape(s)
  {
    hide Hex4;
    var all := [c] + s;
    assert all[1..] == s;
    if s != [] && IsHighSurrogate(c) && IsLowSurrogate(s[0]) {
      assert all[2..] == s[1..];
      EscapePair(all);
      EscapeOne(s);
    } else {
      EscapeOne(all);
    }
  }

  lemma PairInFront(high: CodeUnit, low: CodeUnit, s: JsString)
    requires IsHighSurrogate(high) && IsLowSurrogate(low)
    ensures Escape([high, low] + s) == [high, low] + Escape(s)
  {
    var all := [high, low] + s;
    assert all[2..] == s;
    EscapePair(all);
  }

  // ------------------------------------------------------------------------------- one token

  /** A text that goes on with a string is one of four kinds. */
  datatype Token = Hex(unit: CodeUnit) | Simple(unit: CodeUnit) | Pair(high: CodeUnit, low: CodeUnit) | Plain(unit: CodeUnit)

  function Length(token: Token): nat {
    match token
    case Hex(_) => 6
    case Simple(_) => 2
    case Pair(_, _) => 2
    case Plain(_) => 1
  }

  function Units(token: Token): JsString {
    if token.Pair? then [token.high, token.low] else [token.unit]
  }

  /** The token a text starts with, and what is read behind it. */
  ghost predicate StartsWith(t: JsString, token: Token, tail: Parsed<JsString>) {
    && Length(token) <= |t| && tail == ReadString(t[Length(token)..])
    && match token
       case Hex(unit) => t[0] == BACKSLASH && t[1] == 117 && Hex4Value(t[2..6]) == Some(unit)
       case Simple(unit) => t[0] == BACKSLASH && t[1] != 117 && SimpleEscape(t[1]) == Some(unit)
       case Pair(high, low) => t[0] == high && t[1] == low && IsHighSurrogate(high) && IsLowSurrogate(low)
       case Plain(unit) => t[0] == unit && unit >= 32 && unit != QUOTE && unit != BACKSLASH && !IsSurrogate(unit)
  }

  lemma FirstToken(t: JsString, s: JsString, rest: JsString) returns (token: Token, behind: JsString)
    requires WellPaired(t) && ReadString(t) == Read(s, rest) && t != [] && t[0] != QUOTE
    ensures StartsWith(t, token, Read(behind, rest)) && s == Units(token) + behind && WellPaired(t[Length(token)..])
  {
    hide Hex4Value, HexValue;
    if t[0] == BACKSLASH {
      if t[1] == 117 {
        token := Hex(Hex4Value(t[2..6]).value);
        behind := ReadString(t[6..]).value;
        PairedAfter(t, 6);
      } else {
        token := Simple(SimpleEscape(t[1]).value);
        behind := ReadString(t[2..]).value;
        PairedAfter(t, 2);
      }
    } else if IsHighSurrogate(t[0]) {
      token := Pair(t[0], t[1]);
      assert t[1..][1..] == t[2..];
      behind := ReadString(t[2..]).value;
      assert [t[0]] + ([t[1]] + behind) == [t[0], t[1]] + behind;
    } else {
      token := Plain(t[0]);
      behind := ReadString(t[1..]).value;
    }
  }

  lemma {:induction false} SkipUnits(t: JsString, n: nat)
    requires n <= |t| && forall i :: 0 <= i < n ==> !IsSurrogate(t[i])
    ensures WellPaired(t) <==> WellPaired(t[n..])
  {
    if n > 0 {
      SkipUnits(t[1..], n - 1);
      assert t[1..][n - 1..] == t[n..];
    } else {
      assert t[0..] == t;
    }
  }

  /** Escapes are no surrogates. */
  lemma PairedAfter(t: JsString, count: nat)
    requires WellPaired(t) && (count == 2 || count == 6) && count <= |t| && t[0] == BACKSLASH
    requires count == 2 ==> SimpleEscape(t[1]).Some?
    requires count == 6 ==> t[1] == 117 && Hex4Value(t[2..6]).Some?
    ensures WellPaired(t[count..])
  {
    if count == 6 {
      HexUnits(t[2..6]);
      assert forall i :: 0 <= i < 4 ==> t[2..6][i] == t[i + 2];
    }
    SkipUnits(t, count);
  }

  lemma HexUnits(t: JsString)
    requires |t| == 4 && Hex4Value(t).Some?
    ensures forall i :: 0 <= i < 4 ==> !IsSurrogate(t[i])
  {
    assert HexValue(t[0]).Some? && HexValue(t[1]).Some? && HexValue(t[2]).Some? && HexValue(t[3]).Some?;
  }

  /** No token is shorter than what is printed for its units. */
  lemma TokenIsLonger(t: JsString, token: Token, tail: Parsed<JsString>, s: JsString)
    requires StartsWith(t, token, tail)
    ensures |Escape(Units(token) + s)| <= Length(token) + |Escape(s)|
  {
    hide Hex4, Hex4Value, ReadString, Escape;
    if token.Pair? {
      PairInFront(token.high, token.low, s);
    } else {
      OneMoreUnit(token.unit, s);
    }
  }

  /** Whatever well-formed text is read as a string, the printed text is no longer. */
  lemma {:induction false} PrintedIsShortest(t: JsString, s: JsString, rest: JsString)
    requires WellPaired(t) && ReadString(t) == Read(s, rest)
    ensures |Escape(s)| + 1 + |rest| <= |t|
    decreases |t|
  {
    hide StartsWith, Escape;
    if t[0] == QUOTE {
      NothingEscaped();
    } else {
      var token, behind := FirstToken(t, s, rest);
      TokenIsLonger(t, token, Read(behind, rest), behind);
      TokenMeans(t, token, Read(behind, rest));
      PrintedIsShortest(t[Length(token)..], behind, rest);
    }
  }

  lemma NothingEscaped()
    ensures Escape([]) == []
  {
  }

  lemma TokenMeans(t: JsString, token: Token, tail: Parsed<JsString>)
    requires StartsWith(t, token, tail)
    ensures 1 <= Length(token) <= |t| && tail == ReadString(t[Length(token)..])
  {
  }

  // ------------------------------------------------------------------------------- the only one

  lemma LowerDigit(c: CodeUnit)
    requires HexValue(c).Some? && !IsCapitalHex(c)
    ensures 0 <= HexValue(c).value < 16 && HexDigit(HexValue(c).value) == c
  {
  }

  lemma LowerHexIsHex4(t: JsString, c: CodeUnit)
    requires |t| == 4 && Hex4Value(t) == Some(c) && forall i :: 0 <= i < 4 ==> !IsCapitalHex(t[i])
    ensures t == Hex4(c)
  {
    hide HexDigit;
    LowerDigit(t[0]);
    LowerDigit(t[1]);
    LowerDigit(t[2]);
    LowerDigit(t[3]);
    var (a, b, d, e) := (HexValue(t[0]).value, HexValue(t[1]).value, HexValue(t[2]).value, HexValue(t[3]).value);
    assert c == ((a * 16 + b) * 16 + d) * 16 + e;
    assert c % 16 == e && c / 16 == (a * 16 + b) * 16 + d;
    assert c / 16 % 16 == d && c / 16 / 16 == a * 16 + b;
    assert c / 256 == c / 16 / 16 && c / 4096 == c / 16 / 16 / 16;
  }

  /** A token as long as what is printed for its units, with lower-case digits, is what is printed. */
  lemma TokenIsPrinted(t: JsString, token: Token, tail: Parsed<JsString>, s: JsString)
    requires StartsWith(t, token, tail) && LowerHex(t)
    requires |Escape(Units(token) + s)| == Length(token) + |Escape(s)|
    ensures Escape(Units(token) + s) == t[..Length(token)] + Escape(s) && LowerHex(t[Length(token)..])
  {
    hide Hex4Value, ReadString, Escape, HexDigit, HexValue;
    match token
    case Pair(high, low) =>
      PairInFront(high, low, s);
      assert t[..2] == [high, low] && t[1..][1..] == t[2..];
    case Hex(unit) =>
      OneMoreUnit(unit, s);
      assert forall i :: 0 <= i < 4 ==> t[2..6][i] == t[i + 2];
      LowerHexIsHex4(t[2..6], unit);
      assert t[..6] == [BACKSLASH, 117] + t[2..6];
    case Simple(unit) =>
      OneMoreUnit(unit, s);
      assert t[..2] == [BACKSLASH, t[1]];
    case Plain(unit) =>
      OneMoreUnit(unit, s);
      assert t[..1] == [unit];
  }

  /** With lower-case digits the printed text is the only one of its length. */
  lemma PutTogether(t: JsString, n: nat, printed: JsString, tail: JsString, rest: JsString)
    requires n <= |t| && printed == t[..n] + tail && t[n..] == tail + [QUOTE] + rest
    ensures t == printed + [QUOTE] + rest
  {
    assert t == t[..n] + t[n..];
  }

  /** With lower-case digits the printed text is the only one of its length. */
  lemma {:induction false} PrintedIsTheOnlyOne(t: JsString, s: JsString, rest: JsString)
    requires WellPaired(t) && LowerHex(t) && ReadString(t) == Read(s, rest)
    requires |t| == |Escape(s)| + 1 + |rest|
    ensures t == Escape(s) + [QUOTE] + rest
    decreases |t|
  {
    hide StartsWith, Escape, LowerHex, WellPaired, Units;
    if t[0] == QUOTE {
      NothingEscaped();
      assert t == [QUOTE] + t[1..];
    } else {
      var token, behind := FirstToken(t, s, rest);
      var n := Length(token);
      TokenMeans(t, token, Read(behind, rest));
      PrintedIsShortest(t[n..], behind, rest);
      TokenIsLonger(t, token, Read(behind, rest), behind);
      TokenIsPrinted(t, token, Read(behind, rest), behind);
      PrintedIsTheOnlyOne(t[n..], behind, rest);
      PutTogether(t, n, Escape(s), Escape(behind), rest);
    }
  }

  // --------------------------------------------------------------------- and it is one of them

  lemma {:induction false} EscapedIsNeat(s: JsString, rest: JsString)
    requires WellPaired(rest)
    ensures WellPaired(Escape(s) + [QUOTE] + rest) && LowerHex(Escape(s) + [QUOTE] + rest)
    decreases |s|
  {
    hide EscapeUnit, Escape, WellPaired, LowerHex;
    if s == [] {
      NothingEscaped();
      QuoteIsNeat(rest);
      assert [] + [QUOTE] + rest == [QUOTE] + rest;
    } else if |s| >= 2 && IsHighSurrogate(s[0]) && IsLowSurrogate(s[1]) {
      EscapedIsNeat(s[2..], rest);
      EscapePair(s);
      PairIsNeat(s[0], s[1], Escape(s[2..]) + [QUOTE] + rest);
      assert Escape(s) + [QUOTE] + rest == [s[0], s[1]] + (Escape(s[2..]) + [QUOTE] + rest);
    } else {
      EscapedIsNeat(s[1..], rest);
      EscapeOne(s);
      UnitIsNeat(s[0], Escape(s[1..]) + [QUOTE] + rest);
      assert Escape(s) + [QUOTE] + rest == EscapeUnit(s[0]) + (Escape(s[1..]) + [QUOTE] + rest);
    }
  }

  lemma QuoteIsNeat(rest: JsString)
    requires WellPaired(rest)
    ensures WellPaired([QUOTE] + rest) && LowerHex([QUOTE] + rest)
  {
    assert ([QUOTE] + rest)[1..] == rest;
  }

  lemma PairIsNeat(high: CodeUnit, low: CodeUnit, text: JsString)
    requires IsHighSurrogate(high) && IsLowSurrogate(low) && WellPaired(text) && LowerHex(text)
    ensures WellPaired([high, low] + text) && LowerHex([high, low] + text)
  {
    var all := [high, low] + text;
    assert all[2..] == text && all[1..][1..] == all[2..] && all[1..][0] == low;
  }

  lemma UnitIsNeat(c: CodeUnit, text: JsString)
    requires WellPaired(text) && LowerHex(text)
    ensures WellPaired(EscapeUnit(c) + text) && LowerHex(EscapeUnit(c) + text)
  {
    hide Hex4, WellPaired;
    var (all, n) := (EscapeUnit(c) + text, |EscapeUnit(c)|);
    assert all[n..] == text;
    EscapeUnits(c);
    assert forall i :: 0 <= i < n ==> all[i] == EscapeUnit(c)[i];
    SkipUnits(all, n);
  }

  lemma EscapeUnits(c: CodeUnit)
    ensures |EscapeUnit(c)| == 1 || |EscapeUnit(c)| == 2 || |EscapeUnit(c)| == 6
    ensures forall i :: 0 <= i < |EscapeUnit(c)| ==> !IsSurrogate(EscapeUnit(c)[i])
    ensures |EscapeUnit(c)| == 6 ==> forall i :: 2 <= i < 6 ==> !IsCapitalHex(EscapeUnit(c)[i])
  {
    var digits := Hex4(c);
    assert forall i :: 0 <= i < 4 ==> !IsSurrogate(digits[i]) && !IsCapitalHex(digits[i]);
  }

  /**
   Well-formed text that is read as `s` up to its closing quote: the printed text is such a text, none is
   shorter, and no other with lower-case digits is as short.
   */
  lemma SpelledAsShortAsCanBe(s: JsString, t: JsString, rest: JsString)
    requires WellPaired(t) && ReadString(t) == Read(s, rest) && WellPaired(rest)
    ensures var printed := Escape(s) + [QUOTE] + rest;
            && ReadString(printed) == Read(s, rest) && WellPaired(printed) && LowerHex(printed)
            && |printed| <= |t| && (|printed| == |t| && LowerHex(t) ==> printed == t)
  {
    hide Escape, ReadString, WellPaired, LowerHex;
    ReadEscaped(s, rest, Escape(s) + [QUOTE] + rest);
    EscapedIsNeat(s, rest);
    PrintedIsShortest(t, s, rest);
    if |t| == |Escape(s)| + 1 + |rest| && LowerHex(t) {
      PrintedIsTheOnlyOne(t, s, rest);
    }
  }
}
