/**
 JavaScript strings: sequences of UTF-16 code units, surrogates included, paired or not.
 A Dafny `char` cannot be a lone surrogate and compares by code point, so neither the key order
 nor the escaping of canonical JSON could be stated over `string`.
 */
module Utf16 {

  type CodeUnit = c: int | 0 <= c < 0x1_0000

  type JsString = seq<CodeUnit>

  /** The code units of an ASCII literal. */
  function Ascii(s: string): (t: JsString)
    ensures |t| == |s|
  {
    seq(|s|, i requires 0 <= i < |s| => (s[i] as int) % 0x1_0000)
  }

  /** Array.prototype.sort's default order: code unit by code unit, a proper prefix first. */
  predicate Less(a: JsString, b: JsString) {
    if b == [] then false
    else if a == [] then true
    else a[0] < b[0] || (a[0] == b[0] && Less(a[1..], b[1..]))
  }

  /** They agree in front of `i` and the first has the smaller code unit there. */
  predicate DifferAt(a: JsString, b: JsString, i: nat) {
    i < |a| && i < |b| && a[..i] == b[..i] && a[i] < b[i]
  }

  /**
   Section 3.2.3 of RFC 8785, said of the whole strings: a proper prefix, or the smaller code unit
   where they first differ.
   */
  ghost predicate ComesBefore(a: JsString, b: JsString) {
    a < b || exists i: nat :: DifferAt(a, b, i)
  }

  lemma {:induction false} LessIsCodeUnitOrder(a: JsString, b: JsString)
    ensures Less(a, b) <==> ComesBefore(a, b)
  {
    if a != [] && b != [] {
      LessIsCodeUnitOrder(a[1..], b[1..]);
      if a[0] == b[0] {
        SameFirst(a, b);
      } else if ComesBefore(a, b) {
        DifferAtOnce(a, b);
      } else {
        assert a[..0] == b[..0] && (a[0] < b[0] ==> DifferAt(a, b, 0));
      }
    }
  }

  lemma DifferLater(a: JsString, b: JsString, i: nat)
    requires a != [] && b != [] && a[0] == b[0]
    ensures DifferAt(a, b, i + 1) <==> DifferAt(a[1..], b[1..], i)
  {
    var (c, d) := (a[1..], b[1..]);
    if i < |c| && i < |d| {
      assert a[..i + 1] == [a[0]] + c[..i] && b[..i + 1] == [b[0]] + d[..i];
      assert a[..i + 1][1..] == c[..i] && b[..i + 1][1..] == d[..i];
    }
  }

  /** Behind an equal first code unit the rest decides. */
  lemma SameFirst(a: JsString, b: JsString)
    requires a != [] && b != [] && a[0] == b[0]
    ensures ComesBefore(a, b) <==> ComesBefore(a[1..], b[1..])
  {
    hide DifferAt;
    assert !DifferAt(a, b, 0) by { NotAtOnce(a, b); }
    if exists i: nat :: DifferAt(a, b, i) {
      var i: nat :| DifferAt(a, b, i);
      DifferLater(a, b, i - 1);
    }
    if exists i: nat :: DifferAt(a[1..], b[1..], i) {
      var i: nat :| DifferAt(a[1..], b[1..], i);
      DifferLater(a, b, i);
    }
    PrefixOfRest(a, b);
  }

  lemma NotAtOnce(a: JsString, b: JsString)
    requires a != [] && b != [] && a[0] == b[0]
    ensures !DifferAt(a, b, 0)
  {
  }

  lemma PrefixOfRest(a: JsString, b: JsString)
    requires a != [] && b != [] && a[0] == b[0]
    ensures a < b <==> a[1..] < b[1..]
  {
    assert a == [a[0]] + a[1..] && b == [b[0]] + b[1..];
  }

  lemma DifferAtOnce(a: JsString, b: JsString)
    requires a != [] && b != [] && a[0] != b[0] && ComesBefore(a, b)
    ensures a[0] < b[0]
  {
    if !(a < b) {
      var i: nat :| DifferAt(a, b, i);
      assert i > 0 ==> a[..i][0] == b[..i][0];
    }
  }

  lemma {:induction false} LessIrreflexive(a: JsString)
    ensures !Less(a, a)
  {
    if a != [] {
      LessIrreflexive(a[1..]);
    }
  }

  lemma {:induction false} LessTransitive(a: JsString, b: JsString, c: JsString)
    requires Less(a, b) && Less(b, c)
    ensures Less(a, c)
  {
    if a != [] && a[0] == b[0] == c[0] {
      LessTransitive(a[1..], b[1..], c[1..]);
    }
  }

  lemma {:induction false} LessTotal(a: JsString, b: JsString)
    ensures a == b || Less(a, b) || Less(b, a)
  {
    if a != [] && b != [] && a[0] == b[0] {
      LessTotal(a[1..], b[1..]);
      assert a == [a[0]] + a[1..] && b == [b[0]] + b[1..];
    }
  }

  lemma LessAsymmetric(a: JsString, b: JsString)
    requires Less(a, b)
    ensures !Less(b, a) && a != b
  {
    LessIrreflexive(a);
    if Less(b, a) {
      LessTransitive(a, b, a);
    }
  }

  /** Array.prototype.join. */
  function Join(parts: seq<JsString>, separator: JsString): JsString {
    if |parts| == 0 then []
    else if |parts| == 1 then parts[0]
    else parts[0] + separator + Join(parts[1..], separator)
  }
}
