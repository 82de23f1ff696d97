/** What several components need of sequences and sets. */
module Sequences {

  lemma Regrouped<T>(a: seq<T>, b: seq<T>, c: seq<T>, d: seq<T>)
    ensures (a + b) + c + d == a + (b + c + d)
  {
  }

  lemma SubsetSize<T>(a: set<T>, b: set<T>)
    requires a <= b
    ensures |a| <= |b|
  {
    assert b == a + (b - a);
    assert |b| == |a| + |b - a|;
  }

  /** White space and line terminators, as String.prototype.trim removes them, by code unit. */
  predicate IsWhite(unit: int) {
    || 9 <= unit <= 13 || unit == 32 || unit == 0xA0 || unit == 0x1680 || 0x2000 <= unit <= 0x200A || unit == 0x2028
    || unit == 0x2029 || unit == 0x202F || unit == 0x205F || unit == 0x3000 || unit == 0xFEFF
  }

  /** What is left when blanks are taken off both ends. */
  function TrimmedOf<T>(s: seq<T>, blank: T -> bool): seq<T> {
    if s == [] then []
    else if blank(s[0]) then TrimmedOf(s[1..], blank)
    else if blank(s[|s| - 1]) then TrimmedOf(s[..|s| - 1], blank)
    else s
  }

  /** Nothing is left exactly of what is blank throughout. */
  lemma {:induction false} TrimmedAway<T>(s: seq<T>, blank: T -> bool)
    ensures TrimmedOf(s, blank) == [] <==> forall i :: 0 <= i < |s| ==> blank(s[i])
  {
    if s != [] {
      if blank(s[0]) {
        TrimmedAway(s[1..], blank);
        assert forall i :: 0 < i < |s| ==> s[i] == s[1..][i - 1];
      } else if blank(s[|s| - 1]) {
        TrimmedAway(s[..|s| - 1], blank);
        assert s[..|s| - 1][0] == s[0];
      }
    }
  }
}
