/** String.prototype.split and Array.prototype.join over one character, and trim. */
module Texts {
  import opened Sequences

  function Split(s: string, c: char): (parts: seq<string>)
    ensures parts != []
  {
    if s == "" then [""]
    else
      var rest := Split(s[1..], c);
      if s[0] == c then [""] + rest else [[s[0]] + rest[0]] + rest[1..]
  }

  function Joined(parts: seq<string>, c: char): string {
    if parts == [] then "" else if |parts| == 1 then parts[0] else parts[0] + [c] + Joined(parts[1..], c)
  }

  predicate NoneHolds(parts: seq<string>, c: char) {
    forall i :: 0 <= i < |parts| ==> c !in parts[i]
  }

  lemma {:induction false} SplitPrefix(part: string, rest: string, c: char)
    requires c !in part
    ensures Split(part + [c] + rest, c) == [part] + Split(rest, c)
  {
    var s := part + [c] + rest;
    if part == "" {
      assert s == [c] + rest && s[1..] == rest;
    } else {
      assert part[0] in part;
      assert s[0] == part[0] && s[1..] == part[1..] + [c] + rest;
      SplitPrefix(part[1..], rest, c);
      assert [part[0]] + part[1..] == part;
    }
  }

  lemma {:induction false} SplitWhole(part: string, c: char)
    requires c !in part
    ensures Split(part, c) == [part]
  {
    if part != "" {
      assert part[0] in part;
      SplitWhole(part[1..], c);
      assert [part[0]] + part[1..] == part;
    }
  }

  /** Splitting undoes joining ... */
  lemma {:induction false} SplitJoined(parts: seq<string>, c: char)
    requires parts != [] && NoneHolds(parts, c)
    ensures Split(Joined(parts, c), c) == parts
  {
    if |parts| == 1 {
      SplitWhole(parts[0], c);
    } else {
      SplitJoined(parts[1..], c);
      SplitPrefix(parts[0], Joined(parts[1..], c), c);
      assert parts == [parts[0]] + parts[1..];
    }
  }

  /** What one more character does to the parts it is put in front of. */
  lemma JoinedHead(x: char, parts: seq<string>, c: char)
    requires parts != []
    ensures Joined([""] + parts, c) == [c] + Joined(parts, c)
    ensures Joined([[x] + parts[0]] + parts[1..], c) == [x] + Joined(parts, c)
  {
    assert ([""] + parts)[1..] == parts;
    assert ([[x] + parts[0]] + parts[1..])[1..] == parts[1..];
    if |parts| > 1 {
      Regrouped([x], parts[0], [c], Joined(parts[1..], c));
    }
  }

  /** ... and joining undoes splitting. */
  lemma {:induction false} JoinedSplit(s: string, c: char)
    ensures Joined(Split(s, c), c) == s && NoneHolds(Split(s, c), c)
  {
    hide Joined;
    if s != "" {
      JoinedSplit(s[1..], c);
      JoinedHead(s[0], Split(s[1..], c), c);
      assert s == [s[0]] + s[1..];
    } else {
      JoinedOne(s, c);
    }
  }

  lemma JoinedOne(s: string, c: char)
    ensures Joined([s], c) == s
  {
  }

  /** String.prototype.trim. */
  function Trimmed(s: string): string {
    TrimmedOf(s, (c: char) => IsWhite(c as int))
  }

  predicate IsDigit(c: char) {
    '0' <= c <= '9'
  }

  predicate AllDigits(s: string) {
    forall i :: 0 <= i < |s| ==> IsDigit(s[i])
  }

  function NumberOf(s: string): nat
    requires AllDigits(s)
  {
    if s == "" then 0
    else
      assert IsDigit(s[|s| - 1]);
      10 * NumberOf(s[..|s| - 1]) + (s[|s| - 1] as int - '0' as int)
  }

  /** String(n). */
  function Decimal(n: nat): (s: string)
    ensures s != "" && AllDigits(s)
  {
    var digit := ('0' as int + n % 10) as char;
    if n < 10 then [digit] else Decimal(n / 10) + [digit]
  }

  lemma {:induction false} DecimalRead(n: nat)
    ensures NumberOf(Decimal(n)) == n
  {
    var s := Decimal(n);
    if n >= 10 {
      DecimalRead(n / 10);
      assert s[..|s| - 1] == Decimal(n / 10);
    } else {
      assert s[..0] == "";
    }
  }
}
