/**
 packages/dashboard/lib/client-address.ts: allowlist rules, an address and how many of its leading
 bits must match (section 3.1 of RFC 4632). The byte loop and the shifted mask of `matchesRule` are
 proved to compare exactly those bits.
 */
module AddressRules {
  import opened Options
  import opened Texts
  import opened ClientAddress

  // ------------------------------------------------------------------------------------ the rules

  datatype Rule = Rule(bytes: seq<Byte>, bits: nat)

  datatype Allowlist = Allowlist(rules: seq<Rule>, invalid: seq<string>)

  /** parseRule. */
  function RuleOf(entry: string): (r: Option<Rule>)
    ensures r.Some? ==> r.value.bits <= 8 * |r.value.bytes|
  {
    var slash := LastAt(entry, '/');
    var bytes := AddressBytes(if slash.None? then entry else entry[..slash.value]);
    if bytes.None? then None
    else if slash.None? then Some(Rule(bytes.value, 8 * |bytes.value|))
    else
      var suffix := Trimmed(entry[slash.value + 1..]);
      if !IsNumber(suffix, 3) || NumberOf(suffix) > 8 * |bytes.value| then None
      else Some(Rule(bytes.value, NumberOf(suffix)))
  }

  /** What each entry parses to. */
  function ParsedRules(entries: seq<string>): (parsed: seq<Option<Rule>>)
    ensures |parsed| == |entries| && forall i :: 0 <= i < |entries| ==> parsed[i] == RuleOf(entries[i])
  {
    seq(|entries|, i requires 0 <= i < |entries| => RuleOf(entries[i]))
  }

  /** Those that parsed. */
  function RulesIn(parsed: seq<Option<Rule>>): seq<Rule> {
    if parsed == [] then []
    else
      var (rest, last) := (RulesIn(parsed[..|parsed| - 1]), parsed[|parsed| - 1]);
      if last.None? then rest else rest + [last.value]
  }

  /** The entries that did not. */
  function InvalidIn(entries: seq<string>, parsed: seq<Option<Rule>>): seq<string>
    requires |entries| == |parsed|
  {
    if entries == [] then []
    else
      var rest := InvalidIn(entries[..|entries| - 1], parsed[..|parsed| - 1]);
      if parsed[|parsed| - 1].None? then rest + [entries[|entries| - 1]] else rest
  }

  function AllowlistOf(entries: seq<string>): Allowlist {
    Allowlist(RulesIn(ParsedRules(entries)), InvalidIn(entries, ParsedRules(entries)))
  }

  /** The entries between the commas that are not blank. */
  function EntriesOf(parts: seq<string>): seq<string> {
    if parts == [] then []
    else
      var (rest, entry) := (EntriesOf(parts[..|parts| - 1]), Trimmed(parts[|parts| - 1]));
      if entry == "" then rest else rest + [entry]
  }

  /** The loop of parseClientAllowlist. */
  method SortEntries(entries: seq<string>) returns (allowlist: Allowlist)
    ensures allowlist == AllowlistOf(entries)
  {
    ghost var parsed := ParsedRules(entries);
    var rules: seq<Rule> := [];
    var invalid: seq<string> := [];
    var i := 0;
    while i < |entries|
      invariant 0 <= i <= |entries|
      invariant rules == RulesIn(parsed[..i]) && invalid == InvalidIn(entries[..i], parsed[..i])
    {
      assert entries[..i + 1][..i] == entries[..i] && parsed[..i + 1][..i] == parsed[..i];
      var rule := RuleOf(entries[i]);
      if rule.None? {
        invalid := invalid + [entries[i]];
      } else {
        rules := rules + [rule.value];
      }
      i := i + 1;
    }
    assert entries[..i] == entries && parsed[..i] == parsed;
    allowlist := Allowlist(rules, invalid);
  }

  /** parseClientAllowlist: None when there is no allowlist at all. */
  method ParseClientAllowlist(value: Option<string>) returns (r: Option<Allowlist>)
    ensures var entries := EntriesOf(Split(if value.None? then "" else value.value, ','));
            r == if entries == [] then None else Some(AllowlistOf(entries))
  {
    var entries := EntriesOf(Split(if value.None? then "" else value.value, ','));
    if entries == [] {
      return None;
    }
    var allowlist := SortEntries(entries);
    r := Some(allowlist);
  }

  // ------------------------------------------------------------------------------- bits and masks

  function Power2(n: nat): (p: nat)
    ensures p >= 1
  {
    if n == 0 then 1 else 2 * Power2(n - 1)
  }

  /** x & y, bit by bit. */
  function And(x: nat, y: nat): nat {
    if x == 0 || y == 0 then 0 else 2 * And(x / 2, y / 2) + (if x % 2 == 1 && y % 2 == 1 then 1 else 0)
  }

  /** m << k. */
  function ShiftedLeft(m: nat, k: nat): nat {
    if k == 0 then m else 2 * ShiftedLeft(m, k - 1)
  }

  /** x >> k. */
  function ShiftedRight(x: nat, k: nat): nat {
    if k == 0 then x else ShiftedRight(x / 2, k - 1)
  }

  /** One bit of a byte, the first bit first. */
  function BitOf(x: Byte, i: nat): nat
    requires i < 8
  {
    ShiftedRight(x, 7 - i) % 2
  }

  /** Bit `i` of the address. */
  function Bit(bytes: seq<Byte>, i: nat): nat
    requires i < 8 * |bytes|
  {
    BitOf(bytes[i / 8], i % 8)
  }

  /** The first `bits` bits agree. */
  predicate SamePrefix(a: seq<Byte>, b: seq<Byte>, bits: nat)
    requires |a| == |b| && bits <= 8 * |a|
  {
    forall i :: 0 <= i < bits ==> Bit(a, i) == Bit(b, i)
  }

  /** What a rule is for: the same family, the same leading bits. */
  predicate Covers(rule: Rule, client: seq<Byte>) {
    && |client| == |rule.bytes| && rule.bits <= 8 * |client| && SamePrefix(client, rule.bytes, rule.bits)
  }

  lemma AndEven(x: nat, n: nat)
    ensures And(x, 2 * n) == 2 * And(x / 2, n)
  {
    if x != 0 && n != 0 {
      assert (2 * n) / 2 == n && (2 * n) % 2 == 0;
    }
  }

  /** Shifting the mask is shifting the other operand back, and the result forth. */
  lemma {:induction false} AndShifted(x: nat, m: nat, k: nat)
    ensures And(x, ShiftedLeft(m, k)) == ShiftedLeft(And(ShiftedRight(x, k), m), k)
    decreases k
  {
    if k > 0 {
      AndEven(x, ShiftedLeft(m, k - 1));
      AndShifted(x / 2, m, k - 1);
    }
  }

  lemma {:induction false} ShiftedLeftInjective(a: nat, b: nat, k: nat)
    ensures ShiftedLeft(a, k) == ShiftedLeft(b, k) <==> a == b
  {
    if k > 0 {
      ShiftedLeftInjective(a, b, k - 1);
    }
  }

  lemma {:induction false} ShiftedRightSmall(x: nat, k: nat)
    ensures ShiftedRight(x, k) <= x
  {
    if k > 0 {
      ShiftedRightSmall(x / 2, k - 1);
    }
  }

  lemma {:induction false} ShiftedOut(x: nat, j: nat)
    requires x < Power2(j)
    ensures ShiftedRight(x, j) == 0
    decreases j
  {
    if j > 0 {
      ShiftedOut(x / 2, j - 1);
    }
  }

  lemma {:induction false} ShiftedOnce(x: nat, k: nat)
    ensures ShiftedRight(x, k + 1) == ShiftedRight(x, k) / 2
  {
    if k > 0 {
      ShiftedOnce(x / 2, k - 1);
    }
  }

  lemma {:induction false} AndOnes(x: nat, j: nat)
    requires x < Power2(j)
    ensures And(x, Power2(j) - 1) == x
    decreases j
  {
    if x != 0 {
      assert (Power2(j) - 1) / 2 == Power2(j - 1) - 1 && (Power2(j) - 1) % 2 == 1;
      AndOnes(x / 2, j - 1);
    }
  }

  lemma AndByte(x: nat)
    requires x < 256
    ensures And(x, 0xff) == x
  {
    assert Power2(8) == 256;
    AndOnes(x, 8);
  }

  /** Two bytes agree under 0xff << k exactly when they agree without their last k bits. */
  lemma MaskedEqual(x: Byte, y: Byte, k: nat)
    ensures And(x, ShiftedLeft(0xff, k)) == And(y, ShiftedLeft(0xff, k)) <==> ShiftedRight(x, k) == ShiftedRight(y, k)
  {
    AndShifted(x, 0xff, k);
    AndShifted(y, 0xff, k);
    ShiftedRightSmall(x, k);
    ShiftedRightSmall(y, k);
    AndByte(ShiftedRight(x, k));
    AndByte(ShiftedRight(y, k));
    ShiftedLeftInjective(ShiftedRight(x, k), ShiftedRight(y, k), k);
  }

  /** Without its last 8 - r bits a byte is its first r bits. */
  lemma {:induction false} LeadingBits(x: Byte, y: Byte, r: nat)
    requires r <= 8
    ensures ShiftedRight(x, 8 - r) == ShiftedRight(y, 8 - r) <==> forall i :: 0 <= i < r ==> BitOf(x, i) == BitOf(y, i)
    decreases r
  {
    if r == 0 {
      assert Power2(8) == 256;
      ShiftedOut(x, 8);
      ShiftedOut(y, 8);
    } else {
      LeadingBits(x, y, r - 1);
      ShiftedOnce(x, 8 - r);
      ShiftedOnce(y, 8 - r);
      assert BitOf(x, r - 1) == ShiftedRight(x, 8 - r) % 2 && BitOf(y, r - 1) == ShiftedRight(y, 8 - r) % 2;
    }
  }

  lemma BytesEqual(x: Byte, y: Byte)
    ensures x == y <==> forall i :: 0 <= i < 8 ==> BitOf(x, i) == BitOf(y, i)
  {
    LeadingBits(x, y, 8);
  }

  lemma BitIs(bytes: seq<Byte>, j: nat, t: nat)
    requires j < |bytes| && t < 8
    ensures 8 * j + t < 8 * |bytes| && Bit(bytes, 8 * j + t) == BitOf(bytes[j], t)
  {
    assert (8 * j + t) / 8 == j && (8 * j + t) % 8 == t;
  }

  /** The compared bits are those of the whole bytes and the leading ones of the byte behind them. */
  lemma PrefixInBytes(a: seq<Byte>, b: seq<Byte>, bits: nat)
    requires |a| == |b| && bits <= 8 * |a|
    ensures SamePrefix(a, b, bits) <==>
              && (forall j :: 0 <= j < bits / 8 ==> a[j] == b[j])
              && (bits % 8 != 0 ==> forall t :: 0 <= t < bits % 8 ==> BitOf(a[bits / 8], t) == BitOf(b[bits / 8], t))
  {
    if SamePrefix(a, b, bits) {
      forall j | 0 <= j < bits / 8 ensures a[j] == b[j] {
        forall t | 0 <= t < 8 ensures BitOf(a[j], t) == BitOf(b[j], t) {
          BitIs(a, j, t);
          BitIs(b, j, t);
        }
        BytesEqual(a[j], b[j]);
      }
      forall t | 0 <= t < bits % 8 ensures BitOf(a[bits / 8], t) == BitOf(b[bits / 8], t) {
        BitIs(a, bits / 8, t);
        BitIs(b, bits / 8, t);
      }
    } else {
      var i :| 0 <= i < bits && Bit(a, i) != Bit(b, i);
      BitIs(a, i / 8, i % 8);
      BitIs(b, i / 8, i % 8);
    }
  }

  /** matchesRule: whole bytes in a loop, then one byte under a shifted mask. */
  method MatchesRule(client: seq<Byte>, rule: Rule) returns (r: bool)
    requires rule.bits <= 8 * |rule.bytes|
    ensures r <==> Covers(rule, client)
  {
    if |client| != |rule.bytes| {
      return false;
    }
    PrefixInBytes(client, rule.bytes, rule.bits);
    var wholeBytes := rule.bits / 8;
    var index := 0;
    while index < wholeBytes
      invariant 0 <= index <= wholeBytes
      invariant forall j :: 0 <= j < index ==> client[j] == rule.bytes[j]
    {
      if client[index] != rule.bytes[index] {
        return false;
      }
      index := index + 1;
    }
    var remainder := rule.bits % 8;
    if remainder == 0 {
      return true;
    }
    var mask := ShiftedLeft(0xff, 8 - remainder);
    MaskedEqual(client[wholeBytes], rule.bytes[wholeBytes], 8 - remainder);
    LeadingBits(client[wholeBytes], rule.bytes[wholeBytes], remainder);
    r := And(client[wholeBytes], mask) == And(rule.bytes[wholeBytes], mask);
  }

  ghost predicate Allows(rules: seq<Rule>, bytes: seq<Byte>) {
    exists i :: 0 <= i < |rules| && Covers(rules[i], bytes)
  }

  /** isClientAllowed. */
  method IsClientAllowed(client: string, allowlist: Allowlist) returns (r: bool)
    requires forall rule <- allowlist.rules :: rule.bits <= 8 * |rule.bytes|
    ensures r <==> AddressBytes(client).Some? && Allows(allowlist.rules, AddressBytes(client).value)
  {
    hide Covers, AddressBytes;
    var bytes := ParseIpAddress(client);
    if bytes.None? {
      return false;
    }
    var i := 0;
    while i < |allowlist.rules|
      invariant 0 <= i <= |allowlist.rules|
      invariant forall k :: 0 <= k < i ==> !Covers(allowlist.rules[k], bytes.value)
    {
      var matched := MatchesRule(bytes.value, allowlist.rules[i]);
      if matched {
        return true;
      }
      i := i + 1;
    }
    r := false;
  }

  predicate EntryAllows(rule: Option<Rule>, bytes: seq<Byte>) {
    match rule
    case None => false
    case Some(rule) => Covers(rule, bytes)
  }

  ghost predicate SomeEntryAllows(parsed: seq<Option<Rule>>, bytes: seq<Byte>) {
    exists i :: 0 <= i < |parsed| && EntryAllows(parsed[i], bytes)
  }

  lemma SomeEntryMore(parsed: seq<Option<Rule>>, last: Option<Rule>, bytes: seq<Byte>)
    ensures SomeEntryAllows(parsed + [last], bytes) <==> SomeEntryAllows(parsed, bytes) || EntryAllows(last, bytes)
  {
    var all := parsed + [last];
    assert all[|parsed|] == last;
    if SomeEntryAllows(parsed, bytes) {
      var i :| 0 <= i < |parsed| && EntryAllows(parsed[i], bytes);
      assert all[i] == parsed[i];
    }
  }

  lemma AllowsMore(rules: seq<Rule>, last: Rule, bytes: seq<Byte>)
    ensures Allows(rules + [last], bytes) <==> Allows(rules, bytes) || Covers(last, bytes)
  {
    var all := rules + [last];
    if Allows(rules, bytes) {
      var k :| 0 <= k < |rules| && Covers(rules[k], bytes);
      assert all[k] == rules[k];
    }
    assert all[|rules|] == last;
  }

  lemma {:induction false} RulesInAllow(parsed: seq<Option<Rule>>, bytes: seq<Byte>)
    ensures Allows(RulesIn(parsed), bytes) <==> SomeEntryAllows(parsed, bytes)
  {
    if parsed != [] {
      var (init, last) := (parsed[..|parsed| - 1], parsed[|parsed| - 1]);
      RulesInAllow(init, bytes);
      SomeEntryMore(init, last, bytes);
      assert parsed == init + [last];
      if last.Some? {
        AllowsMore(RulesIn(init), last.value, bytes);
      }
    }
  }

  lemma {:induction false} EachEntryCounted(entries: seq<string>, parsed: seq<Option<Rule>>)
    requires |entries| == |parsed|
    ensures |RulesIn(parsed)| + |InvalidIn(entries, parsed)| == |entries|
  {
    if entries != [] {
      EachEntryCounted(entries[..|entries| - 1], parsed[..|parsed| - 1]);
    }
  }

  /** Each entry is a rule or invalid, and only the rules ever let anyone in. */
  lemma OnlyRulesAllow(entries: seq<string>, bytes: seq<Byte>)
    ensures var allowlist := AllowlistOf(entries);
            && |allowlist.rules| + |allowlist.invalid| == |entries|
            && (Allows(allowlist.rules, bytes) <==> exists i :: 0 <= i < |entries| && EntryAllows(RuleOf(entries[i]), bytes))
  {
    var parsed := ParsedRules(entries);
    EachEntryCounted(entries, parsed);
    RulesInAllow(parsed, bytes);
  }
}
