/**
 What an address and an allowlist entry may look like, said of their texts: brackets, a port, a number of
 bits, and which entries of the list end up where.
 */
module AddressForms {
  import opened Options
  import opened Texts
  import opened ClientAddress
  import opened ClientAddressLaws
  import opened AddressRules

  // --------------------------------------------------------------------------------- one address

  /** A text of an IPv6 address: whole or with a gap, a scope id left out. */
  ghost predicate SixText(text: string, bytes: seq<Byte>) {
    WholeText(Unscoped(text), bytes) || GappedText(Unscoped(text), bytes)
  }

  /** Ten zeros and two bytes of ones stand in front of the four of an IPv4 address. */
  predicate Mapping(six: seq<Byte>, four: seq<Byte>) {
    |four| == 4 && six == Zeros(10) + [0xff, 0xff] + four
  }

  ghost predicate MapsTo(text: string, four: seq<Byte>) {
    exists six :: SixText(text, six) && Mapping(six, four)
  }

  ghost predicate MapsToNone(six: seq<Byte>) {
    forall four :: !Mapping(six, four)
  }

  /** An address by itself: with a colon it is read as IPv6, and as the IPv4 address it maps. */
  ghost predicate Bare(text: string, bytes: seq<Byte>) {
    if ':' in text then MapsTo(text, bytes) || (SixText(text, bytes) && MapsToNone(bytes))
    else QuadText(text, bytes)
  }

  lemma MappedIs(six: seq<Byte>)
    requires |six| == 16
    ensures IsMapped(six) ==> Mapping(six, six[12..])
    ensures forall four :: Mapping(six, four) ==> IsMapped(six) && four == six[12..]
  {
    if IsMapped(six) {
      assert six == Zeros(10) + [0xff, 0xff] + six[12..];
    }
    forall four | Mapping(six, four) ensures IsMapped(six) && four == six[12..] {
      assert forall i :: 0 <= i < 10 ==> six[i] == Zeros(10)[i];
      assert six[12..] == four;
    }
  }

  lemma SixIsSixteen(text: string, bytes: seq<Byte>)
    ensures SixText(text, bytes) <==> Ipv6Bytes(text) == Some(bytes)
    ensures SixText(text, bytes) ==> |bytes| == 16
  {
    hide Ipv6Bytes, Spells, WholeText, GappedText;
    Ipv6Inverse(text, bytes);
    if WholeText(Unscoped(text), bytes) {
      WholeLength(Unscoped(text), bytes);
    }
    if GappedText(Unscoped(text), bytes) {
      GappedLength(Unscoped(text), bytes);
    }
  }

  lemma WholeLength(text: string, bytes: seq<Byte>)
    requires WholeText(text, bytes)
    ensures |bytes| == 16
  {
  }

  lemma GappedLength(text: string, bytes: seq<Byte>)
    requires GappedText(text, bytes)
    ensures |bytes| == 16
  {
    hide Spells;
    var head, tail :| Gapped(head, tail, text, bytes);
  }

  lemma BareRead(text: string, bytes: seq<Byte>)
    ensures BytesOf(text) == Some(bytes) <==> Bare(text, bytes)
  {
    hide Ipv6Bytes, Ipv4Bytes, SixText, QuadText, IsMapped, Mapping;
    if ':' in text {
      if Ipv6Bytes(text).Some? {
        var six := Ipv6Bytes(text).value;
        SixIsSixteen(text, six);
        MappedIs(six);
      }
      forall other | SixText(text, other) ensures Ipv6Bytes(text) == Some(other) {
        SixIsSixteen(text, other);
      }
    } else {
      Ipv4Inverse(text, bytes);
      if Ipv4Bytes(text).Some? {
        Ipv4Inverse(text, Ipv4Bytes(text).value);
        FourUnmapped(text, Ipv4Bytes(text).value);
      }
      if QuadText(text, bytes) {
        QuadHoldsDot(text, bytes);
      }
    }
  }

  lemma FourUnmapped(text: string, bytes: seq<Byte>)
    requires QuadText(text, bytes)
    ensures !IsMapped(bytes) && text != ""
  {
    QuadHoldsDot(text, bytes);
  }

  // ------------------------------------------------------------------------- brackets and ports

  /** The text between an opening bracket in front and the first closing one. */
  ghost predicate Bracketed(text: string, inner: string) {
    exists after :: text == "[" + inner + "]" + after && ']' !in inner
  }

  /** Four groups of up to three digits, and behind a colon a number of up to five. */
  ghost predicate Ported(text: string, host: string) {
    exists groups, port :: PortedBy(text, host, groups, port)
  }

  predicate PortedBy(text: string, host: string, groups: seq<string>, port: string) {
    && |groups| == 4 && (forall i :: 0 <= i < 4 ==> IsNumber(groups[i], 3)) && host == Joined(groups, '.')
    && IsNumber(port, 5) && text == host + ":" + port
  }

  lemma BracketRead(text: string, inner: string)
    requires text != "" && text[0] == '['
    ensures (FirstAt(text, ']').Some? && text[1..FirstAt(text, ']').value] == inner) <==> Bracketed(text, inner)
  {
    var close := FirstAt(text, ']');
    if close.Some? && text[1..close.value] == inner {
      assert close.value > 0;
      assert text == "[" + inner + "]" + text[close.value + 1..];
      assert forall c :: c in inner ==> c in text[..close.value];
    }
    if Bracketed(text, inner) {
      var after :| text == "[" + inner + "]" + after && ']' !in inner;
      assert text[1 + |inner|] == ']';
      assert text[..1 + |inner|] == "[" + inner;
      FirstOne(text, 1 + |inner|, ']');
      assert text[1..1 + |inner|] == inner;
    }
  }

  lemma FirstOne(s: string, i: nat, c: char)
    requires i < |s| && s[i] == c && c !in s[..i]
    ensures FirstAt(s, c) == Some(i)
  {
    var at := FirstAt(s, c);
    assert forall k :: 0 <= k < i ==> s[k] == s[..i][k] && s[k] != c;
    assert at.Some? ==> forall k :: 0 <= k < at.value ==> s[k] == s[..at.value][k];
  }

  lemma PortRead(text: string, host: string)
    ensures (HasPort(text) && Split(text, ':')[0] == host) <==> Ported(text, host)
  {
    hide Split, Joined;
    JoinedSplit(text, ':');
    if HasPort(text) && Split(text, ':')[0] == host {
      var parts := Split(text, ':');
      JoinedTwo(parts);
      JoinedSplit(host, '.');
      assert PortedBy(text, host, Split(host, '.'), parts[1]);
    }
    if Ported(text, host) {
      var groups, port :| PortedBy(text, host, groups, port);
      PortedSplits(text, host, groups, port);
    }
  }

  lemma JoinedTwo(parts: seq<string>)
    requires |parts| == 2
    ensures Joined(parts, ':') == parts[0] + ":" + parts[1]
  {
    assert parts[1..] == [parts[1]];
  }

  lemma PortedSplits(text: string, host: string, groups: seq<string>, port: string)
    requires PortedBy(text, host, groups, port)
    ensures Split(text, ':') == [host, port] && Split(host, '.') == groups
  {
    hide Split, Joined;
    forall i | 0 <= i < 4 ensures '.' !in groups[i] && ':' !in groups[i] {
      DigitsHoldNo(groups[i], '.');
      DigitsHoldNo(groups[i], ':');
    }
    DigitsHoldNo(port, ':');
    SplitJoined(groups, '.');
    JoinedHoldsNo(groups, '.', ':');
    var parts := [host, port];
    JoinedTwo(parts);
    SplitJoined(parts, ':');
  }

  /** The text the bytes are read from. */
  ghost predicate Unwraps(text: string, inner: string) {
    if text != "" && text[0] == '[' then Bracketed(text, inner)
    else if exists host :: Ported(text, host) then Ported(text, inner)
    else inner == text
  }

  lemma UnwrappedIs(value: string, inner: string)
    ensures Unwrapped(value) == Some(inner) <==> Unwraps(Trimmed(value), inner)
  {
    hide Bracketed, Ported, Trimmed, HasPort, Split;
    var text := Trimmed(value);
    if text != "" && text[0] == '[' {
      BracketRead(text, inner);
    } else {
      PortRead(text, inner);
      PortRead(text, Split(text, ':')[0]);
      forall host | Ported(text, host) ensures HasPort(text) {
        PortRead(text, host);
      }
    }
  }

  /** What is read as an address: a bare one, in brackets or with a port behind four groups, blanks around it ignored. */
  lemma AddressIsRead(value: string, bytes: seq<Byte>)
    ensures AddressBytes(value) == Some(bytes) <==> exists inner :: Unwraps(Trimmed(value), inner) && Bare(inner, bytes)
  {
    hide BytesOf, Bare, Unwraps, Unwrapped;
    if Unwrapped(value).Some? {
      UnwrappedIs(value, Unwrapped(value).value);
      BareRead(Unwrapped(value).value, bytes);
    }
    forall inner | Unwraps(Trimmed(value), inner) ensures Unwrapped(value) == Some(inner) {
      UnwrappedIs(value, inner);
    }
  }

  // ------------------------------------------------------------------------------------- one rule

  /** An address and, behind the last slash, how many of its leading bits count. */
  ghost predicate Masked(entry: string, address: string, suffix: string, bytes: seq<Byte>, bits: nat) {
    && entry == address + "/" + suffix && '/' !in suffix && AddressBytes(address) == Some(bytes)
    && 1 <= |Trimmed(suffix)| <= 3 && AllDigits(Trimmed(suffix)) && NumberOf(Trimmed(suffix)) == bits <= 8 * |bytes|
  }

  ghost predicate WritesRule(entry: string, bytes: seq<Byte>, bits: nat) {
    || ('/' !in entry && AddressBytes(entry) == Some(bytes) && bits == 8 * |bytes|)
    || exists address, suffix :: Masked(entry, address, suffix, bytes, bits)
  }

  lemma LastOne(s: string, i: nat, c: char)
    requires i < |s| && s[i] == c && c !in s[i + 1..]
    ensures LastAt(s, c) == Some(i)
  {
    var at := LastAt(s, c);
    assert forall k :: i < k < |s| ==> s[k] == s[i + 1..][k - i - 1] && s[k] != c;
    assert at.Some? ==> forall k :: at.value < k < |s| ==> s[k] == s[at.value + 1..][k - at.value - 1];
  }

  /** An entry is a rule exactly when it is an address, all of whose bits count, or one with a number of bits. */
  lemma RulesAreWritten(entry: string, bytes: seq<Byte>, bits: nat)
    ensures RuleOf(entry) == Some(Rule(bytes, bits)) <==> WritesRule(entry, bytes, bits)
  {
    hide AddressBytes, Trimmed, NumberOf;
    var slash := LastAt(entry, '/');
    if slash.Some? {
      var (address, suffix) := (entry[..slash.value], entry[slash.value + 1..]);
      assert entry == address + "/" + suffix;
      if RuleOf(entry) == Some(Rule(bytes, bits)) {
        assert Masked(entry, address, suffix, bytes, bits);
      }
    }
    forall address, suffix | Masked(entry, address, suffix, bytes, bits) ensures RuleOf(entry) == Some(Rule(bytes, bits)) {
      assert entry[|address| + 1..] == suffix && entry[..|address|] == address;
      LastOne(entry, |address|, '/');
    }
  }

  // ------------------------------------------------------------------------------------- the list

  /** `at` lists, in order, the places at which `p` holds. */
  ghost predicate Places(n: nat, p: nat -> bool, at: seq<nat>) {
    && (forall k :: 0 <= k < |at| ==> at[k] < n && p(at[k]))
    && (forall k, m :: 0 <= k < m < |at| ==> at[k] < at[m])
    && (forall i :: 0 <= i < n && p(i) ==> i in at)
  }

  lemma PlacesMore(n: nat, p: nat -> bool, at: seq<nat>)
    requires Places(n, p, at)
    ensures Places(n + 1, p, if p(n) then at + [n] else at)
  {
    var next := if p(n) then at + [n] else at;
    forall i | 0 <= i < n + 1 && p(i) ensures i in next {
      if i == n {
        assert next[|at|] == n;
      } else {
        assert i in at;
      }
    }
  }

  predicate IsRule(entries: seq<string>, i: nat) {
    i < |entries| && RuleOf(entries[i]).Some?
  }

  predicate IsInvalid(entries: seq<string>, i: nat) {
    i < |entries| && RuleOf(entries[i]).None?
  }

  /** The rules are what the good entries parse to, the invalid ones all others, both in their order. */
  ghost predicate Sorted(entries: seq<string>, rules: seq<Rule>, invalid: seq<string>, good: seq<nat>, bad: seq<nat>) {
    && Places(|entries|, (i: nat) => IsRule(entries, i), good)
    && Places(|entries|, (i: nat) => IsInvalid(entries, i), bad)
    && |rules| == |good| && (forall k :: 0 <= k < |good| ==> good[k] < |entries| && RuleOf(entries[good[k]]) == Some(rules[k]))
    && |invalid| == |bad| && (forall k :: 0 <= k < |bad| ==> bad[k] < |entries| && invalid[k] == entries[bad[k]])
  }

  lemma PlacesAlike(n: nat, p: nat -> bool, q: nat -> bool, at: seq<nat>)
    requires Places(n, p, at) && forall i: nat :: i < n ==> p(i) == q(i)
    ensures Places(n, q, at)
  {
  }

  lemma GoodMore(entries: seq<string>, rules: seq<Rule>, good: seq<nat>, entry: string)
    requires Places(|entries|, (i: nat) => IsRule(entries, i), good)
    requires |rules| == |good| && forall k :: 0 <= k < |good| ==> good[k] < |entries| && RuleOf(entries[good[k]]) == Some(rules[k])
    ensures var (all, rule) := (entries + [entry], RuleOf(entry));
            var (next, more) := (if rule.Some? then good + [|entries|] else good, if rule.Some? then rules + [rule.value] else rules);
            && Places(|all|, (i: nat) => IsRule(all, i), next)
            && |more| == |next| && forall k :: 0 <= k < |next| ==> next[k] < |all| && RuleOf(all[next[k]]) == Some(more[k])
  {
    hide RuleOf, Places;
    var all := entries + [entry];
    assert forall i :: 0 <= i < |entries| ==> all[i] == entries[i];
    PlacesAlike(|entries|, (i: nat) => IsRule(entries, i), (i: nat) => IsRule(all, i), good);
    PlacesMore(|entries|, (i: nat) => IsRule(all, i), good);
  }

  lemma BadMore(entries: seq<string>, invalid: seq<string>, bad: seq<nat>, entry: string)
    requires Places(|entries|, (i: nat) => IsInvalid(entries, i), bad)
    requires |invalid| == |bad| && forall k :: 0 <= k < |bad| ==> bad[k] < |entries| && invalid[k] == entries[bad[k]]
    ensures var (all, wrong) := (entries + [entry], RuleOf(entry).None?);
            var (next, more) := (if wrong then bad + [|entries|] else bad, if wrong then invalid + [entry] else invalid);
            && Places(|all|, (i: nat) => IsInvalid(all, i), next)
            && |more| == |next| && forall k :: 0 <= k < |next| ==> next[k] < |all| && more[k] == all[next[k]]
  {
    hide RuleOf, Places;
    var all := entries + [entry];
    assert forall i :: 0 <= i < |entries| ==> all[i] == entries[i];
    PlacesAlike(|entries|, (i: nat) => IsInvalid(entries, i), (i: nat) => IsInvalid(all, i), bad);
    PlacesMore(|entries|, (i: nat) => IsInvalid(all, i), bad);
  }

  lemma {:induction false} EntriesSorted(entries: seq<string>, parsed: seq<Option<Rule>>) returns (good: seq<nat>, bad: seq<nat>)
    requires |parsed| == |entries| && forall i :: 0 <= i < |entries| ==> parsed[i] == RuleOf(entries[i])
    ensures Sorted(entries, RulesIn(parsed), InvalidIn(entries, parsed), good, bad)
  {
    hide RuleOf, Places;
    if entries == [] {
      good, bad := [], [];
      NoPlaces((i: nat) => IsRule(entries, i));
      NoPlaces((i: nat) => IsInvalid(entries, i));
    } else {
      var n := |entries| - 1;
      var (init, last) := (entries[..n], entries[n]);
      good, bad := EntriesSorted(init, parsed[..n]);
      GoodMore(init, RulesIn(parsed[..n]), good, last);
      BadMore(init, InvalidIn(init, parsed[..n]), bad, last);
      assert entries == init + [last];
      if parsed[n].Some? {
        good := good + [n];
      } else {
        bad := bad + [n];
      }
    }
  }

  lemma NoPlaces(p: nat -> bool)
    ensures Places(0, p, [])
  {
  }

  /** Every entry of a list is a rule or invalid, and stands in its own list in order. */
  lemma AllowlistMeans(entries: seq<string>) returns (good: seq<nat>, bad: seq<nat>)
    ensures Sorted(entries, AllowlistOf(entries).rules, AllowlistOf(entries).invalid, good, bad)
  {
    hide RuleOf, RulesIn, InvalidIn, Sorted;
    good, bad := EntriesSorted(entries, ParsedRules(entries));
  }

  predicate IsWritten(parts: seq<string>, i: nat) {
    i < |parts| && Trimmed(parts[i]) != ""
  }

  /** The entries are the parts between the commas that are not blank, trimmed, in their order. */
  lemma {:induction false} EntriesAre(parts: seq<string>) returns (at: seq<nat>)
    ensures Places(|parts|, (i: nat) => IsWritten(parts, i), at)
    ensures |EntriesOf(parts)| == |at|
    ensures forall k :: 0 <= k < |at| ==> at[k] < |parts| && EntriesOf(parts)[k] == Trimmed(parts[at[k]])
  {
    hide Trimmed, Places;
    if parts == [] {
      at := [];
      NoPlaces((i: nat) => IsWritten(parts, i));
    } else {
      var n := |parts| - 1;
      var init := parts[..n];
      at := EntriesAre(init);
      assert forall i :: 0 <= i < n ==> init[i] == parts[i];
      PlacesAlike(n, (i: nat) => IsWritten(init, i), (i: nat) => IsWritten(parts, i), at);
      PlacesMore(n, (i: nat) => IsWritten(parts, i), at);
      if Trimmed(parts[n]) != "" {
        at := at + [n];
      }
    }
  }
}
