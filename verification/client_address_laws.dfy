/**
 The address parser accepts exactly the texts of an address: for every 16 bytes each form of section
 2.2 of RFC 4291 is read back to them, and the three things accepted beyond those forms are named.
 */
module ClientAddressLaws {
  import opened Options
  import opened Texts
  import opened ClientAddress

  // --------------------------------------------------------------------------------- IPv4 and groups

  /** d.d.d.d */
  ghost predicate QuadText(text: string, bytes: seq<Byte>) {
    exists groups :: IsQuad(groups) && text == Joined(groups, '.') && bytes == QuadBytes(groups)
  }

  lemma DigitsHoldNo(s: string, c: char)
    requires (forall i :: 0 <= i < |s| ==> IsHex(s[i])) && !IsHex(c)
    ensures c !in s
  {
  }

  /** parseIpv4 reads exactly the dotted quads. */
  lemma Ipv4Inverse(text: string, bytes: seq<Byte>)
    ensures Ipv4Bytes(text) == Some(bytes) <==> QuadText(text, bytes)
  {
    JoinedSplit(text, '.');
    if QuadText(text, bytes) {
      var groups :| IsQuad(groups) && text == Joined(groups, '.') && bytes == QuadBytes(groups);
      forall i | 0 <= i < |groups| ensures '.' !in groups[i] {
        DigitsHoldNo(groups[i], '.');
      }
      SplitJoined(groups, '.');
    }
  }

  lemma QuadHoldsDot(text: string, bytes: seq<Byte>)
    requires QuadText(text, bytes)
    ensures '.' in text && ':' !in text && text != ""
  {
    var groups :| IsQuad(groups) && text == Joined(groups, '.') && bytes == QuadBytes(groups);
    assert text == groups[0] + ['.'] + Joined(groups[1..], '.');
    assert text[|groups[0]|] == '.';
    forall i | 0 <= i < |groups| ensures ':' !in groups[i] {
      DigitsHoldNo(groups[i], ':');
    }
    JoinedHoldsNo(groups, '.', ':');
  }

  lemma {:induction false} JoinedHoldsNo(parts: seq<string>, c: char, d: char)
    requires c != d && NoneHolds(parts, d)
    ensures d !in Joined(parts, c)
  {
    if |parts| > 1 {
      JoinedHoldsNo(parts[1..], c, d);
    }
  }

  /** Two bytes, the high one first. */
  function Number(bytes: seq<Byte>): int
    requires |bytes| == 2
  {
    256 * (bytes[0] as int) + (bytes[1] as int)
  }

  /** A group of up to four hex digits is two bytes, a dotted quad in last place four. */
  ghost predicate GroupText(group: string, bytes: seq<Byte>, last: bool) {
    || (IsGroup(group) && |bytes| == 2 && Number(bytes) == GroupOf(group))
    || (last && QuadText(group, bytes))
  }

  lemma GroupInverse(group: string, bytes: seq<Byte>, last: bool)
    ensures GroupBytes(group, last) == Some(bytes) <==> GroupText(group, bytes, last)
  {
    if '.' in group {
      Ipv4Inverse(group, bytes);
      assert !IsGroup(group);
    } else {
      if QuadText(group, bytes) {
        QuadHoldsDot(group, bytes);
        assert false;
      }
      if IsGroup(group) {
        GroupIsTwoBytes(group);
        TwoBytes(GroupOf(group), bytes);
      }
    }
  }

  lemma TwoBytes(n: nat, bytes: seq<Byte>)
    requires n < 65536
    ensures bytes == [n / 256, n % 256] <==> |bytes| == 2 && Number(bytes) == n
  {
    if |bytes| == 2 && Number(bytes) == n {
      assert bytes[0] == n / 256 && bytes[1] == n % 256;
    }
  }

  lemma GroupHoldsNoColon(group: string, bytes: seq<Byte>, last: bool)
    requires GroupText(group, bytes, last)
    ensures group != "" && ':' !in group && |bytes| <= 4 && (|bytes| == 4 <==> '.' in group) && (|bytes| == 2 <==> '.' !in group)
  {
    if QuadText(group, bytes) {
      QuadHoldsDot(group, bytes);
    } else {
      DigitsHoldNo(group, ':');
      DigitsHoldNo(group, '.');
    }
  }

  // ------------------------------------------------------------------------------------ sections

  /** Groups with colons between them, and what each says. */
  datatype Section = Section(groups: seq<string>, pieces: seq<seq<Byte>>)

  ghost predicate Spells(s: Section) {
    && |s.groups| == |s.pieces|
    && forall i :: 0 <= i < |s.groups| ==> GroupText(s.groups[i], s.pieces[i], i == |s.groups| - 1)
  }

  function TextOf(s: Section): string {
    Joined(s.groups, ':')
  }

  function Flat(pieces: seq<seq<Byte>>): seq<Byte> {
    if pieces == [] then [] else pieces[0] + Flat(pieces[1..])
  }

  function Rest(s: Section): Section
    requires s.groups != [] && s.pieces != []
  {
    Section(s.groups[1..], s.pieces[1..])
  }

  lemma {:induction false} GroupsRead(s: Section)
    requires Spells(s)
    ensures GroupsBytes(s.groups) == Some(Flat(s.pieces))
    decreases |s.groups|
  {
    if s.groups != [] {
      assert GroupText(s.groups[0], s.pieces[0], 0 == |s.groups| - 1);
      GroupInverse(s.groups[0], s.pieces[0], |s.groups| == 1);
      RestSpells(s);
      GroupsRead(Rest(s));
    }
  }

  lemma RestSpells(s: Section)
    requires Spells(s) && s.groups != []
    ensures Spells(Rest(s))
  {
    var r := Rest(s);
    forall i | 0 <= i < |r.groups| ensures GroupText(r.groups[i], r.pieces[i], i == |r.groups| - 1) {
      assert GroupText(s.groups[i + 1], s.pieces[i + 1], i + 1 == |s.groups| - 1);
    }
  }

  lemma {:induction false} GroupsSpelled(groups: seq<string>) returns (pieces: seq<seq<Byte>>)
    requires GroupsBytes(groups).Some?
    ensures Spells(Section(groups, pieces)) && GroupsBytes(groups) == Some(Flat(pieces))
  {
    if groups == [] {
      pieces := [];
    } else {
      var first := GroupBytes(groups[0], |groups| == 1).value;
      GroupInverse(groups[0], first, |groups| == 1);
      var rest := GroupsSpelled(groups[1..]);
      pieces := [first] + rest;
      SpellsMore(groups, first, rest);
      assert pieces[1..] == rest;
    }
  }

  lemma SpellsMore(groups: seq<string>, first: seq<Byte>, rest: seq<seq<Byte>>)
    requires groups != [] && GroupText(groups[0], first, |groups| == 1) && Spells(Section(groups[1..], rest))
    ensures Spells(Section(groups, [first] + rest))
  {
    var s := Section(groups, [first] + rest);
    forall i | 0 <= i < |groups| ensures GroupText(s.groups[i], s.pieces[i], i == |groups| - 1) {
      if i > 0 {
        assert GroupText(groups[1..][i - 1], rest[i - 1], i - 1 == |groups[1..]| - 1);
      }
    }
  }

  /** No group is empty or holds a colon. */
  predicate PlainGroups(groups: seq<string>) {
    forall i :: 0 <= i < |groups| ==> groups[i] != "" && ':' !in groups[i]
  }

  lemma SpelledPlain(s: Section)
    requires Spells(s)
    ensures PlainGroups(s.groups) && NoneHolds(s.groups, ':')
  {
    forall i | 0 <= i < |s.groups| ensures s.groups[i] != "" && ':' !in s.groups[i] {
      GroupHoldsNoColon(s.groups[i], s.pieces[i], i == |s.groups| - 1);
    }
  }

  /** One side of `::`, read exactly as it is spelled. */
  lemma SectionRead(s: Section)
    requires Spells(s)
    ensures SectionBytes(TextOf(s)) == Some(Flat(s.pieces))
  {
    SpelledPlain(s);
    GroupsRead(s);
    if s.groups != [] {
      assert Joined(s.groups, ':') != "" by {
        assert s.groups[0] != "";
      }
      SplitJoined(s.groups, ':');
    }
  }

  lemma SectionSpelled(text: string) returns (s: Section)
    requires SectionBytes(text).Some?
    ensures Spells(s) && TextOf(s) == text && SectionBytes(text) == Some(Flat(s.pieces))
  {
    if text == "" {
      s := Section([], []);
    } else {
      var pieces := GroupsSpelled(Split(text, ':'));
      JoinedSplit(text, ':');
      s := Section(Split(text, ':'), pieces);
    }
  }

  // -------------------------------------------------------------------------------- double colons

  /** No double colon inside. */
  predicate Clean(s: string) {
    forall i :: 0 <= i < |s| - 1 ==> !(s[i] == ':' && s[i + 1] == ':')
  }

  predicate EndsPlain(s: string) {
    s == "" || s[|s| - 1] != ':'
  }

  lemma {:induction false} CleanWhole(s: string)
    requires Clean(s)
    ensures Halves(s) == [s]
  {
    if s != "" {
      CleanWhole(s[1..]);
      assert [s[0]] + s[1..] == s;
    }
  }

  lemma {:induction false} CleanHead(head: string, tail: string)
    requires Clean(head) && EndsPlain(head)
    ensures Halves(head + "::" + tail) == [head] + Halves(tail)
  {
    var s := head + "::" + tail;
    if head == "" {
      assert s[2..] == tail;
    } else {
      assert s[1..] == head[1..] + "::" + tail;
      assert !(s[0] == ':' && s[1] == ':');
      CleanHead(head[1..], tail);
      assert [head[0]] + head[1..] == head;
    }
  }

  lemma {:induction false} HalvesJoin(s: string)
    ensures |Halves(s)| == 1 ==> Halves(s)[0] == s
    ensures |Halves(s)| == 2 ==> s == Halves(s)[0] + "::" + Halves(s)[1]
  {
    if s != "" {
      if |s| >= 2 && s[0] == ':' && s[1] == ':' {
        var rest := Halves(s[2..]);
        HalvesJoin(s[2..]);
        assert Halves(s) == [""] + rest;
        assert |rest| == 1 ==> s == "" + "::" + rest[0];
      } else {
        var rest := Halves(s[1..]);
        HalvesJoin(s[1..]);
        assert Halves(s) == [[s[0]] + rest[0]] + rest[1..];
        assert s == [s[0]] + s[1..];
        assert |rest| == 2 ==> s == ([s[0]] + rest[0]) + "::" + rest[1];
      }
    }
  }

  lemma {:induction false} JoinedClean(groups: seq<string>)
    requires PlainGroups(groups)
    ensures var s := Joined(groups, ':'); Clean(s) && EndsPlain(s) && (groups != [] ==> s != "" && s[0] != ':')
  {
    if groups != [] {
      var g := groups[0];
      assert g[0] in g && g[|g| - 1] in g;
      if |groups| == 1 {
        forall i | 0 <= i < |g| ensures g[i] != ':' {
          assert g[i] in g;
        }
      } else {
        var rest := Joined(groups[1..], ':');
        JoinedClean(groups[1..]);
        var s := g + [':'] + rest;
        forall i | 0 <= i < |s| - 1 ensures !(s[i] == ':' && s[i + 1] == ':') {
          if i < |g| {
            assert s[i] == g[i] && g[i] in g;
          } else if i == |g| {
            assert s[i + 1] == rest[0];
          } else {
            assert s[i] == rest[i - |g| - 1] && s[i + 1] == rest[i - |g|];
          }
        }
        assert s[|s| - 1] == rest[|rest| - 1];
      }
    }
  }

  // ------------------------------------------------------------------------------------- IPv6

  ghost predicate WholeText(text: string, bytes: seq<Byte>) {
    |bytes| == 16 && exists s :: Spells(s) && TextOf(s) == text && Flat(s.pieces) == bytes
  }

  /** head::tail, where the double colon stands for at least one group of zeros. */
  ghost predicate Gapped(head: Section, tail: Section, text: string, bytes: seq<Byte>) {
    var (a, b) := (Flat(head.pieces), Flat(tail.pieces));
    && Spells(head) && Spells(tail) && text == TextOf(head) + "::" + TextOf(tail)
    && |a| + |b| <= 14 && bytes == a + Zeros(16 - |a| - |b|) + b
  }

  ghost predicate GappedText(text: string, bytes: seq<Byte>) {
    exists head, tail :: Gapped(head, tail, text, bytes)
  }

  lemma WholeRead(s: Section)
    requires Spells(s)
    ensures Halves(TextOf(s)) == [TextOf(s)] && SectionBytes(TextOf(s)) == Some(Flat(s.pieces))
  {
    SpelledPlain(s);
    JoinedClean(s.groups);
    CleanWhole(TextOf(s));
    SectionRead(s);
  }

  lemma GappedRead(head: Section, tail: Section)
    requires Spells(head) && Spells(tail)
    ensures Halves(TextOf(head) + "::" + TextOf(tail)) == [TextOf(head), TextOf(tail)]
    ensures SectionBytes(TextOf(head)) == Some(Flat(head.pieces)) && SectionBytes(TextOf(tail)) == Some(Flat(tail.pieces))
  {
    SpelledPlain(head);
    JoinedClean(head.groups);
    CleanHead(TextOf(head), TextOf(tail));
    WholeRead(tail);
    SectionRead(head);
  }

  lemma CoreSpelled(text: string, bytes: seq<Byte>)
    requires Ipv6Bytes(text) == Some(bytes)
    ensures WholeText(Unscoped(text), bytes) || GappedText(Unscoped(text), bytes)
  {
    hide Spells, TextOf, Flat, SectionBytes, Halves, Unscoped, Zeros, WholeText, GappedText;
    var (core, halves) := (Unscoped(text), Halves(Unscoped(text)));
    HalvesJoin(core);
    var head := SectionSpelled(halves[0]);
    if |halves| == 2 {
      var tail := SectionSpelled(halves[1]);
      GappedBy(head, tail, core, bytes);
    } else {
      WholeBy(head, core, bytes);
    }
  }

  lemma GappedBy(head: Section, tail: Section, text: string, bytes: seq<Byte>)
    requires Gapped(head, tail, text, bytes)
    ensures GappedText(text, bytes)
  {
    hide Gapped;
  }

  lemma WholeBy(s: Section, text: string, bytes: seq<Byte>)
    requires Spells(s) && TextOf(s) == text && Flat(s.pieces) == bytes && |bytes| == 16
    ensures WholeText(text, bytes)
  {
    hide Spells, TextOf, Flat;
  }

  lemma CoreRead(text: string, bytes: seq<Byte>)
    requires WholeText(Unscoped(text), bytes) || GappedText(Unscoped(text), bytes)
    ensures Ipv6Bytes(text) == Some(bytes)
  {
    if WholeText(Unscoped(text), bytes) {
      var s :| Spells(s) && TextOf(s) == Unscoped(text) && Flat(s.pieces) == bytes;
      WholeRead(s);
    } else {
      var head, tail :| Gapped(head, tail, Unscoped(text), bytes);
      GappedRead(head, tail);
    }
  }

  /** parseIpv6 answers `bytes` exactly when the text, up to a scope id, is one of its forms. */
  lemma Ipv6Inverse(text: string, bytes: seq<Byte>)
    ensures Ipv6Bytes(text) == Some(bytes) <==> WholeText(Unscoped(text), bytes) || GappedText(Unscoped(text), bytes)
  {
    if Ipv6Bytes(text) == Some(bytes) {
      CoreSpelled(text, bytes);
    }
    if WholeText(Unscoped(text), bytes) || GappedText(Unscoped(text), bytes) {
      CoreRead(text, bytes);
    }
  }

  // ------------------------------------------------------------------------------- RFC 4291 forms

  /** A number of a dotted quad is written with a zero in front. */
  predicate PaddedQuad(text: string) {
    exists group <- Split(text, ':') :: '.' in group && Padded(group)
  }

  predicate Padded(group: string) {
    exists part <- Split(group, '.') :: |part| > 1 && part[0] == '0'
  }

  /**
   The forms of section 2.2 of RFC 4291: a dotted quad stands for the last four bytes or nowhere, its
   numbers are not padded, and no scope id follows.
   */
  ghost predicate RfcText(text: string, bytes: seq<Byte>) {
    && (|| WholeText(text, bytes)
        || exists head, tail :: Gapped(head, tail, text, bytes) && forall i :: 0 <= i < |head.groups| ==> '.' !in head.groups[i])
    && !PaddedQuad(text) && '%' !in text
  }

  predicate QuadBeforeGap(text: string) {
    |Halves(text)| == 2 && '.' in Halves(text)[0]
  }

  lemma {:induction false} DotInJoined(parts: seq<string>, i: nat)
    requires i < |parts|
    ensures '.' in parts[i] ==> '.' in Joined(parts, ':')
  {
    if |parts| > 1 && i > 0 {
      DotInJoined(parts[1..], i - 1);
    }
  }

  lemma DotInHead(head: Section, tail: Section)
    requires Spells(head) && Spells(tail)
    ensures QuadBeforeGap(TextOf(head) + "::" + TextOf(tail)) <==> exists i :: 0 <= i < |head.groups| && '.' in head.groups[i]
  {
    GappedRead(head, tail);
    forall i | 0 <= i < |head.groups| && '.' in head.groups[i] ensures '.' in TextOf(head) {
      DotInJoined(head.groups, i);
    }
    if forall i :: 0 <= i < |head.groups| ==> '.' !in head.groups[i] {
      JoinedHoldsNo(head.groups, ':', '.');
    }
  }

  /**
   Every form RFC 4291 allows is read back to its bytes, and nothing else is read but a text with a
   dotted quad in front of its double colon, with a padded number in a quad, or with a scope id.
   */
  lemma RfcFormsRead(text: string, bytes: seq<Byte>)
    ensures RfcText(text, bytes) <==> Ipv6Bytes(text) == Some(bytes) && !QuadBeforeGap(text) && !PaddedQuad(text) && '%' !in text
  {
    hide Ipv6Bytes, PaddedQuad, Gapped, QuadBeforeGap, Spells, TextOf, Flat;
    if '%' !in text {
      SplitWhole(text, '%');
      Ipv6Inverse(text, bytes);
      if WholeText(text, bytes) {
        WholeHasNoGap(text, bytes);
      }
      forall head, tail | Gapped(head, tail, text, bytes)
        ensures QuadBeforeGap(text) <==> exists i :: 0 <= i < |head.groups| && '.' in head.groups[i]
      {
        GappedSections(head, tail, text, bytes);
        DotInHead(head, tail);
      }
    }
  }

  lemma WholeHasNoGap(text: string, bytes: seq<Byte>)
    requires WholeText(text, bytes)
    ensures !QuadBeforeGap(text)
  {
    var s :| Spells(s) && TextOf(s) == text && Flat(s.pieces) == bytes;
    WholeRead(s);
  }

  lemma GappedSections(head: Section, tail: Section, text: string, bytes: seq<Byte>)
    requires Gapped(head, tail, text, bytes)
    ensures Spells(head) && Spells(tail) && text == TextOf(head) + "::" + TextOf(tail)
  {
  }

  /** Whatever scope id follows, the address in front of it is read. */
  lemma ScopeIsIgnored(text: string, scope: string)
    requires '%' !in text
    ensures Ipv6Bytes(text + "%" + scope) == Ipv6Bytes(text)
  {
    hide Halves, SectionBytes;
    SplitWhole(text, '%');
    SplitPrefix(text, scope, '%');
    assert text + "%" + scope == text + ['%'] + scope;
  }

  /** Such a text exists: d.d.d.d:: is read as those four bytes and twelve zeros. */
  lemma QuadBeforeGapAccepted(quad: string, bytes: seq<Byte>)
    requires QuadText(quad, bytes) && Unscoped(quad + "::") == quad + "::"
    ensures Ipv6Bytes(quad + "::") == Some(bytes + Zeros(12)) && !RfcText(quad + "::", bytes + Zeros(12))
  {
    var (head, tail) := (Section([quad], [bytes]), Section([], []));
    assert Spells(head) && Spells(tail);
    assert Flat(head.pieces) == bytes + Flat([]) == bytes && Flat(tail.pieces) == [];
    assert TextOf(head) + "::" + TextOf(tail) == quad + "::";
    assert bytes + Zeros(12) + [] == bytes + Zeros(12);
    assert Gapped(head, tail, quad + "::", bytes + Zeros(12));
    Ipv6Inverse(quad + "::", bytes + Zeros(12));
    QuadHoldsDot(quad, bytes);
    DotInHead(head, tail);
    assert '.' in head.groups[0];
    RfcFormsRead(quad + "::", bytes + Zeros(12));
  }

  // ----------------------------------------------------------------------------------- mapped

  /** ::ffff:a.b.c.d as 16 bytes (section 2.5.5.2 of RFC 4291). */
  function Mapped(quad: seq<Byte>): seq<Byte> {
    Zeros(10) + [0xff, 0xff] + quad
  }

  /** An IPv6 text always holds a colon. */
  lemma ColonInside(text: string, bytes: seq<Byte>)
    requires Ipv6Bytes(text) == Some(bytes)
    ensures ':' in Unscoped(text)
  {
    CoreSpelled(text, bytes);
    if GappedText(Unscoped(text), bytes) {
      var head, tail :| Gapped(head, tail, Unscoped(text), bytes);
      assert Unscoped(text)[|TextOf(head)|] == ':';
    } else {
      var s :| Spells(s) && TextOf(s) == Unscoped(text) && Flat(s.pieces) == bytes;
      SectionHasColon(s);
    }
  }

  lemma ShortSection(s: Section)
    requires Spells(s) && |s.groups| <= 1
    ensures |Flat(s.pieces)| <= 4
  {
    if |s.groups| == 1 {
      GroupHoldsNoColon(s.groups[0], s.pieces[0], true);
      assert Flat(s.pieces) == s.pieces[0] + Flat(s.pieces[1..]);
    }
  }

  lemma SectionHasColon(s: Section)
    requires Spells(s) && |Flat(s.pieces)| == 16
    ensures ':' in TextOf(s)
  {
    if |s.groups| <= 1 {
      ShortSection(s);
      assert false;
    } else {
      assert TextOf(s) == s.groups[0] + [':'] + Joined(s.groups[1..], ':');
      assert TextOf(s)[|s.groups[0]|] == ':';
    }
  }

  lemma {:induction false} SplitFirstIn(s: string, c: char, d: char)
    requires d in Split(s, c)[0]
    ensures d in s
  {
    if s != "" && s[0] != c {
      if d != s[0] {
        assert d in Split(s[1..], c)[0];
        SplitFirstIn(s[1..], c, d);
      }
    }
  }

  /**
   A mapped address in any of its IPv6 forms is the same address as its dotted quad, so every rule
   treats the two alike; and no address ever stays mapped.
   */
  lemma MappedIsIpv4(six: string, four: string, quad: seq<Byte>)
    requires |quad| == 4 && Ipv6Bytes(six) == Some(Mapped(quad)) && QuadText(four, quad)
    ensures BytesOf(six) == Some(quad) && BytesOf(four) == Some(quad)
  {
    hide Ipv6Bytes, Ipv4Bytes;
    ColonInside(six, Mapped(quad));
    SplitFirstIn(six, '%', ':');
    assert IsMapped(Mapped(quad)) && Mapped(quad)[12..] == quad;
    QuadHoldsDot(four, quad);
    Ipv4Inverse(four, quad);
  }

  lemma GroupStep(s: string, c: char)
    requires IsHex(c) && forall i :: 0 <= i < |s| ==> IsHex(s[i])
    ensures GroupOf(s + [c]) == 16 * GroupOf(s) + HexOf(c)
  {
    assert (s + [c])[..|s|] == s;
  }

  lemma NoGroup()
    ensures GroupOf("") == 0 && HexOf('f') == 15
  {
  }

  lemma MappedPrefix()
    ensures GroupText("ffff", [0xff, 0xff], false)
  {
    hide GroupOf, HexOf;
    GroupStep("", 'f');
    GroupStep("f", 'f');
    GroupStep("ff", 'f');
    GroupStep("fff", 'f');
    assert "" + ['f'] == "f" && "f" + ['f'] == "ff" && "ff" + ['f'] == "fff" && "fff" + ['f'] == "ffff";
    NoGroup();
    assert IsGroup("ffff");
  }

  lemma MappedTail(four: string, quad: seq<Byte>)
    requires QuadText(four, quad)
    ensures var tail := Section(["ffff", four], [[0xff, 0xff], quad]);
            Spells(tail) && TextOf(tail) == "ffff" + ([':'] + four) && Flat(tail.pieces) == [0xff, 0xff] + quad
  {
    hide GroupText, QuadText;
    var tail := Section(["ffff", four], [[0xff, 0xff], quad]);
    MappedPrefix();
    QuadIsGroup(four, quad);
    assert tail.groups[1..] == [four] && tail.pieces[1..] == [quad] && tail.pieces[1..][1..] == [];
    assert Flat([quad]) == quad + Flat([]) == quad;
    assert Joined([four], ':') == four;
  }

  lemma QuadIsGroup(four: string, quad: seq<Byte>)
    requires QuadText(four, quad)
    ensures GroupText(four, quad, true)
  {
  }

  lemma MappedColons(four: string)
    ensures "" + "::" + ("ffff" + ([':'] + four)) == "::ffff:" + four
  {
  }

  /** The mapped text of every dotted quad is such a form. */
  lemma MappedTextRead(four: string, quad: seq<Byte>)
    requires QuadText(four, quad) && Unscoped("::ffff:" + four) == "::ffff:" + four
    ensures Ipv6Bytes("::ffff:" + four) == Some(Mapped(quad)) && |quad| == 4
  {
    hide Spells, QuadText, Ipv6Bytes, Unscoped, Split, Joined;
    var (head, tail) := (Section([], []), Section(["ffff", four], [[0xff, 0xff], quad]));
    QuadHoldsFour(four, quad);
    EmptySection();
    MappedTail(four, quad);
    MappedColons(four);
    assert [] + Zeros(10) + ([0xff, 0xff] + quad) == Mapped(quad);
    assert Gapped(head, tail, "::ffff:" + four, Mapped(quad));
    GappedBy(head, tail, "::ffff:" + four, Mapped(quad));
    Ipv6Inverse("::ffff:" + four, Mapped(quad));
  }

  lemma EmptySection()
    ensures Spells(Section([], [])) && TextOf(Section([], [])) == "" && Flat(Section([], []).pieces) == []
  {
  }

  lemma QuadHoldsFour(text: string, bytes: seq<Byte>)
    requires QuadText(text, bytes)
    ensures |bytes| == 4
  {
  }

  /** What is read is four bytes, or sixteen that are not a mapped address. */
  lemma TwoFamilies(value: string)
    requires AddressBytes(value).Some?
    ensures var b := AddressBytes(value).value; |b| == 4 || (|b| == 16 && !IsMapped(b))
  {
  }
}
