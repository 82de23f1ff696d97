/** packages/dashboard/lib/client-address.ts: reading an IP address, 4 bytes or 16. */
module ClientAddress {
  import opened Options
  import opened Texts

  type Byte = b: int | 0 <= b < 256

  predicate IsHex(c: char) {
    IsDigit(c) || 'a' <= c <= 'f' || 'A' <= c <= 'F'
  }

  predicate IsNumber(s: string, longest: nat) {
    1 <= |s| <= longest && forall i :: 0 <= i < |s| ==> IsDigit(s[i])
  }

  predicate IsGroup(s: string) {
    1 <= |s| <= 4 && forall i :: 0 <= i < |s| ==> IsHex(s[i])
  }

  function HexOf(c: char): (d: nat)
    requires IsHex(c)
    ensures d < 16
  {
    if IsDigit(c) then c as int - '0' as int
    else if 'a' <= c <= 'f' then c as int - 'a' as int + 10
    else c as int - 'A' as int + 10
  }

  /** parseInt(group, 16). */
  function GroupOf(s: string): nat
    requires forall i :: 0 <= i < |s| ==> IsHex(s[i])
  {
    if s == "" then 0 else 16 * GroupOf(s[..|s| - 1]) + HexOf(s[|s| - 1])
  }

  function Power16(n: nat): nat {
    if n == 0 then 1 else 16 * Power16(n - 1)
  }

  lemma {:induction false} GroupFits(s: string)
    requires forall i :: 0 <= i < |s| ==> IsHex(s[i])
    ensures GroupOf(s) < Power16(|s|)
  {
    if s != "" {
      GroupFits(s[..|s| - 1]);
    }
  }

  lemma GroupIsTwoBytes(s: string)
    requires IsGroup(s)
    ensures GroupOf(s) < 65536
  {
    GroupFits(s);
    assert Power16(1) == 16 && Power16(2) == 256 && Power16(3) == 4096 && Power16(4) == 65536;
  }

  // -------------------------------------------------------------------------------- what texts say

  /** Four decimal numbers up to 255, leading zeros and all. */
  predicate IsQuad(groups: seq<string>) {
    |groups| == 4 && forall i :: 0 <= i < 4 ==> IsNumber(groups[i], 3) && NumberOf(groups[i]) < 256
  }

  function QuadBytes(groups: seq<string>): seq<Byte>
    requires IsQuad(groups)
  {
    seq(4, i requires 0 <= i < 4 => NumberOf(groups[i]))
  }

  function Ipv4Bytes(text: string): Option<seq<Byte>> {
    var groups := Split(text, '.');
    if IsQuad(groups) then Some(QuadBytes(groups)) else None
  }

  /** The bytes of a group, which only in last place may be a dotted quad. */
  function GroupBytes(group: string, last: bool): Option<seq<Byte>> {
    if '.' in group then (if last then Ipv4Bytes(group) else None)
    else if !IsGroup(group) then None
    else
      GroupIsTwoBytes(group);
      Some([GroupOf(group) / 256, GroupOf(group) % 256])
  }

  function GroupsBytes(groups: seq<string>): Option<seq<Byte>> {
    if groups == [] then Some([])
    else
      var (first, rest) := (GroupBytes(groups[0], |groups| == 1), GroupsBytes(groups[1..]));
      if first.None? || rest.None? then None else Some(first.value + rest.value)
  }

  function SectionBytes(section: string): Option<seq<Byte>> {
    if section == "" then Some([]) else GroupsBytes(Split(section, ':'))
  }

  /** split('::'). */
  function Halves(s: string): (parts: seq<string>)
    ensures parts != []
  {
    if s == "" then [""]
    else if |s| >= 2 && s[0] == ':' && s[1] == ':' then [""] + Halves(s[2..])
    else
      var rest := Halves(s[1..]);
      [[s[0]] + rest[0]] + rest[1..]
  }

  function Zeros(n: nat): seq<Byte> {
    seq(n, i => 0)
  }

  function Unscoped(text: string): string {
    Split(text, '%')[0]
  }

  function Ipv6Bytes(text: string): Option<seq<Byte>> {
    var halves := Halves(Unscoped(text));
    if |halves| > 2 then None
    else
      var head := SectionBytes(halves[0]);
      if head.None? then None
      else if |halves| == 1 then (if |head.value| == 16 then head else None)
      else
        var tail := SectionBytes(halves[1]);
        if tail.None? || 16 - |head.value| - |tail.value| < 2 then None
        else Some(head.value + Zeros(16 - |head.value| - |tail.value|) + tail.value)
  }

  predicate IsMapped(bytes: seq<Byte>) {
    |bytes| == 16 && bytes[10] == 0xff && bytes[11] == 0xff && forall i :: 0 <= i < 10 ==> bytes[i] == 0
  }

  function Folded(bytes: seq<Byte>): seq<Byte> {
    if IsMapped(bytes) then bytes[12..] else bytes
  }

  /** d.d.d.d:port, as some proxies write the peer. */
  predicate HasPort(text: string) {
    var parts := Split(text, ':');
    && |parts| == 2 && IsNumber(parts[1], 5)
    && var groups := Split(parts[0], '.'); |groups| == 4 && forall i :: 0 <= i < 4 ==> IsNumber(groups[i], 3)
  }

  function FirstAt(s: string, c: char): (at: Option<nat>)
    ensures at.Some? ==> at.value < |s| && s[at.value] == c && c !in s[..at.value]
    ensures at.None? ==> c !in s
  {
    if s == "" then None
    else if s[0] == c then Some(0)
    else
      var at := FirstAt(s[1..], c);
      if at.None? then None else Some(at.value + 1)
  }

  function LastAt(s: string, c: char): (at: Option<nat>)
    ensures at.Some? ==> at.value < |s| && s[at.value] == c && c !in s[at.value + 1..]
    ensures at.None? ==> c !in s
  {
    if s == "" then None
    else if s[|s| - 1] == c then Some(|s| - 1)
    else LastAt(s[..|s| - 1], c)
  }

  /** The address inside brackets or before a port; None for an unclosed bracket. */
  function Unwrapped(value: string): Option<string> {
    var text := Trimmed(value);
    if text != "" && text[0] == '[' then
      var close := FirstAt(text, ']');
      if close.None? then None else Some(text[1..close.value])
    else if HasPort(text) then Some(Split(text, ':')[0])
    else Some(text)
  }

  function BytesOf(text: string): Option<seq<Byte>> {
    var bytes := if ':' in text then Ipv6Bytes(text) else Ipv4Bytes(text);
    if text == "" || bytes.None? then None else Some(Folded(bytes.value))
  }

  /** parseIpAddress. */
  function AddressBytes(value: string): Option<seq<Byte>> {
    var text := Unwrapped(value);
    if text.None? then None else BytesOf(text.value)
  }

  // ----------------------------------------------------------------------------------- the parser

  /** parseIpv4. */
  method ParseIpv4(text: string) returns (r: Option<seq<Byte>>)
    ensures r == Ipv4Bytes(text)
  {
    var groups := Split(text, '.');
    if |groups| != 4 {
      return None;
    }
    var bytes := new Byte[4];
    var index := 0;
    while index < 4
      invariant 0 <= index <= 4
      invariant forall i :: 0 <= i < index ==>
                  IsNumber(groups[i], 3) && NumberOf(groups[i]) < 256 && bytes[i] == NumberOf(groups[i])
    {
      if !IsNumber(groups[index], 3) {
        return None;
      }
      var value := NumberOf(groups[index]);
      if value > 255 {
        return None;
      }
      bytes[index] := value;
      index := index + 1;
    }
    assert bytes[..] == QuadBytes(groups);
    r := Some(bytes[..]);
  }

  lemma GroupsGrow(groups: seq<string>, i: nat)
    requires i < |groups|
    ensures GroupsFrom(groups, i) ==
            (var (first, rest) := (GroupBytes(groups[i], i == |groups| - 1), GroupsFrom(groups, i + 1));
             if first.None? || rest.None? then None else Some(first.value + rest.value))
  {
    var t := groups[i..];
    assert t[1..] == groups[i + 1..] && t[0] == groups[i] && (|t| == 1 <==> i == |groups| - 1);
    if |t| == 1 {
      assert GroupBytes(t[0], |t| == 1) == GroupBytes(groups[i], true);
    } else {
      assert GroupBytes(t[0], |t| == 1) == GroupBytes(groups[i], false);
    }
  }

  function GroupsFrom(groups: seq<string>, i: nat): Option<seq<Byte>>
    requires i <= |groups|
  {
    GroupsBytes(groups[i..])
  }

  /** What is left to do once the groups before `i` have given `bytes`. */
  function Continued(bytes: seq<Byte>, rest: Option<seq<Byte>>): Option<seq<Byte>> {
    if rest.None? then None else Some(bytes + rest.value)
  }

  lemma ContinuedBegins(rest: Option<seq<Byte>>)
    ensures Continued([], rest) == rest
  {
    if rest.Some? {
      assert [] + rest.value == rest.value;
    }
  }

  lemma ContinuedMore(bytes: seq<Byte>, first: seq<Byte>, rest: seq<Byte>)
    ensures Continued(bytes, Some(first + rest)) == Continued(bytes + first, Some(rest))
  {
    assert bytes + (first + rest) == (bytes + first) + rest;
  }

  /** ipv6SectionBytes. */
  method Ipv6SectionBytes(section: string) returns (r: Option<seq<Byte>>)
    ensures r == SectionBytes(section)
  {
    if section == "" {
      return Some([]);
    }
    var groups := Split(section, ':');
    var bytes: seq<Byte> := [];
    var index := 0;
    assert groups[0..] == groups;
    ContinuedBegins(GroupsBytes(groups));
    while index < |groups|
      invariant 0 <= index <= |groups|
      invariant SectionBytes(section) == Continued(bytes, GroupsFrom(groups, index))
    {
      var group := groups[index];
      GroupsGrow(groups, index);
      ghost var first := GroupBytes(group, index == |groups| - 1);
      ghost var rest := GroupsFrom(groups, index + 1);
      if first.Some? && rest.Some? {
        ContinuedMore(bytes, first.value, rest.value);
      }
      if '.' in group {
        var embedded: Option<seq<Byte>> := None;
        if index == |groups| - 1 {
          embedded := ParseIpv4(group);
        }
        if embedded.None? {
          return None;
        }
        bytes := bytes + embedded.value;
      } else {
        if !IsGroup(group) {
          return None;
        }
        GroupIsTwoBytes(group);
        var value := GroupOf(group);
        bytes := bytes + [value / 256, value % 256];
      }
      index := index + 1;
    }
    assert groups[index..] == [] && bytes + [] == bytes;
    r := Some(bytes);
  }

  /** parseIpv6. */
  method ParseIpv6(text: string) returns (r: Option<seq<Byte>>)
    ensures r == Ipv6Bytes(text)
  {
    var halves := Halves(Unscoped(text));
    if |halves| > 2 {
      return None;
    }
    var head := Ipv6SectionBytes(halves[0]);
    if head.None? {
      return None;
    }
    if |halves| == 1 {
      return if |head.value| == 16 then head else None;
    }
    var tail := Ipv6SectionBytes(halves[1]);
    if tail.None? {
      return None;
    }
    var gap := 16 - |head.value| - |tail.value|;
    if gap < 2 {
      return None;
    }
    r := Some(head.value + Zeros(gap) + tail.value);
  }

  /** parseIpAddress. */
  method ParseIpAddress(value: string) returns (r: Option<seq<Byte>>)
    ensures r == AddressBytes(value)
  {
    var text := Unwrapped(value);
    if text.None? || text.value == "" {
      return None;
    }
    var bytes: Option<seq<Byte>>;
    if ':' in text.value {
      bytes := ParseIpv6(text.value);
    } else {
      bytes := ParseIpv4(text.value);
    }
    r := if bytes.Some? && IsMapped(bytes.value) then Some(bytes.value[12..]) else bytes;
  }
}
