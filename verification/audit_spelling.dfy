/**
 The fields of a record as texts: what the schema accepts, said of whole strings and numbers instead of
 patterns.
 */
module AuditSpelling {
  import opened Options
  import opened Utf16
  import Texts
  import opened CanonicalJson
  import opened AuditRecords
  import opened AuditContract
  import RecordBuilder

  const LARGEST := 9007199254740991

  // ------------------------------------------------------------------------------------- counts

  function Power10(n: nat): (p: nat)
    ensures p >= 1
  {
    if n == 0 then 1 else 10 * Power10(n - 1)
  }

  predicate Digits(t: JsString) {
    forall i :: 0 <= i < |t| ==> IsDigit(t[i])
  }

  /** The number a text of digits denotes. */
  function Denoted(t: JsString): nat
    requires Digits(t)
  {
    if t == [] then 0 else 10 * Denoted(t[..|t| - 1]) + (t[|t| - 1] - 48)
  }

  lemma {:induction false} DenotedBelow(t: JsString)
    requires Digits(t)
    ensures Denoted(t) < Power10(|t|)
  {
    if t != [] {
      DenotedBelow(t[..|t| - 1]);
    }
  }

  lemma {:induction false} DenotedAtLeast(t: JsString)
    requires Digits(t) && t != [] && t[0] != 48
    ensures Denoted(t) >= Power10(|t| - 1)
  {
    if |t| > 1 {
      DenotedAtLeast(t[..|t| - 1]);
    } else {
      assert t[..0] == [];
    }
  }

  /** Of two texts of one length the last units matter only where the rest agrees. */
  lemma {:induction false} LessAtTheEnd(a: JsString, b: JsString, x: CodeUnit, y: CodeUnit)
    requires |a| == |b|
    ensures Less(a + [x], b + [y]) <==> Less(a, b) || (a == b && x < y)
  {
    var (p, q) := (a + [x], b + [y]);
    if a == [] {
      assert p[1..] == [] && q[1..] == [];
    } else {
      LessAtTheEnd(a[1..], b[1..], x, y);
      assert p[1..] == a[1..] + [x] && q[1..] == b[1..] + [y];
      assert a == b <==> a[0] == b[0] && a[1..] == b[1..];
    }
  }

  /** Among texts of one length the order of the texts is that of the numbers. */
  lemma {:induction false} LessIsSmaller(a: JsString, b: JsString)
    requires Digits(a) && Digits(b) && |a| == |b|
    ensures Less(a, b) <==> Denoted(a) < Denoted(b)
    ensures a == b <==> Denoted(a) == Denoted(b)
  {
    hide Less;
    if a == [] {
      NotLessItself(a);
    } else {
      var (c, d) := (a[..|a| - 1], b[..|b| - 1]);
      LessIsSmaller(c, d);
      LessAtTheEnd(c, d, a[|a| - 1], b[|b| - 1]);
      assert a == c + [a[|a| - 1]] && b == d + [b[|b| - 1]];
    }
  }

  lemma NotLessItself(a: JsString)
    requires a == []
    ensures !Less(a, a)
  {
  }

  /** The decimal text of a number denotes it, and does not begin with a zero. */
  lemma {:induction false} DecimalDenotes(n: nat)
    ensures Digits(Ascii(Texts.Decimal(n))) && Denoted(Ascii(Texts.Decimal(n))) == n
    ensures n >= 1 ==> Ascii(Texts.Decimal(n))[0] != 48
  {
    var t := Ascii(Texts.Decimal(n));
    OneDecimalDigit(n);
    if n >= 10 {
      DecimalDenotes(n / 10);
      assert t[..|t| - 1] == Ascii(Texts.Decimal(n / 10));
      assert forall i :: 0 <= i < |t| - 1 ==> t[i] == t[..|t| - 1][i];
    } else {
      assert t[..|t| - 1] == [];
    }
  }

  lemma OneDecimalDigit(n: nat)
    ensures var t := Ascii(Texts.Decimal(n)); t[|t| - 1] == 48 + n % 10 && |t| == |Texts.Decimal(n)|
    ensures n >= 10 ==> Texts.Decimal(n)[..|Texts.Decimal(n)| - 1] == Texts.Decimal(n / 10)
    ensures n < 10 ==> |Texts.Decimal(n)| == 1
  {
  }

  /** A text of digits without a leading zero is the decimal text of what it denotes. */
  lemma {:induction false} DenotedSpelled(t: JsString)
    requires Digits(t) && t != [] && t[0] != 48
    ensures Denoted(t) >= 1 && Ascii(Texts.Decimal(Denoted(t))) == t
    decreases |t|
  {
    var (init, n) := (t[..|t| - 1], Denoted(t));
    OneDecimalDigit(n);
    if |t| > 1 {
      DenotedSpelled(init);
      assert n / 10 == Denoted(init) && n % 10 == t[|t| - 1] - 48;
      var u := Ascii(Texts.Decimal(n));
      assert u[..|u| - 1] == Ascii(Texts.Decimal(n / 10));
      assert u == u[..|u| - 1] + [u[|u| - 1]] && t == init + [t[|t| - 1]];
    } else {
      assert init == [];
    }
  }

  // ----------------------------------------------------------------------------------- lengths

  lemma {:induction false} MorePower(m: nat, n: nat)
    requires m <= n
    ensures Power10(m) <= Power10(n)
  {
    if m < n {
      MorePower(m, n - 1);
    }
  }

  lemma LargestIs()
    ensures |MAX_SAFE_INTEGER| == 16 && Digits(MAX_SAFE_INTEGER) && Denoted(MAX_SAFE_INTEGER) == LARGEST
  {
    hide Denoted;
    LargestText();
    DecimalDenotes(LARGEST);
  }

  lemma OneMore(m: nat, d: nat, s: string)
    requires m >= 1 && d < 10 && Texts.Decimal(m) == s
    ensures Texts.Decimal(10 * m + d) == s + [('0' as int + d) as char]
  {
    var n := 10 * m + d;
    assert n / 10 == m && n % 10 == d;
  }

  lemma LargestText()
    ensures Texts.Decimal(9007199254740991) == "9007199254740991"
  {
    assert Texts.Decimal(9) == "9";
    hide Texts.Decimal;
    OneMore(9, 0, "9");
    OneMore(90, 0, "90");
    OneMore(900, 7, "900");
    OneMore(9007, 1, "9007");
    OneMore(90071, 9, "90071");
    OneMore(900719, 9, "900719");
    OneMore(9007199, 2, "9007199");
    OneMore(90071992, 5, "90071992");
    OneMore(900719925, 4, "900719925");
    OneMore(9007199254, 7, "9007199254");
    OneMore(90071992547, 4, "90071992547");
    OneMore(900719925474, 0, "900719925474");
    OneMore(9007199254740, 9, "9007199254740");
    OneMore(90071992547409, 9, "90071992547409");
    OneMore(900719925474099, 1, "900719925474099");
  }

  lemma LargestBetween()
    ensures Power10(15) <= LARGEST < Power10(16)
  {
    assert Power10(16) == 10000000000000000;
    assert Power10(15) == 1000000000000000;
  }

  lemma {:induction false} StrictlyMore(m: nat, n: nat)
    requires m < n
    ensures Power10(m) < Power10(n)
  {
    if m < n - 1 {
      StrictlyMore(m, n - 1);
    }
  }

  ghost predicate DecimalText(t: JsString) {
    exists n :: 1 <= n <= LARGEST && t == Ascii(Texts.Decimal(n))
  }

  /** A policy version is the decimal text of a whole number from 1 to 2^53 - 1. */
  lemma CountsAreSpelled(t: JsString)
    ensures IsCount(t) <==> DecimalText(t)
  {
    hide Power10, Denoted, Less, Texts.Decimal, MAX_SAFE_INTEGER;
    LargestIs();
    LargestBetween();
    if t != [] && t[0] != 48 && Digits(t) {
      DenotedSpelled(t);
      DenotedBelow(t);
      LengthDecides(t);
      if |t| == 16 {
        LessIsSmaller(MAX_SAFE_INTEGER, t);
      }
    }
    forall n | 1 <= n <= LARGEST && t == Ascii(Texts.Decimal(n)) ensures t != [] && t[0] != 48 && Digits(t) && Denoted(t) == n {
      DecimalDenotes(n);
    }
  }

  lemma LengthDecides(t: JsString)
    requires Digits(t) && t != [] && t[0] != 48
    ensures |t| < 16 ==> Denoted(t) <= LARGEST
    ensures |t| > 16 ==> Denoted(t) > LARGEST
  {
    hide Power10, Denoted;
    LargestBetween();
    DenotedBelow(t);
    DenotedAtLeast(t);
    if |t| < 16 {
      MorePower(|t|, 15);
    } else if |t| > 16 {
      MorePower(16, |t| - 1);
    }
  }

  // ------------------------------------------------------------------------------------ fields

  /** `sha256:` and sixty-four lower-case hexadecimal digits. */
  ghost predicate HashText(v: Value) {
    exists digits: string :: |digits| == 64 && (forall i :: 0 <= i < 64 ==> digits[i] in "0123456789abcdef")
                             && v == Str(Ascii("sha256:" + digits))
  }

  /** The prefix and something behind it. */
  ghost predicate Prefixed(v: Value, prefix: string) {
    exists rest: JsString :: rest != [] && v == Str(Ascii(prefix) + rest)
  }

  ghost predicate SomeText(v: Value) {
    exists s: JsString :: s != [] && v == Str(s)
  }

  /** A text the environment's pattern for the field accepts. */
  ghost predicate Fits(p: Patterns, f: Field, v: Value) {
    exists s: JsString :: v == Str(s) && p.spelled(f, s)
  }

  ghost predicate CountText(v: Value) {
    v.Num? && v.n.Finite? && DecimalText(v.n.text)
  }

  /** What stands under a key. */
  function Under(v: Value, key: string): Value {
    if v.Obj? then Lookup(v.members, Ascii(key)) else Undefined
  }

  /** What the schema accepts under each of its keys. */
  ghost predicate Spelled(p: Patterns, f: Field, v: Value) {
    match f
    case Id => Prefixed(v, "aud_")
    case AppId => Prefixed(v, "app_")
    case ConversationIdHash => HashText(v)
    case UserHash => v == Null || HashText(v)
    case TurnId => SomeText(v)
    case PolicyVersion => CountText(v)
    case PolicyHash => HashText(v)
    case Decided => v == Str(Ascii("serve")) || v == Str(Ascii("suppress"))
    case Creative =>
      v == Null || (v.Obj? && Prefixed(Under(v, "id"), "cr_") && SomeText(Under(v, "advertiser"))
                    && SomeText(Under(v, "advertiser_domain")) && HashText(Under(v, "content_hash")))
    case DisclosureBlock =>
      v.Obj? && SomeText(Under(v, "label")) && Under(v, "position") == Str(Ascii("after_answer"))
      && Under(v, "style") == Str(Ascii("separate_block"))
    case ModelOutputHash => v == Null || HashText(v)
    case SeparationAttestation => v == Bool(true) || v == Bool(false)
    case SupersedesHash => v == Null || HashText(v)
    case PrevHash => HashText(v) || v == Str(Ascii("genesis"))
    case RecordHash => HashText(v)
    case Ts => Fits(p, Ts, v)
    case Signature => Fits(p, Signature, v)
    case KeyId => Fits(p, KeyId, v)
    case Reason => v == Null || Fits(p, Reason, v)
    case AttestedAt => v == Null || Fits(p, AttestedAt, v)
    case _ => p.nested(f, v).Some?
  }

  lemma HexText(digits: JsString) returns (text: string)
    requires forall i :: 0 <= i < |digits| ==> IsHexDigit(digits[i])
    ensures |text| == |digits| && Ascii(text) == digits
    ensures forall i :: 0 <= i < |text| ==> text[i] in "0123456789abcdef"
  {
    text := seq(|digits|, i requires 0 <= i < |digits| => HexChar(digits[i]));
  }

  function HexChar(c: CodeUnit): (x: char)
    requires IsHexDigit(c)
    ensures x as int == c && x in "0123456789abcdef"
  {
    if c < 58 then "0123456789"[c - 48] else "abcdef"[c - 97]
  }

  lemma AsciiSplits(a: string, b: string)
    ensures Ascii(a + b) == Ascii(a) + Ascii(b)
  {
  }

  lemma HashPrefixIs()
    ensures Ascii("sha256:") == HASH_PREFIX
  {
  }

  lemma HashHasDigits(v: Value)
    requires IsHash(v)
    ensures HashText(v)
  {
    HashPrefixIs();
    hide Ascii;
    var digits := HexText(v.s[7..]);
    AsciiSplits("sha256:", digits);
    assert v.s == v.s[..7] + v.s[7..];
  }

  lemma DigitsMakeHash(digits: string)
    requires |digits| == 64 && forall i :: 0 <= i < 64 ==> digits[i] in "0123456789abcdef"
    ensures IsSha256(Ascii("sha256:" + digits))
  {
    HashPrefixIs();
    AsciiSplits("sha256:", digits);
    var t := Ascii("sha256:" + digits);
    HexDigits(digits);
    hide Ascii;
    assert t[..7] == HASH_PREFIX && |t| == 71;
    forall i | 7 <= i < 71 ensures IsHexDigit(t[i]) {
      assert t[i] == Ascii(digits)[i - 7];
    }
  }

  lemma HexDigits(digits: string)
    requires forall i :: 0 <= i < |digits| ==> digits[i] in "0123456789abcdef"
    ensures forall i :: 0 <= i < |digits| ==> IsHexDigit(Ascii(digits)[i])
  {
    forall i | 0 <= i < |digits| ensures IsHexDigit(Ascii(digits)[i]) {
      HexIsHex(digits[i]);
    }
  }

  lemma HashesAreSpelled(v: Value)
    ensures IsHash(v) <==> HashText(v)
  {
    hide IsSha256, Ascii;
    if IsHash(v) {
      HashHasDigits(v);
    }
    if HashText(v) {
      var digits: string :| |digits| == 64 && (forall i :: 0 <= i < 64 ==> digits[i] in "0123456789abcdef")
                            && v == Str(Ascii("sha256:" + digits));
      DigitsMakeHash(digits);
    }
  }

  lemma HexIsHex(c: char)
    requires c in "0123456789abcdef"
    ensures IsHexDigit(c as int)
  {
  }

  lemma PrefixesAreSpelled(v: Value, prefix: string)
    ensures HasPrefix(v, prefix) <==> Prefixed(v, prefix)
  {
    hide Ascii;
    if HasPrefix(v, prefix) {
      assert v.s == Ascii(prefix) + v.s[|prefix|..];
    }
  }

  lemma TextsAreSpelled(v: Value)
    ensures IsText(v) <==> SomeText(v)
  {
  }

  lemma CountIsSpelled(v: Value)
    ensures v.Num? && v.n.Finite? && IsCount(v.n.text) <==> CountText(v)
  {
    hide IsCount, Ascii, Texts.Decimal;
    if v.Num? && v.n.Finite? {
      CountsAreSpelled(v.n.text);
    }
  }

  lemma ScalarsAreSpelled(p: Patterns, f: Field, v: Value)
    requires IsScalar(f)
    ensures FieldOk(p, f, v) <==> Spelled(p, f, v)
  {
    hide HashText, Prefixed, IsHash, HasPrefix, IsText, SomeText, Ascii, At, Under;
    HashesAreSpelled(v);
    TextsAreSpelled(v);
    PrefixesAreSpelled(v, "aud_");
    PrefixesAreSpelled(v, "app_");
    if v.Str? {
      assert v == Str(v.s);
    }
  }

  lemma CreativesAreSpelled(p: Patterns, v: Value)
    ensures FieldOk(p, Creative, v) <==> Spelled(p, Creative, v)
  {
    hide HashText, Prefixed, IsHash, HasPrefix, IsText, SomeText, Ascii, Lookup;
    PrefixesAreSpelled(Under(v, "id"), "cr_");
    TextsAreSpelled(Under(v, "advertiser"));
    TextsAreSpelled(Under(v, "advertiser_domain"));
    HashesAreSpelled(Under(v, "content_hash"));
  }

  lemma DisclosuresAreSpelled(p: Patterns, v: Value)
    ensures FieldOk(p, DisclosureBlock, v) <==> Spelled(p, DisclosureBlock, v)
  {
    hide IsText, SomeText, Ascii, Lookup;
    TextsAreSpelled(Under(v, "label"));
  }

  /** Field by field the patterns of the schema accept exactly the values so spelled. */
  lemma FieldsAreSpelled(p: Patterns, f: Field, v: Value)
    ensures FieldOk(p, f, v) <==> Spelled(p, f, v)
  {
    hide HashText, Prefixed, IsHash, HasPrefix, IsText, SomeText, CreativeOk, DisclosureOk, IsCount, CountText,
      Fits;
    if IsScalar(f) {
      ScalarsAreSpelled(p, f, v);
    } else {
      CreativesAreSpelled(p, v);
      DisclosuresAreSpelled(p, v);
      CountIsSpelled(v);
    }
  }

  // -------------------------------------------------------------------------------------- keys

  /** The keys of a record in the order of its document. */
  const RECORD_KEYS := [
    "id", "app_id", "conversation_id_hash", "user_hash", "turn_id", "ts", "surface", "classification", "policy_version",
    "policy_hash", "policy_decisions", "override_rejected", "decision", "reason", "demand", "creative", "disclosure",
    "model_output_hash", "separation_attestation", "attested_at", "supersedes_hash", "prev_hash", "record_hash", "signature",
    "key_id"]

  /** A document of the source has these keys in this order, each with the value of its field. */
  lemma DocumentIsSpelled(p: Patterns, r: AuditRecord, i: nat)
    requires i < 25
    ensures |RECORD_KEYS| == 25
    ensures var m := Document(SourceContract(p), r).members;
            |m| == 25 && m[i] == Member(Ascii(RECORD_KEYS[i]), r[FieldAt(i)])
  {
    assert Name(FieldAt(i)) == RECORD_KEYS[i];
  }

  /** The content of a creative is hashed as an object with these six keys. */
  lemma ContentIsSpelled(p: Patterns, content: RecordBuilder.CreativeContent)
    ensures RecordBuilder.ContentValue(SourceContract(p), content) == Obj([
              Member(Ascii("advertiser"), Str(content.advertiser)),
              Member(Ascii("advertiser_domain"), Str(content.advertiser_domain)),
              Member(Ascii("headline"), Str(content.headline)), Member(Ascii("body"), Str(content.body)),
              Member(Ascii("cta"), Str(content.cta)), Member(Ascii("url_template"), Str(content.url_template))])
  {
    hide Ascii, FieldOf, FieldOk, Strip, IsSha256, WordText;
    WordsAre();
    assert forall w: Word :: SourceContract(p).word(w) == Ascii(WordText(w));
    hide SourceContract;
  }

  lemma WordsAre()
    ensures WordText(AdvertiserKey) == "advertiser" && WordText(AdvertiserDomainKey) == "advertiser_domain"
    ensures WordText(HeadlineKey) == "headline" && WordText(BodyKey) == "body"
    ensures WordText(CtaKey) == "cta" && WordText(UrlTemplateKey) == "url_template"
  {
  }
}
