/** Reading baseline fingerprints: decimal text, padded hexadecimal text, and `0x` text. */
module Fingerprints {
  import opened Wrappers

  const U64_LIMIT: nat := 0x1_0000_0000_0000_0000

  // ----- digits

  function DigitOf(c: char, radix: nat): (r: Option<nat>)
    ensures r.Some? && radix == 10 ==> r.value < 10
    ensures r.Some? ==> r.value < 16
  {
    if '0' <= c <= '9' then Some(c as nat - '0' as nat)
    else if radix == 16 && 'a' <= c <= 'f' then Some(c as nat - 'a' as nat + 10)
    else if radix == 16 && 'A' <= c <= 'F' then Some(c as nat - 'A' as nat + 10)
    else None
  }

  predicate AllDigits(s: string, radix: nat) {
    forall i :: 0 <= i < |s| ==> DigitOf(s[i], radix).Some?
  }

  function ValueOf(s: string, radix: nat): (r: nat)
    requires AllDigits(s, radix)
  {
    if s == "" then 0 else ValueOf(s[..|s| - 1], radix) * radix + DigitOf(s[|s| - 1], radix).value
  }

  /** Reading an unsigned 64-bit number: an optional plus sign, then at least one digit, no overflow. */
  function ParseU64(s: string, radix: nat): (r: Option<nat>)
    ensures r.Some? ==> r.value < U64_LIMIT
  {
    var digits := if s != "" && s[0] == '+' then s[1..] else s;
    if digits == "" || !AllDigits(digits, radix) || ValueOf(digits, radix) >= U64_LIMIT then None
    else Some(ValueOf(digits, radix))
  }

  function DigitChar(d: nat): (c: char)
    requires d < 16
    ensures DigitOf(c, 16) == Some(d)
    ensures d < 10 ==> DigitOf(c, 10) == Some(d)
  {
    if d < 10 then ('0' as nat + d) as char else ('a' as nat + d - 10) as char
  }

  /** The text of a number, without leading zeros. */
  function TextOf(v: nat, radix: nat): (s: string)
    requires radix == 10 || radix == 16
    ensures s != "" && AllDigits(s, radix)
  {
    if v < radix then [DigitChar(v)] else TextOf(v / radix, radix) + [DigitChar(v % radix)]
  }

  function Power(radix: nat, k: nat): (r: nat) {
    if k == 0 then 1 else Power(radix, k - 1) * radix
  }

  lemma {:induction false} TextReadsBack(v: nat, radix: nat)
    requires radix == 10 || radix == 16
    ensures ValueOf(TextOf(v, radix), radix) == v
  {
    if v >= radix {
      TextReadsBack(v / radix, radix);
      var s := TextOf(v, radix);
      assert s[..|s| - 1] == TextOf(v / radix, radix);
    } else {
      assert TextOf(v, radix)[..0] == "";
    }
  }

  lemma TextIsInjective(a: nat, b: nat)
    requires TextOf(a, 10) == TextOf(b, 10)
    ensures a == b
  {
    TextReadsBack(a, 10);
    TextReadsBack(b, 10);
  }

  lemma {:induction false} TextLength(v: nat, radix: nat, k: nat)
    requires (radix == 10 || radix == 16) && k > 0 && v < Power(radix, k)
    ensures |TextOf(v, radix)| <= k
  {
    if v >= radix {
      assert Power(radix, 1) == Power(radix, 0) * radix;
      assert v / radix < Power(radix, k - 1);
      TextLength(v / radix, radix, k - 1);
    }
  }

  lemma {:induction false} ValueBound(s: string, radix: nat)
    requires (radix == 10 || radix == 16) && AllDigits(s, radix)
    ensures ValueOf(s, radix) < Power(radix, |s|)
  {
    if s != "" {
      ValueBound(s[..|s| - 1], radix);
      var p, v := Power(radix, |s| - 1), ValueOf(s[..|s| - 1], radix);
      assert v + 1 <= p;
      assert (v + 1) * radix <= p * radix;
    }
  }

  // ----- padded text

  function Zeros(k: nat): (s: string)
    ensures |s| == k && forall i :: 0 <= i < k ==> s[i] == '0'
  {
    if k == 0 then "" else Zeros(k - 1) + "0"
  }

  function Padded(s: string, width: nat): (r: string) {
    if |s| < width then Zeros(width - |s|) + s else s
  }

  lemma {:induction false} ZerosCountNothing(k: nat, s: string, radix: nat)
    requires (radix == 10 || radix == 16) && AllDigits(s, radix)
    ensures AllDigits(Zeros(k) + s, radix) && ValueOf(Zeros(k) + s, radix) == ValueOf(s, radix)
    decreases |s|
  {
    assert DigitOf('0', radix) == Some(0);
    var t := Zeros(k) + s;
    forall i | 0 <= i < |t| ensures DigitOf(t[i], radix).Some? {
      if i >= k { assert t[i] == s[i - k]; }
    }
    if s == "" {
      assert t == Zeros(k);
      ZerosAreZero(k, radix);
    } else {
      assert t[..|t| - 1] == Zeros(k) + s[..|s| - 1];
      ZerosCountNothing(k, s[..|s| - 1], radix);
    }
  }

  lemma {:induction false} ZerosAreZero(k: nat, radix: nat)
    requires radix == 10 || radix == 16
    ensures AllDigits(Zeros(k), radix) && ValueOf(Zeros(k), radix) == 0
  {
    assert DigitOf('0', radix) == Some(0);
    if k > 0 {
      ZerosAreZero(k - 1, radix);
      assert Zeros(k)[..k - 1] == Zeros(k - 1);
    }
  }

  // ----- trimming

  /** The characters with the Unicode White_Space property. */
  predicate IsSpace(c: char) {
    || '\U{0009}' <= c <= '\U{000D}' || c == ' ' || c == '\U{0085}' || c == '\U{00A0}' || c == '\U{1680}'
    || '\U{2000}' <= c <= '\U{200A}' || c == '\U{2028}' || c == '\U{2029}'
    || c == '\U{202F}' || c == '\U{205F}' || c == '\U{3000}'
  }

  function TrimStart(s: string): (r: string) {
    if s != "" && IsSpace(s[0]) then TrimStart(s[1..]) else s
  }

  function TrimEnd(s: string): (r: string) {
    if s != "" && IsSpace(s[|s| - 1]) then TrimEnd(s[..|s| - 1]) else s
  }

  function Trim(s: string): (r: string) {
    TrimEnd(TrimStart(s))
  }

  // ----- the fingerprint parser

  predicate IsHexText(s: string) {
    |s| == 16 && AllDigits(s, 16)
  }

  predicate HasLetter(s: string) {
    exists i :: 0 <= i < |s| && ('a' <= s[i] <= 'z' || 'A' <= s[i] <= 'Z')
  }

  function Singleton(v: Option<nat>): (r: seq<nat>) {
    if v.Some? then [v.value] else []
  }

  /** The canonical readings of a fingerprint text. Sixteen digits can be a decimal fingerprint or a
      padded hexadecimal one, and yield both readings. */
  function ParseFingerprint(s: string): (r: seq<nat>) {
    var t := Trim(s);
    if |t| >= 2 && t[0] == '0' && (t[1] == 'x' || t[1] == 'X') then Singleton(ParseU64(t[2..], 16))
    else if IsHexText(t) then
      if HasLetter(t) then Singleton(ParseU64(t, 16))
      else
        var out := Singleton(ParseU64(t, 10));
        var hex := ParseU64(t, 16);
        if hex.Some? && hex.value !in out then out + [hex.value] else out
    else Singleton(ParseU64(t, 10))
  }

  /** The text has two possible readings. */
  predicate Ambiguous(s: string) {
    |Trim(s)| == 16 && AllDigits(Trim(s), 10)
  }

  lemma DecimalDigitsAreHex(s: string)
    requires AllDigits(s, 10)
    ensures AllDigits(s, 16) && !HasLetter(s)
  {
    forall i | 0 <= i < |s| ensures DigitOf(s[i], 16).Some? && '0' <= s[i] <= '9' {
      assert DigitOf(s[i], 10).Some?;
    }
  }

  lemma LetterlessHexIsDecimal(s: string)
    requires AllDigits(s, 16) && !HasLetter(s)
    ensures AllDigits(s, 10)
  {
    forall i | 0 <= i < |s| ensures DigitOf(s[i], 10).Some? {
      assert DigitOf(s[i], 16).Some?;
    }
  }

  lemma SolidEndsAreTrimmed(s: string)
    requires s != "" && !IsSpace(s[0]) && !IsSpace(s[|s| - 1])
    ensures Trim(s) == s
  {
  }

  lemma DigitsAreTrimmed(s: string)
    requires s != "" && AllDigits(s, 16)
    ensures Trim(s) == s
  {
    assert DigitOf(s[0], 16).Some? && DigitOf(s[|s| - 1], 16).Some?;
  }

  lemma NotPrefixed(s: string)
    requires |s| >= 2 && AllDigits(s, 16)
    ensures s[1] != 'x' && s[1] != 'X'
  {
    assert DigitOf(s[1], 16).Some?;
  }

  lemma DigitsParse(s: string, radix: nat)
    requires (radix == 10 || radix == 16) && s != "" && AllDigits(s, radix) && ValueOf(s, radix) < U64_LIMIT
    ensures ParseU64(s, radix) == Some(ValueOf(s, radix))
  {
    assert DigitOf(s[0], radix).Some?;
  }

  /** The decimal form reads back, and reads back alone unless it has sixteen digits. */
  lemma DecimalRoundTrip(v: nat)
    requires v < U64_LIMIT
    ensures v in ParseFingerprint(TextOf(v, 10))
    ensures !Ambiguous(TextOf(v, 10)) ==> ParseFingerprint(TextOf(v, 10)) == [v]
  {
    hide TextOf, ValueOf, Trim, DigitOf;
    var t := TextOf(v, 10);
    DecimalDigitsAreHex(t);
    DigitsAreTrimmed(t);
    TextReadsBack(v, 10);
    DigitsParse(t, 10);
    if |t| >= 2 { NotPrefixed(t); }
  }

  /** With a sign the decimal form has one reading, however many digits it has. */
  lemma SignedRoundTrip(v: nat)
    requires v < U64_LIMIT
    ensures ParseFingerprint("+" + TextOf(v, 10)) == [v]
  {
    hide TextOf, ValueOf, Trim;
    var t := TextOf(v, 10);
    var s := "+" + t;
    TextReadsBack(v, 10);
    DigitsParse(t, 10);
    assert s[1..] == t && DigitOf(s[0], 16) == None && DigitOf(t[|t| - 1], 10).Some?;
    assert s[|s| - 1] == t[|t| - 1];
    SolidEndsAreTrimmed(s);
  }

  /** A number that does not fit 64 bits is no fingerprint. */
  lemma OverflowIsNotRead(v: nat)
    requires v >= U64_LIMIT
    ensures ParseFingerprint(TextOf(v, 10)) == []
  {
    hide TextOf, ValueOf, Trim, Power;
    var t := TextOf(v, 10);
    assert DigitOf(t[0], 10).Some?;
    DecimalDigitsAreHex(t);
    DigitsAreTrimmed(t);
    TextReadsBack(v, 10);
    ValueBound(t, 10);
    SixteenDigitsFit();
    if |t| >= 2 { NotPrefixed(t); }
  }

  lemma SixteenDigitsFit()
    ensures Power(10, 16) < U64_LIMIT
  {
    assert Power(10, 4) == 1_0000;
    assert Power(10, 5) == 10_0000 && Power(10, 6) == 100_0000 && Power(10, 7) == 1000_0000;
    assert Power(10, 8) == 1_0000_0000 && Power(10, 9) == 10_0000_0000 && Power(10, 10) == 100_0000_0000;
    assert Power(10, 11) == 1000_0000_0000 && Power(10, 12) == 1_0000_0000_0000;
    assert Power(10, 13) == 10_0000_0000_0000 && Power(10, 14) == 100_0000_0000_0000;
    assert Power(10, 15) == 1000_0000_0000_0000;
  }

  lemma HexTextParses(t: string)
    requires IsHexText(t) && ValueOf(t, 16) < U64_LIMIT
    ensures ValueOf(t, 16) in ParseFingerprint(t)
    ensures HasLetter(t) ==> ParseFingerprint(t) == [ValueOf(t, 16)]
  {
    hide ValueOf, Trim;
    DigitsAreTrimmed(t);
    NotPrefixed(t);
    DigitsParse(t, 16);
  }

  /** The sixteen-digit padded hexadecimal form reads back, alone if it contains a letter. */
  lemma PaddedHexRoundTrip(v: nat)
    requires v < U64_LIMIT
    ensures var t := Padded(TextOf(v, 16), 16);
      |t| == 16 && v in ParseFingerprint(t) && (HasLetter(t) ==> ParseFingerprint(t) == [v])
  {
    hide TextOf, ValueOf, Power, ParseFingerprint;
    var s := TextOf(v, 16);
    PowersOf16();
    TextLength(v, 16, 16);
    TextReadsBack(v, 16);
    var t := Padded(s, 16);
    ZerosCountNothing(16 - |s|, s, 16);
    assert Zeros(0) + s == s;
    HexTextParses(t);
  }

  lemma PowersOf16()
    ensures Power(16, 16) == U64_LIMIT
  {
    assert Power(16, 4) == 0x1_0000;
    assert Power(16, 8) == 0x1_0000_0000 by {
      assert Power(16, 5) == 0x10_0000 && Power(16, 6) == 0x100_0000 && Power(16, 7) == 0x1000_0000;
    }
    assert Power(16, 12) == 0x1_0000_0000_0000 by {
      assert Power(16, 9) == 0x10_0000_0000 && Power(16, 10) == 0x100_0000_0000 && Power(16, 11) == 0x1000_0000_0000;
    }
    assert Power(16, 13) == 0x10_0000_0000_0000 && Power(16, 14) == 0x100_0000_0000_0000
           && Power(16, 15) == 0x1000_0000_0000_0000;
  }

  /** The `0x` form, in either case of the prefix, has one reading. */
  lemma PrefixedHexRoundTrip(v: nat)
    requires v < U64_LIMIT
    ensures ParseFingerprint("0x" + TextOf(v, 16)) == [v] && ParseFingerprint("0X" + TextOf(v, 16)) == [v]
  {
    hide TextOf, ValueOf, Trim;
    var s := TextOf(v, 16);
    TextReadsBack(v, 16);
    DigitsParse(s, 16);
    assert DigitOf(s[|s| - 1], 16).Some?;
    forall p | p == "0x" || p == "0X" ensures Trim(p + s) == p + s && (p + s)[2..] == s {
      assert (p + s)[|p + s| - 1] == s[|s| - 1];
      SolidEndsAreTrimmed(p + s);
    }
  }

  /** There are at most two readings, they differ, each fits 64 bits, and there are two only for
      sixteen decimal digits. */
  lemma ReadingsAreFew(s: string)
    ensures |ParseFingerprint(s)| <= 2
    ensures forall v :: v in ParseFingerprint(s) ==> v < U64_LIMIT
    ensures |ParseFingerprint(s)| == 2 ==> Ambiguous(s) && ParseFingerprint(s)[0] != ParseFingerprint(s)[1]
  {
    var t := Trim(s);
    if IsHexText(t) && !HasLetter(t) { LetterlessHexIsDecimal(t); }
  }

  // ----- spaces and case make no difference

  /** The texts differ in the case of letters at most. */
  ghost predicate SameButCase(s: string, t: string) {
    && |s| == |t|
    && forall i :: 0 <= i < |s| ==> t[i] == s[i] || ('a' <= s[i] <= 'z' && t[i] as nat == s[i] as nat - 32)
  }

  lemma SameDigits(s: string, t: string, radix: nat)
    requires SameButCase(s, t)
    ensures AllDigits(s, radix) <==> AllDigits(t, radix)
    ensures HasLetter(s) <==> HasLetter(t)
  {
    forall i | 0 <= i < |s| ensures DigitOf(s[i], radix) == DigitOf(t[i], radix) { CaseOfDigit(s[i], t[i], radix); }
    if i :| 0 <= i < |s| && ('a' <= s[i] <= 'z' || 'A' <= s[i] <= 'Z') { assert 'A' <= t[i] <= 'Z' || t[i] == s[i]; }
    if i :| 0 <= i < |t| && ('a' <= t[i] <= 'z' || 'A' <= t[i] <= 'Z') { assert s[i] == t[i] || 'a' <= s[i] <= 'z'; }
  }

  lemma CaseOfDigit(c: char, d: char, radix: nat)
    requires d == c || ('a' <= c <= 'z' && d as nat == c as nat - 32)
    ensures DigitOf(c, radix) == DigitOf(d, radix)
  {
    if d != c && c <= 'f' {
      assert 'A' <= d <= 'F';
    }
  }

  lemma {:induction false} SameValue(s: string, t: string, radix: nat)
    requires SameButCase(s, t) && AllDigits(s, radix) && AllDigits(t, radix)
    ensures ValueOf(s, radix) == ValueOf(t, radix)
  {
    if s != "" {
      var n := |s| - 1;
      SameValue(s[..n], t[..n], radix);
      CaseOfDigit(s[n], t[n], radix);
    }
  }

  lemma SameNumber(s: string, t: string, radix: nat)
    requires SameButCase(s, t)
    ensures ParseU64(s, radix) == ParseU64(t, radix)
  {
    hide ValueOf, AllDigits;
    var from := if s != "" && s[0] == '+' then 1 else 0;
    SameDigits(s[from..], t[from..], radix);
    if AllDigits(s[from..], radix) { SameValue(s[from..], t[from..], radix); }
    assert s[0..] == s && t[0..] == t;
  }

  lemma {:induction false} SameTrimmed(s: string, t: string)
    requires SameButCase(s, t)
    ensures SameButCase(TrimStart(s), TrimStart(t)) && SameButCase(TrimEnd(s), TrimEnd(t))
    decreases |s|
  {
    if s != "" {
      SameTrimmed(s[1..], t[1..]);
      SameTrimmed(s[..|s| - 1], t[..|t| - 1]);
    }
  }

  /** Letters of hexadecimal digits, and of the prefix, may be written in either case. */
  lemma CaseMakesNoDifference(s: string, t: string)
    requires SameButCase(s, t)
    ensures ParseFingerprint(s) == ParseFingerprint(t)
  {
    hide ParseU64, AllDigits, HasLetter, SameButCase, TrimStart, TrimEnd;
    SameTrimmed(s, t);
    SameTrimmed(TrimStart(s), TrimStart(t));
    var a, b := Trim(s), Trim(t);
    SameShape(a, b);
    SameDigits(a, b, 16);
    SameNumber(a, b, 10);
    SameNumber(a, b, 16);
    if |a| >= 2 { SameNumber(a[2..], b[2..], 16); }
  }

  lemma SameShape(s: string, t: string)
    requires SameButCase(s, t)
    ensures |s| == |t|
    ensures (|s| >= 2 ==>
               && (s[0] == '0' <==> t[0] == '0') && (s[1] == 'x' || s[1] == 'X' <==> t[1] == 'x' || t[1] == 'X')
               && SameButCase(s[2..], t[2..]))
  {
  }

  ghost predicate Blank(s: string) { forall i :: 0 <= i < |s| ==> s[i] in " \t\r\n" }

  lemma {:induction false} BlankStart(blank: string, s: string)
    requires Blank(blank)
    ensures TrimStart(blank + s) == TrimStart(s)
  {
    if blank == "" {
      assert blank + s == s;
    } else {
      assert (blank + s)[1..] == blank[1..] + s;
      BlankStart(blank[1..], s);
    }
  }

  lemma {:induction false} BlankEnd(s: string, blank: string)
    requires Blank(blank)
    ensures TrimEnd(s + blank) == TrimEnd(s)
  {
    if blank == "" {
      assert s + blank == s;
    } else {
      assert (s + blank)[..|s + blank| - 1] == s + blank[..|blank| - 1];
      BlankEnd(s, blank[..|blank| - 1]);
    }
  }

  lemma {:induction false} StartWithBlankEnd(s: string, blank: string)
    requires Blank(blank)
    ensures TrimStart(s + blank) == TrimStart(s) + blank || (TrimStart(s) == "" && TrimStart(s + blank) == "")
  {
    if s == "" {
      BlankStart(blank, "");
      assert blank + "" == blank == s + blank;
    } else if IsSpace(s[0]) {
      assert (s + blank)[1..] == s[1..] + blank;
      StartWithBlankEnd(s[1..], blank);
    }
  }

  /** White space around a fingerprint is not part of it. */
  lemma SpacesMakeNoDifference(before: string, s: string, after: string)
    requires Blank(before) && Blank(after)
    ensures ParseFingerprint(before + s + after) == ParseFingerprint(s)
  {
    hide Trim, IsHexText, HasLetter, ParseU64;
    BlanksAreTrimmed(before, s, after);
  }

  lemma BlanksAreTrimmed(before: string, s: string, after: string)
    requires Blank(before) && Blank(after)
    ensures Trim(before + s + after) == Trim(s)
  {
    hide TrimStart, TrimEnd, Blank;
    assert before + s + after == before + (s + after);
    BlankStart(before, s + after);
    StartWithBlankEnd(s, after);
    BlankEnd(TrimStart(s), after);
  }

  // ----- texts with two readings

  /** The decimal text of `other` can also be read as the different fingerprint `v`. */
  predicate Shadows(other: nat, v: nat) {
    other != v && v in ParseFingerprint(TextOf(other, 10))
  }

  lemma {:induction false} HexReadsAtLeast(s: string)
    requires AllDigits(s, 10)
    ensures AllDigits(s, 16) && ValueOf(s, 16) >= ValueOf(s, 10)
  {
    DecimalDigitsAreHex(s);
    if s != "" {
      HexReadsAtLeast(s[..|s| - 1]);
      assert DigitOf(s[|s| - 1], 16) == DigitOf(s[|s| - 1], 10);
    }
  }

  lemma {:induction false} HexReadingIsInjective(s: string, t: string)
    requires |s| == |t| && AllDigits(s, 10) && AllDigits(t, 10)
    requires AllDigits(s, 16) && AllDigits(t, 16) && ValueOf(s, 16) == ValueOf(t, 16)
    ensures s == t
  {
    if s != "" {
      hide ValueOf, DigitOf;
      var n := |s| - 1;
      LastDigit(s, 16);
      LastDigit(t, 16);
      DecimalDigitIsInjective(s[n], t[n]);
      HexReadingIsInjective(s[..n], t[..n]);
      assert s == s[..n] + [s[n]] && t == t[..n] + [t[n]];
    }
  }

  lemma LastDigit(s: string, radix: nat)
    requires s != "" && AllDigits(s, radix)
    ensures AllDigits(s[..|s| - 1], radix) && DigitOf(s[|s| - 1], radix).Some?
    ensures ValueOf(s, radix) == ValueOf(s[..|s| - 1], radix) * radix + DigitOf(s[|s| - 1], radix).value
  {
  }

  lemma DecimalDigitIsInjective(c: char, d: char)
    requires DigitOf(c, 10).Some? && DigitOf(d, 10).Some? && DigitOf(c, 16) == DigitOf(d, 16)
    ensures c == d
  {
  }

  /** Only the sixteen-digit text of a smaller number shadows a fingerprint. */
  lemma ShadowIsHexReading(other: nat, v: nat)
    requires other < U64_LIMIT && Shadows(other, v)
    ensures (var t := TextOf(other, 10);
             |t| == 16 && AllDigits(t, 10) && AllDigits(t, 16) && ValueOf(t, 16) == v && v > other)
  {
    hide TextOf, ValueOf, Trim;
    var t := TextOf(other, 10);
    DecimalDigitsAreHex(t);
    DigitsAreTrimmed(t);
    TextReadsBack(other, 10);
    DigitsParse(t, 10);
    HexReadsAtLeast(t);
    if |t| >= 2 { NotPrefixed(t); }
    if ParseU64(t, 16).Some? { DigitsParse(t, 16); }
  }

  /** No fingerprint is shadowed by two others, and no two shadow each other. */
  lemma ShadowIsUnique(a: nat, b: nat, v: nat)
    requires a < U64_LIMIT && b < U64_LIMIT && v < U64_LIMIT && Shadows(a, v)
    ensures Shadows(b, v) ==> a == b
    ensures !Shadows(v, a)
  {
    hide TextOf, ValueOf, ParseFingerprint;
    ShadowIsHexReading(a, v);
    if Shadows(v, a) { ShadowIsHexReading(v, a); }
    if Shadows(b, v) {
      ShadowIsHexReading(b, v);
      HexReadingIsInjective(TextOf(a, 10), TextOf(b, 10));
      TextReadsBack(a, 10);
      TextReadsBack(b, 10);
    }
  }

  lemma {:induction false} PowerText(k: nat)
    ensures AllDigits("1" + Zeros(k), 16) && TextOf(Power(10, k), 10) == "1" + Zeros(k)
    ensures ValueOf("1" + Zeros(k), 16) == Power(16, k)
  {
    var t := "1" + Zeros(k);
    assert DigitOf('0', 16) == Some(0) && DigitOf('1', 16) == Some(1);
    if k == 0 {
      assert t == "1" && t[..0] == "";
      assert ValueOf(t[..0], 16) == 0;
    } else {
      PowerText(k - 1);
      PowerIsPositive(k - 1);
      assert t[..|t| - 1] == "1" + Zeros(k - 1);
      assert Power(10, k) == Power(10, k - 1) * 10;
      assert Power(10, k) / 10 == Power(10, k - 1) && Power(10, k) % 10 == 0;
      assert DigitChar(0) == '0';
    }
  }

  lemma {:induction false} PowerIsPositive(k: nat)
    ensures Power(10, k) > 0
  {
    if k > 0 { PowerIsPositive(k - 1); }
  }

  /** There are such pairs: ten to the fifteenth shadows sixteen to the fifteenth. */
  lemma SomeShadow()
    ensures Power(10, 15) < Power(16, 15) < U64_LIMIT && Shadows(Power(10, 15), Power(16, 15))
  {
    LastPowerOf16();
    hide TextOf, ValueOf, Power, ParseFingerprint, Zeros;
    var t := "1" + Zeros(15);
    PowerText(15);
    PowersDiffer(15);
    assert forall i :: 0 <= i < |t| ==> t[i] == '0' || t[i] == '1';
    LettersAreNoDigits(t);
    SixteenDigitsRead(t);
  }

  lemma LastPowerOf16()
    ensures Power(16, 15) < U64_LIMIT
  {
    PowersOf16();
    assert Power(16, 16) == Power(16, 15) * 16;
  }

  lemma LettersAreNoDigits(t: string)
    requires forall i :: 0 <= i < |t| ==> t[i] == '0' || t[i] == '1'
    ensures AllDigits(t, 16) && !HasLetter(t)
  {
  }

  /** Sixteen digits without a letter can be read as the number they spell in hexadecimal. */
  lemma SixteenDigitsRead(t: string)
    requires IsHexText(t) && !HasLetter(t) && ValueOf(t, 16) < U64_LIMIT
    ensures ValueOf(t, 16) in ParseFingerprint(t)
  {
    HexTextParses(t);
  }

  lemma {:induction false} PowersDiffer(k: nat)
    ensures k > 0 ==> Power(10, k) < Power(16, k)
  {
    if k > 1 { PowersDiffer(k - 1); } else if k == 1 { assert Power(10, 0) == Power(16, 0) == 1; }
  }
}
