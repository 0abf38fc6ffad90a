/**
 * The gate that keeps every blob which might be Unicode text in disguise.
 *
 * A blob is decoded before it is matched when a byte-order mark or the zeros of
 * one of its byte lanes give it away. The gate must keep all of those.
 */
module UnicodeGate {
  import opened Bytes
  import opened Texts
  import opened Wrappers

  // ----- the gate

  function Required(units: nat): nat {
    units / 5 * 3 + (units % 5 * 3 + 4) / 5
  }

  /** Dividing in this order never overflows, and is still three fifths rounded up. */
  lemma RequiredIsCeiling(units: nat, zeros: nat)
    ensures zeros >= Required(units) <==> 5 * zeros >= 3 * units
  {
    var q, m := units / 5, units % 5;
    assert units == 5 * q + m;
    assert m == 0 || m == 1 || m == 2 || m == 3 || m == 4;
  }

  predicate PossibleUnicode(bytes: seq<Byte>) {
    if StartsWith(bytes, [0xff, 0xfe]) || StartsWith(bytes, [0xfe, 0xff])
       || StartsWith(bytes, [0, 0, 0xfe, 0xff]) then true
    else if |bytes| < 8 || |bytes| % 2 != 0 then false
    else CountZeros(bytes) >= Required(|bytes| / 2)
  }

  // ----- what the matcher's decoder takes for Unicode

  datatype Encoding = Utf16Le | Utf16Be | Utf32Le | Utf32Be

  predicate Score(input: seq<Byte>, offset: nat, stride: nat)
    requires offset < stride
  {
    var lane := Lane(input, offset, stride);
    |lane| > 1 && CountZeros(lane) * 100 / |lane| >= 60
  }

  function GuessByLanes(input: seq<Byte>): Option<Encoding> {
    if |input| % 4 == 0 && !Score(input, 0, 4) && Score(input, 1, 4) && Score(input, 2, 4) && Score(input, 3, 4)
    then Some(Utf32Le)
    else if |input| % 4 == 0 && Score(input, 0, 4) && Score(input, 1, 4) && Score(input, 2, 4) && !Score(input, 3, 4)
    then Some(Utf32Be)
    else if |input| % 2 == 0 && !Score(input, 0, 2) && Score(input, 1, 2) then Some(Utf16Le)
    else if |input| % 2 == 0 && Score(input, 0, 2) && !Score(input, 1, 2) then Some(Utf16Be)
    else None
  }

  function Guess(input: seq<Byte>): Option<Encoding> {
    if |input| < 8 || |input| % 2 != 0 || CountZeros(input) == 0 then None
    else if CountZeros(input) < Required(|input| / 2) then None
    else GuessByLanes(input)
  }

  /** The heuristics alone, without the cheap zero counts in front of them. */
  function PlainGuess(input: seq<Byte>): Option<Encoding> {
    if |input| < 8 || |input| % 2 != 0 then None else GuessByLanes(input)
  }

  predicate IsScalar(v: nat) { v < 0xd800 || 0xe000 <= v <= 0x10ffff }

  predicate ScalarsLe(s: seq<Byte>) {
    if |s| < 4 then s == []
    else
      var b0: nat, b1: nat, b2: nat, b3: nat := s[0], s[1], s[2], s[3];
      IsScalar(b0 + 0x100 * b1 + 0x10000 * b2 + 0x1000000 * b3) && ScalarsLe(s[4..])
  }

  /** The encoding a blob is decoded from, if any. */
  function Detect(input: seq<Byte>): Option<Encoding> {
    if StartsWith(input, [0xff, 0xfe, 0, 0]) then
      if ScalarsLe(input[4..]) then Some(Utf32Le) else Some(Utf16Le)
    else if StartsWith(input, [0, 0, 0xfe, 0xff]) then Some(Utf32Be)
    else if StartsWith(input, [0xff, 0xfe]) then Some(Utf16Le)
    else if StartsWith(input, [0xfe, 0xff]) then Some(Utf16Be)
    else Guess(input)
  }

  // ----- no false negatives

  /** A lane scores exactly when it has more than one byte and at least three fifths of it are zeros. */
  lemma ScoredLane(input: seq<Byte>, offset: nat, stride: nat)
    requires offset < stride
    ensures (Score(input, offset, stride)
             <==> |Lane(input, offset, stride)| > 1
                  && 5 * CountZeros(Lane(input, offset, stride)) >= 3 * |Lane(input, offset, stride)|)
  {
    if |Lane(input, offset, stride)| > 1 {
      Percent(CountZeros(Lane(input, offset, stride)), |Lane(input, offset, stride)|);
    }
  }

  lemma Percent(zeros: nat, total: nat)
    requires total > 0
    ensures zeros * 100 / total >= 60 <==> 5 * zeros >= 3 * total
  {
    var q := zeros * 100 / total;
    assert zeros * 100 == q * total + zeros * 100 % total;
    if q >= 60 {
      assert (q - 60) * total >= 0;
    } else {
      assert (59 - q) * total >= 0;
    }
  }

  /** Three fifths of zeros in either lane of the two-byte units are enough to pass. */
  lemma LanePasses(bytes: seq<Byte>, offset: nat)
    requires |bytes| >= 8 && |bytes| % 2 == 0 && offset < 2
    requires 5 * CountZeros(Lane(bytes, offset, 2)) >= 3 * (|bytes| / 2)
    ensures PossibleUnicode(bytes)
  {
    TwoLanes(bytes);
    RequiredIsCeiling(|bytes| / 2, CountZeros(bytes));
  }

  lemma TwoLaneZeros(input: seq<Byte>, offset: nat)
    requires |input| % 2 == 0 && offset < 2 && Score(input, offset, 2)
    ensures 5 * CountZeros(input) >= 3 * (|input| / 2)
  {
    hide Score, CountZeros, Lane;
    TwoLanes(input);
    ScoredLane(input, offset, 2);
  }

  lemma FourLaneZeros(input: seq<Byte>)
    requires |input| % 4 == 0 && Score(input, 1, 4) && Score(input, 2, 4)
    ensures 5 * CountZeros(input) >= 3 * (|input| / 2)
  {
    hide Score, CountZeros, Lane;
    FourLanes(input);
    ScoredLane(input, 1, 4);
    ScoredLane(input, 2, 4);
  }

  /** A guess needs zeros: with too few of them the lanes name no encoding. */
  lemma GuessNeedsZeros(input: seq<Byte>)
    requires |input| % 2 == 0 && GuessByLanes(input).Some?
    ensures CountZeros(input) >= Required(|input| / 2)
  {
    hide Score, CountZeros, Required;
    if |input| % 4 == 0 && Score(input, 1, 4) && Score(input, 2, 4) {
      FourLaneZeros(input);
    } else if Score(input, 0, 2) {
      TwoLaneZeros(input, 0);
    } else {
      TwoLaneZeros(input, 1);
    }
    RequiredIsCeiling(|input| / 2, CountZeros(input));
  }

  /** Counting zeros first changes no guess. */
  lemma ZeroCountsAreInvisible(input: seq<Byte>)
    ensures Guess(input) == PlainGuess(input)
  {
    if |input| >= 8 && |input| % 2 == 0 && GuessByLanes(input).Some? { GuessNeedsZeros(input); }
  }

  /** Whatever the matcher would decode, the gate keeps. */
  lemma GateKeepsUnicode(input: seq<Byte>)
    requires Detect(input).Some?
    ensures PossibleUnicode(input)
  {
    if StartsWith(input, [0xff, 0xfe, 0, 0]) {
      assert input[..2] == input[..4][..2] == [0xff, 0xfe];
    }
  }

  // ----- what is decoded, and what is not

  function UnitSize(e: Encoding): nat { if e.Utf16Le? || e.Utf16Be? then 2 else 4 }

  /** Where in a unit an ASCII character goes. */
  function CharAt(e: Encoding): nat {
    match e
    case Utf16Le => 0
    case Utf16Be => 1
    case Utf32Le => 0
    case Utf32Be => 3
  }

  function Unit(e: Encoding, c: Byte): (r: seq<Byte>)
    ensures |r| == UnitSize(e)
  {
    match e
    case Utf16Le => [c, 0]
    case Utf16Be => [0, c]
    case Utf32Le => [c, 0, 0, 0]
    case Utf32Be => [0, 0, 0, c]
  }

  /** ASCII text in an encoding, without a byte-order mark. */
  function Wide(e: Encoding, text: seq<Byte>): (r: seq<Byte>)
    ensures |r| == UnitSize(e) * |text|
  {
    if text == [] then [] else Unit(e, text[0]) + Wide(e, text[1..])
  }

  function Mark(e: Encoding): seq<Byte> {
    match e
    case Utf16Le => [0xff, 0xfe]
    case Utf16Be => [0xfe, 0xff]
    case Utf32Le => [0xff, 0xfe, 0, 0]
    case Utf32Be => [0, 0, 0xfe, 0xff]
  }

  ghost predicate IsAsciiText(text: seq<Byte>) { forall i :: 0 <= i < |text| ==> 0 < text[i] < 128 }

  function Nulls(n: nat): seq<Byte> { if n == 0 then [] else [0] + Nulls(n - 1) }

  lemma {:induction false} NoNulls(s: seq<Byte>)
    requires forall i :: 0 <= i < |s| ==> s[i] != 0
    ensures CountZeros(s) == 0
  {
    if s != [] { NoNulls(s[1..]); }
  }

  lemma {:induction false} AllNulls(n: nat)
    ensures |Nulls(n)| == n && CountZeros(Nulls(n)) == n
  {
    if n > 0 {
      AllNulls(n - 1);
      assert Nulls(n)[1..] == Nulls(n - 1);
    }
  }

  lemma LaneOfUnit(e: Encoding, c: Byte, rest: seq<Byte>, k: nat)
    requires k < UnitSize(e)
    ensures (Lane(Unit(e, c) + rest, k, UnitSize(e))
             == [if k == CharAt(e) then c else 0] + Lane(rest, k, UnitSize(e)))
  {
    assert (Unit(e, c) + rest)[UnitSize(e)..] == rest;
  }

  /** One lane of the units is the text, the others are zeros. */
  lemma {:induction false} LanesOfUnits(e: Encoding, text: seq<Byte>, k: nat)
    requires k < UnitSize(e)
    ensures Lane(Wide(e, text), k, UnitSize(e)) == if k == CharAt(e) then text else Nulls(|text|)
  {
    if text == [] { return; }
    hide Lane, Unit;
    LanesOfUnits(e, text[1..], k);
    LaneOfUnit(e, text[0], Wide(e, text[1..]), k);
    assert text == [text[0]] + text[1..];
  }

  /** Text in two-byte units fills a lane of each pair of them, too. */
  lemma {:induction false} LanesOfPairs(e: Encoding, text: seq<Byte>, k: nat)
    requires UnitSize(e) == 2 && IsAsciiText(text) && (k == CharAt(e) || k == CharAt(e) + 2)
    ensures CountZeros(Lane(Wide(e, text), k, 4)) == 0
  {
    if |text| >= 2 {
      LanesOfPairs(e, text[2..], k);
      assert Wide(e, text) == Unit(e, text[0]) + (Unit(e, text[1]) + Wide(e, text[1..][1..]));
      assert text[1..][1..] == text[2..];
      assert Wide(e, text)[4..] == Wide(e, text[2..]);
    }
  }

  lemma TextLane(input: seq<Byte>, k: nat, stride: nat)
    requires k < stride && CountZeros(Lane(input, k, stride)) == 0
    ensures !Score(input, k, stride)
  {
  }

  lemma NullLane(input: seq<Byte>, k: nat, stride: nat)
    requires k < stride && CountZeros(Lane(input, k, stride)) == |Lane(input, k, stride)| > 1
    ensures Score(input, k, stride)
  {
    ScoredLane(input, k, stride);
  }

  lemma UnitScores(e: Encoding, text: seq<Byte>, k: nat)
    requires IsAsciiText(text) && |text| > 1 && k < UnitSize(e)
    ensures Score(Wide(e, text), k, UnitSize(e)) <==> k != CharAt(e)
  {
    hide Score, Lane;
    LanesOfUnits(e, text, k);
    NoNulls(text);
    AllNulls(|text|);
    if k == CharAt(e) { TextLane(Wide(e, text), k, UnitSize(e)); } else { NullLane(Wide(e, text), k, UnitSize(e)); }
  }

  lemma GuessOfTwo(e: Encoding, input: seq<Byte>)
    requires UnitSize(e) == 2 && |input| >= 8 && |input| % 2 == 0
    requires !Score(input, CharAt(e), 2) && Score(input, 1 - CharAt(e), 2)
    requires !Score(input, CharAt(e), 4) && !Score(input, CharAt(e) + 2, 4)
    ensures Guess(input) == Some(e)
  {
    ZeroCountsAreInvisible(input);
    hide Score, Guess;
  }

  lemma GuessOfFour(e: Encoding, input: seq<Byte>)
    requires UnitSize(e) == 4 && |input| >= 8 && |input| % 4 == 0
    requires forall k :: 0 <= k < 4 ==> (Score(input, k, 4) <==> k != CharAt(e))
    ensures Guess(input) == Some(e)
  {
    ZeroCountsAreInvisible(input);
    hide Score, Guess;
  }

  lemma PairsHaveNoScore(e: Encoding, text: seq<Byte>)
    requires UnitSize(e) == 2 && IsAsciiText(text)
    ensures !Score(Wide(e, text), CharAt(e), 4) && !Score(Wide(e, text), CharAt(e) + 2, 4)
  {
    hide Score, Lane, Wide;
    LanesOfPairs(e, text, CharAt(e));
    LanesOfPairs(e, text, CharAt(e) + 2);
    TextLane(Wide(e, text), CharAt(e), 4);
    TextLane(Wide(e, text), CharAt(e) + 2, 4);
  }

  /** Text in any of the encodings is guessed without a mark. */
  lemma TextIsGuessed(e: Encoding, text: seq<Byte>)
    requires IsAsciiText(text) && |text| >= 4
    ensures Guess(Wide(e, text)) == Some(e)
  {
    hide Score, Lane, Guess, Wide, IsAsciiText;
    forall k | 0 <= k < UnitSize(e) ensures Score(Wide(e, text), k, UnitSize(e)) <==> k != CharAt(e) {
      UnitScores(e, text, k);
    }
    if UnitSize(e) == 2 {
      PairsHaveNoScore(e, text);
      GuessOfTwo(e, Wide(e, text));
    } else {
      GuessOfFour(e, Wide(e, text));
    }
  }

  lemma {:induction false} AsciiIsScalar(text: seq<Byte>)
    requires IsAsciiText(text)
    ensures ScalarsLe(Wide(Utf32Le, text))
  {
    if text != [] {
      AsciiIsScalar(text[1..]);
      assert Wide(Utf32Le, text)[4..] == Wide(Utf32Le, text[1..]);
    }
  }

  function UnitAt(s: seq<Byte>, k: nat): nat
    requires 4 * k + 3 < |s|
  {
    var b0: nat, b1: nat, b2: nat, b3: nat := s[4 * k], s[4 * k + 1], s[4 * k + 2], s[4 * k + 3];
    b0 + 0x100 * b1 + 0x10000 * b2 + 0x1000000 * b3
  }

  ghost predicate UnitIsScalar(s: seq<Byte>, k: nat) {
    4 * k + 3 < |s| ==> UnitAt(s, k) <= 0x10ffff && !(0xd800 <= UnitAt(s, k) < 0xe000)
  }

  /** After a mark that both encodings share, four-byte text is recognised by its units: whole ones, and each a
      character. */
  lemma {:induction false} ScalarsAre(s: seq<Byte>)
    ensures ScalarsLe(s) <==> |s| % 4 == 0 && forall k: nat :: UnitIsScalar(s, k)
  {
    if |s| >= 4 {
      ScalarsAre(s[4..]);
      forall k: nat ensures UnitIsScalar(s[4..], k) <==> UnitIsScalar(s, k + 1) {}
      if forall k: nat :: UnitIsScalar(s, k) {
        assert UnitIsScalar(s, 0);
        forall k: nat ensures UnitIsScalar(s[4..], k) { assert UnitIsScalar(s, k + 1); }
      }
      if ScalarsLe(s) {
        forall k: nat ensures UnitIsScalar(s, k) { if k > 0 { assert UnitIsScalar(s[4..], k - 1); } }
      }
    }
  }

  /** What a prefix says, byte by byte. */
  lemma StartsAre(text: seq<Byte>, prefix: seq<Byte>)
    ensures StartsWith(text, prefix) <==> |prefix| <= |text| && forall i :: 0 <= i < |prefix| ==> text[i] == prefix[i]
  {
    if StartsWith(text, prefix) {
      forall i | 0 <= i < |prefix| ensures text[i] == prefix[i] { assert text[..|prefix|][i] == text[i]; }
    }
  }

  lemma MarkIs(e: Encoding, text: seq<Byte>)
    requires StartsWith(text, Mark(e))
    requires e.Utf16Le? ==> !StartsWith(text, Mark(Utf32Le))
    requires e.Utf32Le? ==> ScalarsLe(text[4..])
    ensures Detect(text) == Some(e)
  {
    hide ScalarsLe, Guess;
    StartsAre(text, Mark(Utf16Le));
    StartsAre(text, Mark(Utf16Be));
    StartsAre(text, Mark(Utf32Le));
    StartsAre(text, Mark(Utf32Be));
  }

  lemma NoMarkIs(text: seq<Byte>)
    requires forall e :: !StartsWith(text, Mark(e))
    ensures Detect(text) == Guess(text)
  {
    assert !StartsWith(text, Mark(Utf16Le)) && !StartsWith(text, Mark(Utf16Be));
    assert !StartsWith(text, Mark(Utf32Le)) && !StartsWith(text, Mark(Utf32Be));
  }

  /** The first bytes of text of two characters and more. */
  lemma WideBegins(e: Encoding, text: seq<Byte>)
    requires |text| >= 2
    ensures forall i :: 0 <= i < UnitSize(e) ==> Wide(e, text)[i] == if i == CharAt(e) then text[0] else 0
    ensures UnitSize(e) == 2 ==> Wide(e, text)[2 + CharAt(e)] == text[1] && Wide(e, text)[3 - CharAt(e)] == 0
  {
    assert Wide(e, text[1..]) == Unit(e, text[1]) + Wide(e, text[1..][1..]);
  }

  lemma TextHasNoMark(e: Encoding, text: seq<Byte>, m: Encoding)
    requires IsAsciiText(text) && |text| >= 4
    ensures !StartsWith(Wide(e, text), Mark(m))
  {
    hide Wide;
    WideBegins(e, text);
    var w := Wide(e, text);
    assert text[0] > 0 && text[1] > 0;
    assert w[0] == if CharAt(e) == 0 then text[0] else 0;
    assert w[1] == if CharAt(e) == 1 then text[0] else 0;
    assert UnitSize(e) == 4 ==> w[2] == 0;
    StartsAre(w, Mark(m));
  }

  /** ASCII text in any of the four encodings is recognised as what it is: with its mark always, and without one from
      four characters on. */
  lemma TextIsDetected(e: Encoding, text: seq<Byte>)
    requires IsAsciiText(text)
    ensures Detect(Mark(e) + Wide(e, text)) == Some(e)
    ensures |text| >= 4 ==> Detect(Wide(e, text)) == Some(e)
  {
    hide Detect, Guess, Wide, Mark, StartsWith, IsAsciiText;
    MarkedIsDetected(e, text);
    if |text| >= 4 {
      TextIsGuessed(e, text);
      forall m ensures !StartsWith(Wide(e, text), Mark(m)) { TextHasNoMark(e, text, m); }
      NoMarkIs(Wide(e, text));
    }
  }

  lemma MarkedIsDetected(e: Encoding, text: seq<Byte>)
    requires IsAsciiText(text)
    ensures Detect(Mark(e) + Wide(e, text)) == Some(e)
  {
    hide Detect, ScalarsLe, StartsWith;
    var marked := Mark(e) + Wide(e, text);
    assert marked[|Mark(e)|..] == Wide(e, text);
    AsciiIsScalar(text);
    StartsAre(marked, Mark(e));
    if e.Utf16Le? {
      StartsAre(marked, Mark(Utf32Le));
      if |text| > 0 { assert Wide(e, text)[0] == text[0]; }
    }
    MarkIs(e, marked);
  }

  /** Bytes without zeros and without a mark are neither decoded nor kept. */
  lemma TextIsNotUnicode(input: seq<Byte>)
    requires forall i :: 0 <= i < |input| ==> input[i] != 0
    requires !StartsWith(input, [0xff, 0xfe]) && !StartsWith(input, [0xfe, 0xff])
    ensures Detect(input) == None && !PossibleUnicode(input)
  {
    NoNulls(input);
    forall m ensures !StartsWith(input, Mark(m)) { StartsAre(input, Mark(m)); }
    NoMarkIs(input);
  }

  /** In units of two or four bytes, every lane of zeros is zeros. */
  lemma {:induction false} NullLanes(units: nat, k: nat, stride: nat)
    requires k < stride && (stride == 2 || stride == 4)
    ensures Lane(Nulls(units * stride), k, stride) == Nulls(units)
  {
    var n := units * stride;
    AllNulls(n);
    if units > 0 {
      NullsFrom(n, stride);
      assert n - stride == (units - 1) * stride;
      NullLanes(units - 1, k, stride);
      NullsAt(n, k);
    }
  }

  lemma {:induction false} NullsFrom(n: nat, k: nat)
    requires k <= n
    ensures |Nulls(n)| == n && Nulls(n)[k..] == Nulls(n - k)
  {
    AllNulls(n);
    if k > 0 {
      NullsFrom(n - 1, k - 1);
      assert Nulls(n)[k..] == Nulls(n)[1..][k - 1..];
    }
  }

  lemma NullsAt(n: nat, k: nat)
    requires k < n
    ensures |Nulls(n)| == n && Nulls(n)[k] == 0
  {
    NullsFrom(n, k);
    assert Nulls(n)[k..][0] == Nulls(n)[k];
  }

  /** Zeros alone are no text, in whatever units. */
  lemma NullsAreNoText(n: nat)
    ensures Detect(Nulls(n)) == None
  {
    hide Lane, Score, Guess;
    var input := Nulls(n);
    AllNulls(n);
    forall m ensures !StartsWith(input, Mark(m)) {
      StartsAre(input, Mark(m));
      if n > 2 { NullsAt(n, 0); NullsAt(n, 2); }
    }
    NoMarkIs(input);
    hide Detect, StartsWith;
    ZeroCountsAreInvisible(input);
    if n >= 8 && n % 2 == 0 {
      assert n / 2 * 2 == n && (n % 4 == 0 ==> n / 4 * 4 == n);
      NullLanesScore(n / 2, 2);
      assert Score(input, 0, 2) && Score(input, 1, 2);
      if n % 4 == 0 {
        NullLanesScore(n / 4, 4);
        assert Score(input, 0, 4) && Score(input, 3, 4);
      }
    }
  }

  lemma NullLanesScore(units: nat, stride: nat)
    requires units > 1 && (stride == 2 || stride == 4)
    ensures forall k :: 0 <= k < stride ==> Score(Nulls(units * stride), k, stride)
  {
    hide Score, Lane;
    forall k | 0 <= k < stride ensures Score(Nulls(units * stride), k, stride) {
      NullLanes(units, k, stride);
      AllNulls(units);
      NullLane(Nulls(units * stride), k, stride);
    }
  }
}
