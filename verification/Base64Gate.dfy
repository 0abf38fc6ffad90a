/**
 * The gate that keeps every blob with Base64 in it that decodes to ASCII.
 *
 * It never decodes: the high bit of each decoded byte can be read off the
 * symbols. What it says of real encodings (sections 4 and 5 of RFC 4648) is exact.
 */
module Base64Gate {
  import opened Bytes

  const PAD: Byte := '=' as int

  predicate IsBase64Byte(b: Byte) {
    'A' as int <= b <= 'Z' as int || 'a' as int <= b <= 'z' as int || '0' as int <= b <= '9' as int
    || b == '+' as int || b == '/' as int || b == '-' as int || b == '_' as int
  }

  function Sextet(b: Byte): (r: nat)
    ensures r < 64
  {
    if 'A' as int <= b <= 'Z' as int then b - 'A' as int
    else if 'a' as int <= b <= 'z' as int then b - 'a' as int + 26
    else if '0' as int <= b <= '9' as int then b - '0' as int + 52
    else if b == '+' as int || b == '-' as int then 62
    else if b == '/' as int || b == '_' as int then 63
    else 0
  }

  predicate AsciiQuartet(a: Byte, b: Byte, c: Byte, d: Byte) {
    Sextet(a) < 32
    && (c == PAD || Sextet(b) / 8 % 2 == 0)
    && (d == PAD || Sextet(c) / 2 % 2 == 0)
  }

  /** Whole quartets only; a shorter rest is not looked at. */
  predicate DecodesToAscii(s: seq<Byte>) {
    |s| < 4 || (AsciiQuartet(s[0], s[1], s[2], s[3]) && DecodesToAscii(s[4..]))
  }

  // ----- encodings

  datatype Alphabet = Standard | UrlSafe

  /** The symbol of a six-bit value in either alphabet. */
  function Symbol(a: Alphabet, v: nat): (r: Byte)
    requires v < 64
    ensures IsBase64Byte(r) && Sextet(r) == v && r != PAD
  {
    if v < 26 then 'A' as int + v
    else if v < 52 then 'a' as int + v - 26
    else if v < 62 then '0' as int + v - 52
    else if v == 62 then (if a.Standard? then '+' as int else '-' as int)
    else if a.Standard? then '/' as int else '_' as int
  }

  /** Nothing else is taken for a symbol. */
  lemma OnlySymbolsAreBase64(b: Byte)
    ensures IsBase64Byte(b) <==> exists a, v: nat :: v < 64 && Symbol(a, v) == b
  {
    if IsBase64Byte(b) {
      assert Symbol(Standard, Sextet(b)) == b || Symbol(UrlSafe, Sextet(b)) == b;
    }
  }

  function Pads(n: nat): seq<Byte>
    requires n <= 2
  {
    [PAD, PAD][..n]
  }

  /** The symbols of an encoding, without its padding. */
  function Symbols(a: Alphabet, p: seq<Byte>): (r: seq<Byte>) {
    if p == [] then []
    else if |p| == 1 then [Symbol(a, p[0] / 4), Symbol(a, p[0] % 4 * 16)]
    else if |p| == 2 then [Symbol(a, p[0] / 4), Symbol(a, p[0] % 4 * 16 + p[1] / 16), Symbol(a, p[1] % 16 * 4)]
    else [Symbol(a, p[0] / 4), Symbol(a, p[0] % 4 * 16 + p[1] / 16), Symbol(a, p[1] % 16 * 4 + p[2] / 64),
          Symbol(a, p[2] % 64)]
         + Symbols(a, p[3..])
  }

  function Padding(p: seq<Byte>): nat {
    (3 - |p| % 3) % 3
  }

  function Encode(a: Alphabet, p: seq<Byte>): seq<Byte> {
    Symbols(a, p) + Pads(Padding(p))
  }

  /** Test vectors of section 10 of RFC 4648: "f", "fo" and "foo" give "Zg==", "Zm8=" and "Zm9v". */
  lemma TestVectors()
    ensures Encode(Standard, [102]) == ['Z' as int, 'g' as int, PAD, PAD]
    ensures Encode(Standard, [102, 111]) == ['Z' as int, 'm' as int, '8' as int, PAD]
    ensures Encode(Standard, [102, 111, 111]) == ['Z' as int, 'm' as int, '9' as int, 'v' as int]
  {
    var foo: seq<Byte> := [102, 111, 111];
    assert foo[3..] == [];
  }

  ghost predicate IsAscii(p: seq<Byte>) {
    forall i :: 0 <= i < |p| ==> p[i] < 128
  }

  lemma {:induction false} SymbolsShape(a: Alphabet, p: seq<Byte>)
    ensures forall i :: 0 <= i < |Symbols(a, p)| ==> IsBase64Byte(Symbols(a, p)[i])
    ensures |Symbols(a, p)| == |p| / 3 * 4 + (if |p| % 3 == 0 then 0 else |p| % 3 + 1)
  {
    if |p| >= 3 { SymbolsShape(a, p[3..]); }
  }

  /** The high bits of three bytes, read off their four symbols. */
  lemma QuartetIsExact(a: Alphabet, x: Byte, y: Byte, z: Byte)
    ensures (AsciiQuartet(Symbol(a, x / 4), Symbol(a, x % 4 * 16 + y / 16), Symbol(a, y % 16 * 4 + z / 64),
                          Symbol(a, z % 64))
             <==> x < 128 && y < 128 && z < 128)
  {
    hide Symbol;
    HighBitOfSecond(x % 4, y);
    HighBitOfThird(y % 16, z);
  }

  /** Adding a multiple of twice the bit leaves the bit alone. */
  lemma HighBitOfSecond(high: nat, low: Byte)
    ensures (high * 16 + low / 16) / 8 % 2 == 0 <==> low < 128
  {
    var q := low / 16;
    assert (high * 16 + q) / 8 == high * 2 + q / 8;
  }

  lemma HighBitOfThird(high: nat, low: Byte)
    ensures (high * 4 + low / 64) / 2 % 2 == 0 <==> low < 128
  {
    var q := low / 64;
    assert (high * 4 + q) / 2 == high * 2 + q / 2;
  }

  lemma OneByteIsExact(a: Alphabet, x: Byte)
    ensures DecodesToAscii(Encode(a, [x])) <==> x < 128
  {
    hide Symbol;
    var e := Encode(a, [x]);
    assert e == [Symbol(a, x / 4), Symbol(a, x % 4 * 16), PAD, PAD];
    assert e[4..] == [];
  }

  lemma TwoBytesAreExact(a: Alphabet, x: Byte, y: Byte)
    ensures DecodesToAscii(Encode(a, [x, y])) <==> x < 128 && y < 128
  {
    hide Symbol;
    var e := Encode(a, [x, y]);
    assert e == [Symbol(a, x / 4), Symbol(a, x % 4 * 16 + y / 16), Symbol(a, y % 16 * 4), PAD];
    assert e[4..] == [];
    HighBitOfSecond(x % 4, y);
  }

  lemma TailIsExact(a: Alphabet, p: seq<Byte>)
    requires 1 <= |p| <= 2
    ensures DecodesToAscii(Encode(a, p)) <==> IsAscii(p)
  {
    hide DecodesToAscii, Encode;
    if |p| == 1 {
      assert p == [p[0]];
      OneByteIsExact(a, p[0]);
    } else {
      assert p == [p[0], p[1]];
      TwoBytesAreExact(a, p[0], p[1]);
    }
  }

  lemma EncodeStep(a: Alphabet, p: seq<Byte>)
    requires |p| >= 3
    ensures |Encode(a, p)| >= 4 && Encode(a, p)[4..] == Encode(a, p[3..])
    ensures Encode(a, p)[0] == Symbol(a, p[0] / 4) && Encode(a, p)[1] == Symbol(a, p[0] % 4 * 16 + p[1] / 16)
    ensures Encode(a, p)[2] == Symbol(a, p[1] % 16 * 4 + p[2] / 64) && Encode(a, p)[3] == Symbol(a, p[2] % 64)
  {
    hide Symbol;
    assert Padding(p) == Padding(p[3..]);
  }

  lemma AsciiStep(p: seq<Byte>)
    requires |p| >= 3
    ensures IsAscii(p) <==> p[0] < 128 && p[1] < 128 && p[2] < 128 && IsAscii(p[3..])
  {
    assert forall i :: 3 <= i < |p| ==> p[i] == p[3..][i - 3];
  }

  /** On an encoding the gate is exact: it passes if and only if the payload is ASCII. */
  lemma {:induction false} EncodingIsExact(a: Alphabet, p: seq<Byte>)
    ensures DecodesToAscii(Encode(a, p)) <==> IsAscii(p)
  {
    hide Symbol, AsciiQuartet, IsAscii, Encode;
    if |p| >= 3 {
      EncodingIsExact(a, p[3..]);
      QuartetIsExact(a, p[0], p[1], p[2]);
      EncodeStep(a, p);
      AsciiStep(p);
    } else if |p| > 0 {
      TailIsExact(a, p);
    } else {
      EmptyIsExact(a);
    }
  }

  lemma EmptyIsExact(a: Alphabet)
    ensures DecodesToAscii(Encode(a, [])) && IsAscii([])
  {
  }

  /** Leaving out the padding changes nothing that a decoder of whole quartets accepts. */
  lemma UnpaddedQuartets(a: Alphabet, p: seq<Byte>)
    requires |Symbols(a, p)| % 4 == 0
    ensures Symbols(a, p) == Encode(a, p)
  {
    hide Symbols;
    SymbolsShape(a, p);
    var m := |p| % 3;
    assert m == 0 || m == 1 || m == 2;
    assert m == 0;
    assert Symbols(a, p) + [] == Symbols(a, p);
  }

  // ----- runs

  /**
   * b[s..e] is a maximal run of Base64 symbols and b[e..t] the padding behind it:
   * at most two pads, and as many of them as there are.
   */
  predicate Run(b: seq<Byte>, s: nat, e: nat, t: nat) {
    && s < e <= t <= |b|
    && (forall i :: s <= i < e ==> IsBase64Byte(b[i]))
    && (s > 0 ==> !IsBase64Byte(b[s - 1]))
    && (e < |b| ==> !IsBase64Byte(b[e]))
    && t - e <= 2
    && (forall i :: e <= i < t ==> b[i] == PAD)
    && (t - e == 2 || t == |b| || b[t] != PAD)
  }

  predicate Accepted(b: seq<Byte>, s: nat, t: nat)
    requires s <= t <= |b|
  {
    t - s >= 32 && (t - s) % 4 == 0 && DecodesToAscii(b[s..t])
  }

  /** Some standalone run is long enough, whole, and shows no high bit. */
  ghost predicate HasAsciiRun(b: seq<Byte>) {
    exists s: nat, e: nat, t: nat :: Run(b, s, e, t) && Accepted(b, s, t)
  }

  /** A run is fixed by where it starts. */
  lemma RunIsUnique(b: seq<Byte>, s: nat, e: nat, t: nat, e': nat, t': nat)
    requires Run(b, s, e, t) && Run(b, s, e', t')
    ensures e == e' && t == t'
  {
  }

  /** One pass over the buffer finds an accepted run if and only if there is one. */
  method PossibleBase64(b: seq<Byte>) returns (found: bool)
    ensures found <==> HasAsciiRun(b)
  {
    hide DecodesToAscii;
    var i := 0;
    while i < |b|
      invariant 0 <= i <= |b|
      invariant 0 < i < |b| ==> !IsBase64Byte(b[i]) || !IsBase64Byte(b[i - 1])
      invariant forall s: nat, e: nat, t: nat :: s < i && Run(b, s, e, t) ==> !Accepted(b, s, t)
    {
      ghost var entry := i;
      while i < |b| && !IsBase64Byte(b[i])
        invariant entry <= i <= |b|
        invariant forall k :: entry <= k < i ==> !IsBase64Byte(b[k])
      {
        i := i + 1;
      }
      var start := i;
      while i < |b| && IsBase64Byte(b[i])
        invariant start <= i <= |b|
        invariant forall k :: start <= k < i ==> IsBase64Byte(b[k])
      {
        i := i + 1;
      }
      ghost var stop := i;
      var pads := 0;
      while pads < 2 && i < |b| && b[i] == PAD
        invariant stop <= i <= |b| && pads == i - stop <= 2
        invariant forall k :: stop <= k < i ==> b[k] == PAD
      {
        i := i + 1;
        pads := pads + 1;
      }
      if start < stop { assert Run(b, start, stop, i); }
      if i - start >= 32 && (i - start) % 4 == 0 && DecodesToAscii(b[start..i]) {
        assert Accepted(b, start, i);
        return true;
      }
      forall s: nat, e: nat, t: nat | s < i && Run(b, s, e, t) ensures !Accepted(b, s, t) {
        assert IsBase64Byte(b[s]) && (s > 0 ==> !IsBase64Byte(b[s - 1]));
        if s == start { RunIsUnique(b, s, e, t, stop, i); }
      }
    }
    return false;
  }

  // ----- what the gate says of buffers that hold an encoding

  /** Nothing beside the encoding belongs to its run. */
  predicate Delimits(prefix: seq<Byte>, suffix: seq<Byte>) {
    (prefix != [] ==> !IsBase64Byte(prefix[|prefix| - 1]))
    && (suffix != [] ==> !IsBase64Byte(suffix[0]) && suffix[0] != PAD)
  }

  lemma EncodingIsARun(prefix: seq<Byte>, a: Alphabet, p: seq<Byte>, suffix: seq<Byte>)
    requires Delimits(prefix, suffix) && p != []
    ensures Run(prefix + Encode(a, p) + suffix, |prefix|, |prefix| + |Symbols(a, p)|, |prefix| + |Encode(a, p)|)
  {
    hide Symbols, IsBase64Byte;
    SymbolsShape(a, p);
    var b := prefix + Encode(a, p) + suffix;
    forall i | |prefix| <= i < |prefix| + |Symbols(a, p)| ensures IsBase64Byte(b[i]) {
      assert b[i] == Symbols(a, p)[i - |prefix|];
    }
    NoSymbol();
  }

  lemma NoSymbol()
    ensures !IsBase64Byte(PAD)
  {
  }

  /** An ASCII payload of 22 bytes or more is found wherever its encoding stands alone. */
  lemma EmbeddedEncodingIsFound(prefix: seq<Byte>, a: Alphabet, p: seq<Byte>, suffix: seq<Byte>)
    requires Delimits(prefix, suffix) && |Encode(a, p)| >= 32 && IsAscii(p)
    ensures HasAsciiRun(prefix + Encode(a, p) + suffix)
  {
    hide Run, Encode, Symbols, DecodesToAscii, IsAscii, Delimits;
    var b, s, t := prefix + Encode(a, p) + suffix, |prefix|, |prefix| + |Encode(a, p)|;
    EncodingLength(a, p);
    EncodingIsARun(prefix, a, p, suffix);
    EncodingIsExact(a, p);
    assert b[s..t] == Encode(a, p);
    assert Accepted(b, s, t);
  }

  lemma EncodingLength(a: Alphabet, p: seq<Byte>)
    ensures |Encode(a, p)| % 4 == 0
    ensures |Encode(a, p)| > 0 ==> p != []
  {
    hide Symbols;
    SymbolsShape(a, p);
    assert |Pads(Padding(p))| == Padding(p);
    var q, m := |p| / 3, |p| % 3;
    assert m == 0 || m == 1 || m == 2;
  }

  /** With no other symbols around it, the gate passes if and only if the payload is ASCII. */
  lemma LoneEncodingIsExact(prefix: seq<Byte>, a: Alphabet, p: seq<Byte>, suffix: seq<Byte>)
    requires Delimits(prefix, suffix) && |Encode(a, p)| >= 32
    requires forall x :: x in prefix + suffix ==> !IsBase64Byte(x)
    ensures HasAsciiRun(prefix + Encode(a, p) + suffix) <==> IsAscii(p)
  {
    if IsAscii(p) {
      EmbeddedEncodingIsFound(prefix, a, p, suffix);
    }
    var b := prefix + Encode(a, p) + suffix;
    if s: nat, e: nat, t: nat :| Run(b, s, e, t) && Accepted(b, s, t) {
      hide Run, Encode, Symbols, DecodesToAscii, IsAscii, Delimits, IsBase64Byte;
      EncodingLength(a, p);
      EncodingIsARun(prefix, a, p, suffix);
      StartsAtEncoding(prefix, a, p, suffix, s, e, t);
      RunIsUnique(b, s, e, t, |prefix| + |Symbols(a, p)|, |prefix| + |Encode(a, p)|);
      assert b[s..t] == Encode(a, p);
      EncodingIsExact(a, p);
    }
  }

  lemma StartsAtEncoding(prefix: seq<Byte>, a: Alphabet, p: seq<Byte>, suffix: seq<Byte>, s: nat, e: nat, t: nat)
    requires forall x :: x in prefix + suffix ==> !IsBase64Byte(x)
    requires Run(prefix + Encode(a, p) + suffix, s, e, t)
    ensures s == |prefix|
  {
    hide Symbols, IsBase64Byte;
    var b, n := prefix + Encode(a, p) + suffix, |Symbols(a, p)|;
    SymbolsShape(a, p);
    NoSymbol();
    assert forall i :: 0 <= i < |prefix| ==> prefix[i] in prefix + suffix;
    assert forall i :: 0 <= i < |suffix| ==> suffix[i] in prefix + suffix;
    assert forall i :: 0 <= i < n ==> b[|prefix| + i] == Symbols(a, p)[i];
    assert forall i :: |prefix| <= i < |prefix| + n ==> IsBase64Byte(b[i]);
    assert IsBase64Byte(b[s]) && (s > 0 ==> !IsBase64Byte(b[s - 1]));
    assert |prefix| <= s < |prefix| + n;
  }

  // ----- the ordinary decoder

  /** The texts the three decoders take: padded in either alphabet, or URL-safe without padding. */
  ghost predicate Decodes(run: seq<Byte>, p: seq<Byte>) {
    run == Encode(Standard, p) || run == Encode(UrlSafe, p) || run == Symbols(UrlSafe, p)
  }

  /** The decoder keeps a run of at least 32 bytes, in quartets, that decodes to ASCII. */
  ghost predicate DecoderKeeps(b: seq<Byte>, s: nat, e: nat, t: nat, p: seq<Byte>) {
    Run(b, s, e, t) && t - s >= 32 && (t - s) % 4 == 0 && Decodes(b[s..t], p) && IsAscii(p)
  }

  /** Whenever the ordinary decoder would keep something, the gate keeps the blob. */
  lemma GateCoversDecoder(b: seq<Byte>, s: nat, e: nat, t: nat, p: seq<Byte>)
    requires DecoderKeeps(b, s, e, t, p)
    ensures HasAsciiRun(b)
  {
    if b[s..t] == Symbols(UrlSafe, p) { UnpaddedQuartets(UrlSafe, p); }
    EncodingIsExact(Standard, p);
    EncodingIsExact(UrlSafe, p);
    assert Accepted(b, s, t);
  }
}
