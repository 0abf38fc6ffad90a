/**
 * The gate a blob passes before Git history is walked for it.
 *
 * A blob that fails is never scanned, so the gate must keep every blob in which
 * the ordinary matcher could find something.
 */
module ContentGates {
  import opened Bytes
  import opened UnicodeGate
  import opened Wrappers
  import opened Base64Gate

  /** How much is scanned at a time, and how much of it is scanned again with the next part. */
  datatype Chunking = Chunking(max: nat, overlap: nat)

  predicate Workable(c: Chunking) { c.overlap < c.max }

  const BASE64_SCAN_LIMIT: nat := 64 * 1024 * 1024

  datatype Segment = Segment(start: nat, end: nat)

  function Min(a: nat, b: nat): nat { if a < b then a else b }

  /** The segments scanned from an offset on. */
  function Segments(c: Chunking, n: nat, offset: nat): (r: seq<Segment>)
    requires Workable(c) && offset <= n
    ensures forall k :: 0 <= k < |r| ==> offset <= r[k].start < r[k].end <= n && r[k].end - r[k].start <= c.max
    decreases n - offset
  {
    if offset == n then []
    else
      var end := Min(offset + c.max, n);
      [Segment(offset, end)] + if end == n then [] else Segments(c, n, end - c.overlap)
  }

  predicate Within(i: nat, j: nat, s: Segment) { s.start <= i && j <= s.end }

  /** A window no longer than the overlap and one byte lies wholly in one segment. */
  lemma {:induction false} WindowIsScanned(c: Chunking, n: nat, offset: nat, i: nat, j: nat)
    requires Workable(c) && offset <= i <= j <= n && offset < n && j - i <= c.overlap + 1
    ensures exists k :: 0 <= k < |Segments(c, n, offset)| && Within(i, j, Segments(c, n, offset)[k])
    decreases n - offset
  {
    var end := Min(offset + c.max, n);
    var r := Segments(c, n, offset);
    FirstSegment(c, n, offset);
    hide Segments;
    if j <= end {
      assert Within(i, j, r[0]);
    } else {
      var rest := Segments(c, n, end - c.overlap);
      assert r == [Segment(offset, end)] + rest;
      WindowIsScanned(c, n, end - c.overlap, i, j);
      var k :| 0 <= k < |rest| && Within(i, j, rest[k]);
      assert r[k + 1] == rest[k];
    }
  }

  /** One byte more and a window across the first boundary is in no segment. */
  lemma LongerWindowIsMissed(c: Chunking, n: nat, k: nat)
    requires Workable(c) && n > c.max && k < |Segments(c, n, 0)|
    ensures !Within(c.max - c.overlap - 1, c.max + 1, Segments(c, n, 0)[k])
  {
    var rest := Segments(c, n, c.max - c.overlap);
    assert Segments(c, n, 0) == [Segment(0, c.max)] + rest;
    if k > 0 { assert Segments(c, n, 0)[k] == rest[k - 1]; }
  }

  // ----- the whole gate

  /** What the gate is set up with: the rules it stands for, and what it may look into. */
  datatype Gate = Gate(rules: nat, archives: bool, base64: bool, unlimited: bool)

  type Scanner = seq<Byte> -> seq<nat>

  predicate Reports(scan: Scanner, rules: nat, segment: seq<Byte>) {
    exists k :: 0 <= k < |scan(segment)| && scan(segment)[k] < rules
  }

  ghost predicate SomeSegmentReports(scan: Scanner, rules: nat, c: Chunking, b: seq<Byte>)
    requires Workable(c)
  {
    exists k {:trigger Segments(c, |b|, 0)[k]} :: 0 <= k < |Segments(c, |b|, 0)|
      && Reports(scan, rules, b[Segments(c, |b|, 0)[k].start..Segments(c, |b|, 0)[k].end])
  }

  ghost predicate Keeps(gate: Gate, c: Chunking, scan: Scanner, archive: seq<Byte> -> bool, b: seq<Byte>)
    requires Workable(c)
  {
    || PossibleUnicode(b)
    || (gate.archives && archive(b))
    || SomeSegmentReports(scan, gate.rules, c, b)
    || (gate.base64 && (gate.unlimited || |b| <= BASE64_SCAN_LIMIT) && HasAsciiRun(b))
  }

  /** Goes through what the scanner reports up to the first of the gate's own rules. */
  method ScanSegment(scan: Scanner, rules: nat, segment: seq<Byte>) returns (found: bool)
    ensures found <==> Reports(scan, rules, segment)
  {
    var reported := scan(segment);
    found := false;
    var k := 0;
    while k < |reported| && !found
      invariant 0 <= k <= |reported|
      invariant found <==> exists i :: 0 <= i < k && reported[i] < rules
    {
      found := reported[k] < rules;
      k := k + 1;
    }
  }

  lemma NextSegment(all: seq<Segment>, done: nat, c: Chunking, n: nat, offset: nat)
    requires Workable(c) && offset < n && done <= |all| && all[done..] == Segments(c, n, offset)
    ensures done < |all| && all[done] == Segment(offset, Min(offset + c.max, n))
    ensures all[done + 1..] == (if offset + c.max >= n then [] else Segments(c, n, offset + c.max - c.overlap))
  {
    assert all[done] == all[done..][0];
    assert all[done + 1..] == all[done..][1..];
  }

  lemma LastSegment(c: Chunking, n: nat)
    requires Workable(c)
    ensures Segments(c, n, n) == []
  {
  }

  method ScanSegments(scan: Scanner, rules: nat, c: Chunking, b: seq<Byte>) returns (found: bool)
    requires Workable(c)
    ensures found <==> SomeSegmentReports(scan, rules, c, b)
  {
    hide Reports, Segments;
    LastSegment(c, |b|);
    ghost var all := Segments(c, |b|, 0);
    ghost var done := 0;
    var offset := 0;
    while offset < |b|
      invariant 0 <= offset <= |b|
      invariant 0 <= done <= |all|
      invariant all[done..] == Segments(c, |b|, offset)
      invariant forall k :: 0 <= k < done ==> !Reports(scan, rules, b[all[k].start..all[k].end])
      decreases |b| - offset
    {
      var end := Min(offset + c.max, |b|);
      NextSegment(all, done, c, |b|, offset);
      found := ScanSegment(scan, rules, b[offset..end]);
      if found {
        return true;
      }
      done := done + 1;
      if end == |b| {
        break;
      }
      offset := end - c.overlap;
    }
    assert done == |all|;
    return false;
  }

  // ----- the ordinary matcher's own pass

  /** The segments the matcher goes through, built up front. */
  method MatcherRanges(c: Chunking, n: nat) returns (ranges: seq<Segment>)
    requires Workable(c)
    ensures ranges == Segments(c, n, 0)
  {
    hide Segments;
    ranges := [];
    LastSegment(c, n);
    var offset := 0;
    while offset < n
      invariant 0 <= offset <= n && ranges + Segments(c, n, offset) == Segments(c, n, 0)
      decreases n - offset
    {
      var end := Min(offset + c.max, n);
      FirstSegment(c, n, offset);
      ranges := ranges + [Segment(offset, end)];
      if end == n {
        return;
      }
      offset := if end < c.overlap then 0 else end - c.overlap;
    }
  }

  lemma FirstSegment(c: Chunking, n: nat, offset: nat)
    requires Workable(c) && offset < n
    ensures (var end := Min(offset + c.max, n);
             Segments(c, n, offset)
             == [Segment(offset, end)] + if end == n then [] else Segments(c, n, end - c.overlap))
  {
  }

  /** What the matcher has to confirm: the rules reported for its segments, last segment first. */
  method RawMatches(scan: Scanner, rules: nat, c: Chunking, b: seq<Byte>) returns (raw: seq<nat>)
    requires Workable(c)
    ensures raw != [] <==> SomeSegmentReports(scan, rules, c, b)
  {
    hide Reports;
    raw := [];
    var ranges := MatcherRanges(c, |b|);
    var k := |ranges|;
    while k > 0
      invariant 0 <= k <= |ranges|
      invariant raw != [] <==> exists i :: k <= i < |ranges| && Reports(scan, rules, b[ranges[i].start..ranges[i].end])
    {
      k := k - 1;
      var more := Reported(scan, rules, b[ranges[k].start..ranges[k].end]);
      raw := raw + more;
    }
  }

  method Reported(scan: Scanner, rules: nat, segment: seq<Byte>) returns (raw: seq<nat>)
    ensures raw != [] <==> Reports(scan, rules, segment)
    ensures forall r :: r in raw ==> r < rules
  {
    var reported := scan(segment);
    raw := [];
    for k := 0 to |reported|
      invariant raw != [] <==> exists i :: 0 <= i < k && reported[i] < rules
      invariant forall r :: r in raw ==> r < rules
    {
      if reported[k] < rules {
        raw := raw + [reported[k]];
      }
    }
  }

  // ----- the gate

  /** The gate passes exactly the blobs with something in them that the matcher may look at. */
  method MayMatch(gate: Gate, c: Chunking, scan: Scanner, archive: seq<Byte> -> bool, b: seq<Byte>) returns (keep: bool)
    requires Workable(c)
    ensures keep <==> Keeps(gate, c, scan, archive, b)
  {
    if PossibleUnicode(b) {
      return true;
    }
    if gate.archives && archive(b) {
      return true;
    }
    hide PossibleUnicode, SomeSegmentReports, HasAsciiRun;
    var found := ScanSegments(scan, gate.rules, c, b);
    if found {
      return true;
    }
    if !gate.base64 || (!gate.unlimited && |b| > BASE64_SCAN_LIMIT) {
      return false;
    }
    keep := PossibleBase64(b);
  }

  // ----- no false negatives

  type Matches = (nat, seq<Byte>) -> bool

  predicate Holds(matches: Matches, rule: nat, s: seq<Byte>, i: nat, j: nat) {
    i <= j <= |s| && matches(rule, s[i..j])
  }

  /** The scanner reports every rule that matches some window of what it is given. */
  ghost predicate FindsWindows(scan: Scanner, matches: Matches) {
    forall s: seq<Byte>, i: nat, j: nat, rule: nat :: Holds(matches, rule, s, i, j) ==> rule in scan(s)
  }

  /** A match no longer than the overlap and one byte is reported by some segment, wherever it lies. */
  lemma MatchIsReported(rules: nat, c: Chunking, scan: Scanner, matches: Matches, b: seq<Byte>, rule: nat, i: nat,
                        j: nat)
    requires Workable(c) && FindsWindows(scan, matches)
    requires b != [] && rule < rules && Holds(matches, rule, b, i, j) && j - i <= c.overlap + 1
    ensures SomeSegmentReports(scan, rules, c, b)
  {
    hide Segments, FindsWindows, Reports, SomeSegmentReports;
    WindowIsScanned(c, |b|, 0, i, j);
    var k :| 0 <= k < |Segments(c, |b|, 0)| && Within(i, j, Segments(c, |b|, 0)[k]);
    var s := Segments(c, |b|, 0)[k];
    WindowOfSegment(b, s.start, s.end, i, j);
    WindowIsFound(scan, rules, matches, b[s.start..s.end], rule, i - s.start, j - s.start);
    SegmentReports(scan, rules, c, b, k);
  }

  lemma WindowIsFound(scan: Scanner, rules: nat, matches: Matches, s: seq<Byte>, rule: nat, i: nat, j: nat)
    requires FindsWindows(scan, matches) && Holds(matches, rule, s, i, j) && rule < rules
    ensures Reports(scan, rules, s)
  {
    assert rule in scan(s);
    var m :| 0 <= m < |scan(s)| && scan(s)[m] == rule;
    assert scan(s)[m] < rules;
  }

  lemma SegmentReports(scan: Scanner, rules: nat, c: Chunking, b: seq<Byte>, k: nat)
    requires Workable(c) && k < |Segments(c, |b|, 0)|
    requires Reports(scan, rules, b[Segments(c, |b|, 0)[k].start..Segments(c, |b|, 0)[k].end])
    ensures SomeSegmentReports(scan, rules, c, b)
  {
    hide Reports, Segments;
  }

  lemma WindowOfSegment(b: seq<Byte>, start: nat, end: nat, i: nat, j: nat)
    requires start <= i <= j <= end <= |b|
    ensures b[start..end][i - start..j - start] == b[i..j]
  {
    var text := b[start..end];
    forall k | 0 <= k < j - i ensures text[i - start..j - start][k] == b[i..j][k] {
      assert text[i - start + k] == b[i + k];
    }
  }

  /** A gate that looks into Base64 keeps every blob within its limit that the decoder finds text in. */
  lemma DecodableIsKept(gate: Gate, c: Chunking, scan: Scanner, archive: seq<Byte> -> bool, b: seq<Byte>, s: nat,
                        e: nat, t: nat, p: seq<Byte>)
    requires Workable(c) && DecoderKeeps(b, s, e, t, p)
    requires gate.base64 && (gate.unlimited || |b| <= BASE64_SCAN_LIMIT)
    ensures Keeps(gate, c, scan, archive, b)
  {
    hide PossibleUnicode, HasAsciiRun, SomeSegmentReports;
    GateCoversDecoder(b, s, e, t, p);
  }

  /** One of the 30 bytes from here on is no symbol. */
  ghost predicate OtherFrom(b: seq<Byte>, i: nat)
    requires i + 30 <= |b|
  {
    exists k :: i <= k < i + 30 && !IsBase64Byte(b[k])
  }

  lemma RunIsShort(b: seq<Byte>, s: nat, e: nat, t: nat)
    requires Run(b, s, e, t) && (s + 30 <= |b| ==> OtherFrom(b, s))
    ensures t - s < 32
  {
  }

  /** Plain text in which nothing is reported and nothing looks like a long Base64 run is not worth walking the history
      for: the gate rejects it. */
  lemma PlainTextIsRejected(gate: Gate, c: Chunking, scan: Scanner, archive: seq<Byte> -> bool, b: seq<Byte>)
    requires Workable(c) && IsAsciiText(b) && !archive(b) && !SomeSegmentReports(scan, gate.rules, c, b)
    requires forall i: nat :: i + 30 <= |b| ==> OtherFrom(b, i)
    ensures !Keeps(gate, c, scan, archive, b)
  {
    hide SomeSegmentReports, IsBase64Byte, DecodesToAscii, PossibleUnicode, Detect;
    StartsAre(b, [0xff, 0xfe]);
    StartsAre(b, [0xfe, 0xff]);
    TextIsNotUnicode(b);
    forall s: nat, e: nat, t: nat | Run(b, s, e, t) ensures !Accepted(b, s, t) { RunIsShort(b, s, e, t); }
  }

  /** A blob the gate rejects is not Unicode in disguise, gives the matcher's own pass nothing to confirm in any of
      its segments, and hides no Base64 text. So it matches no rule in a window no longer than the overlap and one
      byte. */
  lemma RejectedHoldsNothing(gate: Gate, c: Chunking, scan: Scanner, archive: seq<Byte> -> bool, matches: Matches,
                             b: seq<Byte>)
    requires Workable(c) && FindsWindows(scan, matches)
    requires !Keeps(gate, c, scan, archive, b)
    ensures Detect(b) == None
    ensures (forall k {:trigger Segments(c, |b|, 0)[k]} :: 0 <= k < |Segments(c, |b|, 0)| ==>
               !Reports(scan, gate.rules, b[Segments(c, |b|, 0)[k].start..Segments(c, |b|, 0)[k].end]))
    ensures (forall rule: nat, i: nat, j: nat ::
               Holds(matches, rule, b, i, j) && b != [] && j - i <= c.overlap + 1 ==> gate.rules <= rule)
    ensures (gate.base64 && (gate.unlimited || |b| <= BASE64_SCAN_LIMIT) ==>
               forall s: nat, e: nat, t: nat, p: seq<Byte> :: !DecoderKeeps(b, s, e, t, p))
  {
    hide PossibleUnicode, HasAsciiRun, Segments, FindsWindows, Reports;
    if Detect(b).Some? { GateKeepsUnicode(b); }
    forall rule: nat, i: nat, j: nat | Holds(matches, rule, b, i, j) && b != [] && j - i <= c.overlap + 1
      ensures gate.rules <= rule
    {
      if rule < gate.rules { MatchIsReported(gate.rules, c, scan, matches, b, rule, i, j); }
    }
    forall s: nat, e: nat, t: nat, p: seq<Byte>
      ensures gate.base64 && (gate.unlimited || |b| <= BASE64_SCAN_LIMIT) ==> !DecoderKeeps(b, s, e, t, p)
    {
      if DecoderKeeps(b, s, e, t, p) { GateCoversDecoder(b, s, e, t, p); }
    }
  }
}
