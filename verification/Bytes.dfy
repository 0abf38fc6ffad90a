/** Octets, and the counts and lanes the content gates take of them. */
module Bytes {
  type Byte = x: int | 0 <= x < 256

  function Flat(parts: seq<seq<Byte>>): seq<Byte> {
    if parts == [] then [] else Flat(parts[..|parts| - 1]) + parts[|parts| - 1]
  }

  function CountZeros(s: seq<Byte>): (r: nat)
    ensures r <= |s|
  {
    if s == [] then 0 else (if s[0] == 0 then 1 else 0) + CountZeros(s[1..])
  }

  lemma {:induction false} CountZerosConcat(a: seq<Byte>, b: seq<Byte>)
    ensures CountZeros(a + b) == CountZeros(a) + CountZeros(b)
  {
    if a == [] {
      assert a + b == b;
    } else {
      assert (a + b)[1..] == a[1..] + b;
      CountZerosConcat(a[1..], b);
    }
  }

  /** Every `stride`-th byte from `offset`, one of each whole stride. */
  function Lane(s: seq<Byte>, offset: nat, stride: nat): seq<Byte>
    requires offset < stride
    decreases |s|
  {
    if |s| < stride then [] else [s[offset]] + Lane(s[stride..], offset, stride)
  }

  /** The lanes of two-byte units share out the zeros of a buffer. */
  lemma {:induction false} TwoLanes(s: seq<Byte>)
    requires |s| % 2 == 0
    ensures |Lane(s, 0, 2)| == |Lane(s, 1, 2)| == |s| / 2
    ensures CountZeros(s) == CountZeros(Lane(s, 0, 2)) + CountZeros(Lane(s, 1, 2))
    decreases |s|
  {
    if s != [] {
      TwoLanes(s[2..]);
      assert s == [s[0]] + ([s[1]] + s[2..]);
    }
  }

  /** And so do the lanes of four-byte units. */
  lemma {:induction false} FourLanes(s: seq<Byte>)
    requires |s| % 4 == 0
    ensures |Lane(s, 0, 4)| == |Lane(s, 1, 4)| == |Lane(s, 2, 4)| == |Lane(s, 3, 4)| == |s| / 4
    ensures (CountZeros(s) == CountZeros(Lane(s, 0, 4)) + CountZeros(Lane(s, 1, 4))
                              + CountZeros(Lane(s, 2, 4)) + CountZeros(Lane(s, 3, 4)))
    decreases |s|
  {
    if s != [] {
      FourLanes(s[4..]);
      FirstFour(s);
    }
  }

  lemma CountHead(s: seq<Byte>)
    requires s != []
    ensures CountZeros(s) == CountZeros([s[0]]) + CountZeros(s[1..])
  {
  }

  lemma FirstFour(s: seq<Byte>)
    requires |s| >= 4
    ensures (CountZeros(s) == CountZeros([s[0]]) + CountZeros([s[1]]) + CountZeros([s[2]])
                             + CountZeros([s[3]]) + CountZeros(s[4..]))
  {
    hide CountZeros;
    CountHead(s);
    CountHead(s[1..]);
    CountHead(s[2..]);
    CountHead(s[3..]);
    assert s[1..][1..] == s[2..] && s[2..][1..] == s[3..] && s[3..][1..] == s[4..];
  }
}
