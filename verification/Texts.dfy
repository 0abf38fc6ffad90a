/** The order of strings, and their prefixes. */
module Texts {
  predicate TextLess(a: string, b: string) {
    if b == "" then false
    else if a == "" then true
    else a[0] < b[0] || (a[0] == b[0] && TextLess(a[1..], b[1..]))
  }

  lemma {:induction false} TextTotal(a: string, b: string)
    ensures TextLess(a, b) || a == b || TextLess(b, a)
    ensures !(TextLess(a, b) && TextLess(b, a)) && !TextLess(a, a)
  {
    if a != "" && b != "" {
      TextTotal(a[1..], b[1..]);
      assert a == [a[0]] + a[1..] && b == [b[0]] + b[1..];
    }
    TextIrreflexive(a);
  }

  lemma {:induction false} TextIrreflexive(a: string)
    ensures !TextLess(a, a)
  {
    if a != "" { TextIrreflexive(a[1..]); }
  }

  lemma {:induction false} TextTransitive(a: string, b: string, c: string)
    requires TextLess(a, b) && TextLess(b, c)
    ensures TextLess(a, c)
  {
    if a != "" && a[0] == b[0] == c[0] { TextTransitive(a[1..], b[1..], c[1..]); }
  }

  /** They agree up to the position, and there the first is over or has the smaller character. */
  ghost predicate DiffersAt(a: string, b: string, k: nat) {
    k <= |a| && k < |b| && a[..k] == b[..k] && (k == |a| || a[k] < b[k])
  }

  lemma DiffersAfterHead(a: string, b: string, k: nat)
    requires a != "" && b != "" && a[0] == b[0] && DiffersAt(a[1..], b[1..], k)
    ensures DiffersAt(a, b, k + 1)
  {
    assert a[..k + 1] == [a[0]] + a[1..][..k] && b[..k + 1] == [b[0]] + b[1..][..k];
  }

  lemma DiffersInTail(a: string, b: string, k: nat)
    requires DiffersAt(a, b, k) && k > 0
    ensures a != "" && a[0] == b[0] && DiffersAt(a[1..], b[1..], k - 1)
  {
    assert a[0] == a[..k][0] == b[..k][0];
    assert a[1..][..k - 1] == a[..k][1..] && b[1..][..k - 1] == b[..k][1..];
  }

  /** Smaller at the first difference, or a proper prefix. */
  lemma {:induction false} TextLessMeans(a: string, b: string)
    ensures TextLess(a, b) <==> exists k :: DiffersAt(a, b, k)
  {
    if a == "" || b == "" || a[0] < b[0] {
      if b != "" { assert DiffersAt(a, b, 0); }
      return;
    }
    TextLessMeans(a[1..], b[1..]);
    hide DiffersAt;
    if TextLess(a, b) {
      var k :| DiffersAt(a[1..], b[1..], k);
      DiffersAfterHead(a, b, k);
    }
    if k :| DiffersAt(a, b, k) {
      LaterDifference(a, b, k);
      DiffersInTail(a, b, k);
    }
  }

  lemma LaterDifference(a: string, b: string, k: nat)
    requires a != "" && b != "" && !(a[0] < b[0]) && DiffersAt(a, b, k)
    ensures k > 0
  {
  }

  // ----- prefixes

  predicate StartsWith<T(==)>(text: seq<T>, prefix: seq<T>) {
    |prefix| <= |text| && text[..|prefix|] == prefix
  }

  /** The prefixes of one text are prefixes of each other. */
  lemma PrefixesAreComparable(text: string, p: string, q: string)
    requires StartsWith(text, p) && StartsWith(text, q)
    ensures StartsWith(p, q) || StartsWith(q, p)
  {
    if |q| <= |p| { assert p[..|q|] == text[..|q|]; } else { assert q[..|p|] == text[..|p|]; }
  }

  lemma StartsWithTransitive(text: string, p: string, q: string)
    requires StartsWith(text, p) && StartsWith(p, q)
    ensures StartsWith(text, q)
  {
    assert text[..|q|] == text[..|p|][..|q|];
  }

  /** What lies between a prefix and a text that has it, has it too. */
  lemma {:induction false} PrefixBetween(prefix: string, middle: string, text: string)
    requires StartsWith(text, prefix)
    requires !TextLess(middle, prefix) && !TextLess(text, middle)
    ensures StartsWith(middle, prefix)
  {
    if prefix != "" {
      assert middle != "" && text != "" && text[0] == prefix[0] == middle[0];
      assert text[1..][..|prefix| - 1] == text[..|prefix|][1..] == prefix[1..];
      PrefixBetween(prefix[1..], middle[1..], text[1..]);
      assert middle == [middle[0]] + middle[1..] && prefix == [prefix[0]] + prefix[1..];
    }
  }

  // ----- sorting

  ghost predicate SortedTexts(s: seq<string>) {
    forall i, j :: 0 <= i < j < |s| ==> !TextLess(s[j], s[i])
  }

  function InsertText(s: seq<string>, x: string): (r: seq<string>)
    ensures multiset(r) == multiset(s) + multiset{x}
  {
    if s == [] || !TextLess(s[0], x) then [x] + s
    else
      assert s == [s[0]] + s[1..];
      [s[0]] + InsertText(s[1..], x)
  }

  function SortTexts(s: seq<string>): (r: seq<string>)
    ensures multiset(r) == multiset(s)
  {
    if s == [] then []
    else
      assert s == [s[0]] + s[1..];
      InsertText(SortTexts(s[1..]), s[0])
  }

  lemma {:induction false} InsertTextKeepsSorted(s: seq<string>, x: string)
    requires SortedTexts(s)
    ensures SortedTexts(InsertText(s, x))
  {
    if s == [] || !TextLess(s[0], x) {
      forall j | 0 <= j < |s| ensures !TextLess(s[j], x) {
        TextTotal(s[0], s[0]);
        NotLessTransitive(x, s[0], s[j]);
      }
    } else {
      InsertTextKeepsSorted(s[1..], x);
      TextTotal(s[0], x);
      var r := InsertText(s[1..], x);
      forall j | 0 <= j < |r| ensures !TextLess(r[j], s[0]) {
        assert r[j] in multiset(r);
        if r[j] != x { assert r[j] in s[1..]; }
      }
    }
  }

  lemma NotLessTransitive(a: string, b: string, c: string)
    requires !TextLess(b, a) && !TextLess(c, b)
    ensures !TextLess(c, a)
  {
    TextTotal(a, b);
    TextTotal(b, c);
    if TextLess(c, a) {
      if a != b { TextTransitive(c, a, b); }
    }
  }

  lemma {:induction false} SortTextsSorts(s: seq<string>)
    ensures SortedTexts(SortTexts(s))
  {
    if s != [] {
      SortTextsSorts(s[1..]);
      InsertTextKeepsSorted(SortTexts(s[1..]), s[0]);
    }
  }
}
