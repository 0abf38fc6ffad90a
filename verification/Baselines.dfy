/** Baseline files: what they list, and when two of them are the same. */
module Baselines {
  import opened Wrappers
  import opened Texts

  datatype Entry = Entry(path: string, fingerprint: string, ruleId: string, line: nat, firstSeen: string,
                         lastUpdated: string)

  datatype RepositoryBaseline = RepositoryBaseline(id: string, findings: seq<Entry>)

  datatype BaselineFile = BaselineFile(
    version: Option<nat>, algorithm: Option<string>, repositories: seq<RepositoryBaseline>, exact: seq<string>)

  const BASELINE_VERSION: nat := 2
  const FINGERPRINT_ALGORITHM: string := "kingfisher-v1"

  predicate Supported(b: BaselineFile) {
    && (b.version.Some? ==> b.version.value == BASELINE_VERSION)
    && (b.version == Some(BASELINE_VERSION) ==> b.algorithm == Some(FINGERPRINT_ALGORITHM))
  }

  // ----- the order of findings: path, then line, then rule, then fingerprint text

  /** Path, line and rule decide which of several observations of a finding is kept. */
  datatype Place = Place(path: string, line: nat, ruleId: string)

  predicate Before(a: Place, b: Place) {
    TextLess(a.path, b.path)
    || (a.path == b.path && (a.line < b.line || (a.line == b.line && TextLess(a.ruleId, b.ruleId))))
  }

  lemma BeforeTotal(a: Place, b: Place)
    ensures Before(a, b) || a == b || Before(b, a)
    ensures !(Before(a, b) && Before(b, a)) && !Before(a, a)
  {
    TextTotal(a.path, b.path);
    TextTotal(a.ruleId, b.ruleId);
    TextTotal(a.path, a.path);
    TextTotal(a.ruleId, a.ruleId);
  }

  lemma BeforeTransitive(a: Place, b: Place, c: Place)
    requires Before(a, b) && Before(b, c)
    ensures Before(a, c)
  {
    if TextLess(a.path, b.path) && TextLess(b.path, c.path) { TextTransitive(a.path, b.path, c.path); }
    if TextLess(a.ruleId, b.ruleId) && TextLess(b.ruleId, c.ruleId) { TextTransitive(a.ruleId, b.ruleId, c.ruleId); }
  }

  function PlaceOf(e: Entry): Place { Place(e.path, e.line, e.ruleId) }

  predicate EntryLess(a: Entry, b: Entry) {
    Before(PlaceOf(a), PlaceOf(b)) || (PlaceOf(a) == PlaceOf(b) && TextLess(a.fingerprint, b.fingerprint))
  }

  lemma EntryTotal(a: Entry, b: Entry)
    ensures EntryLess(a, b) || EntryLess(b, a) || (PlaceOf(a) == PlaceOf(b) && a.fingerprint == b.fingerprint)
    ensures !(EntryLess(a, b) && EntryLess(b, a)) && !EntryLess(a, a)
  {
    BeforeTotal(PlaceOf(a), PlaceOf(b));
    BeforeTotal(PlaceOf(a), PlaceOf(a));
    TextTotal(a.fingerprint, b.fingerprint);
    TextTotal(a.fingerprint, a.fingerprint);
  }

  lemma EntryTransitive(a: Entry, b: Entry, c: Entry)
    requires EntryLess(a, b) && EntryLess(b, c)
    ensures EntryLess(a, c)
  {
    if Before(PlaceOf(a), PlaceOf(b)) && Before(PlaceOf(b), PlaceOf(c)) {
      BeforeTransitive(PlaceOf(a), PlaceOf(b), PlaceOf(c));
    } else if PlaceOf(a) == PlaceOf(b) == PlaceOf(c) {
      TextTransitive(a.fingerprint, b.fingerprint, c.fingerprint);
    }
  }

  // ----- sorting and removing adjacent duplicates

  /** No later entry is smaller: `sort_by` leaves ties in their original order. */
  ghost predicate SortedEntries(s: seq<Entry>) {
    forall i, j :: 0 <= i < j < |s| ==> !EntryLess(s[j], s[i])
  }

  function InsertEntry(s: seq<Entry>, x: Entry): (r: seq<Entry>)
    ensures forall y :: y in r <==> y == x || y in s
  {
    if s == [] then [x]
    else if EntryLess(x, s[|s| - 1]) then
      assert s == s[..|s| - 1] + [s[|s| - 1]];
      InsertEntry(s[..|s| - 1], x) + [s[|s| - 1]]
    else s + [x]
  }

  function SortEntries(s: seq<Entry>): (r: seq<Entry>)
    ensures forall y :: y in r <==> y in s
  {
    if s == [] then []
    else
      assert s == s[..|s| - 1] + [s[|s| - 1]];
      InsertEntry(SortEntries(s[..|s| - 1]), s[|s| - 1])
  }

  lemma {:induction false} InsertKeepsSorted(s: seq<Entry>, x: Entry)
    requires SortedEntries(s)
    ensures SortedEntries(InsertEntry(s, x))
  {
    if s != [] {
      var n := |s| - 1;
      var last := s[n];
      if EntryLess(x, last) {
        InsertKeepsSorted(s[..n], x);
        var r := InsertEntry(s[..n], x);
        forall i | 0 <= i < |r| ensures !EntryLess(last, r[i]) {
          assert r[i] in r;
          if r[i] == x { EntryTotal(x, last); }
        }
      } else {
        forall i | 0 <= i < |s| ensures !EntryLess(x, s[i]) {
          if i < n && EntryLess(x, s[i]) {
            EntryTotal(s[i], last);
            if EntryLess(s[i], last) { EntryTransitive(x, s[i], last); }
          }
        }
      }
    }
  }

  lemma {:induction false} SortSorts(s: seq<Entry>)
    ensures SortedEntries(SortEntries(s))
  {
    if s != [] {
      SortSorts(s[..|s| - 1]);
      InsertKeepsSorted(SortEntries(s[..|s| - 1]), s[|s| - 1]);
    }
  }

  lemma {:induction false} SortedIsFixed(s: seq<Entry>)
    requires SortedEntries(s)
    ensures SortEntries(s) == s
  {
    if s != [] {
      var n := |s| - 1;
      SortedIsFixed(s[..n]);
      assert s == s[..n] + [s[n]];
      if n > 0 { assert !EntryLess(s[n], s[n - 1]); }
    }
  }

  /** Keeps the first entry of each run of equal fingerprints. */
  function DedupAdjacent(s: seq<Entry>): (r: seq<Entry>) {
    if s == [] then []
    else
      var n := |s| - 1;
      var rest := DedupAdjacent(s[..n]);
      if rest != [] && rest[|rest| - 1].fingerprint == s[n].fingerprint then rest else rest + [s[n]]
  }

  lemma {:induction false} DedupHas(s: seq<Entry>)
    ensures forall y :: y in DedupAdjacent(s) ==> y in s
  {
    if s != [] {
      DedupHas(s[..|s| - 1]);
      assert s == s[..|s| - 1] + [s[|s| - 1]];
    }
  }

  lemma LastStays(s: seq<Entry>)
    ensures s == [] ==> DedupAdjacent(s) == []
    ensures var r := DedupAdjacent(s); s != [] ==> r != [] && r[|r| - 1].fingerprint == s[|s| - 1].fingerprint
  {
  }

  ghost predicate NoAdjacentDuplicates(s: seq<Entry>) {
    forall i, j :: 0 <= i < j < |s| && j == i + 1 ==> s[i].fingerprint != s[j].fingerprint
  }

  lemma {:induction false} DedupKeepsSorted(s: seq<Entry>)
    requires SortedEntries(s)
    ensures SortedEntries(DedupAdjacent(s)) && NoAdjacentDuplicates(DedupAdjacent(s))
  {
    if s != [] {
      var n := |s| - 1;
      DedupKeepsSorted(s[..n]);
      DedupHas(s[..n]);
      var rest := DedupAdjacent(s[..n]);
      hide EntryLess;
      forall i | 0 <= i < |rest| ensures !EntryLess(s[n], rest[i]) {
        assert rest[i] in s[..n];
      }
    }
  }

  lemma {:induction false} DedupIsFixed(s: seq<Entry>)
    requires NoAdjacentDuplicates(s)
    ensures DedupAdjacent(s) == s
  {
    if s != [] {
      hide DedupAdjacent;
      var n := |s| - 1;
      assert n > 0 ==> s[n - 1].fingerprint != s[n].fingerprint;
      DedupIsFixed(s[..n]);
      DedupSnoc(s[..n], s[n]);
      assert s == s[..n] + [s[n]];
    }
  }

  lemma DedupSnoc(s: seq<Entry>, x: Entry)
    requires DedupAdjacent(s) == s && (s != [] ==> s[|s| - 1].fingerprint != x.fingerprint)
    ensures DedupAdjacent(s + [x]) == s + [x]
  {
    assert (s + [x])[..|s|] == s;
  }

  /** The form in which a baseline lists a repository's findings. */
  function Normal(s: seq<Entry>): (r: seq<Entry>) {
    DedupAdjacent(SortEntries(s))
  }

  function KeyOf(e: Entry): (Place, string) { (PlaceOf(e), e.fingerprint) }

  /** The entries with a key, in order. */
  ghost function WithKey(s: seq<Entry>, key: (Place, string)): (r: seq<Entry>) {
    if s == [] then []
    else
      var n := |s| - 1;
      WithKey(s[..n], key) + if KeyOf(s[n]) == key then [s[n]] else []
  }

  lemma WithKeySnoc(s: seq<Entry>, x: Entry, key: (Place, string))
    ensures WithKey(s + [x], key) == WithKey(s, key) + if KeyOf(x) == key then [x] else []
  {
    assert (s + [x])[..|s|] == s;
  }

  lemma SmallerHasOtherKey(a: Entry, b: Entry)
    requires EntryLess(a, b)
    ensures KeyOf(a) != KeyOf(b)
  {
    EntryTotal(a, b);
    EntryTotal(a, a);
  }

  lemma {:induction false} InsertKeepsTies(s: seq<Entry>, x: Entry, key: (Place, string))
    ensures WithKey(InsertEntry(s, x), key) == WithKey(s + [x], key)
  {
    hide EntryLess, KeyOf, WithKey;
    WithKeySnoc(s, x, key);
    if s != [] && EntryLess(x, s[|s| - 1]) {
      var n := |s| - 1;
      SmallerHasOtherKey(x, s[n]);
      InsertKeepsTies(s[..n], x, key);
      assert s == s[..n] + [s[n]];
      WithKeySnoc(s[..n], s[n], key);
      WithKeySnoc(s[..n], x, key);
      WithKeySnoc(InsertEntry(s[..n], x), s[n], key);
    } else {
      assert InsertEntry(s, x) == s + [x];
    }
  }

  /** Sorting permutes the entries and leaves those that compare equal in their order. */
  lemma {:induction false} SortIsStable(s: seq<Entry>, key: (Place, string))
    ensures WithKey(SortEntries(s), key) == WithKey(s, key)
  {
    if s != [] {
      hide InsertEntry;
      var n := |s| - 1;
      SortIsStable(s[..n], key);
      InsertKeepsTies(SortEntries(s[..n]), s[n], key);
      WithKeySnoc(SortEntries(s[..n]), s[n], key);
    }
  }

  /** The entry before this one, if any, has another fingerprint. */
  ghost predicate Starts(s: seq<Entry>, i: nat)
    requires i < |s|
  {
    i > 0 ==> s[i - 1].fingerprint != s[i].fingerprint
  }

  /** What is kept, in order: the entries at exactly the positions where a run of equal fingerprints starts. */
  ghost predicate KeepsStarts(s: seq<Entry>, r: seq<Entry>, picks: seq<nat>) {
    && |picks| == |r| && (forall k :: 0 <= k < |picks| ==> picks[k] < |s| && r[k] == s[picks[k]])
    && (forall j, k :: 0 <= j < k < |picks| ==> picks[j] < picks[k])
    && forall i :: 0 <= i < |s| ==> (i in picks <==> Starts(s, i))
  }

  lemma {:induction false} DedupKeepsStarts(s: seq<Entry>) returns (picks: seq<nat>)
    ensures KeepsStarts(s, DedupAdjacent(s), picks)
  {
    if s == [] { return []; }
    hide DedupAdjacent, Starts, KeepsStarts;
    var n := |s| - 1;
    var front := s[..n];
    assert s == front + [s[n]];
    DedupStep(front, s[n]);
    var before := DedupKeepsStarts(front);
    if Starts(s, n) {
      StartIsPicked(front, s[n], DedupAdjacent(front), before);
      picks := before + [n];
    } else {
      RestIsNotPicked(front, s[n], DedupAdjacent(front), before);
      picks := before;
    }
  }

  lemma DedupStep(front: seq<Entry>, x: Entry)
    ensures (DedupAdjacent(front + [x])
             == if Starts(front + [x], |front|) then DedupAdjacent(front) + [x] else DedupAdjacent(front))
  {
    assert (front + [x])[..|front|] == front;
    LastStays(front);
  }

  lemma SameStarts(front: seq<Entry>, x: Entry)
    ensures forall i :: 0 <= i < |front| ==> (Starts(front + [x], i) <==> Starts(front, i))
  {
  }

  lemma StartIsPicked(front: seq<Entry>, x: Entry, r: seq<Entry>, picks: seq<nat>)
    requires KeepsStarts(front, r, picks) && Starts(front + [x], |front|)
    ensures KeepsStarts(front + [x], r + [x], picks + [|front|])
  {
    SameStarts(front, x);
    hide Starts;
  }

  lemma RestIsNotPicked(front: seq<Entry>, x: Entry, r: seq<Entry>, picks: seq<nat>)
    requires KeepsStarts(front, r, picks) && !Starts(front + [x], |front|)
    ensures KeepsStarts(front + [x], r, picks)
  {
    SameStarts(front, x);
    hide Starts;
  }

  lemma NormalIsIdempotent(s: seq<Entry>)
    ensures Normal(Normal(s)) == Normal(s)
  {
    SortSorts(s);
    DedupKeepsSorted(SortEntries(s));
    SortedIsFixed(Normal(s));
    DedupIsFixed(Normal(s));
  }

  ghost predicate DistinctFingerprints(s: seq<Entry>) {
    forall i, j :: 0 <= i < j < |s| ==> s[i].fingerprint != s[j].fingerprint
  }

  /** With distinct fingerprints the sorted list depends only on which entries there are. */
  lemma {:induction false} SortedIsUnique(a: seq<Entry>, b: seq<Entry>)
    requires SortedEntries(a) && SortedEntries(b) && DistinctFingerprints(a) && DistinctFingerprints(b)
    requires forall x :: x in a <==> x in b
    ensures a == b
  {
    SomeEntry(b);
    if a != [] {
      hide SortedEntries, EntryLess;
      SameLeast(a, b);
      TailIsSorted(a);
      TailIsSorted(b);
      forall x ensures x in a[1..] <==> x in b[1..] {
        TailHas(a, x);
        TailHas(b, x);
      }
      SortedIsUnique(a[1..], b[1..]);
      assert a == [a[0]] + a[1..] && b == [b[0]] + b[1..];
    }
  }

  lemma SomeEntry(s: seq<Entry>)
    ensures s != [] ==> exists x :: x in s
  {
    if s != [] { assert s[0] in s; }
  }

  lemma SameLeast(a: seq<Entry>, b: seq<Entry>)
    requires SortedEntries(a) && SortedEntries(b) && DistinctFingerprints(a) && a != []
    requires forall x :: x in a <==> x in b
    ensures b != [] && a[0] == b[0]
  {
    hide EntryLess;
    assert a[0] in b && b[0] in a;
    var i :| 0 <= i < |b| && b[i] == a[0];
    var j :| 0 <= j < |a| && a[j] == b[0];
    if i > 0 && j > 0 {
      assert !EntryLess(a[j], a[0]) && !EntryLess(b[i], b[0]);
      EntryTotal(a[0], b[0]);
    }
  }

  lemma TailIsSorted(s: seq<Entry>)
    requires SortedEntries(s) && DistinctFingerprints(s) && s != []
    ensures SortedEntries(s[1..]) && DistinctFingerprints(s[1..])
  {
  }

  lemma TailHas(s: seq<Entry>, x: Entry)
    requires s != [] && DistinctFingerprints(s)
    ensures x in s[1..] <==> x in s && x != s[0]
  {
  }
}
