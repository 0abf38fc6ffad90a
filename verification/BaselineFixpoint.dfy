/**
 * Building a managed baseline again from its own output.
 *
 * A sixteen-digit decimal fingerprint can also be read as another fingerprint. When
 * both are found in one repository and the wrong one is listed first, the next build
 * takes the wrong history for the other. That is the only way in which a managed
 * baseline fails to be a fixpoint.
 */
module BaselineFixpoint {
  import opened BaselineExistence
  import opened BaselineManagement
  import opened Baselines
  import opened Fingerprints
  import opened Texts
  import opened Wrappers

  // ----- the history found in a sorted baseline

  predicate Reads(e: Entry, fingerprint: nat) {
    fingerprint in ParseFingerprint(e.fingerprint)
  }

  /** The first finding of one repository with this fingerprint among its readings. */
  function FirstReading(findings: seq<Entry>, fingerprint: nat): Option<Entry> {
    if findings == [] then None
    else
      var n := |findings| - 1;
      var rest := FirstReading(findings[..n], fingerprint);
      if rest.Some? then rest else if Reads(findings[n], fingerprint) then Some(findings[n]) else None
  }

  lemma {:induction false} FirstReadingIsFirst(findings: seq<Entry>, fingerprint: nat, i: nat)
    requires i < |findings| && Reads(findings[i], fingerprint)
    ensures exists k :: 0 <= k <= i
                        && FirstReading(findings, fingerprint) == Some(findings[k]) && Reads(findings[k], fingerprint)
  {
    hide Reads;
    var n := |findings| - 1;
    if i < n {
      FirstReadingIsFirst(findings[..n], fingerprint, i);
    } else if FirstReading(findings[..n], fingerprint).Some? {
      SomeReading(findings[..n], fingerprint);
    }
  }

  lemma {:induction false} SomeReading(findings: seq<Entry>, fingerprint: nat)
    requires FirstReading(findings, fingerprint).Some?
    ensures exists k :: 0 <= k < |findings|
                        && FirstReading(findings, fingerprint) == Some(findings[k]) && Reads(findings[k], fingerprint)
  {
    var n := |findings| - 1;
    if FirstReading(findings[..n], fingerprint).Some? { SomeReading(findings[..n], fingerprint); }
  }

  lemma {:induction false} PreviousConcat(a: seq<Listed>, b: seq<Listed>, id: string, fingerprint: nat)
    ensures (Previous(a + b, id, fingerprint)
             == if Previous(a, id, fingerprint).Some? then Previous(a, id, fingerprint)
                else Previous(b, id, fingerprint))
  {
    if b == [] {
      assert a + b == a;
    } else {
      assert (a + b)[..|a + b| - 1] == a + b[..|b| - 1];
      PreviousConcat(a, b[..|b| - 1], id, fingerprint);
    }
  }

  lemma {:induction false} PreviousInTagged(owner: string, findings: seq<Entry>, id: string, fingerprint: nat)
    ensures (Previous(Tagged(owner, findings), id, fingerprint)
             == if owner == id then FirstReading(findings, fingerprint) else None)
  {
    if findings != [] {
      var n := |findings| - 1;
      assert Tagged(owner, findings)[..n] == Tagged(owner, findings[..n]);
      PreviousInTagged(owner, findings[..n], id, fingerprint);
    }
  }

  /** In a sorted baseline, a repository's history is what its own listing reads first. */
  lemma {:induction false} PreviousIsFirstReading(repositories: seq<RepositoryBaseline>, id: string, fingerprint: nat)
    requires SortedById(repositories)
    ensures Previous(Flatten(repositories), id, fingerprint) == FirstReading(LastListing(repositories, id), fingerprint)
  {
    if repositories != [] {
      var n := |repositories| - 1;
      PreviousIsFirstReading(repositories[..n], id, fingerprint);
      WithoutLast(repositories, id);
      var tagged := Tagged(repositories[n].id, repositories[n].findings);
      PreviousConcat(Flatten(repositories[..n]), tagged, id, fingerprint);
      PreviousInTagged(repositories[n].id, repositories[n].findings, id, fingerprint);
    }
  }

  // ----- when the wrong history is found

  /** The order in which two findings of a repository are listed. */
  predicate Earlier(p: Place, fp: nat, q: Place, other: nat) {
    Before(p, q) || (p == q && TextLess(TextOf(fp, 10), TextOf(other, 10)))
  }

  /** Two findings of a repository, the second listed behind one whose text can be read as it. */
  ghost predicate Misread(seen: set<Observation>, id: string, other: nat, q: Place, fp: nat, p: Place) {
    Least(seen, id, fp, p) && Least(seen, id, other, q) && Shadows(other, fp) && !Earlier(p, fp, q, other)
  }

  ghost predicate Misleading(seen: set<Observation>) {
    exists id, other, q, fp, p :: Misread(seen, id, other, q, fp, p)
  }

  /** Fingerprints are 64-bit numbers. */
  ghost predicate InRange(seen: set<Observation>) {
    forall o :: o in seen ==> o.fingerprint < U64_LIMIT
  }

  lemma LeastInRange(seen: set<Observation>, id: string, fp: nat, p: Place)
    requires InRange(seen) && Least(seen, id, fp, p)
    ensures fp < U64_LIMIT
  {
    assert Observation(id, fp, p).fingerprint == fp;
  }

  /** Listing order is the order of the entries. */
  lemma EarlierIsListedFirst(a: Entry, p: Place, fp: nat, b: Entry, q: Place, other: nat)
    requires a == At(p, fp, a.firstSeen, a.lastUpdated) && b == At(q, other, b.firstSeen, b.lastUpdated)
    ensures EntryLess(a, b) <==> Earlier(p, fp, q, other)
  {
  }

  // ----- the fixpoint

  /** The entry a managed baseline lists for a finding is the history the next build finds. */
  lemma OwnEntryIsPrevious(out: BaselineFile, b: BaselineFile, r: Resolver, seen: set<Observation>, now: string,
                           id: string, fp: nat, p: Place)
    requires IsManaged(out, b, r, seen, now) && InRange(seen) && !Misleading(seen) && Least(seen, id, fp, p)
    ensures (Previous(Flatten(out.repositories), id, fp)
             == Some(Kept(p, fp, Previous(Flatten(b.repositories), id, fp), now)))
  {
    hide ParseFingerprint, TextOf, Before, TextLess, Flatten, Previous, IsManaged, Least, SortedEntries, Earlier;
    var mine := Kept(p, fp, Previous(Flatten(b.repositories), id, fp), now);
    var listing := LastListing(out.repositories, id);
    ScannedHere(out, b, r, seen, now, id, fp, p);
    PreviousIsFirstReading(out.repositories, id, fp);
    var j :| 0 <= j < |listing| && listing[j] == mine;
    LeastInRange(seen, id, fp, p);
    DecimalRoundTrip(fp);
    FirstReadingIsFirst(listing, fp, j);
    var i :| 0 <= i <= j && FirstReading(listing, fp) == Some(listing[i]) && Reads(listing[i], fp);
    if i < j {
      var other, q := ListedIsObserved(listing, Flatten(b.repositories), seen, now, id, i);
      if other == fp {
        LeastIsUnique(seen, id, fp, p, q);
      } else {
        ListedBehind(listing, i, j, mine, p, fp, q, other);
        MisreadMisleads(seen, id, other, q, fp, p);
      }
    }
  }

  lemma MisreadMisleads(seen: set<Observation>, id: string, other: nat, q: Place, fp: nat, p: Place)
    requires Misread(seen, id, other, q, fp, p)
    ensures Misleading(seen)
  {
  }

  lemma ListedBehind(listing: seq<Entry>, i: nat, j: nat, mine: Entry, p: Place, fp: nat, q: Place, other: nat)
    requires SortedEntries(listing) && i < j < |listing| && listing[j] == mine
    requires mine == At(p, fp, mine.firstSeen, mine.lastUpdated)
    requires listing[i] == At(q, other, listing[i].firstSeen, listing[i].lastUpdated)
    ensures !Earlier(p, fp, q, other)
  {
    hide Earlier, EntryLess;
    EarlierIsListedFirst(mine, p, fp, listing[i], q, other);
  }

  lemma ListedIsObserved(listing: seq<Entry>, listed: seq<Listed>, seen: set<Observation>, now: string, id: string,
                         i: nat)
    returns (fp: nat, p: Place)
    requires ListsObserved(listing, seen, listed, id, now) && i < |listing|
    ensures Least(seen, id, fp, p) && listing[i] == Kept(p, fp, Previous(listed, id, fp), now)
  {
    hide Kept, Previous, SortedEntries, DistinctFingerprints, Least;
    assert listing[i] in listing;
    fp, p :| Least(seen, id, fp, p) && listing[i] == Kept(p, fp, Previous(listed, id, fp), now);
  }

  lemma ScannedHere(out: BaselineFile, b: BaselineFile, r: Resolver, seen: set<Observation>, now: string, id: string,
                    fp: nat, p: Place)
    requires IsManaged(out, b, r, seen, now) && Least(seen, id, fp, p)
    ensures SortedById(out.repositories)
    ensures ListsObserved(LastListing(out.repositories, id), seen, Flatten(b.repositories), id, now)
  {
    assert Observation(id, fp, p).repositoryId == id;
    assert ListsRight(LastListing(out.repositories, id), b, r, seen, id, now);
  }

  lemma ListingStaysRight(out: BaselineFile, b: BaselineFile, r: Resolver, seen: set<Observation>, now: string,
                          later: string, id: string)
    requires IsManaged(out, b, r, seen, now) && InRange(seen) && !Misleading(seen)
    ensures ListsRight(LastListing(out.repositories, id), out, r, seen, id, later)
  {
    var listing := LastListing(out.repositories, id);
    assert ListsRight(listing, b, r, seen, id, now);
    if id in Scanned(r, seen) {
      forall fp, p | Least(seen, id, fp, p)
        ensures Kept(p, fp, Previous(Flatten(out.repositories), id, fp), later)
             == Kept(p, fp, Previous(Flatten(b.repositories), id, fp), now)
      {
        OwnEntryIsPrevious(out, b, r, seen, now, id, fp, p);
      }
    } else {
      NormalIsIdempotent(LastListing(b.repositories, id));
    }
  }

  /**
   * A managed baseline is a fixpoint: rebuilding from it after the same scan, at any later
   * time, gives it back unchanged, unless two findings of one repository are misread.
   */
  lemma RebuildingChangesNothing(out: BaselineFile, again: BaselineFile, b: BaselineFile, r: Resolver,
                                 seen: set<Observation>,
                                 now: string, later: string)
    requires IsManaged(out, b, r, seen, now) && IsManaged(again, out, r, seen, later)
    requires InRange(seen) && !Misleading(seen)
    ensures again == out
  {
    forall id ensures ListsRight(LastListing(out.repositories, id), out, r, seen, id, later) {
      ListingStaysRight(out, b, r, seen, now, later, id);
    }
    ManagedIsUnique(again, out, out, r, seen, later);
  }

  // ----- and only then

  /** A baseline in which the two findings have different histories. */
  function Histories(id: string, other: nat, q: Place, fp: nat, p: Place): BaselineFile {
    BaselineFile(Some(BASELINE_VERSION), Some(FINGERPRINT_ALGORITHM),
                 [RepositoryBaseline(id, [At(p, fp, "second", "second"), At(q, other, "first", "first")])], [])
  }

  lemma HistoriesDiffer(id: string, other: nat, q: Place, fp: nat, p: Place)
    requires other < U64_LIMIT && fp < U64_LIMIT && Shadows(other, fp)
    ensures (var listed := Flatten(Histories(id, other, q, fp, p).repositories);
             && Previous(listed, id, fp) == Some(At(p, fp, "second", "second"))
             && Previous(listed, id, other) == Some(At(q, other, "first", "first")))
  {
    hide ParseFingerprint, TextOf, Previous;
    var repositories := Histories(id, other, q, fp, p).repositories;
    var findings := repositories[0].findings;
    PreviousIsFirstReading(repositories, id, fp);
    PreviousIsFirstReading(repositories, id, other);
    DecimalRoundTrip(fp);
    DecimalRoundTrip(other);
    ShadowIsUnique(other, other, fp);
    TwoReadings(findings[0], findings[1], fp);
    TwoReadings(findings[0], findings[1], other);
  }

  lemma TwoReadings(a: Entry, b: Entry, fingerprint: nat)
    ensures (FirstReading([a, b], fingerprint)
             == if Reads(a, fingerprint) then Some(a) else if Reads(b, fingerprint) then Some(b) else None)
  {
    hide Reads;
    var s := [a, b];
    assert s[..1] == [a] && [a][..0] == [];
    assert FirstReading([a][..0], fingerprint) == None;
    assert FirstReading([a], fingerprint) == if Reads([a][0], fingerprint) then Some([a][0]) else None;
    assert FirstReading(s, fingerprint) == if FirstReading(s[..1], fingerprint).Some?
                                           then FirstReading(s[..1], fingerprint)
                                           else if Reads(s[1], fingerprint) then Some(s[1]) else None;
  }

  /** The entry of a misread finding is found behind the other, whose history the next build takes for it. */
  lemma MisreadHistory(listing: seq<Entry>, listed: seq<Listed>, seen: set<Observation>, now: string,
                       id: string, other: nat, q: Place, fp: nat, p: Place)
    requires InRange(seen) && Misread(seen, id, other, q, fp, p) && ListsObserved(listing, seen, listed, id, now)
    ensures FirstReading(listing, fp) == Some(Kept(q, other, Previous(listed, id, other), now))
  {
    hide ParseFingerprint, TextOf, Before, TextLess, Previous, Least, EntryLess, Earlier;
    var mine, theirs := Kept(p, fp, Previous(listed, id, fp), now), Kept(q, other, Previous(listed, id, other), now);
    LeastInRange(seen, id, fp, p);
    LeastInRange(seen, id, other, q);
    var j :| 0 <= j < |listing| && listing[j] == mine;
    var i :| 0 <= i < |listing| && listing[i] == theirs;
    TextReadsBack(fp, 10);
    TextReadsBack(other, 10);
    EarlierIsListedFirst(mine, p, fp, theirs, q, other);
    EntryTotal(mine, theirs);
    assert i < j;
    FirstReadingIsFirst(listing, fp, i);
    var k :| 0 <= k <= i && FirstReading(listing, fp) == Some(listing[k]) && Reads(listing[k], fp);
    var third, s := ListedIsObserved(listing, listed, seen, now, id, k);
    LeastInRange(seen, id, third, s);
    if third == fp {
      LeastIsUnique(seen, id, fp, p, s);
      assert false;
    } else {
      ShadowIsUnique(other, third, fp);
      LeastIsUnique(seen, id, other, q, s);
    }
  }

  /** With a misread finding, some earlier baseline makes rebuilding change the output, at any two times. */
  lemma MisreadRebuildChanges(out: BaselineFile, again: BaselineFile, r: Resolver, seen: set<Observation>, now: string,
                              later: string,
                              id: string, other: nat, q: Place, fp: nat, p: Place)
    requires InRange(seen) && Misread(seen, id, other, q, fp, p)
    requires IsManaged(out, Histories(id, other, q, fp, p), r, seen, now) && IsManaged(again, out, r, seen, later)
    ensures again != out
  {
    hide *;
    var listed := Flatten(Histories(id, other, q, fp, p).repositories);
    NextHistory(out, r, seen, now, id, other, q, fp, p);
    ScannedWhenMisread(out, Histories(id, other, q, fp, p), r, seen, now, id, other, q, fp, p);
    ScannedWhenMisread(again, out, r, seen, later, id, other, q, fp, p);
    if again == out {
      OneEntryEach(LastListing(out.repositories, id), listed, Flatten(out.repositories), seen, now, later, id, fp, p);
    }
  }

  lemma ScannedWhenMisread(out: BaselineFile, b: BaselineFile, r: Resolver, seen: set<Observation>, now: string,
                           id: string, other: nat, q: Place, fp: nat, p: Place)
    requires IsManaged(out, b, r, seen, now) && Misread(seen, id, other, q, fp, p)
    ensures Least(seen, id, fp, p)
    ensures ListsObserved(LastListing(out.repositories, id), seen, Flatten(b.repositories), id, now)
  {
    ScannedHere(out, b, r, seen, now, id, fp, p);
  }

  /** The next build finds the other finding's history. */
  lemma NextHistory(out: BaselineFile, r: Resolver, seen: set<Observation>, now: string,
                    id: string, other: nat, q: Place, fp: nat, p: Place)
    requires InRange(seen) && Misread(seen, id, other, q, fp, p)
    requires IsManaged(out, Histories(id, other, q, fp, p), r, seen, now)
    ensures (var x := Previous(Flatten(Histories(id, other, q, fp, p).repositories), id, fp);
             x.Some? && x.value.firstSeen == "second")
    ensures (var x := Previous(Flatten(out.repositories), id, fp);
             x.Some? && x.value.firstSeen == "first")
  {
    hide TextOf, Flatten, Previous, IsManaged, Least, ListsObserved, InRange, Shadows, Earlier, Histories,
         FirstReading, LastListing, SortedById;
    var before := Histories(id, other, q, fp, p);
    LeastInRange(seen, id, fp, p);
    LeastInRange(seen, id, other, q);
    HistoriesDiffer(id, other, q, fp, p);
    ScannedHere(out, before, r, seen, now, id, fp, p);
    MisreadHistory(LastListing(out.repositories, id), Flatten(before.repositories), seen, now, id, other, q, fp, p);
    PreviousIsFirstReading(out.repositories, id, fp);
    FirstSeenIsKept(q, other, "first", "first", now);
  }

  lemma FirstSeenIsKept(p: Place, fp: nat, first: string, last: string, now: string)
    ensures Kept(p, fp, Some(At(p, fp, first, last)), now).firstSeen == first
  {
  }

  lemma IsListed(listing: seq<Entry>, listed: seq<Listed>, seen: set<Observation>, now: string, id: string, fp: nat,
                 p: Place)
    requires ListsObserved(listing, seen, listed, id, now) && Least(seen, id, fp, p)
    ensures Kept(p, fp, Previous(listed, id, fp), now) in listing && DistinctFingerprints(listing)
  {
  }

  /** A listing that is right for two histories keeps the same first date of a finding in both. */
  lemma OneEntryEach(listing: seq<Entry>, a: seq<Listed>, b: seq<Listed>, seen: set<Observation>,
                     now: string, later: string, id: string, fp: nat, p: Place)
    requires ListsObserved(listing, seen, a, id, now) && ListsObserved(listing, seen, b, id, later)
    requires Least(seen, id, fp, p)
    requires Previous(a, id, fp).Some? && Previous(b, id, fp).Some?
    ensures Previous(a, id, fp).value.firstSeen == Previous(b, id, fp).value.firstSeen
  {
    hide TextOf, Previous, Least, ListsObserved;
    IsListed(listing, a, seen, now, id, fp, p);
    IsListed(listing, b, seen, later, id, fp, p);
    var x, y := Kept(p, fp, Previous(a, id, fp), now), Kept(p, fp, Previous(b, id, fp), later);
    assert x.fingerprint == y.fingerprint;
    assert x == y;
  }

  // ----- exactly when

  /** Whatever baseline a scan starts from, building again from the output at any later time gives it back. */
  ghost predicate Stable(r: Resolver, seen: set<Observation>) {
    forall b, out, again, now, later ::
      IsManaged(out, b, r, seen, now) && IsManaged(again, out, r, seen, later) ==> again == out
  }

  /** A scan's managed baseline is a fixpoint from every earlier baseline if and only if no finding of it is misread. */
  lemma StableUnlessMisleading(r: Resolver, seen: set<Observation>)
    requires InRange(seen)
    ensures Stable(r, seen) <==> !Misleading(seen)
  {
    hide IsManaged, Misread;
    if Misleading(seen) {
      var id, other, q, fp, p :| Misread(seen, id, other, q, fp, p);
      var b := Histories(id, other, q, fp, p);
      var out := ManagedExists(b, r, seen, "now");
      var again := ManagedExists(out, r, seen, "later");
      MisreadRebuildChanges(out, again, r, seen, "now", "later", id, other, q, fp, p);
    } else {
      forall b, out, again, now, later | IsManaged(out, b, r, seen, now) && IsManaged(again, out, r, seen, later)
        ensures again == out
      {
        RebuildingChangesNothing(out, again, b, r, seen, now, later);
      }
    }
  }

  // ----- a scan that is misread

  /** One root, with the finding `other` in its file `a` and the finding `fp` in its file `b`. */
  function TwoFiles(): Resolver {
    Resolver(["x"], o => Some(FindingContext("x", if o == 0 then "a" else "b")))
  }

  function TwoFindings(other: nat, fp: nat): seq<Finding> {
    [Finding([0], other, "r", 1, true), Finding([1], fp, "r", 1, true)]
  }

  lemma TwoFindingsObserved(other: nat, fp: nat)
    ensures (Observed(TwoFiles(), TwoFindings(other, fp))
             == {Observation("x", other, Place("a", 1, "r")), Observation("x", fp, Place("b", 1, "r"))})
  {
    var r, matches := TwoFiles(), TwoFindings(other, fp);
    OneContext(0, "a");
    OneContext(1, "b");
    hide Contexts;
    assert matches[0].origins == [0] && matches[1].origins == [1];
    var x, y := Observation("x", other, Place("a", 1, "r")), Observation("x", fp, Place("b", 1, "r"));
    assert "x" in Contexts(r, matches[0].origins) && "x" in Contexts(r, matches[1].origins);
    forall o ensures o in Observed(r, matches) <==> o == x || o == y {}
  }

  lemma OneContext(o: Origin, path: string)
    requires path == if o == 0 then "a" else "b"
    ensures Contexts(TwoFiles(), [o]) == map["x" := path]
  {
    assert [o][..0] == [];
    assert OriginContexts(TwoFiles(), []) == map[];
    assert OriginContexts(TwoFiles(), [o]) == AddContext(map[], FindingContext("x", path));
  }

  lemma TwoFindingsAreMisread(other: nat, fp: nat)
    requires Shadows(other, fp)
    ensures Misread(Observed(TwoFiles(), TwoFindings(other, fp)), "x",
                    other, Place("a", 1, "r"), fp, Place("b", 1, "r"))
  {
    hide Shadows, Contexts, Observed;
    TwoFindingsObserved(other, fp);
    assert other != fp by { ShadowsAreDifferent(other, fp); }
    BeforeTotal(Place("a", 1, "r"), Place("a", 1, "r"));
    BeforeTotal(Place("b", 1, "r"), Place("b", 1, "r"));
    BeforeTotal(Place("a", 1, "r"), Place("b", 1, "r"));
    assert TextLess("a", "b");
  }

  lemma ShadowsAreDifferent(other: nat, fp: nat)
    requires Shadows(other, fp)
    ensures other != fp
  {
  }

  /** There is a scan whose managed baseline is not a fixpoint. */
  lemma SomeScanIsNotStable()
    ensures (var matches := TwoFindings(Power(10, 15), Power(16, 15));
             && InRange(Observed(TwoFiles(), matches)) && Misleading(Observed(TwoFiles(), matches))
             && !Stable(TwoFiles(), Observed(TwoFiles(), matches)))
  {
    hide Power, Shadows, TwoFiles, Stable, Observed, Misread, InRange;
    var other, fp := Power(10, 15), Power(16, 15);
    SomeShadow();
    TwoFindingsAreMisread(other, fp);
    TwoFindingsInRange(other, fp);
    StableUnlessMisleading(TwoFiles(), Observed(TwoFiles(), TwoFindings(other, fp)));
  }

  lemma TwoFindingsInRange(other: nat, fp: nat)
    requires other < U64_LIMIT && fp < U64_LIMIT
    ensures InRange(Observed(TwoFiles(), TwoFindings(other, fp)))
  {
    TwoFindingsObserved(other, fp);
  }
}
