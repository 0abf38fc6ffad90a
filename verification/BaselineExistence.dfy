/** There is a managed baseline for every earlier baseline, every set of roots and every set of observations. */
module BaselineExistence {
  import opened BaselineBuild
  import opened BaselineManagement
  import opened Baselines
  import opened Fingerprints
  import opened Texts
  import opened Wrappers

  ghost function PrintsIn(seen: set<Observation>, id: string): (r: set<nat>)
    ensures forall fp :: fp in r <==> IsObserved(seen, id, fp)
  {
    var r := set o | o in seen && o.repositoryId == id :: o.fingerprint;
    assert forall o :: o in seen ==> o == Observation(o.repositoryId, o.fingerprint, o.place);
    assert forall fp, p :: Observation(id, fp, p) in seen ==> Observation(id, fp, p).fingerprint in r;
    r
  }

  /** A sorted listing of some of the fingerprints observed in a repository. */
  ghost predicate Lists(findings: seq<Entry>, seen: set<Observation>, listed: seq<Listed>, id: string, now: string,
                        fps: set<nat>)
  {
    && SortedEntries(findings) && DistinctFingerprints(findings)
    && (forall x :: x in findings ==>
          exists fp, p :: fp in fps && Least(seen, id, fp, p) && x == Kept(p, fp, Previous(listed, id, fp), now))
    && (forall fp, p :: fp in fps && Least(seen, id, fp, p) ==> Kept(p, fp, Previous(listed, id, fp), now) in findings)
  }

  lemma OneMoreListed(findings: seq<Entry>, seen: set<Observation>, listed: seq<Listed>, id: string, now: string,
                      fps: set<nat>, fp: nat, p: Place)
    requires Lists(findings, seen, listed, id, now, fps) && fp !in fps && Least(seen, id, fp, p)
    ensures Lists(InsertEntry(findings, Kept(p, fp, Previous(listed, id, fp), now)), seen, listed, id, now, fps + {fp})
  {
    hide Least, Previous, TextOf, EntryLess;
    var x := Kept(p, fp, Previous(listed, id, fp), now);
    var r := InsertEntry(findings, x);
    forall y | y in findings ensures y.fingerprint != x.fingerprint {
      var other, q :| other in fps && Least(seen, id, other, q)
                      && y == Kept(q, other, Previous(listed, id, other), now);
      if y.fingerprint == x.fingerprint { TextIsInjective(fp, other); }
    }
    InsertKeepsSorted(findings, x);
    InsertKeepsDistinct(findings, x);
    forall y | y in r
      ensures exists other, q :: other in fps + {fp} && Least(seen, id, other, q)
                                 && y == Kept(q, other, Previous(listed, id, other), now)
    {
      if y != x { assert y in findings; }
    }
    forall other, q | other in fps + {fp} && Least(seen, id, other, q)
      ensures Kept(q, other, Previous(listed, id, other), now) in r
    {
      if other == fp { LeastIsUnique(seen, id, fp, p, q); }
    }
  }

  lemma {:induction false} SomeListing(seen: set<Observation>, listed: seq<Listed>, id: string, now: string,
                                       fps: set<nat>)
    returns (findings: seq<Entry>)
    requires forall fp :: fp in fps ==> IsObserved(seen, id, fp)
    ensures Lists(findings, seen, listed, id, now, fps)
  {
    if fps == {} {
      findings := [];
    } else {
      var fp :| fp in fps;
      var here :| Observation(id, fp, here) in seen;
      var p := LeastExists(seen, id, fp, here);
      findings := SomeListing(seen, listed, id, now, fps - {fp});
      OneMoreListed(findings, seen, listed, id, now, fps - {fp}, fp, p);
      findings := InsertEntry(findings, Kept(p, fp, Previous(listed, id, fp), now));
      assert fps - {fp} + {fp} == fps;
    }
  }

  lemma AllListed(findings: seq<Entry>, seen: set<Observation>, listed: seq<Listed>, id: string, now: string)
    requires Lists(findings, seen, listed, id, now, PrintsIn(seen, id))
    ensures ListsObserved(findings, seen, listed, id, now)
  {
    hide Kept, Previous, SortedEntries, DistinctFingerprints;
    forall fp: nat, p | Least(seen, id, fp, p) ensures fp in PrintsIn(seen, id) {
      assert IsObserved(seen, id, fp);
    }
  }

  lemma SomeRightListing(b: BaselineFile, r: Resolver, seen: set<Observation>, id: string, now: string)
    returns (findings: seq<Entry>)
    ensures ListsRight(findings, b, r, seen, id, now)
  {
    if id in Scanned(r, seen) {
      findings := SomeListing(seen, Flatten(b.repositories), id, now, PrintsIn(seen, id));
      AllListed(findings, seen, Flatten(b.repositories), id, now);
    } else {
      findings := Normal(LastListing(b.repositories, id));
    }
  }

  lemma {:induction false} LastListingPrepend(x: RepositoryBaseline, out: seq<RepositoryBaseline>, id: string)
    requires forall i :: 0 <= i < |out| ==> out[i].id != x.id
    ensures LastListing([x] + out, id) == if id == x.id then x.findings else LastListing(out, id)
  {
    if out != [] {
      var n := |out| - 1;
      assert ([x] + out)[..n + 1] == [x] + out[..n];
      LastListingPrepend(x, out[..n], id);
      if id == x.id && LastListing(out, id) != [] { assert out[n].id != id; }
    }
  }

  /** The repositories among `ids`, in order, each with a listing that is right. */
  ghost predicate RightFor(out: seq<RepositoryBaseline>, b: BaselineFile, r: Resolver, seen: set<Observation>,
                           now: string, ids: set<string>)
  {
    && SortedById(out)
    && (forall i :: 0 <= i < |out| ==> out[i].findings != [] && out[i].id in ids)
    && (forall id :: id in ids ==> ListsRight(LastListing(out, id), b, r, seen, id, now))
    && (forall id :: id !in ids ==> LastListing(out, id) == [])
  }

  lemma RightWithOneMore(out: seq<RepositoryBaseline>, b: BaselineFile, r: Resolver, seen: set<Observation>,
                         now: string,
                         ids: set<string>, id: string, findings: seq<Entry>)
    requires RightFor(out, b, r, seen, now, ids) && ListsRight(findings, b, r, seen, id, now)
    requires forall other :: other in ids ==> TextLess(id, other)
    ensures (var more := if findings == [] then out else [RepositoryBaseline(id, findings)] + out;
             RightFor(more, b, r, seen, now, ids + {id}))
  {
    hide ListsRight, TextLess, LastListing, SortedById;
    TextIrreflexive(id);
    if findings != [] {
      var x := RepositoryBaseline(id, findings);
      forall other { LastListingPrepend(x, out, other); }
      SortedPrepend(x, out);
    }
  }

  lemma SortedPrepend(x: RepositoryBaseline, out: seq<RepositoryBaseline>)
    requires SortedById(out) && forall i :: 0 <= i < |out| ==> TextLess(x.id, out[i].id)
    ensures SortedById([x] + out)
  {
    hide TextLess;
    forall i, j | 0 <= i < j < |[x] + out| ensures TextLess(([x] + out)[i].id, ([x] + out)[j].id) {
      assert ([x] + out)[j] == out[j - 1];
      if i > 0 { assert ([x] + out)[i] == out[i - 1]; }
    }
  }

  lemma {:induction false} SomeRepositories(b: BaselineFile, r: Resolver, seen: set<Observation>, now: string,
                                            ids: set<string>)
    returns (out: seq<RepositoryBaseline>)
    ensures RightFor(out, b, r, seen, now, ids)
  {
    if ids == {} {
      out := [];
    } else {
      var id := LeastId(ids);
      forall other | other in ids - {id} ensures TextLess(id, other) { TextTotal(id, other); }
      out := SomeRepositories(b, r, seen, now, ids - {id});
      var findings := SomeRightListing(b, r, seen, id, now);
      RightWithOneMore(out, b, r, seen, now, ids - {id}, id, findings);
      out := if findings == [] then out else [RepositoryBaseline(id, findings)] + out;
      assert ids - {id} + {id} == ids;
    }
  }

  lemma ManagedExists(b: BaselineFile, r: Resolver, seen: set<Observation>, now: string) returns (out: BaselineFile)
    ensures IsManaged(out, b, r, seen, now)
  {
    hide SortedById;
    var ids := Scanned(r, seen) + set x | x in b.repositories :: x.id;
    var repositories := SomeRepositories(b, r, seen, now, ids);
    out := BaselineFile(Some(BASELINE_VERSION), Some(FINGERPRINT_ALGORITHM), repositories, []);
    forall id ensures ListsRight(LastListing(repositories, id), b, r, seen, id, now) {
      if id !in ids && LastListing(b.repositories, id) != [] { ListedSomewhere(b.repositories, id); }
      EmptyIsNormal();
    }
  }
}
