/** The whole enumeration: index, optional candidate filter, commit graph, traversal, assembly. */
module Enumerator {
  import opened Bytes
  import opened BStringTable
  import opened CandidateSummaries
  import opened CommitGraph
  import opened CommitHistory
  import opened CommitWalk
  import opened GitObjects
  import opened GraphTraversal
  import opened ObjectIds
  import opened RepositoryIndex
  import opened TreeTraversal
  import opened TreeWalk
  import opened WalkMeaning
  import opened Wrappers

  const MAX_PREPASS_BLOB_BYTES: nat := 4 * 1024 * 1024

  datatype BlobAppearance = BlobAppearance(commit: Oid, path: seq<Byte>)

  datatype GitBlobMetadata = GitBlobMetadata(blob: Oid, firstSeen: seq<BlobAppearance>)

  /** What the content prepass learns about one blob: its size if the header can be read, and the
      gate's verdict if the contents can. */
  datatype Probe = Probe(size: Option<nat>, mayMatch: Option<bool>)

  datatype ContentFilter = ContentFilter(maxBlobSize: Option<nat>, probe: Oid -> Probe)

  predicate Retains(filter: ContentFilter, blob: Oid) {
    var p := filter.probe(blob);
    if p.size.Some? && filter.maxBlobSize.Some? && p.size.value > filter.maxBlobSize.value then false
    else if p.size.Some? && p.size.value > MAX_PREPASS_BLOB_BYTES then true
    else p.mayMatch.None? || p.mayMatch.value
  }

  /** The positions of the blobs the prepass retains. */
  function Retained(filter: ContentFilter, blobs: seq<Oid>): (r: set<nat>) {
    set i | 0 <= i < |blobs| && Retains(filter, blobs[i])
  }

  // ----- appearances of one blob

  function PathsOf(commit: Oid, introduced: seq<IntroducedBlob>, blob: Oid): (r: seq<BlobAppearance>) {
    if introduced == [] then []
    else
      var n := |introduced| - 1;
      PathsOf(commit, introduced[..n], blob)
        + (if introduced[n].blob == blob then [BlobAppearance(commit, introduced[n].path)] else [])
  }

  /** A commit contributes appearances when it can be read and its committer decodes. */
  predicate Credited(commits: map<Oid, Commit>, commit: Oid) {
    commit in commits && commits[commit].committerDecodes
  }

  function AppearancesIn(metadata: seq<CommitBlobs>, commits: map<Oid, Commit>, blob: Oid): (r: seq<BlobAppearance>) {
    if metadata == [] then []
    else
      var n := |metadata| - 1;
      AppearancesIn(metadata[..n], commits, blob)
        + (if Credited(commits, metadata[n].commit)
           then PathsOf(metadata[n].commit, metadata[n].introduced, blob) else [])
  }

  /** What the traversal reports for the given candidates: nothing when the history has a cycle. */
  ghost function Walked(odb: Odb, p: Plan, candidates: set<Oid>): (r: seq<CommitBlobs>)
    requires |p.oids| == |p.roots|
  {
    if Cyclic(HistoryOf(p)) then [] else NonEmpty(p.oids, AllAttributed(odb, HistoryOf(p), candidates))
  }

  /** The appearances of a blob when every indexed blob takes part in the traversal. */
  ghost function Appearances(odb: Odb, p: Plan, candidates: set<Oid>, commits: map<Oid, Commit>,
                             blob: Oid): (r: seq<BlobAppearance>)
    requires |p.oids| == |p.roots|
  {
    AppearancesIn(Walked(odb, p, candidates), commits, blob)
  }

  // ----- pruning preserves every appearance

  lemma {:induction false} PathsOfKept(commit: Oid, out: seq<Found>, kept: set<Oid>, blob: Oid)
    requires blob in kept
    ensures PathsOf(commit, Render(KeepBlobs(out, kept)), blob) == PathsOf(commit, Render(out), blob)
  {
    if out == [] { return; }
    hide PathsOf, Render, Joined;
    var n := |out| - 1;
    PathsOfKept(commit, out[..n], kept, blob);
    assert out == out[..n] + [out[n]];
    RenderedSnoc(commit, out[..n], out[n], blob);
    if out[n].blob in kept { RenderedSnoc(commit, KeepBlobs(out[..n], kept), out[n], blob); }
  }

  lemma RenderedSnoc(commit: Oid, out: seq<Found>, x: Found, blob: Oid)
    ensures PathsOf(commit, Render(out + [x]), blob)
         == PathsOf(commit, Render(out), blob)
            + (if x.blob == blob then [BlobAppearance(commit, Joined(x.path))] else [])
  {
    hide Render, PathsOf, Joined;
    RenderSnoc(out, x);
    PathsSnoc(commit, Render(out), IntroducedBlob(x.blob, Joined(x.path)), blob);
  }

  lemma PathsSnoc(commit: Oid, introduced: seq<IntroducedBlob>, x: IntroducedBlob, blob: Oid)
    ensures PathsOf(commit, introduced + [x], blob)
         == PathsOf(commit, introduced, blob) + (if x.blob == blob then [BlobAppearance(commit, x.path)] else [])
  {
    assert (introduced + [x])[..|introduced|] == introduced;
  }

  lemma {:induction false} SamePathsSameAppearances(oids: seq<Oid>, a: seq<seq<IntroducedBlob>>,
                                                    b: seq<seq<IntroducedBlob>>, commits: map<Oid, Commit>, blob: Oid)
    requires |oids| == |a| == |b|
    requires forall n :: 0 <= n < |oids| ==> PathsOf(oids[n], a[n], blob) == PathsOf(oids[n], b[n], blob)
    ensures AppearancesIn(NonEmpty(oids, a), commits, blob) == AppearancesIn(NonEmpty(oids, b), commits, blob)
  {
    if oids != [] {
      var n := |oids| - 1;
      SamePathsSameAppearances(oids[..n], a[..n], b[..n], commits, blob);
      AppearancesSnoc(oids, a, commits, blob);
      AppearancesSnoc(oids, b, commits, blob);
    }
  }

  lemma AppearancesSnoc(oids: seq<Oid>, a: seq<seq<IntroducedBlob>>, commits: map<Oid, Commit>, blob: Oid)
    requires |oids| == |a| && oids != []
    ensures var n := |oids| - 1;
      AppearancesIn(NonEmpty(oids, a), commits, blob)
        == AppearancesIn(NonEmpty(oids[..n], a[..n]), commits, blob)
           + (if Credited(commits, oids[n]) then PathsOf(oids[n], a[n], blob) else [])
  {
    var n := |oids| - 1;
    var rest := NonEmpty(oids[..n], a[..n]);
    if a[n] != [] {
      assert (rest + [CommitBlobs(oids[n], a[n])])[..|rest|] == rest;
    }
  }

  /** The end-to-end pruning theorem: every retained blob has the appearances of the eager run, the
      same commits and paths in the same order, including none at all. */
  lemma PruningPreservesAppearances(odb: Odb, p: Plan, all: set<Oid>, kept: set<Oid>, commits: map<Oid, Commit>,
                                    blob: Oid)
    requires |p.oids| == |p.roots| && kept <= all && blob in kept
    requires forall n :: 0 <= n < |p.roots| && p.roots[n].Some? ==> p.roots[n].value in odb.indexed
    ensures Appearances(odb, p, kept, commits, blob) == Appearances(odb, p, all, commits, blob)
  {
    var h := HistoryOf(p);
    var a, b := AllAttributed(odb, h, all), AllAttributed(odb, h, kept);
    forall n | 0 <= n < |p.oids| ensures PathsOf(p.oids[n], a[n], blob) == PathsOf(p.oids[n], b[n], blob) {
      AttributionCommutesWithFiltering(odb, h, all, kept, n);
      PathsOfKept(p.oids[n], Attributed(odb, h, all, n), kept, blob);
    }
    SamePathsSameAppearances(p.oids, a, b, commits, blob);
  }

  // ----- what an appearance means, without reference to any traversal

  /** The commit numbered `n` introduced the blob at the rendered path: its tree has the blob there,
      and no proper ancestor's tree has the blob anywhere. */
  ghost predicate IntroducedAt(odb: Odb, p: Plan, n: nat, blob: Oid, path: seq<Byte>)
    requires |p.oids| == |p.roots|
  {
    && n < |p.roots| && p.roots[n].Some? && !Inherited(odb, HistoryOf(p), n, blob)
    && exists names :: NamesBlob(odb, p.roots[n].value, names, blob) && path == Joined(names)
  }

  /** The appearance comes from one of the blobs found. */
  ghost predicate From(out: seq<Found>, blob: Oid, path: seq<Byte>) {
    exists f :: f in out && f.blob == blob && path == Joined(f.path)
  }

  lemma {:induction false} PathsAreRendered(commit: Oid, out: seq<Found>, blob: Oid)
    ensures forall x :: x in PathsOf(commit, Render(out), blob) ==> x.commit == commit && From(out, blob, x.path)
  {
    if out == [] { return; }
    hide PathsOf, Render, Joined, From;
    var n := |out| - 1;
    PathsAreRendered(commit, out[..n], blob);
    assert out == out[..n] + [out[n]];
    RenderedSnoc(commit, out[..n], out[n], blob);
    forall x | x in PathsOf(commit, Render(out), blob) ensures x.commit == commit && From(out, blob, x.path) {
      if x in PathsOf(commit, Render(out[..n]), blob) { StillFrom(out, n, blob, x.path); } else { LastFrom(out); }
    }
  }

  lemma StillFrom(out: seq<Found>, n: nat, blob: Oid, path: seq<Byte>)
    requires n <= |out| && From(out[..n], blob, path)
    ensures From(out, blob, path)
  {
    var f :| f in out[..n] && f.blob == blob && path == Joined(f.path);
    assert f in out;
  }

  lemma LastFrom(out: seq<Found>)
    requires out != []
    ensures var f := out[|out| - 1]; From(out, f.blob, Joined(f.path))
  {
    assert out[|out| - 1] in out;
  }

  lemma {:induction false} FoundHasPath(commit: Oid, out: seq<Found>, blob: Oid)
    ensures Among(out, blob) <==> PathsOf(commit, Render(out), blob) != []
  {
    if out == [] { return; }
    hide PathsOf, Render, Joined;
    var n := |out| - 1;
    FoundHasPath(commit, out[..n], blob);
    assert out == out[..n] + [out[n]];
    RenderedSnoc(commit, out[..n], out[n], blob);
    assert Among(out, blob) <==> Among(out[..n], blob) || out[n].blob == blob;
  }

  /** The n-th commit gives the appearance. */
  ghost predicate GivenBy(oids: seq<Oid>, a: seq<seq<IntroducedBlob>>, commits: map<Oid, Commit>, blob: Oid,
                          x: BlobAppearance, n: nat)
    requires |oids| == |a|
  {
    n < |oids| && Credited(commits, oids[n]) && x in PathsOf(oids[n], a[n], blob)
  }

  lemma {:induction false} AppearancesOfNodes(oids: seq<Oid>, a: seq<seq<IntroducedBlob>>, commits: map<Oid, Commit>,
                                              blob: Oid, x: BlobAppearance)
    requires |oids| == |a|
    ensures (x in AppearancesIn(NonEmpty(oids, a), commits, blob)
             <==> exists n: nat :: GivenBy(oids, a, commits, blob, x, n))
  {
    if oids == [] { return; }
    hide NonEmpty, AppearancesIn, GivenBy;
    var n := |oids| - 1;
    AppearancesOfNodes(oids[..n], a[..n], commits, blob, x);
    LastGives(oids, a, commits, blob, x);
    SomeGives(oids, a, commits, blob, x);
  }

  lemma SomeGives(oids: seq<Oid>, a: seq<seq<IntroducedBlob>>, commits: map<Oid, Commit>, blob: Oid,
                  x: BlobAppearance)
    requires |oids| == |a| && oids != []
    ensures var n := |oids| - 1;
      ((exists k: nat :: GivenBy(oids, a, commits, blob, x, k))
       <==> (exists k: nat :: GivenBy(oids[..n], a[..n], commits, blob, x, k)) || GivenBy(oids, a, commits, blob, x, n))
  {
    var n := |oids| - 1;
    if k: nat :| GivenBy(oids, a, commits, blob, x, k) { EarlierGives(oids, a, commits, blob, x, k); }
    if k: nat :| GivenBy(oids[..n], a[..n], commits, blob, x, k) { EarlierGives(oids, a, commits, blob, x, k); }
  }

  lemma EarlierGives(oids: seq<Oid>, a: seq<seq<IntroducedBlob>>, commits: map<Oid, Commit>, blob: Oid,
                     x: BlobAppearance, k: nat)
    requires |oids| == |a| && oids != []
    ensures var n := |oids| - 1;
      (GivenBy(oids[..n], a[..n], commits, blob, x, k) <==> k < n && GivenBy(oids, a, commits, blob, x, k))
  {
    hide PathsOf, Credited;
  }

  lemma LastGives(oids: seq<Oid>, a: seq<seq<IntroducedBlob>>, commits: map<Oid, Commit>, blob: Oid,
                  x: BlobAppearance)
    requires |oids| == |a| && oids != []
    ensures var n := |oids| - 1;
      (x in AppearancesIn(NonEmpty(oids, a), commits, blob)
       <==> x in AppearancesIn(NonEmpty(oids[..n], a[..n]), commits, blob) || GivenBy(oids, a, commits, blob, x, n))
  {
    AppearancesSnoc(oids, a, commits, blob);
    hide NonEmpty, PathsOf, AppearancesIn, Credited;
  }

  /** On an acyclic history every appearance is a true introduction by a readable commit. */
  lemma AppearanceIsIntroduction(odb: Odb, p: Plan, candidates: set<Oid>, commits: map<Oid, Commit>, blob: Oid,
                                 x: BlobAppearance)
    returns (n: nat)
    requires |p.oids| == |p.roots|
    requires forall n :: 0 <= n < |p.roots| && p.roots[n].Some? ==> p.roots[n].value in odb.indexed
    requires x in Appearances(odb, p, candidates, commits, blob)
    ensures n < |p.oids| && p.oids[n] == x.commit
    ensures x.commit in commits && commits[x.commit].committerDecodes
    ensures IntroducedAt(odb, p, n, blob, x.path)
  {
    var h := HistoryOf(p);
    var a := AllAttributed(odb, h, candidates);
    AppearancesOfNodes(p.oids, a, commits, blob, x);
    n :| GivenBy(p.oids, a, commits, blob, x, n);
    var out := Attributed(odb, h, candidates, n);
    PathsAreRendered(p.oids[n], out, blob);
    AttributedIsExact(odb, h, candidates, n);
    var f :| f in out && f.blob == blob && x.path == Joined(f.path);
    assert Among(out, blob);
    assert NamesBlob(odb, p.roots[n].value, f.path, blob);
  }

  /** Every introduction of a candidate by a readable commit gives that commit an appearance. */
  lemma IntroductionAppears(odb: Odb, p: Plan, candidates: set<Oid>, commits: map<Oid, Commit>, blob: Oid, n: nat,
                            path: seq<Byte>)
    returns (x: BlobAppearance)
    requires |p.oids| == |p.roots| && blob in candidates && !Cyclic(HistoryOf(p))
    requires forall n :: 0 <= n < |p.roots| && p.roots[n].Some? ==> p.roots[n].value in odb.indexed
    requires n < |p.oids| && p.oids[n] in commits && commits[p.oids[n]].committerDecodes
    requires IntroducedAt(odb, p, n, blob, path)
    ensures x in Appearances(odb, p, candidates, commits, blob) && x.commit == p.oids[n]
  {
    var h := HistoryOf(p);
    var a := AllAttributed(odb, h, candidates);
    var out := Attributed(odb, h, candidates, n);
    var names :| NamesBlob(odb, p.roots[n].value, names, blob) && path == Joined(names);
    NamedIsContained(odb, p.roots[n].value, names, blob);
    AttributedIsExact(odb, h, candidates, n);
    FoundHasPath(p.oids[n], out, blob);
    PathsAreRendered(p.oids[n], out, blob);
    assert a[n] == Render(out) && Among(out, blob);
    x := PathsOf(p.oids[n], a[n], blob)[0];
    assert GivenBy(p.oids, a, commits, blob, x, n);
    AppearancesOfNodes(p.oids, a, commits, blob, x);
  }

  // ----- all appearances, in order

  /** An entry of what one commit introduces. */
  datatype Place = Place(node: nat, entry: nat)

  predicate Precedes(a: Place, b: Place) { a.node < b.node || (a.node == b.node && a.entry < b.entry) }

  /** The place introduces the blob, and its commit can be read and has a committer that decodes. */
  ghost predicate Introduces(oids: seq<Oid>, a: seq<seq<IntroducedBlob>>, commits: map<Oid, Commit>, blob: Oid,
                             at: Place)
    requires |oids| == |a|
  {
    && at.node < |oids| && at.entry < |a[at.node]| && a[at.node][at.entry].blob == blob
    && oids[at.node] in commits && commits[oids[at.node]].committerDecodes
  }

  /** Each appearance has the commit and the path of its place. */
  ghost predicate TakenFrom(oids: seq<Oid>, a: seq<seq<IntroducedBlob>>, commits: map<Oid, Commit>, blob: Oid,
                            found: seq<BlobAppearance>, places: seq<Place>)
    requires |oids| == |a|
  {
    && |found| == |places|
    && forall i :: 0 <= i < |places| ==>
         && Introduces(oids, a, commits, blob, places[i])
         && found[i] == BlobAppearance(oids[places[i].node], a[places[i].node][places[i].entry].path)
  }

  ghost predicate InOrder(places: seq<Place>) {
    forall i, j :: 0 <= i < j < |places| ==> Precedes(places[i], places[j])
  }

  ghost predicate HasAll(oids: seq<Oid>, a: seq<seq<IntroducedBlob>>, commits: map<Oid, Commit>, blob: Oid,
                         places: seq<Place>)
    requires |oids| == |a|
  {
    forall at :: Introduces(oids, a, commits, blob, at) ==> at in places
  }

  /** The appearances are those of the places, all of them, by commit and then by entry. */
  ghost predicate Enumerates(oids: seq<Oid>, a: seq<seq<IntroducedBlob>>, commits: map<Oid, Commit>, blob: Oid,
                             found: seq<BlobAppearance>, places: seq<Place>)
    requires |oids| == |a|
  {
    TakenFrom(oids, a, commits, blob, found, places) && InOrder(places) && HasAll(oids, a, commits, blob, places)
  }

  /** The picked entries are those of the blob, in order, and the paths are theirs. */
  ghost predicate Picks(commit: Oid, introduced: seq<IntroducedBlob>, blob: Oid, paths: seq<BlobAppearance>,
                        picks: seq<nat>) {
    && |picks| == |paths|
    && (forall i :: 0 <= i < |picks| ==>
          && picks[i] < |introduced| && introduced[picks[i]].blob == blob
          && paths[i] == BlobAppearance(commit, introduced[picks[i]].path))
    && (forall i, j :: 0 <= i < j < |picks| ==> picks[i] < picks[j])
    && (forall k :: 0 <= k < |introduced| && introduced[k].blob == blob ==> k in picks)
  }

  lemma {:induction false} PathsAre(commit: Oid, introduced: seq<IntroducedBlob>, blob: Oid)
    returns (picks: seq<nat>)
    ensures Picks(commit, introduced, blob, PathsOf(commit, introduced, blob), picks)
  {
    if introduced == [] { return []; }
    hide Picks;
    var n := |introduced| - 1;
    picks := PathsAre(commit, introduced[..n], blob);
    OnePick(commit, introduced, blob, PathsOf(commit, introduced[..n], blob), picks);
    if introduced[n].blob == blob {
      picks := picks + [n];
    } else {
      assert PathsOf(commit, introduced, blob) == PathsOf(commit, introduced[..n], blob);
    }
  }

  lemma OnePick(commit: Oid, introduced: seq<IntroducedBlob>, blob: Oid, paths: seq<BlobAppearance>, picks: seq<nat>)
    requires introduced != [] && Picks(commit, introduced[..|introduced| - 1], blob, paths, picks)
    ensures var n := |introduced| - 1;
      if introduced[n].blob == blob
      then Picks(commit, introduced, blob, paths + [BlobAppearance(commit, introduced[n].path)], picks + [n])
      else Picks(commit, introduced, blob, paths, picks)
  {
    var n := |introduced| - 1;
    assert forall k :: 0 <= k < n ==> introduced[..n][k] == introduced[k];
  }

  lemma {:induction false} AppearancesAre(oids: seq<Oid>, a: seq<seq<IntroducedBlob>>, commits: map<Oid, Commit>,
                                          blob: Oid)
    returns (places: seq<Place>)
    requires |oids| == |a|
    ensures Enumerates(oids, a, commits, blob, AppearancesIn(NonEmpty(oids, a), commits, blob), places)
  {
    if oids == [] {
      places := [];
      return;
    }
    hide Enumerates, PathsOf, AppearancesIn, NonEmpty, Picks;
    var n := |oids| - 1;
    var before := AppearancesAre(oids[..n], a[..n], commits, blob);
    AppearancesSnoc(oids, a, commits, blob);
    var found := AppearancesIn(NonEmpty(oids[..n], a[..n]), commits, blob);
    if Credited(commits, oids[n]) {
      var picks := PathsAre(oids[n], a[n], blob);
      places := before + PlacesAt(n, picks);
      CommitEnumerated(oids, a, commits, blob, found, before, PathsOf(oids[n], a[n], blob), picks);
    } else {
      places := before;
      CommitPassedOver(oids, a, commits, blob, found, before);
      assert found + [] == found;
    }
  }

  lemma EarlierPlace(oids: seq<Oid>, a: seq<seq<IntroducedBlob>>, commits: map<Oid, Commit>, blob: Oid, at: Place)
    requires |oids| == |a| && oids != []
    ensures var n := |oids| - 1;
      (Introduces(oids[..n], a[..n], commits, blob, at) <==> at.node < n && Introduces(oids, a, commits, blob, at))
  {
  }

  lemma CommitPassedOver(oids: seq<Oid>, a: seq<seq<IntroducedBlob>>, commits: map<Oid, Commit>, blob: Oid,
                         found: seq<BlobAppearance>, before: seq<Place>)
    requires |oids| == |a| && oids != [] && !Credited(commits, oids[|oids| - 1])
    requires Enumerates(oids[..|oids| - 1], a[..|oids| - 1], commits, blob, found, before)
    ensures Enumerates(oids, a, commits, blob, found, before)
  {
    forall at { EarlierPlace(oids, a, commits, blob, at); }
    assert forall at :: Introduces(oids, a, commits, blob, at) ==> at.node != |oids| - 1;
  }

  function PlacesAt(n: nat, picks: seq<nat>): (r: seq<Place>)
    ensures |r| == |picks| && forall i :: 0 <= i < |r| ==> r[i] == Place(n, picks[i])
  {
    seq(|picks|, i requires 0 <= i < |picks| => Place(n, picks[i]))
  }

  lemma CommitTaken(oids: seq<Oid>, a: seq<seq<IntroducedBlob>>, commits: map<Oid, Commit>, blob: Oid,
                    found: seq<BlobAppearance>, before: seq<Place>, paths: seq<BlobAppearance>, picks: seq<nat>)
    requires |oids| == |a| && oids != [] && Credited(commits, oids[|oids| - 1])
    requires TakenFrom(oids[..|oids| - 1], a[..|oids| - 1], commits, blob, found, before)
    requires Picks(oids[|oids| - 1], a[|oids| - 1], blob, paths, picks)
    ensures TakenFrom(oids, a, commits, blob, found + paths, before + PlacesAt(|oids| - 1, picks))
  {
    var n := |oids| - 1;
    var all := before + PlacesAt(n, picks);
    forall i | 0 <= i < |all|
      ensures Introduces(oids, a, commits, blob, all[i])
      ensures (found + paths)[i] == BlobAppearance(oids[all[i].node], a[all[i].node][all[i].entry].path)
    {
      if i < |before| {
        assert all[i] == before[i] && Introduces(oids[..n], a[..n], commits, blob, before[i]);
        EarlierPlace(oids, a, commits, blob, before[i]);
      } else {
        assert all[i] == Place(n, picks[i - |before|]);
      }
    }
  }

  lemma CommitInOrder(n: nat, before: seq<Place>, picks: seq<nat>)
    requires InOrder(before) && forall i :: 0 <= i < |before| ==> before[i].node < n
    requires forall i, j :: 0 <= i < j < |picks| ==> picks[i] < picks[j]
    ensures InOrder(before + PlacesAt(n, picks))
  {
  }

  lemma CommitHasAll(oids: seq<Oid>, a: seq<seq<IntroducedBlob>>, commits: map<Oid, Commit>, blob: Oid,
                     before: seq<Place>, picks: seq<nat>)
    requires |oids| == |a| && oids != [] && HasAll(oids[..|oids| - 1], a[..|oids| - 1], commits, blob, before)
    requires forall k :: 0 <= k < |a[|oids| - 1]| && a[|oids| - 1][k].blob == blob ==> k in picks
    ensures HasAll(oids, a, commits, blob, before + PlacesAt(|oids| - 1, picks))
  {
    var n := |oids| - 1;
    var here := PlacesAt(n, picks);
    forall at | Introduces(oids, a, commits, blob, at) ensures at in before + here {
      EarlierPlace(oids, a, commits, blob, at);
      if at.node == n {
        assert a[n][at.entry].blob == blob && at.entry in picks;
        var i :| 0 <= i < |picks| && picks[i] == at.entry;
        assert here[i] == at;
      }
    }
  }

  lemma CommitEnumerated(oids: seq<Oid>, a: seq<seq<IntroducedBlob>>, commits: map<Oid, Commit>, blob: Oid,
                         found: seq<BlobAppearance>, before: seq<Place>, paths: seq<BlobAppearance>, picks: seq<nat>)
    requires |oids| == |a| && oids != [] && Credited(commits, oids[|oids| - 1])
    requires Enumerates(oids[..|oids| - 1], a[..|oids| - 1], commits, blob, found, before)
    requires Picks(oids[|oids| - 1], a[|oids| - 1], blob, paths, picks)
    ensures Enumerates(oids, a, commits, blob, found + paths, before + PlacesAt(|oids| - 1, picks))
  {
    var n := |oids| - 1;
    forall i | 0 <= i < |before| ensures before[i].node < n {
      assert Introduces(oids[..n], a[..n], commits, blob, before[i]);
    }
    hide Introduces, TakenFrom, InOrder, HasAll;
    CommitTaken(oids, a, commits, blob, found, before, paths, picks);
    CommitInOrder(n, before, picks);
    CommitHasAll(oids, a, commits, blob, before, picks);
  }

  /** On an acyclic history a blob's appearances are, commit by commit, all places at which the walk of that commit
      lists it, in the order of the walk. */
  lemma AppearancesAreComplete(odb: Odb, p: Plan, candidates: set<Oid>, commits: map<Oid, Commit>, blob: Oid)
    returns (places: seq<Place>)
    requires |p.oids| == |p.roots| && !Cyclic(HistoryOf(p))
    ensures Enumerates(p.oids, AllAttributed(odb, HistoryOf(p), candidates), commits, blob,
                       Appearances(odb, p, candidates, commits, blob), places)
  {
    hide Enumerates, AppearancesIn, NonEmpty;
    places := AppearancesAre(p.oids, AllAttributed(odb, HistoryOf(p), candidates), commits, blob);
  }

  // ----- assembly

  ghost predicate Assembled(blobs: seq<GitBlobMetadata>, ids: seq<Oid>, metadata: seq<CommitBlobs>,
                            commits: map<Oid, Commit>) {
    && |blobs| == |ids|
    && forall i :: 0 <= i < |ids| ==> blobs[i] == GitBlobMetadata(ids[i], AppearancesIn(metadata, commits, ids[i]))
  }

  /** Appends one commit's introductions to the blobs they belong to. */
  method Credit(commit: Oid, introduced: seq<IntroducedBlob>, index: Bimap, blobs: seq<GitBlobMetadata>)
    returns (r: seq<GitBlobMetadata>)
    requires index.Valid() && |blobs| == |index.ids|
    ensures |r| == |blobs|
    ensures forall i :: 0 <= i < |r| ==>
      r[i] == blobs[i].(firstSeen := blobs[i].firstSeen + PathsOf(commit, introduced, index.ids[i]))
  {
    r := blobs;
    for k := 0 to |introduced|
      invariant |r| == |blobs|
      invariant forall i :: 0 <= i < |r| ==>
        r[i] == blobs[i].(firstSeen := blobs[i].firstSeen + PathsOf(commit, introduced[..k], index.ids[i]))
    {
      assert introduced[..k + 1][..k] == introduced[..k];
      var found := index.GetIdx(introduced[k].blob);
      if found.Some? {
        var i := found.value;
        r := r[i := r[i].(firstSeen := r[i].firstSeen + [BlobAppearance(commit, introduced[k].path)])];
      }
    }
    assert introduced[..|introduced|] == introduced;
  }

  method Assemble(metadata: seq<CommitBlobs>, commits: map<Oid, Commit>, index: Bimap)
    returns (blobs: seq<GitBlobMetadata>)
    requires index.Valid()
    ensures Assembled(blobs, index.ids, metadata, commits)
  {
    blobs := seq(|index.ids|, i requires 0 <= i < |index.ids| reads index => GitBlobMetadata(index.ids[i], []));
    for n := 0 to |metadata|
      invariant Assembled(blobs, index.ids, metadata[..n], commits)
    {
      assert metadata[..n + 1][..n] == metadata[..n];
      var e := metadata[n];
      if Credited(commits, e.commit) {
        blobs := Credit(e.commit, e.introduced, index, blobs);
      }
    }
    assert metadata[..|metadata|] == metadata;
  }

  /** The blobs the enumeration yields: all scannable ones, or those the content prepass retains when
      there is a filter and enough blobs to make the prepass worthwhile. */
  function Yielded(objects: seq<Header>, filter: Option<ContentFilter>, minimumBlobs: nat): (r: seq<Oid>) {
    var all := IdsOf(objects, BlobKind);
    if filter.Some? && |all| >= minimumBlobs then Select(all, Retained(filter.value, all)) else all
  }

  lemma YieldedAreBlobs(objects: seq<Header>, filter: Option<ContentFilter>, minimumBlobs: nat)
    ensures AsSet(Yielded(objects, filter, minimumBlobs)) <= AsSet(IdsOf(objects, BlobKind))
  {
    var all := IdsOf(objects, BlobKind);
    if filter.Some? {
      SelectedIndexed(all, Retained(filter.value, all), Select(all, Retained(filter.value, all)));
    }
  }

  /** The index in either mode, before compaction. Yields false when no candidate remains. */
  method PrepareIndex(objects: seq<Header>, store: map<Oid, seq<Entry>>, filter: Option<ContentFilter>,
                      minimumBlobs: nat,
                      others: CandidateSummaries.Context -> Schedule)
    returns (index: Index, odb: Odb, more: bool)
    requires forall cx :: Obeys(cx, others(cx))
    ensures fresh(index) && fresh(index.Parts()) && index.Valid()
    ensures odb.trees == store && forall t :: t in odb.indexed <==> t in IdsOf(objects, TreeKind)
    ensures index.blobs.ids == Yielded(objects, filter, minimumBlobs)
    ensures !more ==> index.blobs.ids == []
    ensures more ==> index.Sound(odb) && index.CandidatesInRange()
    ensures more ==> index.trees.ids == IdsOf(objects, TreeKind) && index.commits.ids == IdsOf(objects, CommitKind)
  {
    index := new Index(objects);
    more := true;
    odb := Odb(store, set t | t in index.trees.ids);
    if filter.Some? && |index.blobs.ids| >= minimumBlobs {
      index.RetainBlobIndexes(Retained(filter.value, index.blobs.ids));
      if |index.blobs.ids| == 0 {
        more := false;
        return;
      }
      index.PrepareCandidateTrees(odb, others(CandidateSummaries.Context(odb, index.trees.ids, index.blobs.ids)));
    }
  }

  /** Enumerates the blobs of a repository with their appearances. With or without the candidate
      filter, and whatever the filter's workers and the traversal's queue do, every blob yielded
      carries exactly the appearances of the unfiltered run, whose commits and paths
      `Attributed` defines over all scannable blobs. `None` is the interner's panic, when the
      names in the store are too much for it. */
  method Run(objects: seq<Header>, store: map<Oid, seq<Entry>>, commits: map<Oid, Commit>,
             filter: Option<ContentFilter>,
             minimumBlobs: nat, others: CandidateSummaries.Context -> Schedule)
    returns (out: Option<seq<GitBlobMetadata>>)
    requires forall cx :: Obeys(cx, others(cx))
    ensures out.Some? ==>
      var ids := Yielded(objects, filter, minimumBlobs);
      && |out.value| == |ids|
      && forall i :: 0 <= i < |ids| ==>
           out.value[i] == GitBlobMetadata(ids[i], EagerAppearances(objects, store, commits, ids[i]))
    ensures out.None? ==> Overfull(NamesOf(store))
  {
    hide Overfull, NamesOf, Assembled, Walked, EagerAppearances, AsSet, Planned, IdsOf;
    var index, odb, more := PrepareIndex(objects, store, filter, minimumBlobs, others);
    if !more {
      return Some([]);
    }
    ghost var ids := index.blobs.ids;
    ghost var p := Planned(index.commits.ids, commits, index.trees.ids);
    var graph := BuildGraph(index.commits.ids, commits, index.trees);
    BuiltIsRooted(odb, p, AsSet(ids), index.trees.ids, graph.nodes);
    out := WalkAndAssemble(index, graph, commits, odb, p);
    if out.Some? {
      YieldedAreBlobs(objects, filter, minimumBlobs);
      assert odb == OdbOf(objects, store);
      YieldIsEager(objects, store, commits, ids, out.value);
    }
  }

  /** Compacts the index, walks the commit graph and assembles what the walk reports. */
  method WalkAndAssemble(index: Index, graph: Graph, commits: map<Oid, Commit>, odb: Odb, ghost p: Plan)
    returns (out: Option<seq<GitBlobMetadata>>)
    requires index.Sound(odb) && index.CandidatesInRange()
    requires graph.Valid() && graph.edges == p.edges && index.Rooted(odb, p, graph.nodes)
    modifies index`candidateTrees, index`trees, index.candidateSummaries, graph`nodes
    ensures out.Some? ==>
      Assembled(out.value, old(index.blobs.ids), Walked(odb, p, AsSet(old(index.blobs.ids))), commits)
    ensures out.None? ==> Overfull(NamesOf(odb.trees))
  {
    hide Overfull, NamesOf, Assembled, Cyclic, AllAttributed, NonEmpty, AsSet;
    index.CompactCandidateTrees(graph, odb, p);
    var outcome := GetRepoMetadata(odb, index, graph, p);
    if outcome.InternerFull? {
      return None;
    }
    var blobs := Assemble(if outcome.Metadata? then outcome.commits else [], commits, index.blobs);
    return Some(blobs);
  }

  /** Appearances assembled from the traversal over some of the blobs are those of the eager run. */
  lemma YieldIsEager(objects: seq<Header>, store: map<Oid, seq<Entry>>, commits: map<Oid, Commit>, ids: seq<Oid>,
                     blobs: seq<GitBlobMetadata>)
    requires AsSet(ids) <= AsSet(IdsOf(objects, BlobKind))
    requires var p := Planned(IdsOf(objects, CommitKind), commits, IdsOf(objects, TreeKind));
      Assembled(blobs, ids, Walked(OdbOf(objects, store), p, AsSet(ids)), commits)
    ensures |blobs| == |ids|
    ensures forall i :: 0 <= i < |ids| ==>
      blobs[i] == GitBlobMetadata(ids[i], EagerAppearances(objects, store, commits, ids[i]))
  {
    var p := Planned(IdsOf(objects, CommitKind), commits, IdsOf(objects, TreeKind));
    PlanDescribesCommits(IdsOf(objects, CommitKind), commits, IdsOf(objects, TreeKind));
    forall i | 0 <= i < |ids|
      ensures blobs[i] == GitBlobMetadata(ids[i], EagerAppearances(objects, store, commits, ids[i]))
    {
      PruningPreservesAppearances(OdbOf(objects, store), p, AsSet(IdsOf(objects, BlobKind)), AsSet(ids),
                                  commits, ids[i]);
    }
  }

  ghost function OdbOf(objects: seq<Header>, store: map<Oid, seq<Entry>>): Odb {
    Odb(store, set t | t in IdsOf(objects, TreeKind))
  }

  /** The appearances every scannable blob takes part in: the reference the enumeration is held to. */
  ghost function EagerAppearances(objects: seq<Header>, store: map<Oid, seq<Entry>>, commits: map<Oid, Commit>,
                                  blob: Oid): (r: seq<BlobAppearance>) {
    Appearances(OdbOf(objects, store), Planned(IdsOf(objects, CommitKind), commits, IdsOf(objects, TreeKind)),
                AsSet(IdsOf(objects, BlobKind)), commits, blob)
  }

  lemma BuiltIsRooted(odb: Odb, p: Plan, candidates: set<Oid>, trees: seq<Oid>, nodes: seq<Node>)
    requires Matches(nodes, p, trees)
    ensures RootedIn(odb, p, candidates, trees, nodes)
  {
    forall n | 0 <= n < |nodes| ensures RootedAt(odb, candidates, trees, p.roots[n], nodes[n].tree) {
      assert Named(trees, nodes[n].tree) == p.roots[n];
    }
  }
}
