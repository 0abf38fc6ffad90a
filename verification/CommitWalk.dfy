/** One commit of the graph traversal: what it reports, and what it hands to its children. */
module CommitWalk {
  import opened BStringTable
  import opened Bytes
  import opened CandidateSummaries
  import opened CommitGraph
  import opened CommitHistory
  import opened GitObjects
  import opened ObjectIds
  import opened RepositoryIndex
  import opened TreeTraversal
  import opened TreeWalk
  import opened WalkMeaning
  import opened Wrappers

  ghost function AsSet(ids: seq<Oid>): (r: set<Oid>) {
    set o | o in ids
  }

  /** The candidates some proper ancestor has, and those available at the commit itself. */
  ghost function InheritedBlobs(odb: Odb, h: History, blobs: seq<Oid>, c: nat): (r: set<Oid>) {
    set b | b in blobs && Inherited(odb, h, c, b)
  }

  ghost function AvailableBlobs(odb: Odb, h: History, blobs: seq<Oid>, c: nat): (r: set<Oid>) {
    set b | b in blobs && Available(odb, h, c, b)
  }

  /** A seen set that knows exactly the given blobs, and knows every candidate below a tree it
      marks as seen. This is what makes skipping seen trees safe. */
  ghost predicate SeenFor(odb: Odb, trees: seq<Oid>, blobs: seq<Oid>, s: Seen, known: set<Oid>) {
    && (forall i :: i in s.trees ==> i < |trees|)
    && Oids(blobs, s.blobs) == known
    && forall t, b :: t in Oids(trees, s.trees) && b in blobs && Contains(odb, t, b) ==> b in known
  }

  lemma ReportIsFresh(odb: Odb, h: History, f: Frame, c: nat)
    requires Distinct(f.blobs) && Oids(f.blobs, f.ancestors) == InheritedBlobs(odb, h, f.blobs, c)
    ensures ScopeOf(f).report == Fresh(odb, h, AsSet(f.blobs), c)
  {
    forall b ensures b in ScopeOf(f).report <==> b in Fresh(odb, h, AsSet(f.blobs), c) {
      if b in f.blobs {
        var i :| 0 <= i < |f.blobs| && f.blobs[i] == b;
        OidsHas(f.blobs, Unseen(f.blobs, f.ancestors), i);
        OidsHas(f.blobs, f.ancestors, i);
      }
    }
  }

  /** With a sound index, skipping unmarked, covered and already seen trees loses nothing. */
  lemma IndexIsThorough(index: Index, odb: Odb, f: Frame, s: Seen)
    requires index.Sound(odb) && Framed(index, f) && s.blobs == f.ancestors
    requires SeenFor(odb, f.trees, f.blobs, s, Oids(f.blobs, s.blobs))
    ensures Thorough(odb, ScopeOf(f), Oids(f.trees, s.trees))
  {
    var sc := ScopeOf(f);
    assert Distinct(f.trees) && Distinct(f.blobs) by { assert index.trees.Valid() && index.blobs.Valid(); }
    forall t | t in odb.indexed && (t !in sc.enter || t in Oids(f.trees, s.trees))
      ensures !Bears(odb, sc.report, t)
    {
      if Bears(odb, sc.report, t) {
        var b :| b in sc.report && Contains(odb, t, b);
        var k :| 0 <= k < |f.blobs| && f.blobs[k] == b && k !in f.ancestors;
        OidsHas(f.blobs, f.ancestors, k);
        assert b in index.Candidates();
        assert Bears(odb, index.Candidates(), t);
        var i :| 0 <= i < |f.trees| && f.trees[i] == t && index.IsCandidate(i);
        OidsHas(f.trees, f.enterable, i);
        OidsHas(f.trees, s.trees, i);
        if index.candidateSummaries != null {
          assert k in Held(index.Context(odb), t);
          CoveredMeansHeld(index.Context(odb), index.candidateSummaries, i, f.ancestors);
        }
      }
    }
  }

  /** The state after a thorough walk is the seen set of the commit's children. */
  lemma WalkHandsOver(odb: Odb, h: History, f: Frame, c: nat, root: Oid, s: Seen, s': Seen)
    requires Distinct(f.blobs) && c < |h.roots| && h.roots[c] == Some(root) && root in odb.indexed
    requires Thorough(odb, ScopeOf(f), Oids(f.trees, s.trees)) && s.blobs == f.ancestors
    requires (forall t :: t in f.trees ==> t in odb.indexed)
    requires SeenFor(odb, f.trees, f.blobs, s, InheritedBlobs(odb, h, f.blobs, c))
    requires var r := WalkFrom(odb, ScopeOf(f), root, Oids(f.trees, s.trees));
      && (forall i :: i in s'.trees ==> i < |f.trees|) && Oids(f.trees, s'.trees) == r.seen
      && Oids(f.blobs, s'.blobs) == Oids(f.blobs, s.blobs) + BlobsOf(r.out)
    ensures SeenFor(odb, f.trees, f.blobs, s', AvailableBlobs(odb, h, f.blobs, c))
  {
    var r := WalkFrom(odb, ScopeOf(f), root, Oids(f.trees, s.trees));
    ReportIsFresh(odb, h, f, c);
    WalkIsExact(odb, ScopeOf(f), root, Oids(f.trees, s.trees));
    forall b ensures b in Oids(f.blobs, s'.blobs) <==> b in AvailableBlobs(odb, h, f.blobs, c) {
      assert b in BlobsOf(r.out) <==> Reported(r, b);
      assert b in Fresh(odb, h, AsSet(f.blobs), c) <==> b in f.blobs && !Inherited(odb, h, c, b);
    }
    forall t, b | t in Oids(f.trees, s'.trees) && b in f.blobs && Contains(odb, t, b)
      ensures b in AvailableBlobs(odb, h, f.blobs, c)
    {
      if b in ScopeOf(f).report {
        assert Reported(r, b);
        assert b in BlobsOf(r.out);
      }
    }
  }

  /** A thorough walk reports the commit's attribution. */
  lemma WalkAttributes(odb: Odb, h: History, f: Frame, c: nat, root: Oid, seen: set<Oid>)
    requires Distinct(f.blobs) && c < |h.roots| && h.roots[c] == Some(root) && root in odb.indexed
    requires Thorough(odb, ScopeOf(f), seen)
    requires Oids(f.blobs, f.ancestors) == InheritedBlobs(odb, h, f.blobs, c)
    ensures WalkFrom(odb, ScopeOf(f), root, seen).out == Attributed(odb, h, AsSet(f.blobs), c)
  {
    var sc := ScopeOf(f);
    ReportIsFresh(odb, h, f, c);
    assert Scope(sc.enter, sc.report) == sc;
    WalkRefinesReference(odb, sc, sc.report, root, seen);
    ReportedAreWanted(odb, sc, Start(sc, root, seen));
    KeepAll(WalkFrom(odb, sc, root, seen).out, sc.report);
  }

  /** A commit without a tree, or whose tree holds no candidate, introduces nothing and hands on
      what it inherits. */
  lemma NothingToAttribute(odb: Odb, h: History, blobs: seq<Oid>, c: nat)
    requires c < |h.roots| && (h.roots[c].Some? ==> !Bears(odb, AsSet(blobs), h.roots[c].value))
    ensures Attributed(odb, h, AsSet(blobs), c) == []
    ensures AvailableBlobs(odb, h, blobs, c) == InheritedBlobs(odb, h, blobs, c)
  {
    forall b | b in blobs ensures !RootContains(odb, h, c, b) {
      assert b in AsSet(blobs);
    }
    if h.roots[c].Some? {
      var wanted := Fresh(odb, h, AsSet(blobs), c);
      assert h.roots[c].value !in BearingTrees(odb, wanted);
    }
  }

  /** Entering the root marks it seen before its entries are read. */
  lemma StartTracks(f: Frame, storage: seq<Byte>, s: Seen, root: nat)
    requires root < |f.trees| && root in f.enterable && root !in s.trees && Distinct(f.trees)
    requires forall i :: i in s.trees ==> i < |f.trees|
    ensures Tracks(f, storage, [], Progress(s.(trees := s.trees + {root}), [WorkItem([], f.trees[root])], [], []),
                   Start(ScopeOf(f), f.trees[root], Oids(f.trees, s.trees)))
  {
    OidsHas(f.trees, f.enterable, root);
    OidsHas(f.trees, s.trees, root);
    OidsInsert(f.trees, s.trees, root);
    assert Names(storage, []) == [];
  }

  lemma NothingWalked(odb: Odb, f: Frame, root: Oid, seen: set<Oid>)
    requires root !in ScopeOf(f).enter || root in seen
    ensures WalkFrom(odb, ScopeOf(f), root, seen) == State([], seen, [])
  {
  }

  /** Processes one commit whose seen set holds what it inherits. */
  method VisitCommit(odb: Odb, symbols: Table, index: Index, tree: Option<nat>, seen: Seen, ghost h: History,
                     ghost c: nat)
    returns (seen': Seen, introduced: seq<IntroducedBlob>, ok: bool)
    requires index.Sound(odb) && symbols.Valid() && c < |h.roots|
    requires RootedAt(odb, index.Candidates(), index.trees.ids, h.roots[c], tree)
    requires SeenFor(odb, index.trees.ids, index.blobs.ids, seen, InheritedBlobs(odb, h, index.blobs.ids, c))
    requires NamesOf(odb.trees) <= symbols.universe
    modifies symbols
    ensures !ok ==> Overfull(symbols.universe)
    ensures ok ==> symbols.Valid()
    ensures ok ==> SeenFor(odb, index.trees.ids, index.blobs.ids, seen', AvailableBlobs(odb, h, index.blobs.ids, c))
    ensures ok ==> introduced == Render(Attributed(odb, h, AsSet(index.blobs.ids), c))
  {
    hide Thorough, InheritedBlobs, AvailableBlobs, Attributed, Tracks, Oids, Walk;
    seen', introduced, ok := seen, [], true;
    SoundIsUsable(index, odb);
    if tree.None? {
      NothingToAttribute(odb, h, index.blobs.ids, c);
      return;
    }
    ghost var f := FrameOf(index, seen.blobs);
    IndexIsThorough(index, odb, f, seen);
    var root := index.trees.GetOid(tree.value).value;
    ghost var known := Oids(f.trees, seen.trees);
    assert Distinct(f.trees) && Distinct(f.blobs) by { assert index.trees.Valid() && index.blobs.Valid(); }
    OidsHas(f.trees, f.enterable, tree.value);
    OidsHas(f.trees, seen.trees, tree.value);
    if root !in ScopeOf(f).enter || root in known { NothingWalked(odb, f, root, known); }
    if index.IsCandidate(tree.value) && !index.TreeIsCovered(tree.value, seen.blobs) && tree.value !in seen.trees {
      seen' := seen.(trees := seen.trees + {tree.value});
      StartTracks(f, symbols.storage, seen, tree.value);
      ghost var start := Start(ScopeOf(f), root, known);
      seen', introduced, ok := VisitTree(odb, symbols, index, seen', [], [WorkItem([], root)], start, f);
      if !ok {
        return;
      }
    }
    WalkAttributes(odb, h, f, c, root, known);
    WalkHandsOver(odb, h, f, c, root, seen, seen');
  }

  ghost function FrameOf(index: Index, ancestors: set<nat>): (f: Frame)
    requires index.Usable()
    reads index, index.Parts()
    ensures Framed(index, f) && f.ancestors == ancestors
  {
    Frame(index.trees.ids, index.blobs.ids,
          (set i | 0 <= i < |index.trees.ids| && index.IsCandidate(i) && !index.TreeIsCovered(i, ancestors)),
          ancestors)
  }
}
