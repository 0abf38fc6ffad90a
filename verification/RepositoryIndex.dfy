/** The object index of a repository: its construction, the candidate filter, and compaction. */
module RepositoryIndex {
  import opened CandidateSummaries
  import opened CommitGraph
  import opened CommitHistory
  import opened GitObjects
  import opened ObjectIds
  import opened WalkMeaning
  import opened Wrappers

  const MIN_SCANNABLE_BLOB_SIZE: nat := 20

  /** The sentinel that marks an unselected tree during compaction. */
  const NOT_SELECTED: nat := 0xFFFF_FFFF

  datatype Kind = TreeKind | BlobKind | CommitKind | TagKind

  /** One entry of the object database whose header could be read. */
  datatype Header = Header(oid: Oid, kind: Kind, size: nat)

  predicate Scannable(o: Header) {
    o.kind.BlobKind? ==> o.size >= MIN_SCANNABLE_BLOB_SIZE
  }

  /** The IDs of one kind in database order, each at its first occurrence. */
  function IdsOf(objects: seq<Header>, kind: Kind): (r: seq<Oid>)
    ensures forall o :: o in r <==>
              exists h :: h in objects && h.kind == kind && h.oid == o
                          && (kind.BlobKind? ==> h.size >= MIN_SCANNABLE_BLOB_SIZE)
    ensures Distinct(r)
  {
    if objects == [] then []
    else
      var n := |objects| - 1;
      assert objects == objects[..n] + [objects[n]];
      var rest := IdsOf(objects[..n], kind);
      if objects[n].kind == kind && Scannable(objects[n]) && objects[n].oid !in rest then rest + [objects[n].oid]
      else rest
  }

  function WithId(ids: seq<Oid>, o: Header, kind: Kind): seq<Oid> {
    if o.kind == kind && Scannable(o) && o.oid !in ids then ids + [o.oid] else ids
  }

  lemma IdsStep(objects: seq<Header>, n: nat)
    requires n < |objects|
    ensures forall kind :: IdsOf(objects[..n + 1], kind) == WithId(IdsOf(objects[..n], kind), objects[n], kind)
  {
    assert objects[..n + 1][..n] == objects[..n];
  }

  /** Every tree that holds a candidate is in the index and is not marked clean. */
  ghost predicate LeadsToCandidates(odb: Odb, candidates: set<Oid>, ids: seq<Oid>, marked: Option<set<nat>>) {
    forall t :: t in odb.indexed && Bears(odb, candidates, t) ==>
      exists i :: 0 <= i < |ids| && ids[i] == t && (marked.None? || i in marked.value)
  }

  /** The commit's tree index names its root, unless the root holds no candidate. */
  ghost predicate RootedAt(odb: Odb, candidates: set<Oid>, ids: seq<Oid>, root: Option<Oid>, tree: Option<nat>) {
    match tree
    case Some(i) => i < |ids| && root == Some(ids[i])
    case None => root.Some? ==> !Bears(odb, candidates, root.value)
  }

  ghost predicate RootedIn(odb: Odb, p: Plan, candidates: set<Oid>, ids: seq<Oid>, nodes: seq<Node>) {
    && |nodes| == |p.roots| == |p.oids|
    && (forall n :: 0 <= n < |nodes| ==> nodes[n].oid == p.oids[n])
    && (forall n :: 0 <= n < |nodes| ==> RootedAt(odb, candidates, ids, p.roots[n], nodes[n].tree))
  }

  class Index {
    var trees: Bimap
    var commits: Bimap
    var blobs: Bimap
    var candidateTrees: Option<set<nat>>
    var contentFiltered: bool
    var candidateSummaries: Summaries?

    ghost function Parts(): set<object?>
      reads this
    {
      if candidateSummaries == null then {trees, commits, blobs} else {trees, commits, blobs, candidateSummaries}
    }

    ghost predicate Valid()
      reads this, Parts()
    {
      && trees.Valid() && commits.Valid() && blobs.Valid()
      && trees != commits && trees != blobs && commits != blobs
    }

    ghost function Context(odb: Odb): (cx: CandidateSummaries.Context)
      reads this, trees, blobs
    {
      CandidateSummaries.Context(odb, trees.ids, blobs.ids)
    }

    ghost function Candidates(): (r: set<Oid>)
      reads this, blobs
    {
      set o | o in blobs.ids
    }

    /** The index still leads to every tree that holds one of its blobs, and its summaries are
        right about the trees it has kept. */
    ghost predicate Sound(odb: Odb)
      reads this, Parts()
    {
      && Valid()
      && (forall t :: t in trees.ids ==> t in odb.indexed)
      && LeadsToCandidates(odb, Candidates(), trees.ids, candidateTrees)
      && (candidateSummaries != null ==> candidateSummaries.Sound(Context(odb)))
    }

    ghost predicate CandidatesInRange()
      reads this, trees
    {
      candidateTrees.Some? ==> forall i :: i in candidateTrees.value ==> i < |trees.ids|
    }

    /** Compaction does something: some tree is not a candidate, and the sentinel is free. */
    ghost predicate Compacts()
      reads this, trees
    {
      candidateTrees.Some? && |candidateTrees.value| != |trees.ids| && |trees.ids| <= NOT_SELECTED
    }

    ghost predicate Rooted(odb: Odb, p: Plan, nodes: seq<Node>)
      reads this, trees, blobs
    {
      RootedIn(odb, p, Candidates(), trees.ids, nodes)
    }

    predicate IsCandidate(tree: nat)
      reads this
    {
      candidateTrees.None? || tree in candidateTrees.value
    }

    ghost predicate Usable()
      reads this, Parts()
    {
      && Valid()
      && (candidateSummaries != null ==>
            && |candidateSummaries.trees| == |trees.ids|
            && forall i :: 0 <= i < |trees.ids| ==> WellEncoded(candidateSummaries.trees[i], candidateSummaries.sets))
    }

    predicate TreeIsCovered(tree: nat, seenBlobs: set<nat>)
      requires candidateSummaries != null ==>
        tree < |candidateSummaries.trees| && WellEncoded(candidateSummaries.trees[tree], candidateSummaries.sets)
      reads this, candidateSummaries
    {
      candidateSummaries != null && candidateSummaries.Covered(tree, seenBlobs)
    }

    /** Numbers every object of the database, kind by kind, skipping blobs too small to scan. */
    constructor (objects: seq<Header>)
      ensures Valid() && fresh(Parts())
      ensures trees.ids == IdsOf(objects, TreeKind) && commits.ids == IdsOf(objects, CommitKind)
      ensures blobs.ids == IdsOf(objects, BlobKind)
      ensures candidateTrees.None? && !contentFiltered && candidateSummaries == null
    {
      trees := new Bimap();
      commits := new Bimap();
      blobs := new Bimap();
      candidateTrees, contentFiltered, candidateSummaries := None, false, null;
      new;
      for n := 0 to |objects|
        invariant Valid() && fresh(Parts())
        invariant trees.ids == IdsOf(objects[..n], TreeKind) && commits.ids == IdsOf(objects[..n], CommitKind)
        invariant blobs.ids == IdsOf(objects[..n], BlobKind)
        invariant candidateTrees.None? && !contentFiltered && candidateSummaries == null
      {
        assert objects[..n + 1][..n] == objects[..n];
        hide IdsOf;
        IdsStep(objects, n);
        Number(objects[n]);
      }
      assert objects[..|objects|] == objects;
    }

    /** Numbers one object, unless it is a blob too small to scan. */
    method Number(o: Header)
      requires Valid() && candidateTrees.None? && !contentFiltered && candidateSummaries == null
      modifies Parts()
      ensures Valid() && Parts() == old(Parts())
      ensures trees.ids == WithId(old(trees.ids), o, TreeKind) && blobs.ids == WithId(old(blobs.ids), o, BlobKind)
      ensures commits.ids == WithId(old(commits.ids), o, CommitKind)
      ensures trees == old(trees) && blobs == old(blobs) && commits == old(commits)
      ensures candidateTrees.None? && !contentFiltered && candidateSummaries == null
    {
      if Scannable(o) {
        match o.kind
        case TreeKind => trees.Insert(o.oid);
        case BlobKind => blobs.Insert(o.oid);
        case CommitKind => commits.Insert(o.oid);
        case TagKind =>
      }
    }

    /** Keeps the selected blobs, in order, under new dense indexes. */
    method RetainBlobIndexes(keep: set<nat>)
      requires Valid() && candidateSummaries == null
      modifies this`blobs, this`contentFiltered
      ensures Valid() && contentFiltered && fresh(blobs)
      ensures blobs.ids == Select(old(blobs.ids), keep)
    {
      var ids := blobs.ids;
      assert Distinct(ids) by { assert blobs.Valid(); }
      var candidates := new Bimap();
      for i := 0 to |ids|
        invariant candidates.Valid() && fresh(candidates) && candidates.ids == Select(ids[..i], keep)
      {
        SelectStep(ids, keep, i);
        if i in keep {
          SelectedBefore(ids, keep, i);
          candidates.Insert(ids[i]);
        }
      }
      assert ids[..|ids|] == ids;
      blobs, contentFiltered := candidates, true;
    }

    /** Summarises every tree and marks those that are not known to be clean. */
    method PrepareCandidateTrees(odb: Odb, others: Schedule)
      requires Valid() && Obeys(Context(odb), others)
      requires forall t :: t in trees.ids <==> t in odb.indexed
      modifies this`candidateTrees, this`candidateSummaries
      ensures Sound(odb) && fresh(candidateSummaries) && candidateSummaries != null
      ensures candidateTrees.Some? && forall i :: i in candidateTrees.value ==> i < |trees.ids|
      ensures (forall i :: i in candidateTrees.value ==>
                 || Bears(odb, Candidates(), trees.ids[i]) || Excused(Context(odb), trees.ids[i])
                 || |candidateSummaries.sets| >= MULTI)
    {
      var summaries := Build(Context(odb), trees, blobs, odb, others);
      var relevant := summaries.Relevant();
      candidateTrees, candidateSummaries := Some(relevant), summaries;
      forall t | t in odb.indexed && Bears(odb, Candidates(), t)
        ensures exists i :: 0 <= i < |trees.ids| && trees.ids[i] == t && i in relevant
      {
        var b :| b in Candidates() && Contains(odb, t, b);
        var i := trees.table[t];
        assert blobs.table[b] in Held(Context(odb), t);
        assert Means(Context(odb), summaries.trees[i], summaries.sets, Context(odb).trees[i]);
      }
      forall i | i in relevant
        ensures || Bears(odb, Candidates(), trees.ids[i]) || Excused(Context(odb), trees.ids[i])
                || |summaries.sets| >= MULTI
      {
        assert Means(Context(odb), summaries.trees[i], summaries.sets, Context(odb).trees[i]);
        MarkedForAReason(Context(odb), summaries.trees[i], summaries.sets, trees.ids[i]);
      }
    }

    /** Drops the trees that are not candidates and renumbers the rest in order, together with
        their summaries and with the commits that refer to them. A commit whose tree is dropped
        keeps its place in the graph and loses only its tree. */
    method CompactCandidateTrees(graph: Graph, ghost odb: Odb, ghost p: Plan)
      requires Sound(odb) && CandidatesInRange() && graph.Valid() && Rooted(odb, p, graph.nodes)
      modifies this`candidateTrees, this`trees, candidateSummaries, graph`nodes
      ensures Sound(odb) && CandidatesInRange() && graph.Valid() && Rooted(odb, p, graph.nodes)
      ensures blobs == old(blobs) && candidateSummaries == old(candidateSummaries)
      ensures old(Compacts()) ==> (
        && fresh(trees) && candidateTrees.None? && trees.ids == Select(old(trees.ids), old(candidateTrees.value))
        && (candidateSummaries != null ==>
              candidateSummaries.trees == Select(old(candidateSummaries.trees), old(candidateTrees.value)))
        && Redirected(old(graph.nodes), graph.nodes, old(candidateTrees.value)))
      ensures !old(Compacts()) ==> trees == old(trees) && trees.ids == old(trees.ids) && graph.nodes == old(graph.nodes)
    {
      if candidateTrees.None? {
        return;
      }
      var selected := candidateTrees.value;
      candidateTrees := None;
      var originalCount := |trees.ids|;
      var selectedCount := |selected|;
      BoundedSize(selected, originalCount);
      if selectedCount == originalCount {
        return;
      }
      if originalCount > NOT_SELECTED {
        candidateTrees := Some(selected);
        return;
      }
      Compact(selected, graph, odb, p);
    }

    /** Renumbers the selected trees, their summaries and the commits that refer to them. */
    method Compact(selected: set<nat>, graph: Graph, ghost odb: Odb, ghost p: Plan)
      requires Valid() && candidateTrees.None? && |trees.ids| <= NOT_SELECTED
      requires forall t :: t in trees.ids ==> t in odb.indexed
      requires LeadsToCandidates(odb, Candidates(), trees.ids, Some(selected))
      requires candidateSummaries != null ==> candidateSummaries.Sound(Context(odb))
      requires graph.Valid() && Rooted(odb, p, graph.nodes)
      modifies this`trees, candidateSummaries, graph`nodes
      ensures Sound(odb) && graph.Valid() && Rooted(odb, p, graph.nodes)
      ensures fresh(trees) && trees.ids == Select(old(trees.ids), selected)
      ensures candidateSummaries != null ==> candidateSummaries.trees == Select(old(candidateSummaries.trees), selected)
      ensures Redirected(old(graph.nodes), graph.nodes, selected)
    {
      hide SoundStates, Select, LeadsToCandidates;
      ghost var was := trees.ids;
      var remap := Renumber(selected, odb);
      forall n | 0 <= n < |graph.nodes| && graph.nodes[n].tree.Some? ensures graph.nodes[n].tree.value < |remap| {
        assert RootedAt(odb, Candidates(), was, p.roots[n], graph.nodes[n].tree);
      }
      var nodes := RedirectNodes(graph.nodes, remap, selected);
      graph.nodes := nodes;
      CompactionRoots(odb, p, Candidates(), was, selected, old(graph.nodes), nodes);
    }

    /** Renumbers the selected trees and their summaries. */
    method Renumber(selected: set<nat>, ghost odb: Odb) returns (remap: seq<nat>)
      requires Valid() && candidateTrees.None? && |trees.ids| <= NOT_SELECTED
      requires forall t :: t in trees.ids ==> t in odb.indexed
      requires LeadsToCandidates(odb, Candidates(), trees.ids, Some(selected))
      requires candidateSummaries != null ==> candidateSummaries.Sound(Context(odb))
      modifies this`trees, candidateSummaries
      ensures Sound(odb) && fresh(trees) && trees.ids == Select(old(trees.ids), selected)
      ensures candidateSummaries != null ==> candidateSummaries.trees == Select(old(candidateSummaries.trees), selected)
      ensures |remap| == |old(trees.ids)|
      ensures forall i :: 0 <= i < |remap| ==> remap[i] == if i in selected then Rank(selected, i) else NOT_SELECTED
    {
      hide Select, LeadsToCandidates;
      ghost var cx, was := Context(odb), trees.ids;
      assert Distinct(trees.ids) by { assert trees.Valid(); }
      if candidateSummaries != null {
        candidateSummaries.Retain(selected);
        RetainedAreSound(cx, old(candidateSummaries.trees), candidateSummaries.trees,
                         candidateSummaries.sets, selected);
      }
      var compacted;
      compacted, remap := RenumberTrees(trees.ids, selected);
      trees := compacted;
      SelectedIndexed(was, selected, trees.ids);
      CompactionLeads(odb, Candidates(), was, selected);
    }
  }

  /** A tree is marked because it holds a candidate, or because its summary had to be given up. */
  lemma MarkedForAReason(cx: CandidateSummaries.Context, state: nat, sets: seq<seq<nat>>, t: Oid)
    requires Means(cx, state, sets, t) && state != UNKNOWN && state != CLEAN
    requires forall j :: 0 <= j < |sets| ==> |sets[j]| >= 2
    ensures (exists b :: b in cx.blobs && Contains(cx.odb, t, b)) || Excused(cx, t) || |sets| >= MULTI
  {
    if Exact(state) {
      var i := if state < MULTI then state - 3 else sets[state - MULTI][0];
      assert i in Decode(state, sets) && i in Held(cx, t);
    }
  }

  lemma SoundIsUsable(index: Index, odb: Odb)
    requires index.Sound(odb)
    ensures index.Usable()
  {
    if index.candidateSummaries != null {
      var s := index.candidateSummaries;
      forall i | 0 <= i < |index.trees.ids| ensures WellEncoded(s.trees[i], s.sets) {
        CoveredMeansHeld(index.Context(odb), s, i, {});
      }
    }
  }

  /** A tree is skipped as covered exactly when its summary is exact and the commit's ancestors have all it holds. */
  lemma CoverageMeans(index: Index, odb: Odb, tree: nat, seenBlobs: set<nat>)
    requires index.Sound(odb) && tree < |index.trees.ids|
    ensures (index.candidateSummaries != null ==>
               && tree < |index.candidateSummaries.trees|
               && WellEncoded(index.candidateSummaries.trees[tree], index.candidateSummaries.sets))
    ensures (index.TreeIsCovered(tree, seenBlobs)
             <==> && index.candidateSummaries != null && Exact(index.candidateSummaries.trees[tree])
                  && Held(index.Context(odb), index.trees.ids[tree]) <= seenBlobs)
  {
    if index.candidateSummaries != null {
      CoveredMeansHeld(index.Context(odb), index.candidateSummaries, tree, seenBlobs);
    }
  }

  /** A selected element has not been selected before. */
  lemma SelectedBefore(ids: seq<Oid>, keep: set<nat>, i: nat)
    requires Distinct(ids) && i < |ids| && i in keep
    ensures ids[i] !in Select(ids[..i], keep)
  {
    hide Select;
    SelectStep(ids, keep, i);
    SelectDistinct(ids[..i + 1], keep);
    var before, after := Select(ids[..i], keep), Select(ids[..i + 1], keep);
    assert after == before + [ids[i]];
    forall k | 0 <= k < |before| ensures before[k] != ids[i] {
      assert after[k] == before[k] && after[|before|] == ids[i];
    }
  }

  lemma {:induction false} BoundedSize(s: set<nat>, n: nat)
    requires forall i :: i in s ==> i < n
    ensures |s| <= n && (|s| == n <==> forall i :: 0 <= i < n ==> i in s)
  {
    if n > 0 {
      BoundedSize(s - {n - 1}, n - 1);
      if n - 1 in s {
        assert s == (s - {n - 1}) + {n - 1};
      } else {
        assert s == s - {n - 1};
      }
    } else {
      assert s == {};
    }
  }

  /** What compaction does to each commit: same ID, the tree's new index, or no tree. */
  ghost predicate Redirected(before: seq<Node>, after: seq<Node>, selected: set<nat>) {
    && |after| == |before|
    && forall n :: 0 <= n < |before| ==>
         after[n] == Node(before[n].oid,
                          if before[n].tree.Some? && before[n].tree.value in selected
                          then Some(Rank(selected, before[n].tree.value)) else None)
  }

  method RenumberTrees(ids: seq<Oid>, selected: set<nat>) returns (trees: Bimap, remap: seq<nat>)
    requires Distinct(ids) && |ids| <= NOT_SELECTED
    ensures fresh(trees) && trees.Valid() && trees.ids == Select(ids, selected)
    ensures |remap| == |ids|
    ensures forall i :: 0 <= i < |ids| ==> remap[i] == if i in selected then Rank(selected, i) else NOT_SELECTED
  {
    remap := seq(|ids|, _ => NOT_SELECTED);
    trees := new Bimap();
    for i := 0 to |ids|
      invariant trees.Valid() && fresh(trees) && trees.ids == Select(ids[..i], selected)
      invariant |remap| == |ids|
      invariant forall k :: 0 <= k < |ids| ==>
        remap[k] == if k < i && k in selected then Rank(selected, k) else NOT_SELECTED
    {
      SelectStep(ids, selected, i);
      if i in selected {
        SelectedBefore(ids, selected, i);
        remap := remap[i := |trees.ids|];
        trees.Insert(ids[i]);
      }
    }
    assert ids[..|ids|] == ids;
  }

  /** A real index never collides with the sentinel. */
  method RedirectNodes(before: seq<Node>, remap: seq<nat>, ghost selected: set<nat>) returns (nodes: seq<Node>)
    requires |remap| <= NOT_SELECTED
    requires forall i :: 0 <= i < |remap| ==> remap[i] == if i in selected then Rank(selected, i) else NOT_SELECTED
    requires forall n :: 0 <= n < |before| && before[n].tree.Some? ==> before[n].tree.value < |remap|
    ensures Redirected(before, nodes, selected)
  {
    nodes := before;
    for n := 0 to |before|
      invariant |nodes| == |before|
      invariant Redirected(before[..n], nodes[..n], selected)
      invariant forall k :: n <= k < |before| ==> nodes[k] == before[k]
    {
      var tree := nodes[n].tree;
      if tree.Some? {
        var renumbered := remap[tree.value];
        nodes := nodes[n := nodes[n].(tree := if renumbered != NOT_SELECTED then Some(renumbered) else None)];
      }
    }
    assert before[..|before|] == before && nodes[..|nodes|] == nodes;
  }

  lemma RetainedAreSound(cx: CandidateSummaries.Context, before: seq<nat>, after: seq<nat>, sets: seq<seq<nat>>,
                         selected: set<nat>)
    requires SoundStates(cx, before, sets) && after == Select(before, selected)
    ensures SoundStates(cx.(trees := Select(cx.trees, selected)), after, sets)
  {
    var trees := Select(cx.trees, selected);
    var cx' := cx.(trees := trees);
    forall k | 0 <= k < |after| ensures after[k] != UNKNOWN && Means(cx', after[k], sets, trees[k]) {
      var i := SelectFrom(cx.trees, selected, k);
      SelectAt(before, selected, i);
      assert Means(cx, before[i], sets, cx.trees[i]);
      assert Held(cx', trees[k]) == Held(cx, cx.trees[i]);
    }
  }

  /** Dropping unmarked trees loses no tree that holds a candidate. */
  lemma CompactionLeads(odb: Odb, candidates: set<Oid>, ids: seq<Oid>, selected: set<nat>)
    requires LeadsToCandidates(odb, candidates, ids, Some(selected))
    ensures LeadsToCandidates(odb, candidates, Select(ids, selected), None)
  {
    forall t | t in odb.indexed && Bears(odb, candidates, t)
      ensures exists k :: 0 <= k < |Select(ids, selected)| && Select(ids, selected)[k] == t
    {
      var i :| 0 <= i < |ids| && ids[i] == t && i in selected;
      SelectAt(ids, selected, i);
    }
  }

  /** Every commit keeps its root tree, or loses one that holds no candidate. */
  lemma CompactionRoots(odb: Odb, p: Plan, candidates: set<Oid>, ids: seq<Oid>, selected: set<nat>, before: seq<Node>,
                        after: seq<Node>)
    requires Distinct(ids) && (forall t :: t in ids ==> t in odb.indexed)
    requires LeadsToCandidates(odb, candidates, ids, Some(selected))
    requires RootedIn(odb, p, candidates, ids, before) && Redirected(before, after, selected)
    ensures RootedIn(odb, p, candidates, Select(ids, selected), after)
  {
    forall n | 0 <= n < |after|
      ensures RootedAt(odb, candidates, Select(ids, selected), p.roots[n], after[n].tree)
    {
      assert RootedAt(odb, candidates, ids, p.roots[n], before[n].tree);
      if before[n].tree.Some? {
        var i := before[n].tree.value;
        if i in selected {
          SelectAt(ids, selected, i);
        } else {
          assert ids[i] in odb.indexed;
        }
      }
    }
  }

  lemma SelectedIndexed(ids: seq<Oid>, selected: set<nat>, r: seq<Oid>)
    requires r == Select(ids, selected)
    ensures forall t :: t in r ==> t in ids
  {
    forall t | t in r ensures t in ids {
      var k :| 0 <= k < |r| && r[k] == t;
      var i := SelectFrom(ids, selected, k);
    }
  }
}
