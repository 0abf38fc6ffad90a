/**
 * The order in which a walk reports blobs, and the path at which it lists a shared tree.
 *
 * A walk visits each tree once. It is entered from the tree that was visited first among those
 * that list it, by its first name there. Of the trees waiting, the one to be visited next is
 * the one listed last by the tree visited last. A tree's own blobs come in the order of its
 * entries.
 */
module WalkOrder {
  import opened GitObjects
  import opened TreeWalk
  import opened WalkMeaning

  /** A visited tree with its path, and where it was met first: which visit, and which entry. */
  datatype Visit = Visit(item: Item, parent: nat, entry: nat)

  predicate MetBefore(a: Visit, b: Visit) {
    a.parent < b.parent || (a.parent == b.parent && a.entry < b.entry)
  }

  predicate Lists(entries: seq<Entry>, e: nat, tree: Oid) {
    e < |entries| && entries[e].TreeEntry? && entries[e].oid == tree
  }

  function EntriesOf(odb: Odb, tree: Oid): seq<Entry> {
    if tree in odb.trees then odb.trees[tree] else []
  }

  /** The tree was entered by this entry of that visit, and by none before. */
  ghost predicate MetFirst(odb: Odb, visits: seq<Visit>, x: Visit)
    requires x.parent < |visits|
  {
    var entries := EntriesOf(odb, visits[x.parent].item.tree);
    && Lists(entries, x.entry, x.item.tree)
    && x.item.path == visits[x.parent].item.path + [entries[x.entry].name]
    && (forall e :: 0 <= e < x.entry ==> !Lists(entries, e, x.item.tree))
    && forall p, e: nat :: 0 <= p < x.parent ==> !Lists(EntriesOf(odb, visits[p].item.tree), e, x.item.tree)
  }

  function WantedIn(entries: seq<Entry>, path: seq<Name>, wanted: set<Oid>): (r: seq<Found>) {
    if entries == [] then []
    else
      var n := |entries| - 1;
      var e := entries[n];
      WantedIn(entries[..n], path, wanted)
        + if e.BlobEntry? && e.oid in wanted then [Found(e.oid, path + [e.name])] else []
  }

  /** The wanted blobs of each visited tree in turn. */
  function Blocks(odb: Odb, wanted: set<Oid>, visits: seq<Visit>): (r: seq<Found>) {
    if visits == [] then []
    else
      var n := |visits| - 1;
      Blocks(odb, wanted, visits[..n])
        + WantedIn(EntriesOf(odb, visits[n].item.tree), visits[n].item.path, wanted)
  }

  function Items(visits: seq<Visit>): (r: seq<Item>) {
    seq(|visits|, k requires 0 <= k < |visits| => visits[k].item)
  }

  ghost function Trees(visits: seq<Visit>): (r: set<Oid>) {
    set k | 0 <= k < |visits| :: visits[k].item.tree
  }

  ghost predicate DistinctTrees(visits: seq<Visit>) {
    forall j, k :: 0 <= j < k < |visits| ==> visits[j].item.tree != visits[k].item.tree
  }

  /** Whatever waits when the k-th tree is visited was met before it. */
  ghost predicate LatestFirst(visits: seq<Visit>) {
    forall k, m :: 0 <= k < m < |visits| && visits[m].parent < k ==> MetBefore(visits[m], visits[k])
  }

  /** All trees of the scope that visited trees list are in the set. */
  ghost predicate Closed(odb: Odb, enter: set<Oid>, visits: seq<Visit>, seen: set<Oid>) {
    forall k, e: nat, t :: 0 <= k < |visits| && t in enter && Lists(EntriesOf(odb, visits[k].item.tree), e, t) ==>
      t in seen
  }

  /** The visits of a walk from the root. */
  ghost predicate InWalkOrder(odb: Odb, sc: Scope, root: Oid, seen: set<Oid>, visits: seq<Visit>) {
    && |visits| > 0 && visits[0].item == Item([], root) && DistinctTrees(visits)
    && (forall k :: 0 <= k < |visits| ==> visits[k].item.tree in sc.enter - seen)
    && (forall k :: 0 < k < |visits| ==> visits[k].parent < k && MetFirst(odb, visits, visits[k]))
    && LatestFirst(visits) && Closed(odb, sc.enter, visits, seen + Trees(visits))
  }

  // ----- one tree

  /** The visits that the first `n` entries of a tree add to the worklist. */
  ghost predicate Adds(entries: seq<Entry>, n: nat, at: Item, parent: nat, sc: Scope, seen: set<Oid>,
                       added: seq<Visit>)
    requires n <= |entries|
  {
    && (forall k :: 0 <= k < |added| ==>
          var x := added[k];
          && x.parent == parent && x.entry < n && Lists(entries, x.entry, x.item.tree)
          && x.item.path == at.path + [entries[x.entry].name] && x.item.tree in sc.enter - seen
          && forall e :: 0 <= e < x.entry ==> !Lists(entries, e, x.item.tree))
    && (forall j, k :: 0 <= j < k < |added| ==> added[j].entry < added[k].entry)
    && (forall e, t :: 0 <= e < n && t in sc.enter && Lists(entries, e, t) ==> t in seen + Trees(added))
  }

  /** What one more entry adds. */
  function Added(entries: seq<Entry>, n: nat, at: Item, parent: nat): (r: Visit)
    requires n < |entries| && entries[n].TreeEntry?
  {
    Visit(Item(at.path + [entries[n].name], entries[n].oid), parent, n)
  }

  lemma NewTreeIsAdded(entries: seq<Entry>, n: nat, at: Item, parent: nat, sc: Scope, seen: set<Oid>, added: seq<Visit>)
    requires n < |entries| && Adds(entries, n, at, parent, sc, seen, added)
    requires entries[n].TreeEntry? && entries[n].oid in sc.enter && entries[n].oid !in seen + Trees(added)
    ensures Adds(entries, n + 1, at, parent, sc, seen, added + [Added(entries, n, at, parent)])
  {
    var x := Added(entries, n, at, parent);
    TreesSnoc(added, x);
    forall e | 0 <= e < n ensures !Lists(entries, e, x.item.tree) {}
    forall e, t | 0 <= e < n + 1 && t in sc.enter && Lists(entries, e, t) ensures t in seen + Trees(added + [x]) {}
  }

  lemma NothingIsAdded(entries: seq<Entry>, n: nat, at: Item, parent: nat, sc: Scope, seen: set<Oid>, added: seq<Visit>)
    requires n < |entries| && Adds(entries, n, at, parent, sc, seen, added)
    requires !(entries[n].TreeEntry? && entries[n].oid in sc.enter && entries[n].oid !in seen + Trees(added))
    ensures Adds(entries, n + 1, at, parent, sc, seen, added)
  {
  }

  /** A tree's wanted blobs are reported in the order of its entries. */
  lemma {:induction false} ScanReports(entries: seq<Entry>, n: nat, path: seq<Name>, sc: Scope, s: State)
    requires n <= |entries|
    ensures ScanTo(entries, n, path, sc, s).out == s.out + WantedIn(entries[..n], path, sc.report)
  {
    if n > 0 {
      ScanReports(entries, n - 1, path, sc, s);
      assert entries[..n][..n - 1] == entries[..n - 1];
    }
  }

  /** The worklist and the seen trees are as before, but for the visits added. */
  ghost predicate Grown(s: State, r: State, added: seq<Visit>) {
    r.stack == s.stack + Items(added) && r.seen == s.seen + Trees(added)
  }

  lemma EntryGrows(entries: seq<Entry>, n: nat, at: Item, parent: nat, sc: Scope, s: State, q: State,
                   before: seq<Visit>)
    returns (added: seq<Visit>)
    requires n < |entries| && Adds(entries, n, at, parent, sc, s.seen, before) && Grown(s, q, before)
    ensures Adds(entries, n + 1, at, parent, sc, s.seen, added)
    ensures Grown(s, ScanEntry(entries[n], at.path, sc, q), added)
  {
    hide Adds, Trees, Items;
    var e := entries[n];
    added := before;
    if e.TreeEntry? && e.oid in sc.enter && e.oid !in q.seen {
      var x := Added(entries, n, at, parent);
      added := before + [x];
      TreesSnoc(before, x);
      ItemsSnoc(s.stack, before, x);
      NewTreeIsAdded(entries, n, at, parent, sc, s.seen, before);
    } else {
      NothingIsAdded(entries, n, at, parent, sc, s.seen, before);
    }
  }

  /** The state after the first `n` entries, entry by entry. */
  ghost function Scanning(entries: seq<Entry>, n: nat, path: seq<Name>, sc: Scope, s: State): (r: State)
    requires n <= |entries|
  {
    if n == 0 then s else ScanEntry(entries[n - 1], path, sc, Scanning(entries, n - 1, path, sc, s))
  }

  lemma {:induction false} ScanningIsScan(entries: seq<Entry>, n: nat, path: seq<Name>, sc: Scope, s: State)
    requires n <= |entries|
    ensures Scanning(entries, n, path, sc, s) == ScanTo(entries, n, path, sc, s)
  {
    if n > 0 { ScanningIsScan(entries, n - 1, path, sc, s); }
  }

  lemma {:induction false} EntriesGrow(entries: seq<Entry>, n: nat, at: Item, parent: nat, sc: Scope, s: State)
    returns (added: seq<Visit>)
    requires n <= |entries|
    ensures Adds(entries, n, at, parent, sc, s.seen, added)
    ensures Grown(s, Scanning(entries, n, at.path, sc, s), added)
  {
    if n == 0 {
      added := [];
      assert s.stack + Items([]) == s.stack;
      return;
    }
    hide Adds, Grown, ScanEntry;
    var before := EntriesGrow(entries, n - 1, at, parent, sc, s);
    added := EntryGrows(entries, n - 1, at, parent, sc, s, Scanning(entries, n - 1, at.path, sc, s), before);
  }

  /** Its new trees are put on the worklist in the order of its entries, each by its first name. */
  lemma ScanAdds(entries: seq<Entry>, n: nat, at: Item, parent: nat, sc: Scope, s: State)
    returns (added: seq<Visit>)
    requires n <= |entries|
    ensures Adds(entries, n, at, parent, sc, s.seen, added)
    ensures Grown(s, ScanTo(entries, n, at.path, sc, s), added)
  {
    hide Adds, Grown, ScanTo, Scanning;
    ScanningIsScan(entries, n, at.path, sc, s);
    added := EntriesGrow(entries, n, at, parent, sc, s);
  }

  lemma ItemsSnoc(stack: seq<Item>, visits: seq<Visit>, x: Visit)
    ensures stack + Items(visits + [x]) == stack + Items(visits) + [x.item]
  {
  }

  lemma TreesSnoc(visits: seq<Visit>, x: Visit)
    ensures Trees(visits + [x]) == Trees(visits) + {x.item.tree}
  {
    var all := visits + [x];
    assert all[|visits|] == x && forall k :: 0 <= k < |visits| ==> all[k] == visits[k];
  }

  // ----- the whole walk

  /** Every visit but the root's was met first where it says. */
  ghost predicate AllMet(odb: Odb, visits: seq<Visit>, waiting: seq<Visit>) {
    && (forall k :: 0 < k < |visits| ==> visits[k].parent < k && MetFirst(odb, visits, visits[k]))
    && (forall k :: 0 <= k < |waiting| ==> waiting[k].parent < |visits| && MetFirst(odb, visits, waiting[k]))
  }

  /** The worklist holds the trees in the order in which they were met. */
  ghost predicate Ordered(visits: seq<Visit>, waiting: seq<Visit>) {
    && LatestFirst(visits)
    && (forall j, k :: 0 <= j < k < |waiting| ==> MetBefore(waiting[j], waiting[k]))
    && (forall j, k :: 0 <= j < |waiting| && 0 <= k < |visits| && waiting[j].parent < k ==>
          MetBefore(waiting[j], visits[k]))
  }

  /** The state of a walk in terms of what it has visited and what waits. */
  ghost predicate Walking(odb: Odb, sc: Scope, root: Oid, seen: set<Oid>, s: State, visits: seq<Visit>,
                          waiting: seq<Visit>) {
    && visits != [] && visits[0].item == Item([], root)
    && s.stack == Items(waiting) && s.out == Blocks(odb, sc.report, visits)
    && s.seen == seen + Trees(visits) + Trees(waiting)
    && DistinctTrees(visits + waiting) && Trees(visits + waiting) <= sc.enter - seen
    && AllMet(odb, visits, waiting) && Ordered(visits, waiting) && Closed(odb, sc.enter, visits, s.seen)
  }

  lemma StillMet(odb: Odb, visits: seq<Visit>, more: seq<Visit>, x: Visit)
    requires x.parent < |visits| && MetFirst(odb, visits, x)
    ensures MetFirst(odb, visits + more, x)
  {
    var all := visits + more;
    assert forall p :: 0 <= p < |visits| ==> all[p] == visits[p];
  }

  lemma TreesConcat(a: seq<Visit>, b: seq<Visit>)
    ensures Trees(a + b) == Trees(a) + Trees(b)
  {
    var all := a + b;
    forall t ensures t in Trees(all) <==> t in Trees(a) + Trees(b) {
      if t in Trees(a) { var k :| 0 <= k < |a| && a[k].item.tree == t; assert all[k].item.tree == t; }
      if t in Trees(b) { var k :| 0 <= k < |b| && b[k].item.tree == t; assert all[|a| + k].item.tree == t; }
    }
  }

  /** Trees that were added are met first here: whatever visited trees list was seen before. */
  lemma AddedAreMet(odb: Odb, sc: Scope, seen: set<Oid>, visits: seq<Visit>, top: Visit, added: seq<Visit>)
    requires var entries := EntriesOf(odb, top.item.tree);
      Adds(entries, |entries|, top.item, |visits|, sc, seen, added)
    requires Closed(odb, sc.enter, visits, seen)
    ensures forall k :: 0 <= k < |added| ==> MetFirst(odb, visits + [top], added[k])
  {
    var all := visits + [top];
    assert all[|visits|] == top && forall p :: 0 <= p < |visits| ==> all[p] == visits[p];
    forall k | 0 <= k < |added| ensures MetFirst(odb, all, added[k]) {
      var x := added[k];
      forall p, e: nat | 0 <= p < x.parent ensures !Lists(EntriesOf(odb, all[p].item.tree), e, x.item.tree) {
        assert Lists(EntriesOf(odb, visits[p].item.tree), e, x.item.tree) ==> x.item.tree in seen;
      }
    }
  }

  lemma MetAfterPop(odb: Odb, sc: Scope, seen: set<Oid>, visits: seq<Visit>, waiting: seq<Visit>, top: Visit,
                    added: seq<Visit>)
    requires visits != [] && AllMet(odb, visits, waiting + [top])
    requires var entries := EntriesOf(odb, top.item.tree);
      Adds(entries, |entries|, top.item, |visits|, sc, seen, added)
    requires Closed(odb, sc.enter, visits, seen)
    ensures AllMet(odb, visits + [top], waiting + added)
  {
    AddedAreMet(odb, sc, seen, visits, top, added);
    var before, all, after := waiting + [top], visits + [top], waiting + added;
    assert before[|waiting|] == top;
    hide MetFirst;
    forall k | 0 < k < |all| ensures all[k].parent < k && MetFirst(odb, all, all[k]) {
      if k < |visits| { assert all[k] == visits[k]; }
      StillMet(odb, visits, [top], all[k]);
    }
    forall k | 0 <= k < |after| ensures after[k].parent < |all| && MetFirst(odb, all, after[k]) {
      if k < |waiting| {
        assert after[k] == before[k];
        StillMet(odb, visits, [top], after[k]);
      } else {
        assert after[k] == added[k - |waiting|];
      }
    }
  }

  lemma OrderedAfterPop(entries: seq<Entry>, sc: Scope, seen: set<Oid>, visits: seq<Visit>, waiting: seq<Visit>,
                        top: Visit, added: seq<Visit>)
    requires Ordered(visits, waiting + [top])
    requires Adds(entries, |entries|, top.item, |visits|, sc, seen, added)
    requires forall k :: 0 <= k < |waiting| ==> waiting[k].parent < |visits|
    ensures Ordered(visits + [top], waiting + added)
  {
    var before, all, after := waiting + [top], visits + [top], waiting + added;
    assert before[|waiting|] == top && all[|visits|] == top;
    assert forall k :: 0 <= k < |waiting| ==> before[k] == waiting[k] && after[k] == waiting[k];
    assert forall k :: 0 <= k < |visits| ==> all[k] == visits[k];
    assert forall k :: |waiting| <= k < |after| ==> after[k] == added[k - |waiting|] && after[k].parent == |visits|;
    forall j, k | 0 <= j < k < |after| ensures MetBefore(after[j], after[k]) {
      if j >= |waiting| { assert added[j - |waiting|].entry < added[k - |waiting|].entry; }
      if k < |waiting| { assert MetBefore(before[j], before[k]); }
    }
    forall k, m | 0 <= k < m < |all| && all[m].parent < k ensures MetBefore(all[m], all[k]) {
      if m == |visits| { assert MetBefore(before[|waiting|], visits[k]); }
    }
    forall j, k | 0 <= j < |after| && 0 <= k < |all| && after[j].parent < k ensures MetBefore(after[j], all[k]) {
      if k == |visits| { assert MetBefore(before[j], before[|waiting|]); } else { assert after[j] == before[j]; }
    }
  }

  lemma ClosedAfterPop(odb: Odb, sc: Scope, seen: set<Oid>, visits: seq<Visit>, top: Visit, added: seq<Visit>)
    requires Closed(odb, sc.enter, visits, seen)
    requires var entries := EntriesOf(odb, top.item.tree);
      Adds(entries, |entries|, top.item, |visits|, sc, seen, added)
    ensures Closed(odb, sc.enter, visits + [top], seen + Trees(added))
  {
    var all := visits + [top];
    forall k, e: nat, t | 0 <= k < |all| && t in sc.enter && Lists(EntriesOf(odb, all[k].item.tree), e, t)
      ensures t in seen + Trees(added)
    {
      if k < |visits| { assert all[k] == visits[k]; }
    }
  }

  lemma DistinctConcat(a: seq<Visit>, b: seq<Visit>)
    ensures DistinctTrees(a + b) <==> DistinctTrees(a) && DistinctTrees(b) && Trees(a) !! Trees(b)
  {
    var all := a + b;
    forall k | 0 <= k < |a| ensures all[k] == a[k] {}
    forall k | 0 <= k < |b| ensures all[|a| + k] == b[k] {}
    if DistinctTrees(all) {
      forall j, k | 0 <= j < k < |b| ensures b[j].item.tree != b[k].item.tree {
        assert all[|a| + j].item.tree != all[|a| + k].item.tree;
      }
      forall t | t in Trees(a) ensures t !in Trees(b) {
        var j :| 0 <= j < |a| && a[j].item.tree == t;
        forall k | 0 <= k < |b| ensures b[k].item.tree != t { assert all[j].item.tree != all[|a| + k].item.tree; }
      }
    } else {
      var j, k :| 0 <= j < k < |all| && all[j].item.tree == all[k].item.tree;
      if j < |a| <= k {
        assert a[j].item.tree in Trees(a) && b[k - |a|].item.tree in Trees(b);
      } else if |a| <= j {
        assert b[j - |a|].item.tree == b[k - |a|].item.tree;
      }
    }
  }

  lemma AddedAreNew(entries: seq<Entry>, at: Item, parent: nat, sc: Scope, seen: set<Oid>, added: seq<Visit>)
    requires Adds(entries, |entries|, at, parent, sc, seen, added)
    ensures DistinctTrees(added) && Trees(added) <= sc.enter - seen
  {
    forall j, k | 0 <= j < k < |added| ensures added[j].item.tree != added[k].item.tree {
      assert added[j].entry < added[k].entry;
    }
  }

  lemma DistinctAfterPop(visits: seq<Visit>, waiting: seq<Visit>, top: Visit, added: seq<Visit>)
    requires DistinctTrees(visits + (waiting + [top])) && DistinctTrees(added)
    requires Trees(added) !! Trees(visits + (waiting + [top]))
    ensures DistinctTrees(visits + [top] + (waiting + added))
    ensures (Trees(visits + [top] + (waiting + added)) == Trees(visits + (waiting + [top])) + Trees(added))
  {
    DistinctConcat(visits, waiting + [top]);
    DistinctConcat(waiting, [top]);
    DistinctConcat(waiting, added);
    DistinctConcat(visits, [top]);
    DistinctConcat(visits + [top], waiting + added);
    TreesConcat(visits, waiting + [top]);
    TreesConcat(waiting, [top]);
    TreesConcat(waiting, added);
    TreesConcat(visits, [top]);
    TreesConcat(visits + [top], waiting + added);
  }

  lemma PopScanIs(odb: Odb, sc: Scope, s: State, top: Item, rest: seq<Item>)
    requires s.stack == rest + [top]
    ensures var entries := EntriesOf(odb, top.tree);
      PopScan(odb, sc, s) == ScanTo(entries, |entries|, top.path, sc, s.(stack := rest))
  {
    assert s.stack[..|s.stack| - 1] == rest && s.stack[|s.stack| - 1] == top;
  }

  lemma BlocksSnoc(odb: Odb, wanted: set<Oid>, visits: seq<Visit>, x: Visit)
    ensures Blocks(odb, wanted, visits + [x])
         == Blocks(odb, wanted, visits) + WantedIn(EntriesOf(odb, x.item.tree), x.item.path, wanted)
  {
    assert (visits + [x])[..|visits|] == visits;
  }

  lemma ItemsConcat(a: seq<Visit>, b: seq<Visit>)
    ensures Items(a + b) == Items(a) + Items(b)
  {
  }

  /** What scanning the tree on top of the worklist does to a state. */
  ghost predicate Scanned(odb: Odb, wanted: set<Oid>, s: State, r: State, waiting: seq<Visit>, top: Visit,
                          added: seq<Visit>) {
    && r.stack == Items(waiting) + Items(added) && r.seen == s.seen + Trees(added)
    && r.out == s.out + WantedIn(EntriesOf(odb, top.item.tree), top.item.path, wanted)
  }

  lemma TopIsScanned(odb: Odb, sc: Scope, s: State, waiting: seq<Visit>, top: Visit, parent: nat)
    returns (added: seq<Visit>)
    requires s.stack == Items(waiting + [top])
    ensures Scanned(odb, sc.report, s, PopScan(odb, sc, s), waiting, top, added)
    ensures var entries := EntriesOf(odb, top.item.tree);
      Adds(entries, |entries|, top.item, parent, sc, s.seen, added)
  {
    assert Items([top]) == [top.item];
    hide PopScan, ScanTo, Adds, Trees, Items, WantedIn, EntriesOf;
    var entries, popped := EntriesOf(odb, top.item.tree), s.(stack := Items(waiting));
    ItemsConcat(waiting, [top]);
    PopScanIs(odb, sc, s, top.item, Items(waiting));
    added := ScanAdds(entries, |entries|, top.item, parent, sc, popped);
    ScanReports(entries, |entries|, top.item.path, sc, popped);
    assert entries[..|entries|] == entries;
  }

  /** The state after a step, in terms of what has been visited and what waits. */
  lemma ScannedState(odb: Odb, sc: Scope, seen: set<Oid>, s: State, r: State, visits: seq<Visit>, waiting: seq<Visit>,
                     top: Visit, added: seq<Visit>)
    requires s.out == Blocks(odb, sc.report, visits) && s.seen == seen + Trees(visits) + Trees(waiting + [top])
    requires Scanned(odb, sc.report, s, r, waiting, top, added)
    ensures r.stack == Items(waiting + added) && r.out == Blocks(odb, sc.report, visits + [top])
    ensures r.seen == s.seen + Trees(added) == seen + Trees(visits + [top]) + Trees(waiting + added)
  {
    hide Trees, Blocks, Items, WantedIn, EntriesOf;
    BlocksSnoc(odb, sc.report, visits, top);
    ItemsConcat(waiting, added);
    TopChangesSides(visits, waiting, top, added);
  }

  lemma TopChangesSides(visits: seq<Visit>, waiting: seq<Visit>, top: Visit, added: seq<Visit>)
    ensures (Trees(visits) + Trees(waiting + [top]) + Trees(added)
             == Trees(visits + [top]) + Trees(waiting + added))
  {
    hide Trees;
    TreesConcat(waiting, [top]);
    TreesConcat(waiting, added);
    TreesConcat(visits, [top]);
  }

  lemma StillDistinct(sc: Scope, seen: set<Oid>, entries: seq<Entry>, visits: seq<Visit>, waiting: seq<Visit>,
                      top: Visit, added: seq<Visit>)
    requires DistinctTrees(visits + (waiting + [top])) && Trees(visits + (waiting + [top])) <= sc.enter - seen
    requires var now := seen + Trees(visits) + Trees(waiting + [top]);
      Adds(entries, |entries|, top.item, |visits|, sc, now, added)
    ensures DistinctTrees(visits + [top] + (waiting + added))
    ensures Trees(visits + [top] + (waiting + added)) <= sc.enter - seen
  {
    hide Adds, Trees, DistinctTrees;
    TreesConcat(visits, waiting + [top]);
    AddedAreNew(entries, top.item, |visits|, sc, seen + Trees(visits) + Trees(waiting + [top]), added);
    DistinctAfterPop(visits, waiting, top, added);
  }

  /** Visiting the tree on top of the worklist. */
  lemma VisitTop(odb: Odb, sc: Scope, root: Oid, seen: set<Oid>, s: State, visits: seq<Visit>, waiting: seq<Visit>,
                 top: Visit)
    returns (added: seq<Visit>)
    requires Walking(odb, sc, root, seen, s, visits, waiting + [top])
    ensures Walking(odb, sc, root, seen, PopScan(odb, sc, s), visits + [top], waiting + added)
  {
    assert forall k :: 0 <= k < |waiting| ==> (waiting + [top])[k] == waiting[k] && waiting[k].parent < |visits|;
    hide PopScan, Adds, Trees, DistinctTrees, AllMet, Ordered, Closed, Blocks, Items;
    var entries := EntriesOf(odb, top.item.tree);
    added := TopIsScanned(odb, sc, s, waiting, top, |visits|);
    ScannedState(odb, sc, seen, s, PopScan(odb, sc, s), visits, waiting, top, added);
    MetAfterPop(odb, sc, s.seen, visits, waiting, top, added);
    OrderedAfterPop(entries, sc, s.seen, visits, waiting, top, added);
    ClosedAfterPop(odb, sc, s.seen, visits, top, added);
    StillDistinct(sc, seen, entries, visits, waiting, top, added);
  }

  lemma WaitingIsStack(odb: Odb, sc: Scope, root: Oid, seen: set<Oid>, s: State, visits: seq<Visit>,
                       waiting: seq<Visit>)
    requires Walking(odb, sc, root, seen, s, visits, waiting)
    ensures |s.stack| == |waiting|
  {
  }

  /** Runs the worklist to the end. */
  lemma {:induction false} WalkVisits(odb: Odb, sc: Scope, root: Oid, seen: set<Oid>, s: State, visits: seq<Visit>,
                                      waiting: seq<Visit>)
    returns (all: seq<Visit>)
    requires Walking(odb, sc, root, seen, s, visits, waiting)
    ensures Walking(odb, sc, root, seen, Walk(odb, sc, s), all, [])
    decreases |sc.enter - s.seen|, |s.stack|
  {
    hide Walking, PopScan;
    WaitingIsStack(odb, sc, root, seen, s, visits, waiting);
    if waiting == [] {
      return visits;
    }
    var n := |waiting| - 1;
    assert waiting == waiting[..n] + [waiting[n]];
    var added := VisitTop(odb, sc, root, seen, s, visits, waiting[..n], waiting[n]);
    all := WalkVisits(odb, sc, root, seen, PopScan(odb, sc, s), visits + [waiting[n]], waiting[..n] + added);
  }

  /** The root is visited first. */
  lemma VisitRoot(odb: Odb, sc: Scope, root: Oid, seen: set<Oid>) returns (added: seq<Visit>)
    requires root in sc.enter && root !in seen
    ensures Walking(odb, sc, root, seen, PopScan(odb, sc, Start(sc, root, seen)), [Visit(Item([], root), 0, 0)], added)
  {
    var s, top := Start(sc, root, seen), Visit(Item([], root), 0, 0);
    assert [] + [top] == [top] && Items([top]) == [top.item];
    hide PopScan, Scanned, Adds, Walking;
    added := TopIsScanned(odb, sc, s, [], top, 0);
    RootIsVisited(odb, sc, root, seen, s, PopScan(odb, sc, s), top, added);
  }

  /** Before the root, nothing has been visited. */
  lemma NothingVisited(odb: Odb, sc: Scope, seen: set<Oid>, top: Visit)
    ensures Blocks(odb, sc.report, []) == [] && Closed(odb, sc.enter, [], seen) && Ordered([], [top])
    ensures DistinctTrees([top]) && Trees([top]) == {top.item.tree} && Trees([]) == {}
  {
    assert Trees([]) == {} && [] + [top] == [top];
    TreesSnoc([], top);
  }

  /** What the root lists was met first there. */
  lemma RootsTreesAreMet(odb: Odb, top: Visit, added: seq<Visit>)
    requires forall k :: 0 <= k < |added| ==> added[k].parent == 0 && MetFirst(odb, [top], added[k])
    ensures AllMet(odb, [top], added)
  {
  }

  lemma RootIsVisited(odb: Odb, sc: Scope, root: Oid, seen: set<Oid>, s: State, r: State, top: Visit,
                      added: seq<Visit>)
    requires root in sc.enter && root !in seen && s == Start(sc, root, seen) && top == Visit(Item([], root), 0, 0)
    requires Scanned(odb, sc.report, s, r, [], top, added)
    requires var entries := EntriesOf(odb, root); Adds(entries, |entries|, top.item, 0, sc, s.seen, added)
    ensures Walking(odb, sc, root, seen, r, [top], added)
  {
    assert forall k :: 0 <= k < |added| ==> added[k].parent == 0;
    hide Adds, Scanned, Closed, Ordered, MetFirst, Trees, DistinctTrees, Items, Blocks, EntriesOf, AllMet;
    var entries := EntriesOf(odb, root);
    NothingVisited(odb, sc, s.seen, top);
    assert [] + [top] == [top] && [] + added == added;
    ScannedState(odb, sc, seen, s, r, [], [], top, added);
    AddedAreMet(odb, sc, s.seen, [], top, added);
    RootsTreesAreMet(odb, top, added);
    OrderedAfterPop(entries, sc, s.seen, [], [], top, added);
    ClosedAfterPop(odb, sc, s.seen, [], top, added);
    StillDistinct(sc, seen, entries, [], [], top, added);
  }

  /** A walk from a root it may enter reports the wanted blobs of the trees visited, visit by visit, entry by entry. */
  lemma WalkIsOrdered(odb: Odb, sc: Scope, root: Oid, seen: set<Oid>) returns (visits: seq<Visit>)
    requires root in sc.enter && root !in seen
    ensures InWalkOrder(odb, sc, root, seen, visits)
    ensures WalkFrom(odb, sc, root, seen).out == Blocks(odb, sc.report, visits)
  {
    var added := VisitRoot(odb, sc, root, seen);
    var s := PopScan(odb, sc, Start(sc, root, seen));
    visits := WalkVisits(odb, sc, root, seen, s, [Visit(Item([], root), 0, 0)], added);
    WalkedIsInOrder(odb, sc, root, seen, Walk(odb, sc, s), visits);
  }

  lemma WalkedIsInOrder(odb: Odb, sc: Scope, root: Oid, seen: set<Oid>, s: State, visits: seq<Visit>)
    requires Walking(odb, sc, root, seen, s, visits, [])
    ensures InWalkOrder(odb, sc, root, seen, visits) && s.out == Blocks(odb, sc.report, visits)
  {
    assert visits + [] == visits && Trees([]) == {};
    forall k | 0 <= k < |visits| ensures visits[k].item.tree in sc.enter - seen {
      assert visits[k].item.tree in Trees(visits);
    }
  }

  /** So the blobs a commit introduces are listed tree by tree, in the order of visits that only depends on the trees
      which hold one of them. */
  lemma IntroducedIsOrdered(odb: Odb, wanted: set<Oid>, root: Oid) returns (visits: seq<Visit>)
    requires root in odb.indexed && Bears(odb, wanted, root)
    ensures InWalkOrder(odb, Scope(BearingTrees(odb, wanted), wanted), root, {}, visits)
    ensures Introduced(odb, wanted, root) == Blocks(odb, wanted, visits)
  {
    visits := WalkIsOrdered(odb, Scope(BearingTrees(odb, wanted), wanted), root, {});
  }
}
