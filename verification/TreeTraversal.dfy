/** The tree traversal of one commit, over dense indexes and interned path components. */
module TreeTraversal {
  import opened Bytes
  import opened BStringTable
  import opened GitObjects
  import opened ObjectIds
  import opened RepositoryIndex
  import opened TreeWalk
  import opened WalkMeaning
  import opened Wrappers

  /** The trees and blobs known to a commit's ancestors, by dense index. Handing a set from a
      commit to its children shares or copies it; either way it is a value. */
  datatype Seen = Seen(trees: set<nat>, blobs: set<nat>)

  datatype IntroducedBlob = IntroducedBlob(blob: Oid, path: seq<Byte>)

  datatype WorkItem = WorkItem(path: seq<Symbol>, tree: Oid)

  /** What the traversal of one commit updates as it goes. */
  datatype Progress = Progress(seen: Seen, work: seq<WorkItem>, introduced: seq<IntroducedBlob>, encountered: seq<nat>)

  function Render(out: seq<Found>): (r: seq<IntroducedBlob>)
    ensures |r| == |out|
  {
    if out == [] then []
    else
      var x := out[|out| - 1];
      Render(out[..|out| - 1]) + [IntroducedBlob(x.blob, Joined(x.path))]
  }

  lemma RenderSnoc(out: seq<Found>, x: Found)
    ensures Render(out + [x]) == Render(out) + [IntroducedBlob(x.blob, Joined(x.path))]
  {
    assert (out + [x])[..|out|] == out;
  }

  function BlobsOf(out: seq<Found>): (r: set<Oid>)
    ensures forall b :: b in r <==> Among(out, b)
  {
    set x | x in out :: x.blob
  }

  /** The parts of the index a traversal uses, none of which it changes: the numberings, the tree
      indexes a walk may enter, and the blobs of the commit's ancestors. */
  datatype Frame = Frame(trees: seq<Oid>, blobs: seq<Oid>, enterable: set<nat>, ancestors: set<nat>)

  ghost predicate Framed(index: Index, f: Frame)
    reads index, index.Parts()
  {
    && index.Usable() && f.trees == index.trees.ids && f.blobs == index.blobs.ids
    && forall i :: i in f.enterable <==>
         0 <= i < |index.trees.ids| && index.IsCandidate(i) && !index.TreeIsCovered(i, f.ancestors)
  }

  function Unseen(blobs: seq<Oid>, ancestors: set<nat>): (r: set<nat>) {
    set i | 0 <= i < |blobs| && i !in ancestors
  }

  /** The scope of the walk, by object ID. */
  function ScopeOf(f: Frame): (r: Scope) {
    Scope(Oids(f.trees, f.enterable), Oids(f.blobs, Unseen(f.blobs, f.ancestors)))
  }

  ghost predicate ItemsMatch(storage: seq<Byte>, work: seq<WorkItem>, stack: seq<Item>) {
    && |work| == |stack|
    && forall k :: 0 <= k < |work| ==> ItemMatches(storage, work[k], stack[k])
  }

  ghost predicate ItemMatches(storage: seq<Byte>, w: WorkItem, x: Item) {
    AllInBounds(storage, w.path) && x == Item(Names(storage, w.path), w.tree)
  }

  lemma ItemsAreStable(storage: seq<Byte>, more: seq<Byte>, work: seq<WorkItem>, stack: seq<Item>)
    requires storage <= more && ItemsMatch(storage, work, stack)
    ensures ItemsMatch(more, work, stack)
  {
    forall k | 0 <= k < |work| ensures ItemMatches(more, work[k], stack[k]) {
      assert ItemMatches(storage, work[k], stack[k]);
      NamesAreStable(storage, more, work[k].path);
    }
  }

  /** The concrete traversal state stands for the state `s` of the reference walk. */
  ghost predicate Tracks(f: Frame, storage: seq<Byte>, prior: seq<IntroducedBlob>, pr: Progress, s: State) {
    && ItemsMatch(storage, pr.work, s.stack)
    && (forall i :: i in pr.seen.trees ==> i < |f.trees|)
    && Oids(f.trees, pr.seen.trees) == s.seen
    && pr.introduced == prior + Render(s.out)
    && (forall k :: 0 <= k < |pr.encountered| ==> pr.encountered[k] < |f.blobs|)
    && (forall b :: b in BlobsOf(s.out) <==> exists k :: 0 <= k < |pr.encountered| && f.blobs[pr.encountered[k]] == b)
  }

  /** Appends one interned name to a path. Fails when the interner is full. */
  method Extend(symbols: Table, path: seq<Symbol>, name: Name) returns (r: seq<Symbol>, ok: bool)
    requires symbols.Valid() && AllInBounds(symbols.storage, path) && name in symbols.universe
    modifies symbols
    ensures !ok ==> Overfull(symbols.universe)
    ensures old(symbols.storage) <= symbols.storage
    ensures ok ==> symbols.Valid() && AllInBounds(symbols.storage, r)
                   && Names(symbols.storage, r) == Names(old(symbols.storage), path) + [name]
  {
    ghost var before := symbols.storage;
    var s;
    s, ok := symbols.GetOrIntern(name);
    r := path + [s];
    if ok {
      NamesAreStable(before, symbols.storage, path);
      assert Names(symbols.storage, r)[..|path|] == Names(symbols.storage, path);
    }
  }

  lemma TreePushed(f: Frame, storage: seq<Byte>, more: seq<Byte>, prior: seq<IntroducedBlob>,
                   pr: Progress, s: State, child: nat, path: seq<Symbol>, names: seq<Name>)
    requires Tracks(f, storage, prior, pr, s) && storage <= more && child < |f.trees|
    requires AllInBounds(more, path) && Names(more, path) == names
    ensures Tracks(f, more, prior,
                   pr.(seen := pr.seen.(trees := pr.seen.trees + {child}),
                       work := pr.work + [WorkItem(path, f.trees[child])]),
                   State(s.stack + [Item(names, f.trees[child])], s.seen + {f.trees[child]}, s.out))
  {
    OidsInsert(f.trees, pr.seen.trees, child);
    ItemsAreStable(storage, more, pr.work, s.stack);
  }

  lemma BlobPushed(f: Frame, storage: seq<Byte>, more: seq<Byte>, prior: seq<IntroducedBlob>,
                   pr: Progress, s: State, child: nat, names: seq<Name>)
    requires Tracks(f, storage, prior, pr, s) && storage <= more && child < |f.blobs|
    ensures Tracks(f, more, prior,
                   pr.(introduced := pr.introduced + [IntroducedBlob(f.blobs[child], Joined(names))],
                       encountered := pr.encountered + [child]),
                   s.(out := s.out + [Found(f.blobs[child], names)]))
  {
    hide Oids, Joined, ItemsMatch;
    ItemsAreStable(storage, more, pr.work, s.stack);
    RenderSnoc(s.out, Found(f.blobs[child], names));
    OneMoreBlob(f.blobs, s.out, Found(f.blobs[child], names), pr.encountered, child);
  }

  lemma OneMoreBlob(blobs: seq<Oid>, out: seq<Found>, x: Found, met: seq<nat>, child: nat)
    requires child < |blobs| && x.blob == blobs[child] && forall k :: 0 <= k < |met| ==> met[k] < |blobs|
    requires forall b :: b in BlobsOf(out) <==> exists k :: 0 <= k < |met| && blobs[met[k]] == b
    ensures forall k :: 0 <= k < |met + [child]| ==> (met + [child])[k] < |blobs|
    ensures forall b ::
              b in BlobsOf(out + [x]) <==> exists k :: 0 <= k < |met + [child]| && blobs[(met + [child])[k]] == b
  {
    var all := met + [child];
    assert forall y :: y in out + [x] <==> y in out || y == x;
    forall b ensures b in BlobsOf(out + [x]) <==> exists k :: 0 <= k < |all| && blobs[all[k]] == b {
      assert b in BlobsOf(out + [x]) <==> b in BlobsOf(out) || b == x.blob;
      if b in BlobsOf(out) {
        var k :| 0 <= k < |met| && blobs[met[k]] == b;
        assert all[k] == met[k];
      }
      assert all[|met|] == child;
    }
  }

  method VisitEntry(symbols: Table, index: Index, e: Entry, path: seq<Symbol>, pr: Progress,
                    ghost prior: seq<IntroducedBlob>, ghost s: State, ghost f: Frame)
    returns (r: Progress, ok: bool)
    requires Framed(index, f) && pr.seen.blobs == f.ancestors && symbols.Valid() && AllInBounds(symbols.storage, path)
    requires Tracks(f, symbols.storage, prior, pr, s) && (HasName(e) ==> e.name in symbols.universe)
    modifies symbols
    ensures old(symbols.storage) <= symbols.storage && r.seen.blobs == pr.seen.blobs
    ensures !ok ==> Overfull(symbols.universe)
    ensures ok ==> symbols.Valid()
    ensures ok ==> Tracks(f, symbols.storage, prior, r,
                          ScanEntry(e, Names(old(symbols.storage), path), ScopeOf(f), s))
  {
    r, ok := pr, true;
    ghost var storage, names := symbols.storage, Names(symbols.storage, path);
    match e
    case LinkEntry =>
    case MalformedEntry =>
    case TreeEntry(name, oid) =>
      var found := index.trees.GetIdx(oid);
      if found.None? {
        return;
      }
      var child := found.value;
      OidsHas(f.trees, f.enterable, child);
      OidsHas(f.trees, pr.seen.trees, child);
      if !index.IsCandidate(child) || index.TreeIsCovered(child, pr.seen.blobs) {
        return;
      }
      if child in pr.seen.trees {
        return;
      }
      r := r.(seen := r.seen.(trees := r.seen.trees + {child}));
      var newPath;
      newPath, ok := Extend(symbols, path, name);
      if ok {
        TreePushed(f, storage, symbols.storage, prior, pr, s, child, newPath, names + [name]);
        r := r.(work := r.work + [WorkItem(newPath, oid)]);
      }
    case BlobEntry(name, oid) =>
      var found := index.blobs.GetIdx(oid);
      if found.None? {
        return;
      }
      var child := found.value;
      OidsHas(f.blobs, Unseen(f.blobs, f.ancestors), child);
      if child !in pr.seen.blobs {
        var newPath;
        newPath, ok := Extend(symbols, path, name);
        if ok {
          var rendered := RenderSymbolPath(symbols, newPath);
          BlobPushed(f, storage, symbols.storage, prior, pr, s, child, names + [name]);
          r := r.(introduced := r.introduced + [IntroducedBlob(oid, rendered)], encountered := r.encountered + [child]);
        }
      }
  }

  /** Scans the entries of one popped tree. */
  method VisitEntries(symbols: Table, index: Index, entries: seq<Entry>, path: seq<Symbol>, pr: Progress,
                      ghost prior: seq<IntroducedBlob>, ghost s: State, ghost f: Frame)
    returns (r: Progress, ok: bool)
    requires Framed(index, f) && pr.seen.blobs == f.ancestors && symbols.Valid() && AllInBounds(symbols.storage, path)
    requires Tracks(f, symbols.storage, prior, pr, s)
    requires forall i :: 0 <= i < |entries| && HasName(entries[i]) ==> entries[i].name in symbols.universe
    modifies symbols
    ensures old(symbols.storage) <= symbols.storage && r.seen.blobs == pr.seen.blobs
    ensures !ok ==> Overfull(symbols.universe)
    ensures ok ==> symbols.Valid()
    ensures ok ==> Tracks(f, symbols.storage, prior, r,
                          ScanTo(entries, |entries|, Names(old(symbols.storage), path), ScopeOf(f), s))
  {
    hide Tracks, ScopeOf;
    r, ok := pr, true;
    ghost var names := Names(symbols.storage, path);
    for n := 0 to |entries|
      invariant Framed(index, f) && pr.seen.blobs == f.ancestors
      invariant ok && symbols.Valid() && old(symbols.storage) <= symbols.storage && r.seen.blobs == pr.seen.blobs
      invariant AllInBounds(symbols.storage, path) && Names(symbols.storage, path) == names
      invariant Tracks(f, symbols.storage, prior, r, ScanTo(entries, n, names, ScopeOf(f), s))
    {
      ghost var before := symbols.storage;
      r, ok := VisitEntry(symbols, index, entries[n], path, r, prior, ScanTo(entries, n, names, ScopeOf(f), s), f);
      if !ok {
        return;
      }
      NamesAreStable(before, symbols.storage, path);
    }
  }

  method Drain(encountered: seq<nat>, before: set<nat>) returns (known: set<nat>)
    ensures known == before + set j | 0 <= j < |encountered| :: encountered[j]
  {
    known := before;
    for k := 0 to |encountered|
      invariant known == before + set j | 0 <= j < k :: encountered[j]
    {
      known := known + {encountered[k]};
    }
  }

  /** Walks the worklist to the end. The blobs it reports become known only afterwards, so a blob
      met at several paths of one commit is reported at each of them. Fails only when the interner
      is full, which ends the whole run. */
  method VisitTree(odb: Odb, symbols: Table, index: Index, seen: Seen, introduced: seq<IntroducedBlob>,
                   work: seq<WorkItem>,
                   ghost start: State, ghost f: Frame)
    returns (seen': Seen, introduced': seq<IntroducedBlob>, ok: bool)
    requires Framed(index, f) && seen.blobs == f.ancestors && symbols.Valid()
    requires Tracks(f, symbols.storage, introduced, Progress(seen, work, introduced, []), start)
    requires NamesOf(odb.trees) <= symbols.universe
    modifies symbols
    ensures !ok ==> Overfull(symbols.universe)
    ensures ok ==> symbols.Valid()
    ensures ok ==> (
      var r := Walk(odb, ScopeOf(f), start);
      && (forall i :: i in seen'.trees ==> i < |f.trees|)
      && Oids(f.trees, seen'.trees) == r.seen
      && Oids(f.blobs, seen'.blobs) == Oids(f.blobs, seen.blobs) + BlobsOf(r.out)
      && introduced' == introduced + Render(r.out))
  {
    hide Tracks, ScopeOf, Oids, Names, AllInBounds, Table.Valid, Walk, PopScan, ScanTo;
    var pr := Progress(seen, work, introduced, []);
    ghost var cur := start;
    while |pr.work| > 0
      invariant Framed(index, f) && seen.blobs == f.ancestors && symbols.Valid() && pr.seen.blobs == seen.blobs
      invariant Tracks(f, symbols.storage, introduced, pr, cur)
      invariant Walk(odb, ScopeOf(f), cur) == Walk(odb, ScopeOf(f), start)
      decreases |ScopeOf(f).enter - cur.seen|, |cur.stack|
    {
      var item := pr.work[|pr.work| - 1];
      Popped(f, symbols.storage, introduced, pr, cur);
      StepsTo(odb, ScopeOf(f), cur);
      ghost var popped := cur.(stack := cur.stack[..|cur.stack| - 1]);
      pr := pr.(work := pr.work[..|pr.work| - 1]);
      cur := PopScan(odb, ScopeOf(f), cur);
      if item.tree !in odb.trees {
        continue;
      }
      pr, ok := VisitEntries(symbols, index, odb.trees[item.tree], item.path, pr, introduced, popped, f);
      if !ok {
        return seen, introduced, false;
      }
    }
    seen', introduced', ok := pr.seen, pr.introduced, true;
    var known := Drain(pr.encountered, seen.blobs);
    seen' := seen'.(blobs := known);
    Finished(odb, f, symbols.storage, introduced, pr, cur, seen'.blobs);
  }

  /** One turn of the worklist, spelled out. */
  lemma StepsTo(odb: Odb, sc: Scope, s: State)
    requires s.stack != []
    ensures var top, popped := s.stack[|s.stack| - 1], s.(stack := s.stack[..|s.stack| - 1]);
      PopScan(odb, sc, s) == if top.tree in odb.trees
        then ScanTo(odb.trees[top.tree], |odb.trees[top.tree]|, top.path, sc, popped) else popped
    ensures Walk(odb, sc, s) == Walk(odb, sc, PopScan(odb, sc, s))
  {
  }

  lemma Popped(f: Frame, storage: seq<Byte>, prior: seq<IntroducedBlob>, pr: Progress, s: State)
    requires Tracks(f, storage, prior, pr, s) && |pr.work| > 0
    ensures |s.stack| == |pr.work|
    ensures Tracks(f, storage, prior, pr.(work := pr.work[..|pr.work| - 1]), s.(stack := s.stack[..|s.stack| - 1]))
    ensures ItemMatches(storage, pr.work[|pr.work| - 1], s.stack[|s.stack| - 1])
  {
  }

  lemma Finished(odb: Odb, f: Frame, storage: seq<Byte>, prior: seq<IntroducedBlob>, pr: Progress, s: State,
                 known: set<nat>)
    requires Tracks(f, storage, prior, pr, s) && |pr.work| == 0
    requires known == f.ancestors + set j | 0 <= j < |pr.encountered| :: pr.encountered[j]
    ensures Walk(odb, ScopeOf(f), s) == s && (forall i :: i in pr.seen.trees ==> i < |f.trees|)
    ensures Oids(f.trees, pr.seen.trees) == s.seen && pr.introduced == prior + Render(s.out)
    ensures Oids(f.blobs, known) == Oids(f.blobs, f.ancestors) + BlobsOf(s.out)
  {
    KnownAfterwards(f.blobs, f.ancestors, known, pr.encountered, s.out);
  }

  lemma KnownAfterwards(ids: seq<Oid>, before: set<nat>, after: set<nat>, met: seq<nat>, out: seq<Found>)
    requires after == before + set j | 0 <= j < |met| :: met[j]
    requires forall k :: 0 <= k < |met| ==> met[k] < |ids|
    requires forall b :: b in BlobsOf(out) <==> exists k :: 0 <= k < |met| && ids[met[k]] == b
    ensures Oids(ids, after) == Oids(ids, before) + BlobsOf(out)
  {
    forall b ensures b in Oids(ids, after) <==> b in Oids(ids, before) + BlobsOf(out) {
      if b in Oids(ids, after) {
        var i :| i in after && i < |ids| && ids[i] == b;
        if i !in before {
          var j :| 0 <= j < |met| && met[j] == i;
        }
      }
      if b in BlobsOf(out) {
        var k :| 0 <= k < |met| && ids[met[k]] == b;
        assert met[k] in after;
      }
    }
  }
}
