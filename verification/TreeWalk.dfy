/** The tree traversal of one commit, as a function of its worklist state, and why skipping
    subtrees that hold nothing new does not change what it reports. */
module TreeWalk {
  import opened GitObjects
  import opened Sets

  datatype Item = Item(path: seq<Name>, tree: Oid)
  datatype Found = Found(blob: Oid, path: seq<Name>)

  /** The worklist (top last), the trees marked seen, and the blobs reported so far. */
  datatype State = State(stack: seq<Item>, seen: set<Oid>, out: seq<Found>)

  /** `enter`: the trees a walk may enter; `report`: the blobs it reports. */
  datatype Scope = Scope(enter: set<Oid>, report: set<Oid>)

  function ScanEntry(e: Entry, path: seq<Name>, sc: Scope, s: State): (r: State) {
    match e
    case TreeEntry(name, oid) =>
      if oid in sc.enter && oid !in s.seen then
        State(s.stack + [Item(path + [name], oid)], s.seen + {oid}, s.out)
      else s
    case BlobEntry(name, oid) =>
      if oid in sc.report then s.(out := s.out + [Found(oid, path + [name])]) else s
    case LinkEntry => s
    case MalformedEntry => s
  }

  /** The state after the first `n` entries of a tree. */
  function ScanTo(entries: seq<Entry>, n: nat, path: seq<Name>, sc: Scope, s: State): (r: State)
    requires n <= |entries|
    ensures s.seen <= r.seen <= s.seen + sc.enter
    ensures r.seen == s.seen ==> r.stack == s.stack
    ensures r.seen == s.seen || |sc.enter - r.seen| < |sc.enter - s.seen|
  {
    if n == 0 then s
    else
      var q := ScanTo(entries, n - 1, path, sc, s);
      var r := ScanEntry(entries[n - 1], path, sc, q);
      SmallerRest(sc.enter, s.seen, r.seen);
      r
  }

  lemma SmallerRest(all: set<Oid>, before: set<Oid>, after: set<Oid>)
    requires before <= after <= before + all
    ensures after == before || |all - after| < |all - before|
  {
    if after != before {
      assert all - after < all - before;
      SubsetSize(all - after, all - before);
    }
  }

  /** Runs the worklist to the end. A popped tree that cannot be read has no entries. */
  function Walk(odb: Odb, sc: Scope, s: State): (r: State)
    decreases |sc.enter - s.seen|, |s.stack|
  {
    if s.stack == [] then s
    else Walk(odb, sc, PopScan(odb, sc, s))
  }

  function PopScan(odb: Odb, sc: Scope, s: State): (r: State)
    requires s.stack != []
    ensures |sc.enter - r.seen| < |sc.enter - s.seen|
            || (r.seen == s.seen && |r.stack| < |s.stack|)
  {
    var top := s.stack[|s.stack| - 1];
    var popped := s.(stack := s.stack[..|s.stack| - 1]);
    if top.tree in odb.trees then
      ScanTo(odb.trees[top.tree], |odb.trees[top.tree]|, top.path, sc, popped)
    else popped
  }

  /** The state in which a walk from `root` starts: the root is entered like any other tree. */
  function Start(sc: Scope, root: Oid, seen: set<Oid>): (r: State) {
    if root in sc.enter && root !in seen then State([Item([], root)], seen + {root}, [])
    else State([], seen, [])
  }

  function WalkFrom(odb: Odb, sc: Scope, root: Oid, seen: set<Oid>): (r: State) {
    Walk(odb, sc, Start(sc, root, seen))
  }

  // ----- skipping subtrees is invisible

  function KeepItems(items: seq<Item>, trees: set<Oid>): (r: seq<Item>)
    ensures forall x :: x in r <==> x in items && x.tree in trees
  {
    if items == [] then []
    else
      var rest := KeepItems(items[..|items| - 1], trees);
      var x := items[|items| - 1];
      assert items == items[..|items| - 1] + [x];
      if x.tree in trees then rest + [x] else rest
  }

  function KeepBlobs(out: seq<Found>, blobs: set<Oid>): (r: seq<Found>)
    ensures forall x :: x in r <==> x in out && x.blob in blobs
  {
    if out == [] then []
    else
      var rest := KeepBlobs(out[..|out| - 1], blobs);
      var x := out[|out| - 1];
      assert out == out[..|out| - 1] + [x];
      if x.blob in blobs then rest + [x] else rest
  }

  /** Whatever the larger walk enters on its own leads to nothing the smaller one wants. */
  ghost predicate Barren(odb: Odb, t: Oid, sc: Scope) {
    t in odb.trees ==>
      forall e :: e in odb.trees[t] ==>
        (e.TreeEntry? ==> e.oid !in sc.enter) && (e.BlobEntry? ==> e.oid !in sc.report)
  }

  ghost predicate Narrows(odb: Odb, big: Scope, small: Scope) {
    && small.enter <= big.enter
    && small.report <= big.report
    && forall t :: t in big.enter - small.enter ==> Barren(odb, t, small)
  }

  /** The small walk's state is the big one's with the uninteresting parts left out. */
  ghost predicate Mirrors(big: State, small: State, sc: Scope) {
    && small.stack == KeepItems(big.stack, sc.enter)
    && small.out == KeepBlobs(big.out, sc.report)
    && forall t :: t in sc.enter ==> (t in small.seen <==> t in big.seen)
  }

  lemma KeepItemsSnoc(items: seq<Item>, x: Item, trees: set<Oid>)
    ensures KeepItems(items + [x], trees)
         == KeepItems(items, trees) + (if x.tree in trees then [x] else [])
  {
    assert (items + [x])[..|items|] == items;
  }

  lemma KeepBlobsSnoc(out: seq<Found>, x: Found, blobs: set<Oid>)
    ensures KeepBlobs(out + [x], blobs)
         == KeepBlobs(out, blobs) + (if x.blob in blobs then [x] else [])
  {
    assert (out + [x])[..|out|] == out;
  }

  lemma {:induction false} ScanMirrors(entries: seq<Entry>, n: nat, path: seq<Name>, big: Scope, small: Scope, a: State,
                                       b: State)
    requires n <= |entries|
    requires small.enter <= big.enter && small.report <= big.report && Mirrors(a, b, small)
    ensures Mirrors(ScanTo(entries, n, path, big, a), ScanTo(entries, n, path, small, b), small)
  {
    if n > 0 {
      ScanMirrors(entries, n - 1, path, big, small, a, b);
      EntryMirrors(entries[n - 1], path, big, small, ScanTo(entries, n - 1, path, big, a),
                   ScanTo(entries, n - 1, path, small, b));
    }
  }

  lemma EntryMirrors(e: Entry, path: seq<Name>, big: Scope, small: Scope, a: State, b: State)
    requires small.enter <= big.enter && small.report <= big.report && Mirrors(a, b, small)
    ensures Mirrors(ScanEntry(e, path, big, a), ScanEntry(e, path, small, b), small)
  {
    match e
    case TreeEntry(name, oid) => KeepItemsSnoc(a.stack, Item(path + [name], oid), small.enter);
    case BlobEntry(name, oid) => KeepBlobsSnoc(a.out, Found(oid, path + [name]), small.report);
    case _ =>
  }

  lemma {:induction false} ScanStutters(entries: seq<Entry>, n: nat, path: seq<Name>, big: Scope, small: Scope,
                                        a: State, b: State)
    requires n <= |entries|
    requires forall e :: e in entries ==>
      (e.TreeEntry? ==> e.oid !in small.enter) && (e.BlobEntry? ==> e.oid !in small.report)
    requires Mirrors(a, b, small)
    ensures Mirrors(ScanTo(entries, n, path, big, a), b, small)
  {
    if n > 0 {
      ScanStutters(entries, n - 1, path, big, small, a, b);
      assert entries[n - 1] in entries;
      EntryStutters(entries[n - 1], path, big, small, ScanTo(entries, n - 1, path, big, a), b);
    }
  }

  lemma EntryStutters(e: Entry, path: seq<Name>, big: Scope, small: Scope, a: State, b: State)
    requires (e.TreeEntry? ==> e.oid !in small.enter) && (e.BlobEntry? ==> e.oid !in small.report)
    requires Mirrors(a, b, small)
    ensures Mirrors(ScanEntry(e, path, big, a), b, small)
  {
    match e
    case TreeEntry(name, oid) => KeepItemsSnoc(a.stack, Item(path + [name], oid), small.enter);
    case BlobEntry(name, oid) => KeepBlobsSnoc(a.out, Found(oid, path + [name]), small.report);
    case _ =>
  }

  lemma {:induction false} ScanStaysInside(entries: seq<Entry>, n: nat, path: seq<Name>, sc: Scope, s: State)
    requires n <= |entries| && forall x :: x in s.stack ==> x.tree in sc.enter
    ensures forall x :: x in ScanTo(entries, n, path, sc, s).stack ==> x.tree in sc.enter
  {
    if n > 0 { ScanStaysInside(entries, n - 1, path, sc, s); }
  }

  /** Entering fewer trees, when the others lead to nothing wanted, reports exactly the wanted
      part of the same list: same blobs, same paths, same order. */
  lemma {:induction false} Simulation(odb: Odb, big: Scope, small: Scope, a: State, b: State)
    requires Narrows(odb, big, small) && Mirrors(a, b, small)
    requires forall x :: x in a.stack ==> x.tree in big.enter
    ensures Walk(odb, small, b).out == KeepBlobs(Walk(odb, big, a).out, small.report)
    decreases |big.enter - a.seen|, |a.stack|
  {
    if a.stack != [] {
      var n := |a.stack| - 1;
      var top := a.stack[n];
      var a1, a2 := a.(stack := a.stack[..n]), PopScan(odb, big, a);
      assert a.stack == a.stack[..n] + [top];
      KeepItemsSnoc(a.stack[..n], top, small.enter);
      assert top in a.stack;
      if top.tree in odb.trees {
        ScanStaysInside(odb.trees[top.tree], |odb.trees[top.tree]|, top.path, big, a1);
      }
      if top.tree in small.enter {
        var m := |b.stack| - 1;
        var b1 := b.(stack := b.stack[..m]);
        assert b.stack[m] == top && b1.stack == KeepItems(a1.stack, small.enter);
        if top.tree in odb.trees {
          ScanMirrors(odb.trees[top.tree], |odb.trees[top.tree]|, top.path, big, small, a1, b1);
        }
        Simulation(odb, big, small, a2, PopScan(odb, small, b));
      } else {
        assert Barren(odb, top.tree, small);
        if top.tree in odb.trees {
          ScanStutters(odb.trees[top.tree], |odb.trees[top.tree]|, top.path, big, small, a1, b);
        }
        Simulation(odb, big, small, a2, b);
      }
    }
  }
}
