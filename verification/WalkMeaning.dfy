/** What a walk reports: exactly the wanted blobs below its root, each at a path that names it. */
module WalkMeaning {
  import opened GitObjects
  import opened TreeWalk

  /** The tree holds at least one of the blobs. */
  ghost predicate Bears(odb: Odb, blobs: set<Oid>, t: Oid) {
    exists b :: b in blobs && Contains(odb, t, b)
  }

  ghost function BearingTrees(odb: Odb, blobs: set<Oid>): set<Oid> {
    set t | t in odb.indexed && Bears(odb, blobs, t)
  }

  /** The reference attribution of one commit: walk only the trees that hold a wanted blob. */
  ghost function Introduced(odb: Odb, wanted: set<Oid>, root: Oid): (r: seq<Found>) {
    WalkFrom(odb, Scope(BearingTrees(odb, wanted), wanted), root, {}).out
  }

  /** Nothing wanted is lost by not entering a tree: neither one outside the scope nor one
      already seen holds a wanted blob. */
  ghost predicate Thorough(odb: Odb, sc: Scope, seen: set<Oid>) {
    && sc.enter <= odb.indexed
    && forall t :: t in odb.indexed && (t !in sc.enter || t in seen) ==> !Bears(odb, sc.report, t)
  }

  lemma UnborneIsBarren(odb: Odb, wanted: set<Oid>, t: Oid)
    requires !Bears(odb, wanted, t)
    ensures Barren(odb, t, Scope(BearingTrees(odb, wanted), wanted))
  {
    if t in odb.trees {
      forall e | e in odb.trees[t]
        ensures e.TreeEntry? ==> e.oid !in BearingTrees(odb, wanted)
        ensures e.BlobEntry? ==> e.oid !in wanted
      {
        if e.BlobEntry? && e.oid in wanted { OwnedIsContained(odb, t, e.oid); }
        if e.TreeEntry? && e.oid in BearingTrees(odb, wanted) {
          var b :| b in wanted && Contains(odb, e.oid, b);
          ChildContentIsContained(odb, t, e.oid, b);
        }
      }
    }
  }

  lemma StartsMirror(big: Scope, small: Scope, root: Oid, seen: set<Oid>)
    requires small.enter <= big.enter && forall t :: t in seen ==> t !in small.enter
    ensures Mirrors(Start(big, root, seen), Start(small, root, {}), small)
  {
    KeepItemsSnoc([], Item([], root), small.enter);
    assert [] + [Item([], root)] == [Item([], root)];
  }

  /** Every walk that is thorough for the wanted blobs, whatever else it enters or reports, gives
      the reference attribution of the wanted blobs: same paths in the same order. */
  lemma WalkRefinesReference(odb: Odb, sc: Scope, wanted: set<Oid>, root: Oid, seen: set<Oid>)
    requires wanted <= sc.report && Thorough(odb, Scope(sc.enter, wanted), seen)
    requires root in odb.indexed
    ensures KeepBlobs(WalkFrom(odb, sc, root, seen).out, wanted) == Introduced(odb, wanted, root)
  {
    var small := Scope(BearingTrees(odb, wanted), wanted);
    forall t | t in sc.enter - small.enter ensures Barren(odb, t, small) {
      UnborneIsBarren(odb, wanted, t);
    }
    StartsMirror(sc, small, root, seen);
    Simulation(odb, sc, small, Start(sc, root, seen), Start(small, root, {}));
  }

  // ----- soundness and completeness of a walk

  ghost predicate OnStack(s: State, t: Oid) {
    exists x :: x in s.stack && x.tree == t
  }

  ghost predicate Among(out: seq<Found>, blob: Oid) {
    exists x :: x in out && x.blob == blob
  }

  ghost predicate Reported(s: State, blob: Oid) {
    Among(s.out, blob)
  }

  /** The first `n` entries have had their effect on the state. */
  ghost predicate Scanned(entries: seq<Entry>, n: nat, sc: Scope, s: State)
    requires n <= |entries|
  {
    forall i :: 0 <= i < n ==>
      && (entries[i].TreeEntry? && entries[i].oid in sc.enter ==> entries[i].oid in s.seen)
      && (entries[i].BlobEntry? && entries[i].oid in sc.report ==> Reported(s, entries[i].oid))
  }

  ghost predicate Done(odb: Odb, sc: Scope, s: State, t: Oid) {
    t in odb.trees ==> Scanned(odb.trees[t], |odb.trees[t]|, sc, s)
  }

  /** Worklist items and reports carry true paths. */
  ghost predicate TruePaths(odb: Odb, root: Oid, sc: Scope, s: State) {
    && (forall x :: x in s.stack ==> Leads(odb, root, x.path, x.tree))
    && (forall x :: x in s.out ==> x.blob in sc.report && NamesBlob(odb, root, x.path, x.blob))
  }

  ghost predicate Progress(odb: Odb, sc: Scope, seen0: set<Oid>, s: State) {
    && seen0 <= s.seen <= seen0 + sc.enter
    && forall t :: t in s.seen - seen0 && !OnStack(s, t) ==> Done(odb, sc, s, t)
  }

  /** Later states keep what earlier ones have: the stack only has items added at the top. */
  ghost predicate Extends(s: State, r: State) {
    && s.stack <= r.stack && s.seen <= r.seen && s.out <= r.out
    && forall t :: t in r.seen && t !in s.seen ==> OnStack(r, t)
  }

  lemma {:induction false} ScanEffect(entries: seq<Entry>, n: nat, path: seq<Name>, sc: Scope, s: State)
    requires n <= |entries|
    ensures Extends(s, ScanTo(entries, n, path, sc, s))
    ensures Scanned(entries, n, sc, ScanTo(entries, n, path, sc, s))
  {
    if n > 0 {
      ScanEffect(entries, n - 1, path, sc, s);
      var q, r := ScanTo(entries, n - 1, path, sc, s), ScanTo(entries, n, path, sc, s);
      var e := entries[n - 1];
      if e.TreeEntry? && e.oid in sc.enter && e.oid !in q.seen {
        assert Item(path + [e.name], e.oid) in r.stack;
      }
      if e.BlobEntry? && e.oid in sc.report {
        assert Found(e.oid, path + [e.name]) in r.out;
      }
      assert forall x :: x in q.stack ==> x in r.stack;
      assert forall x :: x in q.out ==> x in r.out;
    }
  }

  lemma {:induction false} ScanKeepsTruePaths(odb: Odb, root: Oid, n: nat, at: Item, sc: Scope, s: State)
    requires at.tree in odb.trees && n <= |odb.trees[at.tree]| && sc.enter <= odb.indexed
    requires TruePaths(odb, root, sc, s) && Leads(odb, root, at.path, at.tree)
    ensures TruePaths(odb, root, sc, ScanTo(odb.trees[at.tree], n, at.path, sc, s))
  {
    if n > 0 {
      ScanKeepsTruePaths(odb, root, n - 1, at, sc, s);
      var e := odb.trees[at.tree][n - 1];
      if e.TreeEntry? || e.BlobEntry? {
        var names := at.path + [e.name];
        assert names[..|names| - 1] == at.path && e in odb.trees[at.tree];
      }
    }
  }

  lemma PopScanProgress(odb: Odb, root: Oid, sc: Scope, seen0: set<Oid>, s: State)
    requires s.stack != [] && sc.enter <= odb.indexed
    requires TruePaths(odb, root, sc, s) && Progress(odb, sc, seen0, s)
    ensures TruePaths(odb, root, sc, PopScan(odb, sc, s))
    ensures Progress(odb, sc, seen0, PopScan(odb, sc, s))
    ensures s.seen <= PopScan(odb, sc, s).seen
  {
    var n := |s.stack| - 1;
    var top, popped, r := s.stack[n], s.(stack := s.stack[..n]), PopScan(odb, sc, s);
    assert top in s.stack;
    if top.tree in odb.trees {
      ScanEffect(odb.trees[top.tree], |odb.trees[top.tree]|, top.path, sc, popped);
      ScanKeepsTruePaths(odb, root, |odb.trees[top.tree]|, top, sc, popped);
    }
    forall t | t in r.seen - seen0 && !OnStack(r, t) ensures Done(odb, sc, r, t) {
      if t != top.tree {
        if t in s.seen && !OnStack(s, t) {
          StaysDone(odb, sc, s, r, t);
        } else {
          LeftStack(s, r, t);
        }
      }
    }
  }

  lemma StaysDone(odb: Odb, sc: Scope, s: State, r: State, t: Oid)
    requires Done(odb, sc, s, t) && s.seen <= r.seen && s.out <= r.out
    ensures Done(odb, sc, r, t)
  {
    forall b | Reported(s, b) ensures Reported(r, b) {
      var x :| x in s.out && x.blob == b;
      assert x in r.out;
    }
  }

  /** Only the popped tree leaves the stack, and trees newly seen are on it. */
  lemma LeftStack(s: State, r: State, t: Oid)
    requires s.stack != [] && Extends(s.(stack := s.stack[..|s.stack| - 1]), r)
    requires t in r.seen && (t in s.seen ==> OnStack(s, t)) && t != s.stack[|s.stack| - 1].tree
    ensures OnStack(r, t)
  {
    if t in s.seen {
      var x :| x in s.stack && x.tree == t;
      assert x in s.stack[..|s.stack| - 1];
      assert x in r.stack;
    }
  }

  lemma {:induction false} WalkProgress(odb: Odb, root: Oid, sc: Scope, seen0: set<Oid>, s: State)
    requires sc.enter <= odb.indexed
    requires TruePaths(odb, root, sc, s) && Progress(odb, sc, seen0, s)
    ensures TruePaths(odb, root, sc, Walk(odb, sc, s)) && Progress(odb, sc, seen0, Walk(odb, sc, s))
    ensures Walk(odb, sc, s).stack == [] && s.seen <= Walk(odb, sc, s).seen
    decreases |sc.enter - s.seen|, |s.stack|
  {
    if s.stack != [] {
      PopScanProgress(odb, root, sc, seen0, s);
      WalkProgress(odb, root, sc, seen0, PopScan(odb, sc, s));
    }
  }

  /** At the end of a walk every wanted blob below a seen tree has been reported. */
  lemma {:induction false} SeenIsExhausted(odb: Odb, sc: Scope, seen0: set<Oid>, r: State, t: Oid, p: seq<Oid>,
                                           blob: Oid)
    requires Thorough(odb, sc, seen0) && Progress(odb, sc, seen0, r) && r.stack == []
    requires t in r.seen && t in odb.indexed && Via(odb, t, p, blob) && blob in sc.report
    ensures Reported(r, blob)
    decreases |p|
  {
    assert Contains(odb, t, blob);
    assert t !in seen0 && Done(odb, sc, r, t);
    if |p| > 1 {
      assert Child(odb, p[0], p[1]);
      assert Via(odb, p[1], p[1..], blob);
      assert Contains(odb, p[1], blob);
      SeenIsExhausted(odb, sc, seen0, r, p[1], p[1..], blob);
    }
  }

  /** A thorough walk reports exactly the wanted blobs below its root, each under a path that
      names it there, and leaves nothing wanted and unreported below any tree it marks. */
  lemma WalkIsExact(odb: Odb, sc: Scope, root: Oid, seen: set<Oid>)
    requires Thorough(odb, sc, seen) && root in odb.indexed
    ensures var r := WalkFrom(odb, sc, root, seen);
      && (forall b :: Reported(r, b) <==> b in sc.report && Contains(odb, root, b))
      && (forall x :: x in r.out ==> NamesBlob(odb, root, x.path, x.blob))
      && seen <= r.seen <= seen + sc.enter
      && (forall t, b :: t in r.seen && t in odb.indexed && b in sc.report && Contains(odb, t, b)
                         ==> Reported(r, b))
  {
    var s, r := Start(sc, root, seen), WalkFrom(odb, sc, root, seen);
    assert s.stack != [] ==> OnStack(s, root) by { assert s.stack != [] ==> Item([], root) in s.stack; }
    WalkProgress(odb, root, sc, seen, s);
    forall t, b | t in r.seen && t in odb.indexed && b in sc.report && Contains(odb, t, b)
      ensures Reported(r, b)
    {
      var p :| Via(odb, t, p, b);
      SeenIsExhausted(odb, sc, seen, r, t, p, b);
    }
    forall b | Reported(r, b) ensures b in sc.report && Contains(odb, root, b) {
      var x :| x in r.out && x.blob == b;
      NamedIsContained(odb, root, x.path, b);
    }
  }

  lemma NamedIsContained(odb: Odb, root: Oid, names: seq<Name>, blob: Oid)
    requires NamesBlob(odb, root, names, blob)
    ensures Contains(odb, root, blob)
  {
    var u :| Leads(odb, root, names[..|names| - 1], u) && u in odb.trees
             && BlobEntry(names[|names| - 1], blob) in odb.trees[u];
    OwnedIsContained(odb, u, blob);
    LedContentIsContained(odb, root, names[..|names| - 1], u, blob);
  }

  lemma {:induction false} LedContentIsContained(odb: Odb, root: Oid, names: seq<Name>, t: Oid, blob: Oid)
    requires Leads(odb, root, names, t) && Contains(odb, t, blob)
    ensures Contains(odb, root, blob)
    decreases |names|
  {
    if names != [] {
      var n := |names| - 1;
      var u :| Leads(odb, root, names[..n], u) && u in odb.trees && t in odb.indexed
               && TreeEntry(names[n], t) in odb.trees[u];
      ChildContentIsContained(odb, u, t, blob);
      LedContentIsContained(odb, root, names[..n], u, blob);
    }
  }

  lemma {:induction false} ReportedAreWanted(odb: Odb, sc: Scope, s: State)
    requires forall x :: x in s.out ==> x.blob in sc.report
    ensures forall x :: x in Walk(odb, sc, s).out ==> x.blob in sc.report
    decreases |sc.enter - s.seen|, |s.stack|
  {
    if s.stack != [] {
      var n := |s.stack| - 1;
      var top, popped := s.stack[n], s.(stack := s.stack[..n]);
      if top.tree in odb.trees {
        ScanReportsWanted(odb.trees[top.tree], |odb.trees[top.tree]|, top.path, sc, popped);
      }
      ReportedAreWanted(odb, sc, PopScan(odb, sc, s));
    }
  }

  lemma {:induction false} ScanReportsWanted(entries: seq<Entry>, n: nat, path: seq<Name>, sc: Scope, s: State)
    requires n <= |entries| && forall x :: x in s.out ==> x.blob in sc.report
    ensures forall x :: x in ScanTo(entries, n, path, sc, s).out ==> x.blob in sc.report
  {
    if n > 0 { ScanReportsWanted(entries, n - 1, path, sc, s); }
  }

  /** The reference attribution names exactly the wanted blobs below the root. */
  lemma IntroducedIsExact(odb: Odb, wanted: set<Oid>, root: Oid)
    requires root in odb.indexed
    ensures forall b :: Among(Introduced(odb, wanted, root), b) <==> b in wanted && Contains(odb, root, b)
    ensures forall x :: x in Introduced(odb, wanted, root) ==> NamesBlob(odb, root, x.path, x.blob)
  {
    var sc := Scope(BearingTrees(odb, wanted), wanted);
    WalkIsExact(odb, sc, root, {});
    var r := WalkFrom(odb, sc, root, {});
    forall b ensures Among(r.out, b) <==> b in wanted && Contains(odb, root, b) {
      assert Reported(r, b) <==> Among(r.out, b);
    }
  }
}
