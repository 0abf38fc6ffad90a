/** The commit graph as a value: ancestry, cycles, and which blobs a commit introduces. */
module CommitHistory {
  import opened GitObjects
  import opened TreeWalk
  import opened WalkMeaning
  import opened Wrappers

  datatype Edge = Edge(parent: nat, child: nat)

  /** One root tree per commit, absent when the index has none; parallel edges are allowed. */
  datatype History = History(roots: seq<Option<Oid>>, edges: seq<Edge>)

  predicate WellFormed(h: History) {
    forall e :: e in h.edges ==> e.parent < |h.roots| && e.child < |h.roots|
  }

  /** Consecutive commits are parent and child. */
  ghost predicate Line(h: History, p: seq<nat>) {
    |p| > 0 && forall i :: 0 <= i < |p| - 1 ==> Edge(p[i], p[i + 1]) in h.edges
  }

  ghost predicate LineFrom(h: History, a: nat, p: seq<nat>, c: nat) {
    Line(h, p) && p[0] == a && p[|p| - 1] == c
  }

  ghost predicate ProperAncestor(h: History, a: nat, c: nat) {
    exists p :: LineFrom(h, a, p, c) && |p| >= 2
  }

  ghost predicate Cyclic(h: History) {
    exists c :: ProperAncestor(h, c, c)
  }

  ghost predicate RootContains(odb: Odb, h: History, c: nat, blob: Oid) {
    c < |h.roots| && h.roots[c].Some? && Contains(odb, h.roots[c].value, blob)
  }

  /** Some proper ancestor's tree contains the blob. */
  ghost predicate Inherited(odb: Odb, h: History, c: nat, blob: Oid) {
    exists a :: ProperAncestor(h, a, c) && RootContains(odb, h, a, blob)
  }

  ghost predicate Available(odb: Odb, h: History, c: nat, blob: Oid) {
    Inherited(odb, h, c, blob) || RootContains(odb, h, c, blob)
  }

  /** The candidates no proper ancestor of the commit has. */
  ghost function Fresh(odb: Odb, h: History, candidates: set<Oid>, c: nat): (r: set<Oid>) {
    set b | b in candidates && !Inherited(odb, h, c, b)
  }

  /** What a commit introduces among the candidates: its fresh blobs, in the order and at the
      paths of the reference walk. */
  ghost function Attributed(odb: Odb, h: History, candidates: set<Oid>, c: nat): (r: seq<Found>)
    requires c < |h.roots|
  {
    if h.roots[c].None? then [] else Introduced(odb, Fresh(odb, h, candidates, c), h.roots[c].value)
  }

  /** A commit inherits what is available at a parent. */
  lemma InheritedFromParent(odb: Odb, h: History, c: nat, blob: Oid)
    ensures Inherited(odb, h, c, blob)
        <==> exists a :: Edge(a, c) in h.edges && Available(odb, h, a, blob)
  {
    if Inherited(odb, h, c, blob) {
      var a :| ProperAncestor(h, a, c) && RootContains(odb, h, a, blob);
      var p :| LineFrom(h, a, p, c) && |p| >= 2;
      var n := |p| - 2;
      assert Edge(p[n], p[n + 1]) in h.edges;
      if n > 0 {
        assert LineFrom(h, a, p[..n + 1], p[n]);
        assert ProperAncestor(h, a, p[n]);
      }
      assert Available(odb, h, p[n], blob);
    }
    if a :| Edge(a, c) in h.edges && Available(odb, h, a, blob) {
      if RootContains(odb, h, a, blob) {
        assert LineFrom(h, a, [a, c], c);
        assert ProperAncestor(h, a, c);
      } else {
        var b :| ProperAncestor(h, b, a) && RootContains(odb, h, b, blob);
        var p :| LineFrom(h, b, p, a) && |p| >= 2;
        LineSnoc(h, b, p, a, c);
        assert ProperAncestor(h, b, c);
      }
    }
  }

  lemma LineSnoc(h: History, a: nat, p: seq<nat>, b: nat, c: nat)
    requires LineFrom(h, a, p, b) && Edge(b, c) in h.edges
    ensures LineFrom(h, a, p + [c], c)
  {
  }

  // ----- the attribution is the one the history defines

  /** The blobs attributed to a commit are exactly the candidates in its tree that are in no
      proper ancestor's tree, each at a path that names it in that tree. */
  lemma AttributedIsExact(odb: Odb, h: History, candidates: set<Oid>, c: nat)
    requires c < |h.roots| && (h.roots[c].Some? ==> h.roots[c].value in odb.indexed)
    ensures forall b :: Among(Attributed(odb, h, candidates, c), b)
                   <==> b in candidates && RootContains(odb, h, c, b) && !Inherited(odb, h, c, b)
    ensures forall x :: x in Attributed(odb, h, candidates, c) ==>
              h.roots[c].Some? && NamesBlob(odb, h.roots[c].value, x.path, x.blob)
  {
    if h.roots[c].Some? {
      IntroducedIsExact(odb, Fresh(odb, h, candidates, c), h.roots[c].value);
    }
  }

  lemma {:induction false} KeepAll(out: seq<Found>, blobs: set<Oid>)
    requires forall x :: x in out ==> x.blob in blobs
    ensures KeepBlobs(out, blobs) == out
  {
    if out != [] {
      assert out == out[..|out| - 1] + [out[|out| - 1]];
      KeepAll(out[..|out| - 1], blobs);
    }
  }

  lemma {:induction false} KeepAgree(out: seq<Found>, a: set<Oid>, b: set<Oid>)
    requires forall x :: x in out ==> (x.blob in a <==> x.blob in b)
    ensures KeepBlobs(out, a) == KeepBlobs(out, b)
  {
    if out != [] {
      assert out == out[..|out| - 1] + [out[|out| - 1]];
      KeepAgree(out[..|out| - 1], a, b);
    }
  }

  lemma IntroducedAreWanted(odb: Odb, wanted: set<Oid>, root: Oid)
    ensures forall x :: x in Introduced(odb, wanted, root) ==> x.blob in wanted
  {
    var sc := Scope(BearingTrees(odb, wanted), wanted);
    ReportedAreWanted(odb, sc, Start(sc, root, {}));
  }

  /** Filtering the candidates before the traversal is filtering its result afterwards. */
  lemma AttributionCommutesWithFiltering(odb: Odb, h: History, all: set<Oid>, kept: set<Oid>, c: nat)
    requires kept <= all && c < |h.roots| && (h.roots[c].Some? ==> h.roots[c].value in odb.indexed)
    ensures KeepBlobs(Attributed(odb, h, all, c), kept) == Attributed(odb, h, kept, c)
  {
    if h.roots[c].Some? {
      var root := h.roots[c].value;
      var more, less := Fresh(odb, h, all, c), Fresh(odb, h, kept, c);
      var sc := Scope(BearingTrees(odb, more), more);
      WalkRefinesReference(odb, sc, less, root, {});
      IntroducedAreWanted(odb, more, root);
      KeepAgree(Introduced(odb, more, root), kept, less);
    }
  }
}
