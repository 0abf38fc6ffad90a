/** The traversal of the commit graph: whichever ready commit is taken next, every commit is
    processed once, after all its parents, with the union of what they know. */
module GraphTraversal {
  import opened BStringTable
  import opened CommitGraph
  import opened CommitHistory
  import opened CommitWalk
  import opened GitObjects
  import opened ObjectIds
  import opened RepositoryIndex
  import opened TreeTraversal
  import opened TreeWalk
  import opened Wrappers

  // ----- cycles

  lemma {:induction false} Pigeonhole(p: seq<nat>, n: nat) returns (i: nat, j: nat)
    requires |p| > n && forall k :: 0 <= k < |p| ==> p[k] < n
    ensures i < j < |p| && p[i] == p[j]
    decreases n
  {
    var last := |p| - 1;
    if k :| 0 <= k < last && p[k] == p[last] {
      i, j := k, last;
    } else {
      // no other element equals the last one: move the largest value into its place and drop it
      var q := seq(last, k requires 0 <= k < last => if p[k] == n - 1 then p[last] else p[k]);
      i, j := Pigeonhole(q, n - 1);
    }
  }

  ghost predicate HasParentIn(h: History, left: set<nat>, n: nat) {
    exists m :: m in left && Edge(m, n) in h.edges
  }

  /** A chain of `k` steps backwards through nodes that all have a predecessor among them. */
  lemma {:induction false} BackwardChain(h: History, left: set<nat>, c: nat, k: nat) returns (p: seq<nat>)
    requires c in left && forall n {:trigger HasParentIn(h, left, n)} :: n in left ==> HasParentIn(h, left, n)
    ensures |p| == k + 1 && Line(h, p) && p[k] == c && forall i :: 0 <= i < |p| ==> p[i] in left
    decreases k
  {
    if k == 0 {
      p := [c];
    } else {
      assert HasParentIn(h, left, c);
      var m :| m in left && Edge(m, c) in h.edges;
      var q := BackwardChain(h, left, m, k - 1);
      p := q + [c];
    }
  }

  /** Commits that all have a parent among themselves close a cycle. */
  lemma StuckMeansCyclic(h: History, left: set<nat>, c: nat)
    requires c in left && forall n :: n in left ==> n < |h.roots|
    requires forall n {:trigger HasParentIn(h, left, n)} :: n in left ==> HasParentIn(h, left, n)
    ensures Cyclic(h)
  {
    var p := BackwardChain(h, left, c, |h.roots|);
    var i, j := Pigeonhole(p, |h.roots|);
    var q := p[i..j + 1];
    forall k | 0 <= k < |q| - 1 ensures Edge(q[k], q[k + 1]) in h.edges {
      assert q[k] == p[i + k] && q[k + 1] == p[i + k + 1];
    }
    assert LineFrom(h, p[i], q, p[i]);
    assert ProperAncestor(h, p[i], p[i]);
  }

  /** Commits processed parents first have increasing ranks along every line of descent. */
  ghost predicate Ranked(h: History, rank: map<nat, nat>) {
    forall e :: e in h.edges ==> e.parent in rank && e.child in rank && rank[e.parent] < rank[e.child]
  }

  lemma {:induction false} RankRises(h: History, rank: map<nat, nat>, a: nat, p: seq<nat>, c: nat)
    requires Ranked(h, rank) && LineFrom(h, a, p, c) && |p| >= 2
    ensures a in rank && c in rank && rank[a] < rank[c]
    decreases |p|
  {
    var n := |p| - 2;
    assert Edge(p[n], p[n + 1]) in h.edges;
    if n > 0 {
      RankRises(h, rank, a, p[..n + 1], p[n]);
    }
  }

  lemma RankedMeansAcyclic(h: History, rank: map<nat, nat>)
    requires Ranked(h, rank)
    ensures !Cyclic(h)
  {
    if Cyclic(h) {
      var c :| ProperAncestor(h, c, c);
      var p :| LineFrom(h, c, p, c) && |p| >= 2;
      RankRises(h, rank, c, p, c);
    }
  }

  // ----- the state of the traversal

  /** Everything the traversal is about: the history, and the dense indexes of the candidates. */
  datatype Task = Task(odb: Odb, h: History, trees: seq<Oid>, blobs: seq<Oid>)

  /** What the traversal updates: the seen set waiting at each commit, the blobs each commit
      introduces, the visited edges (by index) and commits, and the ready commits. */
  datatype Walker = Walker(
    seenSets: seq<Option<Seen>>, introduced: seq<seq<IntroducedBlob>>, edges: set<nat>,
    commits: set<nat>, work: seq<nat>)

  ghost predicate Arrived(h: History, edges: set<nat>, n: nat) {
    forall e :: 0 <= e < |h.edges| && h.edges[e].child == n ==> e in edges
  }

  ghost predicate IsRoot(h: History, n: nat) {
    forall e :: 0 <= e < |h.edges| ==> h.edges[e].child != n
  }

  ghost predicate Reached(h: History, edges: set<nat>, n: nat) {
    exists e :: e in edges && e < |h.edges| && h.edges[e].child == n
  }

  ghost predicate KnownAlong(t: Task, edges: set<nat>, n: nat, b: Oid) {
    exists e :: e in edges && e < |t.h.edges| && t.h.edges[e].child == n
                && Available(t.odb, t.h, t.h.edges[e].parent, b)
  }

  /** The candidates available at some parent of `n` over a visited edge. */
  ghost function KnownVia(t: Task, edges: set<nat>, n: nat): (r: set<Oid>) {
    set b | b in t.blobs && KnownAlong(t, edges, n, b)
  }

  /** A commit is ready exactly when all its parents have been processed, and its seen set is
      present from the first of them until it is processed, holding what they know so far. */
  ghost predicate NodeOk(t: Task, w: Walker, n: nat)
    requires n < |t.h.roots| == |w.seenSets| == |w.introduced|
  {
    && (n in w.work <==> n !in w.commits && Arrived(t.h, w.edges, n))
    && (n in w.commits ==> Arrived(t.h, w.edges, n))
    && (w.seenSets[n].Some? <==> n !in w.commits && (IsRoot(t.h, n) || Reached(t.h, w.edges, n)))
    && (w.seenSets[n].Some? ==> SeenFor(t.odb, t.trees, t.blobs, w.seenSets[n].value, KnownVia(t, w.edges, n)))
    && w.introduced[n] == if n in w.commits then Render(Attributed(t.odb, t.h, AsSet(t.blobs), n)) else []
  }

  ghost predicate WalkerOk(t: Task, w: Walker) {
    && WellFormed(t.h) && |t.h.roots| == |w.seenSets| == |w.introduced|
    && (forall n {:trigger NodeOk(t, w, n)} :: 0 <= n < |t.h.roots| ==> NodeOk(t, w, n))
    && (forall i, j :: 0 <= i < j < |w.work| ==> w.work[i] != w.work[j])
    && (forall i :: 0 <= i < |w.work| ==> w.work[i] < |t.h.roots|)
  }

  /** The visited edges are those that leave visited commits; of `c`, only those from `k` on. */
  ghost predicate EdgesFrom(h: History, edges: set<nat>, commits: set<nat>, c: nat, k: nat) {
    && (forall e :: e in edges ==> e < |h.edges|)
    && forall e :: 0 <= e < |h.edges| ==>
         (e in edges <==> h.edges[e].parent in commits && (h.edges[e].parent == c ==> e >= k))
  }

  ghost predicate EdgesDone(h: History, edges: set<nat>, commits: set<nat>) {
    && (forall e :: e in edges ==> e < |h.edges|)
    && forall e :: 0 <= e < |h.edges| ==> (e in edges <==> h.edges[e].parent in commits)
  }

  /** Processed commits are ranked after their parents. */
  ghost predicate RankOk(h: History, commits: set<nat>, rank: map<nat, nat>) {
    && rank.Keys == commits && (forall n :: n in commits ==> rank[n] < |commits|)
    && forall e :: 0 <= e < |h.edges| && h.edges[e].child in commits ==>
         h.edges[e].parent in commits && rank[h.edges[e].parent] < rank[h.edges[e].child]
  }

  /** Once every parent is processed, what a commit knows is what it inherits. */
  lemma ArrivedKnowsAll(t: Task, edges: set<nat>, n: nat)
    requires Arrived(t.h, edges, n)
    ensures KnownVia(t, edges, n) == InheritedBlobs(t.odb, t.h, t.blobs, n)
  {
    forall b | b in t.blobs ensures KnownAlong(t, edges, n, b) <==> Inherited(t.odb, t.h, n, b) {
      InheritedFromParent(t.odb, t.h, n, b);
      if Inherited(t.odb, t.h, n, b) {
        var a :| Edge(a, n) in t.h.edges && Available(t.odb, t.h, a, b);
        var e :| 0 <= e < |t.h.edges| && t.h.edges[e] == Edge(a, n);
        assert e in edges;
      }
      if KnownAlong(t, edges, n, b) {
        var e :| e in edges && e < |t.h.edges| && t.h.edges[e].child == n
                 && Available(t.odb, t.h, t.h.edges[e].parent, b);
        assert t.h.edges[e] == Edge(t.h.edges[e].parent, n);
      }
    }
  }

  /** Handing a seen set to a child that has none, or merging it into the child's. */
  lemma UnionKnows(t: Task, a: Seen, b: Seen, ka: set<Oid>, kb: set<Oid>)
    requires SeenFor(t.odb, t.trees, t.blobs, a, ka) && SeenFor(t.odb, t.trees, t.blobs, b, kb)
    ensures SeenFor(t.odb, t.trees, t.blobs, Seen(a.trees + b.trees, a.blobs + b.blobs), ka + kb)
  {
    OidsUnion(t.blobs, a.blobs, b.blobs);
    OidsUnion(t.trees, a.trees, b.trees);
  }

  lemma KnownViaEdge(t: Task, edges: set<nat>, e: nat)
    requires e < |t.h.edges|
    ensures KnownVia(t, edges + {e}, t.h.edges[e].child)
         == KnownVia(t, edges, t.h.edges[e].child) + AvailableBlobs(t.odb, t.h, t.blobs, t.h.edges[e].parent)
    ensures forall m :: m != t.h.edges[e].child ==> KnownVia(t, edges + {e}, m) == KnownVia(t, edges, m)
  {
    forall m, b | b in t.blobs
      ensures KnownAlong(t, edges + {e}, m, b)
         <==> KnownAlong(t, edges, m, b) || (m == t.h.edges[e].child && Available(t.odb, t.h, t.h.edges[e].parent, b))
    {
      if KnownAlong(t, edges, m, b) {
        var f :| f in edges && f < |t.h.edges| && t.h.edges[f].child == m
                 && Available(t.odb, t.h, t.h.edges[f].parent, b);
        assert f in edges + {e};
      }
    }
  }

  /** The effect of visiting one edge. */
  function AlongEdge(w: Walker, e: nat, d: nat, seen: Seen, ready: bool): (r: Walker)
    requires d < |w.seenSets|
  {
    var merged := if w.seenSets[d].Some?
                  then Seen(w.seenSets[d].value.trees + seen.trees, w.seenSets[d].value.blobs + seen.blobs) else seen;
    w.(seenSets := w.seenSets[d := Some(merged)], edges := w.edges + {e},
       work := if ready then w.work + [d] else w.work)
  }

  lemma EdgeKeepsOthers(t: Task, w: Walker, e: nat, seen: Seen, ready: bool, n: nat)
    requires WalkerOk(t, w) && e < |t.h.edges| && n < |t.h.roots| && n != t.h.edges[e].child
    ensures NodeOk(t, AlongEdge(w, e, t.h.edges[e].child, seen, ready), n)
  {
    assert NodeOk(t, w, n);
    KnownViaEdge(t, w.edges, e);
    assert Reached(t.h, w.edges + {e}, n) <==> Reached(t.h, w.edges, n) by {
      if Reached(t.h, w.edges, n) {
        var f :| f in w.edges && f < |t.h.edges| && t.h.edges[f].child == n;
        assert f in w.edges + {e};
      }
    }
    assert Arrived(t.h, w.edges + {e}, n) <==> Arrived(t.h, w.edges, n);
  }

  lemma EdgeServesChild(t: Task, w: Walker, e: nat, seen: Seen, ready: bool)
    requires WalkerOk(t, w) && e < |t.h.edges| && e !in w.edges
    requires SeenFor(t.odb, t.trees, t.blobs, seen, AvailableBlobs(t.odb, t.h, t.blobs, t.h.edges[e].parent))
    requires ready <==> Arrived(t.h, w.edges + {e}, t.h.edges[e].child)
    ensures t.h.edges[e].child < |t.h.roots| && t.h.edges[e].child !in w.commits && t.h.edges[e].child !in w.work
    ensures NodeOk(t, AlongEdge(w, e, t.h.edges[e].child, seen, ready), t.h.edges[e].child)
  {
    var d := t.h.edges[e].child;
    assert t.h.edges[e] in t.h.edges;
    assert NodeOk(t, w, d);
    KnownViaEdge(t, w.edges, e);
    assert e in w.edges + {e};
    if w.seenSets[d].Some? {
      UnionKnows(t, w.seenSets[d].value, seen, KnownVia(t, w.edges, d),
                 AvailableBlobs(t.odb, t.h, t.blobs, t.h.edges[e].parent));
    } else {
      assert !Reached(t.h, w.edges, d);
      assert KnownVia(t, w.edges, d) == {};
    }
  }

  /** Visiting an edge keeps the traversal's invariant. */
  lemma EdgeStep(t: Task, w: Walker, e: nat, seen: Seen, ready: bool)
    requires WalkerOk(t, w) && e < |t.h.edges| && e !in w.edges
    requires SeenFor(t.odb, t.trees, t.blobs, seen, AvailableBlobs(t.odb, t.h, t.blobs, t.h.edges[e].parent))
    requires ready <==> Arrived(t.h, w.edges + {e}, t.h.edges[e].child)
    ensures t.h.edges[e].child < |t.h.roots| && WalkerOk(t, AlongEdge(w, e, t.h.edges[e].child, seen, ready))
  {
    EdgeServesChild(t, w, e, seen, ready);
    var r := AlongEdge(w, e, t.h.edges[e].child, seen, ready);
    forall n | 0 <= n < |t.h.roots| ensures NodeOk(t, r, n) {
      if n != t.h.edges[e].child { EdgeKeepsOthers(t, w, e, seen, ready, n); }
    }
  }

  /** The effect of taking one ready commit. */
  function Taken(w: Walker, k: nat, introduced: seq<IntroducedBlob>): (r: Walker)
    requires k < |w.work| && w.work[k] < |w.seenSets| == |w.introduced|
  {
    var c := w.work[k];
    Walker(w.seenSets[c := None], w.introduced[c := introduced], w.edges, w.commits + {c},
           w.work[..k] + w.work[k + 1..])
  }

  /** A ready commit has not been processed, and its seen set is present. */
  lemma ReadyIsUnvisited(t: Task, w: Walker, k: nat)
    requires WalkerOk(t, w) && k < |w.work|
    ensures w.work[k] < |t.h.roots| && w.work[k] !in w.commits && Arrived(t.h, w.edges, w.work[k])
    ensures w.seenSets[w.work[k]].Some?
    ensures SeenFor(t.odb, t.trees, t.blobs, w.seenSets[w.work[k]].value,
                    InheritedBlobs(t.odb, t.h, t.blobs, w.work[k]))
  {
    var c := w.work[k];
    assert NodeOk(t, w, c) && c in w.work;
    if !IsRoot(t.h, c) {
      var e :| 0 <= e < |t.h.edges| && t.h.edges[e].child == c;
      assert e in w.edges;
    }
    ArrivedKnowsAll(t, w.edges, c);
  }

  lemma CommitStep(t: Task, w: Walker, k: nat, introduced: seq<IntroducedBlob>)
    requires WalkerOk(t, w) && k < |w.work|
    requires introduced == Render(Attributed(t.odb, t.h, AsSet(t.blobs), w.work[k]))
    ensures WalkerOk(t, Taken(w, k, introduced))
  {
    var c, r := w.work[k], Taken(w, k, introduced);
    ReadyIsUnvisited(t, w, k);
    forall n | 0 <= n < |t.h.roots| ensures NodeOk(t, r, n) {
      assert NodeOk(t, w, n);
      assert n in r.work <==> n in w.work && n != c by { RemovedFrom(w.work, k, n); }
    }
  }

  lemma RemovedFrom(s: seq<nat>, k: nat, x: nat)
    requires k < |s| && forall i, j :: 0 <= i < j < |s| ==> s[i] != s[j]
    ensures x in s[..k] + s[k + 1..] <==> x in s && x != s[k]
  {
    assert s == s[..k] + [s[k]] + s[k + 1..];
  }

  lemma RankStep(t: Task, w: Walker, k: nat, rank: map<nat, nat>)
    requires WalkerOk(t, w) && k < |w.work| && EdgesDone(t.h, w.edges, w.commits) && RankOk(t.h, w.commits, rank)
    ensures w.work[k] !in w.commits
    ensures RankOk(t.h, w.commits + {w.work[k]}, rank[w.work[k] := |w.commits|])
    ensures EdgesFrom(t.h, w.edges, w.commits + {w.work[k]}, w.work[k], |t.h.edges|)
  {
    var c := w.work[k];
    ReadyIsUnvisited(t, w, k);
    forall e | 0 <= e < |t.h.edges| && t.h.edges[e].child in w.commits ensures e in w.edges {
      assert t.h.edges[e] in t.h.edges;
      assert NodeOk(t, w, t.h.edges[e].child);
    }
  }

  // ----- the traversal

  predicate HasUnvisitedParent(edges: seq<Edge>, visited: set<nat>, child: nat) {
    exists e :: 0 <= e < |edges| && edges[e].child == child && e !in visited
  }

  /** Hands a processed commit's seen set along its outgoing edges, most recent edge first. A child
      becomes ready with its last edge; parallel edges count one by one. */
  method Propagate(edges: seq<Edge>, start: Walker, c: nat, seen: Seen, ghost t: Task) returns (w: Walker)
    requires edges == t.h.edges && c in start.commits
    requires WalkerOk(t, start) && EdgesFrom(t.h, start.edges, start.commits, c, |t.h.edges|)
    requires SeenFor(t.odb, t.trees, t.blobs, seen, AvailableBlobs(t.odb, t.h, t.blobs, c))
    ensures WalkerOk(t, w) && w.commits == start.commits && w.introduced == start.introduced
    ensures EdgesDone(t.h, w.edges, w.commits)
  {
    hide NodeOk, SeenFor, AvailableBlobs;
    w := start;
    for e := |edges| downto 0
      invariant WalkerOk(t, w) && w.commits == start.commits && w.introduced == start.introduced
      invariant EdgesFrom(t.h, w.edges, w.commits, c, e)
    {
      if edges[e].parent == c {
        assert e !in w.edges;   // no edge is visited twice
        var child := edges[e].child;
        var ready := !HasUnvisitedParent(edges, w.edges + {e}, child);
        EdgeStep(t, w, e, seen, ready);
        w := AlongEdge(w, e, child, seen, ready);
      }
    }
  }

  /** Every commit without parents is ready at the start, knowing nothing. */
  method Begin(edges: seq<Edge>, n: nat, ghost t: Task) returns (w: Walker)
    requires edges == t.h.edges && n == |t.h.roots| && WellFormed(t.h)
    ensures WalkerOk(t, w) && w.edges == {} && w.commits == {}
  {
    hide NodeOk;
    w := Walker(seq(n, _ => None), seq(n, _ => []), {}, {}, []);
    for c := 0 to n
      invariant |w.seenSets| == n && w.introduced == seq(n, _ => []) && w.edges == {} && w.commits == {}
      invariant forall i :: 0 <= i < |w.work| ==> w.work[i] < c && IsRoot(t.h, w.work[i])
      invariant forall i, j :: 0 <= i < j < |w.work| ==> w.work[i] != w.work[j]
      invariant forall m :: 0 <= m < n ==> (m in w.work <==> m < c && IsRoot(t.h, m))
      invariant forall m :: 0 <= m < n ==>
        w.seenSets[m] == if m < c && IsRoot(t.h, m) then Some(Seen({}, {})) else None
    {
      if !HasUnvisitedParent(edges, {}, c) {
        w := w.(work := w.work + [c], seenSets := w.seenSets[c := Some(Seen({}, {}))]);
      }
    }
    BegunIsOk(t, w);
  }

  lemma BegunIsOk(t: Task, w: Walker)
    requires WellFormed(t.h) && |w.seenSets| == |t.h.roots| && w.introduced == seq(|t.h.roots|, _ => [])
    requires w.edges == {} && w.commits == {}
    requires forall i :: 0 <= i < |w.work| ==> w.work[i] < |t.h.roots|
    requires forall i, j :: 0 <= i < j < |w.work| ==> w.work[i] != w.work[j]
    requires forall m :: 0 <= m < |t.h.roots| ==> (m in w.work <==> IsRoot(t.h, m))
    requires forall m :: 0 <= m < |t.h.roots| ==> w.seenSets[m] == if IsRoot(t.h, m) then Some(Seen({}, {})) else None
    ensures WalkerOk(t, w)
  {
    forall m | 0 <= m < |t.h.roots| ensures NodeOk(t, w, m) {
      assert KnownVia(t, {}, m) == {};
    }
  }

  /** When no commit is ready, either every edge has been visited, every commit processed and the
      graph has no cycle, or some edge has not and the graph has one. */
  lemma AtTheEnd(t: Task, w: Walker, rank: map<nat, nat>)
    requires WalkerOk(t, w) && EdgesDone(t.h, w.edges, w.commits) && RankOk(t.h, w.commits, rank) && w.work == []
    ensures |w.edges| == |t.h.edges| ==> !Cyclic(t.h) && forall n :: 0 <= n < |t.h.roots| ==> n in w.commits
    ensures |w.edges| != |t.h.edges| ==> Cyclic(t.h)
  {
    BoundedSize(w.edges, |t.h.edges|);
    if |w.edges| == |t.h.edges| {
      forall n | 0 <= n < |t.h.roots| ensures n in w.commits { assert NodeOk(t, w, n); }
      forall e | e in t.h.edges ensures e.parent in rank && e.child in rank && rank[e.parent] < rank[e.child] {
        var i :| 0 <= i < |t.h.edges| && t.h.edges[i] == e;
      }
      RankedMeansAcyclic(t.h, rank);
    } else {
      var e :| 0 <= e < |t.h.edges| && e !in w.edges;
      assert t.h.edges[e] in t.h.edges;
      var left := set n | 0 <= n < |t.h.roots| && n !in w.commits;
      forall n | n in left ensures HasParentIn(t.h, left, n) {
        assert NodeOk(t, w, n);
        var i :| 0 <= i < |t.h.edges| && t.h.edges[i].child == n && i !in w.edges;
        assert t.h.edges[i] in t.h.edges;
        assert t.h.edges[i] == Edge(t.h.edges[i].parent, n);
      }
      StuckMeansCyclic(t.h, left, t.h.edges[e].parent);
    }
  }

  ghost function Below(n: nat): (r: set<nat>)
    ensures forall i: nat :: i in r <==> i < n
  {
    if n == 0 then {} else Below(n - 1) + {n - 1}
  }

  datatype CommitBlobs = CommitBlobs(commit: Oid, introduced: seq<IntroducedBlob>)

  /** The traversal's result. A cyclic graph is an error the caller handles; a full interner is the
      panic that ends the run. */
  datatype Outcome = Metadata(commits: seq<CommitBlobs>) | CommitCycle | InternerFull

  /** The commits that introduce something, in node order. */
  function NonEmpty(oids: seq<Oid>, introduced: seq<seq<IntroducedBlob>>): (r: seq<CommitBlobs>)
    requires |oids| == |introduced|
    ensures forall x :: x in r ==> x.introduced != []
    ensures forall n :: 0 <= n < |oids| && introduced[n] != [] ==> CommitBlobs(oids[n], introduced[n]) in r
  {
    if oids == [] then []
    else
      var n := |oids| - 1;
      var rest := NonEmpty(oids[..n], introduced[..n]);
      if introduced[n] == [] then rest else rest + [CommitBlobs(oids[n], introduced[n])]
  }

  ghost function AllAttributed(odb: Odb, h: History, candidates: set<Oid>): (r: seq<seq<IntroducedBlob>>)
    ensures |r| == |h.roots|
  {
    seq(|h.roots|, n requires 0 <= n < |h.roots| => Render(Attributed(odb, h, candidates, n)))
  }

  method CollectMetadata(nodes: seq<Node>, introduced: seq<seq<IntroducedBlob>>, ghost oids: seq<Oid>)
    returns (r: seq<CommitBlobs>)
    requires |nodes| == |introduced| == |oids| && forall n :: 0 <= n < |nodes| ==> nodes[n].oid == oids[n]
    ensures r == NonEmpty(oids, introduced)
  {
    r := [];
    for n := 0 to |nodes|
      invariant r == NonEmpty(oids[..n], introduced[..n])
    {
      assert oids[..n + 1][..n] == oids[..n] && introduced[..n + 1][..n] == introduced[..n];
      if introduced[n] != [] {
        r := r + [CommitBlobs(nodes[n].oid, introduced[n])];
      }
    }
    assert oids[..|nodes|] == oids && introduced[..|nodes|] == introduced;
  }

  /** Takes one ready commit: attributes it, then serves its children. */
  method Advance(odb: Odb, index: Index, symbols: Table, nodes: seq<Node>, edges: seq<Edge>, start: Walker, k: nat,
                 ghost p: Plan, ghost t: Task, ghost rank: map<nat, nat>)
    returns (w: Walker, ok: bool, ghost rank': map<nat, nat>)
    requires index.Sound(odb) && index.Rooted(odb, p, nodes) && symbols.Valid()
    requires t == Task(odb, HistoryOf(p), index.trees.ids, index.blobs.ids) && edges == p.edges
    requires WalkerOk(t, start) && EdgesDone(t.h, start.edges, start.commits) && RankOk(t.h, start.commits, rank)
    requires k < |start.work| && NamesOf(odb.trees) <= symbols.universe
    modifies symbols
    ensures !ok ==> Overfull(symbols.universe)
    ensures ok ==> symbols.Valid() && WalkerOk(t, w) && EdgesDone(t.h, w.edges, w.commits)
    ensures start.work[k] < |nodes| && start.work[k] !in start.commits
    ensures ok ==> w.commits == start.commits + {start.work[k]}
    ensures ok ==> RankOk(t.h, w.commits, rank')
    ensures ok ==> Below(|nodes|) - w.commits < Below(|nodes|) - start.commits
  {
    hide NodeOk, SeenFor, AvailableBlobs, InheritedBlobs, Attributed, RootedAt;
    ReadyIsUnvisited(t, start, k);
    RankStep(t, start, k, rank);
    var c := start.work[k];
    rank' := rank[c := |start.commits|];
    var seen, introduced;
    seen, introduced, ok := VisitCommit(odb, symbols, index, nodes[c].tree, start.seenSets[c].value, t.h, c);
    w := start;
    if ok {
      CommitStep(t, start, k, introduced);
      w := Propagate(edges, Taken(start, k, introduced), c, seen, t);
      assert c in Below(|nodes|) - start.commits;
    }
  }

  /** Takes ready commits, in any order, until none is left. */
  method Drain(odb: Odb, index: Index, nodes: seq<Node>, edges: seq<Edge>, ghost p: Plan, ghost t: Task)
    returns (w: Walker, ok: bool, ghost rank: map<nat, nat>)
    requires index.Sound(odb) && index.Rooted(odb, p, nodes)
    requires t == Task(odb, HistoryOf(p), index.trees.ids, index.blobs.ids) && edges == p.edges && WellFormed(t.h)
    ensures ok ==> WalkerOk(t, w) && EdgesDone(t.h, w.edges, w.commits) && RankOk(t.h, w.commits, rank) && w.work == []
    ensures !ok ==> Overfull(NamesOf(odb.trees))
  {
    hide NodeOk, WalkerOk, EdgesDone, RankOk, RootedAt, Attributed;
    var symbols := new Table(NamesOf(odb.trees));
    rank := map[];
    w := Begin(edges, |nodes|, t);
    Unranked(t, w);
    while |w.work| > 0
      invariant symbols.Valid() && index.Sound(odb) && index.Rooted(odb, p, nodes)
      invariant t.trees == index.trees.ids && t.blobs == index.blobs.ids
      invariant WalkerOk(t, w) && EdgesDone(t.h, w.edges, w.commits) && RankOk(t.h, w.commits, rank)
      decreases Below(|nodes|) - w.commits
    {
      var k: nat :| k < |w.work|;
      w, ok, rank := Advance(odb, index, symbols, nodes, edges, w, k, p, t, rank);
      if !ok {
        return;
      }
    }
    ok := true;
  }

  /** Attributes every commit. The result depends only on the history and the candidates: not on the
      order in which ready commits are taken, nor on which trees the index lets it skip. It fails
      exactly when the commit graph has a cycle. */
  method GetRepoMetadata(odb: Odb, index: Index, graph: Graph, ghost p: Plan) returns (out: Outcome)
    requires index.Sound(odb) && graph.Valid() && graph.edges == p.edges && index.Rooted(odb, p, graph.nodes)
    ensures out.Metadata? ==> !Cyclic(HistoryOf(p))
    ensures out.Metadata? ==> out.commits == NonEmpty(p.oids, AllAttributed(odb, HistoryOf(p), AsSet(index.blobs.ids)))
    ensures out.Metadata? ==> forall x :: x in out.commits ==> x.introduced != []
    ensures out.CommitCycle? ==> Cyclic(HistoryOf(p))
    ensures out.InternerFull? ==> Overfull(NamesOf(odb.trees))
  {
    hide NodeOk, EdgesDone, RankOk, RootedAt, Attributed;
    ghost var t := Task(odb, HistoryOf(p), index.trees.ids, index.blobs.ids);
    var w, ok, rank := Drain(odb, index, graph.nodes, graph.edges, p, t);
    if !ok {
      return InternerFull;
    }
    AtTheEnd(t, w, rank);
    if |w.edges| != |graph.edges| {
      return CommitCycle;
    }
    AllDone(t, w);
    var commits := CollectMetadata(graph.nodes, w.introduced, p.oids);
    return Metadata(commits);
  }

  lemma Unranked(t: Task, w: Walker)
    requires WalkerOk(t, w) && w.edges == {} && w.commits == {}
    ensures EdgesDone(t.h, w.edges, w.commits) && RankOk(t.h, w.commits, map[])
  {
  }

  lemma AllDone(t: Task, w: Walker)
    requires WalkerOk(t, w) && forall n :: 0 <= n < |t.h.roots| ==> n in w.commits
    ensures w.introduced == AllAttributed(t.odb, t.h, AsSet(t.blobs))
  {
    forall n | 0 <= n < |t.h.roots| ensures w.introduced[n] == AllAttributed(t.odb, t.h, AsSet(t.blobs))[n] {
      assert NodeOk(t, w, n);
    }
  }
}
