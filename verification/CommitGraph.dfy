/** Building the commit graph, and what the built graph says about the commits read. */
module CommitGraph {
  import opened GitObjects
  import opened CommitHistory
  import opened ObjectIds
  import opened Wrappers

  /** A commit object: its tree, its parents, and whether its committer decodes. */
  datatype Commit = Commit(tree: Oid, parents: seq<Oid>, committerDecodes: bool)

  datatype Node = Node(oid: Oid, tree: Option<nat>)

  /** The graph as a value, with trees named by object ID. */
  datatype Plan = Plan(oids: seq<Oid>, roots: seq<Option<Oid>>, edges: seq<Edge>)

  function HistoryOf(p: Plan): (h: History) {
    History(p.roots, p.edges)
  }

  function Position(oids: seq<Oid>, oid: Oid): (r: nat)
    ensures r <= |oids|
    ensures r < |oids| <==> oid in oids
    ensures r < |oids| ==> oids[r] == oid
  {
    if oids == [] then 0
    else if oids[0] == oid then 0
    else 1 + Position(oids[1..], oid)
  }

  function WithNode(p: Plan, oid: Oid, tree: Option<Oid>): (r: Plan)
    requires |p.oids| == |p.roots|
    ensures |r.oids| == |r.roots| && r.edges == p.edges
  {
    var i := Position(p.oids, oid);
    if i < |p.oids| then
      if tree.Some? then p.(roots := p.roots[i := tree]) else p
    else p.(oids := p.oids + [oid], roots := p.roots + [tree])
  }

  function WithParent(p: Plan, parent: Oid, child: Oid): (r: Plan)
    requires |p.oids| == |p.roots|
    ensures |r.oids| == |r.roots|
  {
    var q := WithNode(p, parent, None);
    q.(edges := q.edges + [Edge(Position(q.oids, parent), Position(q.oids, child))])
  }

  function WithParents(p: Plan, parents: seq<Oid>, child: Oid): (r: Plan)
    requires |p.oids| == |p.roots|
    ensures |r.oids| == |r.roots|
  {
    if parents == [] then p
    else WithParent(WithParents(p, parents[..|parents| - 1], child), parents[|parents| - 1], child)
  }

  /** A commit enters the graph when it can be read and its tree is indexed. */
  predicate Enters(oid: Oid, commits: map<Oid, Commit>, trees: seq<Oid>) {
    oid in commits && commits[oid].tree in trees
  }

  function WithCommit(p: Plan, oid: Oid, commits: map<Oid, Commit>, trees: seq<Oid>): (r: Plan)
    requires |p.oids| == |p.roots|
    ensures |r.oids| == |r.roots|
  {
    if Enters(oid, commits, trees) then
      WithParents(WithNode(p, oid, Some(commits[oid].tree)), commits[oid].parents, oid)
    else p
  }

  function Planned(order: seq<Oid>, commits: map<Oid, Commit>, trees: seq<Oid>): (r: Plan)
    ensures |r.oids| == |r.roots|
  {
    if order == [] then Plan([], [], [])
    else WithCommit(Planned(order[..|order| - 1], commits, trees), order[|order| - 1], commits, trees)
  }

  /** The node a (possibly new) commit gets, and the nodes afterwards. */
  function Named(trees: seq<Oid>, tree: Option<nat>): (r: Option<Oid>)
    requires tree.Some? ==> tree.value < |trees|
  {
    if tree.Some? then Some(trees[tree.value]) else None
  }

  ghost predicate NodesDistinct(nodes: seq<Node>) {
    forall i, j :: 0 <= i < j < |nodes| ==> nodes[i].oid != nodes[j].oid
  }

  /** The nodes are the plan's commits, given the tree numbering. */
  ghost predicate Matches(nodes: seq<Node>, p: Plan, trees: seq<Oid>) {
    && |nodes| == |p.oids| == |p.roots|
    && (forall i :: 0 <= i < |nodes| ==> nodes[i].oid == p.oids[i])
    && (forall i :: 0 <= i < |nodes| && nodes[i].tree.Some? ==> nodes[i].tree.value < |trees|)
    && (forall i :: 0 <= i < |nodes| ==> Named(trees, nodes[i].tree) == p.roots[i])
  }

  /** The effect of naming a commit: an existing node gains the tree, if one is given; otherwise a
      node is appended. */
  ghost predicate NodeAdded(before: seq<Node>, after: seq<Node>, oid: Oid, tree: Option<nat>, idx: nat) {
    if exists i :: 0 <= i < |before| && before[i].oid == oid then
      idx < |before| && before[idx].oid == oid
      && after == if tree.Some? then before[idx := Node(oid, tree)] else before
    else idx == |before| && after == before + [Node(oid, tree)]
  }

  class Graph {
    var nodeOf: map<Oid, nat>
    var nodes: seq<Node>
    var edges: seq<Edge>

    ghost predicate Valid()
      reads this
    {
      && (forall o :: o in nodeOf ==> nodeOf[o] < |nodes| && nodes[nodeOf[o]].oid == o)
      && (forall i :: 0 <= i < |nodes| ==> nodes[i].oid in nodeOf && nodeOf[nodes[i].oid] == i)
      && (forall e :: e in edges ==> e.parent < |nodes| && e.child < |nodes|)
    }

    ghost predicate Realises(p: Plan, trees: seq<Oid>)
      reads this
    {
      Valid() && Matches(nodes, p, trees) && edges == p.edges
    }

    constructor ()
      ensures Valid() && nodes == [] && edges == []
    {
      nodeOf, nodes, edges := map[], [], [];
    }

    method GetCommitIdx(oid: Oid, tree: Option<nat>) returns (idx: nat)
      requires Valid()
      modifies this`nodeOf, this`nodes
      ensures Valid() && idx < |nodes| && nodes[idx].oid == oid
      ensures NodeAdded(old(nodes), nodes, oid, tree, idx)
    {
      if oid in nodeOf {
        idx := nodeOf[oid];
        if tree.Some? {
          nodes := nodes[idx := nodes[idx].(tree := tree)];
        }
      } else {
        idx := |nodes|;
        nodes := nodes + [Node(oid, tree)];
        nodeOf := nodeOf[oid := idx];
      }
    }

    method AddCommitEdge(parent: nat, child: nat)
      requires Valid() && parent < |nodes| && child < |nodes|
      modifies this`edges
      ensures Valid() && edges == old(edges) + [Edge(parent, child)]
    {
      edges := edges + [Edge(parent, child)];
    }
  }

  /** Adding a commit to the nodes is adding it to the plan. */
  lemma NodeJoins(before: seq<Node>, after: seq<Node>, p: Plan, trees: seq<Oid>, oid: Oid, tree: Option<nat>, idx: nat)
    requires Matches(before, p, trees) && (tree.Some? ==> tree.value < |trees|)
    requires NodesDistinct(before) && NodeAdded(before, after, oid, tree, idx)
    ensures Matches(after, WithNode(p, oid, Named(trees, tree)), trees)
    ensures idx == Position(WithNode(p, oid, Named(trees, tree)).oids, oid)
  {
    hide Matches, NodeAdded, NodesDistinct, WithNode;
    if oid in p.oids {
      KnownNodeJoins(before, after, p, trees, oid, tree, idx);
    } else {
      NewNodeJoins(before, after, p, trees, oid, tree, idx);
    }
  }

  lemma KnownNodeJoins(before: seq<Node>, after: seq<Node>, p: Plan, trees: seq<Oid>, oid: Oid, tree: Option<nat>,
                       idx: nat)
    requires Matches(before, p, trees) && (tree.Some? ==> tree.value < |trees|) && oid in p.oids
    requires NodesDistinct(before) && NodeAdded(before, after, oid, tree, idx)
    ensures Matches(after, WithNode(p, oid, Named(trees, tree)), trees)
    ensures idx == Position(WithNode(p, oid, Named(trees, tree)).oids, oid)
  {
    hide Position;
    var k := Position(p.oids, oid);
    assert before[k].oid == oid;
    assert idx == k;
  }

  lemma NewNodeJoins(before: seq<Node>, after: seq<Node>, p: Plan, trees: seq<Oid>, oid: Oid, tree: Option<nat>,
                     idx: nat)
    requires Matches(before, p, trees) && (tree.Some? ==> tree.value < |trees|) && oid !in p.oids
    requires NodeAdded(before, after, oid, tree, idx)
    ensures Matches(after, WithNode(p, oid, Named(trees, tree)), trees)
    ensures idx == Position(WithNode(p, oid, Named(trees, tree)).oids, oid)
  {
    hide Position;
    PositionSnoc(p.oids, oid);
    assert forall i :: 0 <= i < |before| ==> before[i].oid in p.oids;
  }

  /** Reads every indexed commit, in index order, and links it to its parents. Commits that cannot
      be read, or whose tree is not indexed, add neither a node nor edges. */
  method BuildGraph(order: seq<Oid>, commits: map<Oid, Commit>, trees: Bimap) returns (g: Graph)
    requires trees.Valid()
    ensures fresh(g) && g.Realises(Planned(order, commits, trees.ids), trees.ids)
  {
    g := new Graph();
    ghost var p := Plan([], [], []);
    for n := 0 to |order|
      invariant fresh(g) && p == Planned(order[..n], commits, trees.ids) && g.Realises(p, trees.ids)
    {
      assert order[..n + 1][..n] == order[..n];
      var oid := order[n];
      p := WithCommit(p, oid, commits, trees.ids);
      if oid !in commits {
        continue;
      }
      var commit := commits[oid];
      var tree := trees.GetIdx(commit.tree);
      if tree.None? {
        continue;
      }
      AddCommit(g, oid, tree.value, commit.parents, trees.ids, Planned(order[..n], commits, trees.ids));
    }
    assert order[..|order|] == order;
  }

  method Enter(g: Graph, oid: Oid, tree: Option<nat>, ghost p: Plan, ghost trees: seq<Oid>) returns (idx: nat)
    requires g.Realises(p, trees) && (tree.Some? ==> tree.value < |trees|)
    modifies g
    ensures g.Realises(WithNode(p, oid, Named(trees, tree)), trees)
    ensures idx < |g.nodes| && g.nodes[idx].oid == oid && |g.nodes| >= |old(g.nodes)|
    ensures forall i :: 0 <= i < |old(g.nodes)| ==> g.nodes[i].oid == old(g.nodes)[i].oid
  {
    idx := g.GetCommitIdx(oid, tree);
    NodeJoins(old(g.nodes), g.nodes, p, trees, oid, tree, idx);
  }

  method AddParent(g: Graph, oid: Oid, child: nat, ghost p: Plan, ghost trees: seq<Oid>)
    requires g.Realises(p, trees) && child < |g.nodes|
    modifies g
    ensures child < |g.nodes| && g.nodes[child].oid == old(g.nodes)[child].oid
    ensures g.Realises(WithParent(p, oid, old(g.nodes)[child].oid), trees)
  {
    var parent := Enter(g, oid, None, p, trees);
    ghost var q := WithNode(p, oid, None);
    PositionUnique(q.oids, g.nodes[child].oid, child);
    PositionUnique(q.oids, oid, parent);
    g.AddCommitEdge(parent, child);
  }

  method AddCommit(g: Graph, oid: Oid, tree: nat, parents: seq<Oid>, ghost trees: seq<Oid>, ghost p: Plan)
    requires g.Realises(p, trees) && tree < |trees|
    modifies g
    ensures g.Realises(WithParents(WithNode(p, oid, Some(trees[tree])), parents, oid), trees)
  {
    hide WithNode, WithParent;
    var child := Enter(g, oid, Some(tree), p, trees);
    ghost var start := WithNode(p, oid, Some(trees[tree]));
    for k := 0 to |parents|
      invariant g.Realises(WithParents(start, parents[..k], oid), trees)
      invariant child < |g.nodes| && g.nodes[child].oid == oid
    {
      AddParent(g, parents[k], child, WithParents(start, parents[..k], oid), trees);
      assert parents[..k + 1][..k] == parents[..k];
    }
    assert parents[..|parents|] == parents;
  }

  // ----- what the built graph says about the commits read

  ghost predicate PlanOk(p: Plan) {
    && |p.oids| == |p.roots| && WellFormed(HistoryOf(p))
    && forall i, j :: 0 <= i < j < |p.oids| ==> p.oids[i] != p.oids[j]
  }

  /** The parent links of the commits that enter. */
  ghost function Links(order: seq<Oid>, commits: map<Oid, Commit>, trees: seq<Oid>): (r: set<(Oid, Oid)>)
    ensures forall a, c :: (a, c) in r <==> c in order && Enters(c, commits, trees) && a in commits[c].parents
  {
    if order == [] then {}
    else
      var n := |order| - 1;
      assert order == order[..n] + [order[n]];
      Links(order[..n], commits, trees)
        + (if Enters(order[n], commits, trees) then ParentLinks(commits[order[n]].parents, order[n]) else {})
  }

  ghost function ParentLinks(parents: seq<Oid>, child: Oid): (r: set<(Oid, Oid)>) {
    set x | x in parents :: (x, child)
  }

  /** The plan has exactly these roots and links. */
  ghost predicate Holds(p: Plan, rooted: map<Oid, Oid>, links: set<(Oid, Oid)>) {
    && PlanOk(p)
    && (forall o :: o in rooted ==> o in p.oids)
    && (forall n :: 0 <= n < |p.oids| ==> p.roots[n] == if p.oids[n] in rooted then Some(rooted[p.oids[n]]) else None)
    && (forall l :: l in links ==> l.0 in p.oids && l.1 in p.oids)
    && (forall a, c :: 0 <= a < |p.oids| && 0 <= c < |p.oids| ==>
          (Edge(a, c) in p.edges <==> (p.oids[a], p.oids[c]) in links))
  }

  lemma NodeHolds(p: Plan, rooted: map<Oid, Oid>, links: set<(Oid, Oid)>, oid: Oid, tree: Option<Oid>)
    requires Holds(p, rooted, links)
    ensures Holds(WithNode(p, oid, tree), if tree.Some? then rooted[oid := tree.value] else rooted, links)
    ensures oid in WithNode(p, oid, tree).oids && p.oids <= WithNode(p, oid, tree).oids
  {
    var q := WithNode(p, oid, tree);
    PositionIs(p.oids, oid);
    if oid !in p.oids {
      forall a, c | 0 <= a < |q.oids| && 0 <= c < |q.oids| && (a == |p.oids| || c == |p.oids|)
        ensures Edge(a, c) !in q.edges && (q.oids[a], q.oids[c]) !in links
      {
      }
    }
  }

  lemma ParentHolds(p: Plan, rooted: map<Oid, Oid>, links: set<(Oid, Oid)>, parent: Oid, child: Oid)
    requires Holds(p, rooted, links) && child in p.oids
    ensures Holds(WithParent(p, parent, child), rooted, links + {(parent, child)})
    ensures child in WithParent(p, parent, child).oids
  {
    NodeHolds(p, rooted, links, parent, None);
    var q := WithNode(p, parent, None);
    assert child in q.oids by { assert q.oids[Position(p.oids, child)] == child; }
    EdgeHolds(q, rooted, links, Position(q.oids, parent), Position(q.oids, child));
  }

  lemma EdgeHolds(q: Plan, rooted: map<Oid, Oid>, links: set<(Oid, Oid)>, parent: nat, child: nat)
    requires Holds(q, rooted, links) && parent < |q.oids| && child < |q.oids|
    ensures Holds(q.(edges := q.edges + [Edge(parent, child)]), rooted, links + {(q.oids[parent], q.oids[child])})
  {
    var r := q.(edges := q.edges + [Edge(parent, child)]);
    assert WellFormed(HistoryOf(r));
    forall a, c | 0 <= a < |r.oids| && 0 <= c < |r.oids|
      ensures Edge(a, c) in r.edges <==> (r.oids[a], r.oids[c]) in links + {(q.oids[parent], q.oids[child])}
    {
      assert Edge(a, c) in r.edges <==> Edge(a, c) in q.edges || (a == parent && c == child);
    }
  }

  lemma {:induction false} ParentsHold(p: Plan, rooted: map<Oid, Oid>, links: set<(Oid, Oid)>, parents: seq<Oid>,
                                       child: Oid)
    requires |p.oids| == |p.roots| && Holds(p, rooted, links) && child in p.oids
    ensures Holds(WithParents(p, parents, child), rooted, links + ParentLinks(parents, child))
    ensures child in WithParents(p, parents, child).oids
    decreases |parents|
  {
    hide Holds, WithParent;
    if parents == [] {
      assert links + ParentLinks(parents, child) == links;
    } else {
      var n := |parents| - 1;
      ParentsHold(p, rooted, links, parents[..n], child);
      ParentHolds(WithParents(p, parents[..n], child), rooted, links + ParentLinks(parents[..n], child),
                  parents[n], child);
      assert parents == parents[..n] + [parents[n]];
      assert ParentLinks(parents, child) == ParentLinks(parents[..n], child) + {(parents[n], child)};
      assert links + ParentLinks(parents, child) == links + ParentLinks(parents[..n], child) + {(parents[n], child)};
    }
  }

  ghost function Rooted(order: seq<Oid>, commits: map<Oid, Commit>, trees: seq<Oid>): (r: map<Oid, Oid>) {
    map c | c in order && Enters(c, commits, trees) :: commits[c].tree
  }

  lemma {:induction false} PlanHolds(order: seq<Oid>, commits: map<Oid, Commit>, trees: seq<Oid>)
    ensures Holds(Planned(order, commits, trees), Rooted(order, commits, trees), Links(order, commits, trees))
  {
    if order != [] {
      var n := |order| - 1;
      PlanHolds(order[..n], commits, trees);
      assert order == order[..n] + [order[n]];
      var p, oid := Planned(order[..n], commits, trees), order[n];
      var rooted, links := Rooted(order[..n], commits, trees), Links(order[..n], commits, trees);
      if Enters(oid, commits, trees) {
        NodeHolds(p, rooted, links, oid, Some(commits[oid].tree));
        assert Rooted(order, commits, trees) == rooted[oid := commits[oid].tree];
        ParentsHold(WithNode(p, oid, Some(commits[oid].tree)), Rooted(order, commits, trees), links,
                    commits[oid].parents, oid);
      } else {
        assert Rooted(order, commits, trees) == rooted;
      }
    }
  }

  /** The built graph is the history of the commits read: a commit has a root, its tree, exactly when
      it was read and its tree is indexed; and it has an edge exactly from each of its parents. Both
      ends of a link are nodes, so missing parents still separate a commit from the graph's roots. */
  lemma PlanDescribesCommits(order: seq<Oid>, commits: map<Oid, Commit>, trees: seq<Oid>)
    ensures var p := Planned(order, commits, trees);
      && PlanOk(p)
      && (forall n :: 0 <= n < |p.oids| ==>
            p.roots[n] == if p.oids[n] in order && p.oids[n] in commits && commits[p.oids[n]].tree in trees
                          then Some(commits[p.oids[n]].tree) else None)
      && (forall c :: c in order && c in commits && commits[c].tree in trees ==>
            c in p.oids && forall a :: a in commits[c].parents ==> a in p.oids)
      && (forall a, c :: 0 <= a < |p.oids| && 0 <= c < |p.oids| ==>
            (Edge(a, c) in p.edges
             <==> p.oids[c] in order && p.oids[c] in commits && commits[p.oids[c]].tree in trees
                  && p.oids[a] in commits[p.oids[c]].parents))
  {
    PlanHolds(order, commits, trees);
    var p, links := Planned(order, commits, trees), Links(order, commits, trees);
    forall c, a | c in order && Enters(c, commits, trees) && a in commits[c].parents ensures a in p.oids {
      assert (a, c) in links;
    }
    forall c | c in order && Enters(c, commits, trees) ensures c in p.oids {
      assert c in Rooted(order, commits, trees);
    }
  }

  // ----- the order of the nodes

  /** Each element at its first occurrence. */
  ghost function Firsts(s: seq<Oid>): (r: seq<Oid>)
    ensures forall o :: o in r <==> o in s
  {
    if s == [] then []
    else
      var n := |s| - 1;
      assert s == s[..n] + [s[n]];
      if s[n] in s[..n] then Firsts(s[..n]) else Firsts(s[..n]) + [s[n]]
  }

  /** The commits named by those that are read and have an indexed tree: each itself, then its parents. */
  ghost function Mentioned(order: seq<Oid>, commits: map<Oid, Commit>, trees: seq<Oid>): (r: seq<Oid>) {
    if order == [] then []
    else
      var n := |order| - 1;
      Mentioned(order[..n], commits, trees)
        + if order[n] in commits && commits[order[n]].tree in trees then [order[n]] + commits[order[n]].parents else []
  }

  lemma FirstsSnoc(s: seq<Oid>, o: Oid)
    ensures Firsts(s + [o]) == if o in s then Firsts(s) else Firsts(s) + [o]
  {
    assert (s + [o])[..|s|] == s;
  }

  lemma NodeIsAppended(p: Plan, s: seq<Oid>, oid: Oid, tree: Option<Oid>)
    requires |p.oids| == |p.roots| && p.oids == Firsts(s)
    ensures WithNode(p, oid, tree).oids == Firsts(s + [oid])
  {
    FirstsSnoc(s, oid);
    PositionIs(p.oids, oid);
  }

  lemma {:induction false} ParentsAreAppended(p: Plan, s: seq<Oid>, parents: seq<Oid>, child: Oid)
    requires |p.oids| == |p.roots| && p.oids == Firsts(s)
    ensures WithParents(p, parents, child).oids == Firsts(s + parents)
    decreases |parents|
  {
    if parents == [] {
      assert s + parents == s;
    } else {
      var n := |parents| - 1;
      ParentsAreAppended(p, s, parents[..n], child);
      NodeIsAppended(WithParents(p, parents[..n], child), s + parents[..n], parents[n], None);
      assert s + parents == s + parents[..n] + [parents[n]];
    }
  }

  /** Nodes are numbered in the order in which commits are first named, read or not. */
  lemma {:induction false} NodesAreInOrder(order: seq<Oid>, commits: map<Oid, Commit>, trees: seq<Oid>)
    ensures Planned(order, commits, trees).oids == Firsts(Mentioned(order, commits, trees))
  {
    if order == [] { return; }
    hide Firsts, WithNode, WithParents;
    var n := |order| - 1;
    NodesAreInOrder(order[..n], commits, trees);
    CommitIsAppended(Planned(order[..n], commits, trees), Mentioned(order[..n], commits, trees), order[n], commits,
                     trees);
  }

  lemma CommitIsAppended(p: Plan, s: seq<Oid>, oid: Oid, commits: map<Oid, Commit>, trees: seq<Oid>)
    requires |p.oids| == |p.roots| && p.oids == Firsts(s)
    ensures (WithCommit(p, oid, commits, trees).oids
             == Firsts(s + if oid in commits && commits[oid].tree in trees then [oid] + commits[oid].parents else []))
  {
    hide Firsts, WithNode, WithParents;
    if oid in commits && commits[oid].tree in trees {
      NodeIsAppended(p, s, oid, Some(commits[oid].tree));
      ParentsAreAppended(WithNode(p, oid, Some(commits[oid].tree)), s + [oid], commits[oid].parents, oid);
      assert s + ([oid] + commits[oid].parents) == s + [oid] + commits[oid].parents;
    } else {
      assert s + [] == s;
    }
  }

  lemma PositionIs(oids: seq<Oid>, oid: Oid)
    ensures Position(oids, oid) < |oids| <==> exists i :: 0 <= i < |oids| && oids[i] == oid
  {
  }

  lemma {:induction false} PositionUnique(oids: seq<Oid>, oid: Oid, i: nat)
    requires i < |oids| && oids[i] == oid && forall a, b :: 0 <= a < b < |oids| ==> oids[a] != oids[b]
    ensures Position(oids, oid) == i
  {
    if i > 0 { PositionUnique(oids[1..], oid, i - 1); }
  }

  lemma {:induction false} PositionSnoc(oids: seq<Oid>, oid: Oid)
    requires oid !in oids
    ensures Position(oids + [oid], oid) == |oids|
  {
    if oids != [] {
      assert (oids + [oid])[1..] == oids[1..] + [oid];
      PositionSnoc(oids[1..], oid);
    }
  }
}
