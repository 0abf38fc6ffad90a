/** The immutable object database: tree objects, their entries, and what a tree reaches. */
module GitObjects {
  import opened Bytes

  type Oid = nat
  type Name = seq<Byte>

  datatype Entry =
    | TreeEntry(name: Name, oid: Oid)
    | BlobEntry(name: Name, oid: Oid)
    | LinkEntry        // symbolic links and submodules
    | MalformedEntry   // an entry that fails to decode

  /** Tree objects that can be read, and the tree OIDs the repository index knows. An indexed
      tree that is missing from `trees` is one whose contents cannot be read. */
  datatype Odb = Odb(trees: map<Oid, seq<Entry>>, indexed: set<Oid>)

  predicate HasTree(entries: seq<Entry>, oid: Oid) {
    exists i :: 0 <= i < |entries| && entries[i].TreeEntry? && entries[i].oid == oid
  }

  predicate HasBlob(entries: seq<Entry>, oid: Oid) {
    exists i :: 0 <= i < |entries| && entries[i].BlobEntry? && entries[i].oid == oid
  }

  /** `u` is an indexed subtree listed directly by the tree `t`. */
  predicate Child(odb: Odb, t: Oid, u: Oid) {
    t in odb.trees && HasTree(odb.trees[t], u) && u in odb.indexed
  }

  predicate Owns(odb: Odb, t: Oid, blob: Oid) {
    t in odb.trees && HasBlob(odb.trees[t], blob)
  }

  predicate TreePath(odb: Odb, p: seq<Oid>) {
    |p| > 0 && forall i :: 0 <= i < |p| - 1 ==> Child(odb, p[i], p[i + 1])
  }

  ghost predicate Via(odb: Odb, t: Oid, p: seq<Oid>, blob: Oid) {
    TreePath(odb, p) && p[0] == t && Owns(odb, p[|p| - 1], blob)
  }

  /** `blob` occurs somewhere below the tree `t`, through indexed subtrees. */
  ghost predicate Contains(odb: Odb, t: Oid, blob: Oid) {
    exists p :: Via(odb, t, p, blob)
  }

  lemma OwnedIsContained(odb: Odb, t: Oid, blob: Oid)
    requires Owns(odb, t, blob)
    ensures Contains(odb, t, blob)
  {
    assert Via(odb, t, [t], blob);
  }

  lemma ChildContentIsContained(odb: Odb, t: Oid, u: Oid, blob: Oid)
    requires Child(odb, t, u) && Contains(odb, u, blob)
    ensures Contains(odb, t, blob)
  {
    var p :| Via(odb, u, p, blob);
    assert Via(odb, t, [t] + p, blob);
  }

  /** What a tree contains is what it owns and what its children contain. */
  lemma ContainedCases(odb: Odb, t: Oid, blob: Oid)
    requires Contains(odb, t, blob)
    ensures Owns(odb, t, blob) || exists u :: Child(odb, t, u) && Contains(odb, u, blob)
  {
    var p :| Via(odb, t, p, blob);
    if |p| > 1 {
      assert Child(odb, p[0], p[1]);
      assert Via(odb, p[1], p[1..], blob);
    }
  }

  /** Walking `names` down from `root` arrives at the tree `t`. */
  ghost predicate Leads(odb: Odb, root: Oid, names: seq<Name>, t: Oid)
    decreases |names|
  {
    if names == [] then t == root
    else
      exists u :: Leads(odb, root, names[..|names| - 1], u) && u in odb.trees && t in odb.indexed
                  && TreeEntry(names[|names| - 1], t) in odb.trees[u]
  }

  /** Walking `names` down from `root` arrives at the blob. */
  ghost predicate NamesBlob(odb: Odb, root: Oid, names: seq<Name>, blob: Oid) {
    |names| > 0
    && exists u :: Leads(odb, root, names[..|names| - 1], u) && u in odb.trees
                   && BlobEntry(names[|names| - 1], blob) in odb.trees[u]
  }

  predicate HasName(e: Entry) { e.TreeEntry? || e.BlobEntry? }

  /** The names in a store of trees. */
  ghost function NamesOf(store: map<Oid, seq<Entry>>): (r: set<Name>)
    ensures forall t, i :: t in store && 0 <= i < |store[t]| && HasName(store[t][i]) ==> store[t][i].name in r
  {
    set t, i | t in store && 0 <= i < |store[t]| && HasName(store[t][i]) :: store[t][i].name
  }

  /** The slash-joined form of a path. */
  function Joined(names: seq<Name>): (r: seq<Byte>)
    decreases |names|
  {
    if names == [] then []
    else if |names| == 1 then names[0]
    else Joined(names[..|names| - 1]) + [47] + names[|names| - 1]
  }

  /** Cuts a path at its slashes. */
  ghost function Split(path: seq<Byte>): (r: seq<Name>)
    ensures r != []
  {
    if path == [] then [[]]
    else
      var n := |path| - 1;
      var rest := Split(path[..n]);
      if path[n] == '/' as int then rest + [[]]
      else rest[..|rest| - 1] + [rest[|rest| - 1] + [path[n]]]
  }

  lemma SplitSnoc(path: seq<Byte>, x: Byte)
    ensures var s := Split(path);
      Split(path + [x]) == if x == '/' as int then s + [[]] else s[..|s| - 1] + [s[|s| - 1] + [x]]
  {
    assert (path + [x])[..|path|] == path;
  }

  lemma {:induction false} SplitConcat(path: seq<Byte>, name: Name)
    requires '/' as int !in name
    ensures var s := Split(path); Split(path + name) == s[..|s| - 1] + [s[|s| - 1] + name]
  {
    hide Split;
    if name == [] {
      assert path + name == path;
      var s := Split(path);
      assert s[|s| - 1] + name == s[|s| - 1];
    } else {
      var n := |name| - 1;
      SplitConcat(path, name[..n]);
      SplitSnoc(path + name[..n], name[n]);
      assert path + name[..n] + [name[n]] == path + name;
      var last := Split(path)[|Split(path)| - 1];
      assert last + name[..n] + [name[n]] == last + name;
    }
  }

  lemma LastName(names: seq<Name>)
    requires names != []
    ensures var n := |names| - 1; var s := names[..n] + [[]]; s[..|s| - 1] + [s[|s| - 1] + names[n]] == names
  {
    var n := |names| - 1;
    assert [] + names[n] == names[n] && names == names[..n] + [names[n]];
  }

  /** Cutting a rendered path at its slashes gives the names back. */
  lemma {:induction false} JoinedSplits(names: seq<Name>)
    requires names != [] && forall i :: 0 <= i < |names| ==> '/' as int !in names[i]
    ensures Split(Joined(names)) == names
    decreases |names|
  {
    var n := |names| - 1;
    if n == 0 {
      SplitConcat([], names[0]);
      assert [] + names[0] == names[0] == Joined(names);
    } else {
      JoinedSplits(names[..n]);
      var front := Joined(names[..n]);
      assert Joined(names) == front + ['/' as int] + names[n];
      hide Split, Joined;
      SplitSnoc(front, '/' as int);
      SplitConcat(front + ['/' as int], names[n]);
      LastName(names);
    }
  }
}
