/** Bounded exact candidate sets per tree, computed by workers that share one state array. */
module CandidateSummaries {
  import opened GitObjects
  import opened ObjectIds
  import opened Sets
  import opened Wrappers

  const UNKNOWN: nat := 0
  const CLEAN: nat := 1
  const OVERFLOW: nat := 2
  const MULTI: nat := 0x8000_0000
  const LIMIT: nat := 4
  const MAX_DEPTH: nat := 64

  // ----- the 32-bit state encoding. MULTI is the top bit: for k < MULTI, `MULTI | k` is
  // MULTI + k, `id & MULTI == 0` is id < MULTI, and `id & !MULTI` is id - MULTI.

  predicate Exact(state: nat) {
    state != UNKNOWN && state != OVERFLOW
  }

  predicate WellEncoded(state: nat, sets: seq<seq<nat>>) {
    state < MULTI || state - MULTI < |sets|
  }

  function Elements(s: seq<nat>): (r: set<nat>) {
    set x | x in s
  }

  /** The candidate indexes an exact state stands for. */
  function Decode(state: nat, sets: seq<seq<nat>>): (r: set<nat>)
    requires Exact(state) && WellEncoded(state, sets)
  {
    if state == CLEAN then {}
    else if state < MULTI then {state - 3}
    else Elements(sets[state - MULTI])
  }

  predicate StrictlySorted(s: seq<nat>) {
    forall i, j :: 0 <= i < j < |s| ==> s[i] < s[j]
  }

  lemma NoElements(s: seq<nat>)
    ensures Elements(s) == {} <==> s == []
  {
    if s != [] { assert s[0] in Elements(s); }
  }

  /** Sorted sequences are canonical: the interner's keys are equal when the sets are. */
  lemma {:induction false} SortedIsCanonical(a: seq<nat>, b: seq<nat>)
    requires StrictlySorted(a) && StrictlySorted(b) && Elements(a) == Elements(b)
    ensures a == b
  {
    NoElements(a);
    NoElements(b);
    if a != [] {
      assert a[0] in Elements(b);
      assert b != [] && b[0] in Elements(a);
      assert a[0] == b[0];
      forall x ensures x in a[1..] <==> x in b[1..] {
        assert x in a[1..] ==> x in Elements(a) && x != a[0];
        assert x in b[1..] ==> x in Elements(b) && x != b[0];
        assert x in Elements(a) && x != a[0] ==> x in a[1..];
        assert x in Elements(b) && x != b[0] ==> x in b[1..];
      }
      assert Elements(a[1..]) == Elements(b[1..]);
      SortedIsCanonical(a[1..], b[1..]);
      assert a == [a[0]] + a[1..] && b == [b[0]] + b[1..];
    }
  }

  function InsertUnique(s: seq<nat>, x: nat): (r: seq<nat>)
    requires StrictlySorted(s)
    ensures StrictlySorted(r)
    ensures forall y :: y in r <==> y == x || y in s
  {
    if s == [] || x < s[0] then [x] + s
    else if x == s[0] then s
    else
      assert s == [s[0]] + s[1..];
      var rest := InsertUnique(s[1..], x);
      assert forall k :: 0 <= k < |rest| ==> rest[k] == x || rest[k] in s[1..];
      [s[0]] + rest
  }

  /** Sorting and removing duplicates. */
  function SortDedup(s: seq<nat>): (r: seq<nat>)
    ensures StrictlySorted(r) && Elements(r) == Elements(s)
  {
    if s == [] then []
    else
      assert s == s[..|s| - 1] + [s[|s| - 1]];
      var rest := SortDedup(s[..|s| - 1]);
      assert forall y :: y in rest <==> y in Elements(rest);
      InsertUnique(rest, s[|s| - 1])
  }

  // ----- what the states must mean

  /** The repository the summaries are about: every indexed tree and every candidate blob, each
      with its dense index. */
  datatype Context = Context(odb: Odb, trees: seq<Oid>, blobs: seq<Oid>)

  ghost function Held(cx: Context, t: Oid): (r: set<nat>) {
    set i | 0 <= i < |cx.blobs| && Contains(cx.odb, t, cx.blobs[i])
  }

  ghost predicate Reaches(odb: Odb, t: Oid, u: Oid) {
    exists p :: TreePath(odb, p) && p[0] == t && p[|p| - 1] == u
  }

  ghost predicate IsMalformed(entries: seq<Entry>) {
    exists i :: 0 <= i < |entries| && entries[i].MalformedEntry?
  }

  /** The tree lies at the end of as many steps as the depth cut allows. */
  ghost predicate LiesDeep(odb: Odb, u: Oid) {
    exists p :: TreePath(odb, p) && |p| == MAX_DEPTH + 1 && p[|p| - 1] == u
  }

  /** No exact summary is made of this tree: it cannot be read completely, holds too many
      candidates or one that cannot be encoded, or lies too deep. */
  ghost predicate Unsummarised(cx: Context, u: Oid) {
    || u !in cx.odb.trees
    || IsMalformed(cx.odb.trees[u])
    || |Held(cx, u)| > LIMIT
    || (exists i :: i in Held(cx, u) && i >= MULTI - 3)
    || LiesDeep(cx.odb, u)
  }

  /** Below the tree there is one that cannot be summarised. */
  ghost predicate Excused(cx: Context, t: Oid) {
    exists u :: Reaches(cx.odb, t, u) && Unsummarised(cx, u)
  }

  /** An exact state stands for what the tree holds, and an overflow has a reason. */
  ghost predicate Means(cx: Context, state: nat, sets: seq<seq<nat>>, t: Oid) {
    && (Exact(state) ==> WellEncoded(state, sets) && Decode(state, sets) == Held(cx, t))
    && (state == OVERFLOW ==> Excused(cx, t) || |sets| >= MULTI)
  }

  lemma ReachesItself(odb: Odb, t: Oid)
    ensures Reaches(odb, t, t)
  {
    assert TreePath(odb, [t]);
  }

  lemma ExcusedHere(cx: Context, t: Oid)
    requires Unsummarised(cx, t)
    ensures Excused(cx, t)
  {
    ReachesItself(cx.odb, t);
  }

  lemma ExcusedByChild(cx: Context, t: Oid, u: Oid)
    requires Child(cx.odb, t, u) && Excused(cx, u)
    ensures Excused(cx, t)
  {
    hide Unsummarised;
    var v :| Reaches(cx.odb, u, v) && Unsummarised(cx, v);
    var p :| TreePath(cx.odb, p) && p[0] == u && p[|p| - 1] == v;
    var q := [t] + p;
    assert TreePath(cx.odb, q) && q[0] == t && q[|q| - 1] == v;
  }

  lemma {:induction false} SortedSize(s: seq<nat>)
    requires StrictlySorted(s)
    ensures |Elements(s)| == |s|
  {
    if s != [] {
      var n := |s| - 1;
      SortedSize(s[..n]);
      assert Elements(s) == Elements(s[..n]) + {s[n]} && s[n] !in Elements(s[..n]);
    }
  }

  /** More candidates than the limit were found below the tree. */
  lemma TooManyHeld(cx: Context, t: Oid, found: set<nat>)
    requires found <= Held(cx, t) && |found| > LIMIT
    ensures Excused(cx, t)
  {
    SubsetSize(found, Held(cx, t));
    ExcusedHere(cx, t);
  }

  /** Everything the workers share: one state per tree, and the interner of larger sets. */
  datatype Snapshot = Snapshot(states: seq<nat>, ids: map<seq<nat>, nat>, sets: seq<seq<nat>>)

  ghost predicate AllMean(cx: Context, states: seq<nat>, sets: seq<seq<nat>>) {
    && |states| == |cx.trees|
    && forall i {:trigger Means(cx, states[i], sets, cx.trees[i])} ::
         0 <= i < |states| ==> Means(cx, states[i], sets, cx.trees[i])
  }

  /** A candidate list as the workers build it: canonical, bounded and encodable. */
  predicate Candidates(s: seq<nat>) {
    StrictlySorted(s) && |s| <= LIMIT && forall k :: 0 <= k < |s| ==> s[k] < MULTI - 3
  }

  ghost predicate KeyOk(ids: map<seq<nat>, nat>, sets: seq<seq<nat>>, k: seq<nat>) {
    k in ids ==> MULTI <= ids[k] < MULTI + |sets| && sets[ids[k] - MULTI] == k
  }

  ghost predicate SetOk(ids: map<seq<nat>, nat>, sets: seq<seq<nat>>, j: nat) {
    j < |sets| ==> sets[j] in ids && ids[sets[j]] == MULTI + j && Candidates(sets[j]) && |sets[j]| >= 2
  }

  /** The interner's table and vector are inverse, and its sets are canonical. */
  ghost predicate InternerOk(ids: map<seq<nat>, nat>, sets: seq<seq<nat>>) {
    && |sets| <= MULTI
    && (forall k {:trigger KeyOk(ids, sets, k)} :: KeyOk(ids, sets, k))
    && (forall j {:trigger SetOk(ids, sets, j)} :: SetOk(ids, sets, j))
  }

  /** Two exact states stand for the same candidates only if they are the same state: neither the
      three ranges of the encoding nor two interned sets ever collide. */
  lemma EncodingsNeverCollide(ids: map<seq<nat>, nat>, sets: seq<seq<nat>>, a: nat, b: nat)
    requires InternerOk(ids, sets) && Exact(a) && Exact(b) && WellEncoded(a, sets) && WellEncoded(b, sets)
    requires Decode(a, sets) == Decode(b, sets)
    ensures a == b
  {
    if a >= MULTI { InternedHasTwo(ids, sets, a - MULTI); }
    if b >= MULTI { InternedHasTwo(ids, sets, b - MULTI); }
    if a >= MULTI && b >= MULTI {
      SortedIsCanonical(sets[a - MULTI], sets[b - MULTI]);
    }
    assert a < MULTI && a != CLEAN ==> a - 3 in Decode(a, sets);
    assert b < MULTI && b != CLEAN ==> b - 3 in Decode(b, sets);
  }

  lemma InternedHasTwo(ids: map<seq<nat>, nat>, sets: seq<seq<nat>>, j: nat)
    requires InternerOk(ids, sets) && j < |sets|
    ensures StrictlySorted(sets[j]) && sets[j] in ids && ids[sets[j]] == MULTI + j
    ensures exists x, y :: x in Elements(sets[j]) && y in Elements(sets[j]) && x != y
  {
    assert SetOk(ids, sets, j);
    assert sets[j][0] in Elements(sets[j]) && sets[j][1] in Elements(sets[j]) && sets[j][0] < sets[j][1];
  }

  ghost predicate Consistent(cx: Context, s: Snapshot) {
    AllMean(cx, s.states, s.sets) && InternerOk(s.ids, s.sets)
  }

  /** What any worker may do to the shared state, and what every worker may rely on: interned
      sets stay where they are, and no summary goes back to UNKNOWN. A summary may be replaced,
      for instance an exact one by OVERFLOW found along a deeper path. */
  ghost predicate Step(cx: Context, a: Snapshot, b: Snapshot) {
    && Consistent(cx, a) && Consistent(cx, b)
    && a.sets <= b.sets
    && forall i :: 0 <= i < |a.states| ==> a.states[i] != UNKNOWN ==> b.states[i] != UNKNOWN
  }

  lemma StepSelf(cx: Context, a: Snapshot)
    requires Consistent(cx, a)
    ensures Step(cx, a, a)
  {
  }

  lemma Steps(cx: Context, a: Snapshot, b: Snapshot, c: Snapshot)
    requires Step(cx, a, b) && Step(cx, b, c)
    ensures Step(cx, a, c) && Consistent(cx, c) && b.sets <= c.sets && |c.sets| <= MULTI
  {
  }

  lemma AboutStep(cx: Context, a: Snapshot, b: Snapshot)
    requires Step(cx, a, b)
    ensures Consistent(cx, b) && a.sets <= b.sets && |a.states| == |b.states| == |cx.trees| && |b.sets| <= MULTI
    ensures forall i :: 0 <= i < |a.states| && a.states[i] != UNKNOWN ==> b.states[i] != UNKNOWN
  {
  }

  /** What the other workers do at each moment, given the state they find. */
  type Schedule = (nat, Snapshot) -> Snapshot

  ghost predicate Obeys(cx: Context, others: Schedule) {
    forall n: nat, s: Snapshot :: Consistent(cx, s) ==> Step(cx, s, others(n, s))
  }

  lemma MeansIsStable(cx: Context, state: nat, a: seq<seq<nat>>, b: seq<seq<nat>>, t: Oid)
    requires a <= b && Means(cx, state, a, t)
    ensures Means(cx, state, b, t)
  {
  }

  lemma AllMeanStable(cx: Context, states: seq<nat>, a: seq<seq<nat>>, b: seq<seq<nat>>)
    requires a <= b && AllMean(cx, states, a)
    ensures AllMean(cx, states, b)
  {
    forall i | 0 <= i < |states| ensures Means(cx, states[i], b, cx.trees[i]) {
      MeansIsStable(cx, states[i], a, b, cx.trees[i]);
    }
  }

  lemma AllMeanStore(cx: Context, states: seq<nat>, sets: seq<seq<nat>>, i: nat, state: nat)
    requires AllMean(cx, states, sets) && i < |states| && Means(cx, state, sets, cx.trees[i])
    ensures AllMean(cx, states[i := state], sets)
  {
    var r := states[i := state];
    forall j | 0 <= j < |r| ensures Means(cx, r[j], sets, cx.trees[j]) {
      if j != i { assert r[j] == states[j]; }
    }
  }

  /** Appending a new set keeps the interner's table and vector inverse. */
  lemma InternerGrows(ids: map<seq<nat>, nat>, sets: seq<seq<nat>>, key: seq<nat>)
    requires InternerOk(ids, sets) && key !in ids && |sets| < MULTI && Candidates(key) && |key| >= 2
    ensures InternerOk(ids[key := MULTI + |sets|], sets + [key])
  {
    var ids', sets' := ids[key := MULTI + |sets|], sets + [key];
    forall k ensures KeyOk(ids', sets', k) { assert KeyOk(ids, sets, k); }
    forall j: nat ensures SetOk(ids', sets', j) { assert SetOk(ids, sets, j); }
  }

  class Shared {
    var states: seq<nat>
    var ids: map<seq<nat>, nat>
    var sets: seq<seq<nat>>
    var clock: nat

    ghost function Now(): Snapshot
      reads this
    {
      Snapshot(states, ids, sets)
    }

    constructor (trees: nat)
      ensures states == seq(trees, _ => UNKNOWN) && ids == map[] && sets == []
    {
      states, ids, sets, clock := seq(trees, _ => UNKNOWN), map[], [], 0;
    }

    /** The other workers run for a while. */
    method Interfere(ghost cx: Context, others: Schedule)
      requires Consistent(cx, Now()) && Obeys(cx, others)
      modifies this
      ensures Step(cx, old(Now()), Now())
    {
      var next := others(clock, Snapshot(states, ids, sets));
      states, ids, sets, clock := next.states, next.ids, next.sets, clock + 1;
    }

    /** One atomic store of a summary. */
    method Store(ghost cx: Context, i: nat, state: nat)
      requires Consistent(cx, Now()) && i < |states|
      requires state != UNKNOWN && Means(cx, state, sets, cx.trees[i])
      modifies this
      ensures Step(cx, old(Now()), Now())
      ensures states == old(states)[i := state] && sets == old(sets)
    {
      AllMeanStore(cx, states, sets, i, state);
      states := states[i := state];
    }

    /** One critical section of the interner: find the set or append it. */
    method Intern(ghost cx: Context, key: seq<nat>) returns (id: nat)
      requires Consistent(cx, Now()) && Candidates(key) && |key| >= 2
      modifies this
      ensures Step(cx, old(Now()), Now()) && states == old(states)
      ensures id == OVERFLOW ==> |sets| >= MULTI
      ensures id == OVERFLOW || (Exact(id) && WellEncoded(id, sets) && Decode(id, sets) == Elements(key))
    {
      if key in ids {
        assert KeyOk(ids, sets, key);
        return ids[key];
      }
      if |sets| >= MULTI {
        return OVERFLOW;
      }
      id := MULTI + |sets|;
      ghost var before := sets;
      InternerGrows(ids, sets, key);
      sets := sets + [key];
      ids := ids[key := id];
      AllMeanStable(cx, states, before, sets);
    }
  }

  /** Adds what `state` stands for to `out`; fails when that is unknown or too much. */
  method Merge(ghost cx: Context, shared: Shared, others: Schedule, state: nat, out: seq<nat>)
    returns (r: seq<nat>, ok: bool)
    requires Consistent(cx, shared.Now()) && Obeys(cx, others)
    requires WellEncoded(state, shared.sets) && Candidates(out)
    modifies shared
    ensures Step(cx, old(shared.Now()), shared.Now())
    ensures ok ==> Exact(state) && WellEncoded(state, old(shared.sets)) && Candidates(r)
                   && Elements(r) == Elements(out) + Decode(state, old(shared.sets))
    ensures !ok && Exact(state) ==> |Elements(out) + Decode(state, old(shared.sets))| > LIMIT
  {
    hide Means, AllMean, Held;
    r := out;
    if state == UNKNOWN || state == OVERFLOW {
      return r, false;
    }
    var more := [];
    if state == CLEAN {
      NoElements(more);
    } else if state < MULTI {
      more := [state - 3];
      assert more[0] in Elements(more);
    } else {
      assert SetOk(shared.ids, shared.sets, state - MULTI);
      shared.Interfere(cx, others);
      more := shared.sets[state - MULTI];
      assert old(shared.sets)[state - MULTI] == more;
    }
    assert Elements(more) == Decode(state, old(shared.sets));
    MergedAre(out, more);
    r := SortDedup(out + more);
    ok := |r| <= LIMIT;
  }

  lemma MergedAre(out: seq<nat>, more: seq<nat>)
    requires forall k :: 0 <= k < |out| ==> out[k] < MULTI - 3
    requires forall k :: 0 <= k < |more| ==> more[k] < MULTI - 3
    ensures (var r := SortDedup(out + more);
             && Elements(r) == Elements(out) + Elements(more) && |r| == |Elements(out) + Elements(more)|
             && forall k :: 0 <= k < |r| ==> r[k] < MULTI - 3)
  {
    var r := SortDedup(out + more);
    assert Elements(out + more) == Elements(out) + Elements(more);
    SortedSize(r);
    forall k | 0 <= k < |r| ensures r[k] < MULTI - 3 { assert r[k] in Elements(r); }
  }

  // ----- summarising one tree

  ghost predicate Indexed(cx: Context, trees: Bimap, blobs: Bimap)
    reads trees, blobs
  {
    && trees.Valid() && trees.ids == cx.trees
    && blobs.Valid() && blobs.ids == cx.blobs
    && forall t :: t in cx.trees <==> t in cx.odb.indexed
  }

  lemma HasSnoc(entries: seq<Entry>, n: nat, oid: Oid)
    requires n < |entries|
    ensures (HasBlob(entries[..n + 1], oid) <==>
             HasBlob(entries[..n], oid) || (entries[n].BlobEntry? && entries[n].oid == oid))
    ensures (HasTree(entries[..n + 1], oid) <==>
             HasTree(entries[..n], oid) || (entries[n].TreeEntry? && entries[n].oid == oid))
  {
    var a, b := entries[..n + 1], entries[..n];
    assert a[n] == entries[n];
    forall i | 0 <= i < n ensures a[i] == b[i] {}
    if HasBlob(b, oid) {
      var i :| 0 <= i < |b| && b[i].BlobEntry? && b[i].oid == oid;
      assert a[i] == b[i];
    }
    if HasTree(b, oid) {
      var i :| 0 <= i < |b| && b[i].TreeEntry? && b[i].oid == oid;
      assert a[i] == b[i];
    }
  }

  /** The candidates listed directly among the entries. */
  ghost function OwnAmong(cx: Context, entries: seq<Entry>): set<nat> {
    set i | 0 <= i < |cx.blobs| && HasBlob(entries, cx.blobs[i])
  }

  ghost predicate InRange(cx: Context, children: seq<nat>) {
    forall k :: 0 <= k < |children| ==> children[k] < |cx.trees|
  }

  ghost predicate ChildrenAmong(cx: Context, entries: seq<Entry>, children: seq<nat>) {
    && InRange(cx, children)
    && forall c: nat :: c < |cx.trees| ==> (c in children <==> HasTree(entries, cx.trees[c]))
  }

  ghost function HeldBelow(cx: Context, children: seq<nat>): (r: set<nat>)
    requires InRange(cx, children)
    ensures forall i: nat :: i in r <==> i < |cx.blobs| && exists c: nat :: c in children && i in Held(cx, cx.trees[c])
  {
    if children == [] then {}
    else
      var n := |children| - 1;
      assert children == children[..n] + [children[n]];
      HeldBelow(cx, children[..n]) + Held(cx, cx.trees[children[n]])
  }

  /** A readable tree holds what it lists and what its indexed subtrees hold. */
  lemma HeldIsUnion(cx: Context, t: Oid, children: seq<nat>)
    requires t in cx.odb.trees && ChildrenAmong(cx, cx.odb.trees[t], children)
    requires forall o :: o in cx.trees <==> o in cx.odb.indexed
    ensures Held(cx, t) == OwnAmong(cx, cx.odb.trees[t]) + HeldBelow(cx, children)
  {
    forall i | 0 <= i < |cx.blobs|
      ensures i in Held(cx, t) <==> i in OwnAmong(cx, cx.odb.trees[t]) + HeldBelow(cx, children)
    {
      var b := cx.blobs[i];
      if Contains(cx.odb, t, b) {
        ContainedCases(cx.odb, t, b);
        if !Owns(cx.odb, t, b) {
          var u :| Child(cx.odb, t, u) && Contains(cx.odb, u, b);
          var c :| 0 <= c < |cx.trees| && cx.trees[c] == u;
          assert c in children && i in Held(cx, cx.trees[c]);
        }
      }
      if Owns(cx.odb, t, b) { OwnedIsContained(cx.odb, t, b); }
      if i in HeldBelow(cx, children) {
        var c :| c in children && i in Held(cx, cx.trees[c]);
        ChildContentIsContained(cx.odb, t, cx.trees[c], b);
      }
    }
  }

  lemma OwnIsHeld(cx: Context, t: Oid, n: nat)
    requires t in cx.odb.trees && n <= |cx.odb.trees[t]|
    ensures OwnAmong(cx, cx.odb.trees[t][..n]) <= Held(cx, t)
  {
    var entries := cx.odb.trees[t];
    forall i | i in OwnAmong(cx, entries[..n]) ensures i in Held(cx, t) {
      var k :| 0 <= k < n && entries[..n][k].BlobEntry? && entries[..n][k].oid == cx.blobs[i];
      assert entries[k] == entries[..n][k];
      OwnedIsContained(cx.odb, t, cx.blobs[i]);
    }
  }

  lemma NoCandidates()
    ensures Candidates([])
  {
  }

  /** Adds the candidate that a blob entry names, if it is one. */
  method AddOwn(ghost cx: Context, blobs: Bimap, shared: Shared, others: Schedule, ghost t: Oid, ghost n: nat,
                blob: Oid, ids: seq<nat>)
    returns (r: seq<nat>, ok: bool)
    requires blobs.Valid() && blobs.ids == cx.blobs && Consistent(cx, shared.Now()) && Obeys(cx, others)
    requires t in cx.odb.trees && n < |cx.odb.trees[t]| && cx.odb.trees[t][n].BlobEntry?
    requires cx.odb.trees[t][n].oid == blob
    requires Candidates(ids) && Elements(ids) == OwnAmong(cx, cx.odb.trees[t][..n])
    modifies shared
    ensures Step(cx, old(shared.Now()), shared.Now())
    ensures ok ==> Candidates(r) && Elements(r) == OwnAmong(cx, cx.odb.trees[t][..n + 1])
    ensures !ok ==> Excused(cx, t)
  {
    hide Means, Excused, Held, Elements, Candidates, Step, Consistent;
    StepSelf(cx, shared.Now());
    ghost var entries := cx.odb.trees[t];
    var found := blobs.GetIdx(blob);
    OwnSnoc(cx, entries, n);
    if found.None? {
      return ids, true;
    }
    var id := found.value;
    OwnIsHeld(cx, t, n + 1);
    r, ok := ids, false;
    if id < MULTI - 3 {
      r, ok := Merge(cx, shared, others, id + 3, ids);
      if !ok { TooManyHeld(cx, t, OwnAmong(cx, entries[..n + 1])); }
    } else {
      assert id in Held(cx, t);
      ExcusedHere(cx, t);
    }
  }

  lemma OwnSnoc(cx: Context, entries: seq<Entry>, n: nat)
    requires n < |entries| && forall i, j :: 0 <= i < j < |cx.blobs| ==> cx.blobs[i] != cx.blobs[j]
    ensures (OwnAmong(cx, entries[..n + 1])
             == OwnAmong(cx, entries[..n])
                + set i | 0 <= i < |cx.blobs| && entries[n].BlobEntry? && entries[n].oid == cx.blobs[i])
    ensures forall id :: (0 <= id < |cx.blobs| && entries[n].BlobEntry? && entries[n].oid == cx.blobs[id] ==>
              OwnAmong(cx, entries[..n + 1]) == OwnAmong(cx, entries[..n]) + {id})
  {
    forall o: Oid { HasSnoc(entries, n, o); }
  }

  /** Reads one tree object: its own candidates and the indexes of its subtrees. Fails when the
      object cannot be read, an entry is malformed or there are too many candidates. */
  method ReadTree(ghost cx: Context, trees: Bimap, blobs: Bimap, odb: Odb, shared: Shared, others: Schedule, tree: nat)
    returns (children: seq<nat>, ids: seq<nat>, overflow: bool)
    requires Indexed(cx, trees, blobs) && odb == cx.odb && tree < |trees.ids|
    requires Consistent(cx, shared.Now()) && Obeys(cx, others)
    modifies shared
    ensures Step(cx, old(shared.Now()), shared.Now())
    ensures !overflow ==>
      && cx.trees[tree] in odb.trees && Candidates(ids)
      && ChildrenAmong(cx, odb.trees[cx.trees[tree]], children)
      && Elements(ids) == OwnAmong(cx, odb.trees[cx.trees[tree]])
    ensures overflow ==> Excused(cx, cx.trees[tree])
  {
    hide Means, Excused, Held, Candidates, Step, Consistent;
    children, ids, overflow := [], [], false;
    NoCandidates();
    StepSelf(cx, shared.Now());
    var oid := trees.GetOid(tree).value;
    if oid !in odb.trees {
      ExcusedHere(cx, oid);
      overflow := true;
    } else {
      var entries := odb.trees[oid];
      for n := 0 to |entries|
        invariant Step(cx, old(shared.Now()), shared.Now())
        invariant !overflow && Candidates(ids)
        invariant ChildrenAmong(cx, entries[..n], children)
        invariant Elements(ids) == OwnAmong(cx, entries[..n])
      {
        forall o: Oid { HasSnoc(entries, n, o); }
        match entries[n] {
          case MalformedEntry =>
            assert IsMalformed(entries);
            ExcusedHere(cx, oid);
            overflow := true;
            break;
          case BlobEntry(_, blob) =>
            ghost var before := shared.Now();
            AboutStep(cx, old(shared.Now()), before);
            var ok;
            ids, ok := AddOwn(cx, blobs, shared, others, oid, n, blob, ids);
            Steps(cx, old(shared.Now()), before, shared.Now());
            if !ok {
              overflow := true;
              break;
            }
          case TreeEntry(_, sub) =>
            var found := trees.GetIdx(sub);
            if found.Some? {
              children := children + [found.value];
            }
          case LinkEntry =>
        }
      }
      assert !overflow ==> entries[..|entries|] == entries;
    }
  }

  /** Encodes a candidate list as one state, interning it when it has several elements. */
  method Encode(ghost cx: Context, shared: Shared, ids: seq<nat>) returns (result: nat)
    requires Consistent(cx, shared.Now()) && Candidates(ids)
    modifies shared
    ensures Step(cx, old(shared.Now()), shared.Now())
    ensures result == OVERFLOW ==> |shared.sets| >= MULTI
    ensures result == OVERFLOW
            || (Exact(result) && WellEncoded(result, shared.sets) && Decode(result, shared.sets) == Elements(ids))
  {
    if ids == [] {
      NoElements(ids);
      result := CLEAN;
    } else if |ids| == 1 {
      assert Elements(ids) == {ids[0]};
      result := ids[0] + 3;
    } else {
      result := shared.Intern(cx, ids);
    }
  }

  lemma StateIs(cx: Context, now: Snapshot, tree: nat)
    requires Consistent(cx, now) && tree < |cx.trees|
    ensures tree < |now.states| && Means(cx, now.states[tree], now.sets, cx.trees[tree])
  {
  }

  /** Computes, stores and returns the summary of one tree. The depth cut bounds the recursion
      even when tree objects refer to each other in a cycle; a cut-off tree is not stored. */
  method Summarize(ghost cx: Context, trees: Bimap, blobs: Bimap, odb: Odb, shared: Shared, others: Schedule, tree: nat,
                   depth: nat,
                   ghost path: seq<Oid>)
    returns (result: nat)
    requires Indexed(cx, trees, blobs) && odb == cx.odb && tree < |trees.ids| && depth <= MAX_DEPTH
    requires TreePath(odb, path) && |path| == depth + 1 && path[depth] == trees.ids[tree]
    requires Consistent(cx, shared.Now()) && Obeys(cx, others)
    modifies shared
    ensures Step(cx, old(shared.Now()), shared.Now())
    ensures result != UNKNOWN && Means(cx, result, shared.sets, cx.trees[tree])
    ensures depth < MAX_DEPTH ==> shared.states[tree] != UNKNOWN
    decreases MAX_DEPTH - depth, 1
  {
    hide Held, Excused, Step, Consistent, Decode, Elements, Candidates, OwnAmong, ChildrenAmong, TreePath;
    ghost var start := shared.Now();
    shared.Interfere(cx, others);
    StateIs(cx, shared.Now(), tree);
    var cached := shared.states[tree];
    if cached != UNKNOWN {
      return cached;
    }
    if depth >= MAX_DEPTH {
      assert LiesDeep(odb, cx.trees[tree]);
      ExcusedHere(cx, cx.trees[tree]);
      return OVERFLOW;
    }
    ghost var now := shared.Now();
    AboutStep(cx, start, now);
    var children, ids, overflow := ReadTree(cx, trees, blobs, odb, shared, others, tree);
    Steps(cx, start, now, shared.Now());
    if !overflow {
      now := shared.Now();
      ids, overflow := MergeChildren(cx, trees, blobs, odb, shared, others, children, ids, depth, cx.trees[tree], path);
      Steps(cx, start, now, shared.Now());
    }
    if overflow {
      result := OVERFLOW;
    } else {
      HeldIsUnion(cx, cx.trees[tree], children);
      now := shared.Now();
      shared.Interfere(cx, others);
      Steps(cx, start, now, shared.Now());
      now := shared.Now();
      result := Encode(cx, shared, ids);
      Steps(cx, start, now, shared.Now());
    }
    now := shared.Now();
    shared.Interfere(cx, others);
    Steps(cx, start, now, shared.Now());
    MeansIsStable(cx, result, now.sets, shared.sets, cx.trees[tree]);
    now := shared.Now();
    AboutStep(cx, start, now);
    shared.Store(cx, tree, result);
    Steps(cx, start, now, shared.Now());
  }

  lemma ChildExtendsPath(cx: Context, t: Oid, children: seq<nat>, n: nat, path: seq<Oid>)
    requires t in cx.odb.trees && ChildrenAmong(cx, cx.odb.trees[t], children) && n < |children|
    requires forall o :: o in cx.trees <==> o in cx.odb.indexed
    requires TreePath(cx.odb, path) && path[|path| - 1] == t
    ensures Child(cx.odb, t, cx.trees[children[n]]) && TreePath(cx.odb, path + [cx.trees[children[n]]])
  {
    assert children[n] in children;
  }

  /** What stops the merging below a tree is a reason for the tree itself. */
  lemma OverflowIsExcused(cx: Context, t: Oid, children: seq<nat>, n: nat, child: nat, sets: seq<seq<nat>>,
                          found: set<nat>)
    requires t in cx.odb.trees && ChildrenAmong(cx, cx.odb.trees[t], children) && n < |children|
    requires forall o :: o in cx.trees <==> o in cx.odb.indexed
    requires Child(cx.odb, t, cx.trees[children[n]])
    requires child != UNKNOWN && Means(cx, child, sets, cx.trees[children[n]])
    requires found == OwnAmong(cx, cx.odb.trees[t]) + HeldBelow(cx, children[..n])
    requires Exact(child) ==> |found + Decode(child, sets)| > LIMIT
    ensures Excused(cx, t) || |sets| >= MULTI
  {
    hide Excused, Held, HeldBelow, OwnAmong, Decode;
    if Exact(child) {
      HeldIsUnion(cx, t, children);
      HeldBelowPart(cx, children, n);
      TooManyHeld(cx, t, found + Decode(child, sets));
    } else if Excused(cx, cx.trees[children[n]]) {
      ExcusedByChild(cx, t, cx.trees[children[n]]);
    }
  }

  lemma StateOfChild(cx: Context, state: nat, sets: seq<seq<nat>>, u: Oid)
    requires Means(cx, state, sets, u) && state != UNKNOWN && |sets| <= MULTI
    ensures WellEncoded(state, sets) && (Exact(state) ==> Decode(state, sets) == Held(cx, u))
  {
  }

  lemma NothingBelow(cx: Context, children: seq<nat>)
    requires InRange(cx, children)
    ensures HeldBelow(cx, children[..0]) == {}
  {
  }

  lemma HeldBelowSnoc(cx: Context, children: seq<nat>, n: nat)
    requires InRange(cx, children) && n < |children|
    ensures HeldBelow(cx, children[..n + 1]) == HeldBelow(cx, children[..n]) + Held(cx, cx.trees[children[n]])
  {
    assert children[..n + 1][..n] == children[..n];
  }

  lemma HeldBelowPart(cx: Context, children: seq<nat>, n: nat)
    requires InRange(cx, children) && n < |children|
    ensures HeldBelow(cx, children[..n]) + Held(cx, cx.trees[children[n]]) <= HeldBelow(cx, children)
  {
    assert forall c :: c in children[..n] ==> c in children;
    assert children[n] in children;
  }

  /** Adds the summaries of the subtrees, in order, until one overflows. */
  method MergeChildren(ghost cx: Context, trees: Bimap, blobs: Bimap, odb: Odb, shared: Shared, others: Schedule,
                       children: seq<nat>, own: seq<nat>, depth: nat, ghost t: Oid, ghost path: seq<Oid>)
    returns (ids: seq<nat>, overflow: bool)
    requires Indexed(cx, trees, blobs) && odb == cx.odb && depth < MAX_DEPTH
    requires Consistent(cx, shared.Now()) && Obeys(cx, others)
    requires t in odb.trees && ChildrenAmong(cx, odb.trees[t], children) && Candidates(own)
    requires Elements(own) == OwnAmong(cx, odb.trees[t])
    requires TreePath(odb, path) && |path| == depth + 1 && path[depth] == t
    modifies shared
    ensures Step(cx, old(shared.Now()), shared.Now())
    ensures !overflow ==> Candidates(ids) && Elements(ids) == Elements(own) + HeldBelow(cx, children)
    ensures overflow ==> Excused(cx, t) || |shared.sets| >= MULTI
    decreases MAX_DEPTH - depth, 0
  {
    assert InRange(cx, children);
    hide Means, Excused, Held, HeldBelow, OwnAmong, ChildrenAmong, TreePath, Elements, Step, Consistent, Candidates,
         Decode;
    NothingBelow(cx, children);
    ids, overflow := own, false;
    StepSelf(cx, shared.Now());
    for n := 0 to |children|
      invariant Step(cx, old(shared.Now()), shared.Now())
      invariant !overflow && Candidates(ids) && Elements(ids) == Elements(own) + HeldBelow(cx, children[..n])
    {
      ghost var u := cx.trees[children[n]];
      ChildExtendsPath(cx, t, children, n, path);
      ghost var before := shared.Now();
      AboutStep(cx, old(shared.Now()), before);
      var child := Summarize(cx, trees, blobs, odb, shared, others, children[n], depth + 1, path + [u]);
      Steps(cx, old(shared.Now()), before, shared.Now());
      ghost var found, sets, between := Elements(ids), shared.sets, shared.Now();
      StateOfChild(cx, child, sets, u);
      var ok;
      ids, ok := Merge(cx, shared, others, child, ids);
      Steps(cx, old(shared.Now()), between, shared.Now());
      if !ok {
        OverflowIsExcused(cx, t, children, n, child, sets, found);
        overflow := true;
        break;
      }
      HeldBelowSnoc(cx, children, n);
    }
    assert !overflow ==> children[..|children|] == children;
  }

  // ----- the finished summaries

  /** Every tree of the index has a summary, every exact one is right, and every overflow has a reason. */
  ghost predicate SoundStates(cx: Context, states: seq<nat>, sets: seq<seq<nat>>) {
    && |states| == |cx.trees|
    && forall i {:trigger Means(cx, states[i], sets, cx.trees[i])} ::
         0 <= i < |states| ==> states[i] != UNKNOWN && Means(cx, states[i], sets, cx.trees[i])
  }

  class Summaries {
    var trees: seq<nat>
    var sets: seq<seq<nat>>

    ghost predicate Sound(cx: Context)
      reads this
    {
      SoundStates(cx, trees, sets)
    }

    constructor (trees: seq<nat>, sets: seq<seq<nat>>)
      ensures this.trees == trees && this.sets == sets
    {
      this.trees, this.sets := trees, sets;
    }

    method Relevant() returns (bits: set<nat>)
      ensures bits == set i | 0 <= i < |trees| && trees[i] != CLEAN
    {
      bits := {};
      for i := 0 to |trees|
        invariant bits == set k | 0 <= k < i && trees[k] != CLEAN
      {
        if trees[i] != CLEAN {
          bits := bits + {i};
        }
      }
    }

    method Retain(selected: set<nat>)
      modifies this
      ensures trees == Select(old(trees), selected) && sets == old(sets)
    {
      var kept := [];
      for i := 0 to |trees|
        invariant trees == old(trees) && sets == old(sets)
        invariant kept == Select(trees[..i], selected)
      {
        SelectStep(trees, selected, i);
        if i in selected {
          kept := kept + [trees[i]];
        }
      }
      assert trees[..|trees|] == trees;
      trees := kept;
    }

    predicate Covered(tree: nat, ancestors: set<nat>)
      requires tree < |trees| && WellEncoded(trees[tree], sets)
      reads this
    {
      var state := trees[tree];
      if state == UNKNOWN || state == OVERFLOW then false
      else if state == CLEAN then true
      else if state < MULTI then state - 3 in ancestors
      else
        var held := sets[state - MULTI];
        forall k :: 0 <= k < |held| ==> held[k] in ancestors
    }
  }

  /** A tree is covered exactly when its summary is exact and everything it holds was in an
      ancestor; presence elsewhere in the history does not count. */
  lemma CoveredMeansHeld(cx: Context, s: Summaries, tree: nat, ancestors: set<nat>)
    requires s.Sound(cx) && tree < |s.trees|
    ensures Means(cx, s.trees[tree], s.sets, cx.trees[tree]) && WellEncoded(s.trees[tree], s.sets)
    ensures s.Covered(tree, ancestors) <==> Exact(s.trees[tree]) && Held(cx, cx.trees[tree]) <= ancestors
  {
    assert Means(cx, s.trees[tree], s.sets, cx.trees[tree]);
    var state := s.trees[tree];
    if Exact(state) {
      assert s.Covered(tree, ancestors) <==> Decode(state, s.sets) <= ancestors by {
        if state >= MULTI {
          var q := s.sets[state - MULTI];
          assert forall k :: 0 <= k < |q| ==> q[k] in Elements(q);
        } else if state > CLEAN {
          assert state - 3 in Decode(state, s.sets);
        }
      }
    }
  }

  /** Summarises every tree while other workers, which take the other trees, do the same. */
  method Build(ghost cx: Context, trees: Bimap, blobs: Bimap, odb: Odb, others: Schedule) returns (s: Summaries)
    requires Indexed(cx, trees, blobs) && odb == cx.odb && Obeys(cx, others)
    ensures fresh(s) && s.Sound(cx) && forall j :: 0 <= j < |s.sets| ==> |s.sets[j]| >= 2
  {
    var shared := new Shared(|trees.ids|);
    assert Consistent(cx, shared.Now());
    for i := 0 to |trees.ids|
      invariant fresh(shared) && Consistent(cx, shared.Now())
      invariant forall k :: 0 <= k < i ==> shared.states[k] != UNKNOWN
    {
      var _ := Summarize(cx, trees, blobs, odb, shared, others, i, 0, [trees.ids[i]]);
    }
    s := new Summaries(shared.states, shared.sets);
    forall i | 0 <= i < |s.trees| ensures Means(cx, s.trees[i], s.sets, cx.trees[i]) {
      assert Means(cx, shared.states[i], shared.sets, cx.trees[i]);
    }
    forall j | 0 <= j < |s.sets| ensures |s.sets[j]| >= 2 { assert SetOk(shared.ids, shared.sets, j); }
  }
}
