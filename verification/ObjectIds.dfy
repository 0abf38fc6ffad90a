/** The dense numbering of object IDs, and selecting from it in order. */
module ObjectIds {
  import opened GitObjects
  import opened Wrappers

  class Bimap {
    var table: map<Oid, nat>
    var ids: seq<Oid>

    /** The table and the dense vector are inverse to each other. */
    ghost predicate Valid()
      reads this
    {
      && (forall o :: o in table ==> table[o] < |ids| && ids[table[o]] == o)
      && (forall i :: 0 <= i < |ids| ==> ids[i] in table && table[ids[i]] == i)
    }

    constructor ()
      ensures Valid() && ids == []
    {
      table, ids := map[], [];
    }

    /** The first insertion of an ID numbers it; later ones change nothing. */
    method Insert(oid: Oid)
      requires Valid()
      modifies this
      ensures Valid()
      ensures ids == if oid in old(ids) then old(ids) else old(ids) + [oid]
    {
      if oid !in table {
        table := table[oid := |ids|];
        ids := ids + [oid];
      }
    }

    function GetOid(i: nat): (r: Option<Oid>)
      reads this
      ensures r.Some? <==> i < |ids|
      ensures r.Some? ==> r.value == ids[i]
    {
      if i < |ids| then Some(ids[i]) else None
    }

    function GetIdx(oid: Oid): (r: Option<nat>)
      requires Valid()
      reads this
      ensures r.Some? <==> oid in ids
      ensures r.Some? ==> r.value < |ids| && ids[r.value] == oid
    {
      if oid in table then Some(table[oid]) else None
    }
  }

  ghost predicate Distinct(ids: seq<Oid>) {
    forall i, j :: 0 <= i < j < |ids| ==> ids[i] != ids[j]
  }

  /** The set of object IDs that a bitmap of dense indexes stands for. */
  function Oids(ids: seq<Oid>, bits: set<nat>): (r: set<Oid>) {
    set i | i in bits && i < |ids| :: ids[i]
  }

  lemma OidsHas(ids: seq<Oid>, bits: set<nat>, i: nat)
    requires Distinct(ids) && i < |ids|
    ensures ids[i] in Oids(ids, bits) <==> i in bits
  {
  }

  lemma OidsInsert(ids: seq<Oid>, bits: set<nat>, i: nat)
    requires i < |ids|
    ensures Oids(ids, bits + {i}) == Oids(ids, bits) + {ids[i]}
  {
  }

  lemma OidsUnion(ids: seq<Oid>, a: set<nat>, b: set<nat>)
    ensures Oids(ids, a + b) == Oids(ids, a) + Oids(ids, b)
  {
  }

  /** How many selected positions lie below `n`. */
  function Rank(selected: set<nat>, n: nat): (r: nat)
    ensures r <= n
  {
    if n == 0 then 0 else Rank(selected, n - 1) + (if n - 1 in selected then 1 else 0)
  }

  /** The elements at the selected positions, in order. */
  function Select<T>(s: seq<T>, selected: set<nat>): (r: seq<T>)
    ensures |r| == Rank(selected, |s|)
  {
    if s == [] then []
    else
      var n := |s| - 1;
      Select(s[..n], selected) + (if n in selected then [s[n]] else [])
  }

  lemma SelectStep<T>(s: seq<T>, selected: set<nat>, n: nat)
    requires n < |s|
    ensures Select(s[..n + 1], selected)
         == Select(s[..n], selected) + (if n in selected then [s[n]] else [])
  {
    assert s[..n + 1][..n] == s[..n];
  }

  /** Selection is order preserving: a kept element moves to its rank. */
  lemma {:induction false} SelectAt<T>(s: seq<T>, selected: set<nat>, i: nat)
    requires i < |s| && i in selected
    ensures Rank(selected, i) < |Select(s, selected)|
    ensures Select(s, selected)[Rank(selected, i)] == s[i]
  {
    var n := |s| - 1;
    if i < n {
      SelectAt(s[..n], selected, i);
    }
  }

  /** Every element of a selection comes from a selected position, and the position depends only
      on which positions were selected. */
  lemma {:induction false} SelectFrom<T>(s: seq<T>, selected: set<nat>, k: nat) returns (i: nat)
    requires k < |Select(s, selected)|
    ensures i < |s| && i in selected && Rank(selected, i) == k && Select(s, selected)[k] == s[i]
  {
    var n := |s| - 1;
    if k < |Select(s[..n], selected)| {
      i := SelectFrom(s[..n], selected, k);
    } else {
      i := n;
    }
  }

  lemma {:induction false} RankMonotone(selected: set<nat>, i: nat, n: nat)
    requires i < n && i in selected
    ensures Rank(selected, i) < Rank(selected, n)
    decreases n
  {
    if i < n - 1 { RankMonotone(selected, i, n - 1); }
  }

  lemma SelectDistinct(s: seq<Oid>, selected: set<nat>)
    requires Distinct(s)
    ensures Distinct(Select(s, selected))
  {
    var r := Select(s, selected);
    forall a, b | 0 <= a < b < |r| ensures r[a] != r[b] {
      var i := SelectFrom(s, selected, a);
      var j := SelectFrom(s, selected, b);
      assert i != j;
    }
  }
}
