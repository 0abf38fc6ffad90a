/** The path-component interner used by the tree traversal. */
module BStringTable {
  import opened Bytes
  import opened GitObjects

  const U32_LIMIT := 0x1_0000_0000

  /** A half-open range into the table's storage. */
  datatype Symbol = Symbol(i: nat, j: nat)

  predicate InBounds(storage: seq<Byte>, s: Symbol) {
    s.i <= s.j <= |storage|
  }

  function Text(storage: seq<Byte>, s: Symbol): (r: Name)
    requires InBounds(storage, s)
  {
    storage[s.i..s.j]
  }

  function Elements(names: seq<Name>): set<Name> {
    set s | s in names
  }

  ghost predicate AllDifferent(names: seq<Name>) {
    forall i, j :: 0 <= i < j < |names| ==> names[i] != names[j]
  }

  /** Some different names of the universe fill more than 32-bit offsets can address. */
  ghost predicate Overfull(universe: set<Name>) {
    exists names: seq<Name> ::
      AllDifferent(names) && Elements(names) <= universe && |Flat(names)| >= U32_LIMIT
  }

  /** Every interned name is what its symbol resolves to. */
  ghost predicate Resolves(storage: seq<Byte>, mapping: map<Name, Symbol>) {
    forall s :: s in mapping ==> InBounds(storage, mapping[s]) && Text(storage, mapping[s]) == s
  }

  lemma ResolvesAt(storage: seq<Byte>, mapping: map<Name, Symbol>, s: Name)
    requires Resolves(storage, mapping) && s in mapping
    ensures InBounds(storage, mapping[s]) && Text(storage, mapping[s]) == s
  {
  }

  lemma ResolvesMore(storage: seq<Byte>, mapping: map<Name, Symbol>, s: Name)
    requires Resolves(storage, mapping)
    ensures (var r := Symbol(|storage|, |storage| + |s|);
             InBounds(storage + s, r) && Text(storage + s, r) == s && Resolves(storage + s, mapping[s := r]))
  {
    forall t | t in mapping ensures Text(storage + s, mapping[t]) == t {
      assert (storage + s)[mapping[t].i..mapping[t].j] == storage[mapping[t].i..mapping[t].j];
    }
  }

  lemma AppendName(names: seq<Name>, s: Name, universe: set<Name>)
    requires AllDifferent(names) && s !in Elements(names) && Elements(names) + {s} <= universe
    ensures Elements(names + [s]) == Elements(names) + {s}
    ensures Flat(names + [s]) == Flat(names) + s && AllDifferent(names + [s])
    ensures |Flat(names)| + |s| >= U32_LIMIT ==> Overfull(universe)
  {
    assert (names + [s])[..|names|] == names;
  }

  class Table {
    /** The names that may be interned, and those that were, in order. */
    ghost const universe: set<Name>
    ghost var interned: seq<Name>

    var storage: seq<Byte>
    var mapping: map<Name, Symbol>

    ghost predicate Valid()
      reads this
    {
      && |storage| < U32_LIMIT
      && Flat(interned) == storage && AllDifferent(interned)
      && mapping.Keys == Elements(interned) <= universe
      && Resolves(storage, mapping)
    }

    constructor (ghost universe: set<Name>)
      ensures Valid() && storage == [] && mapping == map[] && this.universe == universe
    {
      this.universe, interned := universe, [];
      storage, mapping := [], map[];
    }

    /** Interns `s`. Not `ok` stands for the panic raised when the storage outgrows 32-bit offsets;
        nothing uses the table after that. */
    method GetOrIntern(s: Name) returns (r: Symbol, ok: bool)
      requires Valid() && s in universe
      modifies this
      ensures ok ==> Valid()
      ensures !ok ==> Overfull(universe)
      ensures old(storage) <= storage
      ensures ok <==> s in old(mapping) || |old(storage)| + |s| < U32_LIMIT
      ensures ok ==> InBounds(storage, r) && Text(storage, r) == s
      ensures mapping == if ok then old(mapping)[s := r] else old(mapping)
      ensures s in old(mapping) ==> r == old(mapping)[s] && storage == old(storage)
    {
      hide Flat, AllDifferent, Overfull, Resolves, Elements, Text;
      if s in mapping {
        ResolvesAt(storage, mapping, s);
        assert mapping == mapping[s := mapping[s]];
        return mapping[s], true;
      }
      AppendName(interned, s, universe);
      interned := interned + [s];
      var start := |storage|;
      var end := start + |s|;
      storage := storage + s;
      r := Symbol(start, end);
      if end >= U32_LIMIT {
        return r, false;
      }
      ResolvesMore(old(storage), mapping, s);
      mapping := mapping[s := r];
      ok := true;
    }

    method Resolve(s: Symbol) returns (r: Name)
      requires Valid() && InBounds(storage, s)
      ensures r == Text(storage, s)
      ensures forall n :: n in mapping && mapping[n] == s ==> r == n
    {
      r := storage[s.i..s.j];
    }
  }

  /** Two interned strings are equal exactly when their symbols are, the empty string included. */
  lemma SymbolsAreInjective(table: Table, s: Name, t: Name)
    requires table.Valid() && s in table.mapping && t in table.mapping
    ensures table.mapping[s] == table.mapping[t] <==> s == t
  {
    assert Text(table.storage, table.mapping[s]) == s && Text(table.storage, table.mapping[t]) == t;
  }

  predicate AllInBounds(storage: seq<Byte>, path: seq<Symbol>) {
    forall k :: 0 <= k < |path| ==> InBounds(storage, path[k])
  }

  function Names(storage: seq<Byte>, path: seq<Symbol>): (r: seq<Name>)
    requires AllInBounds(storage, path)
    ensures |r| == |path|
  {
    seq(|path|, k requires 0 <= k < |path| => Text(storage, path[k]))
  }

  /** Growing the storage never changes what an issued symbol resolves to. */
  lemma NamesAreStable(storage: seq<Byte>, more: seq<Byte>, path: seq<Symbol>)
    requires storage <= more && AllInBounds(storage, path)
    ensures AllInBounds(more, path) && Names(more, path) == Names(storage, path)
  {
    forall k | 0 <= k < |path| ensures InBounds(more, path[k]) && Text(more, path[k]) == Text(storage, path[k]) {
      var s := path[k];
      assert more[..|storage|] == storage;
      assert more[s.i..s.j] == more[..|storage|][s.i..s.j];
    }
  }

  /** Renders a symbol path as the slash-joined original names. */
  method RenderSymbolPath(table: Table, path: seq<Symbol>) returns (buf: seq<Byte>)
    requires table.Valid() && AllInBounds(table.storage, path)
    ensures buf == Joined(Names(table.storage, path))
  {
    buf := [];
    if |path| > 0 {
      ghost var names := Names(table.storage, path);
      var first := table.Resolve(path[0]);
      buf := buf + first;
      assert names[..1] == [names[0]];
      for k := 1 to |path|
        invariant buf == Joined(names[..k])
      {
        buf := buf + [47];
        var s := table.Resolve(path[k]);
        buf := buf + s;
        assert names[..k + 1][..k] == names[..k];
      }
      assert names[..|path|] == names;
    }
  }
}
