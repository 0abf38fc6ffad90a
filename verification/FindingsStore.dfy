/** The findings store with optional spilling, kept in step with the plain in-memory list. */
module FindingsStore {
  import opened FindingRows
  import opened FindingsSpill
  import opened Wrappers

  /** The position of the last row of each (blob, span). */
  function LastIndex(rows: seq<Row>): (r: map<(BlobId, nat), nat>)
    ensures forall k :: k in r ==> r[k] < |rows|
  {
    if rows == [] then map[]
    else
      var n := |rows| - 1;
      LastIndex(rows[..n])[(rows[n].blob, rows[n].m.span) := n]
  }

  /** `LastIndex` names a row of the key, and no later row has that key. */
  lemma {:induction false} LastIndexIsLast(rows: seq<Row>, key: (BlobId, nat))
    ensures key in LastIndex(rows) <==> exists i :: 0 <= i < |rows| && (rows[i].blob, rows[i].m.span) == key
    ensures key in LastIndex(rows) ==>
      var i := LastIndex(rows)[key];
      (rows[i].blob, rows[i].m.span) == key && forall j :: i < j < |rows| ==> (rows[j].blob, rows[j].m.span) != key
  {
    if rows != [] {
      var n := |rows| - 1;
      LastIndexIsLast(rows[..n], key);
      forall i | 0 <= i < n ensures rows[..n][i] == rows[i] {}
    }
  }

  /** The metadata of a row is what its blob always has. */
  ghost predicate Fits(metaOf: Option<BlobId -> nat>, x: Row) {
    metaOf.Some? ==> x.meta == metaOf.value(x.blob)
  }

  ghost predicate AllFit(metaOf: Option<BlobId -> nat>, rows: seq<Row>) {
    forall i :: 0 <= i < |rows| ==> Fits(metaOf, rows[i])
  }

  ghost predicate PoolFits(metaOf: Option<BlobId -> nat>, pool: Metas) {
    metaOf.Some? ==> forall id :: id in pool ==> pool[id] == metaOf.value(id)
  }

  /** Either every blob always comes with the same metadata, or the pools are those of the rows they go with. */
  ghost predicate Sharing(saved: seq<Row>, matches: seq<Row>, meta: Metas, mem: Mem, metaOf: Option<BlobId -> nat>) {
    && AllFit(metaOf, saved) && AllFit(metaOf, matches) && PoolFits(metaOf, meta) && PoolFits(metaOf, mem.pool)
    && (metaOf.None? ==> MetaPool(meta, matches) && MetaPool(mem.pool, mem.rows))
  }

  /** The working set and what has been put away stand for the in-memory store: rows put away
      followed by rows in memory are its rows, once metadata is shared; the key and blob sets agree
      exactly, and the index names the last row of each (blob, span). */
  ghost predicate Agrees(saved: seq<Row>, matches: seq<Row>, indexMap: map<(BlobId, nat), nat>, meta: Metas,
                         blobs: set<BlobId>, keys: set<Key>, mem: Mem, metaOf: Option<BlobId -> nat>) {
    && Pool(saved + matches) == mem.rows
    && Pool(matches) == matches && Sharing(saved, matches, meta, mem, metaOf)
    && indexMap == LastIndex(matches)
    && blobs == mem.blobs && keys == mem.keys
  }

  lemma InStep(saved: seq<Row>, matches: seq<Row>, indexMap: map<(BlobId, nat), nat>, meta: Metas,
               blobs: set<BlobId>, keys: set<Key>, mem: Mem, metaOf: Option<BlobId -> nat>)
    requires Agrees(saved, matches, indexMap, meta, blobs, keys, mem, metaOf)
    ensures blobs == mem.blobs && keys == mem.keys
  {
  }

  lemma {:induction false} FirstMetaFits(metaOf: Option<BlobId -> nat>, rows: seq<Row>, blob: BlobId)
    requires AllFit(metaOf, rows) && metaOf.Some? && FirstMeta(rows, blob).Some?
    ensures FirstMeta(rows, blob).value == metaOf.value(blob)
  {
    var n := |rows| - 1;
    if FirstMeta(rows[..n], blob).Some? { FirstMetaFits(metaOf, rows[..n], blob); }
    assert Fits(metaOf, rows[n]);
  }

  /** Sharing changes nothing when every blob always comes with the same metadata. */
  lemma {:induction false} PoolOfFitting(metaOf: Option<BlobId -> nat>, rows: seq<Row>)
    requires AllFit(metaOf, rows) && metaOf.Some?
    ensures Pool(rows) == rows
  {
    if rows != [] {
      var n := |rows| - 1;
      PoolOfFitting(metaOf, rows[..n]);
      PooledFits(metaOf, rows[..n], rows[n]);
      assert rows == rows[..n] + [rows[n]];
    }
  }

  lemma PooledFits(metaOf: Option<BlobId -> nat>, rows: seq<Row>, x: Row)
    requires AllFit(metaOf, rows) && metaOf.Some? && Fits(metaOf, x)
    ensures PooledWith(rows, x) == x
  {
    if FirstMeta(rows, x.blob).Some? { FirstMetaFits(metaOf, rows, x.blob); }
  }

  /** The pool of the rows in memory gives a row the same metadata as those rows do. */
  lemma SharedIsPooled(metaOf: Option<BlobId -> nat>, rows: seq<Row>, pool: Metas, x: Row)
    requires Fits(metaOf, x) && AllFit(metaOf, rows) && PoolFits(metaOf, pool)
    requires metaOf.None? ==> MetaPool(pool, rows)
    ensures Shared(pool, x) == PooledWith(rows, x) && Fits(metaOf, Shared(pool, x))
    ensures PoolFits(metaOf, Noted(pool, x)) && (metaOf.None? ==> MetaPool(Noted(pool, x), rows + [Shared(pool, x)]))
  {
    if metaOf.None? { MetaPoolSnoc(pool, rows, x); } else { PooledFits(metaOf, rows, x); }
  }

  lemma {:induction false} PoolAllFits(metaOf: Option<BlobId -> nat>, rows: seq<Row>)
    requires AllFit(metaOf, rows)
    ensures AllFit(metaOf, Pool(rows))
  {
    if metaOf.Some? { PoolOfFitting(metaOf, rows); }
  }

  lemma RowShared(saved: seq<Row>, matches: seq<Row>, meta: Metas, mem: Mem, metaOf: Option<BlobId -> nat>, x: Row,
                  key: Key, dedup: bool)
    requires Sharing(saved, matches, meta, mem, metaOf) && Pool(saved + matches) == mem.rows
    requires Fits(metaOf, x) && !(dedup && key in mem.keys)
    ensures Sharing(saved, matches + [Shared(meta, x)], Noted(meta, x), RecordOne(mem, x, key, dedup), metaOf)
    ensures Shared(meta, x) == PooledWith(matches, x) && Shared(mem.pool, x) == PooledWith(mem.rows, x)
  {
    hide FirstMeta, MetaPool, Pool, Shared, Noted, PoolFits, Fits;
    SharedIsPooled(metaOf, matches, meta, x);
    PoolAllFits(metaOf, saved + matches);
    SharedIsPooled(metaOf, mem.rows, mem.pool, x);
  }

  lemma RowPooled(saved: seq<Row>, matches: seq<Row>, x: Row)
    requires Pool(matches) == matches
    ensures (var pooled := PooledWith(matches, x);
             && Pool(saved + (matches + [pooled])) == Pool(saved + matches) + [PooledWith(Pool(saved + matches), x)]
             && Pool(matches + [pooled]) == matches + [pooled])
  {
    hide FirstMeta, Pool;
    var pooled := PooledWith(matches, x);
    PoolOfSplit(saved, matches, x);
    PoolSnoc(matches, pooled);
    PooledTwice(matches, x);
  }

  lemma RowIndexed(matches: seq<Row>, x: Row, meta: Metas)
    ensures LastIndex(matches + [Shared(meta, x)]) == LastIndex(matches)[(x.blob, x.m.span) := |matches|]
  {
    assert (matches + [Shared(meta, x)])[..|matches|] == matches;
  }

  /** Accepting one row keeps the working set in step. */
  lemma RowAgrees(saved: seq<Row>, matches: seq<Row>, indexMap: map<(BlobId, nat), nat>, meta: Metas,
                  blobs: set<BlobId>, keys: set<Key>, mem: Mem, metaOf: Option<BlobId -> nat>, x: Row, key: Key,
                  dedup: bool)
    requires Agrees(saved, matches, indexMap, meta, blobs, keys, mem, metaOf) && !(dedup && key in keys)
    requires Fits(metaOf, x)
    ensures Agrees(saved, matches + [Shared(meta, x)], indexMap[(x.blob, x.m.span) := |matches|], Noted(meta, x),
                   blobs + {x.blob}, if dedup then keys + {key} else keys, RecordOne(mem, x, key, dedup), metaOf)
  {
    hide Sharing, Pool, PooledWith, Shared, Noted, Fits, LastIndex;
    RowShared(saved, matches, meta, mem, metaOf, x, key, dedup);
    RowPooled(saved, matches, x);
    RowIndexed(matches, x, meta);
  }

  lemma PooledTwice(rows: seq<Row>, x: Row)
    ensures PooledWith(rows, PooledWith(rows, x)) == PooledWith(rows, x)
  {
  }

  lemma SingleRecord(m: Mem, rows: seq<Row>, n: nat, keyOf: Row -> Key)
    requires n < |rows|
    ensures (RecordAll(m, rows[..n + 1], keyOf, false)
             == RecordAll(RecordAll(m, rows[..n], keyOf, false), [rows[n]], keyOf, false))
  {
    assert rows[..n + 1] == rows[..n] + [rows[n]];
    RecordAllConcat(m, rows[..n], [rows[n]], keyOf, false);
  }

  // ----- updating validation results in place

  function Revalidated(rows: seq<Row>, u: Row): (r: seq<Row>)
    ensures |r| == |rows|
  {
    var key := (u.m.blobId, u.m.span);
    if key in LastIndex(rows) then
      var i := LastIndex(rows)[key];
      rows[i := rows[i].(m := rows[i].m.(validation := u.m.validation))]
    else rows
  }

  lemma RevalidatedIs(rows: seq<Row>, u: Row)
    ensures (var key, i := (u.m.blobId, u.m.span), LastIndex(rows);
             Revalidated(rows, u)
             == if key in i then rows[i[key] := rows[i[key]].(m := rows[i[key]].m.(validation := u.m.validation))]
                else rows)
    ensures SameButValidation(rows, Revalidated(rows, u))
  {
    hide LastIndex;
  }

  lemma OnlyValidation(a: seq<Row>, b: seq<Row>, c: seq<Row>)
    requires SameButValidation(a, b) && SameButValidation(b, c)
    ensures SameButValidation(a, c)
  {
    forall i | 0 <= i < |a| ensures c[i] == a[i].(m := a[i].m.(validation := c[i].m.validation)) {
      assert b[i] == a[i].(m := a[i].m.(validation := b[i].m.validation));
      assert c[i] == b[i].(m := b[i].m.(validation := c[i].m.validation));
    }
  }

  lemma IndexInStep(matches: seq<Row>, indexMap: map<(BlobId, nat), nat>, meta: Metas, blobs: set<BlobId>,
                    keys: set<Key>, mem: Mem, metaOf: Option<BlobId -> nat>)
    requires Agrees([], matches, indexMap, meta, blobs, keys, mem, metaOf)
    ensures indexMap == LastIndex(matches)
  {
  }

  function AllRevalidated(rows: seq<Row>, updates: seq<Row>): (r: seq<Row>)
    ensures |r| == |rows|
  {
    if updates == [] then rows
    else Revalidated(AllRevalidated(rows, updates[..|updates| - 1]), updates[|updates| - 1])
  }

  /** No later row has the blob and span of this one. */
  ghost predicate LastOfItsKey(rows: seq<Row>, i: nat)
    requires i < |rows|
  {
    forall j :: i < j < |rows| ==> !(rows[j].blob == rows[i].blob && rows[j].m.span == rows[i].m.span)
  }

  ghost predicate Concerns(u: Row, x: Row) { u.m.blobId == x.blob && u.m.span == x.m.span }

  /** The last update of the row's blob and span. */
  ghost predicate LastUpdateOf(updates: seq<Row>, k: nat, x: Row) {
    k < |updates| && Concerns(updates[k], x) && forall l :: k < l < |updates| ==> !Concerns(updates[l], x)
  }

  /** The last row of each blob and span has the validation of its last update; all else is as it was. */
  ghost predicate UpdatedAt(rows: seq<Row>, updates: seq<Row>, after: seq<Row>, i: nat)
    requires i < |rows| && i < |after|
  {
    && (forall k: nat :: LastUpdateOf(updates, k, rows[i]) && LastOfItsKey(rows, i) ==>
          after[i] == rows[i].(m := rows[i].m.(validation := updates[k].m.validation)))
    && (!LastOfItsKey(rows, i) || (forall k :: 0 <= k < |updates| ==> !Concerns(updates[k], rows[i])) ==>
          after[i] == rows[i])
  }

  /** One update changes the last row of its key and nothing else. */
  lemma OneUpdate(rows: seq<Row>, u: Row, i: nat)
    requires i < |rows|
    ensures (Revalidated(rows, u)[i]
             == if LastOfItsKey(rows, i) && Concerns(u, rows[i])
                then rows[i].(m := rows[i].m.(validation := u.m.validation)) else rows[i])
  {
    hide LastIndex;
    LastIndexIsLast(rows, (u.m.blobId, u.m.span));
    if LastOfItsKey(rows, i) && Concerns(u, rows[i]) {
      var n := LastIndex(rows)[(u.m.blobId, u.m.span)];
      assert n == i;
    }
  }

  lemma {:induction false} UpdatesReach(rows: seq<Row>, updates: seq<Row>, i: nat)
    requires i < |rows|
    ensures UpdatedAt(rows, updates, AllRevalidated(rows, updates), i)
    ensures SameButValidation(rows, AllRevalidated(rows, updates))
  {
    if updates != [] {
      hide Revalidated;
      var n := |updates| - 1;
      var before, u := AllRevalidated(rows, updates[..n]), updates[n];
      UpdatesReach(rows, updates[..n], i);
      RevalidatedIs(before, u);
      OnlyValidation(rows, before, Revalidated(before, u));
      OneUpdate(before, u, i);
      LastStays(rows, before, i);
      LastOneDecides(rows, updates, before, Revalidated(before, u), i);
    }
  }

  lemma LastOneDecides(rows: seq<Row>, updates: seq<Row>, before: seq<Row>, after: seq<Row>, i: nat)
    requires updates != [] && i < |rows| == |before| == |after|
    requires SameButValidation(rows, before) && UpdatedAt(rows, updates[..|updates| - 1], before, i)
    requires (after[i] == if LastOfItsKey(rows, i) && Concerns(updates[|updates| - 1], rows[i])
                          then before[i].(m := before[i].m.(validation := updates[|updates| - 1].m.validation))
                          else before[i])
    ensures UpdatedAt(rows, updates, after, i)
  {
    var n := |updates| - 1;
    assert forall k :: 0 <= k < n ==> updates[..n][k] == updates[k];
    forall k: nat | LastUpdateOf(updates, k, rows[i]) && LastOfItsKey(rows, i)
      ensures after[i] == rows[i].(m := rows[i].m.(validation := updates[k].m.validation))
    {
      if k < n { assert LastUpdateOf(updates[..n], k, rows[i]); }
    }
  }

  lemma LastStays(rows: seq<Row>, after: seq<Row>, i: nat)
    requires SameButValidation(rows, after) && i < |rows|
    ensures LastOfItsKey(rows, i) <==> LastOfItsKey(after, i)
    ensures after[i].blob == rows[i].blob && after[i].m.span == rows[i].m.span
  {
    forall j | 0 <= j < |rows| ensures after[j].blob == rows[j].blob && after[j].m.span == rows[j].m.span {
      assert after[j] == rows[j].(m := rows[j].m.(validation := after[j].m.validation));
    }
  }

  /** Only the validation of rows differs. */
  ghost predicate SameButValidation(a: seq<Row>, b: seq<Row>) {
    |a| == |b| && forall i :: 0 <= i < |a| ==> b[i] == a[i].(m := a[i].m.(validation := b[i].m.validation))
  }

  lemma {:induction false} SameIndexAndFirsts(a: seq<Row>, b: seq<Row>)
    requires SameButValidation(a, b)
    ensures LastIndex(a) == LastIndex(b) && SameFirsts(a, b)
  {
    if a != [] {
      var n := |a| - 1;
      SameIndexAndFirsts(a[..n], b[..n]);
      assert a == a[..n] + [a[n]] && b == b[..n] + [b[n]];
      forall id ensures FirstMeta(a, id) == FirstMeta(b, id) {
        FirstMetaSnoc(a[..n], a[n], id);
        FirstMetaSnoc(b[..n], b[n], id);
      }
    }
  }

  lemma {:induction false} StaysPooled(a: seq<Row>, b: seq<Row>)
    requires SameButValidation(a, b) && Pool(a) == a
    ensures Pool(b) == b
  {
    hide FirstMeta;
    if a != [] {
      var n := |a| - 1;
      assert Pool(a)[..n] == a[..n] && Pool(a)[n] == a[n];
      StaysPooled(a[..n], b[..n]);
      SameIndexAndFirsts(a[..n], b[..n]);
      assert FirstMeta(a[..n], a[n].blob) == FirstMeta(b[..n], b[n].blob);
      assert b == b[..n] + [b[n]];
    }
  }

  lemma NothingSaved(matches: seq<Row>, indexMap: map<(BlobId, nat), nat>, meta: Metas, blobs: set<BlobId>,
                     keys: set<Key>, mem: Mem, metaOf: Option<BlobId -> nat>)
    requires Agrees([], matches, indexMap, meta, blobs, keys, mem, metaOf)
    ensures matches == mem.rows
  {
    assert [] + matches == matches;
  }

  /** Recording what was put away and then what is pending into an empty store shares their metadata. */
  lemma RecordedAnew(saved: seq<Row>, pending: seq<Row>, keyOf: Row -> Key)
    ensures (var r := RecordAll(RecordAll(EMPTY, saved, keyOf, false), pending, keyOf, false);
             r.rows == Pool(saved + pending) && MetaPool(r.pool, r.rows))
  {
    hide FirstMeta, RecordAll;
    RecordAllConcat(EMPTY, saved, pending, keyOf, false);
    PlainRecordAppends(EMPTY, saved + pending, keyOf);
    assert [] + (saved + pending) == saved + pending;
  }

  /** The rows shared anew are the in-memory store's, with an index and a metadata pool to match. */
  lemma Rebuilt(saved: seq<Row>, pending: seq<Row>, rows: seq<Row>, rowIndex: map<(BlobId, nat), nat>, rowMeta: Metas,
                indexMap: map<(BlobId, nat), nat>, meta: Metas, blobs: set<BlobId>, keys: set<Key>, mem: Mem,
                metaOf: Option<BlobId -> nat>)
    requires Agrees(saved, pending, indexMap, meta, blobs, keys, mem, metaOf)
    requires rows == Pool(saved + pending) && rowIndex == LastIndex(rows) && MetaPool(rowMeta, rows)
    ensures Agrees([], rows, rowIndex, rowMeta, blobs, keys, mem, metaOf)
  {
    hide FirstMeta, Pool, LastIndex;
    PoolIdempotent(saved + pending);
    PoolAllFits(metaOf, saved + pending);
    assert [] + rows == rows;
    if metaOf.Some? {
      forall id | id in rowMeta ensures rowMeta[id] == metaOf.value(id) {
        assert FirstMeta(rows, id) == Some(rowMeta[id]);
        FirstMetaFits(metaOf, rows, id);
      }
    }
  }

  lemma NoRecordAtAll(m: Mem, keyOf: Row -> Key, dedup: bool)
    ensures RecordAll(m, [], keyOf, dedup) == m
  {
  }

  lemma Updated(rows: seq<Row>, after: seq<Row>, indexMap: map<(BlobId, nat), nat>, meta: Metas,
                blobs: set<BlobId>, keys: set<Key>, mem: Mem, metaOf: Option<BlobId -> nat>)
    requires Agrees([], rows, indexMap, meta, blobs, keys, mem, metaOf) && SameButValidation(rows, after)
    ensures Agrees([], after, indexMap, meta, blobs, keys, mem.(rows := after), metaOf)
  {
    hide FirstMeta, Pool, MetaPool, LastIndex;
    SameIndexAndFirsts(rows, after);
    StaysPooled(rows, after);
    assert [] + rows == rows && [] + after == after;
    if metaOf.None? {
      SamePool(meta, rows, after);
      SamePool(mem.pool, rows, after);
    }
    forall i | 0 <= i < |after| ensures Fits(metaOf, after[i]) { assert Fits(metaOf, rows[i]); }
  }

  lemma SamePool(meta: Metas, a: seq<Row>, b: seq<Row>)
    requires MetaPool(meta, a) && SameFirsts(a, b)
    ensures MetaPool(meta, b)
  {
    hide FirstMeta;
    forall id ensures FirstMeta(b, id) == if id in meta then Some(meta[id]) else None {
      assert FirstMeta(a, id) == FirstMeta(b, id);
    }
  }

  // ----- replacing the rows

  function BlobsOf(rows: seq<Row>): set<BlobId> {
    set i | 0 <= i < |rows| :: rows[i].blob
  }

  /** What replacing does without any spilling: the keys and the pool keep what earlier rows left there. */
  function Replaced(m: Mem, rows: seq<Row>): (r: Mem) {
    Mem(rows, m.keys, BlobsOf(rows), m.pool)
  }

  lemma ReplacedAgrees(matches: seq<Row>, indexMap: map<(BlobId, nat), nat>, meta: Metas, blobs: set<BlobId>,
                       keys: set<Key>, mem: Mem, metaOf: Option<BlobId -> nat>, rows: seq<Row>)
    requires Agrees([], matches, indexMap, meta, blobs, keys, mem, metaOf) && metaOf.Some? && AllFit(metaOf, rows)
    ensures Agrees([], rows, LastIndex(rows), meta, BlobsOf(rows), keys, Replaced(mem, rows), metaOf)
  {
    hide FirstMeta, Pool, LastIndex;
    PoolOfFitting(metaOf, rows);
    assert [] + rows == rows;
  }

  /** Once the rows are on disk, an empty working set stands for the same list. */
  lemma PutAway(saved: seq<Row>, matches: seq<Row>, indexMap: map<(BlobId, nat), nat>, meta: Metas,
                blobs: set<BlobId>, keys: set<Key>, mem: Mem, metaOf: Option<BlobId -> nat>)
    requires Agrees(saved, matches, indexMap, meta, blobs, keys, mem, metaOf)
    ensures Agrees(saved + matches, [], map[], map[], blobs, keys, mem, metaOf)
  {
    assert saved + matches + [] == saved + matches;
  }

  class Store {
    /** The deduplication key of a row, for the rules and repository metadata in force. */
    var keyOf: Row -> Key
    var spill: Spill?
    var rules: set<nat>
    var matches: seq<Row>
    var indexMap: map<(BlobId, nat), nat>
    var blobs: set<BlobId>
    var dedupExact: set<Key>
    var blobMeta: Metas
    /** The metadata that every blob always comes with, if it always comes with the same. */
    ghost const metaOf: Option<BlobId -> nat>
    /** What a store that never spills would hold. */
    ghost var mem: Mem

    ghost function Saved(): (r: seq<Row>)
      reads this, spill
    {
      if spill == null then [] else spill.saved
    }

    ghost predicate Sane()
      reads this, spill
    {
      spill != null ==> spill.Valid()
    }

    ghost predicate Valid()
      reads this, spill
    {
      Sane() && Agrees(Saved(), matches, indexMap, blobMeta, blobs, dedupExact, mem, metaOf)
    }

    /** The working set may be read: nothing is put away. */
    predicate Restored()
      reads this, spill
    {
      spill == null || spill.IsEmpty()
    }

    /** What was put away is undamaged and refers to known rules only. */
    ghost predicate Readable()
      reads this, spill
    {
      spill != null && !spill.Damaged() && forall x :: x in spill.saved ==> x.m.ruleId in rules
    }

    constructor (keyOf: Row -> Key, ghost metaOf: Option<BlobId -> nat>)
      ensures Valid() && spill == null && mem == EMPTY && this.keyOf == keyOf && this.metaOf == metaOf && rules == {}
      ensures matches == [] && blobMeta == map[] && blobs == {} && dedupExact == {}
    {
      this.keyOf, this.metaOf := keyOf, metaOf;
      spill, rules, matches, indexMap, blobs, dedupExact, blobMeta := null, {}, [], map[], {}, {}, map[];
      mem := EMPTY;
    }

    /** New rules can change which keys are told apart. Keys recorded before stay as they are. */
    method RecordRules(rules: set<nat>, keyOf: Row -> Key)
      modifies this`rules, this`keyOf
      ensures this.rules == rules && this.keyOf == keyOf && (old(Valid()) ==> Valid())
    {
      this.rules, this.keyOf := rules, keyOf;
    }

    /** Storage that is full from the start leaves spilling off; any other fault is an error. */
    method EnableSpilling(fault: Option<FaultKind>) returns (ok: bool)
      requires Sane()
      modifies this`spill
      ensures Sane() && (old(Valid()) ==> Valid())
      ensures ok <==> old(spill) != null || fault.None? || fault.value.StorageFull?
      ensures old(spill) != null ==> spill == old(spill)
      ensures old(spill) == null ==> (spill != null <==> fault.None?)
      ensures old(spill) == null && spill != null ==> fresh(spill) && spill.saved == [] && !spill.Damaged()
    {
      ok := true;
      if spill == null {
        match fault
        case None => spill := new Spill();
        case Some(StorageFull) =>
        case Some(OtherError) => ok := false;
      }
    }

    /** Keeps a row that is no duplicate: metadata from the pool, then the sets, the list and the index. */
    method Accept(x: Row, key: Key, dedup: bool) returns (added: nat)
      modifies this`matches, this`indexMap, this`blobs, this`dedupExact, this`blobMeta
      ensures dedupExact == if dedup then old(dedupExact) + {key} else old(dedupExact)
      ensures blobMeta == Noted(old(blobMeta), x) && matches == old(matches) + [Shared(old(blobMeta), x)]
      ensures indexMap == old(indexMap)[(x.blob, x.m.span) := |old(matches)|]
      ensures blobs == old(blobs) + {x.blob} && added == |blobs| - |old(blobs)|
    {
      if dedup {
        dedupExact := dedupExact + {key};
      }
      if x.blob !in blobMeta {
        blobMeta := blobMeta[x.blob := x.meta];
      }
      added := if x.blob !in blobs then 1 else 0;
      OneMoreSeen(blobs, x.blob);
      blobs := blobs + {x.blob};
      matches := matches + [x.(meta := blobMeta[x.blob])];
      var idx := |matches| - 1;
      indexMap := indexMap[(matches[idx].blob, matches[idx].m.span) := idx];
    }

    /** One row of a batch. */
    method RecordRow(x: Row, dedup: bool) returns (added: nat)
      requires Sane()
      modifies this`matches, this`indexMap, this`blobs, this`dedupExact, this`blobMeta, this`mem
      ensures Sane() && added == |blobs| - |old(blobs)|
      ensures (if dedup && keyOf(x) in old(dedupExact) then matches == old(matches) && blobMeta == old(blobMeta)
               else matches == old(matches) + [Shared(old(blobMeta), x)] && blobMeta == Noted(old(blobMeta), x))
      ensures old(Valid()) && Fits(metaOf, x) ==> Valid() && mem == RecordOne(old(mem), x, keyOf(x), dedup)
    {
      hide Agrees, Shared, Noted, RecordOne, Fits, Spill.Valid;
      var key := keyOf(x);
      AboutRecordOne(mem, x, key, dedup);
      if Valid() { InStep(Saved(), matches, indexMap, blobMeta, blobs, dedupExact, mem, metaOf); }
      if dedup && key in dedupExact {
        return 0;
      }
      if Valid() && Fits(metaOf, x) {
        RowAgrees(Saved(), matches, indexMap, blobMeta, blobs, dedupExact, mem, metaOf, x, key, dedup);
      }
      mem := RecordOne(mem, x, key, dedup);
      added := Accept(x, key, dedup);
    }

    /** Records a batch; returns how many blobs were new. */
    method Record(batch: seq<Row>, dedup: bool) returns (added: nat)
      requires Valid() && AllFit(metaOf, batch)
      modifies this`matches, this`indexMap, this`blobs, this`dedupExact, this`blobMeta, this`mem
      ensures Valid() && mem == RecordAll(old(mem), batch, keyOf, dedup)
      ensures added == |mem.blobs| - |old(mem.blobs)|
    {
      added := 0;
      InStep(Saved(), matches, indexMap, blobMeta, blobs, dedupExact, mem, metaOf);
      for n := 0 to |batch|
        invariant Valid() && mem == RecordAll(old(mem), batch[..n], keyOf, dedup)
        invariant added == |blobs| - |old(blobs)|
      {
        hide Agrees;
        assert batch[..n + 1][..n] == batch[..n];
        var more := RecordRow(batch[n], dedup);
        added := added + more;
      }
      InStep(Saved(), matches, indexMap, blobMeta, blobs, dedupExact, mem, metaOf);
      assert batch[..|batch|] == batch;
    }

    /** Records rows one at a time, without deduplication. */
    method RecordEach(rows: seq<Row>)
      requires Valid() && AllFit(metaOf, rows)
      modifies this`matches, this`indexMap, this`blobs, this`dedupExact, this`blobMeta, this`mem
      ensures Valid() && mem == RecordAll(old(mem), rows, keyOf, false)
    {
      hide Agrees, RecordAll;
      NoRecordAtAll(mem, keyOf, false);
      assert rows[..0] == [];
      for n := 0 to |rows|
        invariant Valid() && mem == RecordAll(old(mem), rows[..n], keyOf, false)
      {
        var _ := Record([rows[n]], false);
        SingleRecord(old(mem), rows, n, keyOf);
      }
      assert rows[..|rows|] == rows;
    }

    /** Rebuilds the working set from what was put away followed by what is pending. A read error, or
        a failed truncation, leaves both as they were. Without truncation the caller must drop the
        file, since its rows are now in memory too. */
    method RestoreSpilledWithCleanup(truncate: bool, readFails: bool, clearFails: bool) returns (ok: bool)
      requires Sane()
      modifies this`matches, this`indexMap, this`blobMeta, spill
      ensures Sane()
      ensures ok && old(Valid()) ==> Agrees([], matches, indexMap, blobMeta, blobs, dedupExact, mem, metaOf)
      ensures ok ==> matches == if old(Restored()) then old(matches) else Pool(old(Saved() + matches))
      ensures ok && old(Restored()) ==> indexMap == old(indexMap) && blobMeta == old(blobMeta)
      ensures ok && truncate ==> Saved() == []
      ensures ok <==> old(Restored()) || (!readFails && old(Readable()) && !(truncate && clearFails))
      ensures !ok ==> matches == old(matches) && indexMap == old(indexMap) && blobMeta == old(blobMeta)
      ensures !ok ==> Saved() == old(Saved())
    {
      hide Agrees, Pool, MetaPool, FirstMeta, LastIndex, RecordAll, RecordOne;
      ok := true;
      if spill == null || spill.IsEmpty() {
        return;
      }
      ghost var saved := Saved();
      var batch;
      batch, ok := spill.ReadBatches(rules, readFails);
      if !ok {
        return;
      }
      var restored := new Store(keyOf, None);
      Unconstrained(batch);
      Unconstrained(matches);
      var _ := restored.Record(batch, false);
      if truncate {
        ok := spill.Clear(clearFails);
        if !ok {
          return;
        }
      }
      restored.RecordEach(matches);
      RecordedAnew(saved, matches, keyOf);
      AboutRestored(restored);
      if old(Valid()) {
        Rebuilt(saved, matches, restored.matches, restored.indexMap, restored.blobMeta, indexMap, blobMeta, blobs,
                dedupExact, mem, metaOf);
      }
      matches, indexMap, blobMeta := restored.matches, restored.indexMap, restored.blobMeta;
    }

    /** Puts the working set away. When storage is full everything comes back to memory and spilling
        stops; any other failure is reported and leaves both parts as they were. */
    method SpillPending(append: AppendFault, readFails: bool) returns (ok: bool)
      requires Sane()
      modifies this`spill, this`matches, this`indexMap, this`blobMeta, spill
      ensures Sane() && (spill == null || spill == old(spill))
      ensures old(Valid()) ==> Valid()
      ensures (ok <==> || old(spill) == null || old(matches) == [] || append.NoFault?
                       || (append.Fails? && append.kind.StorageFull? && !append.rollbackFails
                           && (old(Restored()) || (!readFails && old(Readable())))))
      ensures (spill == null <==> old(spill) == null
                                  || (ok && old(matches) != [] && append.Fails? && append.kind.StorageFull?))
      ensures old(spill) != null && append.NoFault? && !old(spill.Damaged()) ==> !spill.Damaged()
      ensures ok && spill != null && old(matches) != [] ==> matches == [] && Saved() == old(Saved()) + old(matches)
      ensures ok && spill != null && old(matches) != [] ==> blobMeta == map[]
      ensures ok && spill == null && old(Valid()) ==> matches == mem.rows
      ensures !ok ==> spill == old(spill) && matches == old(matches) && Saved() == old(Saved())
    {
      hide Agrees;
      ok := true;
      if spill == null {
        if Valid() { NothingSaved(matches, indexMap, blobMeta, blobs, dedupExact, mem, metaOf); }
        return;
      }
      if matches == [] {
        return;
      }
      var outcome := spill.Append(matches, append);
      match outcome
      case Failed => ok := false;
      case Full =>
        ok := RestoreSpilledWithCleanup(false, readFails, false);
        if ok {
          spill := null;
          if old(Valid()) { NothingSaved(matches, indexMap, blobMeta, blobs, dedupExact, mem, metaOf); }
        }
      case Written =>
        if old(Valid()) { PutAway(old(Saved()), matches, indexMap, blobMeta, blobs, dedupExact, mem, metaOf); }
        matches, indexMap, blobMeta := [], map[], map[];
    }

    method RestoreSpilled(readFails: bool, clearFails: bool) returns (ok: bool)
      requires Sane()
      modifies this`matches, this`indexMap, this`blobMeta, spill
      ensures Sane() && (old(Valid()) ==> Valid())
      ensures ok <==> old(Restored()) || (!readFails && old(Readable()) && !clearFails)
      ensures ok ==> Restored()
      ensures ok ==> matches == if old(Restored()) then old(matches) else Pool(old(Saved() + matches))
      ensures ok && old(Valid()) ==> matches == mem.rows
      ensures !ok ==> matches == old(matches) && Saved() == old(Saved())
    {
      hide Agrees, Pool;
      ok := RestoreSpilledWithCleanup(true, readFails, clearFails);
      if ok && old(Valid()) { NothingSaved(matches, indexMap, blobMeta, blobs, dedupExact, mem, metaOf); }
    }

    /** Copies validation results onto the last row of each (blob, span), where there is one. */
    method UpdateMatchesInPlace(updates: seq<Row>)
      requires Valid() && Restored()
      modifies this`matches, this`mem
      ensures Valid() && Restored() && matches == mem.rows
      ensures mem == old(mem).(rows := AllRevalidated(old(mem).rows, updates))
      ensures |matches| == |old(matches)|
      ensures forall i :: 0 <= i < |matches| ==> UpdatedAt(old(matches), updates, matches, i)
    {
      hide Agrees, Revalidated, LastIndex, UpdatedAt;
      assert Saved() == [];
      IndexInStep(matches, indexMap, blobMeta, blobs, dedupExact, mem, metaOf);
      NothingSaved(matches, indexMap, blobMeta, blobs, dedupExact, mem, metaOf);
      ghost var start := matches;
      for n := 0 to |updates|
        invariant matches == AllRevalidated(start, updates[..n]) && SameButValidation(start, matches)
        invariant indexMap == LastIndex(start) && mem == old(mem)
      {
        assert updates[..n + 1][..n] == updates[..n];
        SameIndexAndFirsts(start, matches);
        RevalidatedIs(matches, updates[n]);
        OnlyValidation(start, matches, Revalidated(matches, updates[n]));
        var u := updates[n];
        var key := (u.m.blobId, u.m.span);
        if key in indexMap {
          var idx := indexMap[key];
          matches := matches[idx := matches[idx].(m := matches[idx].m.(validation := u.m.validation))];
        }
      }
      assert updates[..|updates|] == updates;
      forall i | 0 <= i < |matches| ensures UpdatedAt(start, updates, matches, i) { UpdatesReach(start, updates, i); }
      Updated(start, matches, indexMap, blobMeta, blobs, dedupExact, mem, metaOf);
      mem := mem.(rows := matches);
    }

    /** Replaces the rows and rebuilds the index and the blob set. The metadata pool and the keys keep what they had. */
    method ReplaceMatches(rows: seq<Row>)
      requires Sane() && Restored()
      modifies this`matches, this`indexMap, this`blobs, this`mem
      ensures Sane() && matches == rows && indexMap == LastIndex(rows) && blobs == BlobsOf(rows)
      ensures old(Valid()) && metaOf.Some? && AllFit(metaOf, rows) ==> Valid() && mem == Replaced(old(mem), rows)
    {
      hide Agrees;
      if Valid() && metaOf.Some? && AllFit(metaOf, rows) {
        assert Saved() == [];
        ReplacedAgrees(matches, indexMap, blobMeta, blobs, dedupExact, mem, metaOf, rows);
      }
      mem := Replaced(mem, rows);
      matches, indexMap, blobs := rows, map[], {};
      for i := 0 to |rows|
        invariant matches == rows && indexMap == LastIndex(rows[..i]) && mem == Replaced(old(mem), rows)
        invariant blobs == BlobsOf(rows[..i])
      {
        assert rows[..i + 1][..i] == rows[..i];
        OneMoreBlob(rows, i);
        indexMap := indexMap[(rows[i].blob, rows[i].m.span) := i];
        blobs := blobs + {rows[i].blob};
      }
      assert rows[..|rows|] == rows;
    }

    /** Records another store's rows in chunks; the chunk boundaries make no difference. */
    method MergeFrom(other: Store, dedup: bool)
      requires Valid() && other != this && other.Restored() && AllFit(metaOf, other.matches)
      modifies this`matches, this`indexMap, this`blobs, this`dedupExact, this`blobMeta, this`mem
      ensures Valid() && mem == RecordAll(old(mem), other.matches, keyOf, dedup)
    {
      hide Agrees, RecordAll;
      var rows := other.matches;
      var n := 0;
      NoRecordAtAll(mem, keyOf, dedup);
      assert rows[..0] == [];
      while n < |rows|
        invariant n <= |rows| && Valid() && mem == RecordAll(old(mem), rows[..n], keyOf, dedup)
      {
        var end := if n + 1024 <= |rows| then n + 1024 else |rows|;
        var _ := Record(rows[n..end], dedup);
        assert rows[..end] == rows[..n] + rows[n..end];
        RecordAllConcat(old(mem), rows[..n], rows[n..end], keyOf, dedup);
        n := end;
      }
      assert rows[..n] == rows;
    }
  }

  lemma AboutRecordOne(m: Mem, x: Row, key: Key, dedup: bool)
    ensures dedup && key in m.keys ==> RecordOne(m, x, key, dedup) == m
  {
  }

  lemma OneMoreSeen(blobs: set<BlobId>, b: BlobId)
    ensures |blobs + {b}| == |blobs| + if b in blobs then 0 else 1
  {
    assert b in blobs ==> blobs + {b} == blobs;
  }

  lemma OneMoreBlob(rows: seq<Row>, i: nat)
    requires i < |rows|
    ensures BlobsOf(rows[..i + 1]) == BlobsOf(rows[..i]) + {rows[i].blob}
  {
    assert forall k :: 0 <= k < i ==> rows[..i + 1][k] == rows[..i][k];
    assert rows[..i + 1][i] == rows[i];
  }

  lemma Unconstrained(rows: seq<Row>)
    ensures AllFit(None, rows)
  {
  }

  lemma AboutRestored(store: Store)
    requires store.Valid() && store.metaOf == None && store.spill == null
    ensures store.matches == store.mem.rows && store.indexMap == LastIndex(store.matches)
    ensures MetaPool(store.blobMeta, store.matches)
  {
    assert [] + store.matches == store.matches;
  }

  // ----- every interleaving

  datatype Op =
    | RecordOp(batch: seq<Row>, dedup: bool)
    | MergeOp(rows: seq<Row>, dedup: bool)
    | UpdateOp(updates: seq<Row>)
    | ReplaceOp(rows: seq<Row>)
    | RulesOp(rules: set<nat>, keyOf: Row -> Key)
    | EnableOp(fault: Option<FaultKind>)
    | SpillOp(append: AppendFault, readFails: bool)
    | RestoreOp(readFails: bool, clearFails: bool)

  function NextKeys(keys: Row -> Key, op: Op): Row -> Key {
    if op.RulesOp? then op.keyOf else keys
  }

  /** What an operation means without any spilling. */
  function Applied(m: Mem, keys: Row -> Key, op: Op): (r: Mem) {
    match op
    case RecordOp(batch, dedup) => RecordAll(m, batch, keys, dedup)
    case MergeOp(rows, dedup) => RecordAll(m, rows, keys, dedup)
    case UpdateOp(updates) => m.(rows := AllRevalidated(m.rows, updates))
    case ReplaceOp(rows) => Replaced(m, rows)
    case _ => m
  }

  /** The key function in force after a script. */
  function KeysAfter(script: seq<Op>, keyOf: Row -> Key): Row -> Key {
    if script == [] then keyOf
    else NextKeys(KeysAfter(script[..|script| - 1], keyOf), script[|script| - 1])
  }

  /** What a script means without any spilling: recording, merging, updating and replacing a list. */
  function Replay(script: seq<Op>, keyOf: Row -> Key): (r: Mem) {
    if script == [] then EMPTY
    else
      var n := |script| - 1;
      Applied(Replay(script[..n], keyOf), KeysAfter(script[..n], keyOf), script[n])
  }

  lemma ReplayStep(script: seq<Op>, keyOf: Row -> Key, n: nat)
    requires n < |script|
    ensures (Replay(script[..n + 1], keyOf)
             == Applied(Replay(script[..n], keyOf), KeysAfter(script[..n], keyOf), script[n]))
    ensures KeysAfter(script[..n + 1], keyOf) == NextKeys(KeysAfter(script[..n], keyOf), script[n])
  {
    hide Applied, NextKeys;
    assert script[..n + 1][..n] == script[..n];
  }

  /** Rows that are replaced need metadata that depends on the blob only. */
  ghost predicate OpFits(metaOf: Option<BlobId -> nat>, op: Op) {
    match op
    case RecordOp(batch, _) => AllFit(metaOf, batch)
    case MergeOp(rows, _) => AllFit(metaOf, rows)
    case ReplaceOp(rows) => metaOf.Some? && AllFit(metaOf, rows)
    case _ => true
  }

  /** The source asserts that findings are in memory before it updates or replaces them. */
  predicate Runs(store: Store, op: Op)
    reads store, store.spill
  {
    op.UpdateOp? || op.ReplaceOp? ==> store.Restored()
  }

  method RunOp(store: Store, op: Op)
    requires store.Valid() && Runs(store, op) && OpFits(store.metaOf, op)
    modifies store, store.spill
    ensures store.Valid() && (store.spill == null || store.spill == old(store.spill) || fresh(store.spill))
    ensures store.keyOf == NextKeys(old(store.keyOf), op)
    ensures store.mem == Applied(old(store.mem), old(store.keyOf), op)
    ensures (match op
             case RecordOp(batch, dedup) => store.mem == RecordAll(old(store.mem), batch, store.keyOf, dedup)
             case MergeOp(rows, dedup) => store.mem == RecordAll(old(store.mem), rows, store.keyOf, dedup)
             case UpdateOp(updates) =>
               |store.matches| == |old(store.matches)|
               && forall i :: 0 <= i < |store.matches| ==> UpdatedAt(old(store.matches), updates, store.matches, i)
             case ReplaceOp(rows) => store.matches == rows
             case RulesOp(rules, keyOf) => store.rules == rules && store.keyOf == keyOf
             case _ => store.mem == old(store.mem))
  {
    hide Agrees, RecordAll, Store.Saved, Spill.Valid, Pool, AllRevalidated, AllFit, Replaced, UpdatedAt;
    match op
    case RecordOp(batch, dedup) => var _ := store.Record(batch, dedup);
    case MergeOp(rows, dedup) =>
      var other := new Store(store.keyOf, None);
      other.ReplaceMatches(rows);
      store.MergeFrom(other, dedup);
    case UpdateOp(updates) => store.UpdateMatchesInPlace(updates);
    case ReplaceOp(rows) => store.ReplaceMatches(rows);
    case RulesOp(rules, keys) => store.RecordRules(rules, keys);
    case EnableOp(fault) => var _ := store.EnableSpilling(fault);
    case SpillOp(append, readFails) => var _ := store.SpillPending(append, readFails);
    case RestoreOp(readFails, clearFails) => var _ := store.RestoreSpilled(readFails, clearFails);
  }

  lemma ValidStore(store: Store)
    requires store.Valid()
    ensures store.blobs == store.mem.blobs && store.dedupExact == store.mem.keys
    ensures store.Restored() ==> store.matches == store.mem.rows
  {
    assert store.Restored() ==> store.Saved() == [];
    assert [] + store.matches == store.matches;
  }

  /** Spilling is invisible: after any interleaving of recording, merging, updating, spilling and restoring, with
      any faults and any change of rules, a restored working set is exactly the in-memory store's rows, and the keys
      and blobs that decide later recordings are its keys and blobs. The same holds with replacing, as long as the
      metadata of a row depends on its blob only. Only updating or replacing findings that are not in memory stops a
      script: that is a programming error, and the source asserts against it. */
  method Execute(keyOf: Row -> Key, script: seq<Op>, ghost metaOf: Option<BlobId -> nat>)
    returns (store: Store, ran: nat)
    requires forall i :: 0 <= i < |script| ==> OpFits(metaOf, script[i])
    ensures ran <= |script|
    ensures ran < |script| ==> (script[ran].UpdateOp? || script[ran].ReplaceOp?) && !store.Restored()
    ensures fresh(store) && store.Valid() && store.keyOf == KeysAfter(script[..ran], keyOf)
    ensures store.Restored() ==> store.matches == Replay(script[..ran], keyOf).rows
    ensures store.dedupExact == Replay(script[..ran], keyOf).keys && store.blobs == Replay(script[..ran], keyOf).blobs
  {
    hide Agrees, Store.Valid, Applied, NextKeys, OpFits;
    store := new Store(keyOf, metaOf);
    ran := 0;
    while ran < |script| && Runs(store, script[ran])
      invariant ran <= |script|
      invariant fresh(store) && (store.spill != null ==> fresh(store.spill)) && store.Valid()
      invariant store.metaOf == metaOf
      invariant store.keyOf == KeysAfter(script[..ran], keyOf) && store.mem == Replay(script[..ran], keyOf)
    {
      ReplayStep(script, keyOf, ran);
      RunOp(store, script[ran]);
      ran := ran + 1;
    }
    ValidStore(store);
  }

  // ----- when spilling shows

  /** The replacing rows are of the store: their metadata is the pool's. */
  ghost predicate FromPool(pool: Metas, rows: seq<Row>) {
    forall i :: 0 <= i < |rows| ==> rows[i].blob in pool && pool[rows[i].blob] == rows[i].meta
  }

  lemma {:induction false} FirstMetaFromPool(pool: Metas, rows: seq<Row>, blob: BlobId)
    requires FromPool(pool, rows) && FirstMeta(rows, blob).Some?
    ensures blob in pool && FirstMeta(rows, blob).value == pool[blob]
  {
    var n := |rows| - 1;
    if FirstMeta(rows[..n], blob).Some? { FirstMetaFromPool(pool, rows[..n], blob); }
  }

  lemma {:induction false} PoolFromPool(pool: Metas, rows: seq<Row>)
    requires FromPool(pool, rows)
    ensures Pool(rows) == rows
  {
    if rows != [] {
      var n := |rows| - 1;
      PoolFromPool(pool, rows[..n]);
      if FirstMeta(rows[..n], rows[n].blob).Some? { FirstMetaFromPool(pool, rows[..n], rows[n].blob); }
      assert rows == rows[..n] + [rows[n]];
    }
  }

  /** After a replacement a store that never spills records a row with its old pool; one that spills first, and
      restores afterwards, shares what its rows have. That shows exactly when the old pool has other metadata of the
      row's blob and no replacing row has that blob. */
  lemma SpillingShows(m: Mem, rows: seq<Row>, x: Row, key: Key)
    requires FromPool(m.pool, rows)
    ensures (RecordOne(Replaced(m, rows), x, key, false).rows != Pool(rows + [x]) <==>
             x.blob in m.pool && m.pool[x.blob] != x.meta && forall i :: 0 <= i < |rows| ==> rows[i].blob != x.blob)
  {
    hide Pool;
    PoolFromPool(m.pool, rows);
    PoolSnoc(rows, x);
    if FirstMeta(rows, x.blob).Some? { FirstMetaFromPool(m.pool, rows, x.blob); }
    var with, without := PooledWith(rows, x), Shared(m.pool, x);
    assert (rows + [with])[|rows|] == with && (rows + [without])[|rows|] == without;
  }

  /** Two rows of one blob with different metadata, and one of another blob. */
  const FIRST: Row := Row(0, 7, 1, Match(7, 0, 0, 0, 0))
  const LATER: Row := Row(0, 7, 2, Match(7, 0, 0, 0, 0))
  const OTHER: Row := Row(0, 8, 0, Match(8, 0, 0, 0, 0))

  /** Records the first two, and replaces them by the one of the other blob. */
  method RecordAndReplace(store: Store)
    requires store.Sane() && store.spill == null && store.matches == [] && store.blobMeta == map[]
    modifies store`matches, store`indexMap, store`blobs, store`dedupExact, store`blobMeta, store`mem
    ensures store.matches == [OTHER] && store.blobMeta == map[7 := 1, 8 := 0] && store.Sane()
  {
    var _ := store.RecordRow(FIRST, false);
    assert store.blobMeta == map[7 := 1];
    var _ := store.RecordRow(OTHER, false);
    store.ReplaceMatches([OTHER]);
  }

  /** A script after which spilling shows: one store spills before it records again, the other never does. */
  method ReplacementShows(keyOf: Row -> Key) returns (spilled: Store, plain: Store)
    ensures spilled.Restored() && plain.Restored() && spilled.matches == [OTHER, LATER]
    ensures |plain.matches| == 2 && plain.matches[1].meta == 1 != LATER.meta
  {
    hide Agrees, Pool;
    plain := new Store(keyOf, None);
    RecordAndReplace(plain);
    var _ := plain.RecordRow(LATER, false);
    spilled := SpillingStore(keyOf);
  }

  method SpillingStore(keyOf: Row -> Key) returns (store: Store)
    ensures fresh(store) && store.Restored() && store.matches == [OTHER, LATER]
  {
    hide Agrees, Pool, Shared, Noted, Spill.Valid;
    store := new Store(keyOf, None);
    store.RecordRules({0}, keyOf);
    RecordAndReplace(store);
    PutAwayFirst(store);
    var _ := store.RecordRow(LATER, false);
    AloneInMemory();
    assert store.Saved() + store.matches == [OTHER] + [LATER];
    var _ := store.RestoreSpilled(false, false);
    PoolOfTwo();
  }

  method PutAwayFirst(store: Store)
    requires store.Sane() && store.spill == null && store.matches == [OTHER] && store.rules == {0}
    modifies store`spill, store`matches, store`indexMap, store`blobMeta
    ensures store.Sane() && store.Readable() && !store.Restored() && fresh(store.spill)
    ensures store.matches == [] && store.blobMeta == map[] && store.Saved() == [OTHER]
  {
    hide Agrees, Pool;
    var _ := store.EnableSpilling(None);
    var _ := store.SpillPending(NoFault, false);
  }

  lemma AloneInMemory()
    ensures Shared(map[], LATER) == LATER
  {
  }

  lemma PoolOfTwo()
    ensures Pool([OTHER] + [LATER]) == [OTHER, LATER]
  {
    PoolSnoc([OTHER], LATER);
    assert [OTHER][..0] == [];
    assert FirstMeta([OTHER], 7) == None;
    assert Pool([OTHER]) == [OTHER];
  }
}
