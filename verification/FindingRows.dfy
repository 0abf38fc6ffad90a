/** The findings store as a plain list: what recording means, without any spilling. */
module FindingRows {
  import opened Wrappers

  type BlobId = nat
  type Key = nat

  /** The part of a match the store looks at. `content` and `validation` stand for the rest. */
  datatype Match = Match(blobId: BlobId, span: nat, ruleId: nat, content: nat, validation: nat)

  /** One stored finding: its origins, its blob with that blob's metadata, and the match. */
  datatype Row = Row(origins: nat, blob: BlobId, meta: nat, m: Match)

  /** The metadata shared by rows, by blob. */
  type Metas = map<BlobId, nat>

  /** The in-memory store: rows in order, the digests seen, the blobs seen, and the metadata shared by later rows. */
  datatype Mem = Mem(rows: seq<Row>, keys: set<Key>, blobs: set<BlobId>, pool: Metas)

  const EMPTY: Mem := Mem([], {}, {}, map[])

  /** The metadata of the first row of a blob: later rows of the same blob share it. */
  function FirstMeta(rows: seq<Row>, blob: BlobId): (r: Option<nat>)
    ensures r.Some? <==> exists i :: 0 <= i < |rows| && rows[i].blob == blob
  {
    if rows == [] then None
    else
      var rest := FirstMeta(rows[..|rows| - 1], blob);
      if rest.Some? then rest
      else if rows[|rows| - 1].blob == blob then Some(rows[|rows| - 1].meta)
      else None
  }

  function PooledWith(rows: seq<Row>, x: Row): (r: Row) {
    var first := FirstMeta(rows, x.blob);
    if first.Some? then x.(meta := first.value) else x
  }

  /** The rows with every blob's metadata shared from its first row. */
  function Pool(rows: seq<Row>): (r: seq<Row>)
    ensures |r| == |rows|
  {
    if rows == [] then []
    else Pool(rows[..|rows| - 1]) + [PooledWith(rows[..|rows| - 1], rows[|rows| - 1])]
  }

  /** The pool after a row: the first metadata of a blob stays. */
  function Noted(pool: Metas, x: Row): (r: Metas)
    ensures x.blob in r
  {
    if x.blob in pool then pool else pool[x.blob := x.meta]
  }

  /** The row as it is stored, with the pool's metadata. */
  function Shared(pool: Metas, x: Row): (r: Row) {
    x.(meta := Noted(pool, x)[x.blob])
  }

  function RecordOne(m: Mem, x: Row, key: Key, dedup: bool): (r: Mem) {
    if dedup && key in m.keys then m
    else Mem(m.rows + [Shared(m.pool, x)], if dedup then m.keys + {key} else m.keys, m.blobs + {x.blob},
             Noted(m.pool, x))
  }

  function RecordAll(m: Mem, batch: seq<Row>, keyOf: Row -> Key, dedup: bool): (r: Mem) {
    if batch == [] then m
    else
      var n := |batch| - 1;
      RecordOne(RecordAll(m, batch[..n], keyOf, dedup), batch[n], keyOf(batch[n]), dedup)
  }

  /** The pool is the first metadata of each blob among the rows. */
  ghost predicate MetaPool(meta: Metas, rows: seq<Row>) {
    forall id :: FirstMeta(rows, id) == if id in meta then Some(meta[id]) else None
  }

  // ----- pooling

  lemma PoolSnoc(rows: seq<Row>, x: Row)
    ensures Pool(rows + [x]) == Pool(rows) + [PooledWith(rows, x)]
  {
    assert (rows + [x])[..|rows|] == rows;
  }

  lemma FirstMetaSnoc(rows: seq<Row>, x: Row, blob: BlobId)
    ensures FirstMeta(rows + [x], blob)
         == if FirstMeta(rows, blob).Some? then FirstMeta(rows, blob) else if x.blob == blob then Some(x.meta) else None
  {
    assert (rows + [x])[..|rows|] == rows;
  }

  /** What pooling means: every row has the metadata of the first row of its blob, and is as it was otherwise. */
  lemma {:induction false} PoolShares(rows: seq<Row>, i: nat) returns (first: nat)
    requires i < |rows|
    ensures first <= i && rows[first].blob == rows[i].blob
    ensures forall k :: 0 <= k < first ==> rows[k].blob != rows[i].blob
    ensures Pool(rows)[i] == rows[i].(meta := rows[first].meta)
  {
    var n := |rows| - 1;
    if i < n {
      first := PoolShares(rows[..n], i);
    } else {
      first := FirstRow(rows[..n], rows[n].blob);
    }
  }

  lemma {:induction false} FirstRow(rows: seq<Row>, blob: BlobId) returns (first: nat)
    ensures first <= |rows| && forall k :: 0 <= k < first ==> rows[k].blob != blob
    ensures FirstMeta(rows, blob) == if first < |rows| then Some(rows[first].meta) else None
    ensures first < |rows| ==> rows[first].blob == blob
  {
    first := 0;
    if rows != [] {
      var n := |rows| - 1;
      first := FirstRow(rows[..n], blob);
      if first == n && rows[n].blob != blob {
        first := n + 1;
      }
    }
  }

  /** Every row recorded is of a blob known from then on. */
  lemma {:induction false} RecordedBlobs(m: Mem, batch: seq<Row>, keyOf: Row -> Key, dedup: bool)
    requires forall i :: 0 <= i < |m.rows| ==> m.rows[i].blob in m.blobs
    ensures var r := RecordAll(m, batch, keyOf, dedup);
      && (forall i :: 0 <= i < |r.rows| ==> r.rows[i].blob in r.blobs)
      && (forall b :: b in r.blobs <==> b in m.blobs || exists i :: |m.rows| <= i < |r.rows| && r.rows[i].blob == b)
      && |m.rows| <= |r.rows| && m.blobs <= r.blobs
  {
    if batch != [] {
      var n := |batch| - 1;
      RecordedBlobs(m, batch[..n], keyOf, dedup);
      var q, r := RecordAll(m, batch[..n], keyOf, dedup), RecordAll(m, batch, keyOf, dedup);
      assert forall i :: 0 <= i < |q.rows| ==> r.rows[i] == q.rows[i];
      forall b ensures b in r.blobs <==> b in m.blobs || exists i :: |m.rows| <= i < |r.rows| && r.rows[i].blob == b {
        if i :| |m.rows| <= i < |q.rows| && q.rows[i].blob == b { assert r.rows[i].blob == b; }
        if |r.rows| > |q.rows| { assert r.rows[|q.rows|].blob == batch[n].blob; }
      }
    }
  }

  /** Sharing with the pool is sharing with the rows, as long as the pool is that of the rows. */
  lemma MetaPoolSnoc(meta: Metas, rows: seq<Row>, x: Row)
    requires MetaPool(meta, rows)
    ensures Shared(meta, x) == PooledWith(rows, x) && MetaPool(Noted(meta, x), rows + [Shared(meta, x)])
  {
    assert FirstMeta(rows, x.blob) == if x.blob in meta then Some(meta[x.blob]) else None;
    var meta' := Noted(meta, x);
    forall id ensures FirstMeta(rows + [Shared(meta, x)], id) == if id in meta' then Some(meta'[id]) else None {
      FirstMetaSnoc(rows, Shared(meta, x), id);
    }
  }

  /** Two row lists agree up to sharing when they hold the same findings and the same first
      metadata for each blob; then they pool to the same list. */
  ghost predicate SameFirsts(a: seq<Row>, b: seq<Row>) {
    && |a| == |b|
    && forall id {:trigger FirstMeta(a, id)} {:trigger FirstMeta(b, id)} :: FirstMeta(a, id) == FirstMeta(b, id)
  }

  lemma {:induction false} PoolKeepsFirsts(rows: seq<Row>)
    ensures SameFirsts(Pool(rows), rows)
  {
    if rows != [] {
      var n := |rows| - 1;
      assert rows == rows[..n] + [rows[n]];
      PoolKeepsFirsts(rows[..n]);
      var x, y := rows[n], PooledWith(rows[..n], rows[n]);
      forall id ensures FirstMeta(Pool(rows), id) == FirstMeta(rows, id) {
        FirstMetaSnoc(rows[..n], x, id);
        FirstMetaSnoc(Pool(rows[..n]), y, id);
      }
    }
  }

  /** Pooling part of the list first makes no difference. */
  lemma {:induction false} PoolAbsorbs(a: seq<Row>, b: seq<Row>)
    ensures Pool(Pool(a) + b) == Pool(a + b)
    ensures SameFirsts(Pool(a) + b, a + b)
  {
    if b == [] {
      assert Pool(a) + b == Pool(a) && a + b == a;
      PoolIdempotent(a);
      PoolKeepsFirsts(a);
    } else {
      var n := |b| - 1;
      assert b == b[..n] + [b[n]];
      PoolAbsorbs(a, b[..n]);
      assert Pool(a) + b == (Pool(a) + b[..n]) + [b[n]] && a + b == (a + b[..n]) + [b[n]];
      PoolSnoc(Pool(a) + b[..n], b[n]);
      PoolSnoc(a + b[..n], b[n]);
      forall id ensures FirstMeta(Pool(a) + b, id) == FirstMeta(a + b, id) {
        FirstMetaSnoc(Pool(a) + b[..n], b[n], id);
        FirstMetaSnoc(a + b[..n], b[n], id);
      }
    }
  }

  lemma {:induction false} PoolIdempotent(rows: seq<Row>)
    ensures Pool(Pool(rows)) == Pool(rows)
  {
    if rows != [] {
      var n := |rows| - 1;
      PoolIdempotent(rows[..n]);
      PoolKeepsFirsts(rows[..n]);
      PoolSnoc(Pool(rows[..n]), PooledWith(rows[..n], rows[n]));
    }
  }

  /** A finding recorded after part of the list was put away, sharing metadata only with what is
      still in memory, pools to what the full list would have recorded. */
  lemma PoolOfSplit(saved: seq<Row>, pending: seq<Row>, x: Row)
    ensures Pool(saved + (pending + [PooledWith(pending, x)]))
         == Pool(saved + pending) + [PooledWith(Pool(saved + pending), x)]
  {
    var y := PooledWith(pending, x);
    assert saved + (pending + [y]) == (saved + pending) + [y];
    PoolSnoc(saved + pending, y);
    PoolKeepsFirsts(saved + pending);
    if FirstMeta(pending, x.blob).Some? { KnownInPart(saved, pending, x.blob); }
  }

  lemma KnownInPart(saved: seq<Row>, pending: seq<Row>, blob: BlobId)
    requires FirstMeta(pending, blob).Some?
    ensures FirstMeta(saved + pending, blob).Some?
  {
    var i :| 0 <= i < |pending| && pending[i].blob == blob;
    assert (saved + pending)[|saved| + i].blob == blob;
  }

  // ----- recording

  lemma {:induction false} RecordAllConcat(m: Mem, a: seq<Row>, b: seq<Row>, keyOf: Row -> Key, dedup: bool)
    ensures RecordAll(m, a + b, keyOf, dedup) == RecordAll(RecordAll(m, a, keyOf, dedup), b, keyOf, dedup)
  {
    if b == [] {
      assert a + b == a;
    } else {
      var n := |b| - 1;
      assert (a + b)[..|a + b| - 1] == a + b[..n];
      RecordAllConcat(m, a, b[..n], keyOf, dedup);
    }
  }

  /** Recording without deduplication appends the batch and shares metadata. */
  lemma {:induction false} PlainRecordAppends(m: Mem, batch: seq<Row>, keyOf: Row -> Key)
    requires Pool(m.rows) == m.rows && MetaPool(m.pool, m.rows)
    ensures (var r := RecordAll(m, batch, keyOf, false);
             r.rows == Pool(m.rows + batch) && MetaPool(r.pool, r.rows))
  {
    hide Pool, PooledWith, FirstMeta, MetaPool, Shared, Noted;
    if batch == [] {
      assert m.rows + batch == m.rows;
    } else {
      var n := |batch| - 1;
      PlainRecordAppends(m, batch[..n], keyOf);
      assert m.rows + batch == (m.rows + batch[..n]) + [batch[n]];
      PoolExtends(m.rows + batch[..n], batch[n]);
      var before := RecordAll(m, batch[..n], keyOf, false);
      MetaPoolSnoc(before.pool, before.rows, batch[n]);
    }
  }

  /** Sharing with the raw rows is sharing with the pooled ones. */
  lemma PoolExtends(rows: seq<Row>, x: Row)
    ensures Pool(rows + [x]) == Pool(rows) + [PooledWith(Pool(rows), x)]
  {
    hide FirstMeta;
    PoolSnoc(rows, x);
    PoolKeepsFirsts(rows);
    assert FirstMeta(Pool(rows), x.blob) == FirstMeta(rows, x.blob);
  }

  /** The key is already known or occurs earlier in the batch. */
  predicate Occurs(batch: seq<Row>, keyOf: Row -> Key, seen: set<Key>, key: Key) {
    key in seen || exists i :: 0 <= i < |batch| && keyOf(batch[i]) == key
  }

  /** The rows whose key has not occurred before, in order. */
  function FirstOccurrences(batch: seq<Row>, keyOf: Row -> Key, seen: set<Key>): (r: seq<Row>)
    decreases |batch|
  {
    if batch == [] then []
    else
      var n := |batch| - 1;
      var rest := FirstOccurrences(batch[..n], keyOf, seen);
      if Occurs(batch[..n], keyOf, seen, keyOf(batch[n])) then rest else rest + [batch[n]]
  }

  lemma {:induction false} RecordedKeys(m: Mem, batch: seq<Row>, keyOf: Row -> Key, k: Key)
    ensures k in RecordAll(m, batch, keyOf, true).keys <==> Occurs(batch, keyOf, m.keys, k)
  {
    if batch != [] {
      var n := |batch| - 1;
      RecordedKeys(m, batch[..n], keyOf, k);
      assert Occurs(batch, keyOf, m.keys, k) <==> Occurs(batch[..n], keyOf, m.keys, k) || keyOf(batch[n]) == k by {
        forall i | 0 <= i < n ensures batch[..n][i] == batch[i] {}
      }
    }
  }

  /** Deduplicating record keeps exactly the first occurrence of each new key, in order. */
  lemma {:induction false} DedupKeepsFirsts(m: Mem, batch: seq<Row>, keyOf: Row -> Key)
    requires Pool(m.rows) == m.rows && MetaPool(m.pool, m.rows)
    ensures (var r := RecordAll(m, batch, keyOf, true);
             r.rows == Pool(m.rows + FirstOccurrences(batch, keyOf, m.keys)) && MetaPool(r.pool, r.rows))
  {
    hide Pool, PooledWith, FirstMeta, MetaPool, Shared, Noted;
    if batch == [] {
      assert m.rows + FirstOccurrences(batch, keyOf, m.keys) == m.rows;
    } else {
      var n := |batch| - 1;
      DedupKeepsFirsts(m, batch[..n], keyOf);
      RecordedKeys(m, batch[..n], keyOf, keyOf(batch[n]));
      var kept := FirstOccurrences(batch[..n], keyOf, m.keys);
      if !Occurs(batch[..n], keyOf, m.keys, keyOf(batch[n])) {
        assert m.rows + (kept + [batch[n]]) == (m.rows + kept) + [batch[n]];
        PoolExtends(m.rows + kept, batch[n]);
        var before := RecordAll(m, batch[..n], keyOf, true);
        MetaPoolSnoc(before.pool, before.rows, batch[n]);
      }
    }
  }

  /** Recording the same batch again with deduplication changes nothing. */
  lemma {:induction false} DedupIsIdempotent(m: Mem, batch: seq<Row>, keyOf: Row -> Key)
    ensures var once := RecordAll(m, batch, keyOf, true); RecordAll(once, batch, keyOf, true) == once
  {
    var once := RecordAll(m, batch, keyOf, true);
    forall i | 0 <= i < |batch| ensures keyOf(batch[i]) in once.keys { RecordedKeys(m, batch, keyOf, keyOf(batch[i])); }
    KnownChangesNothing(once, batch, keyOf);
  }

  lemma {:induction false} KnownChangesNothing(m: Mem, batch: seq<Row>, keyOf: Row -> Key)
    requires forall i :: 0 <= i < |batch| ==> keyOf(batch[i]) in m.keys
    ensures RecordAll(m, batch, keyOf, true) == m
  {
    if batch != [] { KnownChangesNothing(m, batch[..|batch| - 1], keyOf); }
  }
}
