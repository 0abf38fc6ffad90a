/**
 * The content prepass of an enumeration: which blobs are worth walking the history for.
 *
 * The gate never sees paths or commits, and the enumeration never sees contents. Together
 * they must lose no blob in which the matcher could find something.
 */
module Prepass {
  import BStringTable
  import opened Base64Gate
  import opened Bytes
  import opened CandidateSummaries
  import opened CommitGraph
  import opened ContentGates
  import opened Enumerator
  import opened GitObjects
  import opened ObjectIds
  import opened RepositoryIndex
  import opened UnicodeGate
  import opened Wrappers

  /** The gate as it is set up, and the size from which blobs are not scanned at all. */
  datatype Setup = Setup(gate: Gate, chunking: Chunking, scan: Scanner, archive: seq<Byte> -> bool,
                         maxBlobSize: Option<nat>)

  /** What the object database says of a blob: the size in its header and its contents, where readable. */
  datatype Blobs = Blobs(size: Oid -> Option<nat>, contents: Oid -> Option<seq<Byte>>)

  ghost predicate Passes(s: Setup, b: seq<Byte>)
    requires Workable(s.chunking)
  {
    Keeps(s.gate, s.chunking, s.scan, s.archive, b)
  }

  /** A blob within the limit is kept when it is expensive to look at, cannot be read, or passes the gate. */
  ghost predicate Chosen(s: Setup, blobs: Blobs, o: Oid)
    requires Workable(s.chunking)
  {
    && (blobs.size(o).Some? && s.maxBlobSize.Some? ==> blobs.size(o).value <= s.maxBlobSize.value)
    && (|| (blobs.size(o).Some? && blobs.size(o).value > MAX_PREPASS_BLOB_BYTES)
        || blobs.contents(o).None?
        || Passes(s, blobs.contents(o).value))
  }

  /** Goes through the indexed blobs and keeps the positions of those chosen. */
  method RetainContentCandidates(s: Setup, blobs: Blobs, ids: seq<Oid>) returns (keep: set<nat>)
    requires Workable(s.chunking)
    ensures forall i :: i in keep <==> 0 <= i < |ids| && Chosen(s, blobs, ids[i])
  {
    hide Keeps;
    keep := {};
    for i := 0 to |ids|
      invariant forall k :: k in keep <==> 0 <= k < i && Chosen(s, blobs, ids[k])
    {
      var o := ids[i];
      if blobs.size(o).Some? && s.maxBlobSize.Some? && blobs.size(o).value > s.maxBlobSize.value {
        continue;
      }
      if blobs.size(o).Some? && blobs.size(o).value > MAX_PREPASS_BLOB_BYTES {
        keep := keep + {i};
        continue;
      }
      var chosen := true;
      if blobs.contents(o).Some? {
        chosen := MayMatch(s.gate, s.chunking, s.scan, s.archive, blobs.contents(o).value);
      }
      if chosen {
        keep := keep + {i};
      }
    }
  }

  /** The filter answers for each blob as the gate does. */
  ghost predicate Answers(filter: ContentFilter, s: Setup, blobs: Blobs)
    requires Workable(s.chunking)
  {
    && filter.maxBlobSize == s.maxBlobSize
    && forall o :: filter.probe(o) == Probe(blobs.size(o), if blobs.contents(o).None? then None
                                                           else Some(Passes(s, blobs.contents(o).value)))
  }

  /** The enumeration's filter retains exactly the blobs that the prepass chooses. */
  lemma RetainedAreChosen(filter: ContentFilter, s: Setup, blobs: Blobs, o: Oid)
    requires Workable(s.chunking) && Answers(filter, s, blobs)
    ensures Retains(filter, o) <==> Chosen(s, blobs, o)
  {
    hide Passes;
  }

  // ----- what must not be lost

  /** The matcher could find something: decoded text, a match no longer than the overlap and one byte, or
      Base64 text. */
  ghost predicate Worthwhile(s: Setup, matches: Matches, b: seq<Byte>) {
    || Detect(b).Some?
    || (b != [] && exists rule: nat, i: nat, j: nat ::
          rule < s.gate.rules && ContentGates.Holds(matches, rule, b, i, j) && j - i <= s.chunking.overlap + 1)
    || (s.gate.base64 && (s.gate.unlimited || |b| <= BASE64_SCAN_LIMIT)
        && exists x: nat, e: nat, t: nat, p: seq<Byte> :: DecoderKeeps(b, x, e, t, p))
  }

  lemma WorthwhilePasses(s: Setup, matches: Matches, b: seq<Byte>)
    requires Workable(s.chunking) && FindsWindows(s.scan, matches) && Worthwhile(s, matches, b)
    ensures Passes(s, b)
  {
    hide Keeps, FindsWindows, Detect, ContentGates.Holds, DecoderKeeps;
    if !Keeps(s.gate, s.chunking, s.scan, s.archive, b) {
      RejectedHoldsNothing(s.gate, s.chunking, s.scan, s.archive, matches, b);
    }
  }

  /** A scannable blob within the size limit is yielded if the matcher could find something in it, or if its
      contents cannot be read. */
  lemma WorthwhileIsYielded(objects: seq<Header>, filter: ContentFilter, minimumBlobs: nat, s: Setup, blobs: Blobs,
                            matches: Matches, o: Oid)
    requires Workable(s.chunking) && Answers(filter, s, blobs) && FindsWindows(s.scan, matches)
    requires o in IdsOf(objects, BlobKind)
    requires blobs.size(o).Some? && s.maxBlobSize.Some? ==> blobs.size(o).value <= s.maxBlobSize.value
    requires blobs.contents(o).Some? ==> Worthwhile(s, matches, blobs.contents(o).value)
    ensures o in Yielded(objects, Some(filter), minimumBlobs)
  {
    hide Worthwhile, Passes, Answers, IdsOf, Retains;
    if blobs.contents(o).Some? { WorthwhilePasses(s, matches, blobs.contents(o).value); }
    RetainedAreChosen(filter, s, blobs, o);
    var all := IdsOf(objects, BlobKind);
    var i :| 0 <= i < |all| && all[i] == o;
    SelectAt(all, Retained(filter, all), i);
  }

  /** Whatever the prepass looked at and found too large, or was told by the gate to leave out, is not yielded. */
  lemma RejectedIsNotYielded(objects: seq<Header>, filter: ContentFilter, minimumBlobs: nat, s: Setup, blobs: Blobs,
                             o: Oid)
    requires Workable(s.chunking) && Answers(filter, s, blobs) && |IdsOf(objects, BlobKind)| >= minimumBlobs
    requires blobs.size(o).Some?
    requires || (s.maxBlobSize.Some? && blobs.size(o).value > s.maxBlobSize.value)
             || (blobs.size(o).value <= MAX_PREPASS_BLOB_BYTES && blobs.contents(o).Some?
                 && !Passes(s, blobs.contents(o).value))
    ensures o !in Yielded(objects, Some(filter), minimumBlobs)
  {
    hide Passes;
    var all := IdsOf(objects, BlobKind);
    if o in Yielded(objects, Some(filter), minimumBlobs) {
      var k :| 0 <= k < |Select(all, Retained(filter, all))| && Select(all, Retained(filter, all))[k] == o;
      var i := SelectFrom(all, Retained(filter, all), k);
    }
  }

  /** So the enumeration, pruned or not, lists every such blob with all its appearances. */
  method RunGated(objects: seq<Header>, store: map<Oid, seq<Entry>>, commits: map<Oid, Commit>, filter: ContentFilter,
                  minimumBlobs: nat, others: CandidateSummaries.Context -> Schedule,
                  ghost s: Setup, ghost blobs: Blobs, ghost matches: Matches)
    returns (out: Option<seq<GitBlobMetadata>>)
    requires forall cx :: Obeys(cx, others(cx))
    requires Workable(s.chunking) && Answers(filter, s, blobs) && FindsWindows(s.scan, matches)
    ensures out.None? ==> BStringTable.Overfull(NamesOf(store))
    ensures (out.Some? ==>
               forall o {:trigger EagerAppearances(objects, store, commits, o)} ::
                 o in IdsOf(objects, BlobKind)
                 && (blobs.size(o).Some? && s.maxBlobSize.Some? ==> blobs.size(o).value <= s.maxBlobSize.value)
                 && (blobs.contents(o).Some? ==> Worthwhile(s, matches, blobs.contents(o).value)) ==>
                   GitBlobMetadata(o, EagerAppearances(objects, store, commits, o)) in out.value)
  {
    hide Worthwhile, Answers, FindsWindows, IdsOf, EagerAppearances, Yielded;
    out := Enumerator.Run(objects, store, commits, Some(filter), minimumBlobs, others);
    if out.Some? {
      var ids := Yielded(objects, Some(filter), minimumBlobs);
      forall o | o in IdsOf(objects, BlobKind)
                 && (blobs.size(o).Some? && s.maxBlobSize.Some? ==> blobs.size(o).value <= s.maxBlobSize.value)
                 && (blobs.contents(o).Some? ==> Worthwhile(s, matches, blobs.contents(o).value))
        ensures GitBlobMetadata(o, EagerAppearances(objects, store, commits, o)) in out.value
      {
        WorthwhileIsYielded(objects, filter, minimumBlobs, s, blobs, matches, o);
        var i :| 0 <= i < |ids| && ids[i] == o;
        assert out.value[i] == GitBlobMetadata(o, EagerAppearances(objects, store, commits, o));
      }
    }
  }
}
