/**
 * Downloading one Cloud Storage object while it may be replaced between any two requests.
 *
 * A positive generation pins the bytes that are asked for. Without one the object is
 * asked for as it is, and then a label taken from older metadata may not be its own.
 */
module GcsDownload {
  import opened AzureDownload
  import opened Bytes
  import opened Fingerprints
  import opened ObjectCaches
  import opened Wrappers

  datatype Metadata = Metadata(generation: int, etag: string, updated: Option<string>, size: int)

  datatype Stored = Stored(metadata: Metadata, content: Content)

  /** What the object is at each moment. */
  type History = nat -> Option<Stored>

  function ObjectVersionOf(o: Metadata): ObjectVersion {
    ObjectVersion(if o.generation > 0 then Some(TextOf(o.generation, 10))
                  else if o.etag != "" then Some(o.etag) else None,
                  o.updated, if o.size >= 0 then Some(o.size) else None)
  }

  /** Labels are equal only for metadata that agree in all that a listing shows of a version. */
  lemma SameLabel(a: Metadata, b: Metadata)
    requires ObjectVersionOf(a) == ObjectVersionOf(b)
    ensures a.updated == b.updated && (a.size == b.size || (a.size < 0 && b.size < 0))
    ensures a.generation > 0 && b.generation > 0 ==> a.generation == b.generation
    ensures a.generation <= 0 && b.generation <= 0 ==> a.etag == b.etag
  {
    if a.generation > 0 && b.generation > 0 { TextIsInjective(a.generation, b.generation); }
  }

  /** A generation is never used for two versions of the object. */
  ghost predicate UniqueGenerations(h: History) {
    forall t, u :: h(t).Some? && h(u).Some? && h(t).value.metadata.generation == h(u).value.metadata.generation > 0 ==>
      h(t) == h(u)
  }

  /** The metadata and the bytes belonged together at some moment. */
  ghost predicate Together(h: History, o: Metadata, content: Content) {
    exists t :: h(t) == Some(Stored(o, content))
  }

  /** The metadata was the object's own at some moment. */
  ghost predicate Seen(h: History, o: Metadata) {
    exists t :: h(t).Some? && h(t).value.metadata == o
  }

  // ----- the server

  /** What a request for the object with this metadata may get: its generation, if it has one. */
  ghost predicate MayAnswer(h: History, o: Metadata, t: nat, content: Content) {
    h(t).Some? && h(t).value.content == content && (o.generation > 0 ==> h(t).value.metadata.generation == o.generation)
  }

  /** Part of such an answer. */
  ghost predicate MayBegin(h: History, o: Metadata, t: nat, content: Content) {
    && h(t).Some? && content <= h(t).value.content
    && (o.generation > 0 ==> h(t).value.metadata.generation == o.generation)
  }

  /** The object, or the generation of it that was asked for, is not there. */
  ghost predicate Gone(h: History, o: Metadata, t: nat) {
    h(t).None? || (o.generation > 0 && h(t).value.metadata.generation != o.generation)
  }

  predicate TooLargeFor(limit: Option<nat>, o: Metadata) {
    ObjectVersionOf(o).size.Some? && Exceeds(limit, ObjectVersionOf(o).size.value)
  }

  /** Why nothing is returned: too large by its metadata or its bytes, gone, or replaced again. */
  ghost predicate MaySkip(h: History, o: Metadata, limit: Option<nat>, requests: int) {
    || (limit.Some? && o.size > limit.value)
    || (exists t :: h(t).Some? && limit.Some? && |h(t).value.content| > limit.value)
    || (exists t :: h(t) == None)
    || (requests == 3 && exists t :: Gone(h, o, t))
  }

  datatype Stream = Streaming(chunks: seq<Content>, breaksOff: bool) | Disappeared | Refused

  datatype Refresh = Current(o: Metadata) | NoneLeft | Denied

  class Server {
    const history: History
    var now: nat
    var requests: nat
    var faults: nat

    constructor(history: History)
      ensures this.history == history
    {
      this.history := history;
      now, requests, faults := 0, 0, 0;
    }

    method Download(o: Metadata) returns (s: Stream, ghost t: nat)
      modifies this
      ensures requests == old(requests) + 1
      ensures faults == old(faults) + if s.Refused? || (s.Streaming? && s.breaksOff) then 1 else 0
      ensures s.Streaming? && !s.breaksOff ==> MayAnswer(history, o, t, Flat(s.chunks))
      ensures s.Streaming? ==> MayBegin(history, o, t, Flat(s.chunks))
      ensures s.Disappeared? ==> Gone(history, o, t)
    {
      var later :| later >= now;
      now, requests := later, requests + 1;
      t := now;
      if * {
        faults := faults + 1;
        return Refused, t;
      }
      var r := history(now);
      if r.None? || (o.generation > 0 && r.value.metadata.generation != o.generation) {
        return Disappeared, t;
      }
      var chunks: seq<Content> := *;
      var breaksOff: bool := *;
      if !(Flat(chunks) == r.value.content || (breaksOff && Flat(chunks) <= r.value.content)) {
        chunks := [r.value.content];
        assert chunks[..0] == [];
      }
      if breaksOff {
        faults := faults + 1;
      }
      return Streaming(chunks, breaksOff), t;
    }

    method GetObject() returns (r: Refresh)
      modifies this
      ensures requests == old(requests) + 1
      ensures faults == old(faults) + if r.Denied? then 1 else 0
      ensures r.Current? ==> Seen(history, r.o)
      ensures r.NoneLeft? ==> exists t :: history(t) == None
    {
      var later :| later >= now;
      now, requests := later, requests + 1;
      if * {
        faults := faults + 1;
        return Denied;
      }
      if history(now).None? {
        assert history(now) == None;
        return NoneLeft;
      }
      assert history(now).value.metadata == history(now).value.metadata;
      return Current(history(now).value.metadata);
    }
  }

  // ----- the download

  /**
   * At most two downloads and one refresh. With a generation to ask for, the bytes and
   * their label belonged together; without one, the bytes are still the object's own.
   */
  method DownloadCurrentObject(server: Server, listed: Metadata, limit: Option<nat>)
    returns (r: Fetched, ghost named: Metadata)
    requires Seen(server.history, listed) && UniqueGenerations(server.history)
    modifies server
    ensures old(server.requests) <= server.requests <= old(server.requests) + 3
    ensures Seen(server.history, named)
    ensures r.Data? ==> r.version == ObjectVersionOf(named)
    ensures r.Data? && limit.Some? ==> |r.content| <= limit.value
    ensures r.Failed? ==> server.faults > old(server.faults)
    ensures (limit.Some? && listed.size > limit.value ==>
               r.Skipped? && server.requests == old(server.requests))
    ensures r.Data? ==> exists t :: MayAnswer(server.history, named, t, r.content)
    ensures r.Skipped? ==> MaySkip(server.history, named, limit, server.requests - old(server.requests))
    ensures r.Data? && named.generation > 0 ==> Together(server.history, named, r.content)
  {
    var o, attempt := listed, 0;
    while attempt <= 1
      invariant 0 <= attempt <= 1
      invariant server.requests == old(server.requests) + 2 * attempt && server.faults >= old(server.faults)
      invariant Seen(server.history, o)
      invariant if attempt == 0 then o == listed else !TooLargeFor(limit, listed)
      decreases 2 - attempt
    {
      named := o;
      if TooLargeFor(limit, o) {
        return Skipped, named;
      }
      var s;
      ghost var t;
      s, t := server.Download(o);
      match s
      case Streaming(chunks, breaksOff) =>
        var body := ReadBody(Response(OK, None, None, None, chunks, breaksOff), limit);
        match body {
          case Whole(content) =>
            if o.generation > 0 { PinnedIsTogether(server.history, o, t, content); }
            return Data(ObjectVersionOf(o), content), named;
          case TooLarge => return Skipped, named;
          case Interrupted => return Failed, named;
        }
      case Refused => return Failed, named;
      case Disappeared =>
        if attempt == 1 {
          return Skipped, named;
        }
        var current := server.GetObject();
        match current {
          case Current(now) => o := now;
          case NoneLeft => return Skipped, named;
          case Denied => return Failed, named;
        }
        attempt := attempt + 1;
    }
  }

  lemma PinnedIsTogether(h: History, o: Metadata, t: nat, content: Content)
    requires UniqueGenerations(h) && Seen(h, o) && o.generation > 0 && MayAnswer(h, o, t, content)
    ensures Together(h, o, content)
  {
    var u :| h(u).Some? && h(u).value.metadata == o;
    assert h(u) == h(t) == Some(Stored(o, content));
  }

  // ----- when the tag of a label can be relied on

  /** A history a server can have: sizes are those of the bytes, and neither a generation nor a tag is used for
      two contents. */
  ghost predicate Plausible(h: History) {
    && UniqueGenerations(h)
    && (forall t :: h(t).Some? ==> h(t).value.metadata.size == |h(t).value.content|)
    && (forall t, u :: h(t).Some? && h(u).Some? && h(t).value.metadata.etag == h(u).value.metadata.etag ==>
          h(t).value.content == h(u).value.content)
  }

  /** If the label carries an identity, the bytes were the object's own under that identity at some moment. */
  ghost predicate StandsFor(h: History, o: Metadata, content: Content) {
    ObjectVersionOf(o).identity.Some? ==>
      exists t :: h(t).Some? && ObjectVersionOf(h(t).value.metadata).identity == ObjectVersionOf(o).identity
                  && h(t).value.content == content
  }

  /** Whatever happens between the metadata and the download, the identity stands for the bytes. */
  ghost predicate AlwaysRight(o: Metadata) {
    forall h: History, t: nat, content: Content ::
      Plausible(h) && Seen(h, o) && MayAnswer(h, o, t, content) ==> StandsFor(h, o, content)
  }

  function Zeros(n: nat): Content {
    seq(n, _ => 0)
  }

  /** The metadata comes first; by the time of the download the object has grown by a byte under another tag. */
  function Grown(o: Metadata, t: nat): Stored
    requires o.size >= 0
  {
    if t == 0 then Stored(o, Zeros(o.size))
    else Stored(o.(etag := o.etag + "'", size := o.size + 1), Zeros(o.size + 1))
  }

  function Growing(o: Metadata): History
    requires o.size >= 0
  {
    (t: nat) => Some(Grown(o, t))
  }

  lemma GrowingIsPlausible(o: Metadata)
    requires o.size >= 0 && o.generation <= 0
    ensures Plausible(Growing(o)) && Seen(Growing(o), o) && MayAnswer(Growing(o), o, 1, Zeros(o.size + 1))
  {
    var h := Growing(o);
    assert h(0).Some? && h(0).value.metadata == o;
    forall t ensures h(t).Some? && h(t).value.metadata.size == |h(t).value.content| {
      assert h(t) == Some(Grown(o, t));
    }
    forall t, u | h(t).value.metadata.etag == h(u).value.metadata.etag ensures h(t) == h(u) {
      assert |o.etag + "'"| == |o.etag| + 1;
    }
  }

  lemma GrowingTagIsWrong(o: Metadata)
    requires o.size >= 0 && o.generation <= 0 && o.etag != ""
    ensures !StandsFor(Growing(o), o, Zeros(o.size + 1))
  {
    var h := Growing(o);
    forall t | h(t).Some? && h(t).value.content == Zeros(o.size + 1)
      ensures ObjectVersionOf(h(t).value.metadata).identity != ObjectVersionOf(o).identity
    {
      assert h(t) == Some(Grown(o, t)) && |Zeros(o.size)| < |Zeros(o.size + 1)|;
      assert |o.etag + "'"| == |o.etag| + 1;
      assert h(t).value.metadata.etag == o.etag + "'" != "";
    }
  }

  /**
   * The stored identity can always be relied on if and only if the listed generation is positive, or there is no
   * identity at all (and then the cache never uses the label). Otherwise a replacement between the metadata and
   * the download puts one version's tag on another version's bytes.
   */
  lemma TagIsRightWhenPinned(o: Metadata)
    requires o.size >= 0
    ensures AlwaysRight(o) <==> o.generation > 0 || o.etag == ""
  {
    if o.generation > 0 {
      forall h: History, t: nat, content: Content | Plausible(h) && Seen(h, o) && MayAnswer(h, o, t, content)
        ensures StandsFor(h, o, content)
      {
        PinnedIsTogether(h, o, t, content);
        var u :| h(u) == Some(Stored(o, content));
        assert h(u).Some? && ObjectVersionOf(h(u).value.metadata).identity == ObjectVersionOf(o).identity;
      }
    } else if o.etag != "" {
      GrowingIsPlausible(o);
      GrowingTagIsWrong(o);
    }
  }
}
