/**
 * Downloading one blob while it may be replaced between any two requests.
 *
 * The label the bytes are stored under must be that of the bytes: they are asked for
 * on condition of the listed tag (section 13.1.1 of RFC 9110), and when that fails the
 * label is taken from the response that carries them.
 */
module AzureDownload {
  import opened Bytes
  import opened ObjectCaches
  import opened Wrappers

  datatype Representation = Representation(etag: string, modified: string, content: Content)

  /** What the blob is at each moment. */
  type Timeline = nat -> Option<Representation>

  /** A tag is never used for two contents. */
  ghost predicate StrongTags(h: Timeline) {
    forall t, u :: h(t).Some? && h(u).Some? && h(t).value.etag == h(u).value.etag ==>
      h(t).value.content == h(u).value.content
  }

  // ----- responses

  /** The body comes in chunks, and may break off before its end. */
  datatype Response = Response(status: nat, etag: Option<string>, modified: Option<string>, length: Option<nat>,
                               chunks: seq<Content>, breaksOff: bool)

  const OK := 200
  const NOT_FOUND := 404
  const PRECONDITION_FAILED := 412
  const TOO_MANY_REQUESTS := 429
  const SERVICE_UNAVAILABLE := 503

  lemma {:induction false} FlatPrefix(chunks: seq<Content>, i: nat)
    requires i <= |chunks|
    ensures |Flat(chunks[..i])| <= |Flat(chunks)|
    decreases |chunks| - i
  {
    if i < |chunks| {
      assert chunks[..i + 1][..i] == chunks[..i];
      FlatPrefix(chunks, i + 1);
    } else {
      assert chunks[..i] == chunks;
    }
  }

  predicate Exceeds(limit: Option<nat>, size: nat) { limit.Some? && size > limit.value }

  datatype Body = Whole(content: Content) | TooLarge | Interrupted

  /** Reads a body, but never keeps more than the limit. */
  method ReadBody(response: Response, limit: Option<nat>) returns (body: Body)
    ensures body.Whole? ==> body.content == Flat(response.chunks) && !response.breaksOff
    ensures (body.TooLarge? <==> limit.Some? && (|Flat(response.chunks)| > limit.value
                                                 || (response.length.Some? && response.length.value > limit.value)))
    ensures body.Interrupted? ==> response.breaksOff
  {
    if response.length.Some? && Exceeds(limit, response.length.value) {
      return TooLarge;
    }
    var content, i := [], 0;
    while i < |response.chunks|
      invariant 0 <= i <= |response.chunks|
      invariant content == Flat(response.chunks[..i]) && !Exceeds(limit, |content|)
    {
      assert response.chunks[..i + 1][..i] == response.chunks[..i];
      FlatPrefix(response.chunks, i + 1);
      if Exceeds(limit, |content| + |response.chunks[i]|) {
        return TooLarge;
      }
      content := content + response.chunks[i];
      i := i + 1;
    }
    assert response.chunks[..i] == response.chunks;
    body := if response.breaksOff then Interrupted else Whole(content);
  }

  // ----- the server

  /** The response carries the blob as it was at one moment, and what it says of it is true. */
  ghost predicate Carries(response: Response, r: Representation) {
    && Flat(response.chunks) <= r.content && (!response.breaksOff ==> Flat(response.chunks) == r.content)
    && (response.etag.Some? ==> response.etag.value == r.etag)
    && (response.modified.Some? ==> response.modified.value == r.modified)
    && (response.length.Some? ==> response.length.value == |r.content|)
  }

  /** A missing blob and a failed condition are reported only when they are so; any other refusal is possible. */
  ghost predicate Means(status: nat, ifMatch: Option<string>, r: Option<Representation>) {
    && (status == NOT_FOUND ==> r.None?)
    && (status == PRECONDITION_FAILED ==> ifMatch.Some? && (r.None? || r.value.etag != ifMatch.value))
  }

  /** Neither an answer nor a reason for having none: the server did not do its part. */
  predicate Unanswered(response: Option<Response>) {
    response.None? || (response.value.status == OK && response.value.breaksOff)
    || (response.value.status != OK && response.value.status != NOT_FOUND
        && response.value.status != PRECONDITION_FAILED)
  }

  class Server {
    const history: Timeline
    var now: nat
    var requests: nat
    var faults: nat

    constructor(history: Timeline)
      ensures this.history == history
    {
      this.history := history;
      now, requests, faults := 0, 0, 0;
    }

    /** One request. The blob may have changed any number of times since the last one. */
    method Request(ifMatch: Option<string>) returns (response: Option<Response>, ghost t: nat)
      modifies this
      ensures requests == old(requests) + 1 && old(now) <= t <= now
      ensures faults == old(faults) + if Unanswered(response) then 1 else 0
      ensures (response.Some? && response.value.status == OK ==>
                 && history(t).Some? && Carries(response.value, history(t).value)
                 && (ifMatch.Some? ==> history(t).value.etag == ifMatch.value))
      ensures response.Some? ==> Means(response.value.status, ifMatch, history(t))
    {
      var later :| later >= now;
      now := later;
      t := now;
      requests := requests + 1;
      if * {
        faults := faults + 1;
        return None, t;
      }
      var r := history(now);
      var status: nat :| status >= 100 && status != OK && status != NOT_FOUND && status != PRECONDITION_FAILED;
      if * {
        faults := faults + 1;
        return Some(Response(status, None, None, None, [], false)), t;
      }
      if r.None? {
        return Some(Response(NOT_FOUND, None, None, None, [], false)), t;
      }
      if ifMatch.Some? && r.value.etag != ifMatch.value {
        return Some(Response(PRECONDITION_FAILED, None, None, None, [], false)), t;
      }
      var named: bool, dated: bool, sized: bool := *, *, *;
      var chunks: seq<Content> := *;
      var breaksOff: bool := *;
      if !(Flat(chunks) == r.value.content || (breaksOff && Flat(chunks) <= r.value.content)) {
        chunks := [r.value.content];
        assert chunks[..0] == [];
      }
      if breaksOff {
        faults := faults + 1;
      }
      return Some(Response(OK, if named then Some(r.value.etag) else None,
                           if dated then Some(r.value.modified) else None,
                           if sized then Some(|r.value.content|) else None, chunks, breaksOff)), t;
    }
  }

  /** A request is repeated three times at most, and only when the server asks for patience. */
  method GetResponse(server: Server, ifMatch: Option<string>) returns (response: Option<Response>, ghost t: nat)
    modifies server
    ensures server.requests <= old(server.requests) + 4 && old(server.now) <= t <= server.now
    ensures server.faults >= old(server.faults) && (Unanswered(response) ==> server.faults > old(server.faults))
    ensures (response.Some? && response.value.status == OK ==>
               && server.history(t).Some? && Carries(response.value, server.history(t).value)
               && (ifMatch.Some? ==> server.history(t).value.etag == ifMatch.value))
    ensures response.Some? ==> Means(response.value.status, ifMatch, server.history(t))
    ensures (response.Some? && (response.value.status == 429 || response.value.status == 503) ==>
               server.requests == old(server.requests) + 4)
  {
    var attempt := 0;
    while true
      invariant 0 <= attempt <= 3
      invariant server.requests == old(server.requests) + attempt && old(server.now) <= server.now
      invariant server.faults >= old(server.faults)
      decreases 3 - attempt
    {
      response, t := server.Request(ifMatch);
      if response.Some? && attempt < 3
         && (response.value.status == TOO_MANY_REQUESTS || response.value.status == SERVICE_UNAVAILABLE) {
        attempt := attempt + 1;
        continue;
      }
      return;
    }
  }

  // ----- the download

  datatype Fetched = Data(version: ObjectVersion, content: Content) | Skipped | Failed

  /** The bytes are what the blob was at one moment of the download, and a tag in their label is its tag then. */
  ghost predicate Genuine(h: Timeline, t: nat, version: ObjectVersion, content: Content) {
    && h(t).Some? && h(t).value.content == content
    && (version.identity.Some? ==> version.identity.value == h(t).value.etag)
  }

  method DownloadBlob(server: Server, listed: ObjectVersion, limit: Option<nat>) returns (r: Fetched, ghost t: nat)
    modifies server
    ensures server.requests <= old(server.requests) + 8
    ensures r.Data? ==> old(server.now) <= t <= server.now && Genuine(server.history, t, r.version, r.content)
    ensures r.Data? && limit.Some? ==> |r.content| <= limit.value
    ensures (r.Skipped? ==> server.history(t) == None
                            || (limit.Some? && |server.history(t).value.content| > limit.value))
    ensures r.Failed? ==> server.faults > old(server.faults)
  {
    var version := listed;
    var response;
    response, t := GetResponse(server, version.identity);
    if response.None? {
      return Failed, t;
    }
    if response.value.status == PRECONDITION_FAILED {
      response, t := GetResponse(server, None);
      if response.None? {
        return Failed, t;
      }
      version := ObjectVersion(response.value.etag, response.value.modified, response.value.length);
    }
    if response.value.status == NOT_FOUND {
      return Skipped, t;
    }
    if response.value.status != OK {
      return Failed, t;
    }
    var body := ReadBody(response.value, limit);
    match body
    case Whole(content) => return Data(version, content), t;
    case TooLarge => return Skipped, t;
    case Interrupted => return Failed, t;
  }

  /** So bytes stored under a tag are the bytes of every later listing that shows the tag. */
  lemma TagStandsForBytes(h: Timeline, t: nat, version: ObjectVersion, content: Content, u: nat)
    requires StrongTags(h) && Genuine(h, t, version, content)
    requires h(u).Some? && version.identity == Some(h(u).value.etag)
    ensures h(u).value.content == content
  {
  }
}
