/**
 * A cache filled by any number of runs over a bucket that changes all the time.
 *
 * Whatever runs do with the cache, in whatever order, and wherever they break off: the
 * bytes it records and hands out were the object's own, under the label of metadata the
 * object had. That the label's tag was that of those bytes is certain on Azure. On Cloud
 * Storage it is certain exactly for metadata with a positive generation or without a tag.
 */
module ChangingBucket {
  import opened AzureDownload
  import opened Fingerprints
  import opened GcsDownload
  import opened ObjectCaches
  import opened Surroundings
  import opened Wrappers

  /** Each object's history, at either provider. */
  datatype Bucket = AzureBucket(blobs: string -> Timeline) | GcsBucket(objects: string -> History)

  ghost predicate RealBlob(h: Timeline, version: ObjectVersion, content: Content) {
    exists t :: Genuine(h, t, version, content)
  }

  ghost predicate RealObject(h: History, version: ObjectVersion, content: Content) {
    exists o, t :: Labelled(h, o, t, version, content)
  }

  /** The label is that of metadata the object had, and the bytes are its own, of that generation if it has one. */
  ghost predicate Labelled(h: History, o: Metadata, t: nat, version: ObjectVersion, content: Content) {
    && version == ObjectVersionOf(o) && Seen(h, o) && MayAnswer(h, o, t, content)
    && (o.generation > 0 ==> Together(h, o, content))
  }

  /** The bytes were the object's own at some moment. On Azure the label's tag was theirs; on Cloud Storage the label
      is that of metadata the object had, and of the same version if its generation is positive. */
  ghost predicate Real(bucket: Bucket, key: string, version: ObjectVersion, content: Content) {
    match bucket
    case AzureBucket(blobs) => RealBlob(blobs(key), version, content)
    case GcsBucket(objects) => RealObject(objects(key), version, content)
  }

  ghost predicate AllReal(bucket: Bucket, objects: map<string, CachedObject>) {
    forall k :: k in objects ==> Real(bucket, k, objects[k].version, objects[k].digest)
  }

  // ----- when the identity of a label is that of the bytes

  /** If the label carries an identity, the object had these bytes under it at some moment. */
  ghost predicate Stands(bucket: Bucket, key: string, version: ObjectVersion, content: Content) {
    version.identity.Some? ==>
      match bucket
      case AzureBucket(blobs) =>
        exists t :: blobs(key)(t).Some? && Some(blobs(key)(t).value.etag) == version.identity
                    && blobs(key)(t).value.content == content
      case GcsBucket(objects) =>
        exists t :: objects(key)(t).Some?
                    && ObjectVersionOf(objects(key)(t).value.metadata).identity == version.identity
                    && objects(key)(t).value.content == content
  }

  /** Every version of the object that has a tag has a positive generation too. Azure has no need of that. */
  ghost predicate Pinned(bucket: Bucket, key: string) {
    bucket.GcsBucket? ==>
      forall t :: bucket.objects(key)(t).Some? ==>
        var o := bucket.objects(key)(t).value.metadata; o.generation > 0 || o.etag == ""
  }

  /** A real label stands for its bytes always on Azure, and on Cloud Storage if the object's versions are pinned. */
  lemma RealStands(bucket: Bucket, key: string, version: ObjectVersion, content: Content)
    requires Real(bucket, key, version, content) && Pinned(bucket, key)
    ensures Stands(bucket, key, version, content)
  {
    match bucket
    case AzureBucket(blobs) =>
    case GcsBucket(objects) =>
      var o, t :| Labelled(objects(key), o, t, version, content);
      var u :| objects(key)(u).Some? && objects(key)(u).value.metadata == o;
      if o.generation > 0 {
        var v :| objects(key)(v) == Some(Stored(o, content));
        assert objects(key)(v).Some?;
      }
  }

  /** On Cloud Storage the condition is exact: whatever happens to the object, a label taken from its metadata `o`
      stands for the bytes kept under it if and only if the generation is positive or there is no tag. */
  lemma LabelsStandWhenPinned(o: Metadata)
    requires o.size >= 0
    ensures ((forall h, t, content :: Plausible(h) && Labelled(h, o, t, ObjectVersionOf(o), content) ==>
                StandsFor(h, o, content))
             <==> o.generation > 0 || o.etag == "")
  {
    hide Plausible, Together, StandsFor, MayAnswer, Seen;
    TagIsRightWhenPinned(o);
    if forall h, t, content :: Plausible(h) && Labelled(h, o, t, ObjectVersionOf(o), content) ==>
         StandsFor(h, o, content)
    {
      forall h: History, t: nat, content: Content | Plausible(h) && Seen(h, o) && MayAnswer(h, o, t, content)
        ensures StandsFor(h, o, content)
      {
        if o.generation > 0 {
          PlausibleIsUnique(h);
          PinnedIsTogether(h, o, t, content);
        }
        assert Labelled(h, o, t, ObjectVersionOf(o), content);
      }
    }
  }

  lemma PlausibleIsUnique(h: History)
    requires Plausible(h)
    ensures UniqueGenerations(h)
  {
  }

  /** What an entry of a listing says of an object. */
  datatype Listed = Blob(version: ObjectVersion) | Object(o: Metadata)

  /** Cloud Storage listings show metadata the object had at some moment; Azure listings may show anything. */
  ghost predicate Fits(bucket: Bucket, key: string, listed: Listed) {
    match bucket
    case AzureBucket(_) => listed.Blob?
    case GcsBucket(objects) => listed.Object? && Seen(objects(key), listed.o) && UniqueGenerations(objects(key))
  }

  function VersionOf(listed: Listed): ObjectVersion {
    match listed
    case Blob(version) => version
    case Object(o) => ObjectVersionOf(o)
  }

  // ----- one object

  /** The object is there all the time, the same and within the limit. */
  ghost predicate Unchanged(bucket: Bucket, key: string, limit: Option<nat>) {
    match bucket
    case AzureBucket(blobs) =>
      blobs(key)(0).Some? && (limit.Some? ==> |blobs(key)(0).value.content| <= limit.value)
      && forall t :: blobs(key)(t) == blobs(key)(0)
    case GcsBucket(objects) =>
      objects(key)(0).Some? && (limit.Some? ==> |objects(key)(0).value.content| <= limit.value)
      && objects(key)(0).value.metadata.size == |objects(key)(0).value.content|
      && forall t :: objects(key)(t) == objects(key)(0)
  }

  /** The bytes of an object at the beginning. */
  ghost predicate Holds(bucket: Bucket, key: string, content: Content) {
    match bucket
    case AzureBucket(blobs) => blobs(key)(0).Some? && blobs(key)(0).value.content == content
    case GcsBucket(objects) => objects(key)(0).Some? && objects(key)(0).value.content == content
  }

  lemma UnchangedIsHeld(bucket: Bucket, key: string, limit: Option<nat>, version: ObjectVersion, content: Content)
    requires Unchanged(bucket, key, limit) && Real(bucket, key, version, content)
    ensures Holds(bucket, key, content)
  {
  }

  lemma UnchangedIsNotSkipped(h: History, o: Metadata, limit: Option<nat>, requests: int, key: string)
    requires Unchanged(GcsBucket(_ => h), key, limit) && Seen(h, o)
    ensures !MaySkip(h, o, limit, requests)
  {
    var t :| h(t).Some? && h(t).value.metadata == o;
    assert h(t) == h(0);
    assert forall u :: h(u) == h(0);
  }

  /** A download at any moments from now on. It fails only if the server does. */
  method Download(environment: Environment, bucket: Bucket, key: string, listed: Listed, limit: Option<nat>)
    returns (r: Fetched)
    requires Fits(bucket, key, listed)
    modifies environment
    ensures environment.faults >= old(environment.faults)
    ensures r.Failed? ==> environment.faults > old(environment.faults)
    ensures r.Data? ==> Real(bucket, key, r.version, r.content) && (limit.Some? ==> |r.content| <= limit.value)
    ensures Unchanged(bucket, key, limit) ==> !r.Skipped?
  {
    match bucket
    case AzureBucket(blobs) =>
      var server := new AzureDownload.Server(blobs(key));
      ghost var t;
      r, t := DownloadBlob(server, listed.version, limit);
      environment.faults := environment.faults + server.faults;
    case GcsBucket(objects) =>
      var server := new GcsDownload.Server(objects(key));
      ghost var o;
      r, o := DownloadCurrentObject(server, listed.o, limit);
      environment.faults := environment.faults + server.faults;
      if r.Skipped? && Unchanged(bucket, key, limit) {
        ghost var h := objects(key);
        assert Unchanged(GcsBucket(_ => h), key, limit);
        UnchangedIsNotSkipped(h, o, limit, server.requests, key);
      }
      if r.Data? {
        ghost var t :| MayAnswer(objects(key), o, t, r.content);
        assert Labelled(objects(key), o, t, r.version, r.content);
      }
  }

  /** One object handed to the visitor, and the label it is kept under. */
  datatype Handed = Handed(key: string, version: ObjectVersion, content: Content)

  ghost predicate RealLog(bucket: Bucket, log: seq<Handed>) {
    forall e :: e in log ==> Real(bucket, e.key, e.version, e.content)
  }

  ghost predicate RealCache(bucket: Bucket, cache: ObjectCache)
    reads cache, cache.disk
  {
    && cache.Valid()
    && AllReal(bucket, cache.disk.State(cache.policy).objects) && AllReal(bucket, cache.pending)
  }

  lemma RealInMemory(bucket: Bucket, cache: ObjectCache)
    requires RealCache(bucket, cache)
    ensures AllReal(bucket, cache.manifest.objects)
  {
  }

  /** The file of an object is not what was recorded. */
  ghost predicate FilesDiffer(objects: map<string, CachedObject>, files: map<string, Content>, key: string) {
    key in objects && key in files && files[key] != objects[key].digest
  }

  /** A listed object comes from the cache or from a download, and is stored before it is handed out. */
  method Look(bucket: Bucket, cache: ObjectCache, key: string, listed: Listed, limit: Option<nat>)
    returns (log: seq<Handed>, ok: bool, missed: bool)
    requires RealCache(bucket, cache) && Fits(bucket, key, listed)
    modifies cache, cache.disk`files, cache.disk.environment
    ensures cache.disk.environment.faults >= old(cache.disk.environment.faults)
    ensures (cache.disk.environment.faults == old(cache.disk.environment.faults) ==>
               !missed && (!ok ==> FilesDiffer(old(cache.manifest.objects), old(cache.disk.files), key)))
    ensures RealCache(bucket, cache) && RealLog(bucket, log)
    ensures forall e :: e in log ==> e.key == key
    ensures ok && !missed && Unchanged(bucket, key, limit) ==> |log| == 1
    ensures cache.disk.manifest == old(cache.disk.manifest) && cache.disk.journal == old(cache.disk.journal)
  {
    hide Real, Fits, Unchanged;
    log, ok, missed := [], true, false;
    RealInMemory(bucket, cache);
    var version, content := VersionOf(listed), [];
    var cached := cache.Cached(key, version);
    match cached {
      case Found(bytes) => content := bytes;
      case Corrupt => return [], false, false;
      case Unreadable => return [], false, false;
      case Missing =>
        var r := Download(cache.disk.environment, bucket, key, listed, limit);
        match r {
          case Data(current, bytes) => version, content := current, bytes;
          case Skipped => return [], true, false;
          case Failed => return [], true, true;
        }
    }
    ok := cache.Store(key, version, content);
    if ok {
      log := [Handed(key, version, content)];
    }
  }

  /** A hit gives the bytes the listing was about: if tags are strong, or if the object's generations are positive. */
  lemma HitIsWhatIsListed(bucket: Bucket, objects: map<string, CachedObject>, key: string, u: nat)
    requires AllReal(bucket, objects) && key in objects && objects[key].version.identity.Some?
    ensures (match bucket
             case AzureBucket(blobs) =>
               StrongTags(blobs(key)) && blobs(key)(u).Some?
               && objects[key].version.identity == Some(blobs(key)(u).value.etag) ==>
                 objects[key].digest == blobs(key)(u).value.content
             case GcsBucket(histories) =>
               AllPinned(histories(key)) && histories(key)(u).Some?
               && objects[key].version.identity == ObjectVersionOf(histories(key)(u).value.metadata).identity ==>
                 objects[key].digest == histories(key)(u).value.content)
  {
    assert Real(bucket, key, objects[key].version, objects[key].digest);
    match bucket
    case AzureBucket(blobs) =>
      if StrongTags(blobs(key)) && blobs(key)(u).Some?
         && objects[key].version.identity == Some(blobs(key)(u).value.etag)
      {
        BlobHit(blobs, objects, key, u);
      }
    case GcsBucket(histories) =>
      if AllPinned(histories(key)) && histories(key)(u).Some?
         && objects[key].version.identity == ObjectVersionOf(histories(key)(u).value.metadata).identity
      {
        ObjectHit(histories(key), objects[key].version, objects[key].digest, u);
      }
  }

  ghost predicate AllPinned(h: History) {
    UniqueGenerations(h) && forall t :: h(t).Some? ==> h(t).value.metadata.generation > 0
  }

  lemma ObjectHit(h: History, version: ObjectVersion, content: Content, u: nat)
    requires RealObject(h, version, content) && AllPinned(h) && h(u).Some?
    requires version.identity == ObjectVersionOf(h(u).value.metadata).identity
    ensures h(u).value.content == content
  {
    var o, t :| Labelled(h, o, t, version, content);
    var v :| h(v).Some? && h(v).value.metadata == o;
    var w :| h(w) == Some(Stored(o, content));
    TextIsInjective(o.generation, h(u).value.metadata.generation);
    assert h(u) == h(w);
  }

  lemma BlobHit(blobs: string -> Timeline, objects: map<string, CachedObject>, key: string, u: nat)
    requires AllReal(AzureBucket(blobs), objects) && StrongTags(blobs(key))
    requires key in objects && blobs(key)(u).Some? && objects[key].version.identity == Some(blobs(key)(u).value.etag)
    ensures objects[key].digest == blobs(key)(u).value.content
  {
    assert Real(AzureBucket(blobs), key, objects[key].version, objects[key].digest);
    var t :| Genuine(blobs(key), t, objects[key].version, objects[key].digest);
    TagStandsForBytes(blobs(key), t, objects[key].version, objects[key].digest, u);
  }

  // ----- any number of runs

  /** What a run may do with the cache; `Crash` ends it, at any point. */
  datatype Act =
    | OpenCache
    | HandOut(key: string)
    | LookAt(key: string, listed: Listed)
    | PageDone(scope: string, next: Option<string>)
    | ScanDone
    | Crash

  ghost predicate Possible(bucket: Bucket, script: seq<Act>) {
    forall a :: a in script && a.LookAt? ==> Fits(bucket, a.key, a.listed)
  }

  ghost predicate RealDisk(bucket: Bucket, disk: Disk, policy: string)
    reads disk
  {
    AllReal(bucket, disk.State(policy).objects)
  }

  /** Opening, and breaking off while opening, leaves the record as it is. */
  method Begin(bucket: Bucket, disk: Disk, policy: string) returns (r: Option<ObjectCache>)
    requires RealDisk(bucket, disk, policy)
    modifies disk, disk.environment`faults
    ensures RealDisk(bucket, disk, policy)
    ensures r.Some? ==> fresh(r.value) && r.value.disk == disk && r.value.policy == policy
    ensures r.Some? ==> RealCache(bucket, r.value) && r.value.pending == map[]
    ensures r.Some? ==> r.value.manifest.completed == old(disk.State(policy).completed)
  {
    hide Real, Replayed;
    r := Open(disk, policy);
  }

  method Save(bucket: Bucket, cache: ObjectCache, scope: string, next: Option<string>) returns (ok: bool)
    requires RealCache(bucket, cache)
    modifies cache, cache.disk`journal, cache.disk`torn, cache.disk.environment`faults
    ensures RealDisk(bucket, cache.disk, cache.policy) && (ok ==> RealCache(bucket, cache) && cache.pending == map[])
  {
    hide Real, Replayed;
    ghost var page := PageCheckpoint(scope, ScopeState(next, next.None?), cache.pending);
    ReplaySnoc(Base(cache.disk.manifest, cache.policy), cache.disk.journal, page);
    ok := cache.FinishPage(scope, next);
  }

  method End(bucket: Bucket, cache: ObjectCache) returns (ok: bool)
    requires RealCache(bucket, cache) && cache.pending == map[]
    modifies cache, cache.disk, cache.disk.environment`faults
    ensures RealDisk(bucket, cache.disk, cache.policy)
  {
    hide Real;
    ghost var state, objects := cache.disk.State(cache.policy), cache.manifest.objects;
    RealInMemory(bucket, cache);
    ok := cache.Finish();
  }

  /** Every label and every byte handed out or kept, over any number of runs, was real. */
  method Churn(bucket: Bucket, policy: string, limit: Option<nat>, script: seq<Act>, environment: Environment)
    returns (disk: Disk, log: seq<Handed>)
    requires Possible(bucket, script)
    modifies environment
    ensures RealLog(bucket, log) && RealDisk(bucket, disk, policy)
    ensures forall e :: e in log && Pinned(bucket, e.key) ==> Stands(bucket, e.key, e.version, e.content)
  {
    disk := new Disk(environment);
    assert disk.State(policy).objects == map[];
    hide Real, Fits, Replayed, Pinned, Stands;
    log := [];
    var cache: ObjectCache? := null;
    for i := 0 to |script|
      invariant fresh(disk) && disk.environment == environment
      invariant cache != null ==> fresh(cache) && cache.disk == disk && cache.policy == policy
      invariant RealLog(bucket, log) && RealDisk(bucket, disk, policy)
      invariant cache != null ==> RealCache(bucket, cache)
    {
      var act := script[i];
      if act.OpenCache? {
        var r := Begin(bucket, disk, policy);
        cache := if r.Some? then r.value else null;
      } else if cache == null || act.Crash? {
        cache := null;
      } else {
        var more, ok := Perform(bucket, cache, limit, act);
        log := log + more;
        if !ok {
          cache := null;
        }
      }
    }
    forall e | e in log && Pinned(bucket, e.key) ensures Stands(bucket, e.key, e.version, e.content) {
      RealStands(bucket, e.key, e.version, e.content);
    }
  }

  method Perform(bucket: Bucket, cache: ObjectCache, limit: Option<nat>, act: Act) returns (log: seq<Handed>, ok: bool)
    requires RealCache(bucket, cache) && (act.LookAt? ==> Fits(bucket, act.key, act.listed))
    modifies cache, cache.disk, cache.disk.environment
    ensures RealLog(bucket, log) && RealDisk(bucket, cache.disk, cache.policy) && (ok ==> RealCache(bucket, cache))
  {
    hide Real, Fits, Replayed;
    log, ok := [], true;
    match act
    case HandOut(key) =>
      RealInMemory(bucket, cache);
      var r := cache.Read(key);
      if !r.Found? {
        return [], false;
      }
      log := [Handed(key, cache.manifest.objects[key].version, r.content)];
    case LookAt(key, listed) =>
      var missed;
      log, ok, missed := Look(bucket, cache, key, listed, limit);
    case PageDone(scope, next) => ok := Save(bucket, cache, scope, next);
    case ScanDone =>
      if cache.pending == map[] {
        var _ := End(bucket, cache);
        ok := false;
      }
    case _ => ok := false;
  }

  // ----- a run that gets to the end

  /** What the server answered to one listing request. */
  datatype Answer = Answer(scope: string, next: Option<string>, entries: seq<(string, Listed)>)

  ghost predicate AllFit(bucket: Bucket, entries: seq<(string, Listed)>) {
    forall i :: 0 <= i < |entries| ==> Fits(bucket, entries[i].0, entries[i].1)
  }

  predicate ListedIn(entries: seq<(string, Listed)>, k: string) {
    exists i :: 0 <= i < |entries| && entries[i].0 == k
  }

  ghost predicate HandedOut(bucket: Bucket, log: seq<Handed>, k: string) {
    exists e :: e in log && e.key == k && Holds(bucket, k, e.content)
  }

  lemma HandedIsHeld(bucket: Bucket, log: seq<Handed>, e: Handed, limit: Option<nat>)
    requires RealLog(bucket, log) && e in log && Unchanged(bucket, e.key, limit)
    ensures HandedOut(bucket, log, e.key)
  {
    UnchangedIsHeld(bucket, e.key, limit, e.version, e.content);
  }

  lemma StillHandedOut(bucket: Bucket, a: seq<Handed>, b: seq<Handed>, k: string)
    requires HandedOut(bucket, a, k) && a <= b
    ensures HandedOut(bucket, b, k)
  {
    assert forall e :: e in a ==> e in b;
  }

  /** Everything unchanged among the keys was handed out with its bytes. */
  ghost predicate AllHandedOut(bucket: Bucket, limit: Option<nat>, log: seq<Handed>, keys: set<string>) {
    forall k :: k in keys && Unchanged(bucket, k, limit) ==> HandedOut(bucket, log, k)
  }

  lemma MoreHandedOut(bucket: Bucket, limit: Option<nat>, a: seq<Handed>, b: seq<Handed>, keys: set<string>)
    requires AllHandedOut(bucket, limit, a, keys) && a <= b
    ensures AllHandedOut(bucket, limit, b, keys)
  {
    hide HandedOut, Unchanged;
    forall k | k in keys && Unchanged(bucket, k, limit) ensures HandedOut(bucket, b, k) {
      StillHandedOut(bucket, a, b, k);
    }
  }

  /** What earlier runs of the scan recorded is handed out first. */
  method HandOutAll(bucket: Bucket, cache: ObjectCache, ghost limit: Option<nat>) returns (log: seq<Handed>, ok: bool)
    requires RealCache(bucket, cache)
    modifies cache.disk.environment`faults
    ensures RealCache(bucket, cache)
    ensures RealLog(bucket, log) && (ok ==> AllHandedOut(bucket, limit, log, cache.manifest.completed))
  {
    hide Real, Unchanged, HandedOut;
    log, ok := [], true;
    RealInMemory(bucket, cache);
    var left := cache.CompletedObjects();
    while left != {}
      invariant left <= cache.manifest.completed && ok && RealLog(bucket, log) && RealCache(bucket, cache)
      invariant AllHandedOut(bucket, limit, log, cache.manifest.completed - left)
      decreases left
    {
      var key :| key in left;
      left := left - {key};
      var r := cache.Read(key);
      if !r.Found? {
        return log, false;
      }
      var e := Handed(key, cache.manifest.objects[key].version, r.content);
      MoreHandedOut(bucket, limit, log, log + [e], cache.manifest.completed - left - {key});
      log := log + [e];
      if Unchanged(bucket, key, limit) { HandedIsHeld(bucket, log, e, limit); }
    }
  }

  method LookThrough(bucket: Bucket, cache: ObjectCache, limit: Option<nat>, entries: seq<(string, Listed)>)
    returns (log: seq<Handed>, ok: bool, missed: bool)
    requires RealCache(bucket, cache) && AllFit(bucket, entries)
    modifies cache, cache.disk`files, cache.disk.environment
    ensures RealCache(bucket, cache) && RealLog(bucket, log)
    ensures (ok && !missed ==>
               forall k :: ListedIn(entries, k) && Unchanged(bucket, k, limit) ==> HandedOut(bucket, log, k))
  {
    hide Real, Unchanged, HandedOut, Fits;
    log, ok, missed := [], true, false;
    for n := 0 to |entries|
      invariant ok && RealCache(bucket, cache) && RealLog(bucket, log)
      invariant (!missed ==> forall i :: 0 <= i < n && Unchanged(bucket, entries[i].0, limit) ==>
                   HandedOut(bucket, log, entries[i].0))
    {
      ghost var before := log;
      var more, failed;
      more, ok, failed := Look(bucket, cache, entries[n].0, entries[n].1, limit);
      log, missed := log + more, missed || failed;
      if !ok {
        return;
      }
      if !missed {
        forall i | 0 <= i < n && Unchanged(bucket, entries[i].0, limit) ensures HandedOut(bucket, log, entries[i].0) {
          StillHandedOut(bucket, before, log, entries[i].0);
        }
        if Unchanged(bucket, entries[n].0, limit) {
          assert more[0] in more && more[0] in log;
          HandedIsHeld(bucket, log, more[0], limit);
        }
      }
    }
  }

  /**
   * A run over whatever the server answers. If it finishes, every object that did not
   * change and was listed, on a page of this run or on one that earlier runs recorded, was
   * handed out with its bytes, whatever happened to the others.
   */
  method RunOver(bucket: Bucket, disk: Disk, policy: string, limit: Option<nat>, answers: seq<Answer>)
    returns (log: seq<Handed>, finished: bool)
    requires RealDisk(bucket, disk, policy) && forall i :: 0 <= i < |answers| ==> AllFit(bucket, answers[i].entries)
    modifies disk, disk.environment
    ensures RealDisk(bucket, disk, policy) && RealLog(bucket, log)
    ensures finished ==> AllHandedOut(bucket, limit, log, old(disk.State(policy).completed))
    ensures (finished ==> forall i, k ::
               0 <= i < |answers| && ListedIn(answers[i].entries, k) && Unchanged(bucket, k, limit) ==>
               HandedOut(bucket, log, k))
  {
    hide Real, Unchanged, HandedOut, Fits, AllFit, ListedIn, Replayed;
    log, finished := [], false;
    var start := Begin(bucket, disk, policy);
    if start.None? {
      return;
    }
    var cache := start.value;
    var ok;
    log, ok := HandOutAll(bucket, cache, limit);
    if !ok {
      return;
    }
    var complete := true;
    for n := 0 to |answers|
      invariant cache.disk == disk && cache.policy == policy && fresh(cache)
      invariant RealCache(bucket, cache) && RealLog(bucket, log) && (complete ==> cache.pending == map[])
      invariant AllHandedOut(bucket, limit, log, old(disk.State(policy).completed))
      invariant (complete ==> forall i, k ::
                   0 <= i < n && ListedIn(answers[i].entries, k) && Unchanged(bucket, k, limit) ==>
                   HandedOut(bucket, log, k))
    {
      ghost var before := log;
      var more, missed;
      more, ok, missed := LookThrough(bucket, cache, limit, answers[n].entries);
      log := log + more;
      MoreHandedOut(bucket, limit, before, log, old(disk.State(policy).completed));
      if !ok {
        return;
      }
      complete := complete && !missed;
      if complete {
        forall i, k | 0 <= i <= n && ListedIn(answers[i].entries, k) && Unchanged(bucket, k, limit)
          ensures HandedOut(bucket, log, k)
        {
          if i < n { StillHandedOut(bucket, before, log, k); } else { LaterHandedOut(bucket, before, more, k); }
        }
        ok := Save(bucket, cache, answers[n].scope, answers[n].next);
        if !ok {
          return;
        }
      }
    }
    if complete {
      finished := End(bucket, cache);
    }
  }

  lemma LaterHandedOut(bucket: Bucket, a: seq<Handed>, b: seq<Handed>, k: string)
    requires HandedOut(bucket, b, k)
    ensures HandedOut(bucket, a + b, k)
  {
    assert forall e :: e in b ==> e in a + b;
  }
}
