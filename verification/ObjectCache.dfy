/**
 * Durable listing checkpoints and the object-content cache.
 *
 * A scan of a bucket writes the objects it downloads to files, and one journal
 * line for every page it has dealt with completely. Any durable step can fail
 * half way; whoever opens the cache next finds what the disk holds then.
 *
 * The digest of an object is modelled as the object itself: digests are taken to
 * be injective.
 */
module ObjectCaches {
  import opened Bytes
  import opened Surroundings
  import opened Wrappers

  type Content = seq<Byte>

  datatype ObjectVersion = ObjectVersion(identity: Option<string>, modified: Option<string>, size: Option<nat>)

  datatype CachedObject = CachedObject(version: ObjectVersion, digest: Content)

  datatype ScopeState = ScopeState(next: Option<string>, complete: bool)

  datatype PageCheckpoint = PageCheckpoint(prefix: string, state: ScopeState, objects: map<string, CachedObject>)

  datatype Manifest = Manifest(policy: string, inProgress: bool, scopes: map<string, ScopeState>,
                               completed: set<string>, objects: map<string, CachedObject>)

  /** The manifest a scan works from: the one in progress, or a new one that may reuse old objects. */
  function Base(m: Option<Manifest>, policy: string): (r: Manifest)
    ensures r.inProgress
  {
    match m
    case None => Manifest(policy, true, map[], {}, map[])
    case Some(last) => if last.inProgress then last else last.(inProgress := true, scopes := map[], completed := {})
  }

  function ApplyPage(m: Manifest, page: PageCheckpoint): Manifest {
    m.(scopes := m.scopes[page.prefix := page.state],
       completed := m.completed + page.objects.Keys,
       objects := m.objects + page.objects)
  }

  function Replayed(m: Manifest, journal: seq<PageCheckpoint>): (r: Manifest)
    ensures r.policy == m.policy && r.inProgress == m.inProgress
  {
    if journal == [] then m
    else ApplyPage(Replayed(m, journal[..|journal| - 1]), journal[|journal| - 1])
  }

  lemma ReplaySnoc(m: Manifest, journal: seq<PageCheckpoint>, page: PageCheckpoint)
    ensures Replayed(m, journal + [page]) == ApplyPage(Replayed(m, journal), page)
  {
    assert (journal + [page])[..|journal|] == journal;
  }

  /** What objects stored since the last checkpoint add in memory. */
  function WithPending(m: Manifest, pending: map<string, CachedObject>): Manifest {
    m.(completed := m.completed + pending.Keys, objects := m.objects + pending)
  }

  lemma StoredWithPending(m: Manifest, pending: map<string, CachedObject>, key: string, stored: CachedObject)
    ensures (var now := WithPending(m, pending);
             WithPending(m, pending[key := stored])
             == now.(objects := now.objects[key := stored], completed := now.completed + {key}))
  {
    assert (m.objects + pending)[key := stored] == m.objects + pending[key := stored];
    assert m.completed + pending[key := stored].Keys == m.completed + pending.Keys + {key};
  }

  /** What outlives the process. A torn journal ends in an incomplete line. */
  class Disk {
    var manifest: Option<Manifest>
    var journal: seq<PageCheckpoint>
    var torn: bool
    var files: map<string, Content>
    const environment: Environment

    constructor(environment: Environment)
      ensures manifest == None && journal == [] && !torn && files == map[] && this.environment == environment
    {
      manifest, journal, torn, files := None, [], false, map[];
      this.environment := environment;
    }

    /** The journal of the scan in progress; one left over from a finished scan counts for nothing. */
    function Live(): seq<PageCheckpoint>
      reads this
    {
      if manifest.Some? && manifest.value.inProgress then journal else []
    }

    function State(policy: string): Manifest
      reads this
    {
      Replayed(Base(manifest, policy), Live())
    }
  }

  datatype Reading = Found(content: Content) | Missing | Corrupt | Unreadable

  class ObjectCache {
    const disk: Disk
    const policy: string
    var manifest: Manifest
    var pending: map<string, CachedObject>

    /** Memory is what the disk would give back, and the objects stored since. */
    ghost predicate Valid()
      reads this, disk
    {
      && disk.manifest.Some? && disk.manifest.value.inProgress && !disk.torn
      && manifest == WithPending(disk.State(policy), pending)
    }

    constructor Load(disk: Disk, policy: string, manifest: Manifest)
      ensures this.disk == disk && this.policy == policy && this.manifest == manifest && pending == map[]
    {
      this.disk, this.policy, this.manifest, this.pending := disk, policy, manifest, map[];
    }

    function CompletedObjects(): set<string>
      reads this
    {
      manifest.completed
    }

    function ScopeComplete(prefix: string): bool
      reads this
    {
      prefix in manifest.scopes && manifest.scopes[prefix].complete
    }

    function ContinuationToken(prefix: string): Option<string>
      reads this
    {
      if prefix in manifest.scopes then manifest.scopes[prefix].next else None
    }

    /** Reads an object back; anything but the bytes that were recorded is refused. */
    method Read(key: string) returns (r: Reading)
      modifies disk.environment`faults
      ensures disk.environment.faults == old(disk.environment.faults) + if r.Unreadable? then 1 else 0
      ensures r.Found? ==> key in disk.files && r.content == disk.files[key] && key in manifest.objects
      ensures r.Found? ==> manifest.objects[key].digest == r.content
      ensures r.Missing? ==> key !in disk.files
      ensures r.Corrupt? ==> key in disk.files
      ensures r.Corrupt? ==> !(key in manifest.objects && manifest.objects[key].digest == disk.files[key])
    {
      var failed := disk.environment.Fails();
      if failed {
        return Unreadable;
      }
      if key !in disk.files {
        return Missing;
      }
      if key in manifest.objects && manifest.objects[key].digest == disk.files[key] {
        return Found(disk.files[key]);
      }
      return Corrupt;
    }

    /** The label names a version, and the object was recorded under it. */
    ghost predicate Records(key: string, version: ObjectVersion)
      reads this
    {
      && version.identity.Some? && version.identity.value != ""
      && key in manifest.objects && manifest.objects[key].version == version
    }

    /** Only a label that names a version can stand in for a download, and then it does if the file is there. */
    method Cached(key: string, version: ObjectVersion) returns (r: Reading)
      modifies disk.environment`faults
      ensures disk.environment.faults == old(disk.environment.faults) + if r.Unreadable? then 1 else 0
      ensures r.Missing? ==> !Records(key, version) || key !in disk.files
      ensures r.Found? ==> (version.identity.Some? && version.identity.value != ""
                            && key in manifest.objects && manifest.objects[key] == CachedObject(version, r.content))
      ensures (r.Corrupt? ==> version.identity.Some? && version.identity.value != ""
                              && key in manifest.objects && manifest.objects[key].version == version
                              && key in disk.files && disk.files[key] != manifest.objects[key].digest)
    {
      if version.identity.None? || version.identity.value == ""
         || key !in manifest.objects || manifest.objects[key].version != version {
        return Missing;
      }
      r := Read(key);
    }

    /** Keeps an object; it counts as completed only from the next checkpoint on. */
    method Store(key: string, version: ObjectVersion, content: Content) returns (ok: bool)
      requires Valid()
      modifies this, disk`files, disk.environment`faults
      ensures disk.environment.faults == old(disk.environment.faults) + if ok then 0 else 1
      ensures Valid()
      ensures pending == if ok then old(pending)[key := CachedObject(version, content)] else old(pending)
      ensures disk.files == old(disk.files) || disk.files == old(disk.files)[key := content]
      ensures ok ==> key in disk.files
      ensures (ok && disk.files[key] != content ==>
                 key in old(manifest.objects) && old(manifest.objects)[key] == CachedObject(version, content))
    {
      hide WithPending, Replayed, Base;
      var stored := CachedObject(version, content);
      if !(key in manifest.objects && manifest.objects[key] == stored) || key !in disk.files {
        var failed := disk.environment.Fails();
        if failed {
          return false;
        }
        disk.files := disk.files[key := content];
      }
      pending := pending[key := stored];
      manifest := manifest.(objects := manifest.objects[key := stored], completed := manifest.completed + {key});
      ok := true;
      StoredWithPending(disk.State(policy), old(pending), key, stored);
    }

    /** Appends the checkpoint of a page. A failed append leaves no line, part of one, or all of it. */
    method FinishPage(prefix: string, next: Option<string>) returns (ok: bool)
      requires Valid()
      modifies this, disk`journal, disk`torn, disk.environment`faults
      ensures disk.environment.faults == old(disk.environment.faults) + if ok then 0 else 1
      ensures ok ==> Valid() && pending == map[]
      ensures (var page := PageCheckpoint(prefix, ScopeState(next, next.None?), old(pending));
               disk.journal == old(disk.journal) + [page] || (!ok && disk.journal == old(disk.journal)))
    {
      var state := ScopeState(next, next.None?);
      var page := PageCheckpoint(prefix, state, pending);
      pending := map[];
      var failed := disk.environment.Fails();
      if failed {
        disk.torn := true;
        return false;
      }
      ReplaySnoc(Base(disk.manifest, policy), disk.journal, page);
      disk.journal := disk.journal + [page];
      failed := disk.environment.Fails();
      if failed {
        return false;
      }
      manifest := manifest.(scopes := manifest.scopes[prefix := state]);
      ok := true;
    }

    /** Sweeps objects no page completed, and marks the scan as finished. */
    method Finish() returns (ok: bool)
      requires Valid() && pending == map[]
      modifies this, disk, disk.environment`faults
      ensures disk.environment.faults == old(disk.environment.faults) + if ok then 0 else 1
      ensures forall key :: key in disk.files ==> key in old(disk.files) && disk.files[key] == old(disk.files)[key]
      ensures forall key :: key in old(manifest.completed) && key in old(disk.files) ==> key in disk.files
      ensures disk.manifest != old(disk.manifest) ==> disk.manifest == Some(Finished(old(manifest)))
      ensures disk.manifest == old(disk.manifest) ==> disk.journal == old(disk.journal) && disk.torn == old(disk.torn)
      ensures ok ==> disk.manifest == Some(Finished(old(manifest))) && disk.journal == [] && !disk.torn
      ensures ok ==> forall key :: key in disk.files ==> key in old(manifest.completed)
      ensures (ok ==> var last := disk.manifest.value;
                 && !last.inProgress && last.completed == old(manifest.completed)
                 && last.scopes == old(manifest.scopes)
                 && last.objects.Keys == old(manifest.objects.Keys * manifest.completed)
                 && forall key :: key in last.objects ==> last.objects[key] == old(manifest.objects)[key])
    {
      var swept := disk.files.Keys - manifest.completed;
      while swept != {}
        invariant disk.manifest == old(disk.manifest) && disk.journal == old(disk.journal)
        invariant disk.torn == old(disk.torn)
        invariant manifest == old(manifest) && disk.environment.faults == old(disk.environment.faults)
        invariant swept !! manifest.completed && disk.files.Keys <= swept + manifest.completed
        invariant forall key :: key in disk.files ==> key in old(disk.files) && disk.files[key] == old(disk.files)[key]
        invariant forall key :: key in old(manifest.completed) && key in old(disk.files) ==> key in disk.files
        decreases swept
      {
        var failed := disk.environment.Fails();
        if failed {
          return false;
        }
        var key :| key in swept;
        swept := swept - {key};
        disk.files := disk.files - {key};
      }
      manifest := Finished(manifest);
      var failed := disk.environment.Fails();
      if failed {
        return false;
      }
      disk.manifest := Some(manifest);
      failed := disk.environment.Fails();
      if failed {
        return false;
      }
      disk.journal, disk.torn := [], false;
      ok := true;
    }
  }

  /** The manifest of a finished scan remembers the objects it completed, and no others. */
  function Finished(m: Manifest): Manifest {
    m.(inProgress := false, objects := map key | key in m.objects && key in m.completed :: m.objects[key])
  }

  /** Goes through the complete lines of a journal, unless reading them fails. */
  method ReplayPages(start: Manifest, journal: seq<PageCheckpoint>, environment: Environment)
    returns (r: Option<Manifest>)
    modifies environment`faults
    ensures environment.faults == old(environment.faults) + if r.Some? then 0 else 1
    ensures r.Some? ==> r.value == Replayed(start, journal)
  {
    var manifest, i := start, 0;
    while i < |journal|
      invariant 0 <= i <= |journal|
      invariant manifest == Replayed(start, journal[..i]) && environment.faults == old(environment.faults)
    {
      var failed := environment.Fails();
      if failed {
        return None;
      }
      ReplaySnoc(start, journal[..i], journal[i]);
      assert journal[..i + 1] == journal[..i] + [journal[i]];
      manifest := ApplyPage(manifest, journal[i]);
      i := i + 1;
    }
    assert journal[..i] == journal;
    r := Some(manifest);
  }

  /**
   * Opens a cache for a scan. Whether it succeeds, is refused because the selection
   * changed, or breaks off half way, the next attempt starts from the same state.
   */
  method Open(disk: Disk, policy: string) returns (r: Option<ObjectCache>)
    modifies disk, disk.environment`faults
    ensures disk.environment.faults >= old(disk.environment.faults)
    ensures (r.None? ==> disk.environment.faults > old(disk.environment.faults)
                         || old(Base(disk.manifest, policy)).policy != policy)
    ensures (r.Some? ==> var now := r.value.manifest;
               if old(disk.manifest).None? then now == Manifest(policy, true, map[], {}, map[])
               else var last := old(disk.manifest).value;
                 if last.inProgress then now == Replayed(last, old(disk.journal))
                 else now == last.(inProgress := true, scopes := map[], completed := {}))
    ensures Base(disk.manifest, policy) == old(Base(disk.manifest, policy)) && disk.Live() == old(disk.Live())
    ensures disk.files == old(disk.files)
    ensures r.Some? ==> fresh(r.value) && r.value.disk == disk && r.value.policy == policy && r.value.Valid()
    ensures r.Some? ==> r.value.pending == map[]
    ensures r.Some? ==> Base(disk.manifest, policy).policy == policy
    ensures disk.manifest == old(disk.manifest) || disk.manifest == Some(old(Base(disk.manifest, policy)))
  {
    if disk.manifest.Some? && disk.manifest.value.policy != policy {
      return None;
    }
    var manifest := Base(disk.manifest, policy);
    if disk.manifest.None? || !disk.manifest.value.inProgress {
      var failed := disk.environment.Fails();
      if failed {
        return None;
      }
      disk.journal, disk.torn := [], false;
      failed := disk.environment.Fails();
      if failed {
        return None;
      }
      disk.manifest := Some(manifest);
    } else {
      var replayed := ReplayPages(manifest, disk.journal, disk.environment);
      if replayed.None? {
        return None;
      }
      manifest := replayed.value;
      disk.torn := false;
    }
    var cache := new ObjectCache.Load(disk, policy, manifest);
    assert WithPending(manifest, map[]) == manifest;
    r := Some(cache);
  }
}
