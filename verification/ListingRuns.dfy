/** What one run over a listing does, object by object and page by page. */
module ListingRuns {
  import opened ListingWorld
  import opened ObjectCaches
  import opened PathSelection
  import opened Surroundings
  import opened Wrappers

  /** What a run shows to the outside, in order. */
  datatype Event = Visited(key: string, content: Content) | Missed(name: Option<string>) | Saved(scope: string) | Finish

  datatype Reason = Io | RepeatedMarker | BadChecksum

  datatype Outcome = Complete | Incomplete | Aborted(reason: Reason)

  function VisitedKeys(log: seq<Event>): seq<string> {
    if log == [] then []
    else
      var last := log[|log| - 1];
      VisitedKeys(log[..|log| - 1]) + if last.Visited? then [last.key] else []
  }

  lemma {:induction false} VisitedKeysConcat(a: seq<Event>, b: seq<Event>)
    ensures VisitedKeys(a + b) == VisitedKeys(a) + VisitedKeys(b)
  {
    if b == [] {
      assert a + b == a;
    } else {
      assert (a + b)[..|a + b| - 1] == a + b[..|b| - 1];
      VisitedKeysConcat(a, b[..|b| - 1]);
    }
  }

  /** Nothing is visited but the bucket's own bytes. */
  ghost predicate Honest(w: World, log: seq<Event>) {
    forall e :: e in log && e.Visited? ==> w.content(e.key) == Some(e.content)
  }

  predicate Clean(log: seq<Event>) { forall e :: e in log ==> !e.Missed? }

  /** From the first miss on, no page is checkpointed and the scan does not count as finished. */
  ghost predicate NothingSavedAfterMiss(log: seq<Event>) {
    forall i, j :: 0 <= i < j < |log| && log[i].Missed? ==> !log[j].Saved? && !log[j].Finish?
  }

  /** The object was visited, or its download failed. */
  ghost predicate Met(log: seq<Event>, k: string) {
    exists e :: e in log && ((e.Visited? && e.key == k) || e == Missed(Some(k)))
  }

  ghost predicate MeetsAll(log: seq<Event>, keys: seq<string>) {
    forall k :: k in keys ==> Met(log, k)
  }

  lemma MeetsMore(before: seq<Event>, log: seq<Event>, keys: seq<string>)
    requires MeetsAll(before, keys) && before <= log
    ensures MeetsAll(log, keys)
  {
    assert forall e :: e in before ==> e in log;
  }

  lemma MeetsConcat(a: seq<Event>, b: seq<Event>, keys: seq<string>, more: seq<string>)
    requires MeetsAll(a, keys) && MeetsAll(b, more)
    ensures MeetsAll(a + b, keys + more)
  {
    assert forall e :: e in b ==> e in a + b;
    MeetsMore(a, a + b, keys);
  }

  lemma {:induction false} VisitedIsMet(log: seq<Event>, k: string)
    requires k in VisitedKeys(log)
    ensures Met(log, k)
  {
    var last := log[|log| - 1];
    if k in VisitedKeys(log[..|log| - 1]) {
      VisitedIsMet(log[..|log| - 1], k);
      var e :| e in log[..|log| - 1] && ((e.Visited? && e.key == k) || e == Missed(Some(k)));
      assert e in log;
    } else {
      assert last in log && last.Visited? && last.key == k;
    }
  }

  // ----- one object

  datatype Download = Data(version: ObjectVersion, content: Content) | Gone | Failed

  /** A download answers for the object as it is, under a label that stands for it, or fails. */
  method Fetch(w: World, environment: Environment, key: string, listed: ObjectVersion) returns (d: Download)
    requires Named(listed) ==> w.stands(key, listed.identity.value) == w.content(key)
    modifies environment
    ensures environment.downloads == old(environment.downloads) + 1
    ensures environment.faults == old(environment.faults) + if d.Failed? then 1 else 0
    ensures d.Data? ==> w.content(key) == Some(d.content) && Truthful(w, key, d.version, d.content)
    ensures d.Gone? ==> w.content(key) == None
  {
    environment.downloads := environment.downloads + 1;
    var failed := environment.Fails();
    if failed {
      return Failed;
    }
    if w.content(key) == None {
      return Gone;
    }
    var current: ObjectVersion := *;
    d := Data(if Truthful(w, key, current, w.content(key).value) then current else listed, w.content(key).value);
  }

  /** Files and memory agree with the bucket about everything stored in this run. */
  ghost predicate MemoryOk(w: World, state: Manifest, pending: map<string, CachedObject>, files: map<string, Content>) {
    && ObjectsAre(w, pending)
    && Labelled(w, state.objects)
    && FilesAgree(w, state.objects, files)
    && Kept(w, state.completed + pending.Keys, files)
  }

  ghost predicate Running(w: World, cache: ObjectCache)
    reads cache, cache.disk
  {
    && cache.Valid()
    && DiskOk(w, cache.disk, cache.policy)
    && MemoryOk(w, cache.disk.State(cache.policy), cache.pending, cache.disk.files)
  }

  lemma StoreIsOk(w: World, state: Manifest, pending: map<string, CachedObject>, files: map<string, Content>,
                  now: map<string, Content>, key: string, version: ObjectVersion, content: Content)
    requires MemoryOk(w, state, pending, files)
    requires w.content(key) == Some(content) && Truthful(w, key, version, content)
    requires now == files || now == files[key := content]
    ensures MemoryOk(w, state, pending, now)
    ensures (key in now && Some(now[key]) == w.content(key) ==>
               MemoryOk(w, state, pending[key := CachedObject(version, content)], now))
  {
  }

  /** Objects in memory: what the disk says, and what was stored since. */
  lemma InMemory(w: World, state: Manifest, pending: map<string, CachedObject>, files: map<string, Content>, k: string)
    requires MemoryOk(w, state, pending, files) && k in (state.objects + pending)
    ensures (var object' := (state.objects + pending)[k];
             && Truthful(w, k, object'.version, object'.digest)
             && (k in files ==> files[k] == object'.digest || Some(files[k]) == w.content(k)))
  {
  }

  datatype Obtained = Got(version: ObjectVersion, content: Content) | NotThere | Lost | Broken(reason: Reason)

  /** An object comes from the cache when its listed label says it is the same, and is downloaded otherwise. */
  method Obtain(w: World, cache: ObjectCache, e: Entry, key: string) returns (r: Obtained)
    requires Running(w, cache) && e.name == Some(key) && EntryIsTruthful(w, e)
    modifies cache.disk.environment
    ensures cache.disk.environment.faults == old(cache.disk.environment.faults) + if r.Lost? || r.Broken? then 1 else 0
    ensures (cache.disk.environment.downloads == old(cache.disk.environment.downloads)
             || !cache.Records(key, e.version) || key !in cache.disk.files)
    ensures r.Got? ==> w.content(key) == Some(r.content) && Truthful(w, key, r.version, r.content)
    ensures r.NotThere? ==> w.content(key) == None
    ensures r.Broken? ==> r.reason == Io
  {
    var cached := cache.Cached(key, e.version);
    if key in cache.manifest.objects {
      InMemory(w, cache.disk.State(cache.policy), cache.pending, cache.disk.files, key);
    }
    match cached
    case Found(content) => return Got(e.version, content);
    case Corrupt => return Broken(BadChecksum);
    case Unreadable => return Broken(Io);
    case Missing =>
      var d := Fetch(w, cache.disk.environment, key, e.version);
      match d
      case Data(version, content) => return Got(version, content);
      case Gone => return NotThere;
      case Failed => return Lost;
  }

  /** Visits one object that is not skipped: it is stored, then handed to the visitor, which may refuse. */
  method VisitEntry(w: World, cache: ObjectCache, e: Entry, key: string)
    returns (log: seq<Event>, broken: Option<Reason>)
    requires Running(w, cache) && e.name == Some(key) && EntryIsTruthful(w, e)
    modifies cache, cache.disk`files, cache.disk.environment
    ensures Running(w, cache) && Honest(w, log)
    ensures broken.None? || broken == Some(Io)
    ensures cache.disk.environment.faults >= old(cache.disk.environment.faults)
    ensures (broken.Some? || log == [Missed(Some(key))] ==>
               cache.disk.environment.faults > old(cache.disk.environment.faults))
    ensures (broken.None? ==>
               || (log == [Missed(Some(key))] && cache.pending == old(cache.pending))
               || (log == [] && w.content(key) == None && cache.pending == old(cache.pending))
               || (w.content(key).Some? && log == [Visited(key, w.content(key).value)]
                   && cache.pending.Keys == old(cache.pending).Keys + {key}))
    ensures forall x :: x in log ==> x.Visited? || x.Missed?
  {
    var r := Obtain(w, cache, e, key);
    match r
    case Broken(reason) => return [], Some(reason);
    case NotThere => return [], None;
    case Lost => return [Missed(Some(key))], None;
    case Got(version, content) =>
      var ok := StoreObject(w, cache, key, version, content);
      if !ok {
        return [], Some(Io);
      }
      var refused := cache.disk.environment.Fails();
      if refused {
        return [Visited(key, content)], Some(Io);
      }
      return [Visited(key, content)], None;
  }

  method StoreObject(w: World, cache: ObjectCache, key: string, version: ObjectVersion, content: Content)
    returns (ok: bool)
    requires Running(w, cache) && w.content(key) == Some(content) && Truthful(w, key, version, content)
    modifies cache, cache.disk`files, cache.disk.environment`faults
    ensures Running(w, cache)
    ensures cache.disk.environment.faults == old(cache.disk.environment.faults) + if ok then 0 else 1
    ensures (cache.pending
             == if ok then old(cache.pending)[key := CachedObject(version, content)] else old(cache.pending))
  {
    hide RecordOk, Truthful, FilesAgree, Kept, MemoryOk, Replayed;
    ghost var state, files := cache.disk.State(cache.policy), cache.disk.files;
    MemoryIsKept(w, state, cache.pending, files);
    if key in cache.manifest.objects { InMemory(w, state, cache.pending, files, key); }
    ok := cache.Store(key, version, content);
    StoreIsOk(w, state, old(cache.pending), files, cache.disk.files, key, version, content);
    MemoryIsKept(w, state, cache.pending, cache.disk.files);
  }

  /** What is right in memory is right on disk. */
  lemma MemoryIsKept(w: World, state: Manifest, pending: map<string, CachedObject>, files: map<string, Content>)
    requires MemoryOk(w, state, pending, files)
    ensures FilesAgree(w, state.objects, files) && Kept(w, state.completed, files)
  {
  }

  /** One entry: an undecodable name is a miss, a skipped object is passed over, any other is visited. */
  method VisitListed(w: World, cache: ObjectCache, e: Entry) returns (log: seq<Event>, broken: Option<Reason>)
    requires Running(w, cache) && EntryIsTruthful(w, e)
    modifies cache, cache.disk`files, cache.disk.environment
    ensures Running(w, cache) && Honest(w, log)
    ensures broken.None? || broken == Some(Io)
    ensures cache.disk.environment.faults >= old(cache.disk.environment.faults)
    ensures (cache.disk.environment.faults == old(cache.disk.environment.faults) ==>
               broken.None? && (e.name.Some? ==> Clean(log)))
    ensures forall x :: x in log ==> x.Visited? || x.Missed?
    ensures broken.None? ==> Stored(log, KeyOf(w, e), old(cache.pending).Keys, cache.pending.Keys)
    ensures broken.None? ==> MeetsAll(log, KeyOf(w, e)) && (Clean(log) ==> e.name.Some?)
  {
    hide Running, Skipped, EntryIsTruthful;
    if e.name.None? {
      return [Missed(None)], None;
    }
    var key := e.name.value;
    if Skipped(w, key, e) {
      return [], None;
    }
    log, broken := VisitEntry(w, cache, e, key);
    OneVisited(log);
    assert log != [] ==> log[0] in log;
  }

  // ----- one page

  /** Records a page. Whether or not that succeeds, the disk stays right. */
  method Checkpoint(w: World, cache: ObjectCache, scope: string, next: Option<string>) returns (ok: bool)
    requires Running(w, cache)
    requires RecordsNextPage(w, cache.disk.journal, PageCheckpoint(scope, ScopeState(next, next.None?), cache.pending))
    modifies cache, cache.disk`journal, cache.disk`torn, cache.disk.environment`faults
    ensures cache.disk.environment.faults == old(cache.disk.environment.faults) + if ok then 0 else 1
    ensures DiskOk(w, cache.disk, cache.policy)
    ensures |old(cache.disk.Live())| <= |cache.disk.Live()| <= |old(cache.disk.Live())| + 1
    ensures ok ==> Running(w, cache) && cache.pending == map[]
    ensures (ok ==> cache.disk.journal
                    == old(cache.disk.journal)
                       + [PageCheckpoint(scope, ScopeState(next, next.None?), old(cache.pending))])
    ensures (ok ==> cache.disk.State(cache.policy).completed
                    == old(cache.disk.State(cache.policy).completed + cache.pending.Keys))
  {
    hide RecordsNextPage, JournalOk, FilesAgree, Kept, MemoryOk, Replayed;
    ghost var base, journal, files := Base(cache.disk.manifest, cache.policy), cache.disk.journal, cache.disk.files;
    ghost var page := PageCheckpoint(scope, ScopeState(next, next.None?), cache.pending);
    CheckpointIsOk(w, base, journal, page, files);
    MemoryIsKept(w, Replayed(base, journal), cache.pending, files);
    ok := cache.FinishPage(scope, next);
  }

  lemma CheckpointIsOk(w: World, base: Manifest, journal: seq<PageCheckpoint>, page: PageCheckpoint,
                       files: map<string, Content>)
    requires RecordOk(w, base, journal) && RecordsNextPage(w, journal, page)
    requires MemoryOk(w, Replayed(base, journal), page.objects, files)
    ensures RecordOk(w, base, journal + [page])
    ensures (var state := Replayed(base, journal + [page]);
             && state.completed == Replayed(base, journal).completed + page.objects.Keys
             && MemoryOk(w, state, map[], files) && FilesAgree(w, state.objects, files)
             && Kept(w, state.completed, files))
  {
    hide RecordsNextPage, JournalOk, Replayed;
    ReplaySnoc(base, journal, page);
    JournalSnoc(w, journal, page);
    var state := Replayed(base, journal);
    forall k | k in state.objects + page.objects
      ensures Truthful(w, k, (state.objects + page.objects)[k].version, (state.objects + page.objects)[k].digest)
      ensures k in files ==> files[k] == (state.objects + page.objects)[k].digest || Some(files[k]) == w.content(k)
    {
      InMemory(w, state, page.objects, files, k);
    }
  }

  /** What was visited is what the finished pages hold, each object once if the listing names it once. */
  ghost predicate InStep(w: World, keys: seq<string>, completed: set<string>) {
    (ListsOnce(w) ==> NoDuplicates(keys)) && forall k :: k in keys <==> k in completed
  }

  /** A listing that names each object once lists nothing on a scope's next page that was visited before. */
  lemma PageStep(w: World, base: Manifest, journal: seq<PageCheckpoint>, scope: string, keys: seq<string>)
    requires scope in ScopesOf(w) && RecordOk(w, base, journal)
    requires InStep(w, keys, Replayed(base, journal).completed)
    ensures (var page := KeysAt(w, scope, Pages(journal, scope));
             InStep(w, keys + page, Replayed(base, journal).completed + SetOf(page)))
  {
    hide ScopesOf, JournalOk, Replayed, Labelled;
    var page := KeysAt(w, scope, Pages(journal, scope));
    if ListsOnce(w) {
      forall k | k in page ensures k !in keys {
        if k in keys { NotOnNextPage(w, base, journal, scope, k); }
      }
      NoDuplicatesConcat(keys, page);
    }
  }

  lemma NotOnNextPage(w: World, base: Manifest, journal: seq<PageCheckpoint>, scope: string, k: string)
    requires ListsOnce(w) && scope in ScopesOf(w) && RecordOk(w, base, journal)
    requires k in Replayed(base, journal).completed
    ensures k !in KeysAt(w, scope, Pages(journal, scope))
  {
    hide ScopesOf, JournalOk, Replayed, Labelled;
    var n := Pages(journal, scope);
    ReplayCompletes(w, base, journal, k);
    var scope', n': nat :| n' < Pages(journal, scope') && At(w, scope', n', k);
    OnlyOwnScopes(w, journal, scope');
    if At(w, scope, n, k) { ListedOnce(w, scope, n, scope', n', k); }
  }

  lemma NoDuplicatesConcat(a: seq<string>, b: seq<string>)
    requires NoDuplicates(a) && NoDuplicates(b) && forall k :: k in b ==> k !in a
    ensures NoDuplicates(a + b)
  {
    forall i, j | 0 <= i < j < |a + b| ensures (a + b)[i] != (a + b)[j] {
      if i < |a| <= j { assert b[j - |a|] in b; }
    }
  }

  // ----- logs

  lemma LogConcat(w: World, a: seq<Event>, b: seq<Event>)
    ensures Clean(a + b) <==> Clean(a) && Clean(b)
    ensures Honest(w, a) && Honest(w, b) ==> Honest(w, a + b)
    ensures VisitedKeys(a + b) == VisitedKeys(a) + VisitedKeys(b)
    ensures Saves(a + b) == Saves(a) + Saves(b)
  {
    VisitedKeysConcat(a, b);
    SavesConcat(a, b);
  }

  function Saves(log: seq<Event>): nat {
    if log == [] then 0 else Saves(log[..|log| - 1]) + if log[|log| - 1].Saved? then 1 else 0
  }

  lemma {:induction false} SavesConcat(a: seq<Event>, b: seq<Event>)
    ensures Saves(a + b) == Saves(a) + Saves(b)
  {
    if b == [] {
      assert a + b == a;
    } else {
      assert (a + b)[..|a + b| - 1] == a + b[..|b| - 1];
      SavesConcat(a, b[..|b| - 1]);
    }
  }

  lemma {:induction false} NoSaves(log: seq<Event>)
    requires forall e :: e in log ==> !e.Saved?
    ensures Saves(log) == 0
  {
    if log != [] { NoSaves(log[..|log| - 1]); }
  }

  /** Unless something was missed, exactly these keys were visited and stored. */
  ghost predicate Stored(log: seq<Event>, keys: seq<string>, before: set<string>, after: set<string>) {
    Clean(log) ==> VisitedKeys(log) == keys && after == before + SetOf(keys)
  }

  lemma PageIsNamed(w: World, scope: string, marker: Option<string>)
    requires Decodable(w)
    ensures AllNamed(w.listing(scope, marker).entries)
  {
  }

  lemma StoredWhenClean(log: seq<Event>, keys: seq<string>, before: set<string>, after: set<string>)
    requires Stored(log, keys, before, after) && Clean(log)
    ensures VisitedKeys(log) == keys && after == before + SetOf(keys)
  {
  }

  lemma StoredFromNothing(log: seq<Event>, keys: seq<string>, after: set<string>)
    requires Stored(log, keys, {}, after) && Clean(log)
    ensures VisitedKeys(log) == keys && after == SetOf(keys)
  {
    assert {} + SetOf(keys) == SetOf(keys);
  }

  lemma StoredConcat(log: seq<Event>, keys: seq<string>, more: seq<Event>, moreKeys: seq<string>,
                     a: set<string>, b: set<string>, c: set<string>)
    requires Stored(log, keys, a, b) && Stored(more, moreKeys, b, c)
    ensures Stored(log + more, keys + moreKeys, a, c)
  {
    VisitedKeysConcat(log, more);
  }

  /** Before the first entry of a page. */
  lemma NothingListed(w: World, entries: seq<Entry>, pending: set<string>)
    ensures Honest(w, []) && Clean([]) && Stored([], PageKeys(w, entries[..0]), pending, pending)
    ensures MeetsAll([], PageKeys(w, entries[..0])) && AllNamed(entries[..0])
  {
  }

  lemma PageKeysStep(w: World, entries: seq<Entry>, i: nat)
    requires i < |entries|
    ensures PageKeys(w, entries[..i + 1]) == PageKeys(w, entries[..i]) + KeyOf(w, entries[i])
  {
    assert entries[..i + 1][..i] == entries[..i];
  }

  lemma OneVisited(log: seq<Event>)
    ensures log == [] ==> VisitedKeys(log) == []
    ensures |log| == 1 && log[0].Visited? ==> VisitedKeys(log) == [log[0].key]
  {
  }

  // ----- a whole run so far

  /** What a run showed to the outside. */
  ghost predicate Outside(w: World, log: seq<Event>) {
    Honest(w, log) && NothingSavedAfterMiss(log) && Finish !in log
  }

  ghost predicate Progress(w: World, cache: ObjectCache, log: seq<Event>)
    reads cache, cache.disk
  {
    && Running(w, cache)
    && Outside(w, log)
    && (Clean(log) ==> cache.pending == map[] && InStep(w, VisitedKeys(log), cache.disk.State(cache.policy).completed))
    && MeetsCompleted(log, cache.disk.State(cache.policy).completed)
  }

  ghost predicate MeetsCompleted(log: seq<Event>, completed: set<string>) {
    forall k :: k in completed ==> Met(log, k)
  }

  lemma InStepMeets(w: World, log: seq<Event>, completed: set<string>)
    requires InStep(w, VisitedKeys(log), completed)
    ensures MeetsCompleted(log, completed)
  {
    forall k | k in completed ensures Met(log, k) { VisitedIsMet(log, k); }
  }

  lemma CompletedStayMet(before: seq<Event>, log: seq<Event>, completed: set<string>)
    requires MeetsCompleted(before, completed) && before <= log
    ensures MeetsCompleted(log, completed)
  {
    assert forall e :: e in before ==> e in log;
  }

  /** `now` records `n` more pages of a scope, and of no other. */
  ghost predicate Advanced(before: seq<PageCheckpoint>, now: seq<PageCheckpoint>, scope: string, n: nat) {
    forall s :: Pages(now, s) == Pages(before, s) + if s == scope then n else 0
  }

  lemma PageIsTruthful(w: World, scope: string, marker: Option<string>)
    requires Steady(w)
    ensures (var entries := w.listing(scope, marker).entries;
             forall i :: 0 <= i < |entries| ==> EntryIsTruthful(w, entries[i]))
  {
  }

  lemma VisitsSaveNothing(w: World, before: seq<Event>, more: seq<Event>)
    requires Outside(w, before) && Honest(w, more)
    requires forall x :: x in more ==> x.Visited? || x.Missed?
    ensures Outside(w, before + more) && Saves(before + more) == Saves(before)
  {
    NoSaves(more);
    SavesConcat(before, more);
    var log := before + more;
    forall i, j | 0 <= i < j < |log| && log[i].Missed? ensures !log[j].Saved? && !log[j].Finish? {
      if j >= |before| { assert more[j - |before|] in more; }
    }
  }

  lemma SaveWhileClean(w: World, log: seq<Event>, scope: string)
    requires Outside(w, log) && Clean(log)
    ensures Outside(w, log + [Saved(scope)]) && Clean(log + [Saved(scope)])
    ensures VisitedKeys(log + [Saved(scope)]) == VisitedKeys(log) && Saves(log + [Saved(scope)]) == Saves(log) + 1
  {
    assert (log + [Saved(scope)])[..|log|] == log;
  }

  /** A page gone through without a miss can be checkpointed, and keeps the run in step. */
  lemma PageIsRecordable(w: World, base: Manifest, journal: seq<PageCheckpoint>, scope: string, n: nat, page: Page,
                         pending: map<string, CachedObject>, files: map<string, Content>, before: seq<Event>,
                         more: seq<Event>)
    requires scope in ScopesOf(w) && RecordOk(w, base, journal)
    requires Marker(w, scope, n).Some? && page == w.listing(scope, Marker(w, scope, n).value)
    requires n == Pages(journal, scope)
    requires InStep(w, VisitedKeys(before), Replayed(base, journal).completed)
    requires MemoryOk(w, Replayed(base, journal), pending, files)
    requires VisitedKeys(more) == PageKeys(w, page.entries) && pending.Keys == SetOf(PageKeys(w, page.entries))
    requires AllNamed(page.entries)
    ensures (var line := PageCheckpoint(scope, ScopeState(page.next, page.next.None?), pending);
             && RecordsNextPage(w, journal, line)
             && Advanced(journal, journal + [line], scope, 1)
             && InStep(w, VisitedKeys(before + more), Replayed(base, journal).completed + pending.Keys))
  {
    hide PageKeys, Replayed, InStep, ListsOnce, Marker, FilesAgree, Kept, Labelled;
    var line := PageCheckpoint(scope, ScopeState(page.next, page.next.None?), pending);
    assert RecordsNextPage(w, journal, line) by { hide VisitedKeys, RecordOk; }
    JournalSnoc(w, journal, line);
    VisitedKeysConcat(before, more);
    PageStep(w, base, journal, scope, VisitedKeys(before));
  }

  lemma RunningIsOk(w: World, cache: ObjectCache)
    requires Running(w, cache)
    ensures DiskOk(w, cache.disk, cache.policy) && cache.disk.Live() == cache.disk.journal
  {
  }

  method SavePage(w: World, cache: ObjectCache, scope: string, ghost n: nat, page: Page, ghost before: seq<Event>,
                  ghost more: seq<Event>)
    returns (ok: bool)
    requires Running(w, cache) && scope in ScopesOf(w)
    requires Outside(w, before + more) && Clean(before + more)
    requires Marker(w, scope, n).Some? && page == w.listing(scope, Marker(w, scope, n).value)
    requires n == Pages(cache.disk.journal, scope)
    requires InStep(w, VisitedKeys(before), cache.disk.State(cache.policy).completed)
    requires VisitedKeys(more) == PageKeys(w, page.entries) && cache.pending.Keys == SetOf(PageKeys(w, page.entries))
    requires AllNamed(page.entries)
    modifies cache, cache.disk`journal, cache.disk`torn, cache.disk.environment`faults
    ensures cache.disk.environment.faults == old(cache.disk.environment.faults) + if ok then 0 else 1
    ensures DiskOk(w, cache.disk, cache.policy)
    ensures Outside(w, before + more + [Saved(scope)])
    ensures Saves(before + more + [Saved(scope)]) == Saves(before + more) + 1
    ensures |old(cache.disk.Live())| <= |cache.disk.Live()| <= |old(cache.disk.Live())| + 1
    ensures ok ==> Progress(w, cache, before + more + [Saved(scope)]) && Clean(before + more + [Saved(scope)])
    ensures ok ==> Advanced(old(cache.disk.journal), cache.disk.journal, scope, 1)
  {
    hide Replayed, InStep, Outside, Pages, Marker, PageKeys, RecordsNextPage, MemoryOk, RecordOk, FilesAgree, Kept,
         Saves, VisitedKeys, Clean, Advanced;
    PageIsRecordable(w, Base(cache.disk.manifest, cache.policy), cache.disk.journal, scope, n, page,
                     cache.pending, cache.disk.files, before, more);
    SaveWhileClean(w, before + more, scope);
    ghost var completed := cache.disk.State(cache.policy).completed + cache.pending.Keys;
    InStepMeets(w, before + more + [Saved(scope)], completed);
    ok := Checkpoint(w, cache, scope, page.next);
  }

  // ----- replaying earlier runs

  /** Hands out again what earlier runs of the scan completed; none of it can have been lost. */
  method ReplayCompleted(w: World, cache: ObjectCache) returns (log: seq<Event>, broken: Option<Reason>)
    requires Running(w, cache) && cache.pending == map[]
    modifies cache.disk.environment`faults
    ensures cache.disk.environment.faults == old(cache.disk.environment.faults) + if broken.None? then 0 else 1
    ensures Honest(w, log) && forall x :: x in log ==> x.Visited?
    ensures broken.None? || broken == Some(Io)
    ensures broken.None? ==> InStep(w, VisitedKeys(log), cache.disk.State(cache.policy).completed)
  {
    hide VisitedKeys, Replayed, JournalOk, FilesAgree;
    log, broken := [], None;
    ghost var state := cache.disk.State(cache.policy);
    NothingVisited(w);
    var left := cache.CompletedObjects();
    while left != {}
      invariant left <= state.completed && broken.None?
      invariant cache.disk.environment.faults == old(cache.disk.environment.faults) && Running(w, cache)
      invariant Honest(w, log) && forall x :: x in log ==> x.Visited?
      invariant InStep(w, VisitedKeys(log), state.completed - left)
      decreases left
    {
      hide MemoryOk, Running, InStep;
      var key :| key in left;
      left := left - {key};
      assert Running(w, cache);
      CompletedIsReadable(w, cache, key);
      var r := cache.Read(key);
      if !r.Found? {
        return log, Some(if r.Unreadable? then Io else BadChecksum);
      }
      LogConcat(w, log, [Visited(key, r.content)]);
      OneVisited([Visited(key, r.content)]);
      OneMore(w, VisitedKeys(log), state.completed - left - {key}, key);
      assert state.completed - left == state.completed - left - {key} + {key};
      assert state.completed - (left + {key}) == state.completed - left - {key};
      log := log + [Visited(key, r.content)];
      var refused := cache.disk.environment.Fails();
      if refused {
        return log, Some(Io);
      }
    }
  }

  lemma NothingVisited(w: World)
    ensures VisitedKeys([]) == [] && InStep(w, [], {})
  {
  }

  lemma OneMore(w: World, keys: seq<string>, completed: set<string>, key: string)
    requires InStep(w, keys, completed) && key !in completed
    ensures InStep(w, keys + [key], completed + {key})
  {
    if NoDuplicates(keys) { NoDuplicatesConcat(keys, [key]); }
  }

  lemma CompletedIsReadable(w: World, cache: ObjectCache, key: string)
    requires Running(w, cache) && cache.pending == map[] && key in cache.disk.State(cache.policy).completed
    ensures key in cache.disk.files && key in cache.manifest.objects
    ensures Some(cache.disk.files[key]) == w.content(key) == Some(cache.manifest.objects[key].digest)
  {
    ReplayedObjects(w, Base(cache.disk.manifest, cache.policy), cache.disk.Live(), key);
  }

  // ----- beginning and end

  lemma OpenedIsRunning(w: World, cache: ObjectCache)
    requires cache.Valid() && cache.pending == map[] && DiskOk(w, cache.disk, cache.policy)
    ensures Running(w, cache)
  {
    ReplayKeepsLabels(w, Base(cache.disk.manifest, cache.policy), cache.disk.Live());
  }

  method OpenRun(w: World, disk: Disk, policy: string) returns (r: Option<ObjectCache>)
    requires Base(disk.manifest, policy).policy == policy ==> DiskOk(w, disk, policy)
    modifies disk, disk.environment`faults
    ensures disk.environment.faults >= old(disk.environment.faults)
    ensures (r.None? ==> disk.environment.faults > old(disk.environment.faults)
                         || old(Base(disk.manifest, policy)).policy != policy)
    ensures Base(disk.manifest, policy).policy == policy ==> DiskOk(w, disk, policy)
    ensures disk.Live() == old(disk.Live()) && Base(disk.manifest, policy) == old(Base(disk.manifest, policy))
    ensures r.Some? ==> fresh(r.value) && r.value.disk == disk
    ensures r.Some? ==> r.value.policy == policy == Base(disk.manifest, policy).policy
    ensures r.Some? ==> Running(w, r.value) && r.value.pending == map[]
  {
    hide RecordOk, FilesAgree, Kept, Replayed, MemoryOk;
    r := Open(disk, policy);
    if r.Some? { OpenedIsRunning(w, r.value); }
  }

  lemma NothingShown(w: World)
    ensures Outside(w, []) && Saves([]) == 0
  {
  }

  lemma OnlyVisits(w: World, log: seq<Event>)
    requires Honest(w, log) && forall x :: x in log ==> x.Visited?
    ensures Outside(w, log) && Clean(log) && Saves(log) == 0
  {
    NoSaves(log);
    assert forall i :: 0 <= i < |log| ==> log[i] in log;
  }

  lemma ReplayedInStep(w: World, cache: ObjectCache, log: seq<Event>)
    requires Running(w, cache) && cache.pending == map[] && Honest(w, log) && forall x :: x in log ==> x.Visited?
    requires InStep(w, VisitedKeys(log), cache.disk.State(cache.policy).completed)
    ensures Progress(w, cache, log) && Clean(log) && Saves(log) == 0
  {
    hide Running, InStep, VisitedKeys, Replayed, Honest, Outside;
    OnlyVisits(w, log);
    InStepMeets(w, log, cache.disk.State(cache.policy).completed);
  }

  /** Each object that some page lists for visiting was visited, once if the listing names it once, and nothing
      else was. */
  ghost predicate VisitedExactly(w: World, log: seq<Event>) {
    (ListsOnce(w) ==> NoDuplicates(VisitedKeys(log))) && forall k :: k in VisitedKeys(log) <==> Selected(w, k)
  }

  lemma AllScopesDone(w: World, base: Manifest, journal: seq<PageCheckpoint>, log: seq<Event>)
    requires RecordOk(w, base, journal) && InStep(w, VisitedKeys(log), Replayed(base, journal).completed)
    requires forall scope :: scope in ScopesOf(w) ==> Position(w, journal, scope) == None
    ensures VisitedExactly(w, log) && NamedThroughout(w)
  {
    hide ScopesOf, VisitedKeys, JournalOk, Replayed, Labelled, AllNamed;
    forall scope, n: nat | scope in ScopesOf(w) && Marker(w, scope, n).Some? ensures NamedAt(w, scope, n) {
      if Pages(journal, scope) <= n { NoPagesAfterLast(w, scope, Pages(journal, scope), n); }
      RecordedIsNamed(w, journal, scope, n);
    }
    forall k ensures k in VisitedKeys(log) <==> Selected(w, k) {
      ReplayCompletes(w, base, journal, k);
      if Recorded(w, journal, k) {
        var scope, n: nat :| n < Pages(journal, scope) && At(w, scope, n, k);
        OnlyOwnScopes(w, journal, scope);
      }
      if scope, n :| scope in ScopesOf(w) && At(w, scope, n, k) {
        if Pages(journal, scope) <= n { NoPagesAfterLast(w, scope, Pages(journal, scope), n); }
      }
    }
  }

  lemma FinishSaves(w: World, log: seq<Event>)
    requires Outside(w, log) && Clean(log)
    ensures (var all := log + [Finish];
             && Honest(w, all) && NothingSavedAfterMiss(all) && Clean(all)
             && VisitedKeys(all) == VisitedKeys(log) && Saves(all) == Saves(log))
  {
    assert (log + [Finish])[..|log|] == log;
  }

  /** Finishing leaves the disk ready for the next scan; breaking off leaves it where it was. */
  method FinishRun(w: World, cache: ObjectCache) returns (ok: bool)
    requires Running(w, cache) && cache.pending == map[]
    modifies cache, cache.disk, cache.disk.environment`faults
    ensures cache.disk.environment.faults == old(cache.disk.environment.faults) + if ok then 0 else 1
    ensures DiskOk(w, cache.disk, cache.policy)
    ensures Base(cache.disk.manifest, cache.policy).policy == old(Base(cache.disk.manifest, cache.policy)).policy
    ensures ok ==> Settled(cache.disk)
    ensures |cache.disk.Live()| <= |old(cache.disk.Live())|
  {
    hide JournalOk, Replayed;
    forall k | k in cache.manifest.completed
      ensures k in cache.disk.files && k in cache.manifest.objects
      ensures cache.disk.files[k] == cache.manifest.objects[k].digest
    {
      CompletedIsReadable(w, cache, k);
    }
    ghost var policy := cache.policy;
    ok := cache.Finish();
    if cache.disk.manifest != old(cache.disk.manifest) { SettledIsOk(w, cache.disk, cache.policy); }
  }

  lemma ResumesAt(w: World, cache: ObjectCache, scope: string)
    requires Running(w, cache)
    ensures cache.ScopeComplete(scope) <==> Position(w, cache.disk.journal, scope) == None
    ensures (Position(w, cache.disk.journal, scope).Some? ==>
               Position(w, cache.disk.journal, scope).value == cache.ContinuationToken(scope))
  {
    ReplayResumes(w, Base(cache.disk.manifest, cache.policy), cache.disk.journal, scope);
  }

  lemma ScopesAreApart(w: World)
    ensures forall i, j :: 0 <= i < j < |ScopesOf(w)| ==> ScopesOf(w)[i] != ScopesOf(w)[j]
  {
    ScopesAreSound(w.selection, None);
    hide Scopes;
    forall i, j | 0 <= i < j < |ScopesOf(w)| ensures ScopesOf(w)[i] != ScopesOf(w)[j] {
      NotLessThanItself(ScopesOf(w)[i]);
    }
  }

  lemma EndOfRun(w: World, cache: ObjectCache, log: seq<Event>)
    requires Progress(w, cache, log) && Clean(log)
    requires forall scope :: scope in ScopesOf(w) ==> Position(w, cache.disk.journal, scope) == None
    ensures cache.pending == map[] && cache.disk.Live() == cache.disk.journal
    ensures VisitedExactly(w, log + [Finish]) && NamedThroughout(w)
    ensures Honest(w, log + [Finish]) && NothingSavedAfterMiss(log + [Finish])
    ensures Saves(log + [Finish]) == Saves(log)
  {
    hide ScopesOf, Position, VisitedKeys, Saves, JournalOk, Replayed;
    AllScopesDone(w, Base(cache.disk.manifest, cache.policy), cache.disk.journal, log);
    FinishSaves(w, log);
  }

  /** Everything that some page of a scope lists for visiting was met. */
  ghost predicate MeetsScope(w: World, log: seq<Event>, scope: string) {
    forall n :: MeetsAll(log, KeysAt(w, scope, n))
  }

  /** The pages that earlier runs recorded were met when they were replayed. */
  lemma RecordedAreMet(w: World, cache: ObjectCache, log: seq<Event>, scope: string, n: nat)
    requires Progress(w, cache, log) && n < Pages(cache.disk.journal, scope)
    ensures MeetsAll(log, KeysAt(w, scope, n))
  {
    forall k | k in KeysAt(w, scope, n) ensures Met(log, k) {
      assert At(w, scope, n, k) && Recorded(w, cache.disk.journal, k);
      ReplayCompletes(w, Base(cache.disk.manifest, cache.policy), cache.disk.journal, k);
    }
  }

  lemma WholeScopeIsMet(w: World, log: seq<Event>, scope: string, n: nat)
    requires Marker(w, scope, n) == None && forall m: nat :: m < n ==> MeetsAll(log, KeysAt(w, scope, m))
    ensures MeetsScope(w, log, scope)
  {
    forall m: nat ensures MeetsAll(log, KeysAt(w, scope, m)) {
      if n <= m { NoPagesAfterLast(w, scope, n, m); }
    }
  }

  lemma ScopeStaysMet(w: World, before: seq<Event>, log: seq<Event>, scope: string)
    requires MeetsScope(w, before, scope) && before <= log
    ensures MeetsScope(w, log, scope)
  {
    forall n: nat ensures MeetsAll(log, KeysAt(w, scope, n)) { MeetsMore(before, log, KeysAt(w, scope, n)); }
  }

  /** Nothing that is to be visited was passed over in silence. */
  ghost predicate MeetsSelected(w: World, log: seq<Event>) {
    forall k :: Selected(w, k) ==> Met(log, k)
  }

  lemma AllScopesMet(w: World, log: seq<Event>)
    requires forall scope :: scope in ScopesOf(w) ==> MeetsScope(w, log, scope)
    ensures MeetsSelected(w, log)
  {
    hide ScopesOf;
    forall k | Selected(w, k) ensures Met(log, k) {
      var scope, n: nat :| scope in ScopesOf(w) && At(w, scope, n, k);
      assert MeetsAll(log, KeysAt(w, scope, n));
    }
  }

  lemma CompleteScopeIsMet(w: World, cache: ObjectCache, log: seq<Event>, scope: string)
    requires Progress(w, cache, log) && Position(w, cache.disk.journal, scope) == None
    ensures MeetsScope(w, log, scope)
  {
    var n := Pages(cache.disk.journal, scope);
    forall m: nat | m < n ensures MeetsAll(log, KeysAt(w, scope, m)) { RecordedAreMet(w, cache, log, scope, m); }
    WholeScopeIsMet(w, log, scope, n);
  }

  lemma KeysOfPage(w: World, scope: string, n: nat)
    requires Marker(w, scope, n).Some?
    ensures KeysAt(w, scope, n) == PageKeys(w, w.listing(scope, Marker(w, scope, n).value).entries)
  {
  }

  lemma MeetsAfter(before: seq<Event>, more: seq<Event>, keys: seq<string>)
    requires MeetsAll(more, keys)
    ensures MeetsAll(before + more, keys)
  {
    assert forall e :: e in more ==> e in before + more;
  }
}
