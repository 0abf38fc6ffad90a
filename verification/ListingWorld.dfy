/**
 * A bucket that does not change while it is listed, and what a journal of finished
 * pages then says about it.
 */
module ListingWorld {
  import opened ObjectCaches
  import opened PathSelection
  import opened Sets
  import opened Texts
  import opened Wrappers

  /** One listed object; its name is missing when it cannot be decoded. */
  datatype Entry = Entry(name: Option<string>, version: ObjectVersion, directory: bool)

  datatype Page = Page(entries: seq<Entry>, next: Option<string>)

  /**
   * What the server answers: a page for each scope and continuation marker, and the
   * bytes of each object (none when it is gone or larger than the limit). `stands`
   * gives the bytes a version label stands for, now and in earlier scans.
   */
  datatype World = World(
    selection: Selection,
    limit: Option<nat>,
    listing: (string, Option<string>) -> Page,
    tokens: set<string>,
    content: string -> Option<Content>,
    stands: (string, string) -> Option<Content>,
    representable: string -> bool)

  function ScopesOf(w: World): seq<string> { Scopes(w.selection, None) }

  function SetOf(keys: seq<string>): (r: set<string>)
    ensures forall k :: k in r <==> k in keys
  {
    set k | k in keys
  }

  // ----- which listed objects are visited

  predicate TooLarge(w: World, size: Option<nat>) {
    w.limit.Some? && size.Some? && size.value > w.limit.value
  }

  predicate EndsWithSlash(key: string) { key != "" && key[|key| - 1] == '/' }

  /** Entries that no scan visits. */
  predicate Skipped(w: World, key: string, e: Entry) {
    || key == ""
    || !Matches(w.selection, key)
    || e.directory
    || (EndsWithSlash(key) && e.version.size == Some(0))
    || TooLarge(w, e.version.size)
    || !w.representable(key)
  }

  predicate Wanted(w: World, e: Entry) {
    e.name.Some? && !Skipped(w, e.name.value, e) && w.content(e.name.value).Some?
  }

  /** The keys of a page that are visited, in order. */
  function PageKeys(w: World, entries: seq<Entry>): seq<string> {
    if entries == [] then []
    else
      var last := entries[|entries| - 1];
      PageKeys(w, entries[..|entries| - 1]) + KeyOf(w, last)
  }

  function KeyOf(w: World, e: Entry): seq<string> {
    if Wanted(w, e) then [e.name.value] else []
  }

  lemma {:induction false} PageKeysAre(w: World, entries: seq<Entry>, k: string)
    ensures (k in PageKeys(w, entries) <==>
             exists i :: 0 <= i < |entries| && Wanted(w, entries[i]) && entries[i].name.value == k)
  {
    hide Wanted;
    if entries != [] {
      var front, last := entries[..|entries| - 1], entries[|entries| - 1];
      PageKeysAre(w, front, k);
      assert forall i :: 0 <= i < |front| ==> front[i] == entries[i];
    }
  }

  // ----- the pages of a scope

  /** The marker that page `n` of a scope is asked for with, if there is such a page. */
  function Marker(w: World, scope: string, n: nat): Option<Option<string>> {
    if n == 0 then Some(None)
    else
      var previous := Marker(w, scope, n - 1);
      if previous.None? then None
      else
        var next := w.listing(scope, previous.value).next;
        if next.Some? then Some(next) else None
  }

  lemma NextMarker(w: World, scope: string, n: nat)
    requires Marker(w, scope, n).Some?
    ensures (var next := w.listing(scope, Marker(w, scope, n).value).next;
             Marker(w, scope, n + 1) == if next.Some? then Some(next) else None)
  {
  }

  function KeysAt(w: World, scope: string, n: nat): seq<string> {
    var m := Marker(w, scope, n);
    if m.None? then [] else PageKeys(w, w.listing(scope, m.value).entries)
  }

  predicate At(w: World, scope: string, n: nat, k: string) { k in KeysAt(w, scope, n) }

  lemma {:induction false} NoPagesAfterLast(w: World, scope: string, last: nat, n: nat)
    requires Marker(w, scope, last) == None && last <= n
    ensures Marker(w, scope, n) == None
    decreases n
  {
    if last < n { NoPagesAfterLast(w, scope, last, n - 1); }
  }

  /** The listing of the scope comes to a page without a continuation marker. */
  ghost predicate Ends(w: World, scope: string) {
    exists n :: Marker(w, scope, n) == None
  }

  /** Two pages of the scope are asked for with the same marker. */
  ghost predicate Cycles(w: World, scope: string) {
    exists a: nat, b: nat :: a < b && Marker(w, scope, a).Some? && Marker(w, scope, a) == Marker(w, scope, b)
  }

  ghost predicate AllScopesEnd(w: World) {
    forall scope :: scope in ScopesOf(w) ==> Ends(w, scope)
  }

  lemma EndsHere(w: World, scope: string, n: nat)
    requires Marker(w, scope, n) == None
    ensures Ends(w, scope)
  {
  }

  /** One of the pages up to the n-th is asked for with the marker. */
  ghost predicate AskedWith(w: World, scope: string, n: nat, marker: string) {
    exists k: nat :: k <= n && Marker(w, scope, k) == Some(Some(marker))
  }

  ghost predicate AllAsked(w: World, scope: string, n: nat, markers: set<string>) {
    forall m :: m in markers ==> AskedWith(w, scope, n, m)
  }

  lemma AskedNow(w: World, scope: string, n: nat, marker: Option<string>)
    requires Marker(w, scope, n) == Some(marker)
    ensures AllAsked(w, scope, n, if marker.Some? then {marker.value} else {})
  {
  }

  /** The marker of the next page is new, or the listing runs in a circle. */
  lemma NextIsAsked(w: World, scope: string, n: nat, marker: Option<string>, markers: set<string>)
    requires Steady(w) && Marker(w, scope, n) == Some(marker) && AllAsked(w, scope, n, markers)
    ensures (match w.listing(scope, marker).next
             case None => Marker(w, scope, n + 1) == None && AllAsked(w, scope, n + 1, markers)
             case Some(next) =>
               && Marker(w, scope, n + 1) == Some(Some(next)) && next in w.tokens
               && AllAsked(w, scope, n + 1, markers + {next}) && (next in markers ==> Cycles(w, scope)))
  {
    NextMarker(w, scope, n);
    hide Marker;
    forall m | m in markers ensures AskedWith(w, scope, n + 1, m) {
      var k: nat :| k <= n && Marker(w, scope, k) == Some(Some(m));
      assert k <= n + 1;
    }
    var next := w.listing(scope, marker).next;
    if next.Some? && next.value in markers { ComesBack(w, scope, n, next.value); }
  }

  lemma ComesBack(w: World, scope: string, n: nat, next: string)
    requires AskedWith(w, scope, n, next) && Marker(w, scope, n + 1) == Some(Some(next))
    ensures Cycles(w, scope)
  {
    hide Marker;
    var k: nat :| k <= n && Marker(w, scope, k) == Some(Some(next));
    assert k < n + 1 && Marker(w, scope, k) == Marker(w, scope, n + 1);
  }

  lemma {:induction false} SameFromThere(w: World, scope: string, a: nat, b: nat, k: nat)
    requires Marker(w, scope, a) == Marker(w, scope, b)
    ensures Marker(w, scope, a + k) == Marker(w, scope, b + k)
  {
    if k > 0 { SameFromThere(w, scope, a, b, k - 1); }
  }

  lemma {:induction false} CycleGoesOn(w: World, scope: string, a: nat, b: nat, n: nat)
    requires a < b && Marker(w, scope, a).Some? && Marker(w, scope, a) == Marker(w, scope, b)
    ensures Marker(w, scope, n).Some?
  {
    if n <= b {
      if Marker(w, scope, n) == None { NoPagesAfterLast(w, scope, n, b); }
    } else {
      SameFromThere(w, scope, a, b, n - b);
      CycleGoesOn(w, scope, a, b, n - (b - a));
    }
  }

  /** The markers of the first `n` pages after the first one. */
  ghost function MarkersTo(w: World, scope: string, n: nat): set<Option<Option<string>>> {
    set k | 1 <= k <= n :: Marker(w, scope, k)
  }

  lemma {:induction false} DifferentMarkers(w: World, scope: string, n: nat)
    requires !Ends(w, scope) && !Cycles(w, scope)
    ensures |MarkersTo(w, scope, n)| == n
  {
    if n > 0 {
      DifferentMarkers(w, scope, n - 1);
      assert Marker(w, scope, n).Some?;
      assert Marker(w, scope, n) !in MarkersTo(w, scope, n - 1);
      assert MarkersTo(w, scope, n) == MarkersTo(w, scope, n - 1) + {Marker(w, scope, n)};
    } else {
      assert MarkersTo(w, scope, 0) == {};
    }
  }

  /** With finitely many markers, the listing of a scope comes to an end if and only if it never repeats one. */
  lemma EndsUnlessCyclic(w: World, scope: string)
    requires Steady(w)
    ensures Ends(w, scope) <==> !Cycles(w, scope)
  {
    if Cycles(w, scope) {
      var a: nat, b: nat :| a < b && Marker(w, scope, a).Some? && Marker(w, scope, a) == Marker(w, scope, b);
      forall n: nat ensures Marker(w, scope, n).Some? { CycleGoesOn(w, scope, a, b, n); }
    } else if !Ends(w, scope) {
      var n := |w.tokens| + 1;
      DifferentMarkers(w, scope, n);
      var named := set t | t in w.tokens :: Some(Some(t));
      forall k: nat | 1 <= k ensures Marker(w, scope, k) in named {
        assert Marker(w, scope, k).Some? && Marker(w, scope, k - 1).Some?;
        NextMarker(w, scope, k - 1);
      }
      assert MarkersTo(w, scope, n) <= named;
      SubsetSize(MarkersTo(w, scope, n), named);
      ImageSize(w.tokens);
    }
  }

  /** A listing that runs in a circle is never finished. */
  lemma NoScopeCycles(w: World)
    requires Steady(w) && AllScopesEnd(w)
    ensures forall scope :: scope in ScopesOf(w) ==> !Cycles(w, scope)
  {
    hide ScopesOf;
    forall scope | scope in ScopesOf(w) ensures !Cycles(w, scope) { EndsUnlessCyclic(w, scope); }
  }

  lemma {:induction false} ImageSize(tokens: set<string>)
    ensures |set t | t in tokens :: Some(Some(t))| <= |tokens|
  {
    if tokens != {} {
      var t :| t in tokens;
      ImageSize(tokens - {t});
      assert (set x | x in tokens :: Some(Some(x))) == (set x | x in tokens - {t} :: Some(Some(x))) + {Some(Some(t))};
    }
  }

  // ----- what is assumed of the server

  predicate Named(version: ObjectVersion) { version.identity.Some? && version.identity.value != "" }

  predicate Truthful(w: World, key: string, version: ObjectVersion, content: Content) {
    Named(version) ==> w.stands(key, version.identity.value) == Some(content)
  }

  ghost predicate EntryIsTruthful(w: World, e: Entry) {
    e.name.Some? && Named(e.version) ==> w.stands(e.name.value, e.version.identity.value) == w.content(e.name.value)
  }

  predicate NoDuplicates(s: seq<string>) {
    forall i, j :: 0 <= i < j < |s| ==> s[i] != s[j]
  }

  /** A listing names finitely many continuation markers, and labels the objects as they are. */
  ghost predicate Steady(w: World) {
    && (forall scope, m {:trigger w.listing(scope, m)} ::
          w.listing(scope, m).next.Some? ==> w.listing(scope, m).next.value in w.tokens)
    && (forall scope, m, i :: 0 <= i < |w.listing(scope, m).entries| ==>
          EntryIsTruthful(w, w.listing(scope, m).entries[i]))
  }

  ghost predicate AllNamed(entries: seq<Entry>) { forall i :: 0 <= i < |entries| ==> entries[i].name.Some? }

  lemma NamedSnoc(entries: seq<Entry>, i: nat)
    requires i < |entries|
    ensures AllNamed(entries[..i + 1]) <==> AllNamed(entries[..i]) && entries[i].name.Some?
    ensures AllNamed(entries) ==> entries[i].name.Some?
  {
    if AllNamed(entries[..i + 1]) {
      assert entries[..i + 1][i] == entries[i];
      forall k | 0 <= k < i ensures entries[..i][k].name.Some? { assert entries[..i + 1][k].name.Some?; }
    }
  }

  /** Every name on the n-th page of the scope, if there is one, can be decoded. */
  ghost predicate NamedAt(w: World, scope: string, n: nat) {
    var m := Marker(w, scope, n); m.Some? ==> AllNamed(w.listing(scope, m.value).entries)
  }

  ghost predicate NamedThroughout(w: World) {
    forall scope, n: nat :: scope in ScopesOf(w) ==> NamedAt(w, scope, n)
  }

  /** Every listed name can be decoded. */
  ghost predicate Decodable(w: World) {
    forall scope, m, i :: 0 <= i < |w.listing(scope, m).entries| ==> w.listing(scope, m).entries[i].name.Some?
  }

  /** Some scope's listing runs in a circle. */
  ghost predicate SomeScopeCycles(w: World) {
    exists scope :: scope in ScopesOf(w) && Cycles(w, scope)
  }

  /** It lists each object once in a scope, and only objects of that scope. */
  ghost predicate ListsOnce(w: World) {
    && (forall scope, n {:trigger KeysAt(w, scope, n)} :: NoDuplicates(KeysAt(w, scope, n)))
    && (forall scope, n, n', k :: At(w, scope, n, k) && At(w, scope, n', k) ==> n == n')
    && (forall scope, n, k :: At(w, scope, n, k) ==> StartsWith(k, scope))
  }

  /** Then no object is listed in two places: its scope is fixed because scopes do not overlap. */
  lemma ListedOnce(w: World, s: string, n: nat, s': string, n': nat, k: string)
    requires ListsOnce(w) && s in ScopesOf(w) && s' in ScopesOf(w)
    requires At(w, s, n, k) && At(w, s', n', k)
    ensures s == s' && n == n'
  {
    ScopesAreSound(w.selection, None);
    var i :| 0 <= i < |ScopesOf(w)| && ScopesOf(w)[i] == s;
    var i' :| 0 <= i' < |ScopesOf(w)| && ScopesOf(w)[i'] == s';
    ScopeIsUnique(ScopesOf(w), k, i, i');
  }

  /** Every key some page of some scope lists for visiting. */
  ghost predicate Selected(w: World, k: string) {
    exists scope, n :: scope in ScopesOf(w) && At(w, scope, n, k)
  }

  // ----- journals

  function Pages(journal: seq<PageCheckpoint>, scope: string): nat {
    if journal == [] then 0
    else Pages(journal[..|journal| - 1], scope) + if journal[|journal| - 1].prefix == scope then 1 else 0
  }

  function Position(w: World, journal: seq<PageCheckpoint>, scope: string): Option<Option<string>> {
    Marker(w, scope, Pages(journal, scope))
  }

  ghost predicate ObjectsAre(w: World, objects: map<string, CachedObject>) {
    forall k :: k in objects ==>
      Some(objects[k].digest) == w.content(k) && Truthful(w, k, objects[k].version, objects[k].digest)
  }

  /** A checkpoint records the scope's next page: everything on it that is to be visited, and how to go on. */
  ghost predicate RecordsNextPage(w: World, before: seq<PageCheckpoint>, page: PageCheckpoint) {
    var at := Position(w, before, page.prefix);
    && page.prefix in ScopesOf(w)
    && at.Some?
    && (var next := w.listing(page.prefix, at.value).next; page.state == ScopeState(next, next.None?))
    && NamedAt(w, page.prefix, Pages(before, page.prefix))
    && page.objects.Keys == SetOf(KeysAt(w, page.prefix, Pages(before, page.prefix)))
    && ObjectsAre(w, page.objects)
  }

  ghost predicate JournalOk(w: World, journal: seq<PageCheckpoint>) {
    journal == [] || (JournalOk(w, journal[..|journal| - 1])
                      && RecordsNextPage(w, journal[..|journal| - 1], journal[|journal| - 1]))
  }

  ghost predicate Unstarted(m: Manifest) { m.scopes == map[] && m.completed == {} }

  /** The keys of the pages a journal records. */
  ghost predicate Recorded(w: World, journal: seq<PageCheckpoint>, k: string) {
    exists scope, n: nat :: n < Pages(journal, scope) && At(w, scope, n, k)
  }

  lemma JournalSnoc(w: World, journal: seq<PageCheckpoint>, page: PageCheckpoint)
    requires JournalOk(w, journal) && RecordsNextPage(w, journal, page)
    ensures JournalOk(w, journal + [page])
    ensures forall scope ::
              Pages(journal + [page], scope) == Pages(journal, scope) + if scope == page.prefix then 1 else 0
  {
    assert (journal + [page])[..|journal|] == journal;
  }

  /** A journal is about the scan's own scopes. */
  lemma {:induction false} OnlyOwnScopes(w: World, journal: seq<PageCheckpoint>, scope: string)
    requires JournalOk(w, journal) && Pages(journal, scope) > 0
    ensures scope in ScopesOf(w)
  {
    if journal[|journal| - 1].prefix != scope { OnlyOwnScopes(w, journal[..|journal| - 1], scope); }
  }

  /** A page is recorded only if all its names can be decoded. */
  lemma {:induction false} RecordedIsNamed(w: World, journal: seq<PageCheckpoint>, scope: string, n: nat)
    requires JournalOk(w, journal) && n < Pages(journal, scope)
    ensures NamedAt(w, scope, n)
  {
    hide ScopesOf, NamedAt;
    var front := journal[..|journal| - 1];
    if n < Pages(front, scope) { RecordedIsNamed(w, front, scope, n); }
  }

  /** Replaying a journal completes exactly the keys of the recorded pages. */
  lemma {:induction false} ReplayCompletes(w: World, m: Manifest, journal: seq<PageCheckpoint>, k: string)
    requires Unstarted(m) && JournalOk(w, journal)
    ensures k in Replayed(m, journal).completed <==> Recorded(w, journal, k)
  {
    hide ScopesOf, KeysAt, Position, ObjectsAre;
    if journal != [] {
      var front, page := journal[..|journal| - 1], journal[|journal| - 1];
      ReplayCompletes(w, m, front, k);
      RecordedStep(w, journal, k);
      AtIsInKeys(w, page.prefix, Pages(front, page.prefix), k);
    }
  }

  lemma AtIsInKeys(w: World, scope: string, n: nat, k: string)
    ensures At(w, scope, n, k) <==> k in KeysAt(w, scope, n)
  {
  }

  lemma RecordedStep(w: World, journal: seq<PageCheckpoint>, k: string)
    requires journal != []
    ensures (var front, prefix := journal[..|journal| - 1], journal[|journal| - 1].prefix;
             Recorded(w, journal, k) <==> Recorded(w, front, k) || At(w, prefix, Pages(front, prefix), k))
  {
    hide At;
    var front, prefix := journal[..|journal| - 1], journal[|journal| - 1].prefix;
    assert forall scope :: Pages(front, scope) <= Pages(journal, scope);
    assert Pages(front, prefix) < Pages(journal, prefix);
    if scope, n: nat :| n < Pages(front, scope) && At(w, scope, n, k) {
      assert n < Pages(journal, scope);
    }
  }

  /** And it resumes each scope where its pages end. */
  lemma {:induction false} ReplayResumes(w: World, m: Manifest, journal: seq<PageCheckpoint>, scope: string)
    requires Unstarted(m) && JournalOk(w, journal)
    ensures (var scopes := Replayed(m, journal).scopes;
             && (Position(w, journal, scope) == None <==> scope in scopes && scopes[scope].complete)
             && (Position(w, journal, scope).Some? ==>
                   Position(w, journal, scope).value == if scope in scopes then scopes[scope].next else None))
  {
    hide ScopesOf, KeysAt, ObjectsAre;
    if journal != [] {
      var front, page := journal[..|journal| - 1], journal[|journal| - 1];
      ReplayResumes(w, m, front, scope);
    }
  }

  /** The replayed objects are the bucket's own wherever a page was recorded. */
  lemma {:induction false} ReplayedObjects(w: World, m: Manifest, journal: seq<PageCheckpoint>, k: string)
    requires Unstarted(m) && JournalOk(w, journal) && k in Replayed(m, journal).completed
    ensures (var r := Replayed(m, journal);
             k in r.objects && Some(r.objects[k].digest) == w.content(k)
             && Truthful(w, k, r.objects[k].version, r.objects[k].digest))
  {
    var front, page := journal[..|journal| - 1], journal[|journal| - 1];
    if k !in page.objects { ReplayedObjects(w, m, front, k); }
  }

  ghost predicate Labelled(w: World, objects: map<string, CachedObject>) {
    forall k :: k in objects ==> Truthful(w, k, objects[k].version, objects[k].digest)
  }

  lemma {:induction false} ReplayKeepsLabels(w: World, m: Manifest, journal: seq<PageCheckpoint>)
    requires JournalOk(w, journal) && Labelled(w, m.objects)
    ensures Labelled(w, Replayed(m, journal).objects)
  {
    if journal != [] { ReplayKeepsLabels(w, m, journal[..|journal| - 1]); }
  }

  // ----- what a disk holds between two runs

  /** A file holds what its object records, or what the bucket holds now. */
  ghost predicate FilesAgree(w: World, objects: map<string, CachedObject>, files: map<string, Content>) {
    forall k :: k in objects && k in files ==> files[k] == objects[k].digest || Some(files[k]) == w.content(k)
  }

  ghost predicate Kept(w: World, keys: set<string>, files: map<string, Content>) {
    forall k :: k in keys ==> k in files && Some(files[k]) == w.content(k)
  }

  ghost predicate RecordOk(w: World, base: Manifest, journal: seq<PageCheckpoint>) {
    Unstarted(base) && JournalOk(w, journal) && Labelled(w, base.objects)
  }

  /** Whatever happened before, a disk holds a faithful record of the pages dealt with. */
  ghost predicate DiskOk(w: World, disk: Disk, policy: string)
    reads disk
  {
    && RecordOk(w, Base(disk.manifest, policy), disk.Live())
    && FilesAgree(w, disk.State(policy).objects, disk.files)
    && Kept(w, disk.State(policy).completed, disk.files)
  }

  /** A disk without a scan in progress is ready for one, whatever the bucket holds by then. */
  ghost predicate Settled(disk: Disk)
    reads disk
  {
    (disk.manifest.Some? ==> !disk.manifest.value.inProgress
                             && forall k :: k in disk.manifest.value.objects && k in disk.files ==>
                                  disk.files[k] == disk.manifest.value.objects[k].digest)
  }

  lemma SettledIsOk(w: World, disk: Disk, policy: string)
    requires Settled(disk) && (disk.manifest.Some? ==> Labelled(w, disk.manifest.value.objects))
    ensures DiskOk(w, disk, policy)
  {
  }

  // ----- a whole bucket

  ghost predicate Listed(w: World, scope: string, n: nat, e: Entry) {
    Marker(w, scope, n).Some? && e in w.listing(scope, Marker(w, scope, n).value).entries
  }

  /** The listing of each scope is that of one bucket: every object under the scope is on some page, as it is. */
  ghost predicate ListsBucket(w: World, bucket: map<string, Entry>) {
    && (forall k :: k in bucket ==> bucket[k].name == Some(k))
    && (forall scope, n, e :: Listed(w, scope, n, e) && e.name.Some? ==>
          e.name.value in bucket && bucket[e.name.value] == e)
    && (forall scope, k :: scope in ScopesOf(w) && k in bucket && StartsWith(k, scope) ==>
          exists n :: Listed(w, scope, n, bucket[k]))
  }

  /** A named object, not a directory or an empty placeholder for one, selected, not too large, and there. */
  ghost predicate IsToBeVisited(w: World, k: string, e: Entry) {
    && k != "" && !e.directory && w.representable(k) && w.content(k).Some?
    && (w.selection.includePrefixes == []
        || exists p :: p in w.selection.includePrefixes && p <= k)
    && (forall p :: p in w.selection.excludePrefixes ==> !(p <= k)) && w.selection.extensionAllowed(k)
    && !(k[|k| - 1] == '/' && e.version.size == Some(0))
    && (w.limit.Some? && e.version.size.Some? ==> e.version.size.value <= w.limit.value)
  }

  lemma SelectionIs(sel: Selection, k: string)
    ensures (Matches(sel, k) <==>
             && (sel.includePrefixes == [] || exists p :: p in sel.includePrefixes && p <= k)
             && (forall p :: p in sel.excludePrefixes ==> !(p <= k)) && sel.extensionAllowed(k))
  {
    SomePrefix(k, sel.includePrefixes);
    SomePrefix(k, sel.excludePrefixes);
  }

  lemma SomePrefix(k: string, prefixes: seq<string>)
    ensures AnyPrefix(k, prefixes) <==> exists p :: p in prefixes && p <= k
  {
    if AnyPrefix(k, prefixes) {
      var i :| 0 <= i < |prefixes| && StartsWith(k, prefixes[i]);
      assert prefixes[i] in prefixes && prefixes[i] <= k;
    }
    if p :| p in prefixes && p <= k {
      var i :| 0 <= i < |prefixes| && prefixes[i] == p;
      assert StartsWith(k, prefixes[i]);
    }
  }

  lemma ToBeVisitedIsWanted(w: World, k: string, bucket: map<string, Entry>)
    requires ListsBucket(w, bucket) && k in bucket
    ensures Wanted(w, bucket[k]) <==> IsToBeVisited(w, k, bucket[k])
  {
    hide Matches;
    SelectionIs(w.selection, k);
  }

  /** What the scopes list for visiting is exactly what the bucket holds and the selection wants. */
  lemma SelectedIsExact(w: World, bucket: map<string, Entry>, k: string)
    requires ListsBucket(w, bucket)
    ensures Selected(w, k) <==> k in bucket && IsToBeVisited(w, k, bucket[k])
  {
    if k in bucket { ToBeVisitedIsWanted(w, k, bucket); }
    hide Wanted, ScopesOf, Matches, ListsBucket, Selected, IsToBeVisited;
    if k in bucket && Wanted(w, bucket[k]) { WantedIsSelected(w, bucket, k); }
    if Selected(w, k) { SelectedIsWanted(w, bucket, k); }
  }

  lemma WantedIsSelected(w: World, bucket: map<string, Entry>, k: string)
    requires ListsBucket(w, bucket) && k in bucket && Wanted(w, bucket[k])
    ensures Selected(w, k)
  {
    hide Scopes, Matches, Skipped;
    WantedMatches(w, bucket[k]);
    SelectedIsCovered(w.selection, None, k);
    var i :| 0 <= i < |ScopesOf(w)| && StartsWith(k, ScopesOf(w)[i]);
    var n :| Listed(w, ScopesOf(w)[i], n, bucket[k]);
    PageKeysAre(w, w.listing(ScopesOf(w)[i], Marker(w, ScopesOf(w)[i], n).value).entries, k);
    assert At(w, ScopesOf(w)[i], n, k);
  }

  lemma SelectedIsWanted(w: World, bucket: map<string, Entry>, k: string)
    requires ListsBucket(w, bucket) && Selected(w, k)
    ensures k in bucket && Wanted(w, bucket[k])
  {
    hide ScopesOf, Skipped;
    var scope, n :| scope in ScopesOf(w) && At(w, scope, n, k);
    var entries := w.listing(scope, Marker(w, scope, n).value).entries;
    PageKeysAre(w, entries, k);
    var i :| 0 <= i < |entries| && Wanted(w, entries[i]) && entries[i].name.value == k;
    assert Listed(w, scope, n, entries[i]);
  }

  lemma WantedMatches(w: World, e: Entry)
    requires Wanted(w, e)
    ensures e.name.Some? && Matches(w.selection, e.name.value)
  {
  }
}
