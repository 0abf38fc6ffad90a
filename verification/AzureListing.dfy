/**
 * Visiting the blobs of an Azure container.
 *
 * A download that fails is passed over, and the run goes on; but from there on it
 * checkpoints nothing, so that the next run comes back to the page.
 */
module AzureListing {
  import opened ListingRuns
  import opened ListingWorld
  import opened ObjectCaches
  import opened PathSelection
  import opened Surroundings
  import opened Wrappers

  method VisitPage(w: World, cache: ObjectCache, entries: seq<Entry>) returns (log: seq<Event>, broken: Option<Reason>)
    requires Running(w, cache)
    requires forall i :: 0 <= i < |entries| ==> EntryIsTruthful(w, entries[i])
    modifies cache, cache.disk`files, cache.disk.environment
    ensures cache.disk.environment.faults >= old(cache.disk.environment.faults)
    ensures (cache.disk.environment.faults == old(cache.disk.environment.faults) ==>
               broken.None? && (AllNamed(entries) ==> Clean(log)))
    ensures Running(w, cache) && Honest(w, log)
    ensures broken.None? || broken == Some(Io)
    ensures forall x :: x in log ==> x.Visited? || x.Missed?
    ensures broken.None? ==> Stored(log, PageKeys(w, entries), old(cache.pending).Keys, cache.pending.Keys)
    ensures broken.None? ==> MeetsAll(log, PageKeys(w, entries)) && (Clean(log) ==> AllNamed(entries))
  {
    hide Running, EntryIsTruthful, Stored, PageKeys, KeyOf, Honest, MeetsAll, Clean, AllNamed;
    log, broken := [], None;
    NothingListed(w, entries, cache.pending.Keys);
    var i := 0;
    while i < |entries|
      invariant 0 <= i <= |entries| && broken.None?
      invariant Running(w, cache) && Honest(w, log)
      invariant cache.disk.environment.faults >= old(cache.disk.environment.faults)
      invariant (cache.disk.environment.faults == old(cache.disk.environment.faults) && AllNamed(entries) ==>
                   Clean(log))
      invariant forall x :: x in log ==> x.Visited? || x.Missed?
      invariant Stored(log, PageKeys(w, entries[..i]), old(cache.pending).Keys, cache.pending.Keys)
      invariant MeetsAll(log, PageKeys(w, entries[..i])) && (Clean(log) ==> AllNamed(entries[..i]))
    {
      ghost var before := cache.pending.Keys;
      var more;
      more, broken := VisitListed(w, cache, entries[i]);
      LogConcat(w, log, more);
      if broken.None? {
        StoredConcat(log, PageKeys(w, entries[..i]), more, KeyOf(w, entries[i]),
                     old(cache.pending).Keys, before, cache.pending.Keys);
        MeetsConcat(log, more, PageKeys(w, entries[..i]), KeyOf(w, entries[i]));
      }
      PageKeysStep(w, entries, i);
      NamedSnoc(entries, i);
      log := log + more;
      i := i + 1;
      if broken.Some? {
        return;
      }
    }
    assert entries[..i] == entries;
  }

  /** One page of a scope, checkpointed unless this run has missed something. */
  method ProcessPage(w: World, cache: ObjectCache, scope: string, ghost n: nat, page: Page, before: seq<Event>)
    returns (log: seq<Event>, broken: Option<Reason>)
    requires Steady(w) && scope in ScopesOf(w) && Progress(w, cache, before)
    requires Marker(w, scope, n).Some? && page == w.listing(scope, Marker(w, scope, n).value)
    requires Clean(before) ==> n == Pages(cache.disk.journal, scope)
    modifies cache, cache.disk, cache.disk.environment
    ensures cache.disk.environment.faults >= old(cache.disk.environment.faults)
    ensures (cache.disk.environment.faults == old(cache.disk.environment.faults) ==>
               broken.None? && (AllNamed(page.entries) && Clean(before) ==> Clean(log)))
    ensures Outside(w, log) && DiskOk(w, cache.disk, cache.policy) && cache.disk.manifest == old(cache.disk.manifest)
    ensures broken.None? || broken == Some(Io)
    ensures broken.None? ==> Progress(w, cache, log) && MeetsAll(log, PageKeys(w, page.entries))
    ensures before <= log
    ensures broken.None? && Clean(log) ==> Clean(before)
    ensures broken.None? && Clean(log) ==> Advanced(old(cache.disk.journal), cache.disk.journal, scope, 1)
    ensures |cache.disk.Live()| + Saves(before) <= |old(cache.disk.Live())| + Saves(log)
  {
    hide Running, Honest, EntryIsTruthful, DiskOk, InStep, Saves, VisitedKeys, Steady, Stored, Outside, Clean, Pages,
         Marker, Advanced, Replayed, PageKeys, MeetsAll, MeetsCompleted, AllNamed;
    PageIsTruthful(w, scope, Marker(w, scope, n).value);
    var more;
    more, broken := VisitPage(w, cache, page.entries);
    LogConcat(w, before, more);
    VisitsSaveNothing(w, before, more);
    log := before + more;
    CompletedStayMet(before, log, cache.disk.State(cache.policy).completed);
    if broken.None? { MeetsAfter(before, more, PageKeys(w, page.entries)); }
    RunningIsOk(w, cache);
    if broken.None? && Clean(more) {
      StoredWhenClean(more, PageKeys(w, page.entries), old(cache.pending).Keys, cache.pending.Keys);
    }
    if broken.None? && Clean(log) {
      var ok := SavePage(w, cache, scope, n, page, before, more);
      log := log + [Saved(scope)];
      MeetsMore(before + more, log, PageKeys(w, page.entries));
      if !ok {
        broken := Some(Io);
      }
    }
  }

  /** Goes through a scope from where earlier runs left it, unless a marker comes back. */
  method VisitScope(w: World, cache: ObjectCache, scope: string, before: seq<Event>)
    returns (log: seq<Event>, broken: Option<Reason>)
    requires Steady(w) && scope in ScopesOf(w) && Progress(w, cache, before)
    requires Position(w, cache.disk.journal, scope).Some?
    modifies cache, cache.disk, cache.disk.environment
    ensures cache.disk.environment.faults >= old(cache.disk.environment.faults)
    ensures broken == Some(Io) ==> cache.disk.environment.faults > old(cache.disk.environment.faults)
    ensures broken == Some(RepeatedMarker) ==> Cycles(w, scope)
    ensures (cache.disk.environment.faults == old(cache.disk.environment.faults) && Decodable(w) && Clean(before) ==>
               Clean(log))
    ensures Outside(w, log) && DiskOk(w, cache.disk, cache.policy) && cache.disk.manifest == old(cache.disk.manifest)
    ensures broken != Some(BadChecksum)
    ensures broken.None? ==> Progress(w, cache, log)
    ensures broken.None? && Clean(log) ==> Clean(before) && Position(w, cache.disk.journal, scope) == None
    ensures broken.None? && Clean(log) ==>
              forall s :: s != scope ==> Pages(cache.disk.journal, s) == Pages(old(cache.disk.journal), s)
    ensures before <= log && (broken.None? ==> MeetsScope(w, log, scope) && Ends(w, scope))
    ensures |cache.disk.Live()| + Saves(before) <= |old(cache.disk.Live())| + Saves(log)
  {
    hide Running, Outside, EntryIsTruthful, DiskOk, InStep, Saves, VisitedKeys, Replayed, JournalOk, Labelled,
         FilesAgree, Kept, Clean, Marker, Pages, MeetsAll, MeetsCompleted, KeysAt, Steady, ScopesOf, Ends, MeetsScope,
         Cycles, AllAsked, AllNamed, Decodable, Met;
    ghost var start := cache.disk.journal;
    ghost var n := Pages(start, scope);
    ResumesAt(w, cache, scope);
    RunningIsOk(w, cache);
    forall m: nat | m < n ensures MeetsAll(before, KeysAt(w, scope, m)) { RecordedAreMet(w, cache, before, scope, m); }
    var marker := cache.ContinuationToken(scope);
    var markers: set<string> := if marker.Some? then {marker.value} else {};
    AskedNow(w, scope, n, marker);
    log, broken := before, None;
    var done := false;
    while !done
      invariant broken.None? && Progress(w, cache, log) && DiskOk(w, cache.disk, cache.policy)
      invariant cache.disk.manifest == old(cache.disk.manifest)
      invariant Clean(log) ==> Clean(before) && n == Pages(cache.disk.journal, scope)
      invariant Clean(log) ==> forall s :: s != scope ==> Pages(cache.disk.journal, s) == Pages(start, s)
      invariant Marker(w, scope, n) == if done then None else Some(marker)
      invariant before <= log && forall m: nat :: m < n ==> MeetsAll(log, KeysAt(w, scope, m))
      invariant |cache.disk.Live()| + Saves(before) <= |start| + Saves(log)
      invariant cache.disk.environment.faults >= old(cache.disk.environment.faults)
      invariant (cache.disk.environment.faults == old(cache.disk.environment.faults) && Decodable(w) ==>
                   Clean(before) ==> Clean(log))
      invariant AllAsked(w, scope, n, markers)
      decreases w.tokens - markers, !done
    {
      var failed := cache.disk.environment.Fails();
      if failed {
        return log, Some(Io);
      }
      var page := w.listing(scope, marker);
      NextIsAsked(w, scope, n, marker, markers);
      if page.next.Some? {
        if page.next.value in markers {
          return log, Some(RepeatedMarker);
        }
        markers := markers + {page.next.value};
      }
      if Decodable(w) { PageIsNamed(w, scope, marker); }
      ghost var earlier := log;
      log, broken := ProcessPage(w, cache, scope, n, page, log);
      if broken.Some? {
        return;
      }
      forall m: nat | m < n ensures MeetsAll(log, KeysAt(w, scope, m)) { MeetsMore(earlier, log, KeysAt(w, scope, m)); }
      assert KeysAt(w, scope, n) == PageKeys(w, page.entries) by { KeysOfPage(w, scope, n); }
      n := n + 1;
      match page.next
      case Some(_) => marker := page.next;
      case None => done := true;
    }
    WholeScopeIsMet(w, log, scope, n);
    EndsHere(w, scope, n);
  }

  method VisitScopes(w: World, cache: ObjectCache, scopes: seq<string>, before: seq<Event>)
    returns (log: seq<Event>, broken: Option<Reason>)
    requires Steady(w) && scopes == ScopesOf(w) && Progress(w, cache, before)
    modifies cache, cache.disk, cache.disk.environment
    ensures cache.disk.environment.faults >= old(cache.disk.environment.faults)
    ensures broken == Some(Io) ==> cache.disk.environment.faults > old(cache.disk.environment.faults)
    ensures broken == Some(RepeatedMarker) ==> SomeScopeCycles(w)
    ensures (cache.disk.environment.faults == old(cache.disk.environment.faults) && Decodable(w) && Clean(before) ==>
               Clean(log))
    ensures Outside(w, log) && DiskOk(w, cache.disk, cache.policy) && cache.disk.manifest == old(cache.disk.manifest)
    ensures broken != Some(BadChecksum)
    ensures broken.None? ==> Progress(w, cache, log)
    ensures broken.None? && Clean(log) ==>
              forall scope :: scope in scopes ==> Position(w, cache.disk.journal, scope) == None
    ensures broken.None? ==> MeetsSelected(w, log) && AllScopesEnd(w)
    ensures |cache.disk.Live()| + Saves(before) <= |old(cache.disk.Live())| + Saves(log)
  {
    hide Running, Outside, DiskOk, InStep, Saves, VisitedKeys, Replayed, Clean, Steady, ScopesOf, Marker, Pages,
         MeetsScope, MeetsSelected, MeetsCompleted, Ends, Cycles, Decodable;
    RunningIsOk(w, cache);
    ScopesAreApart(w);
    log, broken := before, None;
    var i := 0;
    while i < |scopes|
      invariant 0 <= i <= |scopes| && broken.None?
      invariant Progress(w, cache, log) && DiskOk(w, cache.disk, cache.policy)
      invariant cache.disk.manifest == old(cache.disk.manifest)
      invariant Clean(log) ==> forall j :: 0 <= j < i ==> Position(w, cache.disk.journal, scopes[j]) == None
      invariant forall j :: 0 <= j < i ==> MeetsScope(w, log, scopes[j]) && Ends(w, scopes[j])
      invariant |cache.disk.Live()| + Saves(before) <= |old(cache.disk.Live())| + Saves(log)
      invariant cache.disk.environment.faults >= old(cache.disk.environment.faults)
      invariant (cache.disk.environment.faults == old(cache.disk.environment.faults) && Decodable(w) ==>
                   Clean(before) ==> Clean(log))
    {
      ResumesAt(w, cache, scopes[i]);
      if cache.ScopeComplete(scopes[i]) {
        CompleteScopeIsMet(w, cache, log, scopes[i]);
        EndsHere(w, scopes[i], Pages(cache.disk.journal, scopes[i]));
        i := i + 1;
        continue;
      }
      ghost var earlier := log;
      log, broken := VisitScope(w, cache, scopes[i], log);
      if broken.Some? {
        return;
      }
      forall j | 0 <= j < i ensures MeetsScope(w, log, scopes[j]) { ScopeStaysMet(w, earlier, log, scopes[j]); }
      i := i + 1;
    }
    AllScopesMet(w, log);
  }

  /**
   * A run: what earlier runs completed, then what is left of each scope.
   *
   * However it ends, the disk is right for the next run. Nothing is checkpointed after a
   * miss, but everything to be visited is still tried. A run whose listing runs in a circle
   * never gets to the end. One that gets there without a miss has visited every object that
   * is to be visited, and each of them once if the listing names it once.
   */
  method Visit(w: World, disk: Disk, policy: string) returns (log: seq<Event>, outcome: Outcome)
    requires Steady(w)
    requires Base(disk.manifest, policy).policy == policy ==> DiskOk(w, disk, policy)
    modifies disk, disk.environment
    ensures Base(disk.manifest, policy).policy == policy ==> DiskOk(w, disk, policy)
    ensures Honest(w, log) && NothingSavedAfterMiss(log)
    ensures outcome != Aborted(BadChecksum)
    ensures Finish in log ==> VisitedExactly(w, log) && NamedThroughout(w)
    ensures Finish in log || outcome == Incomplete ==> AllScopesEnd(w)
    ensures outcome == Complete ==> Finish in log && Settled(disk)
    ensures disk.environment.faults >= old(disk.environment.faults)
    ensures outcome == Aborted(RepeatedMarker) ==> SomeScopeCycles(w)
    ensures old(Base(disk.manifest, policy)).policy == policy ==> Base(disk.manifest, policy).policy == policy
    ensures (outcome != Complete && old(Base(disk.manifest, policy)).policy == policy ==>
               || disk.environment.faults > old(disk.environment.faults)
               || SomeScopeCycles(w) || !Decodable(w))
    ensures outcome == Incomplete ==> !Clean(log) && Finish !in log && MeetsSelected(w, log)
    ensures |disk.Live()| <= |old(disk.Live())| + Saves(log)
  {
    hide VisitedExactly, DiskOk, Settled, Running, InStep, Saves, VisitedKeys, Replayed, Clean, Steady,
         NothingSavedAfterMiss, Honest, Position, MeetsSelected, MeetsCompleted, AllScopesEnd, Decodable,
         SomeScopeCycles, NamedThroughout;
    NothingShown(w);
    var start := OpenRun(w, disk, policy);
    if start.None? {
      return [], Aborted(Io);
    }
    log, outcome := Proceed(w, start.value);
  }

  method Proceed(w: World, cache: ObjectCache) returns (log: seq<Event>, outcome: Outcome)
    requires Steady(w) && Running(w, cache) && cache.pending == map[]
    modifies cache, cache.disk, cache.disk.environment
    ensures DiskOk(w, cache.disk, cache.policy)
    ensures Base(cache.disk.manifest, cache.policy).policy == old(Base(cache.disk.manifest, cache.policy)).policy
    ensures Honest(w, log) && NothingSavedAfterMiss(log)
    ensures outcome != Aborted(BadChecksum)
    ensures Finish in log ==> VisitedExactly(w, log) && NamedThroughout(w)
    ensures Finish in log || outcome == Incomplete ==> AllScopesEnd(w)
    ensures outcome == Complete ==> Finish in log && Settled(cache.disk)
    ensures outcome == Incomplete ==> !Clean(log) && Finish !in log && MeetsSelected(w, log)
    ensures |cache.disk.Live()| <= |old(cache.disk.Live())| + Saves(log)
    ensures cache.disk.environment.faults >= old(cache.disk.environment.faults)
    ensures outcome == Aborted(RepeatedMarker) ==> SomeScopeCycles(w)
    ensures (outcome != Complete ==>
               || cache.disk.environment.faults > old(cache.disk.environment.faults)
               || SomeScopeCycles(w) || !Decodable(w))
  {
    hide VisitedExactly, DiskOk, Settled, Running, InStep, Saves, VisitedKeys, Replayed, Clean, Steady,
         NothingSavedAfterMiss, Honest, Position, MeetsSelected, MeetsCompleted, AllScopesEnd, Decodable,
         SomeScopeCycles, Base, NamedThroughout;
    RunningIsOk(w, cache);
    var broken;
    log, broken := ReplayCompleted(w, cache);
    OnlyVisits(w, log);
    if broken.Some? {
      return log, Aborted(broken.value);
    }
    ReplayedInStep(w, cache, log);
    var scopes := ListingPrefixes(w.selection, None);
    log, broken := VisitScopes(w, cache, scopes, log);
    if broken.Some? {
      assert broken.value.Io? || broken.value.RepeatedMarker?;
      return log, Aborted(broken.value);
    }
    if !Clean(log) {
      return log, Incomplete;
    }
    EndOfRun(w, cache, log);
    log := log + [Finish];
    var ok := FinishRun(w, cache);
    outcome := if ok then Complete else Aborted(Io);
  }

  /** Any number of runs one after the other, from an empty disk: the first complete one has it all, and there is one
      unless something fails for every attempt, the listing runs in a circle, or a name cannot be decoded. */
  method Scan(w: World, policy: string, attempts: nat, environment: Environment)
    returns (log: seq<Event>, complete: bool)
    requires Steady(w)
    modifies environment
    ensures (environment.faults < old(environment.faults) + attempts && !SomeScopeCycles(w) && Decodable(w) ==>
               complete)
    ensures Honest(w, log) && (complete ==> VisitedExactly(w, log))
    ensures complete ==> forall scope :: scope in ScopesOf(w) ==> !Cycles(w, scope)
  {
    hide VisitedExactly, AllScopesEnd, Steady, NothingSavedAfterMiss, Cycles, Saves, RecordOk, FilesAgree, Kept,
         SomeScopeCycles, Decodable;
    var disk := new Disk(environment);
    SettledIsOk(w, disk, policy);
    log, complete := [], false;
    var i := 0;
    while i < attempts && !complete
      invariant Base(disk.manifest, policy).policy == policy ==> DiskOk(w, disk, policy)
      invariant Honest(w, log) && (complete ==> VisitedExactly(w, log) && AllScopesEnd(w))
      invariant fresh(disk) && disk.environment == environment && Base(disk.manifest, policy).policy == policy
      invariant i <= attempts
      invariant (!complete && !SomeScopeCycles(w) && Decodable(w) ==>
                   environment.faults >= old(environment.faults) + i)
    {
      hide DiskOk;
      var outcome;
      log, outcome := Visit(w, disk, policy);
      complete := outcome == Complete;
      i := i + 1;
    }
    if complete { NoScopeCycles(w); }
  }
}
