/**
 * Visiting the objects of a Google Cloud Storage bucket.
 *
 * The same protocol, with another way to fail: a failed download ends the run, and a
 * page is gone through before its continuation token is looked at.
 */
module GcsListing {
  import opened ListingRuns
  import opened ListingWorld
  import opened ObjectCaches
  import opened PathSelection
  import opened Wrappers

  /** Object names arrive decoded here, there are no directory entries, and every name can be asked for. */
  ghost predicate Plain(w: World) {
    && (forall scope, m, i :: 0 <= i < |w.listing(scope, m).entries| ==> IsPlain(w.listing(scope, m).entries[i]))
    && (forall k :: w.representable(k))
  }

  ghost predicate IsPlain(e: Entry) { e.name.Some? && !e.directory }

  lemma PageIsPlain(w: World, scope: string, marker: Option<string>)
    requires Plain(w)
    ensures (var entries := w.listing(scope, marker).entries; forall i :: 0 <= i < |entries| ==> IsPlain(entries[i]))
  {
  }

  method VisitPage(w: World, cache: ObjectCache, entries: seq<Entry>) returns (log: seq<Event>, broken: Option<Reason>)
    requires Running(w, cache)
    requires forall i :: 0 <= i < |entries| ==> EntryIsTruthful(w, entries[i]) && IsPlain(entries[i])
    modifies cache, cache.disk`files, cache.disk.environment
    ensures Running(w, cache) && Honest(w, log)
    ensures cache.disk.environment.faults >= old(cache.disk.environment.faults)
    ensures broken.Some? ==> cache.disk.environment.faults > old(cache.disk.environment.faults)
    ensures broken.None? || broken == Some(Io)
    ensures forall x :: x in log ==> x.Visited? || x.Missed?
    ensures broken.None? ==> Clean(log)
    ensures broken.None? ==> Stored(log, PageKeys(w, entries), old(cache.pending).Keys, cache.pending.Keys)
  {
    hide Running, EntryIsTruthful, Stored, PageKeys, KeyOf, Honest, Clean;
    log, broken := [], None;
    NothingListed(w, entries, cache.pending.Keys);
    var i := 0;
    while i < |entries|
      invariant 0 <= i <= |entries| && broken.None?
      invariant Running(w, cache) && Honest(w, log) && Clean(log)
      invariant cache.disk.environment.faults >= old(cache.disk.environment.faults)
      invariant forall x :: x in log ==> x.Visited? || x.Missed?
      invariant Stored(log, PageKeys(w, entries[..i]), old(cache.pending).Keys, cache.pending.Keys)
    {
      ghost var before := cache.pending.Keys;
      var more;
      more, broken := VisitListed(w, cache, entries[i]);
      LogConcat(w, log, more);
      if broken.None? {
        StoredConcat(log, PageKeys(w, entries[..i]), more, KeyOf(w, entries[i]),
                     old(cache.pending).Keys, before, cache.pending.Keys);
      }
      PageKeysStep(w, entries, i);
      log := log + more;
      i := i + 1;
      if broken.None? && !Clean(more) {
        broken := Some(Io);
      }
      if broken.Some? {
        return;
      }
    }
    assert entries[..i] == entries;
  }

  /** Goes through one page; a failed download ends the run. */
  method ProcessPage(w: World, cache: ObjectCache, scope: string, ghost n: nat, page: Page, before: seq<Event>)
    returns (log: seq<Event>, broken: Option<Reason>, ghost more: seq<Event>)
    requires Steady(w) && Plain(w) && Progress(w, cache, before) && Clean(before)
    requires Marker(w, scope, n).Some? && page == w.listing(scope, Marker(w, scope, n).value)
    modifies cache, cache.disk`files, cache.disk.environment
    ensures cache.disk.environment.faults >= old(cache.disk.environment.faults)
    ensures broken.Some? ==> cache.disk.environment.faults > old(cache.disk.environment.faults)
    ensures Outside(w, log) && Running(w, cache) && log == before + more && Saves(log) == Saves(before)
    ensures broken.None? || broken == Some(Io)
    ensures broken.None? ==> Clean(log) && VisitedKeys(more) == PageKeys(w, page.entries)
    ensures broken.None? ==> cache.pending.Keys == SetOf(PageKeys(w, page.entries)) && AllNamed(page.entries)
  {
    assert AllNamed(page.entries) by { PageIsPlain(w, scope, Marker(w, scope, n).value); }
    hide Running, Honest, EntryIsTruthful, InStep, Saves, VisitedKeys, Steady, Stored, Outside, Clean, Marker,
         Replayed, PageKeys, MeetsCompleted, AllNamed, Plain, SetOf;
    PageIsTruthful(w, scope, Marker(w, scope, n).value);
    PageIsPlain(w, scope, Marker(w, scope, n).value);
    var visits;
    visits, broken := VisitPage(w, cache, page.entries);
    more := visits;
    LogConcat(w, before, more);
    VisitsSaveNothing(w, before, more);
    log := before + visits;
    assert old(cache.pending).Keys == {};
    if broken.None? { StoredFromNothing(more, PageKeys(w, page.entries), cache.pending.Keys); }
  }

  method VisitScope(w: World, cache: ObjectCache, scope: string, before: seq<Event>)
    returns (log: seq<Event>, broken: Option<Reason>)
    requires Steady(w) && Plain(w) && scope in ScopesOf(w) && Progress(w, cache, before) && Clean(before)
    requires Position(w, cache.disk.journal, scope).Some?
    modifies cache, cache.disk, cache.disk.environment
    ensures cache.disk.environment.faults >= old(cache.disk.environment.faults)
    ensures broken == Some(Io) ==> cache.disk.environment.faults > old(cache.disk.environment.faults)
    ensures broken == Some(RepeatedMarker) ==> Cycles(w, scope)
    ensures Outside(w, log) && DiskOk(w, cache.disk, cache.policy) && cache.disk.manifest == old(cache.disk.manifest)
    ensures broken != Some(BadChecksum)
    ensures broken.None? ==> Progress(w, cache, log) && Clean(log)
    ensures broken.None? ==> Position(w, cache.disk.journal, scope) == None && Ends(w, scope)
    ensures broken.None? ==>
              forall s :: s != scope ==> Pages(cache.disk.journal, s) == Pages(old(cache.disk.journal), s)
    ensures |cache.disk.Live()| + Saves(before) <= |old(cache.disk.Live())| + Saves(log)
  {
    hide Running, Outside, EntryIsTruthful, DiskOk, InStep, Saves, VisitedKeys, Replayed, JournalOk, Labelled,
         FilesAgree, Kept, Clean, Marker, Pages, PageKeys, SetOf, MeetsCompleted, Steady, Plain, ScopesOf,
         Ends, Cycles, AllAsked, AllNamed;
    ghost var start := cache.disk.journal;
    ghost var n := Pages(start, scope);
    ResumesAt(w, cache, scope);
    RunningIsOk(w, cache);
    var token := cache.ContinuationToken(scope);
    var tokens: set<string> := if token.Some? then {token.value} else {};
    AskedNow(w, scope, n, token);
    log, broken := before, None;
    var done := false;
    while !done
      invariant broken.None? && Progress(w, cache, log) && DiskOk(w, cache.disk, cache.policy)
      invariant cache.disk.manifest == old(cache.disk.manifest)
      invariant Clean(log) && n == Pages(cache.disk.journal, scope)
      invariant forall s :: s != scope ==> Pages(cache.disk.journal, s) == Pages(start, s)
      invariant Marker(w, scope, n) == if done then None else Some(token)
      invariant |cache.disk.Live()| + Saves(before) <= |start| + Saves(log)
      invariant cache.disk.environment.faults >= old(cache.disk.environment.faults)
      invariant AllAsked(w, scope, n, tokens)
      decreases w.tokens - tokens, !done
    {
      var failed := cache.disk.environment.Fails();
      if failed {
        return log, Some(Io);
      }
      var page := w.listing(scope, token);
      ghost var visited, more := log, [];
      log, broken, more := ProcessPage(w, cache, scope, n, page, log);
      RunningIsOk(w, cache);
      if broken.Some? {
        return;
      }
      NextIsAsked(w, scope, n, token, tokens);
      if page.next.Some? {
        if page.next.value in tokens {
          return log, Some(RepeatedMarker);
        }
        tokens := tokens + {page.next.value};
        token := page.next;
      } else {
        done := true;
      }
      var ok := SavePage(w, cache, scope, n, page, visited, more);
      log := log + [Saved(scope)];
      if !ok {
        return log, Some(Io);
      }
      n := n + 1;
    }
    EndsHere(w, scope, n);
  }

  method VisitScopes(w: World, cache: ObjectCache, scopes: seq<string>, before: seq<Event>)
    returns (log: seq<Event>, broken: Option<Reason>)
    requires Steady(w) && Plain(w) && scopes == ScopesOf(w) && Progress(w, cache, before) && Clean(before)
    modifies cache, cache.disk, cache.disk.environment
    ensures cache.disk.environment.faults >= old(cache.disk.environment.faults)
    ensures broken == Some(Io) ==> cache.disk.environment.faults > old(cache.disk.environment.faults)
    ensures broken == Some(RepeatedMarker) ==> SomeScopeCycles(w)
    ensures Outside(w, log) && DiskOk(w, cache.disk, cache.policy) && cache.disk.manifest == old(cache.disk.manifest)
    ensures broken != Some(BadChecksum)
    ensures broken.None? ==> Progress(w, cache, log) && Clean(log)
    ensures broken.None? ==> forall scope :: scope in scopes ==> Position(w, cache.disk.journal, scope) == None
    ensures broken.None? ==> AllScopesEnd(w)
    ensures |cache.disk.Live()| + Saves(before) <= |old(cache.disk.Live())| + Saves(log)
  {
    hide Running, Outside, DiskOk, InStep, Saves, VisitedKeys, Replayed, Clean, Steady, ScopesOf, Marker, Pages, Plain,
         MeetsCompleted, Ends, Cycles;
    RunningIsOk(w, cache);
    ScopesAreApart(w);
    log, broken := before, None;
    var i := 0;
    while i < |scopes|
      invariant 0 <= i <= |scopes| && broken.None?
      invariant Progress(w, cache, log) && DiskOk(w, cache.disk, cache.policy) && Clean(log)
      invariant cache.disk.manifest == old(cache.disk.manifest)
      invariant forall j :: 0 <= j < i ==> Position(w, cache.disk.journal, scopes[j]) == None && Ends(w, scopes[j])
      invariant |cache.disk.Live()| + Saves(before) <= |old(cache.disk.Live())| + Saves(log)
      invariant cache.disk.environment.faults >= old(cache.disk.environment.faults)
    {
      ResumesAt(w, cache, scopes[i]);
      if cache.ScopeComplete(scopes[i]) { EndsHere(w, scopes[i], Pages(cache.disk.journal, scopes[i])); }
      if !cache.ScopeComplete(scopes[i]) {
        log, broken := VisitScope(w, cache, scopes[i], log);
        if broken.Some? {
          return;
        }
      }
      i := i + 1;
    }
  }

  /** A run either visits exactly the objects that are to be visited, each once if the listing names it once, or is
      given up; a listing that runs in a circle is never finished. */
  method Visit(w: World, disk: Disk, policy: string) returns (log: seq<Event>, outcome: Outcome)
    requires Steady(w) && Plain(w)
    requires Base(disk.manifest, policy).policy == policy ==> DiskOk(w, disk, policy)
    modifies disk, disk.environment
    ensures Base(disk.manifest, policy).policy == policy ==> DiskOk(w, disk, policy)
    ensures Honest(w, log) && NothingSavedAfterMiss(log)
    ensures outcome != Aborted(BadChecksum) && outcome != Incomplete
    ensures Finish in log ==> VisitedExactly(w, log)
    ensures Finish in log ==> AllScopesEnd(w)
    ensures outcome == Complete ==> Finish in log && Settled(disk)
    ensures |disk.Live()| <= |old(disk.Live())| + Saves(log)
    ensures disk.environment.faults >= old(disk.environment.faults)
    ensures outcome == Aborted(RepeatedMarker) ==> SomeScopeCycles(w)
    ensures (outcome != Complete && old(Base(disk.manifest, policy)).policy == policy ==>
               disk.environment.faults > old(disk.environment.faults) || SomeScopeCycles(w))
  {
    hide VisitedExactly, DiskOk, Settled, Running, InStep, Saves, VisitedKeys, Replayed, Clean, Steady,
         NothingSavedAfterMiss, Honest, Position, Plain, AllScopesEnd, SomeScopeCycles;
    NothingShown(w);
    var start := OpenRun(w, disk, policy);
    if start.None? {
      return [], Aborted(Io);
    }
    log, outcome := Proceed(w, start.value);
  }

  method Proceed(w: World, cache: ObjectCache) returns (log: seq<Event>, outcome: Outcome)
    requires Steady(w) && Plain(w) && Running(w, cache) && cache.pending == map[]
    modifies cache, cache.disk, cache.disk.environment
    ensures DiskOk(w, cache.disk, cache.policy)
    ensures Honest(w, log) && NothingSavedAfterMiss(log)
    ensures outcome != Aborted(BadChecksum) && outcome != Incomplete
    ensures Finish in log ==> VisitedExactly(w, log)
    ensures Finish in log ==> AllScopesEnd(w)
    ensures outcome == Complete ==> Finish in log && Settled(cache.disk)
    ensures |cache.disk.Live()| <= |old(cache.disk.Live())| + Saves(log)
    ensures cache.disk.environment.faults >= old(cache.disk.environment.faults)
    ensures outcome == Aborted(RepeatedMarker) ==> SomeScopeCycles(w)
    ensures (outcome != Complete ==>
               cache.disk.environment.faults > old(cache.disk.environment.faults) || SomeScopeCycles(w))
  {
    hide VisitedExactly, DiskOk, Settled, Running, InStep, Saves, VisitedKeys, Replayed, Clean, Steady,
         NothingSavedAfterMiss, Honest, Position, Plain, AllScopesEnd, SomeScopeCycles, Base;
    RunningIsOk(w, cache);
    var broken;
    log, broken := ReplayCompleted(w, cache);
    OnlyVisits(w, log);
    if broken.Some? {
      return log, Aborted(broken.value);
    }
    ReplayedInStep(w, cache, log);
    var scopes := ListingPrefixes(w.selection, None);
    log, broken := VisitScopes(w, cache, scopes, log);
    if broken.Some? {
      assert broken.value.Io? || broken.value.RepeatedMarker?;
      return log, Aborted(broken.value);
    }
    EndOfRun(w, cache, log);
    log := log + [Finish];
    var ok := FinishRun(w, cache);
    outcome := if ok then Complete else Aborted(Io);
  }
}
