/** Building a managed baseline: one pass over the old baseline, one over the findings. */
module BaselineBuild {
  import opened BaselineManagement
  import opened Baselines
  import opened Fingerprints
  import opened Wrappers
  import opened Texts

  type Key = (string, nat)

  // ----- the history of the old baseline

  ghost predicate RemembersAt(existing: map<Key, Entry>, listed: seq<Listed>, id: string, fp: nat) {
    Previous(listed, id, fp) == if (id, fp) in existing then Some(existing[(id, fp)]) else None
  }

  ghost predicate Remembers(existing: map<Key, Entry>, listed: seq<Listed>) {
    forall id, fp {:trigger RemembersAt(existing, listed, id, fp)} :: RemembersAt(existing, listed, id, fp)
  }

  lemma PreviousSnoc(listed: seq<Listed>, x: Listed, id: string, fp: nat)
    ensures Previous(listed + [x], id, fp)
         == if Previous(listed, id, fp).Some? then Previous(listed, id, fp)
            else if Concerns(x, id, fp) then Some(x.entry) else None
  {
    assert (listed + [x])[..|listed|] == listed;
  }

  /** Remembers one listed finding under each of its readings, unless an earlier one holds it. */
  method RememberEntry(start: map<Key, Entry>, x: Listed, ghost listed: seq<Listed>) returns (existing: map<Key, Entry>)
    requires Remembers(start, listed)
    ensures Remembers(existing, listed + [x])
  {
    existing := start;
    var forms := ParseFingerprint(x.entry.fingerprint);
    for k := 0 to |forms|
      invariant forall key :: key in start ==> key in existing && existing[key] == start[key]
      invariant forall key :: key in existing && key !in start ==>
        key.0 == x.id && key.1 in forms[..k] && existing[key] == x.entry
      invariant forall v :: v in forms[..k] ==> (x.id, v) in existing
    {
      if (x.id, forms[k]) !in existing {
        existing := existing[(x.id, forms[k]) := x.entry];
      }
    }
    assert forms[..|forms|] == forms;
    forall id, fp ensures RemembersAt(existing, listed + [x], id, fp) {
      assert RemembersAt(start, listed, id, fp);
      PreviousSnoc(listed, x, id, fp);
    }
  }

  method RememberRepository(start: map<Key, Entry>, repository: RepositoryBaseline, ghost listed: seq<Listed>)
    returns (existing: map<Key, Entry>)
    requires Remembers(start, listed)
    ensures Remembers(existing, listed + Tagged(repository.id, repository.findings))
  {
    hide Remembers;
    existing := start;
    var id, findings := repository.id, repository.findings;
    assert listed + Tagged(id, findings[..0]) == listed;
    for n := 0 to |findings|
      invariant Remembers(existing, listed + Tagged(id, findings[..n]))
    {
      existing := RememberEntry(existing, Listed(id, findings[n]), listed + Tagged(id, findings[..n]));
      assert listed + Tagged(id, findings[..n + 1]) == listed + Tagged(id, findings[..n]) + [Listed(id, findings[n])];
    }
    assert findings[..|findings|] == findings;
  }

  method RememberAll(repositories: seq<RepositoryBaseline>) returns (existing: map<Key, Entry>)
    ensures Remembers(existing, Flatten(repositories))
  {
    existing := map[];
    forall id, fp ensures RemembersAt(existing, [], id, fp) {}
    for n := 0 to |repositories|
      invariant Remembers(existing, Flatten(repositories[..n]))
    {
      existing := RememberRepository(existing, repositories[n], Flatten(repositories[..n]));
      assert repositories[..n + 1][..n] == repositories[..n];
    }
    assert repositories[..|repositories|] == repositories;
  }

  // ----- observations

  /** The map holds, for each finding observed in a repository, what the new baseline says of it. */
  ghost predicate SummarisesAt(observations: map<Key, Entry>, seen: set<Observation>, listed: seq<Listed>, now: string,
                               id: string, fp: nat) {
    if (id, fp) in observations then
      exists p :: Least(seen, id, fp, p) && observations[(id, fp)] == Kept(p, fp, Previous(listed, id, fp), now)
    else !IsObserved(seen, id, fp)
  }

  ghost predicate Summarises(observations: map<Key, Entry>, seen: set<Observation>, listed: seq<Listed>, now: string) {
    forall id, fp {:trigger SummarisesAt(observations, seen, listed, now, id, fp)} ::
      SummarisesAt(observations, seen, listed, now, id, fp)
  }

  /** The entry for one more observation, given the entry so far and the history. */
  function Observe(current: Option<Entry>, place: Place, fp: nat, previous: Option<Entry>, now: string): (r: Entry) {
    var candidate := At(place, fp, now, now);
    var chosen :=
      if current.Some? && !Before(place, PlaceOf(current.value)) then current.value
      else candidate;
    match previous
    case None => chosen
    case Some(e) =>
      var dated := chosen.(firstSeen := e.firstSeen);
      if dated.path == e.path && dated.ruleId == e.ruleId && dated.line == e.line
      then dated.(lastUpdated := e.lastUpdated) else dated
  }

  /** Folding in one observation keeps the least place and its history. */
  lemma ObserveKeepsLeast(seen: set<Observation>, o: Observation, p: Place, previous: Option<Entry>, now: string)
    requires Least(seen, o.repositoryId, o.fingerprint, p)
    ensures var best := if Before(o.place, p) then o.place else p;
      Least(seen + {o}, o.repositoryId, o.fingerprint, best)
      && Observe(Some(Kept(p, o.fingerprint, previous, now)), o.place, o.fingerprint, previous, now)
           == Kept(best, o.fingerprint, previous, now)
  {
    BeforeTotal(o.place, p);
    forall q | q in seen && q.repositoryId == o.repositoryId && q.fingerprint == o.fingerprint && Before(o.place, p)
      ensures !Before(q.place, o.place)
    {
      if Before(q.place, o.place) { BeforeTransitive(q.place, o.place, p); }
    }
    BeforeTotal(o.place, o.place);
  }

  lemma FirstObservationIsLeast(seen: set<Observation>, o: Observation)
    requires !IsObserved(seen, o.repositoryId, o.fingerprint)
    ensures Least(seen + {o}, o.repositoryId, o.fingerprint, o.place)
  {
    assert o == Observation(o.repositoryId, o.fingerprint, o.place);
    BeforeTotal(o.place, o.place);
    forall q | q in seen ensures q.repositoryId != o.repositoryId || q.fingerprint != o.fingerprint {
      assert q == Observation(q.repositoryId, q.fingerprint, q.place);
    }
  }

  lemma OtherFindingsStay(seen: set<Observation>, o: Observation, id: string, fp: nat)
    requires (id, fp) != (o.repositoryId, o.fingerprint)
    ensures IsObserved(seen + {o}, id, fp) <==> IsObserved(seen, id, fp)
    ensures forall p :: Least(seen + {o}, id, fp, p) <==> Least(seen, id, fp, p)
  {
    if IsObserved(seen, id, fp) {
      var p :| Observation(id, fp, p) in seen;
      assert Observation(id, fp, p) in seen + {o};
    }
  }

  /** Folds one observation into the map. */
  method AddObservation(start: map<Key, Entry>, o: Observation, existing: map<Key, Entry>, now: string,
                        ghost seen: set<Observation>, ghost listed: seq<Listed>)
    returns (observations: map<Key, Entry>)
    requires Summarises(start, seen, listed, now) && Remembers(existing, listed)
    ensures Summarises(observations, seen + {o}, listed, now)
  {
    hide Previous, Least, Kept, Observe, IsObserved;
    var key := (o.repositoryId, o.fingerprint);
    var current := if key in start then Some(start[key]) else None;
    var previous := if key in existing then Some(existing[key]) else None;
    observations := start[key := Observe(current, o.place, o.fingerprint, previous, now)];
    assert RemembersAt(existing, listed, key.0, key.1);
    assert SummarisesAt(start, seen, listed, now, key.0, key.1);
    FoldedIn(seen, o, current, previous, listed, now);
    forall id, fp: nat ensures SummarisesAt(observations, seen + {o}, listed, now, id, fp) {
      assert SummarisesAt(start, seen, listed, now, id, fp);
      if (id, fp) != key { OtherFindingsStay(seen, o, id, fp); }
    }
  }

  lemma FoldedIn(seen: set<Observation>, o: Observation, current: Option<Entry>, previous: Option<Entry>,
                 listed: seq<Listed>, now: string)
    requires previous == Previous(listed, o.repositoryId, o.fingerprint)
    requires if current.Some? then
        exists p :: Least(seen, o.repositoryId, o.fingerprint, p)
                    && current.value == Kept(p, o.fingerprint, previous, now)
      else !IsObserved(seen, o.repositoryId, o.fingerprint)
    ensures exists p :: Least(seen + {o}, o.repositoryId, o.fingerprint, p)
                        && Observe(current, o.place, o.fingerprint, previous, now)
                           == Kept(p, o.fingerprint, previous, now)
  {
    if current.Some? {
      var p :| Least(seen, o.repositoryId, o.fingerprint, p) && current.value == Kept(p, o.fingerprint, previous, now);
      ObserveKeepsLeast(seen, o, p, previous, now);
    } else {
      FirstObservationIsLeast(seen, o);
    }
  }

  ghost function Sightings(r: Resolver, f: Finding): (s: set<Observation>) {
    set id | id in Contexts(r, f.origins) ::
      Observation(id, f.fingerprint, Place(Contexts(r, f.origins)[id], f.line, f.ruleId))
  }

  /** Observes one finding in each of its repositories. */
  method ObserveFinding(start: map<Key, Entry>, scannedBefore: set<string>, r: Resolver, f: Finding,
                        existing: map<Key, Entry>, now: string,
                        ghost seen: set<Observation>, ghost listed: seq<Listed>)
    returns (observations: map<Key, Entry>, scanned: set<string>)
    requires Summarises(start, seen, listed, now) && Remembers(existing, listed)
    ensures Summarises(observations, seen + Sightings(r, f), listed, now)
    ensures scanned == scannedBefore + set o | o in Sightings(r, f) :: o.repositoryId
  {
    hide Summarises, Remembers;
    var contexts := FindContexts(r, f.origins);
    observations, scanned := start, scannedBefore;
    var left := contexts.Keys;
    ghost var done: set<Observation> := {};
    assert seen + done == seen;
    while left != {}
      invariant left <= contexts.Keys
      invariant done == set id | id in contexts.Keys - left ::
        Observation(id, f.fingerprint, Place(contexts[id], f.line, f.ruleId))
      invariant Summarises(observations, seen + done, listed, now)
      invariant scanned == scannedBefore + (contexts.Keys - left)
      decreases left
    {
      var id :| id in left;
      left := left - {id};
      scanned := scanned + {id};
      var o := Observation(id, f.fingerprint, Place(contexts[id], f.line, f.ruleId));
      observations := AddObservation(observations, o, existing, now, seen + done, listed);
      assert seen + done + {o} == seen + (done + {o});
      done := done + {o};
    }
    assert done == Sightings(r, f);
    SightedRepositories(r, f);
  }

  lemma SightedRepositories(r: Resolver, f: Finding)
    ensures (set o | o in Sightings(r, f) :: o.repositoryId) == Contexts(r, f.origins).Keys
  {
    forall id | id in Contexts(r, f.origins) ensures exists o :: o in Sightings(r, f) && o.repositoryId == id {
      assert Observation(id, f.fingerprint, Place(Contexts(r, f.origins)[id], f.line, f.ruleId)) in Sightings(r, f);
    }
  }

  method ObserveAll(r: Resolver, matches: seq<Finding>, existing: map<Key, Entry>, now: string,
                    ghost listed: seq<Listed>)
    returns (observations: map<Key, Entry>, scanned: set<string>)
    requires Remembers(existing, listed)
    ensures Summarises(observations, Observed(r, matches), listed, now)
    ensures scanned == Scanned(r, Observed(r, matches))
  {
    hide Summarises, Remembers;
    observations, scanned := map[], set id | id in r.scopes;
    NothingObserved(r, listed, now);
    assert matches[..0] == [];
    for n := 0 to |matches|
      invariant Summarises(observations, Observed(r, matches[..n]), listed, now)
      invariant scanned == Scanned(r, Observed(r, matches[..n]))
    {
      ObservedSnoc(r, matches, n);
      observations, scanned := ObserveFinding(observations, scanned, r, matches[n], existing, now,
                                              Observed(r, matches[..n]), listed);
    }
    assert matches[..|matches|] == matches;
  }

  lemma NothingObserved(r: Resolver, listed: seq<Listed>, now: string)
    ensures Observed(r, []) == {} && Summarises(map[], Observed(r, []), listed, now)
  {
    forall id, fp ensures SummarisesAt(map[], Observed(r, []), listed, now, id, fp) {}
  }

  lemma ObservedSnoc(r: Resolver, matches: seq<Finding>, n: nat)
    requires n < |matches|
    ensures Observed(r, matches[..n + 1]) == Observed(r, matches[..n]) + Sightings(r, matches[n])
  {
    var a, b := matches[..n + 1], matches[..n];
    assert a[n] == matches[n] && forall i :: 0 <= i < n ==> a[i] == b[i];
    forall o ensures o in Observed(r, a) <==> o in Observed(r, b) + Sightings(r, matches[n]) {
      if o in Observed(r, b) {
        var i, id :| 0 <= i < |b| && id in Contexts(r, b[i].origins)
          && o == Observation(id, b[i].fingerprint, Place(Contexts(r, b[i].origins)[id], b[i].line, b[i].ruleId));
        assert a[i] == b[i];
      }
      if o in Sightings(r, matches[n]) {
        var id :| id in Contexts(r, matches[n].origins)
          && o == Observation(id, matches[n].fingerprint,
                              Place(Contexts(r, matches[n].origins)[id], matches[n].line, matches[n].ruleId));
        assert id in Contexts(r, a[n].origins);
      }
    }
  }

  // ----- the new repositories

  function Listing(m: map<string, seq<Entry>>, id: string): (r: seq<Entry>) {
    if id in m then m[id] else []
  }

  lemma LastListingSnoc(repositories: seq<RepositoryBaseline>, n: nat, id: string)
    requires n < |repositories|
    ensures LastListing(repositories[..n + 1], id)
         == if repositories[n].id == id then repositories[n].findings else LastListing(repositories[..n], id)
  {
    assert repositories[..n + 1][..n] == repositories[..n];
  }

  /** Repositories that were not scanned are carried over. */
  method CarryOver(repositories: seq<RepositoryBaseline>, scanned: set<string>) returns (m: map<string, seq<Entry>>)
    ensures forall id :: Listing(m, id) == if id in scanned then [] else LastListing(repositories, id)
  {
    m := map[];
    for n := 0 to |repositories|
      invariant forall id :: Listing(m, id) == if id in scanned then [] else LastListing(repositories[..n], id)
    {
      forall id { LastListingSnoc(repositories, n, id); }
      if repositories[n].id !in scanned {
        m := m[repositories[n].id := repositories[n].findings];
      }
    }
    assert repositories[..|repositories|] == repositories;
  }

  /** The findings listed for a scanned repository so far: those of the keys already taken. */
  ghost predicate Collected(findings: seq<Entry>, observations: map<Key, Entry>, done: set<Key>, id: string) {
    && DistinctFingerprints(findings)
    && forall x :: x in findings <==>
         exists fp :: (id, fp) in done && (id, fp) in observations && x == observations[(id, fp)]
  }

  /** Every entry carries its own fingerprint's decimal text. */
  ghost predicate OwnText(observations: map<Key, Entry>) {
    forall k :: k in observations ==> observations[k].fingerprint == TextOf(k.1, 10)
  }

  lemma CollectedSnoc(findings: seq<Entry>, observations: map<Key, Entry>, done: set<Key>, k: Key)
    requires OwnText(observations) && k in observations && k !in done
    requires Collected(findings, observations, done, k.0)
    ensures Collected(findings + [observations[k]], observations, done + {k}, k.0)
  {
    var x := observations[k];
    forall i | 0 <= i < |findings| ensures findings[i].fingerprint != x.fingerprint {
      assert findings[i] in findings;
      var fp :| (k.0, fp) in done && (k.0, fp) in observations && findings[i] == observations[(k.0, fp)];
      if findings[i].fingerprint == x.fingerprint { TextIsInjective(fp, k.1); }
    }
    assert k == (k.0, k.1);
    forall y
      ensures y in findings + [x] <==>
        exists fp :: (k.0, fp) in done + {k} && (k.0, fp) in observations && y == observations[(k.0, fp)]
    {
      if y in findings {
        var fp :| (k.0, fp) in done && (k.0, fp) in observations && y == observations[(k.0, fp)];
        assert (k.0, fp) in done + {k};
      }
    }
  }

  /** Adds every observation to its repository, in any order. */
  method AddObserved(start: map<string, seq<Entry>>, observations: map<Key, Entry>, scanned: set<string>)
    returns (m: map<string, seq<Entry>>)
    requires OwnText(observations) && forall k :: k in observations ==> k.0 in scanned
    requires forall id :: id in scanned ==> Listing(start, id) == []
    ensures forall id :: if id in scanned then Collected(Listing(m, id), observations, observations.Keys, id)
                           else Listing(m, id) == Listing(start, id)
  {
    m := start;
    var left := observations.Keys;
    while left != {}
      invariant left <= observations.Keys
      invariant forall id {:trigger Listing(m, id)} ::
        id in scanned ==> Collected(Listing(m, id), observations, observations.Keys - left, id)
      invariant forall id {:trigger Listing(m, id)} :: id !in scanned ==> Listing(m, id) == Listing(start, id)
      decreases left
    {
      hide Collected, OwnText;
      var k: Key :| k in left;
      ghost var before, done := m, observations.Keys - left;
      left := left - {k};
      assert observations.Keys - left == done + {k};
      m := m[k.0 := Listing(m, k.0) + [observations[k]]];
      assert k.0 in scanned && Collected(Listing(before, k.0), observations, done, k.0);
      assert Listing(m, k.0) == Listing(before, k.0) + [observations[k]];
      CollectedSnoc(Listing(before, k.0), observations, done, k);
      forall id | id in scanned ensures Collected(Listing(m, id), observations, done + {k}, id) {
        if id != k.0 {
          assert Listing(m, id) == Listing(before, id);
          assert Collected(Listing(before, id), observations, done, id);
          OtherCollected(Listing(before, id), observations, done, k, id);
        }
      }
      forall id | id !in scanned ensures Listing(m, id) == Listing(start, id) {
        assert Listing(m, id) == Listing(before, id);
      }
    }
    assert observations.Keys - left == observations.Keys;
  }

  lemma OtherCollected(findings: seq<Entry>, observations: map<Key, Entry>, done: set<Key>, k: Key, id: string)
    requires Collected(findings, observations, done, id) && k.0 != id
    ensures Collected(findings, observations, done + {k}, id)
  {
    forall x
      ensures x in findings <==>
        exists fp :: (id, fp) in done + {k} && (id, fp) in observations && x == observations[(id, fp)]
    {
      if x in findings {
        var fp :| (id, fp) in done && (id, fp) in observations && x == observations[(id, fp)];
        assert (id, fp) in done + {k};
      }
    }
  }

  // ----- sorting and output

  lemma {:induction false} InsertKeepsDistinct(s: seq<Entry>, x: Entry)
    requires DistinctFingerprints(s) && forall y :: y in s ==> y.fingerprint != x.fingerprint
    ensures DistinctFingerprints(InsertEntry(s, x))
  {
    hide EntryLess;
    if s != [] && EntryLess(x, s[|s| - 1]) {
      var n := |s| - 1;
      assert s == s[..n] + [s[n]];
      InsertKeepsDistinct(s[..n], x);
      var rest := InsertEntry(s[..n], x);
      forall i | 0 <= i < |rest| ensures rest[i].fingerprint != s[n].fingerprint {
        assert rest[i] in rest;
      }
    }
  }

  lemma {:induction false} SortKeepsDistinct(s: seq<Entry>)
    requires DistinctFingerprints(s)
    ensures DistinctFingerprints(SortEntries(s))
  {
    if s != [] {
      var n := |s| - 1;
      SortKeepsDistinct(s[..n]);
      assert forall y :: y in s[..n] ==> y.fingerprint != s[n].fingerprint;
      InsertKeepsDistinct(SortEntries(s[..n]), s[n]);
    }
  }

  /** Sorting a scanned repository's findings gives its listing; removing adjacent duplicates has
      nothing to remove. */
  lemma CollectedBecomesListing(findings: seq<Entry>, observations: map<Key, Entry>, seen: set<Observation>,
                                listed: seq<Listed>,
                                id: string, now: string)
    requires Summarises(observations, seen, listed, now) && Collected(findings, observations, observations.Keys, id)
    ensures ListsObserved(Normal(findings), seen, listed, id, now)
  {
    SortSorts(findings);
    SortKeepsDistinct(findings);
    DedupIsFixed(SortEntries(findings));
    var r := Normal(findings);
    forall x | x in r
      ensures exists fp, p :: Least(seen, id, fp, p) && x == Kept(p, fp, Previous(listed, id, fp), now)
    {
      var fp :| (id, fp) in observations && x == observations[(id, fp)];
      assert SummarisesAt(observations, seen, listed, now, id, fp);
    }
    forall fp: nat, p | Least(seen, id, fp, p) ensures Kept(p, fp, Previous(listed, id, fp), now) in r {
      assert SummarisesAt(observations, seen, listed, now, id, fp);
      assert IsObserved(seen, id, fp);
      var q :| Least(seen, id, fp, q) && observations[(id, fp)] == Kept(q, fp, Previous(listed, id, fp), now);
      LeastIsUnique(seen, id, fp, p, q);
      assert (id, fp) in observations.Keys;
    }
  }

  lemma {:induction false} LeastId(ids: set<string>) returns (least: string)
    requires ids != {}
    ensures least in ids && forall id :: id in ids ==> !TextLess(id, least)
    decreases ids
  {
    var id :| id in ids;
    if ids == {id} {
      least := id;
      TextTotal(id, id);
    } else {
      var rest := LeastId(ids - {id});
      TextTotal(id, rest);
      least := if TextLess(id, rest) then id else rest;
      forall other | other in ids ensures !TextLess(other, least) {
        if TextLess(other, least) && other != id {
          if least == id { TextTransitive(other, id, rest); }
        }
        TextTotal(id, id);
      }
    }
  }

  lemma LastListingAppend(out: seq<RepositoryBaseline>, x: RepositoryBaseline, id: string)
    ensures LastListing(out + [x], id) == if x.id == id then x.findings else LastListing(out, id)
  {
    assert (out + [x])[..|out|] == out;
  }

  /** Lists the repositories by ID, normalised, leaving out the empty ones. */
  method Assemble(m: map<string, seq<Entry>>) returns (out: seq<RepositoryBaseline>)
    ensures SortedById(out) && forall i :: 0 <= i < |out| ==> out[i].findings != []
    ensures forall id :: LastListing(out, id) == Normal(Listing(m, id))
  {
    hide Normal;
    out := [];
    var left := m.Keys;
    EmptyIsNormal();
    while left != {}
      invariant left <= m.Keys && SortedById(out)
      invariant forall i :: 0 <= i < |out| ==> out[i].findings != [] && out[i].id in m.Keys - left
      invariant forall a, b :: a in m.Keys - left && b in left ==> TextLess(a, b)
      invariant forall id {:trigger LastListing(out, id)} ::
        LastListing(out, id) == if id in left then [] else Normal(Listing(m, id))
      decreases left
    {
      ghost var least := LeastId(left);
      var id :| id in left && forall other :: other in left ==> !TextLess(other, id);
      var findings := Normal(m[id]);
      forall other | other in left && other != id ensures TextLess(id, other) { TextTotal(id, other); }
      left := left - {id};
      if findings != [] {
        forall other { LastListingAppend(out, RepositoryBaseline(id, findings), other); }
        out := out + [RepositoryBaseline(id, findings)];
      }
    }
  }

  lemma EmptyIsNormal()
    ensures Normal([]) == []
  {
  }

  lemma SummaryHasOwnText(observations: map<Key, Entry>, seen: set<Observation>, listed: seq<Listed>, r: Resolver,
                          now: string)
    requires Summarises(observations, seen, listed, now)
    ensures OwnText(observations) && forall k :: k in observations ==> k.0 in Scanned(r, seen)
  {
    forall k | k in observations
      ensures observations[k].fingerprint == TextOf(k.1, 10) && k.0 in Scanned(r, seen)
    {
      assert SummarisesAt(observations, seen, listed, now, k.0, k.1);
      var p :| Least(seen, k.0, k.1, p) && observations[k] == Kept(p, k.1, Previous(listed, k.0, k.1), now);
      assert Observation(k.0, k.1, p).repositoryId == k.0;
    }
  }

  /** Builds the managed baseline of a scan. */
  method BuildManagedBaseline(matches: seq<Finding>, b: BaselineFile, r: Resolver, now: string)
    returns (out: BaselineFile, ok: bool)
    ensures ok <==> b.version.None? || (b.version == Some(2) && b.algorithm == Some("kingfisher-v1"))
    ensures ok ==> IsManaged(out, b, r, Observed(r, matches), now)
    ensures ok ==> forall id :: InOrder(LastListing(out.repositories, id))
    ensures (ok ==> forall id, e :: id in Scanned(r, Observed(r, matches)) && e in LastListing(out.repositories, id) ==>
               exists o :: ListsFirst(e, Observed(r, matches), id, o)
                           && DatedBy(e, Previous(Flatten(b.repositories), id, o.fingerprint), now))
  {
    hide Summarises, Remembers, Collected, Normal, Observed, ListsObserved, OwnText, InOrder, ListsFirst, DatedBy,
         Scanned, LastListing, Flatten, Previous;
    ok := Supported(b);
    if !ok {
      return b, false;
    }
    ghost var seen, listed := Observed(r, matches), Flatten(b.repositories);
    var existing := RememberAll(b.repositories);
    var observations, scanned := ObserveAll(r, matches, existing, now, listed);
    SummaryHasOwnText(observations, seen, listed, r, now);
    var repositories := CarryOver(b.repositories, scanned);
    repositories := AddObserved(repositories, observations, scanned);
    var listings := Assemble(repositories);
    out := BaselineFile(Some(BASELINE_VERSION), Some(FINGERPRINT_ALGORITHM), listings, []);
    forall id ensures ListsRight(LastListing(out.repositories, id), b, r, seen, id, now) {
      if id in scanned {
        CollectedBecomesListing(Listing(repositories, id), observations, seen, listed, id, now);
      }
    }
    forall id ensures InOrder(LastListing(out.repositories, id)) { ListingsAreInOrder(out, b, r, seen, now, id); }
    forall id, e | id in Scanned(r, seen) && e in LastListing(out.repositories, id)
      ensures exists o :: ListsFirst(e, seen, id, o) && DatedBy(e, Previous(listed, id, o.fingerprint), now)
    {
      var o := EntryIsFirst(out, b, r, seen, now, id, e);
    }
  }
}
