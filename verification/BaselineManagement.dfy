/** Building a managed baseline from a scan, and applying a baseline to findings. */
module BaselineManagement {
  import opened Baselines
  import opened Fingerprints
  import opened Wrappers
  import opened Texts

  type Origin = nat

  datatype FindingContext = FindingContext(repositoryId: string, path: string)

  /** The scan's roots, narrowest first, by repository ID, and the repository and path each origin
      belongs to. */
  datatype Resolver = Resolver(scopes: seq<string>, contextOf: Origin -> Option<FindingContext>)

  datatype Finding = Finding(origins: seq<Origin>, fingerprint: nat, ruleId: string, line: nat, visible: bool)

  // ----- the repositories of a finding

  function AddContext(m: map<string, string>, c: FindingContext): (r: map<string, string>) {
    if c.repositoryId in m && !TextLess(c.path, m[c.repositoryId]) then m else m[c.repositoryId := c.path]
  }

  function OriginContexts(r: Resolver, origins: seq<Origin>): (m: map<string, string>) {
    if origins == [] then map[]
    else
      var n := |origins| - 1;
      var rest := OriginContexts(r, origins[..n]);
      var c := r.contextOf(origins[n]);
      if c.Some? then AddContext(rest, c.value) else rest
  }

  /** One path per repository; a finding without any context belongs to the narrowest root. */
  function Contexts(r: Resolver, origins: seq<Origin>): (m: map<string, string>) {
    var m := OriginContexts(r, origins);
    if m == map[] && r.scopes != [] then map[r.scopes[0] := ""] else m
  }

  ghost predicate HasContext(r: Resolver, origins: seq<Origin>, id: string, path: string) {
    exists i :: 0 <= i < |origins| && r.contextOf(origins[i]) == Some(FindingContext(id, path))
  }

  /** Each repository of the finding is listed with its least path. */
  lemma {:induction false} ContextsAreLeast(r: Resolver, origins: seq<Origin>, id: string)
    ensures id in OriginContexts(r, origins) <==> exists path :: HasContext(r, origins, id, path)
    ensures id in OriginContexts(r, origins) ==>
      HasContext(r, origins, id, OriginContexts(r, origins)[id])
      && forall path :: HasContext(r, origins, id, path) ==> !TextLess(path, OriginContexts(r, origins)[id])
  {
    if origins != [] {
      var n := |origins| - 1;
      ContextsAreLeast(r, origins[..n], id);
      var rest, c, m := OriginContexts(r, origins[..n]), r.contextOf(origins[n]), OriginContexts(r, origins);
      assert origins == origins[..n] + [origins[n]];
      forall path ensures HasContext(r, origins, id, path)
                     <==> HasContext(r, origins[..n], id, path) || c == Some(FindingContext(id, path))
      {
        forall i | 0 <= i < n ensures origins[..n][i] == origins[i] {}
      }
      if c.Some? && c.value.repositoryId == id {
        assert HasContext(r, origins, id, c.value.path);
        TextTotal(c.value.path, c.value.path);
        if id in rest {
          forall path | HasContext(r, origins, id, path) ensures !TextLess(path, m[id]) {
            if TextLess(c.value.path, rest[id]) && TextLess(path, c.value.path) {
              TextTransitive(path, c.value.path, rest[id]);
            }
          }
        }
      }
    }
  }

  /** A finding without any context belongs to the narrowest root, if there is one, and any other to its contexts
      only. */
  lemma ContextsFallBack(r: Resolver, origins: seq<Origin>)
    ensures (forall i :: 0 <= i < |origins| ==> r.contextOf(origins[i]).None?) ==>
              Contexts(r, origins) == if r.scopes != [] then map[r.scopes[0] := ""] else map[]
    ensures (forall id, path :: HasContext(r, origins, id, path) ==>
               forall other :: other in Contexts(r, origins) <==> exists p :: HasContext(r, origins, other, p))
  {
    forall id { ContextsAreLeast(r, origins, id); }
    if forall i :: 0 <= i < |origins| ==> r.contextOf(origins[i]).None? {
      assert forall id :: id !in OriginContexts(r, origins);
    }
    forall id, path | HasContext(r, origins, id, path)
      ensures forall other :: other in Contexts(r, origins) <==> exists p :: HasContext(r, origins, other, p)
    {
      assert id in OriginContexts(r, origins);
    }
  }

  method FindContexts(r: Resolver, origins: seq<Origin>) returns (byRepository: map<string, string>)
    ensures byRepository == Contexts(r, origins)
  {
    byRepository := map[];
    for n := 0 to |origins|
      invariant byRepository == OriginContexts(r, origins[..n])
    {
      assert origins[..n + 1][..n] == origins[..n];
      var context := r.contextOf(origins[n]);
      if context.Some? {
        var id, path := context.value.repositoryId, context.value.path;
        if id in byRepository {
          if TextLess(path, byRepository[id]) {
            byRepository := byRepository[id := path];
          }
        } else {
          byRepository := byRepository[id := path];
        }
      }
    }
    assert origins[..|origins|] == origins;
    if byRepository == map[] && r.scopes != [] {
      byRepository := map[r.scopes[0] := ""];
    }
  }

  // ----- observations

  /** A finding seen in one repository. */
  datatype Observation = Observation(repositoryId: string, fingerprint: nat, place: Place)

  function At(p: Place, fingerprint: nat, firstSeen: string, lastUpdated: string): (e: Entry) {
    Entry(p.path, TextOf(fingerprint, 10), p.ruleId, p.line, firstSeen, lastUpdated)
  }

  /** The least place of a finding in a repository, among the observations made. */
  ghost predicate Least(seen: set<Observation>, id: string, fingerprint: nat, p: Place) {
    && Observation(id, fingerprint, p) in seen
    && forall o :: o in seen && o.repositoryId == id && o.fingerprint == fingerprint ==> !Before(o.place, p)
  }

  lemma LeastIsUnique(seen: set<Observation>, id: string, fingerprint: nat, p: Place, q: Place)
    requires Least(seen, id, fingerprint, p) && Least(seen, id, fingerprint, q)
    ensures p == q
  {
    assert Observation(id, fingerprint, p).place == p && Observation(id, fingerprint, q).place == q;
    BeforeTotal(p, q);
  }

  /** All observations of a scan. */
  ghost function Observed(r: Resolver, matches: seq<Finding>): (s: set<Observation>) {
    set i, id | 0 <= i < |matches| && id in Contexts(r, matches[i].origins)
      :: Observation(id, matches[i].fingerprint,
                     Place(Contexts(r, matches[i].origins)[id], matches[i].line, matches[i].ruleId))
  }

  ghost predicate IsObserved(seen: set<Observation>, id: string, fingerprint: nat) {
    exists p :: Observation(id, fingerprint, p) in seen
  }

  // ----- the history an existing baseline has of a finding

  datatype Listed = Listed(id: string, entry: Entry)

  function Flatten(repositories: seq<RepositoryBaseline>): (r: seq<Listed>) {
    if repositories == [] then []
    else
      var n := |repositories| - 1;
      Flatten(repositories[..n]) + Tagged(repositories[n].id, repositories[n].findings)
  }

  function Tagged(id: string, findings: seq<Entry>): (r: seq<Listed>)
    ensures |r| == |findings| && forall k :: 0 <= k < |r| ==> r[k] == Listed(id, findings[k])
  {
    seq(|findings|, k requires 0 <= k < |findings| => Listed(id, findings[k]))
  }

  predicate Concerns(x: Listed, id: string, fingerprint: nat) {
    x.id == id && fingerprint in ParseFingerprint(x.entry.fingerprint)
  }

  /** The first listed finding of the repository with this fingerprint among its readings. */
  function Previous(listed: seq<Listed>, id: string, fingerprint: nat): (r: Option<Entry>) {
    if listed == [] then None
    else
      var n := |listed| - 1;
      var rest := Previous(listed[..n], id, fingerprint);
      if rest.Some? then rest else if Concerns(listed[n], id, fingerprint) then Some(listed[n].entry) else None
  }

  /** What the new baseline says of a finding: its least place, when it was first seen, and when that
      place last changed. */
  function Kept(p: Place, fingerprint: nat, previous: Option<Entry>, now: string): (r: Entry) {
    match previous
    case None => At(p, fingerprint, now, now)
    case Some(e) =>
      At(p, fingerprint, e.firstSeen,
         if p.path == e.path && p.ruleId == e.ruleId && p.line == e.line then e.lastUpdated else now)
  }

  // ----- what a managed baseline is

  ghost function Scanned(r: Resolver, seen: set<Observation>): (s: set<string>) {
    (set id | id in r.scopes) + (set o | o in seen :: o.repositoryId)
  }

  /** The findings of the last repository listed under this ID. */
  function LastListing(repositories: seq<RepositoryBaseline>, id: string): (r: seq<Entry>) {
    if repositories == [] then []
    else if repositories[|repositories| - 1].id == id then repositories[|repositories| - 1].findings
    else LastListing(repositories[..|repositories| - 1], id)
  }

  /** Of several entries for one repository the last one counts. */
  lemma {:induction false} LastListingIsLast(repositories: seq<RepositoryBaseline>, i: nat)
    requires i < |repositories| && forall j :: i < j < |repositories| ==> repositories[j].id != repositories[i].id
    ensures LastListing(repositories, repositories[i].id) == repositories[i].findings
  {
    var n := |repositories| - 1;
    if i < n { LastListingIsLast(repositories[..n], i); }
  }

  lemma {:induction false} UnlistedHasNone(repositories: seq<RepositoryBaseline>, id: string)
    requires forall i :: 0 <= i < |repositories| ==> repositories[i].id != id
    ensures LastListing(repositories, id) == []
  {
    if repositories != [] { UnlistedHasNone(repositories[..|repositories| - 1], id); }
  }

  /** The findings of a scanned repository: one entry for each fingerprint observed there. */
  ghost predicate ListsObserved(findings: seq<Entry>, seen: set<Observation>, listed: seq<Listed>, id: string,
                                now: string) {
    && SortedEntries(findings) && DistinctFingerprints(findings)
    && (forall x :: x in findings ==>
          exists fp, p :: Least(seen, id, fp, p) && x == Kept(p, fp, Previous(listed, id, fp), now))
    && (forall fp, p :: Least(seen, id, fp, p) ==> Kept(p, fp, Previous(listed, id, fp), now) in findings)
  }

  ghost predicate ListsRight(findings: seq<Entry>, b: BaselineFile, r: Resolver, seen: set<Observation>, id: string,
                             now: string) {
    if id in Scanned(r, seen) then ListsObserved(findings, seen, Flatten(b.repositories), id, now)
    else findings == Normal(LastListing(b.repositories, id))
  }

  ghost predicate SortedById(repositories: seq<RepositoryBaseline>) {
    forall i, j :: 0 <= i < j < |repositories| ==> TextLess(repositories[i].id, repositories[j].id)
  }

  /** The managed baseline: scanned repositories list exactly what was observed, the others keep
      their normalised findings, and repositories with nothing to list are left out. */
  ghost predicate IsManaged(out: BaselineFile, b: BaselineFile, r: Resolver, seen: set<Observation>, now: string) {
    && out.version == Some(BASELINE_VERSION) && out.algorithm == Some(FINGERPRINT_ALGORITHM) && out.exact == []
    && SortedById(out.repositories)
    && (forall i :: 0 <= i < |out.repositories| ==> out.repositories[i].findings != [])
    && forall id :: ListsRight(LastListing(out.repositories, id), b, r, seen, id, now)
  }

  // ----- the managed baseline is determined by the observations

  lemma {:induction false} ListingAt(repositories: seq<RepositoryBaseline>, i: nat)
    requires SortedById(repositories) && i < |repositories|
    ensures LastListing(repositories, repositories[i].id) == repositories[i].findings
  {
    var n := |repositories| - 1;
    if i < n {
      TextTotal(repositories[i].id, repositories[n].id);
      ListingAt(repositories[..n], i);
    }
  }

  lemma {:induction false} ListedSomewhere(repositories: seq<RepositoryBaseline>, id: string)
    requires LastListing(repositories, id) != []
    ensures exists i :: 0 <= i < |repositories| && repositories[i].id == id
  {
    if repositories != [] && repositories[|repositories| - 1].id != id {
      var n := |repositories| - 1;
      ListedSomewhere(repositories[..n], id);
      var i :| 0 <= i < n && repositories[..n][i].id == id;
      assert repositories[i].id == id;
    }
  }

  lemma ObservedListingIsUnique(a: seq<Entry>, b: seq<Entry>, seen: set<Observation>, listed: seq<Listed>, id: string,
                                now: string)
    requires ListsObserved(a, seen, listed, id, now) && ListsObserved(b, seen, listed, id, now)
    ensures a == b
  {
    SortedIsUnique(a, b);
  }

  /** Lists of repositories that are sorted, have no empty member and agree on every ID are equal. */
  lemma {:induction false} SortedRepositoriesAreUnique(a: seq<RepositoryBaseline>, b: seq<RepositoryBaseline>)
    requires SortedById(a) && SortedById(b)
    requires (forall i :: 0 <= i < |a| ==> a[i].findings != []) && (forall i :: 0 <= i < |b| ==> b[i].findings != [])
    requires forall id :: LastListing(a, id) == LastListing(b, id)
    ensures a == b
    decreases |a|
  {
    if a == [] {
      if b != [] {
        ListingAt(b, 0);
      }
    } else {
      ListingAt(a, |a| - 1);
      var last := a[|a| - 1];
      ListedSomewhere(b, last.id);
      var m := |b| - 1;
      ListingAt(b, m);
      ListedSomewhere(a, b[m].id);
      var i :| 0 <= i < |a| && a[i].id == b[m].id;
      var j :| 0 <= j < |b| && b[j].id == last.id;
      TextTotal(last.id, b[m].id);
      assert last.id == b[m].id;
      assert last == b[m];
      forall id ensures LastListing(a[..|a| - 1], id) == LastListing(b[..m], id) {
        WithoutLast(a, id);
        WithoutLast(b, id);
      }
      SortedRepositoriesAreUnique(a[..|a| - 1], b[..m]);
      assert a == a[..|a| - 1] + [last] && b == b[..m] + [b[m]];
    }
  }

  lemma {:induction false} WithoutLast(s: seq<RepositoryBaseline>, id: string)
    requires s != [] && SortedById(s)
    ensures LastListing(s[..|s| - 1], id) == if id == s[|s| - 1].id then [] else LastListing(s, id)
  {
    var n := |s| - 1;
    if id == s[n].id && LastListing(s[..n], id) != [] {
      ListedSomewhere(s[..n], id);
      var i :| 0 <= i < n && s[..n][i].id == id;
      TextTotal(s[i].id, s[n].id);
    }
  }

  /** The output depends only on the previous baseline, the scan's roots and the set of observations:
      neither the order of the findings nor that of their origins matters. */
  lemma ManagedIsUnique(a: BaselineFile, c: BaselineFile, b: BaselineFile, r: Resolver, seen: set<Observation>,
                        now: string)
    requires IsManaged(a, b, r, seen, now) && IsManaged(c, b, r, seen, now)
    ensures a == c
  {
    forall id ensures LastListing(a.repositories, id) == LastListing(c.repositories, id) {
      assert ListsRight(LastListing(a.repositories, id), b, r, seen, id, now);
      assert ListsRight(LastListing(c.repositories, id), b, r, seen, id, now);
      if id in Scanned(r, seen) {
        ObservedListingIsUnique(LastListing(a.repositories, id), LastListing(c.repositories, id), seen,
                                Flatten(b.repositories), id, now);
      }
    }
    SortedRepositoriesAreUnique(a.repositories, c.repositories);
  }

  // ----- what its entries say

  /** The path, line and rule of the entry do not come after those given. */
  ghost predicate NotAfter(e: Entry, path: string, line: nat, ruleId: string) {
    && !TextLess(path, e.path)
    && (path == e.path ==> e.line <= line)
    && (path == e.path && line == e.line ==> !TextLess(ruleId, e.ruleId))
  }

  /** Findings are listed by path, then line, then rule, then fingerprint text. */
  ghost predicate InOrder(findings: seq<Entry>) {
    forall i, j :: 0 <= i < j < |findings| ==>
      var a, b := findings[i], findings[j];
      && NotAfter(a, b.path, b.line, b.ruleId)
      && (a.path == b.path && a.line == b.line && a.ruleId == b.ruleId ==> !TextLess(b.fingerprint, a.fingerprint))
  }

  /** The entry lists an observation of its fingerprint which no other observation of it comes before. */
  ghost predicate ListsFirst(e: Entry, seen: set<Observation>, id: string, o: Observation) {
    && o in seen && o.repositoryId == id && e.fingerprint == TextOf(o.fingerprint, 10)
    && e.path == o.place.path && e.line == o.place.line && e.ruleId == o.place.ruleId
    && forall q :: q in seen && q.repositoryId == id && q.fingerprint == o.fingerprint ==>
         NotAfter(e, q.place.path, q.place.line, q.place.ruleId)
  }

  /** The dates of an entry: those of the finding's history, the second one only if the place is the same. */
  ghost predicate DatedBy(e: Entry, history: Option<Entry>, now: string) {
    match history
    case None => e.firstSeen == now && e.lastUpdated == now
    case Some(h) =>
      && e.firstSeen == h.firstSeen
      && e.lastUpdated == if e.path == h.path && e.line == h.line && e.ruleId == h.ruleId then h.lastUpdated else now
  }

  lemma LeastIsFirst(seen: set<Observation>, id: string, fp: nat, p: Place, previous: Option<Entry>, now: string)
    requires Least(seen, id, fp, p)
    ensures ListsFirst(Kept(p, fp, previous, now), seen, id, Observation(id, fp, p))
    ensures DatedBy(Kept(p, fp, previous, now), previous, now)
  {
    var e := Kept(p, fp, previous, now);
    forall q | q in seen && q.repositoryId == id && q.fingerprint == fp
      ensures NotAfter(e, q.place.path, q.place.line, q.place.ruleId)
    {
      assert !Before(q.place, p);
    }
  }

  /** An entry of a scanned repository stands for a finding observed there, at its first place. */
  lemma EntryIsFirst(out: BaselineFile, b: BaselineFile, r: Resolver, seen: set<Observation>, now: string, id: string,
                     e: Entry)
    returns (o: Observation)
    requires IsManaged(out, b, r, seen, now) && id in Scanned(r, seen) && e in LastListing(out.repositories, id)
    ensures ListsFirst(e, seen, id, o)
    ensures DatedBy(e, Previous(Flatten(b.repositories), id, o.fingerprint), now)
  {
    hide Kept, Previous, Flatten, Scanned, Least, ListsFirst, DatedBy;
    var listed := Flatten(b.repositories);
    assert ListsRight(LastListing(out.repositories, id), b, r, seen, id, now);
    var fp, p :| Least(seen, id, fp, p) && e == Kept(p, fp, Previous(listed, id, fp), now);
    LeastIsFirst(seen, id, fp, p, Previous(listed, id, fp), now);
    o := Observation(id, fp, p);
  }

  /** Every finding observed in a repository is listed there. */
  lemma ObservedIsListed(out: BaselineFile, b: BaselineFile, r: Resolver, seen: set<Observation>, now: string,
                         o: Observation)
    returns (e: Entry)
    requires IsManaged(out, b, r, seen, now) && o in seen
    ensures e in LastListing(out.repositories, o.repositoryId) && e.fingerprint == TextOf(o.fingerprint, 10)
  {
    hide Previous, Flatten, Least;
    var id := o.repositoryId;
    assert o == Observation(id, o.fingerprint, o.place);
    assert ListsRight(LastListing(out.repositories, id), b, r, seen, id, now);
    var p := LeastExists(seen, id, o.fingerprint, o.place);
    e := Kept(p, o.fingerprint, Previous(Flatten(b.repositories), id, o.fingerprint), now);
  }

  lemma SortedIsInOrder(findings: seq<Entry>)
    requires SortedEntries(findings)
    ensures InOrder(findings)
  {
  }

  /** Every listing is in order, whether its repository was scanned or carried over. */
  lemma ListingsAreInOrder(out: BaselineFile, b: BaselineFile, r: Resolver, seen: set<Observation>, now: string,
                           id: string)
    requires IsManaged(out, b, r, seen, now)
    ensures InOrder(LastListing(out.repositories, id))
  {
    hide InOrder, SortedEntries, Flatten, Scanned;
    assert ListsRight(LastListing(out.repositories, id), b, r, seen, id, now);
    if id !in Scanned(r, seen) {
      SortSorts(LastListing(b.repositories, id));
      DedupKeepsSorted(SortEntries(LastListing(b.repositories, id)));
    }
    SortedIsInOrder(LastListing(out.repositories, id));
  }

  // ----- applying a baseline

  function Readings(findings: seq<Entry>): (r: set<nat>) {
    set i, v | 0 <= i < |findings| && v in ParseFingerprint(findings[i].fingerprint) :: v
  }

  function LegacyReadings(exact: seq<string>): (r: set<nat>) {
    set i, v | 0 <= i < |exact| && v in ParseFingerprint(exact[i]) :: v
  }

  ghost predicate ListsReading(findings: seq<Entry>, fingerprint: nat) {
    exists i :: 0 <= i < |findings| && fingerprint in ParseFingerprint(findings[i].fingerprint)
  }

  /** A finding is known when the legacy list has it, or every one of its repositories lists it. */
  ghost predicate Known(b: BaselineFile, r: Resolver, f: Finding) {
    || (exists i :: 0 <= i < |b.exact| && f.fingerprint in ParseFingerprint(b.exact[i]))
    || (Contexts(r, f.origins) != map[]
        && forall id :: id in Contexts(r, f.origins) ==> ListsReading(LastListing(b.repositories, id), f.fingerprint))
  }

  class MatchStore {
    var matches: seq<Finding>

    constructor (matches: seq<Finding>)
      ensures this.matches == matches
    {
      this.matches := matches;
    }

    /** Hides the known findings in place; nothing becomes visible, and nothing else changes. */
    method ApplyLoadedBaseline(b: BaselineFile, r: Resolver) returns (ok: bool)
      modifies this
      ensures ok <==> b.version.None? || (b.version == Some(2) && b.algorithm == Some("kingfisher-v1"))
      ensures |matches| == |old(matches)|
      ensures forall i :: 0 <= i < |matches| ==>
        matches[i] == old(matches)[i].(visible := old(matches)[i].visible && !(ok && Known(b, r, old(matches)[i])))
    {
      ok := Supported(b);
      if !ok {
        return;
      }
      var legacy := LegacyReadings(b.exact);
      for n := 0 to |matches|
        invariant |matches| == |old(matches)|
        invariant forall i :: n <= i < |matches| ==> matches[i] == old(matches)[i]
        invariant forall i :: 0 <= i < n ==>
          matches[i] == old(matches)[i].(visible := old(matches)[i].visible && !Known(b, r, old(matches)[i]))
      {
        hide Known;
        var known := IsKnown(b, r, matches[n], legacy);
        if known {
          matches := matches[n := matches[n].(visible := false)];
        }
      }
    }

    /** Looks a finding up in the legacy list, and in the listings of its repositories. */
    static method IsKnown(b: BaselineFile, r: Resolver, f: Finding, legacy: set<nat>) returns (known: bool)
      requires legacy == LegacyReadings(b.exact)
      ensures known == Known(b, r, f)
    {
      hide Contexts, LastListing, ParseFingerprint;
      var contexts := FindContexts(r, f.origins);
      known := f.fingerprint in legacy
        || (contexts != map[]
            && forall id :: id in contexts ==> f.fingerprint in Readings(LastListing(b.repositories, id)));
    }
  }

  /** Manage, then apply: the baseline built from a scan hides every finding of that scan that
      belongs to some repository. */
  lemma ManagedHidesItsScan(out: BaselineFile, b: BaselineFile, r: Resolver, matches: seq<Finding>, now: string, k: nat)
    requires IsManaged(out, b, r, Observed(r, matches), now)
    requires k < |matches| && matches[k].fingerprint < U64_LIMIT && Contexts(r, matches[k].origins) != map[]
    ensures Supported(out) && Known(out, r, matches[k])
  {
    var f, seen := matches[k], Observed(r, matches);
    forall id | id in Contexts(r, f.origins)
      ensures ListsReading(LastListing(out.repositories, id), f.fingerprint)
    {
      var here := Place(Contexts(r, f.origins)[id], f.line, f.ruleId);
      assert Observation(id, f.fingerprint, here) in seen;
      var p := LeastExists(seen, id, f.fingerprint, here);
      var listing := LastListing(out.repositories, id);
      assert ListsRight(listing, b, r, seen, id, now);
      var e := Kept(p, f.fingerprint, Previous(Flatten(b.repositories), id, f.fingerprint), now);
      var i :| 0 <= i < |listing| && listing[i] == e;
      DecimalRoundTrip(f.fingerprint);
    }
  }

  lemma {:induction false} LeastExists(seen: set<Observation>, id: string, fingerprint: nat, here: Place)
    returns (p: Place)
    requires Observation(id, fingerprint, here) in seen
    ensures Least(seen, id, fingerprint, p)
    decreases |seen|
  {
    p := here;
    if !Least(seen, id, fingerprint, here) {
      var o :| o in seen && o.repositoryId == id && o.fingerprint == fingerprint && Before(o.place, here);
      var rest := seen - {Observation(id, fingerprint, here)};
      BeforeTotal(o.place, here);
      assert o == Observation(id, fingerprint, o.place);
      p := LeastExists(rest, id, fingerprint, o.place);
      BeforeTotal(p, o.place);
      if Before(here, p) {
        BeforeTransitive(o.place, here, p);
      } else if Before(p, o.place) {
        BeforeTransitive(p, o.place, here);
      }
      BeforeTotal(here, p);
    }
  }
}
