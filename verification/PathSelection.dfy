/**
 * Literal path selection, and the listing scopes it is turned into.
 *
 * Each scope is listed on its own, so the scopes must not overlap (an object would
 * be listed twice) and must leave no selected path out.
 */
module PathSelection {
  import opened Texts
  import opened Wrappers

  datatype Selection = Selection(includePrefixes: seq<string>, excludePrefixes: seq<string>,
                                 extensionAllowed: string -> bool)

  predicate AnyPrefix(path: string, prefixes: seq<string>) {
    exists i :: 0 <= i < |prefixes| && StartsWith(path, prefixes[i])
  }

  predicate Matches(sel: Selection, path: string) {
    (sel.includePrefixes == [] || AnyPrefix(path, sel.includePrefixes))
    && !AnyPrefix(path, sel.excludePrefixes)
    && sel.extensionAllowed(path)
  }

  /** The part of a prefix that lies inside the source's own scope. */
  function Intersect(prefix: string, source: Option<string>): (r: Option<string>)
    ensures r.Some? && source.Some? ==> StartsWith(r.value, source.value)
    ensures r.Some? ==> StartsWith(r.value, prefix)
  {
    match source
    case None => Some(prefix)
    case Some(base) =>
      if StartsWith(prefix, base) then Some(prefix) else if StartsWith(base, prefix) then Some(base) else None
  }

  function Intersections(prefixes: seq<string>, source: Option<string>): seq<string> {
    if prefixes == [] then []
    else
      var first := Intersect(prefixes[0], source);
      (if first.Some? then [first.value] else []) + Intersections(prefixes[1..], source)
  }

  function Candidates(sel: Selection, source: Option<string>): seq<string> {
    if sel.includePrefixes == [] then [if source.Some? then source.value else ""]
    else Intersections(sel.includePrefixes, source)
  }

  /** No scope begins with another. */
  ghost predicate Disjoint(scopes: seq<string>) {
    forall i, j :: 0 <= i < |scopes| && 0 <= j < |scopes| && i != j ==> !StartsWith(scopes[i], scopes[j])
  }

  predicate Covered(prefix: string, scopes: seq<string>, excluded: seq<string>) {
    AnyPrefix(prefix, scopes) || AnyPrefix(prefix, excluded)
  }

  /** What collapsing the first `i` prefixes has established. */
  ghost predicate Collapsed(scopes: seq<string>, prefixes: seq<string>, i: nat, excluded: seq<string>)
    requires i <= |prefixes|
  {
    && Disjoint(scopes)
    && (forall k :: 0 <= k < |scopes| ==> scopes[k] in prefixes && !AnyPrefix(scopes[k], excluded))
    && (forall k, j :: 0 <= k < |scopes| && i <= j < |prefixes| ==> !TextLess(prefixes[j], scopes[k]))
    && (forall k :: 0 <= k < |scopes| ==> !TextLess(scopes[|scopes| - 1], scopes[k]))
    && (forall j :: 0 <= j < i ==> Covered(prefixes[j], scopes, excluded))
  }

  predicate Opens(scopes: seq<string>, prefix: string, excluded: seq<string>) {
    !(|scopes| > 0 && StartsWith(prefix, scopes[|scopes| - 1])) && !AnyPrefix(prefix, excluded)
  }

  function Collapse(prefixes: seq<string>, excluded: seq<string>): (scopes: seq<string>) {
    if prefixes == [] then []
    else
      var prefix, before := prefixes[|prefixes| - 1], Collapse(prefixes[..|prefixes| - 1], excluded);
      if Opens(before, prefix, excluded) then before + [prefix] else before
  }

  /** The listing scopes of a selection within a source. */
  function Scopes(sel: Selection, source: Option<string>): seq<string> {
    Collapse(SortTexts(Candidates(sel, source)), sel.excludePrefixes)
  }

  /** Sorted prefixes are collapsed in one pass. */
  method ListingPrefixes(sel: Selection, source: Option<string>) returns (scopes: seq<string>)
    ensures scopes == Scopes(sel, source)
  {
    var prefixes := SortTexts(Candidates(sel, source));
    scopes := [];
    var i := 0;
    while i < |prefixes|
      invariant 0 <= i <= |prefixes|
      invariant scopes == Collapse(prefixes[..i], sel.excludePrefixes)
    {
      hide Opens, SortTexts, Candidates;
      var prefix := prefixes[i];
      assert prefixes[..i + 1][..i] == prefixes[..i];
      if Opens(scopes, prefix, sel.excludePrefixes) {
        scopes := scopes + [prefix];
      }
      i := i + 1;
    }
    assert prefixes[..i] == prefixes;
  }

  lemma {:induction false} CollapseIsSound(prefixes: seq<string>, i: nat, excluded: seq<string>)
    requires i <= |prefixes| && SortedTexts(prefixes)
    ensures Collapsed(Collapse(prefixes[..i], excluded), prefixes, i, excluded)
  {
    hide TextLess, StartsWith, AnyPrefix, Disjoint, Covered, Collapsed, SortedTexts;
    if i == 0 {
      NothingCollapsed(prefixes, excluded);
    } else {
      CollapseIsSound(prefixes, i - 1, excluded);
      assert prefixes[..i][..i - 1] == prefixes[..i - 1];
      var before := Collapse(prefixes[..i - 1], excluded);
      if Opens(before, prefixes[i - 1], excluded) {
        Push(before, prefixes, i - 1, excluded);
      } else {
        Skip(before, prefixes, i - 1, excluded);
      }
    }
  }

  /** Scopes never overlap, keep to what may be listed, and leave out only what is excluded. */
  lemma ScopesAreSound(sel: Selection, source: Option<string>)
    ensures Disjoint(Scopes(sel, source))
    ensures forall s :: s in Scopes(sel, source) ==> s in Candidates(sel, source) && !AnyPrefix(s, sel.excludePrefixes)
    ensures forall p :: p in Candidates(sel, source) ==> Covered(p, Scopes(sel, source), sel.excludePrefixes)
  {
    hide AnyPrefix, Candidates, Covered, Disjoint, Collapsed;
    var prefixes := SortTexts(Candidates(sel, source));
    SortTextsSorts(Candidates(sel, source));
    CollapseIsSound(prefixes, |prefixes|, sel.excludePrefixes);
    assert prefixes[..|prefixes|] == prefixes;
    AllCollapsed(sel, source, Scopes(sel, source));
  }

  lemma NothingCollapsed(prefixes: seq<string>, excluded: seq<string>)
    ensures Collapsed([], prefixes, 0, excluded)
  {
  }

  lemma AllCollapsed(sel: Selection, source: Option<string>, scopes: seq<string>)
    requires Collapsed(scopes, SortTexts(Candidates(sel, source)),
                       |SortTexts(Candidates(sel, source))|, sel.excludePrefixes)
    ensures Disjoint(scopes)
    ensures forall s :: s in scopes ==> s in Candidates(sel, source) && !AnyPrefix(s, sel.excludePrefixes)
    ensures forall p :: p in Candidates(sel, source) ==> Covered(p, scopes, sel.excludePrefixes)
  {
    hide AnyPrefix, Candidates, Covered;
    var prefixes := SortTexts(Candidates(sel, source));
    forall p | p in Candidates(sel, source) ensures Covered(p, scopes, sel.excludePrefixes) {
      assert p in multiset(prefixes);
      var j :| 0 <= j < |prefixes| && prefixes[j] == p;
    }
    forall s | s in scopes ensures s in Candidates(sel, source) {
      assert s in multiset(prefixes);
    }
  }

  lemma Skip(scopes: seq<string>, prefixes: seq<string>, i: nat, excluded: seq<string>)
    requires i < |prefixes| && Collapsed(scopes, prefixes, i, excluded)
    requires (|scopes| > 0 && StartsWith(prefixes[i], scopes[|scopes| - 1])) || AnyPrefix(prefixes[i], excluded)
    ensures Collapsed(scopes, prefixes, i + 1, excluded)
  {
    hide AnyPrefix, TextLess, StartsWith, Disjoint;
    if |scopes| > 0 && StartsWith(prefixes[i], scopes[|scopes| - 1]) { HasPrefix(prefixes[i], scopes, |scopes| - 1); }
  }

  lemma Push(scopes: seq<string>, prefixes: seq<string>, i: nat, excluded: seq<string>)
    requires i < |prefixes| && SortedTexts(prefixes) && Collapsed(scopes, prefixes, i, excluded)
    requires |scopes| > 0 ==> !StartsWith(prefixes[i], scopes[|scopes| - 1])
    requires !AnyPrefix(prefixes[i], excluded)
    ensures Collapsed(scopes + [prefixes[i]], prefixes, i + 1, excluded)
  {
    hide AnyPrefix, TextLess, StartsWith, Disjoint;
    StaysDisjoint(scopes, prefixes[i]);
    NotLessThanItself(prefixes[i]);
    var more := scopes + [prefixes[i]];
    HasPrefix(prefixes[i], more, |scopes|);
    forall j | 0 <= j < i + 1 ensures Covered(prefixes[j], more, excluded) {
      MoreScopesCover(prefixes[j], scopes, more);
    }
  }

  lemma NotLessThanItself(p: string)
    ensures !TextLess(p, p) && StartsWith(p, p)
  {
    TextTotal(p, p);
  }

  lemma HasPrefix(p: string, prefixes: seq<string>, k: nat)
    requires k < |prefixes| && StartsWith(p, prefixes[k])
    ensures AnyPrefix(p, prefixes)
  {
  }

  lemma MoreScopesCover(p: string, a: seq<string>, b: seq<string>)
    requires |a| <= |b| && b[..|a|] == a
    ensures AnyPrefix(p, a) ==> AnyPrefix(p, b)
  {
    if AnyPrefix(p, a) {
      var k :| 0 <= k < |a| && StartsWith(p, a[k]);
      assert b[k] == a[k];
    }
  }

  /** Were some earlier scope a prefix of the next one, the last scope would have it as a prefix too. */
  lemma StaysDisjoint(scopes: seq<string>, prefix: string)
    requires Disjoint(scopes)
    requires forall k :: 0 <= k < |scopes| ==> !TextLess(prefix, scopes[k])
    requires forall k :: 0 <= k < |scopes| ==> !TextLess(scopes[|scopes| - 1], scopes[k])
    requires |scopes| > 0 ==> !StartsWith(prefix, scopes[|scopes| - 1])
    ensures Disjoint(scopes + [prefix])
  {
    forall k | 0 <= k < |scopes| ensures !StartsWith(prefix, scopes[k]) && !StartsWith(scopes[k], prefix) {
      if StartsWith(prefix, scopes[k]) {
        PrefixBetween(scopes[k], scopes[|scopes| - 1], prefix);
      } else if StartsWith(scopes[k], prefix) {
        LongerIsGreater(scopes[k], prefix);
      }
    }
  }

  lemma {:induction false} LongerIsGreater(text: string, prefix: string)
    requires StartsWith(text, prefix)
    ensures text == prefix || TextLess(prefix, text)
  {
    if prefix == "" {
      if text != "" { assert TextLess(prefix, text); }
    } else {
      assert text[1..][..|prefix| - 1] == text[..|prefix|][1..] == prefix[1..];
      LongerIsGreater(text[1..], prefix[1..]);
      assert text == [text[0]] + text[1..] && prefix == [prefix[0]] + prefix[1..];
    }
  }

  // ----- what the scopes are for

  lemma {:induction false} IntersectionCovers(prefixes: seq<string>, source: Option<string>, path: string, k: nat)
    requires k < |prefixes| && StartsWith(path, prefixes[k])
    requires source.Some? ==> StartsWith(path, source.value)
    ensures exists p :: p in Intersections(prefixes, source) && StartsWith(path, p)
  {
    if k == 0 {
      if source.Some? { PrefixesAreComparable(path, prefixes[0], source.value); }
      assert Intersect(prefixes[0], source).value in Intersections(prefixes, source);
    } else {
      IntersectionCovers(prefixes[1..], source, path, k - 1);
      var p :| p in Intersections(prefixes[1..], source) && StartsWith(path, p);
      assert p in Intersections(prefixes, source);
    }
  }

  /** A path belongs to one scope at most. */
  lemma ScopeIsUnique(scopes: seq<string>, path: string, i: nat, j: nat)
    requires Disjoint(scopes) && i < |scopes| && j < |scopes|
    requires StartsWith(path, scopes[i]) && StartsWith(path, scopes[j])
    ensures i == j
  {
    PrefixesAreComparable(path, scopes[i], scopes[j]);
  }

  /** Every selected path of the source belongs to a scope. */
  lemma SelectedIsCovered(sel: Selection, source: Option<string>, path: string)
    requires Matches(sel, path) && (source.Some? ==> StartsWith(path, source.value))
    ensures exists k :: 0 <= k < |Scopes(sel, source)| && StartsWith(path, Scopes(sel, source)[k])
  {
    ScopesAreSound(sel, source);
    var scopes := Scopes(sel, source);
    var p: string;
    if sel.includePrefixes == [] {
      p := if source.Some? then source.value else "";
    } else {
      var k :| 0 <= k < |sel.includePrefixes| && StartsWith(path, sel.includePrefixes[k]);
      IntersectionCovers(sel.includePrefixes, source, path, k);
      p :| p in Intersections(sel.includePrefixes, source) && StartsWith(path, p);
    }
    assert p in Candidates(sel, source) && StartsWith(path, p);
    if AnyPrefix(p, sel.excludePrefixes) {
      var k :| 0 <= k < |sel.excludePrefixes| && StartsWith(p, sel.excludePrefixes[k]);
      StartsWithTransitive(path, p, sel.excludePrefixes[k]);
    } else {
      var k :| 0 <= k < |scopes| && StartsWith(p, scopes[k]);
      StartsWithTransitive(path, p, scopes[k]);
    }
  }

  /** Nothing is listed beyond the source's own scope and the prefixes asked for, nor below an excluded one. */
  lemma ScopesStayInSource(sel: Selection, source: Option<string>, scope: string)
    requires scope in Scopes(sel, source)
    ensures source.Some? ==> source.value <= scope
    ensures sel.includePrefixes != [] ==> exists p :: p in sel.includePrefixes && p <= scope
    ensures forall e :: e in sel.excludePrefixes ==> !(e <= scope)
  {
    ScopesAreSound(sel, source);
    forall e | e in sel.excludePrefixes ensures !(e <= scope) {
      var k :| 0 <= k < |sel.excludePrefixes| && sel.excludePrefixes[k] == e;
      assert !StartsWith(scope, sel.excludePrefixes[k]);
    }
    if sel.includePrefixes != [] { IntersectionsStay(sel.includePrefixes, source, scope); }
  }

  lemma {:induction false} IntersectionsStay(prefixes: seq<string>, source: Option<string>, scope: string)
    requires scope in Intersections(prefixes, source)
    ensures (source.Some? ==> source.value <= scope) && exists p :: p in prefixes && p <= scope
  {
    var first := Intersect(prefixes[0], source);
    if first == Some(scope) {
      assert prefixes[0] in prefixes && prefixes[0] <= scope;
    } else {
      IntersectionsStay(prefixes[1..], source, scope);
      var p :| p in prefixes[1..] && p <= scope;
      assert p in prefixes;
    }
  }
}
