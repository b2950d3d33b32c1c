/** The user-configurable filter for key/value collections: string match
    modes, single-string filters and the `KvMatcher` that combines them. */
module KvFilter {
  import opened Strings
  import opened Props

  datatype StringMatchMode = Substring | StartsWith | EndsWith | Exact

  /** `StringMatchMode::matches(haystack, needle)` */
  function Matches(mode: StringMatchMode, haystack: string, needle: string): (b: bool)
    ensures mode == Substring ==> (b <==> exists i :: OccursAt(haystack, needle, i))
    ensures mode == StartsWith ==>
              (b <==> |needle| <= |haystack| && forall i :: 0 <= i < |needle| ==> haystack[i] == needle[i])
    ensures mode == EndsWith ==>
              (b <==> |needle| <= |haystack| &&
                      forall i :: 0 <= i < |needle| ==> haystack[|haystack| - |needle| + i] == needle[i])
    ensures mode == Exact ==> (b <==> haystack == needle)
  {
    ContainsIff(haystack, needle);
    match mode
    case Substring => Contains(haystack, needle)
    case StartsWith => IsPrefix(needle, haystack)
    case EndsWith => IsSuffix(needle, haystack)
    case Exact => haystack == needle
  }

  /** An empty needle matches everything except in `Exact` mode, where it
      matches only the empty string. */
  lemma EmptyNeedle(mode: StringMatchMode, haystack: string)
    ensures Matches(mode, haystack, "") <==> mode != Exact || haystack == ""
  {
    assert OccursAt(haystack, "", 0);
  }

  /** The modes are ordered by strength: an exact match is both a prefix and
      a suffix match, and either of those is a substring match. */
  lemma ModeStrength(haystack: string, needle: string)
    ensures Matches(Exact, haystack, needle) ==> Matches(StartsWith, haystack, needle)
    ensures Matches(Exact, haystack, needle) ==> Matches(EndsWith, haystack, needle)
    ensures Matches(StartsWith, haystack, needle) ==> Matches(Substring, haystack, needle)
    ensures Matches(EndsWith, haystack, needle) ==> Matches(Substring, haystack, needle)
  {
    if Matches(StartsWith, haystack, needle) {
      assert haystack[..|needle|] == needle;
      assert OccursAt(haystack, needle, 0);
    }
    if Matches(EndsWith, haystack, needle) {
      assert haystack[|haystack| - |needle|..] == needle;
      assert OccursAt(haystack, needle, |haystack| - |needle|);
    }
  }

  datatype StringFilter = StringFilter(needle: string, mode: StringMatchMode)

  /** `StringFilter::default`: substring mode with an empty needle. */
  function DefaultFilter(): (f: StringFilter)
    ensures f.mode == Substring && |f.needle| == 0
  {
    StringFilter("", Substring)
  }

  /** `StringFilter::test` */
  function Test(f: StringFilter, value: string): (b: bool)
    ensures b ==> |f.needle| <= |value|
    ensures f.mode == Exact ==> (b <==> value == f.needle)
    ensures f.mode != Exact && |f.needle| == 0 ==> b
  {
    EmptyNeedle(f.mode, value);
    Matches(f.mode, value, f.needle)
  }

  /** A default filter accepts every string. */
  lemma DefaultAcceptsAll(value: string)
    ensures Test(DefaultFilter(), value)
  {
    EmptyNeedle(Substring, value);
  }

  /** A (key filter, value filter) pair. */
  type FilterPair = (StringFilter, StringFilter)

  /** Both halves of an entry pass their filters. */
  predicate EntryPasses(f: FilterPair, e: Entry) {
    Test(f.0, e.0) && Test(f.1, e.1)
  }

  datatype KvMatcher = KvMatcher(filters: seq<FilterPair>)

  /** `KvMatcher::new` */
  function NewMatcher(): (m: KvMatcher)
    ensures |m.filters| == 0
  {
    KvMatcher([])
  }

  /** The "Add" button: appends a pair of default filters. */
  function AddFilter(m: KvMatcher): (r: KvMatcher)
    ensures |r.filters| == |m.filters| + 1
    ensures r.filters[..|m.filters|] == m.filters
    ensures r.filters[|m.filters|] == (DefaultFilter(), DefaultFilter())
  {
    KvMatcher(m.filters + [(DefaultFilter(), DefaultFilter())])
  }

  /** Some entry of `kv` passes the filter pair `f` (`Iterator::any`). */
  function AnyEntry(f: FilterPair, kv: seq<Entry>): (b: bool)
    ensures b <==> exists j :: 0 <= j < |kv| && EntryPasses(f, kv[j])
    decreases |kv|
  {
    if |kv| == 0 then false
    else
      var rest := AnyEntry(f, kv[1..]);
      assert forall j :: 0 < j < |kv| ==> kv[1..][j - 1] == kv[j];
      EntryPasses(f, kv[0]) || rest
  }

  /** Every filter pair is satisfied by some entry (`Iterator::all`). */
  function AllFilters(filters: seq<FilterPair>, kv: seq<Entry>): (b: bool)
    ensures b <==> forall i :: 0 <= i < |filters| ==>
                     exists j :: 0 <= j < |kv| && EntryPasses(filters[i], kv[j])
    decreases |filters|
  {
    if |filters| == 0 then true
    else
      var rest := AllFilters(filters[1..], kv);
      assert forall i :: 0 < i < |filters| ==> filters[1..][i - 1] == filters[i];
      AnyEntry(filters[0], kv) && rest
  }

  /** `KvMatcher::matches`: every filter pair is met by at least one entry
      whose key and value both pass; different pairs may be met by different
      entries. */
  function MatchesKv(m: KvMatcher, kv: seq<Entry>): (b: bool)
    ensures b <==> forall i :: 0 <= i < |m.filters| ==>
                     exists j :: 0 <= j < |kv| && EntryPasses(m.filters[i], kv[j])
  {
    AllFilters(m.filters, kv)
  }

  /** With no filters everything matches; with at least one filter an empty
      collection matches nothing. */
  lemma MatcherBoundaries(m: KvMatcher, kv: seq<Entry>)
    ensures MatchesKv(NewMatcher(), kv)
    ensures |m.filters| > 0 ==> !MatchesKv(m, [])
  {
  }

  /** Adding a default filter pair only adds the demand that the collection
      is not empty. */
  lemma AddFilterMatches(m: KvMatcher, kv: seq<Entry>)
    ensures MatchesKv(AddFilter(m), kv) <==> MatchesKv(m, kv) && |kv| > 0
  {
    var r := AddFilter(m);
    if |kv| > 0 {
      DefaultAcceptsAll(kv[0].0);
      DefaultAcceptsAll(kv[0].1);
      assert EntryPasses(r.filters[|m.filters|], kv[0]);
    }
    if MatchesKv(r, kv) {
      forall i | 0 <= i < |m.filters|
        ensures exists j :: 0 <= j < |kv| && EntryPasses(m.filters[i], kv[j])
      {
        assert r.filters[i] == m.filters[i];
      }
    }
    if MatchesKv(m, kv) && |kv| > 0 {
      forall i | 0 <= i < |r.filters|
        ensures exists j :: 0 <= j < |kv| && EntryPasses(r.filters[i], kv[j])
      {
        if i < |m.filters| {
          assert r.filters[i] == m.filters[i];
        }
      }
    }
  }
}
