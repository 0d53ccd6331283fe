/**
 * filterSpecialists: the list the page shows for the current criteria.
 * Kept and Discover are the reference: one filter by the conjunction of the
 * three rules, then (with a position) annotation and the stable distance sort.
 * FilterSpecialists is the routine itself: three successive filters over a
 * copy of the list, the annotation, and the in-place sort of an array.
 */
module Discovery {
  import opened Wrappers
  import opened Sequences
  import opened SpecialistModel
  import opened Ranking

  // The callbacks below wrap the rule predicates as named functions, so that
  // every use of a callback is the same term and the filter lemmas apply to it.

  /** `s => s.city === selectedCity`. */
  function CityFilter(city: string): Specialist -> bool
  {
    s => InCity(s, city)
  }

  /** `s => s.specialty === selectedSpecialty`. */
  function SpecialtyFilter(specialty: string): Specialist -> bool
  {
    s => HasSpecialty(s, specialty)
  }

  /** The search predicate over name and specialty. */
  function SearchFilter(query: string): Specialist -> bool
  {
    s => MentionsQuery(s, query)
  }

  /** The rules of the first `stage` filters of `c`, each with its guard. */
  function RulesUpTo(c: Criteria, stage: nat): Specialist -> bool
  {
    s => (stage >= 1 ==> CityOk(s, c.selectedCity))
      && (stage >= 2 ==> SpecialtyOk(s, c.selectedSpecialty))
      && (stage >= 3 ==> TextOk(s, c.searchQuery))
  }

  /** The conjunction of every rule of `c`. */
  function Admits(c: Criteria): Specialist -> bool
  {
    s => Matches(s, c)
  }

  /** The records `c` admits, in list order. */
  function Kept(specialists: seq<Specialist>, c: Criteria): seq<Specialist>
  {
    Filter(specialists, Admits(c))
  }

  /** Without a position the order is left alone; with one, records are annotated and sorted by distance. */
  function Rank(kept: seq<Specialist>, loc: Option<Location>, dist: DistanceFn): seq<Specialist>
  {
    match loc
    case None => kept
    case Some(l) => SortByDistance(Annotate(kept, l, dist))
  }

  /** Filtering then ranking: the list shown for `c`. */
  function Discover(specialists: seq<Specialist>, c: Criteria, dist: DistanceFn): seq<Specialist>
  {
    Rank(Kept(specialists, c), c.userLocation, dist)
  }

  /**
   * One guarded filter stage: running filter `p` when its guard is `active`
   * carries the first `stage - 1` rules over to the first `stage`.
   */
  lemma NextStage(all: seq<Specialist>, c: Criteria, stage: nat, before: seq<Specialist>,
                  after: seq<Specialist>, active: bool, p: Specialist -> bool)
    requires 1 <= stage
    requires before == Filter(all, RulesUpTo(c, stage - 1))
    requires after == if active then Filter(before, p) else before
    requires forall s :: RulesUpTo(c, stage)(s) == (RulesUpTo(c, stage - 1)(s) && (!active || p(s)))
    ensures after == Filter(all, RulesUpTo(c, stage))
  {
    if active {
      FilterThenFilter(all, RulesUpTo(c, stage - 1), p, RulesUpTo(c, stage));
    } else {
      FilterAgree(all, RulesUpTo(c, stage - 1), RulesUpTo(c, stage));
    }
  }

  /** The list shown for `specialists` and the criteria; `specialists` itself is not written. */
  method FilterSpecialists(
    specialists: array<Specialist>,
    selectedCity: string,
    selectedSpecialty: string,
    searchQuery: string,
    userLocation: Option<Location>,
    dist: DistanceFn)
    returns (filtered: seq<Specialist>)
    ensures filtered == Discover(specialists[..],
      Criteria(selectedCity, selectedSpecialty, searchQuery, userLocation), dist)
  {
    ghost var c := Criteria(selectedCity, selectedSpecialty, searchQuery, userLocation);
    ghost var all := specialists[..];
    filtered := specialists[..];
    FilterAllPass(all, RulesUpTo(c, 0));

    ghost var before := filtered;
    if selectedCity != All {
      filtered := Filter(filtered, CityFilter(selectedCity));
    }
    NextStage(all, c, 1, before, filtered, selectedCity != All, CityFilter(selectedCity));

    before := filtered;
    if selectedSpecialty != All {
      filtered := Filter(filtered, SpecialtyFilter(selectedSpecialty));
    }
    NextStage(all, c, 2, before, filtered, selectedSpecialty != All, SpecialtyFilter(selectedSpecialty));

    before := filtered;
    if searchQuery != "" {
      filtered := Filter(filtered, SearchFilter(searchQuery));
    }
    NextStage(all, c, 3, before, filtered, searchQuery != "", SearchFilter(searchQuery));
    FilterAgree(all, RulesUpTo(c, 3), Admits(c));

    if userLocation.Some? {
      filtered := Annotate(filtered, userLocation.value, dist);
      var ranked := new Specialist[|filtered|](i requires 0 <= i < |filtered| => filtered[i]);
      assert ranked[..] == filtered;
      SortInPlace(ranked);
      filtered := ranked[..];
    }
  }

  // Properties of the reference

  /** Filtering only drops records: what is kept is a subsequence of the list, in list order. */
  lemma KeptIsSubsequence(specialists: seq<Specialist>, c: Criteria)
    ensures IsSubsequence(Kept(specialists, c), specialists)
    ensures multiset(Kept(specialists, c)) <= multiset(specialists)
  {
    FilterIsSubsequence(specialists, Admits(c));
    FilterMultiset(specialists, Admits(c));
  }

  /** A record is kept exactly when every active rule admits it. */
  lemma KeptMembers(specialists: seq<Specialist>, c: Criteria, s: Specialist)
    ensures s in Kept(specialists, c) <==>
      s in specialists
      && (c.selectedCity == All || s.city == c.selectedCity)
      && (c.selectedSpecialty == All || s.specialty == c.selectedSpecialty)
      && TextOk(s, c.searchQuery)
  {
    FilterMembers(specialists, Admits(c), s);
  }

  /** Without a position, the shown list is the kept subsequence of the list. */
  lemma ShownWithoutLocation(specialists: seq<Specialist>, c: Criteria, dist: DistanceFn)
    requires c.userLocation == None
    ensures IsSubsequence(Discover(specialists, c, dist), specialists)
    ensures forall s :: s in Discover(specialists, c, dist) <==> s in specialists && Matches(s, c)
  {
    KeptIsSubsequence(specialists, c);
    forall s ensures s in Discover(specialists, c, dist) <==> s in specialists && Matches(s, c) {
      KeptMembers(specialists, c, s);
    }
  }

  /** "all", "all", no search text and no position show the whole list in its order. */
  lemma NoCriteriaShowsAll(specialists: seq<Specialist>, dist: DistanceFn)
    ensures Discover(specialists, Criteria(All, All, "", None), dist) == specialists
  {
    FilterAllPass(specialists, Admits(Criteria(All, All, "", None)));
  }

  /** An empty list shows an empty list, whatever the criteria. */
  lemma EmptyShowsNothing(c: Criteria, dist: DistanceFn)
    ensures Discover([], c, dist) == []
  {
  }

  /** With a position, the shown records are the kept ones, each with its distance attached. */
  lemma ShownWithLocation(specialists: seq<Specialist>, c: Criteria, dist: DistanceFn, r: Specialist)
    requires c.userLocation.Some?
    ensures r in Discover(specialists, c, dist) <==>
      exists s :: s in specialists && Matches(s, c) && r == WithDistance(s, c.userLocation.value, dist)
  {
    var kept := Kept(specialists, c);
    var annotated := Annotate(kept, c.userLocation.value, dist);
    SortPermutes(annotated);
    assert r in Discover(specialists, c, dist) <==> r in annotated by {
      assert r in Discover(specialists, c, dist) <==> r in multiset(Discover(specialists, c, dist));
      assert r in annotated <==> r in multiset(annotated);
    }
    if r in annotated {
      var i :| 0 <= i < |annotated| && annotated[i] == r;
      KeptMembers(specialists, c, kept[i]);
    }
    if exists s :: s in specialists && Matches(s, c) && r == WithDistance(s, c.userLocation.value, dist) {
      var s :| s in specialists && Matches(s, c) && r == WithDistance(s, c.userLocation.value, dist);
      KeptMembers(specialists, c, s);
      var i :| 0 <= i < |kept| && kept[i] == s;
      assert annotated[i] == r;
    }
  }

  /**
   * With a position, the shown list holds exactly the annotated kept records,
   * ordered by non-decreasing distance, and records with equal distance keep
   * the order of the list.
   */
  lemma RankedByDistance(specialists: seq<Specialist>, c: Criteria, dist: DistanceFn)
    requires c.userLocation.Some?
    ensures multiset(Discover(specialists, c, dist))
         == multiset(Annotate(Kept(specialists, c), c.userLocation.value, dist))
    ensures SortedByDistance(Discover(specialists, c, dist))
    ensures forall i :: 0 <= i < |Discover(specialists, c, dist)| - 1 ==>
      DistanceKey(Discover(specialists, c, dist)[i]) <= DistanceKey(Discover(specialists, c, dist)[i + 1])
    ensures SameTieOrder(Annotate(Kept(specialists, c), c.userLocation.value, dist), Discover(specialists, c, dist))
  {
    var annotated := Annotate(Kept(specialists, c), c.userLocation.value, dist);
    SortPermutes(annotated);
    SortSorts(annotated);
    SortIsStable(annotated);
  }

  /** Showing the shown list again with the same criteria changes nothing. */
  lemma DiscoverIdempotent(specialists: seq<Specialist>, c: Criteria, dist: DistanceFn)
    ensures Discover(Discover(specialists, c, dist), c, dist) == Discover(specialists, c, dist)
  {
    var shown := Discover(specialists, c, dist);
    match c.userLocation
    case None =>
      FilterIdempotent(specialists, Admits(c));
    case Some(loc) =>
      var annotated := Annotate(Kept(specialists, c), loc, dist);
      forall r | r in shown ensures Matches(r, c) && WithDistance(r, loc, dist) == r {
        ShownWithLocation(specialists, c, dist, r);
        var s :| s in specialists && Matches(s, c) && r == WithDistance(s, loc, dist);
        MatchesIgnoresDistance(s, loc, dist, c);
        WithDistanceIdempotent(s, loc, dist);
      }
      FilterAllPass(shown, Admits(c));
      assert Annotate(shown, loc, dist) == shown by {
        forall i | 0 <= i < |shown| ensures Annotate(shown, loc, dist)[i] == shown[i] {
          assert shown[i] in shown;
        }
      }
      SortSorts(annotated);
      SortKeepsSorted(shown);
  }
}
