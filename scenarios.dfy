/** Concrete inputs and what the page shows for them. */
module Scenarios {
  import opened Wrappers
  import opened Text
  import opened Sequences
  import opened SpecialistModel
  import opened Ranking
  import opened Discovery

  /** A row with the given descriptive fields and coordinates and nothing optional filled in. */
  function Row(id: string, name: string, specialty: string, city: string, lat: real, lon: real): Specialist
  {
    Specialist(id, name, specialty, city, "", "", None, lat, lon, None, None, None, None, None)
  }

  /** Selecting Mumbai among a Delhi, a Mumbai and a Jaipur specialist shows the Mumbai one alone. */
  lemma CityScenario(dist: DistanceFn)
    ensures Discover([Row("1", "A", "Dentist", "Delhi", 0.0, 0.0),
                      Row("2", "B", "Dentist", "Mumbai", 0.0, 0.0),
                      Row("3", "C", "Dentist", "Jaipur", 0.0, 0.0)],
                     Criteria("Mumbai", All, "", None), dist)
         == [Row("2", "B", "Dentist", "Mumbai", 0.0, 0.0)]
  {
  }

  /** An occurrence of "rao" is an "r" followed by an "a". */
  lemma RaoAt(h: string, i: int)
    ensures OccursAt(h, "rao", i) ==> h[i] == 'r' && h[i + 1] == 'a'
  {
  }

  /** "rao" occurs nowhere in `h` when no "r" in it is followed by an "a". */
  lemma NoRao(h: string)
    requires forall i :: 0 <= i < |h| - 1 && h[i] == 'r' ==> h[i + 1] != 'a'
    ensures forall i :: !OccursAt(h, "rao", i)
  {
    forall i ensures !OccursAt(h, "rao", i) {
      RaoAt(h, i);
    }
  }

  /** Of two elements, a filter that passes the first only keeps the first. */
  lemma KeepFirstOfTwo<T(!new)>(x: T, y: T, p: T -> bool)
    requires p(x) && !p(y)
    ensures Filter([x, y], p) == [x]
  {
    assert [x, y][1..] == [y] && [y][1..] == [];
    assert Filter([y], p) == [] + Filter([], p);
  }

  const Alice := Row("1", "Dr. Alice Rao", "Cardiologist", "Delhi", 0.0, 0.0)
  const Bob := Row("2", "Dr. Bob Singh", "Dermatologist", "Delhi", 0.0, 0.0)

  /** "rao" is part of "Dr. Alice Rao" once folded. */
  lemma AliceMatchesRao()
    ensures TextOk(Alice, "rao")
  {
    assert ToLower("rao") == "rao";
    assert ToLower(Alice.name) == "dr. alice rao";
    assert OccursAt(ToLower(Alice.name), "rao", 10);
    TextOkMeaning(Alice, "rao");
  }

  /** "rao" is part of neither "Dr. Bob Singh" nor "Dermatologist" once folded. */
  lemma BobMissesRao()
    ensures !TextOk(Bob, "rao")
  {
    assert ToLower("rao") == "rao";
    assert ToLower(Bob.name) == "dr. bob singh";
    assert ToLower(Bob.specialty) == "dermatologist";
    NoRao("dr. bob singh");
    NoRao("dermatologist");
    TextOkMeaning(Bob, "rao");
  }

  /** The query "rao" finds "Dr. Alice Rao" by name and not "Dr. Bob Singh". */
  lemma SearchScenario(dist: DistanceFn)
    ensures Discover([Alice, Bob], Criteria(All, All, "rao", None), dist) == [Alice]
  {
    AliceMatchesRao();
    BobMissesRao();
    KeepFirstOfTwo(Alice, Bob, Admits(Criteria(All, All, "rao", None)));
  }

  const Far := Row("2", "B", "Dentist", "Delhi", 0.0, 1.0)
  const Near := Row("1", "A", "Dentist", "Delhi", 0.0, 0.0)
  const AtOrigin := Criteria(All, All, "", Some(Location(0.0, 0.0)))

  /** The far row listed first: the near row is moved in front of it. */
  lemma FarListedFirst(dist: DistanceFn)
    requires dist(0.0, 0.0, 0.0, 0.0) < dist(0.0, 0.0, 0.0, 1.0)
    ensures Discover([Far, Near], AtOrigin, dist)
         == [Near.(distance := Some(dist(0.0, 0.0, 0.0, 0.0))), Far.(distance := Some(dist(0.0, 0.0, 0.0, 1.0)))]
  {
    var rows := [Far, Near];
    FilterAllPass(rows, Admits(AtOrigin));
    var annotated := Annotate(rows, Location(0.0, 0.0), dist);
    assert annotated == [Far.(distance := Some(dist(0.0, 0.0, 0.0, 1.0))),
                         Near.(distance := Some(dist(0.0, 0.0, 0.0, 0.0)))];
    assert annotated[..1][..0] == [];
    assert SortByDistance(annotated[..1]) == [annotated[0]];
    assert Insert([annotated[0]], annotated[1]) == [annotated[1], annotated[0]];
  }

  /** The near row listed first: the order is kept. */
  lemma NearListedFirst(dist: DistanceFn)
    requires dist(0.0, 0.0, 0.0, 0.0) < dist(0.0, 0.0, 0.0, 1.0)
    ensures Discover([Near, Far], AtOrigin, dist)
         == [Near.(distance := Some(dist(0.0, 0.0, 0.0, 0.0))), Far.(distance := Some(dist(0.0, 0.0, 0.0, 1.0)))]
  {
    var rows := [Near, Far];
    FilterAllPass(rows, Admits(AtOrigin));
    var annotated := Annotate(rows, Location(0.0, 0.0), dist);
    assert annotated == [Near.(distance := Some(dist(0.0, 0.0, 0.0, 0.0))),
                         Far.(distance := Some(dist(0.0, 0.0, 0.0, 1.0)))];
    assert annotated[..1][..0] == [];
    assert SortByDistance(annotated[..1]) == [annotated[0]];
  }

  /**
   * With the user at (0, 0), a specialist at (0, 1) is shown after one at
   * (0, 0), in either order of the list, when the first is farther away
   * (the haversine gives 0 and about 111.19 km).
   */
  lemma DistanceScenario(dist: DistanceFn)
    requires dist(0.0, 0.0, 0.0, 0.0) < dist(0.0, 0.0, 0.0, 1.0)
    ensures Discover([Far, Near], AtOrigin, dist)
         == [Near.(distance := Some(dist(0.0, 0.0, 0.0, 0.0))), Far.(distance := Some(dist(0.0, 0.0, 0.0, 1.0)))]
    ensures Discover([Near, Far], AtOrigin, dist)
         == [Near.(distance := Some(dist(0.0, 0.0, 0.0, 0.0))), Far.(distance := Some(dist(0.0, 0.0, 0.0, 1.0)))]
  {
    FarListedFirst(dist);
    NearListedFirst(dist);
  }
}
