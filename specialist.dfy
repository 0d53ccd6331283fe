/**
 * The specialist record as the store returns it, the criteria of one
 * discovery query, and the per-record rules of filterSpecialists: the three
 * filter predicates and the attachment of a distance.
 */
module SpecialistModel {
  import opened Wrappers
  import opened Text

  /**
   * One row of the specialists table. TypeScript `number` fields are reals;
   * `T | null` fields and the optional `distance` are Options.
   */
  datatype Specialist = Specialist(
    id: string,
    name: string,
    specialty: string,
    city: string,
    address: string,
    phone: string,
    email: Option<string>,
    latitude: real,
    longitude: real,
    experienceYears: Option<real>,
    consultationFee: Option<real>,
    availableDays: Option<seq<string>>,
    rating: Option<real>,
    distance: Option<real>)

  /** The user's position, `{ lat, lng }`. */
  datatype Location = Location(lat: real, lng: real)

  /**
   * The great-circle distance `calculateDistance(lat1, lon1, lat2, lon2)`.
   * Its haversine arithmetic is not modelled: callers pass it in.
   */
  type DistanceFn = (real, real, real, real) -> real

  /** The state filterSpecialists reads: selected city and specialty, search text, position. */
  datatype Criteria = Criteria(
    selectedCity: string,
    selectedSpecialty: string,
    searchQuery: string,
    userLocation: Option<Location>)

  /** The sentinel value of the city and specialty selectors that means "no constraint". */
  const All: string := "all"

  /** The predicate of the city filter. */
  predicate InCity(s: Specialist, city: string)
  {
    s.city == city
  }

  /** The predicate of the specialty filter. */
  predicate HasSpecialty(s: Specialist, specialty: string)
  {
    s.specialty == specialty
  }

  /** The predicate of the search filter: the folded query is part of the folded name or specialty. */
  predicate MentionsQuery(s: Specialist, query: string)
  {
    Includes(ToLower(s.name), ToLower(query)) || Includes(ToLower(s.specialty), ToLower(query))
  }

  /** The city rule with its guard: "all" admits every city. */
  predicate CityOk(s: Specialist, city: string)
  {
    city == All || InCity(s, city)
  }

  /** The specialty rule with its guard: "all" admits every specialty. */
  predicate SpecialtyOk(s: Specialist, specialty: string)
  {
    specialty == All || HasSpecialty(s, specialty)
  }

  /** The search rule with its guard: the empty query admits every record. */
  predicate TextOk(s: Specialist, query: string)
  {
    query == "" || MentionsQuery(s, query)
  }

  /** A record is shown exactly when every active rule admits it. */
  predicate Matches(s: Specialist, c: Criteria)
  {
    CityOk(s, c.selectedCity) && SpecialtyOk(s, c.selectedSpecialty) && TextOk(s, c.searchQuery)
  }

  /** `{ ...s, distance: calculateDistance(loc.lat, loc.lng, s.latitude, s.longitude) }`. */
  function WithDistance(s: Specialist, loc: Location, dist: DistanceFn): Specialist
  {
    s.(distance := Some(dist(loc.lat, loc.lng, s.latitude, s.longitude)))
  }

  /** `filtered.map(s => WithDistance(s))`. */
  function Annotate(s: seq<Specialist>, loc: Location, dist: DistanceFn): seq<Specialist>
  {
    seq(|s|, i requires 0 <= i < |s| => WithDistance(s[i], loc, dist))
  }

  /**
   * The search rule is a case-insensitive substring test: the folded query
   * occurs somewhere in the folded name or in the folded specialty.
   */
  lemma TextOkMeaning(s: Specialist, query: string)
    ensures TextOk(s, query) <==>
      query == ""
      || (exists i :: OccursAt(ToLower(s.name), ToLower(query), i))
      || (exists i :: OccursAt(ToLower(s.specialty), ToLower(query), i))
  {
    IncludesIffOccurs(ToLower(s.name), ToLower(query));
    IncludesIffOccurs(ToLower(s.specialty), ToLower(query));
  }

  /** Attaching a distance changes no field a filter rule reads. */
  lemma MatchesIgnoresDistance(s: Specialist, loc: Location, dist: DistanceFn, c: Criteria)
    ensures Matches(WithDistance(s, loc, dist), c) == Matches(s, c)
  {
  }

  /** Attaching the distance twice gives the same record as attaching it once. */
  lemma WithDistanceIdempotent(s: Specialist, loc: Location, dist: DistanceFn)
    ensures WithDistance(WithDistance(s, loc, dist), loc, dist) == WithDistance(s, loc, dist)
  {
  }

  /**
   * The annotated record differs from the original in `distance` only, and
   * that field is the distance from the user to the record's coordinates.
   */
  lemma WithDistanceFields(s: Specialist, loc: Location, dist: DistanceFn)
    ensures WithDistance(s, loc, dist).(distance := s.distance) == s
    ensures WithDistance(s, loc, dist).distance == Some(dist(loc.lat, loc.lng, s.latitude, s.longitude))
  {
  }
}
