/**
 * Queries over the points-of-interest table: a planet's record, the city or
 * point of interest nearest a position, and whether a position is under the
 * planet's water level. The table is data and is a parameter here, keyed by
 * the lower-case planet name. Distances are horizontal (x and z) and are
 * compared and reported as their squares, which orders them as the
 * square roots do.
 */
module PoiDatabase {
  import opened Wrappers
  import opened Text

  /** A city (its `position`) or a point of interest, reduced to what the queries read. */
  datatype Place = Place(name: string, x: real, z: real)

  /** A planet record: `waterLevel` may be absent, and a planet without `pois` has none. */
  datatype Planet = Planet(waterLevel: Option<real>, cities: seq<Place>, pois: seq<Place>)

  datatype Position = Position(x: real, y: real, z: real)

  datatype Category = City | Poi

  datatype Candidate = Candidate(place: Place, category: Category)

  /** The copy `findNearestPOI` returns, with its distance (squared) and category. */
  datatype Nearest = Nearest(place: Place, category: Category, distanceSq: real)

  const DEFAULT_MAX_DISTANCE: real := 1000.0

  /** `getPlanetPOIs(name)`: the record under the lower-cased name, null for an unknown planet. */
  function GetPlanetPois(db: map<string, Planet>, planetName: string): (r: Option<Planet>)
    ensures r.Some? <==> Lower(planetName) in db
    ensures r.Some? ==> r.value == db[Lower(planetName)]
  {
    if Lower(planetName) in db then Some(db[Lower(planetName)]) else None
  }

  /** The planet name is matched ignoring case. */
  lemma PlanetNameIgnoresCase(db: map<string, Planet>, planetName: string)
    ensures GetPlanetPois(db, Lower(planetName)) == GetPlanetPois(db, planetName)
  {
    LowerIdempotent(planetName);
  }

  function DistSq(position: Position, p: Place): (d: real)
    ensures d >= 0.0
  {
    (position.x - p.x) * (position.x - p.x) + (position.z - p.z) * (position.z - p.z)
  }

  /** A distance is below `maxDistance`: no distance is when `maxDistance` is not positive. */
  predicate InRange(d: real, maxDistance: real)
  {
    maxDistance > 0.0 && d < maxDistance * maxDistance
  }

  /** `dist < nearestDist`, where `nearestDist` is `maxDistance` until a first candidate is taken. */
  predicate Closer(d: real, nearest: Option<Nearest>, maxDistance: real)
  {
    match nearest
    case None => InRange(d, maxDistance)
    case Some(n) => d < n.distanceSq
  }

  /** The order of the scan: every city, then every point of interest. */
  function Candidates(planet: Planet): (c: seq<Candidate>)
    ensures |c| == |planet.cities| + |planet.pois|
  {
    seq(|planet.cities|, k requires 0 <= k < |planet.cities| => Candidate(planet.cities[k], City)) +
    seq(|planet.pois|, k requires 0 <= k < |planet.pois| => Candidate(planet.pois[k], Poi))
  }

  function Taken(c: Candidate, position: Position): Nearest
  {
    Nearest(c.place, c.category, DistSq(position, c.place))
  }

  /** The nearest candidate so far after scanning `c` in order, replacing only on a strictly smaller distance. */
  function Scan(c: seq<Candidate>, position: Position, maxDistance: real): Option<Nearest>
  {
    if c == [] then None
    else
      var prev := Scan(c[..|c| - 1], position, maxDistance);
      var last := c[|c| - 1];
      if Closer(DistSq(position, last.place), prev, maxDistance) then Some(Taken(last, position)) else prev
  }

  /** `findNearestPOI(planet, position, maxDistance = 1000)` as a specification. */
  function NearestPoi(db: map<string, Planet>, planetName: string, position: Position, maxDistance: Option<real>): Option<Nearest>
  {
    match GetPlanetPois(db, planetName)
    case None => None
    case Some(planet) =>
      Scan(Candidates(planet), position, match maxDistance case None => DEFAULT_MAX_DISTANCE case Some(m) => m)
  }

  /** Scanning one candidate more. */
  lemma ScanExtend(c: seq<Candidate>, n: nat, position: Position, maxDistance: real)
    requires n < |c|
    ensures Scan(c[..n + 1], position, maxDistance) ==
      if Closer(DistSq(position, c[n].place), Scan(c[..n], position, maxDistance), maxDistance)
      then Some(Taken(c[n], position)) else Scan(c[..n], position, maxDistance)
  {
    assert c[..n + 1][..n] == c[..n];
  }

  /** One step of the scan, from the nearest so far and the next candidate's distance. */
  lemma ScanStep(c: seq<Candidate>, n: nat, position: Position, maxDistance: real, prev: Option<Nearest>, d: real)
    requires n < |c| && prev == Scan(c[..n], position, maxDistance) && d == DistSq(position, c[n].place)
    ensures Scan(c[..n + 1], position, maxDistance) ==
      if Closer(d, prev, maxDistance) then Some(Nearest(c[n].place, c[n].category, d)) else prev
  {
    ScanExtend(c, n, position, maxDistance);
  }

  lemma CandidateAt(planet: Planet, k: nat)
    requires k < |planet.cities| + |planet.pois|
    ensures Candidates(planet)[k] ==
      if k < |planet.cities| then Candidate(planet.cities[k], City) else Candidate(planet.pois[k - |planet.cities|], Poi)
  {
  }

  /** `findNearestPOI`: the cities loop, then the points-of-interest loop. */
  method FindNearestPoi(db: map<string, Planet>, planetName: string, position: Position, maxDistance: Option<real>)
    returns (nearest: Option<Nearest>)
    ensures nearest == NearestPoi(db, planetName, position, maxDistance)
  {
    var found := GetPlanetPois(db, planetName);
    if found.None? {
      return None;
    }
    var planet := found.value;
    var maxD := match maxDistance case None => DEFAULT_MAX_DISTANCE case Some(m) => m;
    nearest := ScanCities(planet, position, maxD);
    nearest := ScanPois(planet, position, maxD, nearest);
  }

  /** The cities loop: the closest city within range, by the same rule as the scan over the candidates. */
  method ScanCities(planet: Planet, position: Position, maxD: real) returns (nearest: Option<Nearest>)
    ensures nearest == Scan(Candidates(planet)[..|planet.cities|], position, maxD)
  {
    ghost var c := Candidates(planet);
    nearest := None;
    var i := 0;
    while i < |planet.cities|
      invariant 0 <= i <= |planet.cities|
      invariant nearest == Scan(c[..i], position, maxD)
    {
      CandidateAt(planet, i);
      var d := DistSq(position, planet.cities[i]);
      ScanStep(c, i, position, maxD, nearest, d);
      if Closer(d, nearest, maxD) {
        nearest := Some(Nearest(planet.cities[i], City, d));
      }
      i := i + 1;
    }
  }

  /** The points-of-interest loop, continuing from the cities loop's result. */
  method ScanPois(planet: Planet, position: Position, maxD: real, init: Option<Nearest>) returns (nearest: Option<Nearest>)
    requires init == Scan(Candidates(planet)[..|planet.cities|], position, maxD)
    ensures nearest == Scan(Candidates(planet), position, maxD)
  {
    ghost var c := Candidates(planet);
    nearest := init;
    var j := 0;
    ghost var n := |planet.cities|;
    while j < |planet.pois|
      invariant 0 <= j <= |planet.pois| && n == |planet.cities| + j
      invariant nearest == Scan(c[..n], position, maxD)
    {
      CandidateAt(planet, n);
      var d := DistSq(position, planet.pois[j]);
      ScanStep(c, n, position, maxD, nearest, d);
      if Closer(d, nearest, maxD) {
        nearest := Some(Nearest(planet.pois[j], Poi, d));
      }
      j := j + 1;
      n := n + 1;
    }
    assert c[..|c|] == c;
  }

  /** Nothing is found exactly when no candidate is within `maxDistance`. */
  lemma {:induction false} ScanNoneIff(c: seq<Candidate>, position: Position, maxDistance: real)
    ensures Scan(c, position, maxDistance).None? <==>
      forall k :: 0 <= k < |c| ==> !InRange(DistSq(position, c[k].place), maxDistance)
  {
    if c != [] {
      var init := c[..|c| - 1];
      ScanNoneIff(init, position, maxDistance);
      ScanInRange(init, position, maxDistance);
      assert forall k :: 0 <= k < |init| ==> init[k] == c[k];
    }
  }

  /** What is found is within `maxDistance`. */
  lemma {:induction false} ScanInRange(c: seq<Candidate>, position: Position, maxDistance: real)
    ensures Scan(c, position, maxDistance).Some? ==> InRange(Scan(c, position, maxDistance).value.distanceSq, maxDistance)
  {
    if c != [] {
      var init := c[..|c| - 1];
      ScanInRange(init, position, maxDistance);
    }
  }

  /** What is found is no farther than any candidate. */
  lemma {:induction false} ScanMinimal(c: seq<Candidate>, position: Position, maxDistance: real)
    ensures Scan(c, position, maxDistance).Some? ==>
      forall k :: 0 <= k < |c| ==> Scan(c, position, maxDistance).value.distanceSq <= DistSq(position, c[k].place)
  {
    if c != [] {
      var init := c[..|c| - 1];
      ScanMinimal(init, position, maxDistance);
      ScanNoneIff(init, position, maxDistance);
      ScanInRange(init, position, maxDistance);
      assert forall k :: 0 <= k < |init| ==> init[k] == c[k];
    }
  }

  /** What is found is a candidate, the first among those as near: a city wins a tie with a point of interest. */
  lemma {:induction false} ScanFirstNearest(c: seq<Candidate>, position: Position, maxDistance: real)
    ensures Scan(c, position, maxDistance).Some? ==>
      exists k :: 0 <= k < |c| && Scan(c, position, maxDistance).value == Taken(c[k], position) &&
        forall j :: 0 <= j < k ==> DistSq(position, c[j].place) > Scan(c, position, maxDistance).value.distanceSq
  {
    if c != [] {
      var init := c[..|c| - 1];
      var r := Scan(c, position, maxDistance);
      var prev := Scan(init, position, maxDistance);
      ScanFirstNearest(init, position, maxDistance);
      assert forall k :: 0 <= k < |init| ==> init[k] == c[k];
      if r.Some? {
        if r == prev {
          var k :| 0 <= k < |init| && prev.value == Taken(init[k], position) &&
            forall j :: 0 <= j < k ==> DistSq(position, init[j].place) > prev.value.distanceSq;
          assert r.value == Taken(c[k], position);
        } else {
          var last := |c| - 1;
          assert r.value == Taken(c[last], position);
          ScanNoneIff(init, position, maxDistance);
          ScanMinimal(init, position, maxDistance);
          forall j | 0 <= j < last
            ensures DistSq(position, c[j].place) > r.value.distanceSq
          {
            if prev.Some? {
              assert prev.value.distanceSq <= DistSq(position, init[j].place);
            } else {
              assert !InRange(DistSq(position, init[j].place), maxDistance);
              assert InRange(r.value.distanceSq, maxDistance);
            }
          }
        }
      }
    }
  }

  /** An unknown planet has no nearest point of interest. */
  lemma UnknownPlanetFindsNothing(db: map<string, Planet>, planetName: string, position: Position, maxDistance: Option<real>)
    requires Lower(planetName) !in db
    ensures NearestPoi(db, planetName, position, maxDistance) == None
  {
  }

  /** `isInWater(planet, position)`: below the planet's water level; never for an unknown planet or one without a level. */
  predicate IsInWater(db: map<string, Planet>, planetName: string, position: Position)
    ensures IsInWater(db, planetName, position) ==> Lower(planetName) in db && db[Lower(planetName)].waterLevel.Some?
    ensures Lower(planetName) in db && db[Lower(planetName)].waterLevel.Some? ==>
      (IsInWater(db, planetName, position) <==> position.y < db[Lower(planetName)].waterLevel.value)
  {
    match GetPlanetPois(db, planetName)
    case None => false
    case Some(planet) => planet.waterLevel.Some? && position.y < planet.waterLevel.value
  }

  /** Being in water depends on the height alone and is closed downwards. */
  lemma InWaterDownwardClosed(db: map<string, Planet>, planetName: string, position: Position, y: real)
    requires IsInWater(db, planetName, position) && y <= position.y
    ensures IsInWater(db, planetName, position.(y := y))
    ensures forall x, z :: IsInWater(db, planetName, Position(x, position.y, z))
  {
  }
}
