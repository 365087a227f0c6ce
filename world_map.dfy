/**
 * The galactic map window: its zoom bounds, the region name of the
 * player's position, the planet switch that resets the view, and the
 * waypoint list with its selection.
 */
module WorldMap {
  import opened Wrappers
  import opened Text

  const MIN_SCALE: real := 0.2
  const MAX_SCALE: real := 5.0
  const ZOOM_STEP: real := 1.5

  /** The keys of `this.planets`. */
  const PLANETS: set<string> := {"tatooine", "naboo", "corellia", "dathomir", "rori", "yavin4", "tutorial"}

  datatype Waypoint = Waypoint(name: string, x: real, z: real, planet: string)

  /** The two waypoints `loadMapData` puts on every planet. */
  function SampleWaypoints(planet: string): (ws: seq<Waypoint>)
    ensures |ws| == 2 && forall k :: 0 <= k < 2 ==> ws[k].planet == planet
  {
    [Waypoint("Mining Site Alpha", 1200.0, -800.0, planet), Waypoint("Quest Location", -600.0, 400.0, planet)]
  }

  function Abs(v: real): real
  {
    if v < 0.0 then -v else v
  }

  /** `getCurrentRegion()`: the first test that holds names the region. */
  function GetCurrentRegion(x: real, z: real): (region: string)
    ensures region == "Central Plains" <==> Abs(x) < 1000.0 && Abs(z) < 1000.0
    ensures region == "Eastern Territories" <==> !(Abs(x) < 1000.0 && Abs(z) < 1000.0) && x > 2000.0
    ensures region == "Wilderness" <==>
      (-2000.0 <= x <= 2000.0 && -2000.0 <= z <= 2000.0 && !(Abs(x) < 1000.0 && Abs(z) < 1000.0))
  {
    if Abs(x) < 1000.0 && Abs(z) < 1000.0 then "Central Plains"
    else if x > 2000.0 then "Eastern Territories"
    else if x < -2000.0 then "Western Badlands"
    else if z > 2000.0 then "Northern Highlands"
    else if z < -2000.0 then "Southern Desert"
    else "Wilderness"
  }

  /** The east-west tests come first: a far north-east corner is `Eastern Territories`. */
  lemma EastBeatsNorth()
    ensures GetCurrentRegion(3000.0, 3000.0) == "Eastern Territories"
    ensures GetCurrentRegion(0.0, 3000.0) == "Northern Highlands"
  {
  }

  /** `waypoints.splice(index, 1)`: where removal starts, a negative index counting from the end. */
  function SpliceStart(index: int, length: nat): (start: nat)
    ensures start <= length
  {
    if index < 0 then (if length + index < 0 then 0 else length + index)
    else if index > length then length
    else index
  }

  /** The list with element `i` removed, when there is one. */
  function Spliced(ws: seq<Waypoint>, start: nat): (r: seq<Waypoint>)
    requires start <= |ws|
  {
    if start < |ws| then ws[..start] + ws[start + 1..] else ws
  }

  /** Removing keeps every other waypoint, in order, and drops exactly one. */
  lemma SplicedKeepsOrder(ws: seq<Waypoint>, i: nat)
    requires i < |ws|
    ensures |Spliced(ws, i)| == |ws| - 1
    ensures forall j :: 0 <= j < i ==> Spliced(ws, i)[j] == ws[j]
    ensures forall j :: i <= j < |ws| - 1 ==> Spliced(ws, i)[j] == ws[j + 1]
    ensures multiset(Spliced(ws, i)) + multiset{ws[i]} == multiset(ws)
  {
    assert ws == ws[..i] + [ws[i]] + ws[i + 1..];
  }

  /** Adding a waypoint and removing the last one gives the list back. */
  lemma AppendThenRemoveLast(ws: seq<Waypoint>, w: Waypoint)
    ensures Spliced(ws + [w], |ws|) == ws
  {
    assert (ws + [w])[..|ws|] == ws;
  }

  /** `this.mapScale`, `mapOffset`, `currentPlanet`, `waypoints`, `selectedWaypoint` and the player's x and z. */
  class GalaxyMap {
    var mapScale: real
    var offsetX: real
    var offsetY: real
    var currentPlanet: string
    var waypoints: seq<Waypoint>
    var selectedWaypoint: Option<int>
    var playerX: real
    var playerZ: real

    /** The scale stays within the zoom bounds. */
    predicate Valid()
      reads this
    {
      MIN_SCALE <= mapScale <= MAX_SCALE
    }

    /** A scale of 1, no offset nor selection, and the planet's sample waypoints (`loadMapData`). */
    constructor (playerX: real, playerZ: real, currentPlanet: string)
      ensures Valid() && mapScale == 1.0 && offsetX == 0.0 && offsetY == 0.0
      ensures this.currentPlanet == currentPlanet && waypoints == SampleWaypoints(currentPlanet)
      ensures selectedWaypoint == None && this.playerX == playerX && this.playerZ == playerZ
    {
      mapScale := 1.0;
      offsetX := 0.0;
      offsetY := 0.0;
      this.currentPlanet := currentPlanet;
      waypoints := SampleWaypoints(currentPlanet);
      selectedWaypoint := None;
      this.playerX := playerX;
      this.playerZ := playerZ;
    }

    /** `zoomIn()`: times 1.5, capped at the maximum; nothing at the maximum. */
    method ZoomIn()
      requires Valid()
      modifies this
      ensures Valid() && old(mapScale) <= mapScale
      ensures mapScale == if old(mapScale) < MAX_SCALE then
        (if old(mapScale) * ZOOM_STEP < MAX_SCALE then old(mapScale) * ZOOM_STEP else MAX_SCALE) else old(mapScale)
      ensures waypoints == old(waypoints) && selectedWaypoint == old(selectedWaypoint) && currentPlanet == old(currentPlanet)
      ensures offsetX == old(offsetX) && offsetY == old(offsetY)
    {
      if mapScale < MAX_SCALE {
        mapScale := if mapScale * ZOOM_STEP < MAX_SCALE then mapScale * ZOOM_STEP else MAX_SCALE;
      }
    }

    /** `zoomOut()`: divided by 1.5, floored at the minimum; nothing at the minimum. */
    method ZoomOut()
      requires Valid()
      modifies this
      ensures Valid() && mapScale <= old(mapScale)
      ensures mapScale == if old(mapScale) > MIN_SCALE then
        (if old(mapScale) / ZOOM_STEP > MIN_SCALE then old(mapScale) / ZOOM_STEP else MIN_SCALE) else old(mapScale)
      ensures waypoints == old(waypoints) && selectedWaypoint == old(selectedWaypoint) && currentPlanet == old(currentPlanet)
      ensures offsetX == old(offsetX) && offsetY == old(offsetY)
    {
      if mapScale > MIN_SCALE {
        mapScale := if mapScale / ZOOM_STEP > MIN_SCALE then mapScale / ZOOM_STEP else MIN_SCALE;
      }
    }

    /** `centerOnPlayer()`. */
    method CenterOnPlayer()
      modifies this
      ensures offsetX == 0.0 && offsetY == 0.0 && mapScale == old(mapScale)
      ensures waypoints == old(waypoints) && selectedWaypoint == old(selectedWaypoint) && currentPlanet == old(currentPlanet)
    {
      offsetX := 0.0;
      offsetY := 0.0;
    }

    /**
     * `switchPlanet(name)`: the planet changes first; for a name the table
     * lacks, reading its title raises and nothing more happens. Otherwise
     * the view is reset and the waypoints replaced by the samples.
     */
    method SwitchPlanet(planetName: string) returns (raised: bool)
      requires Valid()
      modifies this
      ensures Valid() && currentPlanet == planetName && selectedWaypoint == old(selectedWaypoint)
      ensures raised <==> planetName !in PLANETS
      ensures raised ==> mapScale == old(mapScale) && offsetX == old(offsetX) && offsetY == old(offsetY) && waypoints == old(waypoints)
      ensures !raised ==> mapScale == 1.0 && offsetX == 0.0 && offsetY == 0.0 && waypoints == SampleWaypoints(planetName)
    {
      currentPlanet := planetName;
      if planetName !in PLANETS {
        return true;
      }
      offsetX := 0.0;
      offsetY := 0.0;
      mapScale := 1.0;
      waypoints := SampleWaypoints(currentPlanet);
      raised := false;
    }

    /**
     * `selectWaypoint(index)`: records the index, whatever it is, then reads
     * `waypoint.name`, which raises when the index names no waypoint.
     */
    method SelectWaypoint(index: int) returns (raised: bool)
      modifies this
      ensures selectedWaypoint == Some(index) && waypoints == old(waypoints) && mapScale == old(mapScale)
      ensures currentPlanet == old(currentPlanet)
      ensures raised <==> !(0 <= index < |waypoints|)
    {
      selectedWaypoint := Some(index);
      raised := !(0 <= index < |waypoints|);
    }

    /** `addWaypoint()`: a blank trimmed name adds nothing; otherwise one waypoint at the player on the current planet. */
    method AddWaypoint(input: string)
      modifies this
      ensures Trim(input) == [] ==> waypoints == old(waypoints)
      ensures Trim(input) != [] ==> waypoints == old(waypoints) + [Waypoint(Trim(input), playerX, playerZ, currentPlanet)]
      ensures selectedWaypoint == old(selectedWaypoint) && mapScale == old(mapScale) && currentPlanet == old(currentPlanet)
      ensures playerX == old(playerX) && playerZ == old(playerZ)
    {
      var name := Trim(input);
      if name == [] {
        return;
      }
      waypoints := waypoints + [Waypoint(name, playerX, playerZ, currentPlanet)];
    }

    /**
     * `removeWaypoint(index)`: the splice, which leaves the selection as it
     * was; logging the removed name raises when `index` names no element.
     */
    method RemoveWaypoint(index: int) returns (raised: bool)
      modifies this
      ensures waypoints == Spliced(old(waypoints), SpliceStart(index, |old(waypoints)|))
      ensures raised <==> !(0 <= index < |old(waypoints)|)
      ensures selectedWaypoint == old(selectedWaypoint) && mapScale == old(mapScale) && currentPlanet == old(currentPlanet)
    {
      raised := !(0 <= index < |waypoints|);
      var start := SpliceStart(index, |waypoints|);
      if start < |waypoints| {
        waypoints := waypoints[..start] + waypoints[start + 1..];
      }
    }

    /** `travelToWaypoint()`: the selected waypoint when the selection names one, and nothing otherwise. */
    method TravelToWaypoint() returns (target: Option<Waypoint>)
      ensures target.Some? <==> selectedWaypoint.Some? && 0 <= selectedWaypoint.value < |waypoints|
      ensures target.Some? ==> target.value == waypoints[selectedWaypoint.value]
    {
      if selectedWaypoint.Some? && 0 <= selectedWaypoint.value < |waypoints| {
        return Some(waypoints[selectedWaypoint.value]);
      }
      return None;
    }
  }

  /**
   * The selection is an index that removal does not adjust: after the first
   * sample is removed, index 0 names what was the second waypoint and index 1
   * names none.
   */
  lemma RemoveShiftsSelection()
    ensures var ws := SampleWaypoints("naboo");
      Spliced(ws, 0)[0] == ws[1] && |Spliced(ws, 0)| == 1
  {
  }
}
