/**
 * Queries over the creature spawn table: a planet's spawns, the spawns
 * within a horizontal radius of a position, and the total creature count.
 * The table itself is data and is a parameter here, as the list of
 * (planet key, spawns) entries of `NPC_SPAWNS` in declaration order, whose
 * keys are distinct as an object literal's are (`DistinctKeys`).
 */
module NpcSpawns {
  import opened Wrappers
  import opened Text

  /** A spawn entry; a `count` the entry does not give is 0. */
  datatype Spawn = Spawn(name: string, x: real, y: real, z: real, count: int)

  datatype Position = Position(x: real, y: real, z: real)

  type Table = seq<(string, seq<Spawn>)>

  /** The keys of an object literal are distinct, as those of `NPC_SPAWNS` are. */
  predicate DistinctKeys(table: Table)
  {
    forall i, j :: 0 <= i < j < |table| ==> table[i].0 != table[j].0
  }

  /** `NPC_SPAWNS[key]`: with distinct keys, the spawns of the one entry with that key. */
  function Lookup(table: Table, key: string): (r: Option<seq<Spawn>>)
    ensures r.None? <==> forall k :: 0 <= k < |table| ==> table[k].0 != key
    ensures r.Some? ==> exists k :: 0 <= k < |table| && table[k].0 == key && table[k].1 == r.value
    ensures DistinctKeys(table) ==> forall k :: 0 <= k < |table| && table[k].0 == key ==> r == Some(table[k].1)
  {
    if table == [] then None
    else if table[0].0 == key then Some(table[0].1)
    else
      var r := Lookup(table[1..], key);
      assert DistinctKeys(table) ==> DistinctKeys(table[1..]);
      assert forall k :: 1 <= k < |table| ==> table[1..][k - 1] == table[k];
      assert r.Some? ==> exists k :: 1 <= k < |table| && table[k].0 == key && table[k].1 == r.value by {
        if r.Some? {
          var k :| 0 <= k < |table[1..]| && table[1..][k].0 == key && table[1..][k].1 == r.value;
          assert table[k + 1] == table[1..][k];
        }
      }
      r
  }

  /** `getPlanetSpawns(name)`: the spawns under the lower-cased name, none for an unknown planet. */
  function GetPlanetSpawns(table: Table, planetName: string): (r: seq<Spawn>)
    ensures Lookup(table, Lower(planetName)).None? ==> r == []
    ensures r != [] ==> exists k :: 0 <= k < |table| && table[k].0 == Lower(planetName) && table[k].1 == r
  {
    match Lookup(table, Lower(planetName))
    case None => []
    case Some(spawns) => spawns
  }

  /** The planet name is matched ignoring case. */
  lemma PlanetNameIgnoresCase(table: Table, planetName: string)
    ensures GetPlanetSpawns(table, Lower(planetName)) == GetPlanetSpawns(table, planetName)
  {
    LowerIdempotent(planetName);
  }

  /** The horizontal distance `sqrt(dx² + dz²)` is at most `radius`, compared on squares. */
  predicate Within(position: Position, spawn: Spawn, radius: real)
  {
    var dx := position.x - spawn.x;
    var dz := position.z - spawn.z;
    radius >= 0.0 && dx * dx + dz * dz <= radius * radius
  }

  /** `creatures.filter(spawn => distance <= radius)`. */
  function NearFilter(spawns: seq<Spawn>, position: Position, radius: real): (r: seq<Spawn>)
    ensures |r| <= |spawns|
    ensures forall s :: s in r <==> s in spawns && Within(position, s, radius)
  {
    if spawns == [] then []
    else (if Within(position, spawns[0], radius) then [spawns[0]] else []) + NearFilter(spawns[1..], position, radius)
  }

  /** The filter keeps order: filtering a concatenation concatenates the filtered parts. */
  lemma {:induction false} NearFilterAppend(a: seq<Spawn>, b: seq<Spawn>, position: Position, radius: real)
    ensures NearFilter(a + b, position, radius) == NearFilter(a, position, radius) + NearFilter(b, position, radius)
  {
    if a != [] {
      assert (a + b)[0] == a[0] && (a + b)[1..] == a[1..] + b;
      NearFilterAppend(a[1..], b, position, radius);
      var head := if Within(position, a[0], radius) then [a[0]] else [];
      calc {
        NearFilter(a + b, position, radius);
        head + NearFilter(a[1..] + b, position, radius);
        head + (NearFilter(a[1..], position, radius) + NearFilter(b, position, radius));
        (head + NearFilter(a[1..], position, radius)) + NearFilter(b, position, radius);
      }
    } else {
      assert a + b == b;
    }
  }

  /** The vertical coordinate plays no part. */
  lemma NearFilterIgnoresHeight(spawns: seq<Spawn>, position: Position, y: real, radius: real)
    ensures NearFilter(spawns, position.(y := y), radius) == NearFilter(spawns, position, radius)
  {
  }

  /** `getSpawnsNearPosition(planet, position, radius = 1000)`. */
  function GetSpawnsNearPosition(table: Table, planetName: string, position: Position, radius: Option<real>): (r: seq<Spawn>)
    ensures forall s :: s in r ==> s in GetPlanetSpawns(table, planetName)
  {
    var rad := match radius case None => 1000.0 case Some(v) => v;
    NearFilter(GetPlanetSpawns(table, planetName), position, rad)
  }

  /** `spawn.count || 1`. */
  function SpawnCount(s: Spawn): int
  {
    if s.count != 0 then s.count else 1
  }

  /** With no count given anywhere, every spawn is one creature. */
  function SpawnTotal(spawns: seq<Spawn>): (total: int)
    ensures (forall k :: 0 <= k < |spawns| ==> spawns[k].count == 0) ==> total == |spawns|
  {
    if spawns == [] then 0 else SpawnCount(spawns[0]) + SpawnTotal(spawns[1..])
  }

  /** `getTotalCreatureCount()`: the counts of every spawn of every planet, a missing or 0 count taken as 1. */
  function TotalCreatureCount(table: Table): (total: int)
    ensures (forall k, j :: 0 <= k < |table| && 0 <= j < |table[k].1| ==> table[k].1[j].count == 0) ==>
      total == EntryCount(table)
  {
    if table == [] then 0 else SpawnTotal(table[0].1) + TotalCreatureCount(table[1..])
  }

  function EntryCount(table: Table): nat
  {
    if table == [] then 0 else |table[0].1| + EntryCount(table[1..])
  }

  lemma {:induction false} SpawnTotalAtLeastLength(spawns: seq<Spawn>)
    requires forall k :: 0 <= k < |spawns| ==> spawns[k].count >= 0
    ensures SpawnTotal(spawns) >= |spawns|
  {
    if spawns != [] {
      SpawnTotalAtLeastLength(spawns[1..]);
    }
  }

  /** With no negative counts, every spawn adds at least one creature. */
  lemma {:induction false} TotalAtLeastEntries(table: Table)
    requires forall k, j :: 0 <= k < |table| && 0 <= j < |table[k].1| ==> table[k].1[j].count >= 0
    ensures TotalCreatureCount(table) >= EntryCount(table)
  {
    if table != [] {
      SpawnTotalAtLeastLength(table[0].1);
      assert forall k, j :: 0 <= k < |table[1..]| && 0 <= j < |table[1..][k].1| ==> table[1..][k].1[j].count >= 0 by {
        forall k, j | 0 <= k < |table[1..]| && 0 <= j < |table[1..][k].1|
          ensures table[1..][k].1[j].count >= 0
        {
          assert table[1..][k] == table[k + 1];
        }
      }
      TotalAtLeastEntries(table[1..]);
    }
  }

  /** A negative count is truthy and is added as it is, so the bound needs the counts to be non-negative. */
  lemma NegativeCountLowersTotal()
    ensures TotalCreatureCount([("tatooine", [Spawn("a", 0.0, 0.0, 0.0, -3)])]) == -3
  {
  }
}
