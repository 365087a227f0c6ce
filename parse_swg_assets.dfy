/**
 * The Python asset extractor's name and stat helpers: species detection,
 * spawn locations per species, first-match ship cost, `capitalize`-based
 * display names, and the tier and level fields of a flying-mount record.
 */
module ParseSwgAssets {
  import opened Wrappers
  import opened Text
  import opened Naming
  import FlyingMountParser

  const SPECIES := ["human", "wookiee", "twilek", "zabrak", "ithorian", "sullustan", "trandoshan", "bothan", "rodian"]

  /** `detect_species`: the first species, in table order, named in the lower-cased name. */
  function DetectSpecies(name: string): (r: string)
    ensures r == "unknown" <==> !AnyContained(SPECIES, Lower(name))
    ensures r != "unknown" ==> r in SPECIES && Contains(Lower(name), r)
    ensures r != "unknown" ==>
      exists k :: 0 <= k < |SPECIES| && SPECIES[k] == r && forall j :: 0 <= j < k ==> !Contains(Lower(name), SPECIES[j])
  {
    var k := FirstContained(SPECIES, Lower(name));
    if k < |SPECIES| then SPECIES[k] else "unknown"
  }

  datatype SpawnPoint = SpawnPoint(planet: string, city: string, x: int, y: int, z: int)

  const HUMAN_SPAWNS := [
    SpawnPoint("tatooine", "Bestine", -1290, 12, -3590),
    SpawnPoint("naboo", "Theed", -4856, 6, 4162),
    SpawnPoint("corellia", "Coronet", -137, 28, -4723)]

  const SPAWN_MAP: map<string, seq<SpawnPoint>> := map[
    "human" := HUMAN_SPAWNS,
    "wookiee" := [SpawnPoint("kashyyyk", "Kachirho", 150, 15, 80)],
    "twilek" := [SpawnPoint("ryloth", "Kala'uun", -200, 10, 300)],
    "ithorian" := [SpawnPoint("tatooine", "Mos Eisley", 3528, 5, -4804), SpawnPoint("naboo", "Moenia", 4734, 4, -4677)],
    "sullustan" := [SpawnPoint("corellia", "Tyrena", -5045, 21, -2400)]]

  /** `get_species_spawn_locations`: `spawn_map.get(species, spawn_map['human'])`. */
  function SpawnLocations(species: string): (r: seq<SpawnPoint>)
    ensures |r| >= 1
    ensures species in SPAWN_MAP ==> r == SPAWN_MAP[species]
    ensures species !in SPAWN_MAP ==> r == HUMAN_SPAWNS
  {
    if species in SPAWN_MAP then SPAWN_MAP[species] else HUMAN_SPAWNS
  }

  /** Species the map does not list, `unknown` included, start at the human cities. */
  lemma UnmappedSpeciesSpawnAsHuman(name: string)
    requires DetectSpecies(name) in {"zabrak", "trandoshan", "bothan", "rodian", "unknown"}
    ensures SpawnLocations(DetectSpecies(name)) == HUMAN_SPAWNS
  {
  }

  /** The cost an ordered table gives when the first key that occurs wins, and `DEFAULT_COST` when none does. */
  function FirstMatchCost(shipName: string): (c: int)
    ensures c in {15000, 12000, 18000, 10000, 25000, DEFAULT_COST}
  {
    var k := FirstContained(COST_KEYS, shipName);
    if k < |COST_KEYS| then COSTS[k] else DEFAULT_COST
  }

  /** `calculate_cost`: the loop over the table stops at the first key in the name; the base times the tier. */
  method CalculateCost(shipName: string, tier: int) returns (cost: int)
    ensures cost == FirstMatchCost(shipName) * tier
  {
    var baseCost := DEFAULT_COST;
    var k := 0;
    while k < |COST_KEYS|
      invariant k <= |COST_KEYS|
      invariant forall j :: 0 <= j < k ==> !Contains(shipName, COST_KEYS[j])
      invariant baseCost == DEFAULT_COST
    {
      if Contains(shipName, COST_KEYS[k]) {
        baseCost := COSTS[k];
        break;
      }
      k := k + 1;
    }
    cost := baseCost * tier;
  }

  function CapitalizeAll(words: seq<string>): (r: seq<string>)
    ensures |r| == |words|
    ensures forall k :: 0 <= k < |words| ==> r[k] == Capitalize(words[k])
  {
    if words == [] then [] else [Capitalize(words[0])] + CapitalizeAll(words[1..])
  }

  /** `format_display_name`: `' '.join(word.capitalize() for word in base_name.split('_'))`, then ` Mk.<tier>` above tier 1. */
  function FormatDisplayName(baseName: string, tier: int): (r: string)
    ensures |r| == |baseName| + |MkSuffix(tier)|
    ensures r[|baseName|..] == MkSuffix(tier)
  {
    JoinSplit(baseName, '_');
    JoinLength(CapitalizeAll(Split(baseName, '_')), Split(baseName, '_'), " ", "_");
    Join(CapitalizeAll(Split(baseName, '_')), " ") + MkSuffix(tier)
  }

  /** `file_path.stem` of a `shared_*.iff` file: the name without its `.iff` suffix. */
  function Stem(fileName: string): string
  {
    if |fileName| >= 4 && fileName[|fileName| - 4..] == ".iff" then fileName[..|fileName| - 4] else fileName
  }

  /** `parse_mount_iff` without the floating-point flight statistics. */
  function ParseMountIff(fileName: string): (m: FlyingMountParser.Mount)
    ensures m.tier == ExtractTier(m.name)
    ensures m.availability.requiresLicense <==> m.tier >= 3
    ensures m.availability.minLevel >= 1
  {
    var name := RemoveEvery(Stem(fileName), "shared_", false, false);
    var tier := ExtractTier(name);
    var baseShip := RemoveEvery(name, "_tier", false, true);
    FlyingMountParser.Mount(name, FormatDisplayName(baseShip, tier), fileName, MountCategory(baseShip), tier,
      FlyingMountParser.Availability(tier >= 3, MinLevel(tier), FirstMatchCost(baseShip) * tier))
  }
}
