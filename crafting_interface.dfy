/**
 * The crafting window: the difficulty band of a schematic level, the
 * schematic list filter, the per-profession schematic lookup, and the
 * session state with its experiment-point budget.
 */
module CraftingInterface {
  import opened Wrappers
  import opened Text

  const MAX_EXPERIMENT_POINTS := 10

  /** `levelToDifficulty(level)`. */
  function LevelToDifficulty(level: int): (d: string)
    ensures d in {"novice", "apprentice", "journeyman", "expert", "master"}
    ensures d == "novice" <==> level <= 1
    ensures d == "master" <==> level > 4
  {
    if level <= 1 then "novice"
    else if level <= 2 then "apprentice"
    else if level <= 3 then "journeyman"
    else if level <= 4 then "expert"
    else "master"
  }

  /** The bands in increasing order. */
  function DifficultyRank(d: string): nat
  {
    if d == "novice" then 0
    else if d == "apprentice" then 1
    else if d == "journeyman" then 2
    else if d == "expert" then 3
    else 4
  }

  /** A higher level is never an easier band. */
  lemma DifficultyMonotone(low: int, high: int)
    requires low <= high
    ensures DifficultyRank(LevelToDifficulty(low)) <= DifficultyRank(LevelToDifficulty(high))
  {
  }

  /** Every level from 5 upwards is `master`, so distinct levels share a band. */
  lemma HighLevelsShareMaster(level: int)
    requires level >= 5
    ensures LevelToDifficulty(level) == LevelToDifficulty(5)
  {
  }

  /** `filterSchematics`: the lower-cased name contains the lower-cased search term and the difficulty is `all` or the level's band. */
  predicate SchematicShown(name: string, level: int, search: string, difficulty: string)
    ensures SchematicShown(name, level, search, difficulty) ==> |search| <= |name|
    ensures search == "" ==> (SchematicShown(name, level, search, difficulty) <==>
      difficulty == "all" || LevelToDifficulty(level) == difficulty)
  {
    ContainsIff(Lower(name), Lower(search));
    ContainsTrivial(Lower(name));
    Contains(Lower(name), Lower(search)) && (difficulty == "all" || LevelToDifficulty(level) == difficulty)
  }

  /** `all` shows exactly what the schematic's own band shows. */
  lemma AllIsOwnBand(name: string, level: int, search: string)
    ensures SchematicShown(name, level, search, "all") <==> SchematicShown(name, level, search, LevelToDifficulty(level))
  {
  }

  /** A band other than the schematic's own hides it. */
  lemma OtherBandHides(name: string, level: int, search: string, difficulty: string)
    requires difficulty != "all" && difficulty != LevelToDifficulty(level)
    ensures !SchematicShown(name, level, search, difficulty)
  {
  }

  /** An empty search with `all` shows every schematic. */
  lemma EmptySearchShowsAll(name: string, level: int)
    ensures SchematicShown(name, level, "", "all")
  {
    ContainsTrivial(Lower(name));
  }

  /** `schematicsData[profession] || []`; the table is data and a parameter here. */
  function GetSchematicsForProfession<S>(table: map<string, seq<S>>, profession: string): (r: seq<S>)
    ensures profession !in table ==> r == []
    ensures profession in table ==> r == table[profession]
  {
    if profession in table then table[profession] else []
  }

  /** `currentSchematic` and `experimentPoints`; the schematic is whatever the list passes in. */
  class Session<S> {
    var currentSchematic: Option<S>
    var experimentPoints: int

    /** The points stay within the budget. */
    predicate Valid()
      reads this
    {
      0 <= experimentPoints <= MAX_EXPERIMENT_POINTS
    }

    constructor ()
      ensures Valid() && currentSchematic == None && experimentPoints == 0
    {
      currentSchematic := None;
      experimentPoints := 0;
    }

    /** `selectSchematic(s)`. */
    method SelectSchematic(s: S)
      requires Valid()
      modifies this
      ensures Valid() && currentSchematic == Some(s) && experimentPoints == old(experimentPoints)
    {
      currentSchematic := Some(s);
    }

    /** `showExperimentationPhase()`: a full budget. */
    method ShowExperimentationPhase()
      modifies this
      ensures Valid() && experimentPoints == MAX_EXPERIMENT_POINTS && currentSchematic == old(currentSchematic)
    {
      experimentPoints := MAX_EXPERIMENT_POINTS;
    }

    /** `runExperiment()`: spends one point; with none left it changes nothing. */
    method RunExperiment() returns (ran: bool)
      requires Valid()
      modifies this
      ensures Valid() && currentSchematic == old(currentSchematic)
      ensures ran <==> old(experimentPoints) > 0
      ensures experimentPoints == if ran then old(experimentPoints) - 1 else old(experimentPoints)
    {
      if experimentPoints <= 0 {
        return false;
      }
      experimentPoints := experimentPoints - 1;
      ran := true;
    }

    /** `resetSession()`, which `finishCrafting()` also ends with. */
    method ResetSession()
      modifies this
      ensures Valid() && currentSchematic == None && experimentPoints == 0
    {
      currentSchematic := None;
      experimentPoints := 0;
    }
  }
}
