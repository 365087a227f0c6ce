/**
 * The flying-mount parser of the web client: ship files become mount
 * records (name, tier, base ship, category, display name, availability),
 * kept in a name-keyed registry that can be filtered by category and tier.
 */
module FlyingMountParser {
  import opened Wrappers
  import opened Text
  import opened Naming

  datatype Availability = Availability(requiresLicense: bool, minLevel: int, cost: int)

  /** A mount record, without the floating-point flight statistics. */
  datatype Mount = Mount(
    name: string, displayName: string, fileName: string, category: string, tier: nat,
    availability: Availability)

  /** The cost an ordered table gives when the last key that occurs wins, and `DEFAULT_COST` when none does. */
  function LastMatchCost(shipName: string): (c: int)
    ensures c in {15000, 12000, 18000, 10000, 25000, DEFAULT_COST}
  {
    match LastContained(COST_KEYS, shipName)
    case Some(k) => COSTS[k]
    case None => DEFAULT_COST
  }

  /** The last-match cost, key by key from the end of the table. */
  lemma LastMatchCostCases(shipName: string)
    ensures LastMatchCost(shipName) ==
      if Contains(shipName, "transport") then 25000
      else if Contains(shipName, "ywing") then 10000
      else if Contains(shipName, "awing") then 18000
      else if Contains(shipName, "tiefighter") then 12000
      else if Contains(shipName, "xwing") then 15000
      else 5000
  {
    assert COST_KEYS[0] == "xwing" && COST_KEYS[1] == "tiefighter" && COST_KEYS[2] == "awing";
    assert COST_KEYS[3] == "ywing" && COST_KEYS[4] == "transport";
    match LastContained(COST_KEYS, shipName)
    case Some(k) =>
      assert k == 0 || k == 1 || k == 2 || k == 3 || k == 4;
    case None =>
      assert !Contains(shipName, COST_KEYS[0]) && !Contains(shipName, COST_KEYS[1]) && !Contains(shipName, COST_KEYS[2]);
      assert !Contains(shipName, COST_KEYS[3]) && !Contains(shipName, COST_KEYS[4]);
  }

  /** `calculateCost`: five `if`s in table order, each overriding the previous, then times the tier. */
  function CalculateCost(shipName: string, tier: int): (c: int)
    ensures c == LastMatchCost(shipName) * tier
  {
    var base :=
      if Contains(shipName, "transport") then 25000
      else if Contains(shipName, "ywing") then 10000
      else if Contains(shipName, "awing") then 18000
      else if Contains(shipName, "tiefighter") then 12000
      else if Contains(shipName, "xwing") then 15000
      else 5000;
    LastMatchCostCases(shipName);
    base * tier
  }

  /** `formatDisplayName`: the `_` words with their first letter upper-cased, spaced, then ` Mk.<tier>` above tier 1. */
  function FormatDisplayName(baseName: string, tier: int): (r: string)
    ensures |r| == |baseName| + |MkSuffix(tier)|
    ensures r[|baseName|..] == MkSuffix(tier)
  {
    JoinSplit(baseName, '_');
    JoinLength(UpperFirstAll(Split(baseName, '_')), Split(baseName, '_'), " ", "_");
    Join(UpperFirstAll(Split(baseName, '_')), " ") + MkSuffix(tier)
  }

  function UpperFirstAll(words: seq<string>): (r: seq<string>)
    ensures |r| == |words|
    ensures forall k :: 0 <= k < |words| ==> r[k] == UpperFirst(words[k])
  {
    if words == [] then [] else [UpperFirst(words[0])] + UpperFirstAll(words[1..])
  }

  /**
   * Without spaces in the base name, the words of the display name are the
   * `_` pieces of the base, each with its first letter upper-cased and the
   * rest kept.
   */
  lemma DisplayNameWords(baseName: string, tier: int)
    requires ' ' !in baseName
    ensures var pieces := Split(baseName, '_');
      FormatDisplayName(baseName, tier) == Join(UpperFirstAll(pieces), " ") + MkSuffix(tier) &&
      Split(Join(UpperFirstAll(pieces), " "), ' ') == UpperFirstAll(pieces) &&
      forall k :: 0 <= k < |pieces| ==> |UpperFirstAll(pieces)[k]| == |pieces[k]|
  {
    var pieces := Split(baseName, '_');
    var words := UpperFirstAll(pieces);
    forall k | 0 <= k < |words|
      ensures ' ' !in words[k]
    {
      PieceHasNoSpace(baseName, k);
      assert words[k] == UpperFirst(pieces[k]);
      forall i | 0 <= i < |words[k]|
        ensures words[k][i] != ' '
      {
        assert pieces[k][i] in pieces[k];
        if i > 0 {
          assert words[k][i] == words[k][1..][i - 1] == pieces[k][1..][i - 1] == pieces[k][i];
        }
      }
    }
    SplitJoin(words, ' ');
  }

  /** Each piece of a split is made of characters of the string. */
  lemma {:induction false} SplitPiecesFrom(s: string, sep: char, k: nat, c: char)
    requires k < |Split(s, sep)| && c in Split(s, sep)[k]
    ensures c in s
    decreases |s|
  {
    if s == [] {
    } else {
      var rest := Split(s[1..], sep);
      if s[0] == sep {
        assert Split(s, sep) == [""] + rest;
        assert k > 0;
        SplitPiecesFrom(s[1..], sep, k - 1, c);
      } else {
        assert Split(s, sep) == [[s[0]] + rest[0]] + rest[1..];
        if k == 0 {
          if c != s[0] {
            assert c in rest[0];
            SplitPiecesFrom(s[1..], sep, 0, c);
          }
        } else {
          assert Split(s, sep)[k] == rest[k];
          SplitPiecesFrom(s[1..], sep, k, c);
        }
      }
    }
  }

  lemma PieceHasNoSpace(baseName: string, k: nat)
    requires ' ' !in baseName && k < |Split(baseName, '_')|
    ensures ' ' !in Split(baseName, '_')[k]
  {
    if ' ' in Split(baseName, '_')[k] {
      SplitPiecesFrom(baseName, '_', k, ' ');
    }
  }

  /** `fileName.replace('shared_', '').replace('.iff', '')`: the first occurrence of each goes. */
  function MountName(fileName: string): string
  {
    RemoveFirst(RemoveFirst(fileName, "shared_", false, false), ".iff", false, false)
  }

  /** `extractMountData` without the floating-point flight statistics. */
  function ExtractMountData(fileName: string): (m: Mount)
    ensures m.name == MountName(fileName) && m.fileName == fileName
    ensures m.tier == ExtractTier(m.name)
    ensures m.availability.requiresLicense <==> m.tier >= 3
    ensures m.category in {"fighter", "speeder", "transport", "custom"}
  {
    var name := MountName(fileName);
    var tier := ExtractTier(name);
    var baseShip := RemoveFirst(name, "_tier", true, true);
    Mount(name, FormatDisplayName(baseShip, tier), fileName, MountCategory(baseShip), tier,
      Availability(tier >= 3, MinLevel(tier), CalculateCost(baseShip, tier)))
  }

  /** `Map.set` on a name-keyed map kept as its values in insertion order: an existing key keeps its place. */
  function SetMount(mounts: seq<Mount>, m: Mount): (r: seq<Mount>)
    ensures |r| == |mounts| || r == mounts + [m]
    ensures m in r
    ensures forall x :: x in r ==> x == m || x in mounts
  {
    if mounts == [] then [m]
    else if mounts[0].name == m.name then [m] + mounts[1..]
    else [mounts[0]] + SetMount(mounts[1..], m)
  }

  /** No two stored mounts share a name. */
  predicate UniqueNames(mounts: seq<Mount>)
  {
    forall i, j :: 0 <= i < j < |mounts| ==> mounts[i].name != mounts[j].name
  }

  /** `Map.get`. */
  function Lookup(mounts: seq<Mount>, name: string): (r: Option<Mount>)
    ensures r.Some? ==> r.value in mounts && r.value.name == name
    ensures r.None? ==> forall k :: 0 <= k < |mounts| ==> mounts[k].name != name
  {
    if mounts == [] then None
    else if mounts[0].name == name then Some(mounts[0])
    else Lookup(mounts[1..], name)
  }

  /** After `set`, the key maps to the new mount and every other key keeps its mount. */
  lemma {:induction false} SetMountLookup(mounts: seq<Mount>, m: Mount, name: string)
    ensures Lookup(SetMount(mounts, m), name) == if name == m.name then Some(m) else Lookup(mounts, name)
  {
    if mounts != [] && mounts[0].name != m.name {
      SetMountLookup(mounts[1..], m, name);
    }
  }

  /** `set` keeps the keys unique. */
  lemma {:induction false} SetMountUnique(mounts: seq<Mount>, m: Mount)
    requires UniqueNames(mounts)
    ensures UniqueNames(SetMount(mounts, m))
  {
    if mounts != [] {
      var r := SetMount(mounts, m);
      if mounts[0].name == m.name {
        assert forall k :: 0 <= k < |r| ==> r[k].name == mounts[k].name;
      } else {
        var tail := mounts[1..];
        SetMountUnique(tail, m);
        var rt := SetMount(tail, m);
        assert r == [mounts[0]] + rt;
        forall k | 0 <= k < |rt|
          ensures rt[k].name != mounts[0].name
        {
          assert rt[k] in rt;
          if rt[k] != m {
            var j :| 0 <= j < |tail| && tail[j] == rt[k];
            assert mounts[j + 1] == tail[j];
          }
        }
        forall i, j | 0 <= i < j < |r|
          ensures r[i].name != r[j].name
        {
          assert r[j] == rt[j - 1];
          if i > 0 {
            assert r[i] == rt[i - 1];
          }
        }
      }
    }
  }

  /** `Array.from(this.mounts.values()).filter(keep)`: the stored mounts that pass, in map order. */
  function Where(mounts: seq<Mount>, keep: Mount -> bool): (r: seq<Mount>)
    ensures |r| <= |mounts|
    ensures forall k :: 0 <= k < |r| ==> keep(r[k]) && r[k] in mounts
    ensures forall k :: 0 <= k < |mounts| && keep(mounts[k]) ==> mounts[k] in r
  {
    if mounts == [] then []
    else if keep(mounts[0]) then [mounts[0]] + Where(mounts[1..], keep)
    else Where(mounts[1..], keep)
  }

  /** Every mount record has one of the four categories. */
  predicate Categorised(mounts: seq<Mount>)
  {
    forall m :: m in mounts ==> m.category in {"fighter", "speeder", "transport", "custom"}
  }

  /** The four category lists partition the registry. */
  lemma {:induction false} CategoriesPartition(mounts: seq<Mount>)
    requires Categorised(mounts)
    ensures |Where(mounts, (m: Mount) => m.category == "fighter")| + |Where(mounts, (m: Mount) => m.category == "speeder")| +
      |Where(mounts, (m: Mount) => m.category == "transport")| + |Where(mounts, (m: Mount) => m.category == "custom")| == |mounts|
  {
    if mounts != [] {
      assert mounts[0] in mounts;
      CategoriesPartition(mounts[1..]);
    }
  }

  /** The registry of `FlyingMountParser`: the `mounts` map, as its values in insertion order. */
  class MountRegistry {
    var mounts: seq<Mount>

    predicate Valid()
      reads this
    {
      UniqueNames(mounts) && Categorised(mounts)
    }

    constructor ()
      ensures mounts == [] && Valid()
    {
      mounts := [];
    }

    /**
     * `parseMounts(files)`: each file that can be read becomes a mount, which
     * is returned and stored under its name; a file that cannot be read is
     * skipped.
     */
    method ParseMounts(fileNames: seq<string>, readable: string -> bool) returns (parsed: seq<Mount>)
      requires Valid()
      modifies this
      ensures Valid()
      ensures parsed == ParsedMounts(fileNames, readable)
      ensures mounts == StoreAll(old(mounts), parsed)
    {
      var stored := mounts;
      ghost var start := mounts;
      parsed := [];
      var i := 0;
      while i < |fileNames|
        invariant i <= |fileNames|
        invariant UniqueNames(stored) && Categorised(stored)
        invariant parsed == ParsedMounts(fileNames[..i], readable)
        invariant stored == StoreAll(start, parsed)
      {
        ParsedMountsSnoc(fileNames[..i], fileNames[i], readable);
        assert fileNames[..i + 1] == fileNames[..i] + [fileNames[i]];
        parsed, stored := ParseOne(fileNames[i], readable, start, parsed, stored);
        i := i + 1;
      }
      assert fileNames[..i] == fileNames;
      mounts := stored;
    }

    /** One file of `parseMounts`: a readable file becomes a mount that is returned and stored. */
    static method ParseOne(fileName: string, readable: string -> bool, ghost start: seq<Mount>,
                           parsed: seq<Mount>, stored: seq<Mount>) returns (parsed': seq<Mount>, stored': seq<Mount>)
      requires UniqueNames(stored) && Categorised(stored) && stored == StoreAll(start, parsed)
      ensures parsed' == parsed + (if readable(fileName) then [ExtractMountData(fileName)] else [])
      ensures stored' == StoreAll(start, parsed') && UniqueNames(stored') && Categorised(stored')
    {
      parsed', stored' := parsed, stored;
      if readable(fileName) {
        var mount := ExtractMountData(fileName);
        StoreAllSnoc(start, parsed, mount);
        SetMountValid(stored, mount);
        parsed' := parsed + [mount];
        stored' := SetMount(stored, mount);
      }
    }

    /** `getMountsByCategory(category)`: exactly the stored mounts of that category. */
    function GetMountsByCategory(category: string): (r: seq<Mount>)
      reads this
      ensures forall k :: 0 <= k < |r| ==> r[k].category == category && r[k] in mounts
      ensures forall k :: 0 <= k < |mounts| && mounts[k].category == category ==> mounts[k] in r
    {
      Where(mounts, (m: Mount) => m.category == category)
    }

    /** `getMountsByTier(tier)`: exactly the stored mounts of that tier. */
    function GetMountsByTier(tier: int): (r: seq<Mount>)
      reads this
      ensures forall k :: 0 <= k < |r| ==> r[k].tier == tier && r[k] in mounts
      ensures forall k :: 0 <= k < |mounts| && mounts[k].tier == tier ==> mounts[k] in r
    {
      Where(mounts, (m: Mount) => m.tier == tier)
    }
  }

  /** Storing a categorised mount keeps the registry's names unique and its mounts categorised. */
  lemma SetMountValid(mounts: seq<Mount>, m: Mount)
    requires UniqueNames(mounts) && Categorised(mounts)
    requires m.category in {"fighter", "speeder", "transport", "custom"}
    ensures UniqueNames(SetMount(mounts, m)) && Categorised(SetMount(mounts, m))
  {
    SetMountUnique(mounts, m);
  }

  /** The mounts `parseMounts` returns, in file order. */
  function ParsedMounts(fileNames: seq<string>, readable: string -> bool): seq<Mount>
  {
    if fileNames == [] then []
    else
      var last := fileNames[|fileNames| - 1];
      ParsedMounts(fileNames[..|fileNames| - 1], readable) + (if readable(last) then [ExtractMountData(last)] else [])
  }

  lemma ParsedMountsSnoc(fileNames: seq<string>, f: string, readable: string -> bool)
    ensures ParsedMounts(fileNames + [f], readable) ==
      ParsedMounts(fileNames, readable) + (if readable(f) then [ExtractMountData(f)] else [])
  {
    assert (fileNames + [f])[..|fileNames|] == fileNames;
  }

  /** The registry after storing `ms` in order. */
  function StoreAll(mounts: seq<Mount>, ms: seq<Mount>): seq<Mount>
  {
    if ms == [] then mounts else SetMount(StoreAll(mounts, ms[..|ms| - 1]), ms[|ms| - 1])
  }

  lemma StoreAllSnoc(mounts: seq<Mount>, ms: seq<Mount>, m: Mount)
    ensures StoreAll(mounts, ms + [m]) == SetMount(StoreAll(mounts, ms), m)
  {
    assert (ms + [m])[..|ms|] == ms;
  }
}
