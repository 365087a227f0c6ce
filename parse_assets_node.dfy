/**
 * The Node.js port of the asset extractor: its mount record and shader
 * classifier, and how its helpers relate to the browser parser's and the
 * Python extractor's copies of the same derivations. Its species detection
 * and tier extraction are the same tests as the Python ones
 * (`ParseSwgAssets.DetectSpecies`, `Naming.ExtractTier`), and its display
 * names are the browser parser's (`FlyingMountParser.FormatDisplayName`).
 */
module ParseAssetsNode {
  import opened Wrappers
  import opened Text
  import opened Naming
  import FlyingMountParser
  import ParseSwgAssets
  import SwgAssetParser

  /** `parseMountIff(fileName)` without the floating-point flight statistics. */
  function ParseMountIff(fileName: string): (m: FlyingMountParser.Mount)
    ensures m.name == FlyingMountParser.MountName(fileName) && m.tier == ExtractTier(m.name)
    ensures m.availability.requiresLicense <==> m.tier >= 3
  {
    var name := RemoveFirst(RemoveFirst(fileName, "shared_", false, false), ".iff", false, false);
    var tier := ExtractTier(name);
    var baseShip := RemoveFirst(name, "_tier", true, true);
    FlyingMountParser.Mount(name, FlyingMountParser.FormatDisplayName(baseShip, tier), fileName,
      MountCategory(baseShip), tier,
      FlyingMountParser.Availability(tier >= 3, MinLevel(tier), ParseSwgAssets.FirstMatchCost(baseShip) * tier))
  }

  /** `detectShaderType`, which, unlike the browser parser's, has a `terrain` class after `water`. */
  function DetectShaderType(name: string): (r: string)
    ensures r in {"particle", "water", "terrain", "blend", "alpha", "emissive", "standard"}
    ensures r == "terrain" <==> !Contains(name, "particle") && !Contains(name, "water") && Contains(name, "terrain")
    ensures !Contains(name, "terrain") ==> r == SwgAssetParser.DetectShaderType(name)
  {
    if Contains(name, "particle") then "particle"
    else if Contains(name, "water") then "water"
    else if Contains(name, "terrain") then "terrain"
    else if Contains(name, "blend") then "blend"
    else if Contains(name, "alpha") then "alpha"
    else if Contains(name, "emis") then "emissive"
    else "standard"
  }

  /** A `terrain` name that also says `blend` is a terrain shader here and a blend shader in the browser parser. */
  lemma ShaderTypesDiverge()
    ensures DetectShaderType("terrain_blend") == "terrain"
    ensures SwgAssetParser.DetectShaderType("terrain_blend") == "blend"
  {
    assert Contains("terrain_blend", "terrain");
    TerrainBlendHasNoParticle();
    TerrainBlendHasNoWater();
    TerrainBlendHasBlend();
  }

  lemma TerrainBlendHasNoParticle()
    ensures !Contains("terrain_blend", "particle")
  {
    Absent("terrain_blend", "particle");
  }

  lemma TerrainBlendHasNoWater()
    ensures !Contains("terrain_blend", "water")
  {
    Absent("terrain_blend", "water");
  }

  lemma TerrainBlendHasBlend()
    ensures Contains("terrain_blend", "blend")
  {
    var s := "terrain_blend";
    assert WindowAt(s, "blend", 8);
    ContainsIff(s, "blend");
  }

  /** `sub` is not contained in `s` when its first character never occurs early enough in `s`. */
  lemma Absent(s: string, sub: string)
    requires |sub| > 0
    requires forall i :: 0 <= i && i + |sub| <= |s| ==> s[i] != sub[0]
    ensures !Contains(s, sub)
  {
    forall i: nat
      ensures !WindowAt(s, sub, i)
    {
      if i + |sub| <= |s| {
        assert s[i..i + |sub|][0] == s[i];
      }
    }
    ContainsIff(s, sub);
  }

  /**
   * The two JavaScript mount records agree on everything but the cost,
   * which the browser parser takes from the last matching key and this one
   * from the first.
   */
  lemma MountRecordsDifferOnlyInCost(fileName: string)
    ensures var name := FlyingMountParser.MountName(fileName);
      var base := RemoveFirst(name, "_tier", true, true);
      var a := FlyingMountParser.ExtractMountData(fileName);
      ParseMountIff(fileName) ==
        a.(availability := a.availability.(cost := ParseSwgAssets.FirstMatchCost(base) * a.tier))
  {
  }

  /** When one cost keyword at most occurs, first-match and last-match cost agree. */
  lemma CostsAgreeOnOneKeyword(shipName: string, tier: int, k: nat)
    requires k < |COST_KEYS| && Contains(shipName, COST_KEYS[k])
    requires forall j :: 0 <= j < |COST_KEYS| && j != k ==> !Contains(shipName, COST_KEYS[j])
    ensures ParseSwgAssets.FirstMatchCost(shipName) * tier == FlyingMountParser.CalculateCost(shipName, tier)
  {
    FirstIsLastWhenUnique(COST_KEYS, shipName, k);
  }

  /** A name with two cost keywords: `xwing_transport` costs 25000 per tier in the browser parser and 15000 here. */
  lemma CostsDiverge(tier: int)
    ensures FlyingMountParser.CalculateCost("xwing_transport", tier) == 25000 * tier
    ensures ParseSwgAssets.FirstMatchCost("xwing_transport") * tier == 15000 * tier
  {
    var s := "xwing_transport";
    assert StartsWith(s, "xwing");
    assert WindowAt(s, "transport", 6);
    ContainsIff(s, "transport");
    assert COST_KEYS[0] == "xwing";
  }

  /** Upper-casing the first letter and `capitalize` agree once both are lower-cased. */
  lemma UpperFirstCapitalizeIgnoringCase(w: string)
    ensures Lower(UpperFirst(w)) == Lower(Capitalize(w))
  {
    if w != [] {
      assert LowerChar(UpperChar(w[0])) == LowerChar(UpperChar(w[0]));
      LowerIdempotent(w[1..]);
      assert Lower(UpperFirst(w))[1..] == Lower(w[1..]);
      assert Lower(Capitalize(w))[1..] == Lower(Lower(w[1..]));
    }
  }

  lemma {:induction false} LowerJoinAgrees(xs: seq<string>, ys: seq<string>)
    requires |xs| == |ys|
    requires forall k :: 0 <= k < |xs| ==> Lower(xs[k]) == Lower(ys[k])
    ensures Lower(Join(xs, " ")) == Lower(Join(ys, " "))
    decreases |xs|
  {
    if |xs| > 1 {
      LowerJoinAgrees(xs[1..], ys[1..]);
      LowerAppend(xs[0] + " ", Join(xs[1..], " "));
      LowerAppend(ys[0] + " ", Join(ys[1..], " "));
      LowerAppend(xs[0], " ");
      LowerAppend(ys[0], " ");
    }
  }

  /** The JavaScript and Python display names are equal ignoring case. */
  lemma DisplayNamesAgreeIgnoringCase(baseName: string, tier: int)
    ensures Lower(FlyingMountParser.FormatDisplayName(baseName, tier)) ==
      Lower(ParseSwgAssets.FormatDisplayName(baseName, tier))
  {
    var pieces := Split(baseName, '_');
    var js := FlyingMountParser.UpperFirstAll(pieces);
    var py := ParseSwgAssets.CapitalizeAll(pieces);
    forall k | 0 <= k < |pieces|
      ensures Lower(js[k]) == Lower(py[k])
    {
      UpperFirstCapitalizeIgnoringCase(pieces[k]);
    }
    LowerJoinAgrees(js, py);
    LowerAppend(Join(js, " "), MkSuffix(tier));
    LowerAppend(Join(py, " "), MkSuffix(tier));
  }

  /** A word with a capital after its first letter keeps it in JavaScript and loses it in Python. */
  lemma DisplayNamesDiverge()
    ensures FlyingMountParser.FormatDisplayName("x_WING", 1) == "X WING"
    ensures ParseSwgAssets.FormatDisplayName("x_WING", 1) == "X Wing"
  {
    SplitXWing();
    JsXWing();
    PyXWing();
    JoinPair("X", "WING", " ");
    JoinPair("X", "Wing", " ");
  }

  lemma JoinPair(a: string, b: string, sep: string)
    ensures Join([a, b], sep) == a + sep + b
  {
    assert [a, b][1..] == [b];
  }

  lemma JsXWing()
    ensures FlyingMountParser.UpperFirstAll(["x", "WING"]) == ["X", "WING"]
  {
    assert UpperChar('x') == 'X' && UpperChar('W') == 'W';
    assert UpperFirst("x") == "X" && UpperFirst("WING") == "WING";
  }

  lemma PyXWing()
    ensures ParseSwgAssets.CapitalizeAll(["x", "WING"]) == ["X", "Wing"]
  {
    assert UpperChar('x') == 'X' && UpperChar('W') == 'W';
    assert Lower("ING") == "ing" by {
      assert LowerChar('I') == 'i' && LowerChar('N') == 'n' && LowerChar('G') == 'g';
    }
    assert Capitalize("x") == "X" && Capitalize("WING") == "Wing";
  }

  lemma SplitXWing()
    ensures Split("x_WING", '_') == ["x", "WING"]
  {
    assert "x" + ['_'] + "WING" == "x_WING";
    SplitAfterPiece("x", '_', "WING");
    SplitNoSep("WING", '_');
  }

  lemma TwoTiersFirstMatch(ci: bool)
    ensures FindMatch("a_tier1_tier2", "_tier", ci, true, 0) == Some(1)
    ensures MatchEnd("a_tier1_tier2", 1, "_tier", true) == 7
  {
    TierAtOne(ci);
    TwoTiersFirstEnd();
  }

  lemma TierAtOne(ci: bool)
    ensures !MatchAt("a_tier1_tier2", 0, "_tier", ci, true)
    ensures MatchAt("a_tier1_tier2", 1, "_tier", ci, true)
  {
    var s := "a_tier1_tier2";
    assert s[1..6] == "_tier";
    assert Lower(s[1..6]) == "_tier";
    assert !MatchAt(s, 0, "_tier", ci, true) by { assert s[0..5][0] == 'a'; assert Lower(s[0..5])[0] == 'a'; }
  }

  lemma TwoTiersFirstEnd()
    ensures MatchEnd("a_tier1_tier2", 1, "_tier", true) == 7
  {
    var s := "a_tier1_tier2";
    assert s[6..] == "1_tier2";
    assert DigitPrefix("_tier2") == "";
    assert DigitPrefix("1_tier2") == "1";
  }

  lemma OneTierRemoved()
    ensures RemoveEvery("_tier2", "_tier", false, true) == ""
  {
    var t := "_tier2";
    assert t[0..5] == "_tier";
    assert MatchAt(t, 0, "_tier", false, true);
    assert t[5..] == "2" && DigitPrefix("2") == "2";
    assert MatchEnd(t, 0, "_tier", true) == 6;
    assert t[6..] == [];
  }

  /** Python removes both case-sensitive `_tier<digits>` groups; JavaScript only the first. */
  lemma TwoTiers()
    ensures RemoveEvery("a_tier1_tier2", "_tier", false, true) == "a"
    ensures RemoveFirst("a_tier1_tier2", "_tier", true, true) == "a_tier2"
  {
    PythonRemovesBoth();
    JsRemovesFirst();
  }

  lemma PythonRemovesBoth()
    ensures RemoveEvery("a_tier1_tier2", "_tier", false, true) == "a"
  {
    var s := "a_tier1_tier2";
    TwoTiersFirstMatch(false);
    OneTierRemoved();
    assert s[7..] == "_tier2";
    RemovedAt(s, "_tier", false, true, 1, 7, "a");
  }

  lemma JsRemovesFirst()
    ensures RemoveFirst("a_tier1_tier2", "_tier", true, true) == "a_tier2"
  {
    var s := "a_tier1_tier2";
    TwoTiersFirstMatch(true);
    assert s[..1] + s[7..] == "a_tier2";
    RemovedAt(s, "_tier", true, true, 1, 7, "a_tier2");
  }

  /** A capitalised `_TIER<digits>` matches only the case-insensitive JavaScript pattern. */
  lemma UpperTierOnlyFolded()
    ensures RemoveFirst("a_TIER2", "_tier", true, true) == "a"
  {
    var u := "a_TIER2";
    assert u[1..6] == "_TIER";
    assert Lower(u[1..6]) == "_tier";
    assert !MatchAt(u, 0, "_tier", true, true) by { assert Lower(u[0..5])[0] == 'a'; }
    assert MatchAt(u, 1, "_tier", true, true);
    assert u[6..] == "2" && DigitPrefix("2") == "2";
    assert MatchEnd(u, 1, "_tier", true) == 7;
    assert u[..1] == "a" && u[7..] == [];
  }

  lemma UpperTierKept()
    ensures RemoveEvery("a_TIER2", "_tier", false, true) == "a_TIER2"
  {
    var u := "a_TIER2";
    forall q | 0 <= q <= |u|
      ensures !MatchAt(u, q, "_tier", false, true)
    {
      if q == 0 {
        assert u[0..5][0] == 'a';
      } else if q == 1 {
        assert u[1..6][1] == 'T';
      } else if q == 2 {
        assert u[2..7][0] == 'T';
      }
    }
    assert FindMatch(u, "_tier", false, true, 0).None?;
  }
}
