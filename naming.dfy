/**
 * Name derivation shared by the three mount and asset parsers: keyword
 * search over a fixed list, the `tier<digits>` and `_tier<digits>` regular
 * expressions, literal removal (`str.replace` with an empty replacement),
 * the mount category and the minimum level.
 */
module Naming {
  import opened Wrappers
  import opened Text

  // ------------------------------------------------------------ keyword lists

  /** The index of the first key that occurs in `s`, or `|keys|` when none does. */
  function FirstContained(keys: seq<string>, s: string): (r: nat)
    ensures r <= |keys|
    ensures r < |keys| ==> Contains(s, keys[r])
    ensures forall k :: 0 <= k < r ==> !Contains(s, keys[k])
  {
    if keys == [] then 0
    else if Contains(s, keys[0]) then 0
    else 1 + FirstContained(keys[1..], s)
  }

  /** The index of the last key that occurs in `s`, or `None`. */
  function LastContained(keys: seq<string>, s: string): (r: Option<nat>)
    ensures r.Some? ==> r.value < |keys| && Contains(s, keys[r.value])
    ensures r.Some? ==> forall k :: r.value < k < |keys| ==> !Contains(s, keys[k])
    ensures r.None? ==> forall k :: 0 <= k < |keys| ==> !Contains(s, keys[k])
  {
    if keys == [] then None
    else if Contains(s, keys[|keys| - 1]) then Some(|keys| - 1)
    else LastContained(keys[..|keys| - 1], s)
  }

  predicate AnyContained(keys: seq<string>, s: string)
  {
    exists k :: 0 <= k < |keys| && Contains(s, keys[k])
  }

  /** When at most one key occurs, the first and the last occurring key are the same. */
  lemma FirstIsLastWhenUnique(keys: seq<string>, s: string, k: nat)
    requires k < |keys| && Contains(s, keys[k])
    requires forall j :: 0 <= j < |keys| && j != k ==> !Contains(s, keys[j])
    ensures FirstContained(keys, s) == k && LastContained(keys, s) == Some(k)
  {
  }

  // ------------------------------------------------- case-insensitive matching

  /** The literal `lit` sits at `p`, compared after lower-casing `s` when `ci` (the `/i` flag). */
  predicate LiteralAt(s: string, p: nat, lit: string, ci: bool)
  {
    p + |lit| <= |s| && (if ci then Lower(s[p..p + |lit|]) == lit else s[p..p + |lit|] == lit)
  }

  /** The regular expression `lit\d+` (when `digits`) or the plain literal matches at `p`. */
  predicate MatchAt(s: string, p: nat, lit: string, ci: bool, digits: bool)
  {
    LiteralAt(s, p, lit, ci) && (digits ==> p + |lit| < |s| && IsDigit(s[p + |lit|]))
  }

  /** The leftmost match at or after `from`. */
  function FindMatch(s: string, lit: string, ci: bool, digits: bool, from: nat): (r: Option<nat>)
    ensures r.Some? ==> from <= r.value && MatchAt(s, r.value, lit, ci, digits)
    ensures r.Some? ==> forall q :: from <= q < r.value ==> !MatchAt(s, q, lit, ci, digits)
    ensures r.None? ==> forall q :: from <= q <= |s| ==> !MatchAt(s, q, lit, ci, digits)
    decreases |s| - from
  {
    if from > |s| then None
    else if MatchAt(s, from, lit, ci, digits) then Some(from)
    else FindMatch(s, lit, ci, digits, from + 1)
  }

  /** Where a match at `p` ends: the literal, then (for `\d+`) every digit after it. */
  function MatchEnd(s: string, p: nat, lit: string, digits: bool): (e: nat)
    requires p + |lit| <= |s|
    ensures p + |lit| <= e <= |s|
  {
    if digits then p + |lit| + |DigitPrefix(s[p + |lit|..])| else p + |lit|
  }

  /** `s.replace(pattern, '')` in JavaScript: only the leftmost match is removed. */
  function RemoveFirst(s: string, lit: string, ci: bool, digits: bool): (r: string)
    ensures |r| <= |s|
    ensures FindMatch(s, lit, ci, digits, 0).None? ==> r == s
  {
    match FindMatch(s, lit, ci, digits, 0)
    case None => s
    case Some(p) => s[..p] + s[MatchEnd(s, p, lit, digits)..]
  }

  /** `re.sub(pattern, '', s)` and `s.replace(lit, '')` in Python: every non-overlapping match, left to right. */
  function RemoveEvery(s: string, lit: string, ci: bool, digits: bool): (r: string)
    requires |lit| > 0
    ensures |r| <= |s|
    ensures FindMatch(s, lit, ci, digits, 0).None? ==> r == s
    decreases |s|
  {
    match FindMatch(s, lit, ci, digits, 0)
    case None => s
    case Some(p) => s[..p] + RemoveEvery(s[MatchEnd(s, p, lit, digits)..], lit, ci, digits)
  }

  // ---------------------------------------------------------------- tiers

  /** `name.match(/tier(\d+)/i)` / `re.search(r'tier(\d+)', name, re.IGNORECASE)`: the digits' value, or 1. */
  function ExtractTier(name: string): (t: nat)
    ensures FindMatch(name, "tier", true, true, 0).None? ==> t == 1
    ensures var m := FindMatch(name, "tier", true, true, 0);
      m.Some? ==> exists d :: d == DigitPrefix(name[m.value + 4..]) && d != [] && t == DecimalValue(d)
  {
    match FindMatch(name, "tier", true, true, 0)
    case None => 1
    case Some(p) => DecimalValue(DigitPrefix(name[p + 4..]))
  }

  /** The `_tier<n>` suffix the ship files carry. */
  function TierSuffix(n: nat): string
  {
    "_tier" + NatToString(n)
  }

  /**
   * A match in `base + suffix` that starts inside `base` is a match in `base`
   * itself, when `suffix` opens with a character that occurs in `lit` only
   * at its start and is not a digit.
   */
  lemma MatchStaysInBase(base: string, suffix: string, lit: string, ci: bool, q: nat)
    requires q < |base| && |lit| > 0 && |suffix| > 0 && !IsDigit(suffix[0])
    requires LowerChar(suffix[0]) == suffix[0]
    requires forall k :: 0 < k < |lit| ==> lit[k] != suffix[0]
    requires !MatchAt(base, q, lit, ci, true)
    ensures !MatchAt(base + suffix, q, lit, ci, true)
  {
    var s := base + suffix;
    if q + |lit| < |base| {
      assert s[q..q + |lit|] == base[q..q + |lit|];
      assert s[q + |lit|] == base[q + |lit|];
    } else if q + |lit| == |base| {
      assert s[q..q + |lit|] == base[q..q + |lit|];
      assert s[q + |lit|] == suffix[0];
    } else if q + |lit| <= |s| {
      var j := |base| - q;
      assert 0 < j < |lit|;
      assert s[q..q + |lit|][j] == suffix[0];
      assert Lower(s[q..q + |lit|])[j] == suffix[0];
    }
  }

  /** The tier of a name ending in `_tier<n>` is n when the base itself has no `tier<digits>`. */
  lemma TierOfSuffixedName(base: string, n: nat)
    requires FindMatch(base, "tier", true, true, 0).None?
    ensures ExtractTier(base + TierSuffix(n)) == n
  {
    var s := base + TierSuffix(n);
    var p := |base| + 1;
    assert s[p..p + 4] == "tier";
    assert s[p + 4..] == NatToString(n);
    assert Lower("tier") == "tier";
    assert MatchAt(s, p, "tier", true, true);
    forall q | 0 <= q < p
      ensures !MatchAt(s, q, "tier", true, true)
    {
      if q < |base| {
        MatchStaysInBase(base, TierSuffix(n), "tier", true, q);
      } else {
        assert s[q] == '_';
        assert Lower(s[q..q + 4])[0] == '_';
      }
    }
    var m := FindMatch(s, "tier", true, true, 0);
    assert m == Some(p);
    DigitPrefixOfNumber(NatToString(n));
    NatToStringRoundTrip(n);
  }

  /** The digits of a rendered number are all of it. */
  lemma {:induction false} DigitPrefixOfNumber(d: string)
    requires AllDigits(d)
    ensures DigitPrefix(d) == d
  {
    if d != [] {
      DigitPrefixOfNumber(d[1..]);
      assert [d[0]] + d[1..] == d;
    }
  }

  /** Removal at the first match `p`, whose match ends at `e`. */
  lemma RemovedAt(s: string, lit: string, ci: bool, digits: bool, p: nat, e: nat, r: string)
    requires |lit| > 0 && FindMatch(s, lit, ci, digits, 0) == Some(p)
    requires p + |lit| <= |s| && MatchEnd(s, p, lit, digits) == e
    ensures s[..p] + s[e..] == r ==> RemoveFirst(s, lit, ci, digits) == r
    ensures s[..p] + RemoveEvery(s[e..], lit, ci, digits) == r ==> RemoveEvery(s, lit, ci, digits) == r
  {
  }

  /** The base ship name: removing `_tier<digits>`, first match or every match, strips the `_tier<n>` suffix. */
  lemma RemoveTierSuffix(base: string, n: nat, ci: bool)
    requires FindMatch(base, "_tier", ci, true, 0).None?
    ensures RemoveFirst(base + TierSuffix(n), "_tier", ci, true) == base
    ensures RemoveEvery(base + TierSuffix(n), "_tier", ci, true) == base
  {
    var s := base + TierSuffix(n);
    SuffixIsFirstMatch(base, n, ci);
    assert s[..|base|] == base;
    assert s[|s|..] == [];
    assert FindMatch([], "_tier", ci, true, 0) == None;
    RemovedAt(s, "_tier", ci, true, |base|, |s|, base);
  }

  /** The first `_tier<digits>` of a suffixed name is its suffix, which runs to the end. */
  lemma SuffixIsFirstMatch(base: string, n: nat, ci: bool)
    requires FindMatch(base, "_tier", ci, true, 0).None?
    ensures var s := base + TierSuffix(n);
      FindMatch(s, "_tier", ci, true, 0) == Some(|base|) && |base| + 5 <= |s| && MatchEnd(s, |base|, "_tier", true) == |s|
  {
    var s := base + TierSuffix(n);
    var p := |base|;
    assert s[p..p + 5] == "_tier";
    assert Lower("_tier") == "_tier";
    assert MatchAt(s, p, "_tier", ci, true);
    forall q | 0 <= q < p
      ensures !MatchAt(s, q, "_tier", ci, true)
    {
      MatchStaysInBase(base, TierSuffix(n), "_tier", ci, q);
    }
    assert s[p + 5..] == NatToString(n);
    DigitPrefixOfNumber(NatToString(n));
  }

  // ------------------------------------------------------------ categories

  const FIGHTERS := ["xwing", "tiefighter", "awing", "ywing", "z95"]
  const SPEEDERS := ["flash_speeder", "swoop"]
  const TRANSPORTS := ["transport", "shuttle"]

  /** `detectMountCategory` / `detect_mount_category`: fighter, speeder and transport keywords in that order. */
  function MountCategory(shipName: string): (r: string)
    ensures r in {"fighter", "speeder", "transport", "custom"}
    ensures r == "fighter" <==> AnyContained(FIGHTERS, shipName)
    ensures r == "speeder" <==> !AnyContained(FIGHTERS, shipName) && AnyContained(SPEEDERS, shipName)
    ensures r == "transport" <==>
      !AnyContained(FIGHTERS, shipName) && !AnyContained(SPEEDERS, shipName) && AnyContained(TRANSPORTS, shipName)
  {
    if FirstContained(FIGHTERS, shipName) < |FIGHTERS| then "fighter"
    else if FirstContained(SPEEDERS, shipName) < |SPEEDERS| then "speeder"
    else if FirstContained(TRANSPORTS, shipName) < |TRANSPORTS| then "transport"
    else "custom"
  }

  /** `Math.max(1, (tier - 1) * 10)` / `max(1, (tier - 1) * 10)`. */
  function MinLevel(tier: int): (r: int)
    ensures r >= 1
    ensures tier >= 2 ==> r == (tier - 1) * 10
    ensures tier <= 1 ==> r == 1
  {
    if (tier - 1) * 10 > 1 then (tier - 1) * 10 else 1
  }

  /** A higher tier never lowers the level needed. */
  lemma MinLevelMonotone(t1: int, t2: int)
    requires t1 <= t2
    ensures MinLevel(t1) <= MinLevel(t2)
  {
  }

  /** Ship cost keywords and their costs, in table order. */
  const COST_KEYS := ["xwing", "tiefighter", "awing", "ywing", "transport"]
  const COSTS := [15000, 12000, 18000, 10000, 25000]
  const DEFAULT_COST := 5000

  // ---------------------------------------------------------- display names

  /** `word.charAt(0).toUpperCase() + word.slice(1)`. */
  function UpperFirst(w: string): (r: string)
    ensures |r| == |w|
    ensures w != [] ==> r[0] == UpperChar(w[0]) && r[1..] == w[1..]
  {
    if w == [] then [] else [UpperChar(w[0])] + w[1..]
  }

  /** Python's `str.capitalize()` on ASCII: the first letter upper-cased, the rest lower-cased. */
  function Capitalize(w: string): (r: string)
    ensures |r| == |w|
    ensures w != [] ==> r[0] == UpperChar(w[0]) && r[1..] == Lower(w[1..])
  {
    if w == [] then [] else [UpperChar(w[0])] + Lower(w[1..])
  }

  /** ` Mk.<tier>` for a tier above 1. */
  function MkSuffix(tier: int): string
  {
    if tier > 1 then " Mk." + IntToString(tier) else ""
  }
}
