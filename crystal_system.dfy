/**
 * The collectible crystals: a tracked list of crystal objects, each of one
 * of five types with its score value, removed once its collection
 * animation has run for its full duration.
 */
module CrystalSystem {
  import opened Wrappers

  const MAX_CRYSTALS := 50

  /** `crystalTypes`: name and score value, in table order. */
  const CRYSTAL_TYPES: seq<(string, int)> := [("Blue", 10), ("Green", 15), ("Red", 20), ("Purple", 25), ("Gold", 50)]

  /** `collectionAnimation.duration`. */
  const ANIMATION_DURATION: real := 1.0

  /** A crystal's `userData`: type, value, whether it is collected, and when its collection animation started. */
  class Crystal {
    const kind: string
    const value: int
    var collected: bool
    var animationStart: Option<real>

    constructor (kind: string, value: int)
      ensures this.kind == kind && this.value == value && !collected && animationStart == None
    {
      this.kind := kind;
      this.value := value;
      collected := false;
      animationStart := None;
    }
  }

  /** `Math.min(elapsed / duration, 1)`. */
  function Progress(elapsed: real): (p: real)
    ensures p <= 1.0
    ensures p == 1.0 <==> elapsed >= ANIMATION_DURATION
  {
    if elapsed / ANIMATION_DURATION < 1.0 then elapsed / ANIMATION_DURATION else 1.0
  }

  /** A collected crystal whose animation has reached full progress at `time`. */
  predicate Expired(c: Crystal, time: real)
    reads c
  {
    c.collected && c.animationStart.Some? && Progress(time - c.animationStart.value) >= 1.0
  }

  /** `array.indexOf(x)`: the first index holding `x`, or -1. */
  function IndexOf<T(==)>(s: seq<T>, x: T): (i: int)
    ensures -1 <= i < |s|
    ensures i == -1 <==> x !in s
    ensures i >= 0 ==> s[i] == x && x !in s[..i]
  {
    if s == [] then -1
    else if s[0] == x then 0
    else
      var j := IndexOf(s[1..], x);
      assert j >= 0 ==> s[..j + 1] == [s[0]] + s[1..][..j];
      if j == -1 then -1 else j + 1
  }

  /** `removeCrystal(c)`: the list without the first occurrence of `c`, unchanged when `c` is not tracked. */
  function Removed<T(==)>(s: seq<T>, x: T): (r: seq<T>)
    ensures x !in s ==> r == s
    ensures x in s ==> |r| == |s| - 1 && multiset(r) == multiset(s) - multiset{x}
  {
    var i := IndexOf(s, x);
    if i < 0 then s
    else
      assert s == s[..i] + [s[i]] + s[i + 1..];
      s[..i] + s[i + 1..]
  }

  lemma RemovedSubset<T>(s: seq<T>, x: T)
    ensures forall y :: y in Removed(s, x) ==> y in s
  {
    forall y | y in Removed(s, x)
      ensures y in s
    {
      assert multiset(Removed(s, x))[y] > 0;
    }
  }

  /**
   * The effect of `update(time)` on the list: `forEach` visits the indices
   * fixed at its start, skips those past the current end, and every expired
   * crystal it visits is removed, which shifts the next one onto the index
   * just visited.
   */
  function Sweep<T(==)>(s: seq<T>, expired: set<T>, k: nat, len: nat): seq<T>
    decreases len - k
  {
    if k >= len then s
    else if k < |s| && s[k] in expired then Sweep(Removed(s, s[k]), expired, k + 1, len)
    else Sweep(s, expired, k + 1, len)
  }

  lemma SweepStep<T>(s: seq<T>, expired: set<T>, k: nat, len: nat)
    requires k < len
    ensures Sweep(s, expired, k, len) ==
      Sweep(if k < |s| && s[k] in expired then Removed(s, s[k]) else s, expired, k + 1, len)
  {
  }

  /** A sweep only removes: it never adds a crystal. */
  lemma {:induction false} SweepOnlyRemoves<T>(s: seq<T>, expired: set<T>, k: nat, len: nat)
    ensures |Sweep(s, expired, k, len)| <= |s|
    ensures forall x :: x in Sweep(s, expired, k, len) ==> x in s
    decreases len - k
  {
    if k < len {
      if k < |s| && s[k] in expired {
        SweepOnlyRemoves(Removed(s, s[k]), expired, k + 1, len);
        RemovedSubset(s, s[k]);
      } else {
        SweepOnlyRemoves(s, expired, k + 1, len);
      }
    }
  }

  /** A crystal that is not expired is never removed. */
  lemma {:induction false} SweepKeepsUnexpired<T>(s: seq<T>, expired: set<T>, k: nat, len: nat, x: T)
    requires x in s && x !in expired
    ensures x in Sweep(s, expired, k, len)
    decreases len - k
  {
    if k < len {
      if k < |s| && s[k] in expired {
        assert multiset(Removed(s, s[k]))[x] == multiset(s)[x];
        SweepKeepsUnexpired(Removed(s, s[k]), expired, k + 1, len, x);
      } else {
        SweepKeepsUnexpired(s, expired, k + 1, len, x);
      }
    }
  }

  /** Of two adjacent expired crystals only the first goes in one frame: the second is shifted past the loop. */
  lemma AdjacentExpiredSkipsOne()
    ensures Sweep([1, 2], {1, 2}, 0, 2) == [2]
  {
    assert Removed([1, 2], 1) == [2];
  }

  /** `this.crystals`. */
  class Field {
    var crystals: seq<Crystal>

    constructor ()
      ensures crystals == []
    {
      crystals := [];
    }

    /** `createCrystal(position)`: one new uncollected crystal of type `typeIndex`, the random pick, appended. */
    method CreateCrystal(typeIndex: nat) returns (c: Crystal)
      requires typeIndex < |CRYSTAL_TYPES|
      modifies this
      ensures fresh(c) && crystals == old(crystals) + [c]
      ensures c.kind == CRYSTAL_TYPES[typeIndex].0 && c.value == CRYSTAL_TYPES[typeIndex].1
      ensures !c.collected && c.animationStart == None
    {
      c := new Crystal(CRYSTAL_TYPES[typeIndex].0, CRYSTAL_TYPES[typeIndex].1);
      crystals := crystals + [c];
    }

    /** `removeCrystal(c)`. */
    method RemoveCrystal(c: Crystal)
      modifies this
      ensures crystals == Removed(old(crystals), c)
    {
      var index := IndexOf(crystals, c);
      if index > -1 {
        crystals := crystals[..index] + crystals[index + 1..];
      }
    }

    /** `updateCollectionAnimation(c, time)`: removes the crystal once its progress reaches 1. */
    method UpdateCollectionAnimation(c: Crystal, time: real)
      requires c.collected
      modifies this
      ensures crystals == if Expired(c, time) then Removed(old(crystals), c) else old(crystals)
    {
      if c.animationStart.None? {
        return;
      }
      var progress := Progress(time - c.animationStart.value);
      if progress >= 1.0 {
        RemoveCrystal(c);
      }
    }

    /** The set of tracked crystals expired at `time`. */
    function ExpiredAt(time: real): set<Crystal>
      reads this, crystals
    {
      set c | c in crystals && Expired(c, time)
    }

    /** The `forEach` callback for index `k`, when it is still inside the list. */
    method Visit(k: nat, time: real, ghost expired: set<Crystal>)
      requires forall c :: c in crystals ==> (c in expired <==> Expired(c, time))
      modifies this
      ensures crystals == if k < |old(crystals)| && old(crystals)[k] in expired
        then Removed(old(crystals), old(crystals)[k]) else old(crystals)
    {
      if k < |crystals| {
        var c := crystals[k];
        if c.collected {
          UpdateCollectionAnimation(c, time);
        }
      }
    }

    /** `update(time)`: the `forEach` over the crystals, of which only the removal is modelled. */
    method Update(time: real)
      modifies this
      ensures crystals == Sweep(old(crystals), old(ExpiredAt(time)), 0, |old(crystals)|)
    {
      ghost var expired := ExpiredAt(time);
      ghost var original := crystals;
      var len := |crystals|;
      var k := 0;
      while k < len
        invariant k <= len
        invariant forall c :: c in crystals ==> c in original
        invariant forall c :: c in crystals ==> (c in expired <==> Expired(c, time))
        invariant Sweep(crystals, expired, k, len) == Sweep(original, expired, 0, len)
      {
        ghost var before := crystals;
        Visit(k, time, expired);
        if k < |before| {
          RemovedSubset(before, before[k]);
        }
        SweepStep(before, expired, k, len);
        k := k + 1;
      }
    }

    /** `dispose()`. */
    method Dispose()
      modifies this
      ensures crystals == []
    {
      crystals := [];
    }
  }

  /** `Math.min(5, max - count)` when the field is below its maximum: a respawn never overfills it. */
  function RespawnCount(count: nat): (n: nat)
    ensures n <= 5 && count + n <= (if count < MAX_CRYSTALS then MAX_CRYSTALS else count)
    ensures n > 0 <==> count < MAX_CRYSTALS
  {
    if count < MAX_CRYSTALS then (if 5 < MAX_CRYSTALS - count then 5 else MAX_CRYSTALS - count) else 0
  }
}
