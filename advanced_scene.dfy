/**
 * The flight scene: the square of terrain chunks kept around the ship, the
 * render distance that grows with altitude, the per-frame boost-energy and
 * speed update, the booster particle cap, crystal collection and the
 * periodic crystal respawn.
 */
module AdvancedScene {
  import opened Wrappers
  import CrystalSystem

  // ---------------------------------------------------------------- constants

  const CHUNK_SIZE: real := 100.0
  const MIN_ALTITUDE_FOR_MAX_RENDER: real := 40.0

  const MAX_SPEED: real := 0.5
  const BOOST_MAX_SPEED: real := 0.8
  const ACCELERATION: real := 0.005
  const BOOST_ACCELERATION: real := 0.01
  const DECELERATION: real := 0.01

  const BOOST_ENERGY_MAX: real := 100.0
  const BOOST_ENERGY_REGEN_RATE: real := 0.2
  const BOOST_ENERGY_COST_RATE: real := 0.8

  function BaseChunksVisibleDistance(isMobile: bool): int { if isMobile then 2 else 3 }

  function MaxChunksVisibleDistance(isMobile: bool): int { if isMobile then 4 else 8 }

  function MaxParticles(isMobile: bool): nat { if isMobile then 80 else 200 }

  /** `Math.round`: the nearest integer, halves rounded up. */
  function Round(v: real): (n: int)
    ensures v - 0.5 < n as real <= v + 0.5
  {
    (v + 0.5).Floor
  }

  lemma RoundMonotone(a: real, b: real)
    requires a <= b
    ensures Round(a) <= Round(b)
  {
    assert Round(a) as real <= a + 0.5 <= b + 0.5 < Round(b) as real + 1.0;
  }

  // ---------------------------------------------------------------- terrain chunks

  /** A chunk's `userData`: its grid cell. The key string `x,z` names exactly one cell. */
  datatype Cell = Cell(x: int, z: int)

  datatype Position = Position(x: real, y: real, z: real)

  predicate Distinct(s: seq<Cell>)
  {
    forall i, j :: 0 <= i < j < |s| ==> s[i] != s[j]
  }

  lemma DistinctSnoc(s: seq<Cell>, a: Cell)
    requires Distinct(s) && a !in s
    ensures Distinct(s + [a])
  {
  }

  lemma DistinctAppend(a: seq<Cell>, b: seq<Cell>)
    requires Distinct(a) && Distinct(b)
    requires forall y :: y in a ==> y !in b
    ensures Distinct(a + b)
  {
    forall i, j | 0 <= i < j < |a + b|
      ensures (a + b)[i] != (a + b)[j]
    {
      if j < |a| {
      } else if i >= |a| {
        assert (a + b)[i] == b[i - |a|] && (a + b)[j] == b[j - |a|];
      } else {
        assert (a + b)[i] in a && (a + b)[j] == b[j - |a|];
      }
    }
  }

  /** The square's cells in one grid column: `(x, zlo)` up to `(x, z - 1)`, in the order the inner loop adds them. */
  function Column(x: int, zlo: int, z: int): seq<Cell>
    decreases z - zlo
  {
    if z <= zlo then [] else Column(x, zlo, z - 1) + [Cell(x, z - 1)]
  }

  /** The columns `xlo` up to `x - 1`, in the order the outer loop adds them. */
  function Rows(xlo: int, x: int, zlo: int, zhi: int): seq<Cell>
    decreases x - xlo
  {
    if x <= xlo then [] else Rows(xlo, x - 1, zlo, zhi) + Column(x - 1, zlo, zhi + 1)
  }

  /** `neededChunks`: the cells of the square of half-width `d` around the player's cell, in insertion order. */
  function Square(px: int, pz: int, d: int): seq<Cell>
  {
    Rows(px - d, px + d + 1, pz - d, pz + d)
  }

  predicate InSquare(c: Cell, px: int, pz: int, d: int)
  {
    px - d <= c.x <= px + d && pz - d <= c.z <= pz + d
  }

  lemma {:induction false} ColumnFacts(x: int, zlo: int, z: int)
    ensures forall c :: c in Column(x, zlo, z) <==> c.x == x && zlo <= c.z < z
    ensures Distinct(Column(x, zlo, z))
    ensures |Column(x, zlo, z)| == if z <= zlo then 0 else z - zlo
    decreases z - zlo
  {
    if z > zlo {
      ColumnFacts(x, zlo, z - 1);
      DistinctSnoc(Column(x, zlo, z - 1), Cell(x, z - 1));
    }
  }

  lemma {:induction false} RowsMembers(xlo: int, x: int, zlo: int, zhi: int)
    ensures forall c :: c in Rows(xlo, x, zlo, zhi) <==> xlo <= c.x < x && zlo <= c.z <= zhi
    decreases x - xlo
  {
    if x > xlo {
      RowsMembers(xlo, x - 1, zlo, zhi);
      ColumnFacts(x - 1, zlo, zhi + 1);
    }
  }

  lemma {:induction false} RowsDistinct(xlo: int, x: int, zlo: int, zhi: int)
    ensures Distinct(Rows(xlo, x, zlo, zhi))
    decreases x - xlo
  {
    if x > xlo {
      RowsDistinct(xlo, x - 1, zlo, zhi);
      RowsMembers(xlo, x - 1, zlo, zhi);
      ColumnFacts(x - 1, zlo, zhi + 1);
      DistinctAppend(Rows(xlo, x - 1, zlo, zhi), Column(x - 1, zlo, zhi + 1));
    }
  }

  lemma {:induction false} RowsSize(xlo: int, x: int, zlo: int, zhi: int)
    requires xlo <= x && zlo <= zhi + 1
    ensures |Rows(xlo, x, zlo, zhi)| == (x - xlo) * (zhi + 1 - zlo)
    decreases x - xlo
  {
    if x > xlo {
      RowsSize(xlo, x - 1, zlo, zhi);
      ColumnFacts(x - 1, zlo, zhi + 1);
      assert (x - 1 - xlo) * (zhi + 1 - zlo) + (zhi + 1 - zlo) == (x - xlo) * (zhi + 1 - zlo);
    }
  }

  /** The needed set is exactly the square, each cell once; a negative distance needs no cell at all. */
  lemma SquareFacts(px: int, pz: int, d: int)
    ensures forall c :: c in Square(px, pz, d) <==> InSquare(c, px, pz, d)
    ensures Distinct(Square(px, pz, d))
    ensures d < 0 ==> Square(px, pz, d) == []
    ensures d >= 0 ==> |Square(px, pz, d)| == (2 * d + 1) * (2 * d + 1)
  {
    SquareDistinct(px, pz, d);
    SquareMembers(px, pz, d);
    if d >= 0 {
      SquareSize(px, pz, d);
    }
  }

  lemma SquareDistinct(px: int, pz: int, d: int)
    ensures Distinct(Square(px, pz, d))
  {
    RowsDistinct(px - d, px + d + 1, pz - d, pz + d);
  }

  lemma SquareMembers(px: int, pz: int, d: int)
    ensures forall c :: c in Square(px, pz, d) <==> InSquare(c, px, pz, d)
  {
    RowsMembers(px - d, px + d + 1, pz - d, pz + d);
    MembersGlue(Rows(px - d, px + d + 1, pz - d, pz + d), px, pz, d);
  }

  lemma MembersGlue(s: seq<Cell>, px: int, pz: int, d: int)
    requires forall c :: c in s <==> px - d <= c.x < px + d + 1 && pz - d <= c.z <= pz + d
    ensures forall c :: c in s <==> InSquare(c, px, pz, d)
  {
  }

  lemma SquareSize(px: int, pz: int, d: int)
    requires d >= 0
    ensures |Square(px, pz, d)| == (2 * d + 1) * (2 * d + 1)
  {
    RowsSize(px - d, px + d + 1, pz - d, pz + d);
    assert px + d + 1 - (px - d) == 2 * d + 1 && pz + d + 1 - (pz - d) == 2 * d + 1;
  }

  /** `neededChunks.delete(key)`. */
  function Without(s: seq<Cell>, c: Cell): (r: seq<Cell>)
    ensures forall y :: y in r <==> y in s && y != c
    ensures Distinct(s) ==> Distinct(r)
    ensures c !in s ==> r == s
    ensures c in s && Distinct(s) ==> |r| == |s| - 1
  {
    if s == [] then []
    else
      var rest := Without(s[1..], c);
      assert forall y :: y in s <==> y == s[0] || y in s[1..];
      assert Distinct(s) ==> Distinct(s[1..]) && s[0] !in s[1..];
      if s[0] == c then rest
      else
        assert Distinct(s) ==> Distinct([s[0]] + rest) by {
          if Distinct(s) {
            DistinctAppend([s[0]], rest);
          }
        }
        [s[0]] + rest
  }

  /**
   * The keep loop over `terrainChunks`: the chunks kept, in list order, and
   * what is left of the needed set; a chunk is kept when its cell is still
   * needed, which deletes the cell.
   */
  function KeepPass(chunks: seq<Cell>, needed: seq<Cell>): (seq<Cell>, seq<Cell>)
    decreases |chunks|
  {
    if chunks == [] then ([], needed)
    else
      var p := KeepPass(chunks[..|chunks| - 1], needed);
      var c := chunks[|chunks| - 1];
      if c in p.1 then (p.0 + [c], Without(p.1, c)) else p
  }

  /** `terrainChunks` after `updateTerrainChunks`: the kept chunks, then one new chunk per cell still needed. */
  function UpdatedChunks(chunks: seq<Cell>, needed: seq<Cell>): seq<Cell>
  {
    var p := KeepPass(chunks, needed);
    p.0 + p.1
  }

  /**
   * The keep pass splits the needed cells between the kept chunks and the
   * ones left to create, each without repeats; kept cells come from the
   * list and the cells left are on none of its chunks.
   */
  lemma {:induction false} KeepPassFacts(chunks: seq<Cell>, needed: seq<Cell>)
    requires Distinct(needed)
    ensures Distinct(KeepPass(chunks, needed).0) && Distinct(KeepPass(chunks, needed).1)
    ensures forall y :: y in needed <==> y in KeepPass(chunks, needed).0 || y in KeepPass(chunks, needed).1
    ensures forall y :: y in KeepPass(chunks, needed).0 ==> y !in KeepPass(chunks, needed).1 && y in chunks
    ensures forall y :: y in KeepPass(chunks, needed).1 ==> y !in chunks
    ensures |KeepPass(chunks, needed).0| + |KeepPass(chunks, needed).1| == |needed|
    decreases |chunks|
  {
    if chunks != [] {
      var prefix := chunks[..|chunks| - 1];
      var c := chunks[|chunks| - 1];
      assert chunks == prefix + [c];
      KeepPassFacts(prefix, needed);
      var p := KeepPass(prefix, needed);
      if c in p.1 {
        DistinctSnoc(p.0, c);
      }
    }
  }

  /** The first `k` chunks of `r` were on the list `chunks` and the rest were not. */
  predicate OldThenNew(r: seq<Cell>, chunks: seq<Cell>, k: int)
  {
    0 <= k <= |r| && (forall i :: 0 <= i < k ==> r[i] in chunks) && (forall i :: k <= i < |r| ==> r[i] !in chunks)
  }

  /**
   * After `updateTerrainChunks` there is one chunk per cell of the square
   * and no other: a chunk outside it or a second chunk for a cell is gone.
   * The chunks kept from before come first and the new ones after.
   */
  lemma UpdateCoversSquare(chunks: seq<Cell>, px: int, pz: int, d: int)
    ensures forall c :: c in UpdatedChunks(chunks, Square(px, pz, d)) <==> InSquare(c, px, pz, d)
    ensures Distinct(UpdatedChunks(chunks, Square(px, pz, d)))
    ensures |UpdatedChunks(chunks, Square(px, pz, d))| == if d < 0 then 0 else (2 * d + 1) * (2 * d + 1)
    ensures exists k :: OldThenNew(UpdatedChunks(chunks, Square(px, pz, d)), chunks, k)
  {
    var sq := Square(px, pz, d);
    SquareFacts(px, pz, d);
    KeepPassFacts(chunks, sq);
    var p := KeepPass(chunks, sq);
    DistinctAppend(p.0, p.1);
    var r := p.0 + p.1;
    assert forall i :: 0 <= i < |p.0| ==> r[i] == p.0[i];
    assert forall i :: |p.0| <= i < |r| ==> r[i] == p.1[i - |p.0|];
    assert OldThenNew(r, chunks, |p.0|);
  }

  /** Chunks already covering the needed cells, once each, are all kept and nothing new is needed. */
  lemma {:induction false} KeepPassStable(chunks: seq<Cell>, needed: seq<Cell>)
    requires Distinct(chunks) && Distinct(needed)
    requires forall c :: c in chunks ==> c in needed
    ensures KeepPass(chunks, needed).0 == chunks
    ensures forall y :: y in KeepPass(chunks, needed).1 <==> y in needed && y !in chunks
    ensures |KeepPass(chunks, needed).1| == |needed| - |chunks|
    decreases |chunks|
  {
    if chunks != [] {
      var prefix := chunks[..|chunks| - 1];
      var c := chunks[|chunks| - 1];
      assert chunks == prefix + [c];
      KeepPassStable(prefix, needed);
      KeepPassFacts(prefix, needed);
    }
  }

  /** A second update at the same cell and distance changes nothing. */
  lemma UpdateIdempotent(chunks: seq<Cell>, px: int, pz: int, d: int)
    ensures UpdatedChunks(UpdatedChunks(chunks, Square(px, pz, d)), Square(px, pz, d)) == UpdatedChunks(chunks, Square(px, pz, d))
  {
    var sq := Square(px, pz, d);
    UpdateCoversSquare(chunks, px, pz, d);
    SquareFacts(px, pz, d);
    KeepPassFacts(chunks, sq);
    var r := UpdatedChunks(chunks, sq);
    KeepPassStable(r, sq);
    var q := KeepPass(r, sq);
    assert q.0 + q.1 == r;
  }

  /**
   * `updateRenderDistance()`: the base distance plus the rounded share of
   * the extra distance that the altitude, as a fraction of 40 capped at 1,
   * earns.
   */
  function RenderDistance(altitude: real, isMobile: bool): int
  {
    var factor := if altitude / MIN_ALTITUDE_FOR_MAX_RENDER < 1.0 then altitude / MIN_ALTITUDE_FOR_MAX_RENDER else 1.0;
    BaseChunksVisibleDistance(isMobile) +
      Round(factor * (MaxChunksVisibleDistance(isMobile) - BaseChunksVisibleDistance(isMobile)) as real)
  }

  /** The distance grows with altitude, from the base at ground level to the maximum from 40 up. */
  lemma RenderDistanceBounds(altitude: real, higher: real, isMobile: bool)
    requires altitude <= higher
    ensures RenderDistance(altitude, isMobile) <= RenderDistance(higher, isMobile)
    ensures altitude >= 0.0 ==> BaseChunksVisibleDistance(isMobile) <= RenderDistance(altitude, isMobile) <= MaxChunksVisibleDistance(isMobile)
    ensures altitude >= MIN_ALTITUDE_FOR_MAX_RENDER ==> RenderDistance(altitude, isMobile) == MaxChunksVisibleDistance(isMobile)
  {
    RenderDistanceMonotone(altitude, higher, isMobile);
    RenderDistanceRange(altitude, isMobile);
  }

  lemma RenderDistanceMonotone(altitude: real, higher: real, isMobile: bool)
    requires altitude <= higher
    ensures RenderDistance(altitude, isMobile) <= RenderDistance(higher, isMobile)
  {
    var span := (MaxChunksVisibleDistance(isMobile) - BaseChunksVisibleDistance(isMobile)) as real;
    var f1 := if altitude / 40.0 < 1.0 then altitude / 40.0 else 1.0;
    var f2 := if higher / 40.0 < 1.0 then higher / 40.0 else 1.0;
    assert f1 <= f2;
    ScaleMonotone(f1, f2, span);
    RoundMonotone(f1 * span, f2 * span);
  }

  lemma RenderDistanceRange(altitude: real, isMobile: bool)
    ensures altitude >= 0.0 ==> BaseChunksVisibleDistance(isMobile) <= RenderDistance(altitude, isMobile) <= MaxChunksVisibleDistance(isMobile)
    ensures altitude >= MIN_ALTITUDE_FOR_MAX_RENDER ==> RenderDistance(altitude, isMobile) == MaxChunksVisibleDistance(isMobile)
  {
    var span := (MaxChunksVisibleDistance(isMobile) - BaseChunksVisibleDistance(isMobile)) as real;
    var f1 := if altitude / 40.0 < 1.0 then altitude / 40.0 else 1.0;
    if altitude >= 0.0 {
      ScaleMonotone(0.0, f1, span);
      ScaleMonotone(f1, 1.0, span);
      RoundMonotone(0.0, f1 * span);
      RoundMonotone(f1 * span, span);
      assert Round(0.0) == 0 && Round(span) == span.Floor;
    }
    if altitude >= MIN_ALTITUDE_FOR_MAX_RENDER {
      assert f1 * span == span;
    }
  }

  lemma ScaleMonotone(a: real, b: real, c: real)
    requires a <= b && 0.0 <= c
    ensures a * c <= b * c
  {
  }

  /** Below ground the distance turns negative, and the square is then empty. */
  lemma DeepAltitudeDropsAllChunks(chunks: seq<Cell>, px: int, pz: int)
    ensures RenderDistance(-200.0, false) == -22
    ensures UpdatedChunks(chunks, Square(px, pz, RenderDistance(-200.0, false))) == []
  {
    SquareFacts(px, pz, -22);
    KeepPassFacts(chunks, []);
    var p := KeepPass(chunks, []);
  }

  // ---------------------------------------------------------------- flight

  /** The boost energy after one frame. */
  function NextEnergy(energy: real, boosting: bool): (e: real)
    ensures 0.0 <= energy <= BOOST_ENERGY_MAX ==> 0.0 <= e <= BOOST_ENERGY_MAX
    ensures boosting ==> 0.0 <= e && (e == 0.0 || e < energy)
    ensures !boosting ==> (energy <= BOOST_ENERGY_MAX ==> energy <= e) && e <= BOOST_ENERGY_MAX
  {
    if boosting then (if energy - BOOST_ENERGY_COST_RATE > 0.0 then energy - BOOST_ENERGY_COST_RATE else 0.0)
    else (if energy + BOOST_ENERGY_REGEN_RATE < BOOST_ENERGY_MAX then energy + BOOST_ENERGY_REGEN_RATE else BOOST_ENERGY_MAX)
  }

  predicate SpeedInRange(speed: real)
  {
    -MAX_SPEED / 2.0 <= speed <= BOOST_MAX_SPEED
  }

  /**
   * `currentSpeed` after one frame: `w` accelerates up to the current top
   * speed, `s` slows down to half the top speed in reverse, and with neither
   * the speed decays toward 0 without crossing it.
   */
  function NextSpeed(speed: real, boosting: bool, w: bool, s: bool): (v: real)
    ensures SpeedInRange(speed) ==> SpeedInRange(v)
    ensures w && !boosting ==> v <= MAX_SPEED
    ensures !w && s ==> v <= speed || v == -MAX_SPEED / 2.0
    ensures !w && !s && speed >= 0.0 ==> 0.0 <= v <= speed && (speed > 0.0 ==> v < speed)
    ensures !w && !s && speed <= 0.0 ==> speed <= v <= 0.0 && (speed < 0.0 ==> speed < v)
  {
    var top := if boosting then BOOST_MAX_SPEED else MAX_SPEED;
    var acc := if boosting then BOOST_ACCELERATION else ACCELERATION;
    if w then (if top < speed + acc then top else speed + acc)
    else if s then (if -MAX_SPEED / 2.0 > speed - ACCELERATION then -MAX_SPEED / 2.0 else speed - ACCELERATION)
    else if speed > 0.0 then (if 0.0 > speed - DECELERATION then 0.0 else speed - DECELERATION)
    else if speed < 0.0 then (if 0.0 < speed + DECELERATION then 0.0 else speed + DECELERATION)
    else speed
  }

  /** `createBoostParticle()`'s count: none at or above the cap, else three while boosting and one otherwise. */
  function ParticlesAfterBurst(count: nat, boosting: bool, maxParticles: nat): (n: nat)
    ensures count >= maxParticles ==> n == count
    ensures count < maxParticles ==> n == count + (if boosting then 3 else 1)
    ensures count <= maxParticles + 2 ==> n <= maxParticles + 2
  {
    if count >= maxParticles then count else count + (if boosting then 3 else 1)
  }

  /** The cap is checked before a burst of three, so the count can end up two above it. */
  lemma BurstOvershootsCap()
    ensures ParticlesAfterBurst(199, true, MaxParticles(false)) == MaxParticles(false) + 2
  {
  }

  /** `crystal.userData.value || 10`. */
  function PointValue(value: int): (p: int)
    ensures p != 0 && (value != 0 ==> p == value)
  {
    if value != 0 then value else 10
  }

  // ---------------------------------------------------------------- the scene

  /**
   * The scene's `terrainChunks` (each chunk as its cell), render distance,
   * boost and speed fields, the number of live particles, the score and
   * the collected-crystal count; `ship` is the spaceship's position, absent
   * until the model has loaded.
   */
  class Scene {
    const isMobile: bool
    var ship: Option<Position>
    var terrainChunks: seq<Cell>
    var chunksVisibleInDistance: int
    var isBoosting: bool
    var boostEnergy: real
    var currentSpeed: real
    var particles: nat
    var score: int
    var crystalsCollected: int

    /** The energy stays within [0, 100], the speed within its range and the particles at most two above the cap. */
    predicate Valid()
      reads this
    {
      0.0 <= boostEnergy <= BOOST_ENERGY_MAX && SpeedInRange(currentSpeed) && particles <= MaxParticles(isMobile) + 2
    }

    constructor (isMobile: bool)
      ensures Valid() && this.isMobile == isMobile && ship == None && terrainChunks == []
      ensures chunksVisibleInDistance == BaseChunksVisibleDistance(isMobile)
      ensures !isBoosting && boostEnergy == BOOST_ENERGY_MAX && currentSpeed == 0.0
      ensures particles == 0 && score == 0 && crystalsCollected == 0
    {
      this.isMobile := isMobile;
      ship := None;
      terrainChunks := [];
      chunksVisibleInDistance := BaseChunksVisibleDistance(isMobile);
      isBoosting := false;
      boostEnergy := BOOST_ENERGY_MAX;
      currentSpeed := 0.0;
      particles := 0;
      score := 0;
      crystalsCollected := 0;
    }

    /** The loader's callback: the ship appears at its start position. */
    method LoadSpaceship()
      modifies this
      ensures ship == Some(Position(0.0, 5.0, 0.0)) && terrainChunks == old(terrainChunks)
      ensures Valid() <==> old(Valid())
    {
      ship := Some(Position(0.0, 5.0, 0.0));
    }

    /** The nested loops that fill `neededChunks`. */
    static method NeededChunks(px: int, pz: int, d: int) returns (needed: seq<Cell>)
      ensures needed == Square(px, pz, d)
    {
      needed := [];
      var x := px - d;
      while x <= px + d
        invariant x >= px - d && (d >= 0 ==> x <= px + d + 1) && (d < 0 ==> x == px - d)
        invariant needed == Rows(px - d, x, pz - d, pz + d)
        decreases px + d + 1 - x
      {
        var z := pz - d;
        while z <= pz + d
          invariant pz - d <= z <= pz + d + 1
          invariant needed == Rows(px - d, x, pz - d, pz + d) + Column(x, pz - d, z)
          decreases pz + d + 1 - z
        {
          needed := needed + [Cell(x, z)];
          z := z + 1;
        }
        x := x + 1;
      }
    }

    /** The loop over `terrainChunks` that keeps the needed ones, then the loop that creates the cells still needed. */
    static method Rebuild(chunks: seq<Cell>, square: seq<Cell>) returns (updated: seq<Cell>)
      ensures updated == UpdatedChunks(chunks, square)
    {
      var keep: seq<Cell> := [];
      var needed := square;
      var i := 0;
      while i < |chunks|
        invariant 0 <= i <= |chunks|
        invariant (keep, needed) == KeepPass(chunks[..i], square)
      {
        assert chunks[..i + 1][..i] == chunks[..i];
        var chunk := chunks[i];
        if chunk in needed {
          keep := keep + [chunk];
          needed := Without(needed, chunk);
        }
        i := i + 1;
      }
      assert chunks[..i] == chunks;
      updated := keep;
      var j := 0;
      while j < |needed|
        invariant 0 <= j <= |needed|
        invariant updated == keep + needed[..j]
      {
        assert needed[..j + 1] == needed[..j] + [needed[j]];
        updated := updated + [needed[j]];
        j := j + 1;
      }
      assert needed[..j] == needed;
    }

    /** `updateTerrainChunks()`, with the render distance update it starts with; nothing without a ship. */
    method UpdateTerrainChunks()
      modifies this
      ensures ship == old(ship) && isBoosting == old(isBoosting) && boostEnergy == old(boostEnergy)
      ensures currentSpeed == old(currentSpeed) && particles == old(particles) && score == old(score)
      ensures crystalsCollected == old(crystalsCollected)
      ensures ship.None? ==> terrainChunks == old(terrainChunks) && chunksVisibleInDistance == old(chunksVisibleInDistance)
      ensures ship.Some? ==> chunksVisibleInDistance == RenderDistance(ship.value.y, isMobile)
      ensures ship.Some? ==> terrainChunks == UpdatedChunks(old(terrainChunks),
        Square(Round(ship.value.x / CHUNK_SIZE), Round(ship.value.z / CHUNK_SIZE), chunksVisibleInDistance))
    {
      if ship.None? {
        return;
      }
      chunksVisibleInDistance := RenderDistance(ship.value.y, isMobile);
      var px := Round(ship.value.x / CHUNK_SIZE);
      var pz := Round(ship.value.z / CHUNK_SIZE);
      var needed := NeededChunks(px, pz, chunksVisibleInDistance);
      var updated := Rebuild(terrainChunks, needed);
      terrainChunks := updated;
    }

    /** `createBoostParticle()`, with the particles as their number. */
    method CreateBoostParticle()
      modifies this
      ensures particles == ParticlesAfterBurst(old(particles), isBoosting, MaxParticles(isMobile))
      ensures ship == old(ship) && isBoosting == old(isBoosting) && boostEnergy == old(boostEnergy)
      ensures currentSpeed == old(currentSpeed) && terrainChunks == old(terrainChunks)
      ensures score == old(score) && crystalsCollected == old(crystalsCollected)
    {
      if particles >= MaxParticles(isMobile) {
        return;
      }
      var particleCount := if isBoosting then 3 else 1;
      var live := particles;
      var i := 0;
      while i < particleCount
        invariant 0 <= i <= particleCount
        invariant live == particles + i
      {
        live := live + 1;
        i := i + 1;
      }
      particles := live;
    }

    /**
     * The boost, speed and particle part of `updateSpaceshipControls`, for
     * the keys held (`Shift`, `w`, `s`) and the random draw that lets a fast
     * unboosted ship emit a particle.
     */
    method UpdateSpaceshipControls(shift: bool, w: bool, s: bool, draw: bool)
      requires Valid()
      modifies this
      ensures Valid() && ship == old(ship) && terrainChunks == old(terrainChunks)
      ensures score == old(score) && crystalsCollected == old(crystalsCollected)
      ensures ship.None? ==> (isBoosting == old(isBoosting) && boostEnergy == old(boostEnergy) &&
        currentSpeed == old(currentSpeed) && particles == old(particles))
      ensures ship.Some? ==> isBoosting == (shift && old(boostEnergy) > 0.0)
      ensures ship.Some? ==> boostEnergy == NextEnergy(old(boostEnergy), isBoosting)
      ensures ship.Some? ==> currentSpeed == NextSpeed(old(currentSpeed), isBoosting, w, s)
      ensures ship.Some? ==> (particles ==
        if currentSpeed > 0.0 && (isBoosting || (currentSpeed > MAX_SPEED * 0.4 && draw))
        then ParticlesAfterBurst(old(particles), isBoosting, MaxParticles(isMobile)) else old(particles))
    {
      if ship.None? {
        return;
      }
      isBoosting := shift && boostEnergy > 0.0;
      boostEnergy := NextEnergy(boostEnergy, isBoosting);
      currentSpeed := NextSpeed(currentSpeed, isBoosting, w, s);
      if currentSpeed > 0.0 {
        if isBoosting {
          CreateBoostParticle();
        } else if currentSpeed > MAX_SPEED * 0.4 && draw {
          CreateBoostParticle();
        }
      }
    }

    /** `collectCrystal(crystal)`: a missing or already collected crystal changes nothing, so a second call is a no-op. */
    method CollectCrystal(crystal: CrystalSystem.Crystal?, now: real)
      modifies this, crystal
      ensures terrainChunks == old(terrainChunks) && particles == old(particles) && boostEnergy == old(boostEnergy)
      ensures crystal == null || old(crystal.collected) ==>
        score == old(score) && crystalsCollected == old(crystalsCollected) &&
        (crystal != null ==> crystal.animationStart == old(crystal.animationStart) && crystal.collected)
      ensures crystal != null && !old(crystal.collected) ==>
        crystal.collected && crystal.animationStart == Some(now) &&
        score == old(score) + PointValue(crystal.value) && crystalsCollected == old(crystalsCollected) + 1
    {
      if crystal == null || crystal.collected {
        return;
      }
      crystal.collected := true;
      score := score + PointValue(crystal.value);
      crystalsCollected := crystalsCollected + 1;
      crystal.animationStart := Some(now);
    }
  }

  /** `spawnCrystals(count)` for the random type picks, one per crystal. */
  method SpawnCrystals(field: CrystalSystem.Field, picks: seq<nat>)
    requires forall k :: 0 <= k < |picks| ==> picks[k] < |CrystalSystem.CRYSTAL_TYPES|
    modifies field
    ensures |field.crystals| == |old(field.crystals)| + |picks|
    ensures field.crystals[..|old(field.crystals)|] == old(field.crystals)
    ensures forall k :: 0 <= k < |picks| ==>
      field.crystals[|old(field.crystals)| + k].value == CrystalSystem.CRYSTAL_TYPES[picks[k]].1
  {
    var i := 0;
    while i < |picks|
      invariant 0 <= i <= |picks|
      invariant |field.crystals| == |old(field.crystals)| + i
      invariant field.crystals[..|old(field.crystals)|] == old(field.crystals)
      invariant forall k :: 0 <= k < i ==> field.crystals[|old(field.crystals)| + k].value == CrystalSystem.CRYSTAL_TYPES[picks[k]].1
    {
      var c := field.CreateCrystal(picks[i]);
      i := i + 1;
    }
  }

  /** The respawn timer: below the maximum, up to five more crystals, never past the maximum. */
  method RespawnTick(field: CrystalSystem.Field, picks: seq<nat>)
    requires |picks| == CrystalSystem.RespawnCount(|field.crystals|)
    requires forall k :: 0 <= k < |picks| ==> picks[k] < |CrystalSystem.CRYSTAL_TYPES|
    modifies field
    ensures |field.crystals| == |old(field.crystals)| + CrystalSystem.RespawnCount(|old(field.crystals)|)
    ensures |old(field.crystals)| <= CrystalSystem.MAX_CRYSTALS ==> |field.crystals| <= CrystalSystem.MAX_CRYSTALS
  {
    if |field.crystals| < CrystalSystem.MAX_CRYSTALS {
      SpawnCrystals(field, picks);
    }
  }
}
