/**
 * The terrain (TRN) loader: the IFF header check in `parse`, the
 * procedural fallback terrain every path returns, and the per-planet water
 * level table.
 *
 * The fallback's heights come from a floating-point sine noise; the model
 * takes the height at each grid point as a parameter and keeps the fill
 * loop, the grid shape and the constants.
 */
module TrnLoader {
  import opened Wrappers
  import opened Bytes

  const SIZE: nat := 512

  datatype Heightmap = Heightmap(data: seq<real>, width: nat, height: nat, min: int, max: int)
  datatype Biome = Biome(baseColor: nat, waterColor: nat, kind: string)
  datatype Metadata = Metadata(source: string, resolution: nat)
  datatype Terrain = Terrain(heightmap: Heightmap, biome: Biome, metadata: Metadata)

  /** Which branch of `parse` a buffer takes; every branch returns the fallback terrain. */
  datatype Header = TooSmall | NotForm | Form(formSize: nat, formName: string)

  /** The biome and metadata of the fallback. */
  const GRASSLAND := Biome(0x4a7c59, 0x4a90e2, "grassland")
  const PROCEDURAL := Metadata("procedural", SIZE)

  /** The heightmap sample at flat index `i`, row-major with `SIZE` samples per row. */
  function SampleAt(noise: (nat, nat) -> real, i: nat): real
  {
    noise(i % SIZE, i / SIZE)
  }

  /** `generateFallbackTerrain` with `noise(x, y)` the height it computes at grid point (x, y). */
  function FallbackTerrain(noise: (nat, nat) -> real): Terrain
  {
    Terrain(Heightmap(seq(SIZE * SIZE, i requires 0 <= i => SampleAt(noise, i)), SIZE, SIZE, -100, 100), GRASSLAND, PROCEDURAL)
  }

  /** The fill loops of `generateFallbackTerrain`, over a `Float32Array` of `SIZE * SIZE` samples. */
  method GenerateFallbackTerrain(noise: (nat, nat) -> real) returns (t: Terrain)
    ensures t == FallbackTerrain(noise)
  {
    var heightmap := new real[SIZE * SIZE];
    var y := 0;
    while y < SIZE
      invariant y <= SIZE
      invariant forall i :: 0 <= i < y * SIZE ==> heightmap[i] == SampleAt(noise, i)
    {
      var x := 0;
      while x < SIZE
        invariant x <= SIZE
        invariant forall i :: 0 <= i < y * SIZE + x ==> heightmap[i] == SampleAt(noise, i)
      {
        var idx := y * SIZE + x;
        assert idx % SIZE == x && idx / SIZE == y;
        heightmap[idx] := noise(x, y);
        x := x + 1;
      }
      y := y + 1;
    }
    t := Terrain(Heightmap(heightmap[..], SIZE, SIZE, -100, 100), GRASSLAND, PROCEDURAL);
  }

  /** The header check of `parse`. */
  function ParseHeader(buffer: seq<byte>): (h: Header)
    ensures h == TooSmall <==> |buffer| < 12
    ensures h == NotForm <==> |buffer| >= 12 && AsciiNode(buffer[..4]) != "FORM"
    ensures h.Form? ==> |buffer| >= 12 && h.formSize == U32BE(buffer, 4) && |h.formName| == 4
  {
    if |buffer| < 12 then TooSmall
    else
      TagIsDecoding(buffer, 0, "FORM");
      assert Slice(buffer, 0, 4) == buffer[..4];
      if !TagIs(buffer, 0, "FORM") then NotForm
      else Form(U32BE(buffer, 4), AsciiAt(buffer, 8, 4))
  }

  /** `parse`: every buffer, valid header or not, yields the fallback terrain. */
  method Parse(buffer: seq<byte>, noise: (nat, nat) -> real) returns (header: Header, t: Terrain)
    ensures header == ParseHeader(buffer)
    ensures t == FallbackTerrain(noise)
  {
    header := ParseHeader(buffer);
    t := GenerateFallbackTerrain(noise);
  }

  /** The fallback is a 512 by 512 grid, one sample per point, each at its row-major index. */
  lemma FallbackShape(noise: (nat, nat) -> real)
    ensures var hm := FallbackTerrain(noise).heightmap;
      |hm.data| == hm.width * hm.height && hm.width == SIZE && hm.height == SIZE &&
      FallbackTerrain(noise).metadata.resolution == SIZE &&
      forall x: nat, y: nat :: x < SIZE && y < SIZE ==> hm.data[y * SIZE + x] == noise(x, y)
  {
    var hm := FallbackTerrain(noise).heightmap;
    forall x: nat, y: nat | x < SIZE && y < SIZE
      ensures hm.data[y * SIZE + x] == noise(x, y)
    {
      var i := y * SIZE + x;
      assert i % SIZE == x && i / SIZE == y;
    }
  }

  /** Per-planet water levels. */
  const WATER_LEVELS: map<string, int> := map[
    "naboo" := 0, "tatooine" := -100, "corellia" := 0, "dathomir" := -100, "endor" := 0,
    "lok" := -100, "rori" := 0, "talus" := 0, "yavin4" := 0, "dantooine" := -100]

  /** `getWaterLevel(terrainData)` with `terrainData.planet` (None when it is missing): the table entry, `?? -100`. */
  function WaterLevel(planet: Option<string>): (level: int)
    ensures level == 0 || level == -100
    ensures planet.None? ==> level == -100
  {
    if planet.Some? && planet.value in WATER_LEVELS then WATER_LEVELS[planet.value] else -100
  }

  /** Water sits at 0 on exactly six planets and at -100 everywhere else, unknown planets included. */
  lemma WaterLevelIsZeroOrLow(planet: Option<string>)
    ensures WaterLevel(planet) == 0 <==>
      planet.Some? && planet.value in {"naboo", "corellia", "endor", "rori", "talus", "yavin4"}
    ensures WaterLevel(planet) != 0 ==> WaterLevel(planet) == -100
  {
  }
}
