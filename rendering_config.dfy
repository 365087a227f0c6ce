/**
 * The level-of-detail and culling table: which detail band a distance falls
 * in, whether an object type is drawn at a distance, and the terrain mesh
 * resolution per band.
 */
module RenderingConfig {
  const HIGH_DISTANCE: real := 1000.0
  const MEDIUM_DISTANCE: real := 2000.0
  const LOW_DISTANCE: real := 5000.0
  const FULL_VIEW_DISTANCE: real := 2000.0

  /** `culling`: the distance beyond which each object type is not drawn. */
  const CULLING: map<string, real> := map[
    "buildings" := 2000.0, "trees" := 1500.0, "smallObjects" := 1000.0, "players" := 2000.0, "landmarks" := 5000.0]

  datatype Lod = High | Medium | Low | Culled

  /** How much detail a band draws: 3 for high down to 0 once culled. */
  function Detail(l: Lod): nat
  {
    match l
    case High => 3
    case Medium => 2
    case Low => 1
    case Culled => 0
  }

  /** `getLODLevel(distance)`. */
  function GetLodLevel(distance: real): (l: Lod)
    ensures l == High <==> distance < HIGH_DISTANCE
    ensures l == Medium <==> HIGH_DISTANCE <= distance < MEDIUM_DISTANCE
    ensures l == Low <==> MEDIUM_DISTANCE <= distance < LOW_DISTANCE
    ensures l == Culled <==> LOW_DISTANCE <= distance
  {
    if distance < HIGH_DISTANCE then High
    else if distance < MEDIUM_DISTANCE then Medium
    else if distance < LOW_DISTANCE then Low
    else Culled
  }

  /** A farther object never gets more detail. */
  lemma LodMonotone(near: real, far: real)
    requires near <= far
    ensures Detail(GetLodLevel(far)) <= Detail(GetLodLevel(near))
  {
  }

  /** `shouldRenderObject(type, distance)`: within the type's culling distance, 2000 for a type the table lacks. */
  predicate ShouldRenderObject(objectType: string, distance: real)
    ensures distance <= HIGH_DISTANCE ==> ShouldRenderObject(objectType, distance)
    ensures distance > LOW_DISTANCE ==> !ShouldRenderObject(objectType, distance)
    ensures ShouldRenderObject(objectType, distance) && GetLodLevel(distance) == Culled ==> objectType == "landmarks"
  {
    var maxDist := if objectType in CULLING then CULLING[objectType] else FULL_VIEW_DISTANCE;
    distance <= maxDist
  }

  /** Rendering is closed downwards: whatever is drawn at a distance is drawn nearer too. */
  lemma ShouldRenderDownwardClosed(objectType: string, near: real, far: real)
    requires near <= far && ShouldRenderObject(objectType, far)
    ensures ShouldRenderObject(objectType, near)
  {
  }

  /**
   * The singular type names are not keys, so they take the 2000 default:
   * a `tree` at 1800 is drawn although `trees` stop at 1500.
   */
  lemma SingularNamesFallBack()
    ensures "tree" !in CULLING && "building" !in CULLING && "player" !in CULLING
    ensures ShouldRenderObject("tree", 1800.0) && !ShouldRenderObject("trees", 1800.0)
  {
  }

  /** `getTerrainSegments(distance)`: the band's segment count, or 32 once culled. */
  function GetTerrainSegments(distance: real): (n: nat)
    ensures n in {256, 128, 64, 32}
    ensures n == 32 <==> GetLodLevel(distance) == Culled
  {
    match GetLodLevel(distance)
    case High => 256
    case Medium => 128
    case Low => 64
    case Culled => 32
  }

  /** The terrain mesh gets no finer with distance. */
  lemma TerrainSegmentsMonotone(near: real, far: real)
    requires near <= far
    ensures GetTerrainSegments(far) <= GetTerrainSegments(near)
  {
    LodMonotone(near, far);
  }
}
