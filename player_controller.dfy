/**
 * The on-foot player: the world boundary clamp with its warning zone, the
 * per-frame movement update with gravity and the ground at height 10, and
 * the jump that only a grounded player can make.
 */
module PlayerController {
  const SPEED: real := 50.0
  const JUMP_FORCE: real := 10.0
  const GRAVITY: real := -20.0
  const GROUND_HEIGHT: real := 10.0

  /** `worldBounds`: the playable square and the distance from the centre where the warning starts. */
  const BOUNDS_MIN: real := -7500.0
  const BOUNDS_MAX: real := 7500.0
  const WARNING_DISTANCE: real := 7000.0

  function Abs(v: real): real
  {
    if v < 0.0 then -v else v
  }

  /** `atWarningZone`: either coordinate more than 7000 from the centre. */
  predicate AtWarningZone(x: real, z: real)
  {
    Abs(x) > WARNING_DISTANCE || Abs(z) > WARNING_DISTANCE
  }

  /** The hard clamp on one axis: the position and velocity after it. */
  function ClampAxis(p: real, v: real): (r: (real, real))
    ensures BOUNDS_MIN <= r.0 <= BOUNDS_MAX
    ensures BOUNDS_MIN <= p <= BOUNDS_MAX ==> r == (p, v)
    ensures p < BOUNDS_MIN ==> r == (BOUNDS_MIN, 0.0)
    ensures p > BOUNDS_MAX ==> r == (BOUNDS_MAX, 0.0)
  {
    if p < BOUNDS_MIN then (BOUNDS_MIN, 0.0)
    else if p > BOUNDS_MAX then (BOUNDS_MAX, 0.0)
    else (p, v)
  }

  /** The clamp is idempotent: a second clamp changes nothing. */
  lemma ClampIdempotent(p: real, v: real)
    ensures ClampAxis(ClampAxis(p, v).0, ClampAxis(p, v).1) == ClampAxis(p, v)
  {
  }

  /**
   * The warning is computed before the clamp, but the clamp never moves a
   * position into or out of the warning zone, so the order does not show.
   */
  lemma WarningIgnoresClamp(x: real, vx: real, z: real, vz: real)
    ensures AtWarningZone(x, z) <==> AtWarningZone(ClampAxis(x, vx).0, ClampAxis(z, vz).0)
  {
  }

  /** A horizontal velocity component after the input: the heading's component at full speed, or 0.9 of the old one. */
  function Steered(moving: bool, dir: real, v: real): real
  {
    if moving then dir * SPEED else v * 0.9
  }

  /** The vertical velocity after gravity, which acts only while airborne. */
  function Fallen(grounded: bool, vy: real, delta: real): real
  {
    if grounded then vy else vy + GRAVITY * delta
  }

  /** One position component after moving at `v` for `delta` seconds. */
  function Moved(p: real, v: real, delta: real): real
  {
    p + v * delta
  }

  /** `position`, `velocity`, `isGrounded` and `boundaryWarning`. */
  class Player {
    var x: real
    var y: real
    var z: real
    var vx: real
    var vy: real
    var vz: real
    var isGrounded: bool
    var boundaryWarning: bool

    /** Inside the bounds and not below the ground. */
    predicate Valid()
      reads this
    {
      BOUNDS_MIN <= x <= BOUNDS_MAX && BOUNDS_MIN <= z <= BOUNDS_MAX && y >= GROUND_HEIGHT
    }

    constructor ()
      ensures Valid() && x == 0.0 && y == 10.0 && z == 0.0 && vx == 0.0 && vy == 0.0 && vz == 0.0
      ensures isGrounded && !boundaryWarning
    {
      x, y, z := 0.0, 10.0, 0.0;
      vx, vy, vz := 0.0, 0.0, 0.0;
      isGrounded := true;
      boundaryWarning := false;
    }

    /** The keydown handler: `Space` jumps only when grounded. */
    method KeyDown(code: string)
      modifies this
      ensures x == old(x) && y == old(y) && z == old(z) && vx == old(vx) && vz == old(vz)
      ensures boundaryWarning == old(boundaryWarning)
      ensures code == "Space" && old(isGrounded) ==> vy == JUMP_FORCE && !isGrounded
      ensures !(code == "Space" && old(isGrounded)) ==> vy == old(vy) && isGrounded == old(isGrounded)
    {
      if code == "Space" && isGrounded {
        vy := JUMP_FORCE;
        isGrounded := false;
      }
    }

    /** `setPosition(x, y, z)`. */
    method SetPosition(x: real, y: real, z: real)
      modifies this
      ensures this.x == x && this.y == y && this.z == z
      ensures vx == old(vx) && vy == old(vy) && vz == old(vz)
      ensures isGrounded == old(isGrounded) && boundaryWarning == old(boundaryWarning)
    {
      this.x, this.y, this.z := x, y, z;
    }

    /**
     * `enforceBoundaries()`: the warning flag follows the zone of the
     * unclamped position, then each axis is clamped, a clamped axis losing
     * its velocity.
     */
    method EnforceBoundaries()
      modifies this
      ensures boundaryWarning == AtWarningZone(old(x), old(z))
      ensures (x, vx) == ClampAxis(old(x), old(vx)) && (z, vz) == ClampAxis(old(z), old(vz))
      ensures y == old(y) && vy == old(vy) && isGrounded == old(isGrounded)
    {
      var atWarningZone := AtWarningZone(x, z);
      if atWarningZone && !boundaryWarning {
        boundaryWarning := true;
      } else if !atWarningZone && boundaryWarning {
        boundaryWarning := false;
      }
      if x < BOUNDS_MIN {
        x, vx := BOUNDS_MIN, 0.0;
      } else if x > BOUNDS_MAX {
        x, vx := BOUNDS_MAX, 0.0;
      }
      if z < BOUNDS_MIN {
        z, vz := BOUNDS_MIN, 0.0;
      } else if z > BOUNDS_MAX {
        z, vz := BOUNDS_MAX, 0.0;
      }
    }

    /**
     * `update(delta)`: the horizontal velocity is set from the heading when
     * a movement key is held (`dirX`, `dirZ` being the normalised direction)
     * and decays by 0.9 otherwise; gravity acts while airborne; the player
     * moves, is clamped to the bounds and lands on the ground at 10.
     */
    method Update(delta: real, moving: bool, dirX: real, dirZ: real)
      modifies this
      ensures Valid()
      ensures (x, vx) == ClampAxis(Moved(old(x), Steered(moving, dirX, old(vx)), delta), Steered(moving, dirX, old(vx)))
      ensures (z, vz) == ClampAxis(Moved(old(z), Steered(moving, dirZ, old(vz)), delta), Steered(moving, dirZ, old(vz)))
      ensures boundaryWarning == AtWarningZone(Moved(old(x), Steered(moving, dirX, old(vx)), delta),
        Moved(old(z), Steered(moving, dirZ, old(vz)), delta))
      ensures Moved(old(y), Fallen(old(isGrounded), old(vy), delta), delta) < GROUND_HEIGHT ==>
        y == GROUND_HEIGHT && vy == 0.0 && isGrounded
      ensures Moved(old(y), Fallen(old(isGrounded), old(vy), delta), delta) >= GROUND_HEIGHT ==>
        y == Moved(old(y), Fallen(old(isGrounded), old(vy), delta), delta) &&
        vy == Fallen(old(isGrounded), old(vy), delta) && isGrounded == old(isGrounded)
    {
      vx := Steered(moving, dirX, vx);
      vz := Steered(moving, dirZ, vz);
      vy := Fallen(isGrounded, vy, delta);
      x := Moved(x, vx, delta);
      y := Moved(y, vy, delta);
      z := Moved(z, vz, delta);
      EnforceBoundaries();
      if y < GROUND_HEIGHT {
        y := GROUND_HEIGHT;
        vy := 0.0;
        isGrounded := true;
      }
    }
  }
}
