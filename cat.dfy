/** The cat of hungrycat/game.js, the player's inputs and how one frame steers the cat. */
module CatMotion {
  import opened Geometry

  const CatWidth: real := 96.0
  const CatHeight: real := 72.0
  /** The cat's left edge never comes closer than this to either side of the view. */
  const Margin: real := 16.0
  const StartX: real := ViewWidth / 2.0
  /** The line the cat stands on. */
  const CatY: real := ViewHeight - 96.0
  /** Rightmost position of the cat's left edge. */
  const MaxCatX: real := ViewWidth - CatWidth - Margin
  /** Tilt readings are kept within this many degrees either side. */
  const TiltRange: real := 45.0
  // The cat's top speed (380 pixels per second) and acceleration (1800 pixels per
  // second squared) are written as literals where they multiply, to keep the
  // arithmetic linear for the verifier.

  datatype Cat = Cat(x: real, y: real, velocityX: real)
  {
    function Box(): Rect { Rect(x, y, CatWidth, CatHeight) }
  }

  /** `inputs`: which arrow keys (or touch buttons) are held. */
  datatype Inputs = Inputs(left: bool, right: bool)

  /** `tilt`: whether device orientation steers the cat, and the last left-right angle. */
  datatype Tilt = Tilt(active: bool, gamma: real)

  /** The desired direction: left and right keys add -1 and +1, an active tilt adds its
      angle scaled so that 30 degrees is full speed, and the sum is clamped to [-1, 1]. */
  function Direction(inputs: Inputs, tilt: Tilt): (dir: real)
    ensures -1.0 <= dir <= 1.0
    ensures !tilt.active ==>
            dir == (if inputs.right then 1.0 else 0.0) - (if inputs.left then 1.0 else 0.0)
    ensures tilt.active && inputs.left == inputs.right ==> dir == Clamp(tilt.gamma / 30.0, -1.0, 1.0)
  {
    var keys := (if inputs.left then -1.0 else 0.0) + (if inputs.right then 1.0 else 0.0);
    Clamp(if tilt.active then keys + Clamp(tilt.gamma / 30.0, -1.0, 1.0) else keys, -1.0, 1.0)
  }

  /** The velocity moves toward the desired velocity `dir * 380` by at most
      `1800 * dt`, without overshooting it. */
  function Accelerate(v: real, dir: real, dt: real): (w: real)
    requires dt >= 0.0
    ensures Abs(w - v) <= 1800.0 * dt
    ensures v <= dir * 380.0 ==> v <= w <= dir * 380.0
    ensures dir * 380.0 <= v ==> dir * 380.0 <= w <= v
  {
    v + Clamp(dir * 380.0 - v, -1800.0 * dt, 1800.0 * dt)
  }

  /** With (almost) no desired direction and a speed above 2, the velocity is scaled by
      the friction factor (`Math.pow(0.0001, dt)`, which lies in (0, 1]): it keeps its
      sign and does not grow. */
  function Friction(v: real, dir: real, factor: real): (w: real)
    requires 0.0 < factor <= 1.0
    ensures Abs(w) <= Abs(v)
    ensures (v >= 0.0 ==> w >= 0.0) && (v <= 0.0 ==> w <= 0.0)
    ensures Abs(dir) >= 0.05 || Abs(v) <= 2.0 ==> w == v
  {
    if Abs(dir) < 0.05 && Abs(v) > 2.0 then
      ScaleKeepsSign(v, factor);
      v * factor
    else v
  }

  /** Where a left edge at `x` ends up after moving at velocity `v` for `dt` seconds. */
  function Advance(x: real, v: real, dt: real): real { x + v * dt }

  /** The cat after one step: its new velocity is no faster than the accelerated one,
      it moves by `velocity * dt` and is then held between the margins. */
  function MoveCat(c: Cat, dir: real, dt: real, factor: real): (moved: Cat)
    requires dt >= 0.0 && 0.0 < factor <= 1.0
    ensures Margin <= moved.x <= MaxCatX && moved.y == c.y
    ensures Abs(moved.velocityX) <= Abs(Accelerate(c.velocityX, dir, dt))
    ensures Margin <= Advance(c.x, moved.velocityX, dt) <= MaxCatX ==>
            moved.x == Advance(c.x, moved.velocityX, dt)
  {
    var v := Friction(Accelerate(c.velocityX, dir, dt), dir, factor);
    Cat(Clamp(Advance(c.x, v, dt), Margin, MaxCatX), c.y, v)
  }
}
