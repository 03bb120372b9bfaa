/**
 * The exponential easing step shared by the canvas grids: each animation
 * frame moves a value a fixed fraction of the way toward its target.
 */
module Easing {

  /** `speed` in AnimatedBlock, `lerpFactor` in CanvasAnimatedBackground. */
  const LerpFactor: real := 0.15

  function Abs(x: real): (a: real)
    ensures a >= 0.0 && (a == x || a == -x)
  {
    if x >= 0.0 then x else -x
  }

  /** `r` lies on the closed segment from `v` to the target `t`. */
  predicate Toward(v: real, r: real, t: real)
  {
    (v <= t ==> v <= r <= t) && (t <= v ==> t <= r <= v)
  }

  /**
   * `v += (t - v) * 0.15`. The new value lies between the old value and the
   * target, and the gap to the target shrinks to 85% of what it was, so a
   * value already at its target stays there.
   */
  function Ease(v: real, t: real): (r: real)
    ensures Toward(v, r, t)
    ensures r - t == (1.0 - LerpFactor) * (v - t)
    ensures v == t ==> r == t
  {
    v + (t - v) * LerpFactor
  }
}
