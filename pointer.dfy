/**
 * The pointer state tracker's clamp: each coordinate is clamped on its own
 * to [0, size] of the first output of the current workspace, and a point
 * is left alone when that workspace has no output. Only the output's size
 * is used, not its origin.
 */
module Pointer {
  import opened Types

  /** `v.max(0.0).min(hi)`, for finite values. */
  function ClampAxis(v: real, hi: int): (r: real)
    ensures hi >= 0 ==> 0.0 <= r <= hi as real
    ensures 0.0 <= v <= hi as real ==> r == v
    ensures v < 0.0 && hi >= 0 ==> r == 0.0
    ensures v > hi as real ==> r == hi as real
  {
    var lo := if v < 0.0 then 0.0 else v;
    if lo > hi as real then hi as real else lo
  }

  /** The point `p` lies in [0, w] x [0, h] of output `out`, or there is no output. */
  predicate OnOutput(out: Option<Rect>, p: Point)
  {
    out.None? || (0.0 <= p.x <= out.value.w as real && 0.0 <= p.y <= out.value.h as real)
  }

  /** `clamp_coords`, given the first output of the current workspace, if any. */
  function Clamp(out: Option<Rect>, p: Point): (r: Point)
    ensures out.None? ==> r == p
    ensures out.Some? && out.value.w >= 0 && out.value.h >= 0 ==> OnOutput(out, r)
    ensures OnOutput(out, p) ==> r == p
  {
    match out
    case None => p
    case Some(geo) => Point(ClampAxis(p.x, geo.w), ClampAxis(p.y, geo.h))
  }

  /** Clamping twice is clamping once, whatever the output's size. */
  lemma ClampIdempotent(out: Option<Rect>, p: Point)
    ensures Clamp(out, Clamp(out, p)) == Clamp(out, p)
  {
  }

  /** Each coordinate of the result depends only on the same coordinate of the input. */
  lemma ClampPerCoordinate(out: Option<Rect>, p: Point, q: Point)
    ensures p.x == q.x ==> Clamp(out, p).x == Clamp(out, q).x
    ensures p.y == q.y ==> Clamp(out, p).y == Clamp(out, q).y
  {
  }

  /**
   * The clamp uses only the output's size: for an output whose origin is
   * not (0, 0), a point inside the output's own rectangle can be moved.
   */
  lemma ClampIgnoresOrigin()
    ensures var out := Some(Rect(800, 0, 800, 600));
            Clamp(out, Point(1000.0, 10.0)) == Point(800.0, 10.0)
  {
  }
}
