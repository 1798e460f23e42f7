/** The logical view, axis-aligned rectangles and the clamping helper of hungrycat/game.js. */
module Geometry {

  /** Logical view size, in logical pixels. */
  const ViewWidth: real := 800.0
  const ViewHeight: real := 450.0

  function Min(a: real, b: real): real { if a <= b then a else b }
  function Max(a: real, b: real): real { if a >= b then a else b }
  function Abs(a: real): real { if a >= 0.0 then a else -a }

  /** A rectangle given by its top-left corner and its extent; y grows downwards. */
  datatype Rect = Rect(x: real, y: real, width: real, height: real)

  /** The overlap test of `rectsIntersect`: strict on all four sides. */
  predicate RectsIntersect(a: Rect, b: Rect) {
    a.x < b.x + b.width &&
    a.x + a.width > b.x &&
    a.y < b.y + b.height &&
    a.y + a.height > b.y
  }

  /** The point (px, py) lies strictly inside r, not on its border. */
  ghost predicate Interior(px: real, py: real, r: Rect) {
    r.x < px < r.x + r.width && r.y < py < r.y + r.height
  }

  /** Two non-degenerate rectangles intersect exactly when some point lies strictly
      inside both: sharing only an edge or a corner is not an intersection. */
  lemma IntersectIffSharedInterior(a: Rect, b: Rect)
    requires a.width > 0.0 && a.height > 0.0 && b.width > 0.0 && b.height > 0.0
    ensures RectsIntersect(a, b) <==> exists px, py :: Interior(px, py, a) && Interior(px, py, b)
  {
    if RectsIntersect(a, b) {
      var px := (Max(a.x, b.x) + Min(a.x + a.width, b.x + b.width)) / 2.0;
      var py := (Max(a.y, b.y) + Min(a.y + a.height, b.y + b.height)) / 2.0;
      assert Interior(px, py, a) && Interior(px, py, b);
    }
  }

  /** The test does not depend on the order of its arguments. */
  lemma IntersectSymmetric(a: Rect, b: Rect)
    ensures RectsIntersect(a, b) <==> RectsIntersect(b, a)
  {
  }

  /** Rectangles that touch along a side, or lie apart on one axis, never intersect. */
  lemma TouchingDoesNotIntersect(a: Rect, b: Rect)
    requires b.x >= a.x + a.width || a.x >= b.x + b.width ||
             b.y >= a.y + a.height || a.y >= b.y + b.height
    ensures !RectsIntersect(a, b)
  {
  }

  /** `clamp(v, a, b)`, written as `Math.max(a, Math.min(b, v))`: when the bounds are
      crossed the lower bound wins. */
  function Clamp(v: real, lo: real, hi: real): (r: real)
    ensures lo <= hi ==> lo <= r <= hi
    ensures lo <= v <= hi ==> r == v
  {
    Max(lo, Min(hi, v))
  }

  /** Outside the range the nearer bound is returned; when the bounds are crossed the
      lower bound wins. */
  lemma ClampOutside(v: real, lo: real, hi: real)
    ensures lo <= hi && v < lo ==> Clamp(v, lo, hi) == lo
    ensures lo <= hi && hi < v ==> Clamp(v, lo, hi) == hi
    ensures hi < lo ==> Clamp(v, lo, hi) == lo
  {
  }

  /** Scaling a non-negative amount by a factor in [0, 1] does not enlarge it. */
  lemma ScaleBelow(a: real, f: real)
    requires a >= 0.0 && 0.0 <= f <= 1.0
    ensures 0.0 <= a * f <= a
  {
    assert a * f <= a * 1.0;
  }

  /** Scaling a non-positive amount by a factor in [0, 1] does not enlarge its magnitude. */
  lemma ScaleAbove(a: real, f: real)
    requires a <= 0.0 && 0.0 <= f <= 1.0
    ensures a <= a * f <= 0.0
  {
    assert a * f >= a * 1.0;
  }

  /** Scaling by a factor in [0, 1] keeps the sign and does not grow the magnitude. */
  lemma ScaleKeepsSign(v: real, f: real)
    requires 0.0 <= f <= 1.0
    ensures Abs(v * f) <= Abs(v)
    ensures (v >= 0.0 ==> v * f >= 0.0) && (v <= 0.0 ==> v * f <= 0.0)
  {
    var w := v * f;
    if v >= 0.0 {
      ScaleBelow(v, f);
      assert 0.0 <= w <= v;
    } else {
      ScaleAbove(v, f);
      assert v <= w <= 0.0;
    }
  }
}
