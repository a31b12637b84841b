/** Folding angles into the half-open interval (-PI, PI]. */
module Angles {
  import opened Geometry

  /** `angle` lies in (-PI, PI]. */
  predicate IsNormalized(angle: real) {
    -PI < angle <= PI
  }

  /** `a` and `b` name the same direction: they differ by whole turns. */
  ghost predicate SameDirection(a: real, b: real) {
    exists k: int :: b == a + Turns(k)
  }

  /** The source's `normalizeAngle`: add a full turn while the angle is at or
      below -PI, then take one off while it is above PI. The result is the
      one angle of (-PI, PI] with the same direction, and an angle already
      there is returned unchanged. */
  method NormalizeAngle(angle: real) returns (r: real)
    ensures IsNormalized(r)
    ensures SameDirection(angle, r)
    ensures IsNormalized(angle) ==> r == angle
  {
    r := angle;
    ghost var k: int := 0;
    while r <= -PI
      invariant r == angle + Turns(k)
      invariant -PI < angle ==> k == 0
      decreases (-r).Floor
    {
      r := r + PI * 2.0;
      k := k + 1;
    }
    while r > PI
      invariant -PI < r
      invariant r == angle + Turns(k)
      invariant IsNormalized(angle) ==> k == 0
      decreases r.Floor
    {
      r := r - PI * 2.0;
      k := k - 1;
    }
  }

  /** Two angles of (-PI, PI] with the same direction are equal, so the result
      of `NormalizeAngle` is determined by the direction of its input alone. */
  lemma NormalizedDirectionIsUnique(a: real, b: real)
    requires IsNormalized(a) && IsNormalized(b)
    requires SameDirection(a, b)
    ensures a == b
  {
  }
}
