/** The line normaliser: from two points on a line to its polar form. */
module Polar {
  import opened Geometry
  import opened LineParameters
  import opened Angles

  /** Slope of the non-vertical line through `p1` and `p2`. */
  function Slope(p1: Point, p2: Point): real
    requires p1.x != p2.x
  {
    (p2.y - p1.y) / (p2.x - p1.x)
  }

  /** The y-intercept of the line of slope `m` through `p`. */
  function Intercept(p: Point, m: real): real {
    p.y - m * p.x
  }

  /** `m * m + 1`, the squared length of the direction (1, m) of a line of slope `m`. */
  function SquaredDirection(m: real): (r: real)
    ensures 1.0 <= r
  {
    m * m + 1.0
  }

  /** Dividing a non-negative distance by a positive norm keeps its sign. */
  lemma DivideByNorm(d: real, s: real)
    requires 0.0 <= d && 0.0 < s
    ensures 0.0 <= d / s && Abs(d / s) == d / s
    ensures Abs(-d / s) == d / s
    ensures 0.0 < d ==> -d / s < 0.0
  {
  }

  /** The source's `twoPointsToPolar`. `Math.atan` and `Math.sqrt` are taken
      as parameters; only `sqrt` being positive from 1 on is assumed. A
      vertical pair (equal x, identical points included) gives rho = x and
      theta = 0. Otherwise |rho| is the distance |c| / sqrt(m*m + 1) from the
      origin to the line y = m*x + c, and rho is negative exactly for a
      rising line with a negative intercept. Theta is the normalised
      PI/2 - atan(-m) for a falling line, PI/2 + atan(m) for a rising one,
      and PI/2 for a horizontal one; it always lies in (-PI, PI]. */
  method TwoPointsToPolar(p1: Point, p2: Point, atan: real -> real, sqrt: real -> real) returns (l: Line)
    requires forall v: real :: 1.0 <= v ==> 0.0 < sqrt(v)
    ensures IsNormalized(l.theta)
    ensures p1.x == p2.x ==> l == Line(p2.x, 0.0)
    ensures p1.x != p2.x ==>
              var m := Slope(p1, p2);
              && Abs(l.rho) == Abs(Intercept(p1, m)) / sqrt(SquaredDirection(m))
              && (l.rho < 0.0 <==> 0.0 < m && Intercept(p1, m) < 0.0)
              && (m < 0.0 ==> SameDirection(PI / 2.0 - atan(-m), l.theta))
              && (0.0 < m ==> SameDirection(PI / 2.0 + atan(m), l.theta))
              && (m == 0.0 ==> l.theta == PI / 2.0)
  {
    if p2.x == p1.x {
      var x := p2.x;
      return Line(x, 0.0);
    }
    var m := Slope(p1, p2);
    var s := sqrt(SquaredDirection(m));
    var d := Abs(-p1.y + m * p1.x);
    assert d == Abs(Intercept(p1, m));
    DivideByNorm(d, s);
    if m < 0.0 {
      var theta := NormalizeAngle(PI / 2.0 - atan(-m));
      var rho := d / s;
      return Line(rho, theta);
    } else if m > 0.0 {
      var c := p1.y - m * p1.x;
      if c < 0.0 {
        var theta := NormalizeAngle(PI / 2.0 + atan(m));
        var rho := -d / s;
        return Line(rho, theta);
      } else {
        var theta := NormalizeAngle(PI / 2.0 + atan(m));
        var rho := d / s;
        return Line(rho, theta);
      }
    }
    var theta := PI / 180.0 * 90.0;
    var rho := d / s;
    return Line(rho, theta);
  }
}
