/** Shared numeric vocabulary of the corner detector. Java doubles are modelled
    as mathematical reals: no rounding, no NaN, no infinities. */
module Geometry {

  /** The value of Java's `Math.PI`: the double nearest to pi, written out exactly. */
  const PI: real := 3.141592653589793115997963468544185161590576171875

  /** `Math.abs` on doubles. */
  function Abs(x: real): real {
    if x < 0.0 then -x else x
  }

  /** `k` full turns, in radians. */
  function Turns(k: int): real {
    2.0 * PI * (k as real)
  }

  /** OpenCV's `Point`: an immutable pair of coordinates. */
  datatype Point = Point(x: real, y: real)
}
