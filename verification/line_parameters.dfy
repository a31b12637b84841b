/** The polar line value type shared by every stage of the detector. */
module LineParameters {

  /** A line in polar form: `rho` is the signed distance from the origin, `theta`
      the angle of the normal in radians. The source class has two private
      fields, a constructor that stores them and two getters, and no setter, so
      a value never changes after construction: an immutable datatype, whose
      destructors `rho` and `theta` are the getters. */
  datatype Line = Line(rho: real, theta: real)

  /** The constructor stores both arguments and the getters give them back;
      a line is nothing more than its two parameters. */
  lemma ConstructorAndGetters(rho: real, theta: real, l: Line)
    ensures Line(rho, theta).rho == rho && Line(rho, theta).theta == theta
    ensures Line(l.rho, l.theta) == l
    ensures l == Line(rho, theta) <==> l.rho == rho && l.theta == theta
  {
  }
}
