/** The parts of Python's `math` module the simulation uses. The trigonometric functions and
    `hypot` are not given a meaning: every operation that needs them takes a `MathLib` value. */
module Geometry {

  /** `math.pi` */
  const Pi: real := 3.141592653589793

  datatype MathLib = MathLib(
    sin: real -> real,
    cos: real -> real,
    atan2: (real, real) -> real,
    hypot: (real, real) -> real)

  /** A `hypot` that really is the Euclidean length of `(dx, dy)`. */
  ghost predicate HypotSound(m: MathLib)
  {
    forall dx: real, dy: real :: 0.0 <= m.hypot(dx, dy) && m.hypot(dx, dy) * m.hypot(dx, dy) == dx * dx + dy * dy
  }
}
