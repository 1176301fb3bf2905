/** `Environment.bounce` of PyParticles.py: reflection of a particle off the walls of the arena. */
module Walls {
  import opened Geometry
  import opened Particles

  /** The arena's dimensions and the elasticity of its walls. */
  datatype Arena = Arena(width: real, height: real, elasticity: real)

  /** The particle's disc lies within the walls. */
  predicate Inside(a: Arena, p: Particle)
  {
    p.size <= p.x <= a.width - p.size && p.size <= p.y <= a.height - p.size
  }

  /** The disc sticks out through the right or the left wall. */
  predicate CrossesX(a: Arena, p: Particle)
  {
    p.x > a.width - p.size || p.x < p.size
  }

  /** The disc sticks out through the bottom or the top wall. */
  predicate CrossesY(a: Arena, p: Particle)
  {
    p.y > a.height - p.size || p.y < p.size
  }

  /** The x-axis correction: mirror about the right wall, or else about the left wall; negate the
      heading and damp the speed once. */
  function BounceX(a: Arena, p: Particle): Particle
  {
    if p.x > a.width - p.size then
      p.(x := 2.0 * (a.width - p.size) - p.x, angle := -p.angle, speed := p.speed * a.elasticity)
    else if p.x < p.size then
      p.(x := 2.0 * p.size - p.x, angle := -p.angle, speed := p.speed * a.elasticity)
    else
      p
  }

  /** The y-axis correction: mirror about the bottom wall, or else about the top wall; complement
      the heading and damp the speed once. */
  function BounceY(a: Arena, p: Particle): Particle
  {
    if p.y > a.height - p.size then
      p.(y := 2.0 * (a.height - p.size) - p.y, angle := Pi - p.angle, speed := p.speed * a.elasticity)
    else if p.y < p.size then
      p.(y := 2.0 * p.size - p.y, angle := Pi - p.angle, speed := p.speed * a.elasticity)
    else
      p
  }

  /** `bounce(particle)`: the x test and the y test are independent, so a corner hit applies both
      corrections. A particle inside the walls is left alone (hence bouncing is idempotent once
      inside); only position, heading and speed change; each crossed axis damps the speed once;
      a particle past a wall ends up strictly on the inner side of it, and one that overshot by
      no more than the free room ends up inside. */
  function Bounce(a: Arena, p: Particle): (r: Particle)
    ensures Inside(a, p) ==> r == p
    ensures r == p.(x := r.x, y := r.y, angle := r.angle, speed := r.speed)
    ensures r.speed ==
      p.speed * (if CrossesX(a, p) then a.elasticity else 1.0) * (if CrossesY(a, p) then a.elasticity else 1.0)
    ensures r.angle ==
      var turned := if CrossesX(a, p) then -p.angle else p.angle;
      if CrossesY(a, p) then Pi - turned else turned
    ensures !CrossesX(a, p) ==> r.x == p.x
    ensures !CrossesY(a, p) ==> r.y == p.y
    ensures p.x > a.width - p.size ==> r.x == 2.0 * (a.width - p.size) - p.x && r.x < a.width - p.size
    ensures p.x < p.size && p.x <= a.width - p.size ==> r.x == 2.0 * p.size - p.x && r.x > p.size
    ensures p.y > a.height - p.size ==> r.y == 2.0 * (a.height - p.size) - p.y && r.y < a.height - p.size
    ensures p.y < p.size && p.y <= a.height - p.size ==> r.y == 2.0 * p.size - p.y && r.y > p.size
    ensures (3.0 * p.size - a.width <= p.x <= 2.0 * a.width - 3.0 * p.size &&
             3.0 * p.size - a.height <= p.y <= 2.0 * a.height - 3.0 * p.size) ==> Inside(a, r)
  {
    BounceY(a, BounceX(a, p))
  }

  /** Bouncing does not always bring a particle back inside: one that overshot the right wall by
      more than the room between the walls is mirrored to a point beyond the left wall. */
  lemma FarOvershootStaysOutside(p: Particle)
    requires p.size == 10.0 && p.x == 200.0 && p.y == 50.0
    ensures var r := Bounce(Arena(100.0, 100.0, 1.0), p); r.x == -20.0 && !Inside(Arena(100.0, 100.0, 1.0), r)
  {
  }
}
