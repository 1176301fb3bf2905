/** Function `collide` of PyParticles.py: the contact rule between two particles. */
module Collisions {
  import opened Geometry
  import opened Diseases
  import opened Particles

  /** The overlap test of the source: the centres are closer than the sum of the radii. */
  predicate Overlaps(m: MathLib, p1: Particle, p2: Particle)
  {
    m.hypot(p1.x - p2.x, p1.y - p2.y) < p1.size + p2.size
  }

  /** With a genuine `hypot` the overlap test is the square-distance test. */
  lemma OverlapBySquares(m: MathLib, p1: Particle, p2: Particle)
    requires HypotSound(m)
    requires 0.0 <= p1.size + p2.size
    ensures Overlaps(m, p1, p2) <==>
      (p1.x - p2.x) * (p1.x - p2.x) + (p1.y - p2.y) * (p1.y - p2.y) < (p1.size + p2.size) * (p1.size + p2.size)
  {
    var dx, dy := p1.x - p2.x, p1.y - p2.y;
    var h, s := m.hypot(dx, dy), p1.size + p2.size;
    assert 0.0 <= h && h * h == dx * dx + dy * dy;
    SquaresOrdered(h, s);
  }

  /** For non-negative reals, comparing squares is comparing the numbers. */
  lemma SquaresOrdered(h: real, s: real)
    requires 0.0 <= h && 0.0 <= s
    ensures h < s <==> h * h < s * s
  {
    if h < s {
      StrictSquares(h, s);
    } else if s < h {
      StrictSquares(s, h);
    }
  }

  lemma StrictSquares(a: real, b: real)
    requires 0.0 <= a < b
    ensures a * a < b * b
  {
    ProductPositive(b - a, b + a);
    assert (b - a) * (b + a) == b * b - a * a;
  }

  lemma ProductPositive(u: real, v: real)
    requires 0.0 < u && 0.0 < v
    ensures 0.0 < u * v
  {
  }

  /** The infection rule on the cached statuses: an Infected partner sets a Healthy particle's
      timer to 1. */
  function Transmit(p1: Particle, p2: Particle): (Particle, Particle)
  {
    if p1.infectionStatus == Infected && p2.infectionStatus == Healthy then
      (p1, p2.(disease := p2.disease.(daysInfected := 1)))
    else if p2.infectionStatus == Infected && p1.infectionStatus == Healthy then
      (p1.(disease := p1.disease.(daysInfected := 1)), p2)
    else
      (p1, p2)
  }

  /** `collide(p1, p2)`: the contact of two particles, as the source computes it. */
  function Collide(m: MathLib, p1: Particle, p2: Particle): (Particle, Particle)
  {
    var dx := p1.x - p2.x;
    var dy := p1.y - p2.y;
    var dist := m.hypot(dx, dy);
    if dist < p1.size + p2.size then
      var angle := m.atan2(dy, dx) + 0.5 * Pi;
      var tangent := m.atan2(dy, dx);
      var elasticity := p1.elasticity * p2.elasticity;
      var overlap := 0.5 * (p1.size + p2.size - dist + 1.0);
      var q1 := p1.(angle := 2.0 * tangent - p1.angle,
                    speed := p1.speed * elasticity,
                    x := p1.x + m.sin(angle) * overlap,
                    y := p1.y - m.cos(angle) * overlap);
      var q2 := p2.(angle := 2.0 * tangent - p2.angle,
                    speed := p2.speed * elasticity,
                    x := p2.x - m.sin(angle) * overlap,
                    y := p2.y + m.cos(angle) * overlap);
      Transmit(q1, q2)
    else
      (p1, p2)
  }

  /** What a contact does. Apart, nothing changes. On overlap: both headings are mirrored about
      the same tangent, both speeds are damped by the product of the elasticities, the bodies are
      pushed apart by equal and opposite displacements (so the sums of the coordinates are
      kept), and an Infected particle infects a Healthy
      partner, judged by the statuses cached before the call. Nothing else changes. */
  lemma CollideOutcome(m: MathLib, p1: Particle, p2: Particle)
    ensures var r := Collide(m, p1, p2);
      var o, e := Overlaps(m, p1, p2), p1.elasticity * p2.elasticity;
      (!o ==> r == (p1, p2)) &&
      (o ==> r.0.speed == p1.speed * e && r.1.speed == p2.speed * e) &&
      (o ==> r.0.angle + p1.angle == r.1.angle + p2.angle == 2.0 * m.atan2(p1.y - p2.y, p1.x - p2.x)) &&
      r.0.x + r.1.x == p1.x + p2.x && r.0.y + r.1.y == p1.y + p2.y &&
      r.0 == p1.(x := r.0.x, y := r.0.y, angle := r.0.angle, speed := r.0.speed, disease := r.0.disease) &&
      r.1 == p2.(x := r.1.x, y := r.1.y, angle := r.1.angle, speed := r.1.speed, disease := r.1.disease) &&
      r.0.disease == (if o && p2.infectionStatus == Infected && p1.infectionStatus == Healthy
                      then p1.disease.(daysInfected := 1) else p1.disease) &&
      r.1.disease == (if o && p1.infectionStatus == Infected && p2.infectionStatus == Healthy
                      then p2.disease.(daysInfected := 1) else p2.disease)
  {
  }

  /** Two particles of size 5 whose centres are 8 apart: the Healthy one catches the infection of
      the Infected one and nothing happens to the infected one's timer. */
  lemma ContactInfectsHealthy(m: MathLib, sick: Particle, well: Particle)
    requires sick.size == 5.0 && well.size == 5.0
    requires m.hypot(sick.x - well.x, sick.y - well.y) == 8.0
    requires sick.infectionStatus == Infected && well.infectionStatus == Healthy
    ensures Collide(m, sick, well).1.disease.daysInfected == 1
    ensures Collide(m, sick, well).0.disease == sick.disease
  {
    CollideOutcome(m, sick, well);
  }
}
