/** Class `Particle` of PyParticles.py: a circle with a position, a speed and a heading, an owned
    disease record, and the status and colour derived from that record. */
module Particles {
  import opened Diseases
  import opened Geometry

  datatype Status = Healthy | Incubation | Infected | Recovered

  datatype Option<T> = None | Some(value: T)
  {
    function GetOr(default: T): T
    {
      match this
      case Some(v) => v
      case None => default
    }
  }

  /** An RGB triple as handed to the renderer. */
  datatype Colour = Colour(red: int, green: int, blue: int)

  /** `Particle.__init__` leaves `drag` at 1 unless given; `addParticles` never gives it. */
  const DefaultDrag: real := 1.0

  /** `mass` and `thickness` are carried by the source but never read by the engine. */
  datatype Particle = Particle(
    x: real,
    y: real,
    size: real,
    speed: real,
    angle: real,
    drag: real,
    elasticity: real,
    disease: Disease,
    infectionStatus: Status,
    colour: Colour,
    inMeasure: bool)

  /** Position along Healthy -> Incubation -> Infected -> Recovered. */
  function Rank(s: Status): nat
  {
    match s
    case Healthy => 0
    case Incubation => 1
    case Infected => 2
    case Recovered => 3
  }

  /** The status derived from a disease record, tested in the source's order. Each status holds
      exactly on its own range of the timer. */
  function InfectionStatus(d: Disease): (s: Status)
    ensures s == Healthy <==> d.daysInfected == 0
    ensures s == Incubation <==> d.daysInfected != 0 && d.daysInfected < d.incubationTime
    ensures s == Infected <==>
      d.daysInfected != 0 && d.incubationTime <= d.daysInfected < d.incubationTime + d.duration
    ensures s == Recovered <==>
      d.daysInfected != 0 && d.incubationTime <= d.daysInfected && d.incubationTime + d.duration <= d.daysInfected
  {
    if d.daysInfected == 0 then Healthy
    else if d.daysInfected < d.incubationTime then Incubation
    else if d.daysInfected < d.duration + d.incubationTime then Infected
    else Recovered
  }

  /** For a fixed configuration and a timer that has started, the status only moves forward as
      the timer grows. */
  lemma StatusMonotoneInDays(d: Disease, e: Disease)
    requires d.duration == e.duration && d.incubationTime == e.incubationTime
    requires 0 < d.daysInfected <= e.daysInfected
    ensures Rank(InfectionStatus(d)) <= Rank(InfectionStatus(e))
    ensures InfectionStatus(e) != Healthy
  {
  }

  /** Under repeated daily updates the status never moves backwards; a started infection is never
      Healthy again, and a timer that has not started keeps its status for ever. */
  lemma {:induction false} StatusNeverBackwards(d: Disease, k: nat, n: nat)
    requires k <= n
    ensures Rank(InfectionStatus(UpdateN(d, k))) <= Rank(InfectionStatus(UpdateN(d, n)))
    ensures d.daysInfected > 0 ==> InfectionStatus(UpdateN(d, n)) != Healthy
    ensures d.daysInfected <= 0 ==> InfectionStatus(UpdateN(d, n)) == InfectionStatus(d)
  {
    UpdateNExact(d, k);
    UpdateNExact(d, n);
    if d.daysInfected > 0 {
      StatusMonotoneInDays(UpdateN(d, k), UpdateN(d, n));
    }
  }

  /** A started infection is over once the timer has passed incubation plus duration. */
  lemma {:induction false} EventuallyRecovered(d: Disease, n: nat)
    requires d.daysInfected > 0
    requires d.daysInfected + n >= d.incubationTime + d.duration
    requires d.daysInfected + n >= d.incubationTime
    ensures InfectionStatus(UpdateN(d, n)) == Recovered
  {
    UpdateNExact(d, n);
  }

  /** The colour map of `update_color`: a total map on the four statuses that can be read back. */
  function ColourOf(s: Status): (c: Colour)
    ensures StatusOfColour(c) == Some(s)
    ensures 0 <= c.red <= 255 && 0 <= c.green <= 255 && 0 <= c.blue <= 255
  {
    match s
    case Healthy => Colour(0, 0, 255)
    case Incubation => Colour(255, 0, 255)
    case Infected => Colour(255, 0, 0)
    case Recovered => Colour(0, 255, 0)
  }

  /** The inverse of the colour map, for a renderer's colour. */
  function StatusOfColour(c: Colour): Option<Status>
  {
    if c == Colour(0, 0, 255) then Some(Healthy)
    else if c == Colour(255, 0, 255) then Some(Incubation)
    else if c == Colour(255, 0, 0) then Some(Infected)
    else if c == Colour(0, 255, 0) then Some(Recovered)
    else None
  }

  /** The cached status and colour agree with the disease record. */
  predicate Consistent(p: Particle)
  {
    p.infectionStatus == InfectionStatus(p.disease) && p.colour == ColourOf(p.infectionStatus)
  }

  /** `get_infection_status`: recompute the cached status, touching nothing else. */
  function GetInfectionStatus(p: Particle): (r: Particle)
    ensures r == p.(infectionStatus := r.infectionStatus)
    ensures r.infectionStatus == InfectionStatus(p.disease)
  {
    p.(infectionStatus := InfectionStatus(p.disease))
  }

  /** `update_color`: recompute the colour from the cached status, touching nothing else. */
  function UpdateColour(p: Particle): (r: Particle)
    ensures r == p.(colour := r.colour)
    ensures StatusOfColour(r.colour) == Some(p.infectionStatus)
  {
    p.(colour := ColourOf(p.infectionStatus))
  }

  /** The three calls `Environment.update` makes on a particle after its collisions: advance the
      disease by one day, then re-derive status and colour. */
  function Refresh(p: Particle): (r: Particle)
    ensures Consistent(r)
    ensures r == p.(disease := r.disease, infectionStatus := r.infectionStatus, colour := r.colour)
    ensures r.disease == Update(p.disease)
  {
    UpdateColour(GetInfectionStatus(p.(disease := Update(p.disease))))
  }

  /** `Particle.__init__`: the status and colour are derived at creation; `in_measure` starts
      false (the source leaves it unset until the first activation). */
  function NewParticle(x: real, y: real, size: real, drag: real, speed: real, angle: real,
                       elasticity: real, disease: Disease): (p: Particle)
    ensures Consistent(p) && !p.inMeasure
    ensures p.x == x && p.y == y && p.size == size && p.drag == drag && p.speed == speed
    ensures p.angle == angle && p.elasticity == elasticity && p.disease == disease
  {
    UpdateColour(GetInfectionStatus(
      Particle(x, y, size, speed, angle, drag, elasticity, disease, Healthy, Colour(0, 0, 0), false)))
  }

  /** `move`: one step along the heading at the current speed, then the speed decays by `drag`.
      Nothing but position and speed changes; with the default drag the speed is kept. */
  function Move(m: MathLib, p: Particle): (r: Particle)
    ensures r == p.(x := r.x, y := r.y, speed := r.speed)
    ensures r.speed == p.speed * p.drag
    ensures p.drag == DefaultDrag ==> r.speed == p.speed
    ensures r.x - p.x == m.sin(p.angle) * p.speed && p.y - r.y == m.cos(p.angle) * p.speed
  {
    p.(x := p.x + m.sin(p.angle) * p.speed,
       y := p.y - m.cos(p.angle) * p.speed,
       speed := p.speed * p.drag)
  }
}
