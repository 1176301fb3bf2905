/** Class `Environment` of PyParticles.py: the arena, its particles, the history of censuses and
    the state of the speed-reduction measure, all updated in place. */
module Environments {
  import opened Geometry
  import Diseases
  import opened Particles
  import opened Collisions
  import opened Walls
  import opened Census
  import opened Ticks

  /** The keyword arguments `addParticles` understands; an absent one takes its default. */
  datatype Overrides = Overrides(
    size: Option<real>,
    x: Option<real>,
    y: Option<real>,
    elasticity: Option<real>,
    speed: Option<real>,
    angle: Option<real>,
    daysInfected: Option<int>,
    duration: Option<int>,
    incubationTime: Option<int>)

  /** The random defaults drawn for one particle: `randint(10, 20)` for the size,
      `uniform(size, width - size)` and `uniform(size, height - size)` for the position,
      `random()` for the speed and `uniform(0, 2 * pi)` for the heading. */
  datatype Draw = Draw(size: int, x: real, y: real, speed: real, angle: real)

  /** `random.uniform(lo, hi)` lies between its bounds, in either order. */
  predicate Between(v: real, lo: real, hi: real)
  {
    (lo <= v <= hi) || (hi <= v <= lo)
  }

  /** The size a particle gets: the given one, or the drawn one. */
  function ResolvedSize(o: Overrides, d: Draw): real
  {
    o.size.GetOr(d.size as real)
  }

  /** The ranges the random generator keeps to; the position range depends on the resolved size. */
  predicate DrawInRange(o: Overrides, d: Draw, width: real, height: real)
  {
    var size := ResolvedSize(o, d);
    10 <= d.size <= 20 &&
    Between(d.x, size, width - size) && Between(d.y, size, height - size) &&
    0.0 <= d.speed < 1.0 && Between(d.angle, 0.0, Pi * 2.0)
  }

  /** One particle of `addParticles`: each keyword argument overrides its default; the disease is
      always a fresh record; `drag` is never forwarded, so it stays 1. */
  function Spawn(o: Overrides, d: Draw): (p: Particle)
    ensures Consistent(p) && !p.inMeasure && p.drag == DefaultDrag
    ensures p.size == ResolvedSize(o, d) && p.x == o.x.GetOr(d.x) && p.y == o.y.GetOr(d.y)
    ensures p.elasticity == o.elasticity.GetOr(1.0)
    ensures p.speed == o.speed.GetOr(d.speed) && p.angle == o.angle.GetOr(d.angle)
    ensures p.disease == Diseases.Disease(
      o.daysInfected.GetOr(Diseases.DefaultDaysInfected),
      o.duration.GetOr(Diseases.DefaultDuration),
      o.incubationTime.GetOr(Diseases.DefaultIncubationTime))
    ensures o.daysInfected.None? ==> p.infectionStatus == Healthy
  {
    var size := ResolvedSize(o, d);
    var disease := Diseases.Disease(
      o.daysInfected.GetOr(Diseases.DefaultDaysInfected),
      o.duration.GetOr(Diseases.DefaultDuration),
      o.incubationTime.GetOr(Diseases.DefaultIncubationTime));
    NewParticle(o.x.GetOr(d.x), o.y.GetOr(d.y), size, DefaultDrag, o.speed.GetOr(d.speed),
                o.angle.GetOr(d.angle), o.elasticity.GetOr(1.0), disease)
  }

  /** A particle placed by the random generator in an arena with room for it lies inside the
      walls, so its first bounce leaves it alone. */
  lemma SpawnedInside(a: Arena, o: Overrides, d: Draw)
    requires o.x.None? && o.y.None?
    requires DrawInRange(o, d, a.width, a.height)
    requires 2.0 * ResolvedSize(o, d) <= a.width && 2.0 * ResolvedSize(o, d) <= a.height
    ensures Inside(a, Spawn(o, d)) && Bounce(a, Spawn(o, d)) == Spawn(o, d)
  {
  }

  class Environment {
    const width: real
    const height: real
    const elasticity: real
    const whenMeasureStarts: real
    const pctPopulationMeasure: real
    const measureSpeedDecrease: real

    var particles: seq<Particle>
    /** One census per completed call of `Update`. */
    var particleStatus: seq<Tally>
    var measureEnacted: bool

    ghost predicate Valid()
      reads this
    {
      WorldValid(State())
    }

    function Bounds(): Arena
    {
      Arena(width, height, elasticity)
    }

    function Config(): Setting
    {
      Setting(Bounds(), whenMeasureStarts, pctPopulationMeasure, measureSpeedDecrease)
    }

    function State(): World
      reads this
    {
      World(particles, measureEnacted, particleStatus)
    }

    /** `Environment(size, mass_of_air, elasticity, when_measure_starts, pct_population_measure,
        measure_speed_decrease)`; the source's defaults for the last four are 1, 1, 0.75 and 0.5. */
    constructor (width: real, height: real, elasticity: real, whenMeasureStarts: real,
                 pctPopulationMeasure: real, measureSpeedDecrease: real)
      ensures Valid()
      ensures this.width == width && this.height == height && this.elasticity == elasticity
      ensures this.whenMeasureStarts == whenMeasureStarts
      ensures this.pctPopulationMeasure == pctPopulationMeasure
      ensures this.measureSpeedDecrease == measureSpeedDecrease
      ensures particles == [] && particleStatus == [] && !measureEnacted
    {
      this.width := width;
      this.height := height;
      this.elasticity := elasticity;
      this.whenMeasureStarts := whenMeasureStarts;
      this.pctPopulationMeasure := pctPopulationMeasure;
      this.measureSpeedDecrease := measureSpeedDecrease;
      particles := [];
      particleStatus := [];
      measureEnacted := false;
    }

    /** `addParticles(n, **kargs)`: appends `n` particles, the `i`-th built from the overrides and
        the `i`-th draw, and changes nothing else. */
    method AddParticles(n: nat, o: Overrides, draws: seq<Draw>)
      requires Valid()
      requires |draws| == n
      modifies this
      ensures Valid()
      ensures particles == old(particles) + seq(n, i requires 0 <= i < n => Spawn(o, draws[i]))
      ensures particleStatus == old(particleStatus) && measureEnacted == old(measureEnacted)
    {
      ghost var before := particles;
      var i := 0;
      while i < n
        invariant 0 <= i <= n
        invariant particles == before + seq(i, k requires 0 <= k < i => Spawn(o, draws[k]))
        invariant particleStatus == old(particleStatus) && measureEnacted == old(measureEnacted)
        invariant Valid()
      {
        particles := particles + [Spawn(o, draws[i])];
        i := i + 1;
      }
    }

    /** `get_infection_state()`: the census of the cached statuses. */
    method GetInfectionState() returns (c: Tally)
      ensures c == Count(particles)
      ensures Total(c) == |particles|
      ensures forall s :: Field(c, s) == multiset(Statuses(particles))[s]
    {
      c := Tally(0, 0, 0, 0);
      var k := 0;
      while k < |particles|
        invariant 0 <= k <= |particles|
        invariant c == CountUpTo(particles, k)
      {
        c := Bump(c, particles[k].infectionStatus);
        k := k + 1;
      }
      forall s
        ensures Field(c, s) == multiset(Statuses(particles))[s]
      {
        CountIsMultiset(particles, k, s);
        assert Statuses(particles)[..k] == Statuses(particles);
      }
    }

    /** The inner loop of `update`: the particle at `i` collides in turn with every later one. */
    method CollideWithLater(m: MathLib, i: nat)
      requires i < |particles|
      modifies this`particles
      ensures particles == CollideLater(m, old(particles), i, |old(particles)|)
    {
      ghost var start := particles;
      var ps, j, n := particles, i + 1, |particles|;
      while j < n
        invariant i < j <= n == |start|
        invariant ps == CollideLater(m, start, i, j)
      {
        CollideLaterNext(m, start, i, j);
        ps := PairAt(m, ps, i, j);
        j := j + 1;
      }
      particles := ps;
    }

    /** The turn of the particle at `i` in the loop of `update`: it moves, bounces off the walls,
        collides with every later particle, advances its disease and re-derives status and colour. */
    method Turn(m: MathLib, i: nat)
      requires i < |particles|
      modifies this`particles
      ensures particles == StepAt(m, Bounds(), old(particles), i)
    {
      particles := particles[i := Bounce(Bounds(), Move(m, particles[i]))];
      CollideWithLater(m, i);
      particles := particles[i := Refresh(particles[i])];
    }

    /** The outer loop of `update`: every particle takes its turn, in order. */
    method StepAll(m: MathLib)
      modifies this`particles
      ensures particles == Physics(m, Bounds(), old(particles))
    {
      ghost var before := particles;
      var i, n := 0, |particles|;
      while i < n
        invariant i <= n
        invariant particles == StepsUpTo(m, Bounds(), before, i)
      {
        Turn(m, i);
        i := i + 1;
      }
    }

    /** Activation of the measure: with a successful draw a particle is slowed and joins the
        measure, otherwise it is marked out of it; the measure is then enacted. */
    method EnactMeasure(draws: seq<real>)
      requires |draws| == |particles|
      modifies this`particles, this`measureEnacted
      ensures particles == Activate(Config(), old(particles), draws)
      ensures measureEnacted
    {
      ghost var before := particles;
      var k := 0;
      while k < |particles|
        invariant 0 <= k <= |particles| == |before|
        invariant forall t :: 0 <= t < k ==> particles[t] == ActivateOne(Config(), before[t], draws[t])
        invariant forall t :: k <= t < |particles| ==> particles[t] == before[t]
      {
        if draws[k] <= pctPopulationMeasure {
          particles := particles[k := particles[k].(speed := particles[k].speed * measureSpeedDecrease, inMeasure := true)];
        } else {
          particles := particles[k := particles[k].(inMeasure := false)];
        }
        k := k + 1;
      }
      measureEnacted := true;
    }

    /** Deactivation of the measure: every particle in it gets its speed back and leaves it, and
        the measure is lifted. With a zero factor the division raises at the first particle in
        the measure, before anything has changed (`ok` false). */
    method LiftMeasure() returns (ok: bool)
      modifies this`particles, this`measureEnacted
      ensures ok == !(measureSpeedDecrease == 0.0 && AnyInMeasure(old(particles)))
      ensures ok ==> particles == Deactivate(Config(), old(particles)) && !measureEnacted
      ensures !ok ==> particles == old(particles) && measureEnacted == old(measureEnacted)
    {
      ghost var before := particles;
      var k := 0;
      while k < |particles|
        invariant 0 <= k <= |particles| == |before|
        invariant measureSpeedDecrease == 0.0 ==> forall t :: 0 <= t < k ==> !before[t].inMeasure
        invariant forall t :: 0 <= t < k ==> particles[t] == DeactivateOne(Config(), before[t])
        invariant forall t :: k <= t < |particles| ==> particles[t] == before[t]
        invariant measureEnacted == old(measureEnacted)
      {
        if particles[k].inMeasure {
          if measureSpeedDecrease == 0.0 {
            assert particles == before;
            return false;
          }
          particles := particles[k := particles[k].(speed := particles[k].speed / measureSpeedDecrease, inMeasure := false)];
        }
        k := k + 1;
      }
      measureEnacted := false;
      return true;
    }

    /** `update()`: one tick; `draws` stands for the values `random.random()` returns during the
        activation of the measure, one per particle in order. `ok` is false when the source raises
        (deactivation with a zero factor while a particle is in the measure). */
    method Update(m: MathLib, draws: seq<real>) returns (ok: bool)
      requires Valid()
      requires |draws| == |particles|
      modifies this
      ensures Valid()
      ensures (State(), ok) == Tick(m, Config(), old(State()), draws)
      ensures |particles| == |old(particles)|
      ensures ok ==> particleStatus == old(particleStatus) + [Count(particles)]
      ensures ok ==> measureEnacted == AboveThreshold(Config(), Count(particles))
    {
      ghost var start := State();
      StepAll(m);
      var c := GetInfectionState();
      var above := AboveThreshold(Config(), c);
      ok := true;
      if above && !measureEnacted {
        EnactMeasure(draws);
      } else if !above && measureEnacted {
        ok := LiftMeasure();
      }
      if ok {
        particleStatus := particleStatus + [c];
      }
      TickKeepsValid(m, Config(), start, draws);
      TickPopulationAndHistory(m, Config(), start, draws);
      TickEdgeTriggered(m, Config(), start, draws);
    }
  }
}
