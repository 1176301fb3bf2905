/** What one call of `Environment.update` does, as functions of the state before the call, and
    the properties of a tick. The class in environment.dfy is proved to follow `Tick`. */
module Ticks {
  import opened Geometry
  import opened Diseases
  import opened Particles
  import opened Collisions
  import opened Walls
  import opened Census

  /** What `Environment.__init__` fixes for a run. */
  datatype Setting = Setting(
    arena: Arena,
    whenMeasureStarts: real,
    pctPopulationMeasure: real,
    measureSpeedDecrease: real)

  /** The part of the environment that `update` changes. */
  datatype World = World(particles: seq<Particle>, measureEnacted: bool, history: seq<Tally>)

  /** Properties of a particle that a tick's physics never touches. */
  predicate Fixed(p: Particle, q: Particle)
  {
    q.size == p.size && q.drag == p.drag && q.elasticity == p.elasticity && q.inMeasure == p.inMeasure &&
    q.disease.duration == p.disease.duration && q.disease.incubationTime == p.disease.incubationTime
  }

  /** `q` is `p` after some contacts in the current tick: the cached status is the same, and the
      timer is untouched or, on a particle cached as Healthy, set to 1. */
  predicate Contacted(p: Particle, q: Particle)
  {
    Fixed(p, q) && q.infectionStatus == p.infectionStatus &&
    (q.disease.daysInfected == p.disease.daysInfected ||
     (p.infectionStatus == Healthy && q.disease.daysInfected == 1))
  }

  /** `q` is `p` after its whole turn in the tick: contacts, then one day of the disease. */
  predicate Advanced(p: Particle, q: Particle)
  {
    Fixed(p, q) &&
    (q.disease.daysInfected == Update(p.disease).daysInfected ||
     (p.infectionStatus == Healthy && q.disease.daysInfected == 2))
  }

  /** `collide(particles[i], particles[j])` applied in place. */
  function PairAt(m: MathLib, ps: seq<Particle>, i: nat, j: nat): (r: seq<Particle>)
    requires i < |ps| && j < |ps| && i != j
    ensures |r| == |ps|
  {
    var c := Collide(m, ps[i], ps[j]);
    ps[i := c.0][j := c.1]
  }

  /** One collision changes only the two particles involved, and those at most by a contact. */
  lemma PairAtContacts(m: MathLib, ps: seq<Particle>, i: nat, j: nat)
    requires i < |ps| && j < |ps| && i != j
    ensures var r := PairAt(m, ps, i, j);
      (forall t :: 0 <= t < |ps| && t != i && t != j ==> r[t] == ps[t]) &&
      (forall t :: 0 <= t < |ps| ==> Contacted(ps[t], r[t]))
  {
    CollideOutcome(m, ps[i], ps[j]);
  }

  /** The particle at `i` collided, in order, with those at `i + 1 .. j - 1`. */
  function CollideLater(m: MathLib, ps: seq<Particle>, i: nat, j: nat): (r: seq<Particle>)
    requires i < j <= |ps|
    ensures |r| == |ps|
    decreases j
  {
    if j == i + 1 then ps else PairAt(m, CollideLater(m, ps, i, j - 1), i, j - 1)
  }

  /** One more collision of the turn. */
  lemma CollideLaterNext(m: MathLib, ps: seq<Particle>, i: nat, j: nat)
    requires i < j < |ps|
    ensures CollideLater(m, ps, i, j + 1) == PairAt(m, CollideLater(m, ps, i, j), i, j)
  {
  }

  /** The collisions of one turn move nothing before `i`, and every particle has at most been
      contacted. */
  lemma {:induction false} CollideLaterContacts(m: MathLib, ps: seq<Particle>, i: nat, j: nat)
    requires i < j <= |ps|
    ensures var r := CollideLater(m, ps, i, j);
      (forall t :: 0 <= t < i ==> r[t] == ps[t]) &&
      (forall t :: 0 <= t < |ps| ==> Contacted(ps[t], r[t]))
    decreases j
  {
    if j > i + 1 {
      CollideLaterContacts(m, ps, i, j - 1);
      var before := CollideLater(m, ps, i, j - 1);
      var after := PairAt(m, before, i, j - 1);
      PairAtContacts(m, before, i, j - 1);
      assert after == CollideLater(m, ps, i, j);
      forall t | 0 <= t < |ps|
        ensures Contacted(ps[t], after[t])
      {
        assert Contacted(ps[t], before[t]) && Contacted(before[t], after[t]);
      }
    }
  }

  /** The turn of the particle at `i` in the loop of `update`: move, bounce, collide with every
      later particle, then advance the disease and re-derive status and colour. */
  function StepAt(m: MathLib, a: Arena, ps: seq<Particle>, i: nat): (r: seq<Particle>)
    requires i < |ps|
    ensures |r| == |ps|
  {
    var moved := ps[i := Bounce(a, Move(m, ps[i]))];
    var collided := CollideLater(m, moved, i, |ps|);
    collided[i := Refresh(collided[i])]
  }

  /** A turn leaves the particles before `i` alone, leaves the one at `i` consistent after its
      whole turn, and at most contacts the later ones. */
  lemma StepAtOutcome(m: MathLib, a: Arena, ps: seq<Particle>, i: nat)
    requires i < |ps|
    ensures var r := StepAt(m, a, ps, i);
      (forall t :: 0 <= t < i ==> r[t] == ps[t]) &&
      Consistent(r[i]) && Advanced(ps[i], r[i]) &&
      (forall t :: i < t < |ps| ==> Contacted(ps[t], r[t]))
  {
    var moved := ps[i := Bounce(a, Move(m, ps[i]))];
    CollideLaterContacts(m, moved, i, |ps|);
  }

  /** The first `k` turns of the loop. */
  function StepsUpTo(m: MathLib, a: Arena, ps: seq<Particle>, k: nat): (r: seq<Particle>)
    requires k <= |ps|
    ensures |r| == |ps|
    decreases k
  {
    if k == 0 then ps else StepAt(m, a, StepsUpTo(m, a, ps, k - 1), k - 1)
  }

  /** The whole per-particle loop of `update`. */
  function Physics(m: MathLib, a: Arena, ps: seq<Particle>): (r: seq<Particle>)
    ensures |r| == |ps|
  {
    StepsUpTo(m, a, ps, |ps|)
  }

  /** After `k` turns the particles that have not had theirs have at most been contacted. */
  lemma {:induction false} StepsContactLater(m: MathLib, a: Arena, ps: seq<Particle>, k: nat)
    requires k <= |ps|
    ensures var r := StepsUpTo(m, a, ps, k);
      forall t :: k <= t < |ps| ==> Contacted(ps[t], r[t])
    decreases k
  {
    if k > 0 {
      StepsContactLater(m, a, ps, k - 1);
      var before := StepsUpTo(m, a, ps, k - 1);
      var after := StepAt(m, a, before, k - 1);
      StepAtOutcome(m, a, before, k - 1);
      assert after == StepsUpTo(m, a, ps, k);
      forall t | k <= t < |ps|
        ensures Contacted(ps[t], after[t])
      {
        ContactThenContact(ps[t], before[t], after[t]);
      }
    }
  }

  /** After `k` turns the first `k` particles are consistent and have had their whole turn. */
  lemma {:induction false} StepsInvariant(m: MathLib, a: Arena, ps: seq<Particle>, k: nat)
    requires k <= |ps|
    ensures var r := StepsUpTo(m, a, ps, k);
      forall t :: 0 <= t < k ==> Consistent(r[t]) && Advanced(ps[t], r[t])
    decreases k
  {
    if k > 0 {
      StepsInvariant(m, a, ps, k - 1);
      StepsContactLater(m, a, ps, k - 1);
      var before := StepsUpTo(m, a, ps, k - 1);
      var after := StepAt(m, a, before, k - 1);
      StepAtOutcome(m, a, before, k - 1);
      assert after == StepsUpTo(m, a, ps, k);
      forall t | 0 <= t < k
        ensures Consistent(after[t]) && Advanced(ps[t], after[t])
      {
        if t == k - 1 {
          ContactThenAdvance(ps[t], before[t], after[t]);
        } else {
          assert after[t] == before[t];
        }
      }
    }
  }

  lemma ContactThenAdvance(p: Particle, q: Particle, r: Particle)
    requires Contacted(p, q) && Advanced(q, r)
    ensures Advanced(p, r)
  {
  }

  lemma ContactThenContact(p: Particle, q: Particle, r: Particle)
    requires Contacted(p, q) && Contacted(q, r)
    ensures Contacted(p, r)
  {
  }

  /** After the loop of `update` every cached status and colour agrees with its disease record,
      nothing but motion and the timers has changed, and, from a consistent start, each particle's
      timer has advanced by a day if it was running, stayed put if it was not positive, or, for a
      healthy particle, become 2 through a contact in this tick. */
  lemma PhysicsOutcome(m: MathLib, a: Arena, ps: seq<Particle>)
    ensures var r := Physics(m, a, ps);
      forall t :: 0 <= t < |ps| ==> Consistent(r[t]) && Fixed(ps[t], r[t])
    ensures (forall t :: 0 <= t < |ps| ==> Consistent(ps[t])) ==>
      var r := Physics(m, a, ps);
      forall t :: 0 <= t < |ps| ==>
        var d, e := ps[t].disease.daysInfected, r[t].disease.daysInfected;
        (d > 0 ==> e == d + 1) && (d == 0 ==> e == 0 || e == 2) && (d < 0 ==> e == d)
  {
    StepsInvariant(m, a, ps, |ps|);
    var r := Physics(m, a, ps);
    assert r == StepsUpTo(m, a, ps, |ps|);
    forall t | 0 <= t < |ps|
      ensures Consistent(r[t]) && Fixed(ps[t], r[t])
    {
      assert Advanced(ps[t], r[t]);
    }
  }

  /** A particle's share of the activation of the measure: with a successful draw it slows down
      and joins the measure, otherwise it is marked out of it. */
  function ActivateOne(s: Setting, p: Particle, draw: real): Particle
  {
    if draw <= s.pctPopulationMeasure then
      p.(speed := p.speed * s.measureSpeedDecrease, inMeasure := true)
    else
      p.(inMeasure := false)
  }

  /** Activation (PyParticles.py, the loop of the first branch of the measure): exactly the
      particles whose draw succeeds are slowed by the factor; every particle's flag is set to
      whether its draw succeeded; nothing else changes. */
  function Activate(s: Setting, ps: seq<Particle>, draws: seq<real>): (r: seq<Particle>)
    requires |draws| == |ps|
    ensures |r| == |ps|
    ensures forall k :: 0 <= k < |ps| ==>
      r[k] == ps[k].(speed := r[k].speed, inMeasure := r[k].inMeasure) &&
      r[k].inMeasure == (draws[k] <= s.pctPopulationMeasure) &&
      r[k].speed == if draws[k] <= s.pctPopulationMeasure then ps[k].speed * s.measureSpeedDecrease else ps[k].speed
  {
    seq(|ps|, k requires 0 <= k < |ps| => ActivateOne(s, ps[k], draws[k]))
  }

  /** A particle's share of the deactivation. */
  function DeactivateOne(s: Setting, p: Particle): Particle
    requires p.inMeasure ==> s.measureSpeedDecrease != 0.0
  {
    if p.inMeasure then p.(speed := p.speed / s.measureSpeedDecrease, inMeasure := false) else p
  }

  /** Deactivation: exactly the particles in the measure get their speed divided by the factor;
      afterwards no particle is in the measure; nothing else changes. */
  function Deactivate(s: Setting, ps: seq<Particle>): (r: seq<Particle>)
    requires forall k :: 0 <= k < |ps| && ps[k].inMeasure ==> s.measureSpeedDecrease != 0.0
    ensures |r| == |ps|
    ensures forall k :: 0 <= k < |ps| ==>
      r[k] == ps[k].(speed := r[k].speed, inMeasure := false) &&
      r[k].speed == if ps[k].inMeasure then ps[k].speed / s.measureSpeedDecrease else ps[k].speed
  {
    seq(|ps|, k requires 0 <= k < |ps| => DeactivateOne(s, ps[k]))
  }

  /** Deactivation undoes activation exactly: every speed is restored and every flag cleared. */
  lemma MeasureRoundTrip(s: Setting, ps: seq<Particle>, draws: seq<real>)
    requires |draws| == |ps|
    requires s.measureSpeedDecrease != 0.0
    ensures Deactivate(s, Activate(s, ps, draws)) == seq(|ps|, k requires 0 <= k < |ps| => ps[k].(inMeasure := false))
  {
    var f := s.measureSpeedDecrease;
    var act := Activate(s, ps, draws);
    var back := Deactivate(s, act);
    forall k | 0 <= k < |ps|
      ensures back[k] == ps[k].(inMeasure := false)
    {
      if act[k].inMeasure {
        DivideUndoesMultiply(ps[k].speed, f);
      }
    }
  }

  lemma DivideUndoesMultiply(x: real, f: real)
    requires f != 0.0
    ensures x * f / f == x
  {
  }

  /** The trigger of the measure: `Infected >= len(particles) * when_measure_starts`. */
  predicate AboveThreshold(s: Setting, c: Tally)
  {
    (c.infected as real) >= (Total(c) as real) * s.whenMeasureStarts
  }

  /** Some particle is in the measure. */
  predicate AnyInMeasure(ps: seq<Particle>)
  {
    exists k :: 0 <= k < |ps| && ps[k].inMeasure
  }

  /** One call of `update`, with `draws` the values `random.random()` returns, one per particle in
      order, should the measure be activated. The second component is false when the call raises:
      deactivating with a zero factor divides by zero at the first particle in the measure, after
      the physics and before any change to the measure, the flag or the history. */
  function Tick(m: MathLib, s: Setting, w: World, draws: seq<real>): (World, bool)
    requires |draws| == |w.particles|
  {
    var ps := Physics(m, s.arena, w.particles);
    var c := Count(ps);
    if AboveThreshold(s, c) && !w.measureEnacted then
      (World(Activate(s, ps, draws), true, w.history + [c]), true)
    else if !AboveThreshold(s, c) && w.measureEnacted then
      if s.measureSpeedDecrease == 0.0 && AnyInMeasure(ps) then
        (World(ps, true, w.history), false)
      else
        (World(Deactivate(s, ps), false, w.history + [c]), true)
    else
      (World(ps, w.measureEnacted, w.history + [c]), true)
  }

  /** The invariant the environment keeps: cached statuses and colours agree with the diseases,
      and while no measure is enacted no particle is in one. */
  predicate WorldValid(w: World)
  {
    (forall k :: 0 <= k < |w.particles| ==> Consistent(w.particles[k])) &&
    (!w.measureEnacted ==> forall k :: 0 <= k < |w.particles| ==> !w.particles[k].inMeasure)
  }

  /** A tick keeps the number of particles; a tick that completes appends exactly one snapshot,
      the census of the particles it leaves behind, whose counts add up to the population; one
      that raises appends none. */
  lemma TickPopulationAndHistory(m: MathLib, s: Setting, w: World, draws: seq<real>)
    requires |draws| == |w.particles|
    ensures var (r, ok) := Tick(m, s, w, draws);
      |r.particles| == |w.particles| &&
      (ok ==> r.history == w.history + [Count(r.particles)] && Total(r.history[|r.history| - 1]) == |w.particles|) &&
      (!ok ==> r.history == w.history)
  {
    var ps := Physics(m, s.arena, w.particles);
    var (r, ok) := Tick(m, s, w, draws);
    if r.particles != ps {
      CountSameStatuses(ps, r.particles, |ps|);
    }
  }

  /** The measure is edge-triggered: after a completed tick it is enacted exactly when the infected
      count is at or above the threshold, so it switches on only from off and off only from on;
      speeds and flags change only at such a switch. */
  lemma TickEdgeTriggered(m: MathLib, s: Setting, w: World, draws: seq<real>)
    requires |draws| == |w.particles|
    ensures var (r, ok) := Tick(m, s, w, draws);
      var ps := Physics(m, s.arena, w.particles);
      (ok ==> r.measureEnacted == AboveThreshold(s, Count(r.particles))) &&
      (!ok ==> r.measureEnacted && w.measureEnacted && s.measureSpeedDecrease == 0.0) &&
      (r.measureEnacted == w.measureEnacted ==> r.particles == ps) &&
      (r.measureEnacted && !w.measureEnacted ==> r.particles == Activate(s, ps, draws)) &&
      (!r.measureEnacted && w.measureEnacted ==>
        (s.measureSpeedDecrease != 0.0 || !AnyInMeasure(ps)) && r.particles == Deactivate(s, ps))
  {
    var ps := Physics(m, s.arena, w.particles);
    var (r, ok) := Tick(m, s, w, draws);
    if r.particles != ps {
      CountSameStatuses(ps, r.particles, |ps|);
    }
  }

  /** A tick keeps the environment's invariant. */
  lemma TickKeepsValid(m: MathLib, s: Setting, w: World, draws: seq<real>)
    requires |draws| == |w.particles|
    requires WorldValid(w)
    ensures WorldValid(Tick(m, s, w, draws).0)
  {
    PhysicsOutcome(m, s.arena, w.particles);
  }

  /** Over a tick, started from a valid state, a running infection advances by exactly one day,
      a non-positive timer other than 0 never moves, and a healthy timer is either still 0 or was
      set to 1 by a contact and advanced to 2. No other path leads to infection. */
  lemma TickTimers(m: MathLib, s: Setting, w: World, draws: seq<real>)
    requires |draws| == |w.particles|
    requires WorldValid(w)
    ensures var r := Tick(m, s, w, draws).0;
      forall t :: 0 <= t < |w.particles| ==>
        var d, e := w.particles[t].disease.daysInfected, r.particles[t].disease.daysInfected;
        (d > 0 ==> e == d + 1) && (d == 0 ==> e == 0 || e == 2) && (d < 0 ==> e == d)
  {
    PhysicsOutcome(m, s.arena, w.particles);
  }
}
