# PyParticles engine in Dafny

This project models the simulation engine of `PyParticles.py`. The engine runs an epidemic on
circular particles in a rectangular arena. Each particle moves along its heading, bounces off the
walls and collides with the particles after it. Contacts spread the infection. Each running
infection then advances one day, and every particle's status and colour are derived again. After every
tick the environment counts the statuses and records the census. An edge-triggered "measure"
slows a random part of the population once the infected share reaches a threshold. It restores
their speed once the share drops below it again.

Modules:

- `Diseases` (diseases.dfy): the `Disease` record and its daily `update`.
- `Geometry` (geometry.dfy): `math.pi` and the parts of `math` the engine calls. Sine, cosine,
  `atan2` and `hypot` have no fixed meaning here. They are the fields of a `MathLib` value that
  every operation needing them takes as a parameter.
- `Particles` (particles.dfy): the `Particle` record, the status classification, the colour map,
  the constructor and `move`.
- `Collisions` (collisions.dfy): the function `collide`.
- `Walls` (walls.dfy): `Environment.bounce`.
- `Census` (census.dfy): the four-way tally that `Counter` builds over the cached statuses.
- `Ticks` (ticks.dfy): one call of `Environment.update`, written as functions of the state before
  the call, and the properties of a tick.
- `Environments` (environment.dfy): class `Environment`. Its fields hold the particle list, the
  census history and the measure flag, and its methods update them in place. `Update` is proved
  to produce exactly the state the `Tick` function describes.

Particles and diseases are values. Each particle owns its disease record, which is what
`addParticles` gives it (a fresh `Disease` for every particle). Positions, speeds and angles are
Dafny `real`s. Random draws are inputs: `AddParticles` takes one `Draw` per particle, with the
values `randint` and `uniform` would return. `Update` takes one draw per particle for the
activation of the measure.

Behaviour of the code worth knowing:

- The disease of a particle advances right after that particle's own collisions, inside the same
  loop (`PyParticles.py:128-138`). It is not a second pass over all particles.
- `bounce` does not always bring a particle back inside the walls. A particle that overshot a
  wall by more than the free room is mirrored to a point beyond the opposite wall
  (`Walls.FarOvershootStaysOutside`). `Walls.Bounce` proves that the particle lands inside when
  the overshoot is small.
- A tick can raise: deactivating the measure with a zero speed factor divides by zero at the
  first particle in the measure. `Update` returns `ok == false` in that case (see below).
- A non-zero negative timer below the incubation time is classified as Incubation, since the
  code tests `days_infected == 0` first and only then `days_infected < incubation_time`.

## Model

| member | source | states |
|---|---|---|
| Diseases.Update | PyParticles.py:44-46 | A positive timer advances by exactly one day; the timer never moves backwards and stays put exactly when it is not positive; duration and incubation time never change. |
| Diseases.UpdateN | PyParticles.py:44-46 | Any number of daily updates keeps the configuration of the disease. |
| Diseases.UpdateNExact | PyParticles.py:44-46 | After `n` days a positive timer has grown by exactly `n`; a zero (healthy) or negative timer is unchanged forever. |
| Particles.InfectionStatus | PyParticles.py:65-74 | The four statuses split the timer into ranges: Healthy iff the timer is 0; Incubation iff non-zero and below the incubation time; Infected iff non-zero and in `[incubation, incubation + duration)`; Recovered iff non-zero and at least `incubation + duration`. |
| Particles.StatusMonotoneInDays | PyParticles.py:65-74 | For a fixed configuration, a larger positive timer never has an earlier status, and a positive timer is never Healthy. |
| Particles.StatusNeverBackwards | PyParticles.py:44-46 | Under repeated daily updates the status never moves back along Healthy, Incubation, Infected, Recovered; a started infection is never Healthy again; a non-positive timer keeps its status for ever. |
| Particles.EventuallyRecovered | PyParticles.py:65-74 | A started infection is Recovered once its timer has passed incubation plus duration. |
| Particles.ColourOf | PyParticles.py:76-78 | The colour map is total, its components are in 0..255, and the status can be read back from the colour (it is injective). |
| Particles.GetInfectionStatus | PyParticles.py:65-74 | Only the cached status changes, and it becomes the status derived from the disease. |
| Particles.UpdateColour | PyParticles.py:76-78 | Only the colour changes, and it becomes the colour of the cached status. |
| Particles.Refresh | PyParticles.py:136-138 | After the disease advances one day and the status and colour are derived again, the particle is consistent; nothing but disease, status and colour changes. |
| Particles.NewParticle | PyParticles.py:51-63 | A new particle holds exactly the given values, its status and colour agree with its disease, and it is not in the measure. |
| Particles.Move | PyParticles.py:80-86 | Only position and speed change; the position moves by the heading's sine and cosine times the speed; the speed is multiplied by the drag and is kept with the default drag. |
| Collisions.OverlapBySquares | PyParticles.py:15-16 | With a genuine `hypot` and non-negative sizes, the overlap test is the same as comparing the squared distance with the squared sum of the radii. |
| Collisions.CollideOutcome | PyParticles.py:4-35 | The contract of `Collide` (the model of `collide`, which hands the cached-status transmission rule to `Transmit`). Apart: nothing changes. On overlap: both speeds are multiplied by the product of the elasticities; both headings are mirrored about the same tangent; the sums of the x and of the y coordinates are kept; only position, heading, speed and disease change; a particle's timer becomes 1 exactly when it overlaps, is cached as Healthy and its partner is cached as Infected. |
| Collisions.ContactInfectsHealthy | PyParticles.py:32-35 | Two particles of size 5 whose centres are 8 apart: the Healthy one gets timer 1 and the Infected one's disease is untouched. |
| Walls.Bounce | PyParticles.py:160-181 | `BounceY` after `BounceX`, the two independent if/elif tests. A particle inside the walls is left alone; only position, heading and speed change; each crossed axis multiplies the speed by the wall elasticity once; the heading is negated for an x crossing and complemented for a y crossing; a crossing of any wall mirrors the coordinate about that wall and leaves it strictly on the inner side of that wall; a small overshoot lands inside. |
| Walls.FarOvershootStaysOutside | PyParticles.py:163-164 | A particle of size 10 at x = 200 in a 100 by 100 arena is mirrored to x = -20, outside the walls. |
| Census.CountUpTo | PyParticles.py:140 | The tally of the first `k` particles counts each of them exactly once. |
| Census.Count | PyParticles.py:140 | The four counts of a census add up to the number of particles. |
| Census.CountIsMultiset | PyParticles.py:140 | With `Statuses` the list of cached statuses handed to `Counter`, in order: each count of the tally is the multiplicity of its status among the cached statuses, as in a `Counter`. |
| Census.CountSameStatuses | PyParticles.py:140 | The census depends only on the cached statuses. |
| Ticks.PairAt | PyParticles.py:133-134 | One collision in the list keeps the number of particles. |
| Ticks.PairAtContacts | PyParticles.py:133-134 | One collision changes only the two particles involved, and each of them at most by a contact: the cached status and the fixed properties are kept, and the timer is kept or, for a Healthy particle, set to 1. |
| Ticks.CollideLater | PyParticles.py:133-134 | The collisions of a particle with the later ones keep the number of particles. |
| Ticks.CollideLaterContacts | PyParticles.py:133-134 | Those collisions leave every particle before the current one unchanged and every particle at most contacted. |
| Ticks.StepAt | PyParticles.py:128-138 | A turn keeps the number of particles. |
| Ticks.StepAtOutcome | PyParticles.py:128-138 | A turn leaves earlier particles alone, leaves the current one consistent with its disease advanced by a day (or at 2 after a contact), and at most contacts the later ones. |
| Ticks.StepsUpTo | PyParticles.py:128-138 | The first `k` turns keep the number of particles. |
| Ticks.Physics | PyParticles.py:128-138 | The whole loop keeps the number of particles. |
| Ticks.StepsContactLater | PyParticles.py:128-138 | After `k` turns the particles still waiting for theirs have at most been contacted. |
| Ticks.StepsInvariant | PyParticles.py:128-138 | After `k` turns the first `k` particles are consistent and have had their whole turn. |
| Ticks.PhysicsOutcome | PyParticles.py:128-138 | After the loop every particle is consistent and keeps its size, drag, elasticity, measure flag and disease configuration; from a consistent start, a positive timer has grown by exactly one, a zero timer is 0 or (after a contact) 2, and a negative timer is unchanged. |
| Ticks.Activate | PyParticles.py:142-147 | Built from `ActivateOne`, one particle per draw. Exactly the particles whose draw is at most the population fraction are slowed by the factor; every flag is set to whether the draw succeeded; nothing else changes. |
| Ticks.Deactivate | PyParticles.py:151-154 | Built from `DeactivateOne`, one particle at a time. Exactly the particles in the measure get their speed divided by the factor; afterwards no particle is in the measure; nothing else changes. |
| Ticks.MeasureRoundTrip | PyParticles.py:141-156 | With a non-zero factor, deactivating after activating restores every speed and clears every flag. |
| Ticks.TickPopulationAndHistory | PyParticles.py:125-158 | About `Tick`, the model of one call of `update`: a tick keeps the number of particles; a completed tick appends exactly one census, of the particles it leaves, whose counts add up to the population; a tick that raises appends none. |
| Ticks.TickEdgeTriggered | PyParticles.py:140-156 | About `Tick`: after a completed tick the measure is enacted exactly when the infected count reaches the threshold (`AboveThreshold`); speeds and flags change only when the flag switches; switching on yields exactly `Activate` of the moved particles, and switching off happens only with a usable factor and yields exactly `Deactivate` of them; a raising tick leaves the flag on. |
| Ticks.TickKeepsValid | PyParticles.py:125-158 | About `Tick`: a tick keeps every particle consistent and keeps all flags clear while no measure is enacted. |
| Ticks.TickTimers | PyParticles.py:128-138 | About `Tick`: from a valid state, over one tick a positive timer advances by exactly one, a negative timer never moves, and a zero timer stays 0 or becomes 2 through a contact in that tick. |
| Environments.Spawn | PyParticles.py:109-122 | Each keyword argument overrides its default; the disease is built from the given or default timer, duration and incubation time; drag is 1; the particle is consistent and not in the measure; without a timer override it is Healthy. |
| Environments.SpawnedInside | PyParticles.py:110-113 | A particle placed by the random defaults in an arena with room for it lies inside the walls, so its first bounce leaves it alone. |
| Environments.Environment.constructor | PyParticles.py:91-104 | A new environment holds the given dimensions and measure parameters, no particles, no history, and no measure enacted. |
| Environments.Environment.AddParticles | PyParticles.py:106-123 | Appends exactly `n` particles, the `i`-th spawned from the overrides and the `i`-th draw, changes nothing else, and keeps the invariant. |
| Environments.Environment.GetInfectionState | PyParticles.py:183-184 | Returns the census of the particles: its counts add up to the population, and each is the multiplicity of its status among the cached statuses. |
| Environments.Environment.CollideWithLater | PyParticles.py:133-134 | The inner loop leaves the particle list as `CollideLater` describes. |
| Environments.Environment.Turn | PyParticles.py:129-138 | A particle's turn leaves the particle list as `StepAt` describes. |
| Environments.Environment.StepAll | PyParticles.py:128-138 | The outer loop leaves the particle list as `Physics` describes. |
| Environments.Environment.EnactMeasure | PyParticles.py:142-148 | The activation loop leaves the particle list as `Activate` describes and enacts the measure. |
| Environments.Environment.LiftMeasure | PyParticles.py:151-156 | It fails exactly when the factor is zero and some particle is in the measure, and then changes nothing; otherwise it leaves the list as `Deactivate` describes and lifts the measure. |
| Environments.Environment.Update | PyParticles.py:125-158 | The new state and the outcome are exactly those of `Tick`; the invariant is kept; the number of particles is kept; a completed tick appends the census of the new particles and leaves the measure enacted exactly when the threshold is reached. |

## Left out

- `run_simulation.py`, the rendering and plotting loop, is not part of this model. It is
  input/output only.
- The concrete values of `math.sin`, `math.cos`, `math.atan2` and `math.hypot` are not modelled.
  There is no floating point: all arithmetic is on exact reals. Facts that depend on the values
  of the trigonometric functions are not proved. One example is that the distance between two
  particles grows after a collision.
- The random number generator is not modelled. Its values are parameters, and `DrawInRange`
  states the ranges it keeps to.
- `mass`, `thickness`, `mass_of_air`, `chance_of_spreading`, the environment's `colour` and
  `acceleration` are left out. The engine never reads them, and `acceleration` is always `None`,
  so the `accelerate` branch never runs. The unused `randint(100, 10000)` for the mass is left
  out with the mass.
- The shared default `Disease()` of `Particle.__init__` is not modelled: every particle owns its
  disease value. `addParticles` always passes a fresh record, so the sharing cannot arise through
  it. Aliasing between particle objects is not modelled: list entries are values.
- The default arguments of `Particle.__init__` other than `drag` are not modelled. No operation
  of the core relies on them.
- The default arguments of `Environment.__init__` (`elasticity=1`, `when_measure_starts=1`,
  `pct_population_measure=0.75`, `measure_speed_decrease=0.5`) and of `addParticles` (`n=1`)
  are not modelled: Dafny has no default arguments, so callers pass every value.
- Particles.NewParticle: `in_measure` starts false. The source never sets it at construction, so
  deactivating the measure raises `AttributeError` when it meets a particle created after the
  last activation. The model does not capture that error.
- Environments.Environment.Update: when deactivation raises `ZeroDivisionError` (zero factor and
  a particle in the measure), the model returns `ok == false`. The physics of the tick has then
  been applied, while the flag, the speeds and the history are unchanged. This matches where the
  exception leaves the source's state. What the caller does with the exception is not modelled.
