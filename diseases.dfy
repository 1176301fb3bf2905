/** The infection timer each particle carries (class `Disease` of PyParticles.py). */
module Diseases {

  /** `daysInfected` is 0 while the carrier has never been infected; once infected it counts
      simulation days. `duration` and `incubationTime` configure the course of the infection. */
  datatype Disease = Disease(daysInfected: int, duration: int, incubationTime: int)

  /** Defaults of the constructor, also used by `Environment.addParticles`. */
  const DefaultDaysInfected: int := 0
  const DefaultDuration: int := 500
  const DefaultIncubationTime: int := 0

  /** One simulation day: a running infection (positive timer) advances by exactly one day,
      any other timer stays where it is; the configuration never changes. */
  function Update(d: Disease): (r: Disease)
    ensures r.duration == d.duration && r.incubationTime == d.incubationTime
    ensures d.daysInfected <= r.daysInfected <= d.daysInfected + 1
    ensures r.daysInfected == d.daysInfected <==> d.daysInfected <= 0
  {
    if d.daysInfected > 0 then d.(daysInfected := d.daysInfected + 1) else d
  }

  /** `n` successive days. */
  function UpdateN(d: Disease, n: nat): (r: Disease)
    ensures r.duration == d.duration && r.incubationTime == d.incubationTime
    decreases n
  {
    if n == 0 then d else Update(UpdateN(d, n - 1))
  }

  /** After `n` days a running timer has moved forward by exactly `n`; a healthy (zero) timer, and
      any non-positive one, never moves. */
  lemma {:induction false} UpdateNExact(d: Disease, n: nat)
    ensures UpdateN(d, n).daysInfected == if d.daysInfected > 0 then d.daysInfected + n else d.daysInfected
  {
    if n > 0 {
      UpdateNExact(d, n - 1);
    }
  }
}
