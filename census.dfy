/** The per-status tally that `Environment.update` and `get_infection_state` build with a
    `Counter` over the particles' cached statuses. */
module Census {
  import opened Particles

  /** A count per status; a missing `Counter` key reads as 0. */
  datatype Tally = Tally(healthy: nat, incubation: nat, infected: nat, recovered: nat)

  /** `sum(c.values())` */
  function Total(t: Tally): nat
  {
    t.healthy + t.incubation + t.infected + t.recovered
  }

  /** The tally with one more particle of status `s`. */
  function Bump(t: Tally, s: Status): Tally
  {
    match s
    case Healthy => t.(healthy := t.healthy + 1)
    case Incubation => t.(incubation := t.incubation + 1)
    case Infected => t.(infected := t.infected + 1)
    case Recovered => t.(recovered := t.recovered + 1)
  }

  /** The census of the first `k` particles: each of them is counted exactly once. */
  function CountUpTo(ps: seq<Particle>, k: nat): (t: Tally)
    requires k <= |ps|
    ensures t.healthy + t.incubation + t.infected + t.recovered == k
    decreases k
  {
    if k == 0 then Tally(0, 0, 0, 0) else Bump(CountUpTo(ps, k - 1), ps[k - 1].infectionStatus)
  }

  /** The census of a particle list. */
  function Count(ps: seq<Particle>): (t: Tally)
    ensures Total(t) == |ps|
  {
    CountUpTo(ps, |ps|)
  }

  /** The cached statuses, in order: what the source hands to `Counter`. */
  function Statuses(ps: seq<Particle>): (r: seq<Status>)
    ensures |r| == |ps| && forall k :: 0 <= k < |ps| ==> r[k] == ps[k].infectionStatus
  {
    seq(|ps|, k requires 0 <= k < |ps| => ps[k].infectionStatus)
  }

  /** The field of a tally that belongs to status `s`. */
  function Field(t: Tally, s: Status): nat
  {
    match s
    case Healthy => t.healthy
    case Incubation => t.incubation
    case Infected => t.infected
    case Recovered => t.recovered
  }

  /** Each field of the census is the multiplicity of its status among the cached statuses, as
      in a `Counter`. */
  lemma {:induction false} CountIsMultiset(ps: seq<Particle>, k: nat, s: Status)
    requires k <= |ps|
    ensures Field(CountUpTo(ps, k), s) == multiset(Statuses(ps)[..k])[s]
    decreases k
  {
    if k > 0 {
      CountIsMultiset(ps, k - 1, s);
      var st := Statuses(ps);
      var x := st[k - 1];
      var before := Field(CountUpTo(ps, k - 1), s);
      assert before == multiset(st[..k - 1])[s];
      assert st[..k] == st[..k - 1] + [x];
      assert multiset(st[..k]) == multiset(st[..k - 1]) + multiset{x};
      assert multiset(st[..k])[s] == before + (if x == s then 1 else 0);
      FieldBump(CountUpTo(ps, k - 1), x, s);
    }
  }

  lemma FieldBump(t: Tally, x: Status, s: Status)
    ensures Field(Bump(t, x), s) == Field(t, s) + (if x == s then 1 else 0)
  {
  }

  /** The census only looks at the cached statuses. */
  lemma {:induction false} CountSameStatuses(ps: seq<Particle>, qs: seq<Particle>, k: nat)
    requires k <= |ps| == |qs|
    requires forall t :: 0 <= t < |ps| ==> ps[t].infectionStatus == qs[t].infectionStatus
    ensures CountUpTo(ps, k) == CountUpTo(qs, k)
    decreases k
  {
    if k > 0 {
      CountSameStatuses(ps, qs, k - 1);
    }
  }
}
