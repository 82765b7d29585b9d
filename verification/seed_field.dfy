/** The nested `Seeds` class of the flower simulation: an append-only list of
    seed positions, geometric queries on it, the outward drift of a seed and
    the repulsive potential the seeds create. The search for the least
    crowded angle is in `AngleSearch`.

    Positions are Java `double` pairs, modelled as exact reals. The
    `java.lang.Math` functions are not computed: their values come in through
    a `Maths` record, so every statement here holds whatever they return. */
module SeedField {

  /** A point of the plane: the `double[] {x, y}` the class stores. */
  datatype Vec = Vec(x: real, y: real)

  /** Uninterpreted stand-ins for `Math.cos`, `Math.sin`, `Math.sqrt`,
      `Math.atan2` and the floating-point reciprocal `1./d` (which yields
      infinity at zero and so has no exact real counterpart). */
  datatype Maths = Maths(
    cos: real -> real,
    sin: real -> real,
    sqrt: real -> real,
    atan2: (real, real) -> real,
    recip: real -> real)

  /** The simulation fields of `FibonacciFlower`: the seeds read the first
      four, the `run` loop reads `periodicity` and `end`. */
  datatype Params = Params(
    meristemRadius: real,  // radius of the circle new seeds are placed on
    growth: real,          // interaction strength GROWTH
    vr: real,              // radial drift speed VR
    dt: real,              // Euler time step
    periodicity: int,      // a seed is created every `periodicity` steps
    end: int)              // last time step of the animation

  /** The values the class initialises its fields with. */
  const Defaults: Params := Params(0.5, 1.0, 1.0, 0.05, 3, 3250)

  /** The list of positions and the separately kept count `nSeeds`. */
  datatype Seeds = Seeds(pos: seq<Vec>, nSeeds: int)

  /** The class invariant: the counter agrees with the list. */
  predicate Valid(s: Seeds) {
    s.nSeeds == |s.pos|
  }

  /** The constructor: no seeds. */
  function Empty(): (s: Seeds)
    ensures Valid(s) && s.nSeeds == 0
  {
    Seeds([], 0)
  }

  /** `pol2cart`: the point at distance `r` and angle `phi`. */
  function Pol2Cart(m: Maths, r: real, phi: real): Vec {
    Vec(r * m.cos(phi), r * m.sin(phi))
  }

  /** `add`: the seed at polar (r, phi) joins the end of the list. */
  function Add(s: Seeds, m: Maths, r: real, phi: real): (t: Seeds)
    ensures |t.pos| == |s.pos| + 1 && t.nSeeds == s.nSeeds + 1
    ensures t.pos[..|s.pos|] == s.pos
    ensures t.pos[|s.pos|] == Pol2Cart(m, r, phi)
    ensures Valid(s) ==> Valid(t)
  {
    Seeds(s.pos + [Pol2Cart(m, r, phi)], s.nSeeds + 1)
  }

  /** `pos(i)`: the stored seed, or the origin for an index past the end.
      A negative index is not guarded by the class (the list lookup would
      throw), so it is excluded here. */
  function Pos(s: Seeds, i: int): (v: Vec)
    requires Valid(s) && 0 <= i
    ensures i < |s.pos| ==> v == s.pos[i]
    ensures i >= |s.pos| ==> v == Vec(0.0, 0.0)
  {
    if i < s.nSeeds then s.pos[i] else Vec(0.0, 0.0)
  }

  /** After `add`, the getter returns the new seed at the old count and the
      same seeds as before below it; past the new end it still falls back to
      the origin. */
  lemma PosAfterAdd(s: Seeds, m: Maths, r: real, phi: real, i: int)
    requires Valid(s) && 0 <= i
    ensures var t := Add(s, m, r, phi);
      && (i < s.nSeeds ==> Pos(t, i) == Pos(s, i))
      && (i == s.nSeeds ==> Pos(t, i) == Pol2Cart(m, r, phi))
      && (i > s.nSeeds ==> Pos(t, i) == Vec(0.0, 0.0))
  {
    var t := Add(s, m, r, phi);
    if i < s.nSeeds {
      assert t.pos[..|s.pos|][i] == t.pos[i];
    }
  }

  /** `phi(i)`: the angular coordinate of seed `i`. */
  function Phi(m: Maths, s: Seeds, i: int): real
    requires Valid(s) && 0 <= i
  {
    var v := Pos(s, i);
    m.atan2(v.y, v.x)
  }

  /** `drift`: one explicit Euler step, componentwise, of length `dt`. */
  function Drift(coords: Vec, speed: Vec, dt: real): (next: Vec)
    ensures next.x - coords.x == dt * speed.x
    ensures next.y - coords.y == dt * speed.y
  {
    Vec(coords.x + dt * speed.x, coords.y + dt * speed.y)
  }

  /** `radial_vel(i, speed)`: velocity of magnitude `speed` along the
      direction of seed `i` as seen from the origin. */
  function RadialVel(m: Maths, s: Seeds, i: int, radialSpeed: real): Vec
    requires Valid(s) && 0 <= i
  {
    var angle := Phi(m, s, i);
    Vec(radialSpeed * m.cos(angle), radialSpeed * m.sin(angle))
  }

  /** `radial_step(i, coords)`: drift `coords` along seed `i`'s radial
      velocity for one time step. */
  function RadialStep(m: Maths, p: Params, s: Seeds, i: int, coords: Vec): Vec
    requires Valid(s) && 0 <= i
  {
    Drift(coords, RadialVel(m, s, i, p.vr), p.dt)
  }

  /** Where a seed at `v` is after one drift step, computed from `v` alone:
      the reference the drift pass is compared with. */
  function Outward(m: Maths, p: Params, v: Vec): Vec {
    var a := m.atan2(v.y, v.x);
    Drift(v, Vec(p.vr * m.cos(a), p.vr * m.sin(a)), p.dt)
  }

  /** Seed `i`'s own radial step is the reference step of its position. */
  lemma RadialStepIsOutward(m: Maths, p: Params, s: Seeds, i: int)
    requires Valid(s) && 0 <= i < |s.pos|
    ensures RadialStep(m, p, s, i, Pos(s, i)) == Outward(m, p, s.pos[i])
  {
    var v := s.pos[i];
    assert Pos(s, i) == v;
    var angle := m.atan2(v.y, v.x);
    assert Phi(m, s, i) == angle;
    var vel := Vec(p.vr * m.cos(angle), p.vr * m.sin(angle));
    assert RadialVel(m, s, i, p.vr) == vel;
    assert Outward(m, p, v) == Drift(v, vel, p.dt);
  }

  /** The drift law: when the angle `atan2` reports for a point of polar
      form (rho, theta) has the cosine and sine of `theta`, one step keeps the
      seed on its ray and adds `dt * vr` to its radius. */
  lemma OutwardIsRadial(m: Maths, p: Params, rho: real, theta: real)
    requires var v := Pol2Cart(m, rho, theta);
      && m.cos(m.atan2(v.y, v.x)) == m.cos(theta)
      && m.sin(m.atan2(v.y, v.x)) == m.sin(theta)
    ensures Outward(m, p, Pol2Cart(m, rho, theta)) == Pol2Cart(m, rho + p.dt * p.vr, theta)
  {
    var v := Pol2Cart(m, rho, theta);
    var c, sn := m.cos(theta), m.sin(theta);
    assert v.x + p.dt * (p.vr * c) == (rho + p.dt * p.vr) * c;
    assert v.y + p.dt * (p.vr * sn) == (rho + p.dt * p.vr) * sn;
  }

  // ---------------------------------------------------------------------
  // The potential field

  /** Contribution of one seed at `seed` to the potential at `q`:
      GROWTH / |seed - q|, with the square root and reciprocal uninterpreted. */
  function Term(m: Maths, growth: real, seed: Vec, q: Vec): real {
    var dx := seed.x - q.x;
    var dy := seed.y - q.y;
    growth * m.recip(m.sqrt(dx * dx + dy * dy))
  }

  /** The loop of `potential` over a list of seeds, in index order: a seed
      whose coordinates both equal those of `q` is skipped. */
  function PotentialOver(m: Maths, growth: real, seeds: seq<Vec>, q: Vec): (r: real)
    ensures |seeds| == 0 ==> r == 0.0
    decreases |seeds|
  {
    if |seeds| == 0 then 0.0
    else
      var last := seeds[|seeds| - 1];
      PotentialOver(m, growth, seeds[..|seeds| - 1], q)
        + (if last == q then 0.0 else Term(m, growth, last, q))
  }

  /** `potential(position)`: the sum over the first `nSeeds` stored seeds. */
  function Potential(m: Maths, growth: real, s: Seeds, q: Vec): real
    requires Valid(s)
  {
    PotentialOver(m, growth, s.pos, q)
  }

  /** The potential of a field split in two is the sum of the potentials of
      its parts: each seed contributes independently of the others. */
  lemma {:induction false} PotentialSplit(m: Maths, growth: real, a: seq<Vec>, b: seq<Vec>, q: Vec)
    ensures PotentialOver(m, growth, a + b, q) == PotentialOver(m, growth, a, q) + PotentialOver(m, growth, b, q)
    decreases |b|
  {
    if |b| > 0 {
      var b' := b[..|b| - 1];
      assert (a + b)[..|a + b| - 1] == a + b';
      assert (a + b)[|a + b| - 1] == b[|b| - 1];
      PotentialSplit(m, growth, a, b', q);
    } else {
      assert a + b == a;
    }
  }

  /** A single seed contributes GROWTH / distance to the query point, or
      nothing when it sits exactly on it. With `PotentialSplit` this fixes the
      potential of every list of seeds. */
  lemma PotentialOfOne(m: Maths, growth: real, v: Vec, q: Vec)
    ensures PotentialOver(m, growth, [v], q) == (if v == q then 0.0 else Term(m, growth, v, q))
  {
    assert [v][..0] == [];
  }

  /** A seed sitting exactly on the query point adds nothing: the potential
      at a seed's own position leaves that seed out. */
  lemma PotentialSkipsCoincident(m: Maths, growth: real, a: seq<Vec>, b: seq<Vec>, q: Vec)
    ensures PotentialOver(m, growth, a + [q] + b, q) == PotentialOver(m, growth, a + b, q)
  {
    PotentialSplit(m, growth, a + [q], b, q);
    PotentialSplit(m, growth, a, [q], q);
    PotentialSplit(m, growth, a, b, q);
    assert [q][..0] == [];
  }

  /** With only seeds on the query point (or none at all) the potential is 0. */
  lemma {:induction false} PotentialOfCoincidentIsZero(m: Maths, growth: real, seeds: seq<Vec>, q: Vec)
    requires forall j :: 0 <= j < |seeds| ==> seeds[j] == q
    ensures PotentialOver(m, growth, seeds, q) == 0.0
    decreases |seeds|
  {
    if |seeds| > 0 {
      PotentialOfCoincidentIsZero(m, growth, seeds[..|seeds| - 1], q);
    }
  }
}
