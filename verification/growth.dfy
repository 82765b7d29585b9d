/** The `run` loop of `FibonacciFlower`: every `periodicity` time steps a seed
    is created on the meristem circle at the least crowded sampled angle, then
    every seed (the new one included) drifts one Euler step away from the
    origin; the loop stops once the step counter passes `end`. Sleeping,
    repainting and the lock shared with the painter are not modelled. */
module Growth {
  import opened IntMath
  import opened JavaInts
  import opened SeedField
  import opened AngleSearch

  /** The drift pass from index `i` on: each seed in turn is replaced by its
      radial step, which reads its own position from the list as it stands. */
  function DriftFrom(m: Maths, p: Params, s: Seeds, i: nat): (t: Seeds)
    requires Valid(s) && i <= s.nSeeds
    ensures Valid(t) && t.nSeeds == s.nSeeds
    decreases s.nSeeds - i
  {
    if i < s.nSeeds then
      var moved := RadialStep(m, p, s, i, Pos(s, i));
      DriftFrom(m, p, s.(pos := s.pos[i := moved]), i + 1)
    else s
  }

  /** The whole drift pass: `for (i = 0; i < nSeeds; i++) pos.set(i, ...)`. */
  function DriftPass(m: Maths, p: Params, s: Seeds): (t: Seeds)
    requires Valid(s)
    ensures Valid(t) && t.nSeeds == s.nSeeds
  {
    DriftFrom(m, p, s, 0)
  }

  /** The in-place pass updates the seeds from index `i` on exactly as if each
      were moved from its own old position, leaving earlier ones alone. */
  lemma {:induction false} DriftFromPointwise(m: Maths, p: Params, s: Seeds, i: nat)
    requires Valid(s) && i <= s.nSeeds
    ensures var t := DriftFrom(m, p, s, i);
      && t.pos[..i] == s.pos[..i]
      && forall k :: i <= k < |s.pos| ==> t.pos[k] == Outward(m, p, s.pos[k])
    decreases s.nSeeds - i
  {
    if i < s.nSeeds {
      RadialStepIsOutward(m, p, s, i);
      var s' := s.(pos := s.pos[i := RadialStep(m, p, s, i, Pos(s, i))]);
      DriftFromPointwise(m, p, s', i + 1);
      assert s'.pos[..i] == s.pos[..i];
    }
  }

  /** The drift pass moves every seed by one reference step, and only that. */
  lemma DriftPassPointwise(m: Maths, p: Params, s: Seeds)
    requires Valid(s)
    ensures |DriftPass(m, p, s).pos| == |s.pos|
    ensures forall k :: 0 <= k < |s.pos| ==> DriftPass(m, p, s).pos[k] == Outward(m, p, s.pos[k])
  {
    DriftFromPointwise(m, p, s, 0);
  }

  /** Whether the loop body at time step `t` creates a seed:
      `t_count % periodicity == 0` with Java's remainder. */
  predicate Nucleates(p: Params, t: nat)
    requires p.periodicity != 0
  {
    JavaRem(t, p.periodicity) == 0
  }

  /** One pass of the loop body at time step `t`. */
  function Tick(m: Maths, p: Params, s: Seeds, t: nat): (s': Seeds)
    requires Valid(s) && p.periodicity != 0
    ensures Valid(s')
    ensures s'.nSeeds == s.nSeeds + (if Nucleates(p, t) then 1 else 0)
  {
    var grown :=
      if Nucleates(p, t) then
        Add(s, m, p.meristemRadius, PotentialMin(m, p.growth, s, p.meristemRadius))
      else s;
    DriftPass(m, p, grown)
  }

  /** Within one pass, every seed that existed before moves one reference
      step, and a seed created in the pass is placed on the meristem circle at
      the minimising angle and then moved one step as well. */
  lemma TickMovesEverySeed(m: Maths, p: Params, s: Seeds, t: nat)
    requires Valid(s) && p.periodicity != 0
    ensures forall k :: 0 <= k < |s.pos| ==> Tick(m, p, s, t).pos[k] == Outward(m, p, s.pos[k])
    ensures Nucleates(p, t) ==>
      Tick(m, p, s, t).pos[|s.pos|]
        == Outward(m, p, Pol2Cart(m, p.meristemRadius, PotentialMin(m, p.growth, s, p.meristemRadius)))
  {
    if Nucleates(p, t) {
      var grown := Add(s, m, p.meristemRadius, PotentialMin(m, p.growth, s, p.meristemRadius));
      DriftPassPointwise(m, p, grown);
      forall k | 0 <= k < |s.pos| ensures grown.pos[k] == s.pos[k] {
        assert grown.pos[..|s.pos|][k] == grown.pos[k];
      }
    } else {
      DriftPassPointwise(m, p, s);
    }
  }

  /** Number of time steps among 0 .. t-1 on which a seed is created. */
  function Nucleations(t: nat, periodicity: int): nat
    requires periodicity != 0
  {
    if t == 0 then 0
    else Nucleations(t - 1, periodicity) + (if JavaRem(t - 1, periodicity) == 0 then 1 else 0)
  }

  /** The seeds created in the first `t` steps are the multiples of the
      period below `t`: ceiling(t / |periodicity|) of them. */
  lemma {:induction false} NucleationsCount(t: nat, periodicity: int)
    requires periodicity != 0
    ensures Nucleations(t, periodicity) == (t + Abs(periodicity) - 1) / Abs(periodicity)
  {
    var q := Abs(periodicity);
    if t > 0 {
      NucleationsCount(t - 1, periodicity);
      assert JavaRem(t - 1, periodicity) == (t - 1) % q;
      CeilingStep(t - 1, q);
    } else {
      DivUnique(q - 1, q, 0, q - 1);
    }
  }

  /** ceiling((a + 1) / q) grows past ceiling(a / q) exactly when q divides a. */
  lemma {:induction false} CeilingStep(a: nat, q: int)
    requires q > 0
    ensures (a + q) / q == (a + q - 1) / q + (if a % q == 0 then 1 else 0)
  {
    var d, r := a / q, a % q;
    assert a == d * q + r;
    MulSub(d + 1, 1, q);
    DivUnique(a + q, q, d + 1, r);
    if r == 0 {
      DivUnique(a + q - 1, q, d, q - 1);
    } else {
      DivUnique(a + q - 1, q, d + 1, r - 1);
    }
  }

  /** The state after the first `n` passes of the loop body, started from
      the empty field a new `FibonacciFlower` holds. */
  function Simulate(m: Maths, p: Params, n: nat): (s: Seeds)
    requires p.periodicity != 0
    ensures Valid(s)
    ensures s.nSeeds == Nucleations(n, p.periodicity)
  {
    if n == 0 then Empty() else Tick(m, p, Simulate(m, p, n - 1), n - 1)
  }

  /** The first pass always creates a seed, on an empty field, so at angle 0;
      it has drifted one step when the pass ends. */
  lemma {:induction false} FirstSeedAtAngleZero(m: Maths, p: Params)
    requires p.periodicity != 0
    ensures Simulate(m, p, 1).pos == [Outward(m, p, Pol2Cart(m, p.meristemRadius, 0.0))]
  {
    var s := Empty();
    assert Nucleates(p, 0);
    EmptyFieldPicksAngleZero(m, p.growth, s, p.meristemRadius);
    TickMovesEverySeed(m, p, s, 0);
  }

  /** With the class's own field values (period 3, end 3250) the loop body
      runs 3251 times and leaves 1084 seeds. */
  lemma {:induction false} DefaultRunSeedCount(m: Maths)
    ensures Max(Defaults.end, 0) + 1 == 3251
    ensures Simulate(m, Defaults, Max(Defaults.end, 0) + 1).nSeeds == 1084
  {
    var n := Max(Defaults.end, 0) + 1;
    assert n == 3251;
    NucleationsCount(n, Defaults.periodicity);
    assert Abs(Defaults.periodicity) == 3 && (n + 3 - 1) / 3 == 1084;
  }

  /** `run`: passes 0, 1, ... of the loop body until the counter exceeds
      `end`. The test comes after the body, so at least one pass runs. The
      passes start from an empty field: this is `new FibonacciFlower().run()`,
      the only call the program's `main` makes. */
  method Run(m: Maths, p: Params) returns (s: Seeds, t: nat)
    requires p.periodicity != 0
    ensures t == Max(p.end, 0) + 1
    ensures s == Simulate(m, p, t)
  {
    s := Empty();
    t := 0;
    while true
      invariant t <= Max(p.end, 0)
      invariant s == Simulate(m, p, t)
      decreases Max(p.end, 0) - t
    {
      s := Tick(m, p, s, t);
      t := t + 1;
      if t > p.end {
        break;
      }
    }
  }
}
