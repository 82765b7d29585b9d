/** `Seeds.potential_min`: a grid search for the angle on a circle where the
    seeds' potential is lowest. Angles are sampled from 0 in steps of 0.05
    while below 2*pi; the k-th sample is taken as exactly k * 0.05 (the
    floating-point accumulation of `angle += dphi` is not modelled). */
module AngleSearch {
  import opened SeedField

  /** The sampling step `dphi`. */
  const Dphi: real := 0.05
  /** `2*Math.PI` as a double, written in decimal. */
  const TwoPi: real := 6.283185307179586
  /** The initial "worst" potential `pot`. */
  const Sentinel: real := 1000000.0
  /** Number of samples: the k with k * 0.05 < 2*pi are 0 .. 125. */
  const SampleCount: nat := 126

  function SampleAngle(k: nat): (a: real)
    ensures a >= 0.0
    ensures a < TwoPi <==> k < SampleCount
  {
    k as real * Dphi
  }

  /** The potential at each sampled point of the circle of radius `radius`,
      in sampling order. */
  function Samples(m: Maths, growth: real, s: Seeds, radius: real): (vals: seq<real>)
    requires Valid(s)
    ensures |vals| == SampleCount
    ensures forall k :: 0 <= k < SampleCount ==>
      vals[k] == Potential(m, growth, s, Pol2Cart(m, radius, SampleAngle(k)))
  {
    seq(SampleCount, k requires 0 <= k < SampleCount =>
      Potential(m, growth, s, Pol2Cart(m, radius, SampleAngle(k))))
  }

  /** Sample `k` is the first strict minimum of `vals[..n]` among the values
      below the sentinel: every earlier sample is strictly larger, no later
      one (before `n`) is smaller. */
  ghost predicate BestUpTo(vals: seq<real>, n: int, k: int)
    requires n <= |vals|
  {
    && 0 <= k < n
    && vals[k] < Sentinel
    && (forall j :: 0 <= j < k ==> vals[k] < vals[j])
    && (forall j :: k < j < n ==> vals[k] <= vals[j])
  }

  ghost predicate IsFirstMin(vals: seq<real>, k: int) {
    BestUpTo(vals, |vals|, k)
  }

  /** The loop of `potential_min` from sample `k` on, with running minimum
      `pot` and its angle `phiCrit`: a sample replaces them only when `pot` is
      strictly greater than it. */
  function Scan(vals: seq<real>, k: nat, pot: real, phiCrit: real): real
    requires |vals| == SampleCount && k <= SampleCount
    decreases SampleCount - k
  {
    var angle := SampleAngle(k);
    if angle < TwoPi then
      if pot > vals[k] then Scan(vals, k + 1, vals[k], angle)
      else Scan(vals, k + 1, pot, phiCrit)
    else phiCrit
  }

  /** The scan's state after samples `0 .. k-1`: with `best` = -1 nothing below
      the sentinel has been seen and the initial values are untouched;
      otherwise `best` is the first strict minimum so far and its value and
      angle are held. */
  ghost predicate ScanState(vals: seq<real>, k: nat, pot: real, phiCrit: real, best: int)
    requires |vals| == SampleCount && k <= SampleCount
  {
    if best == -1 then
      pot == Sentinel && phiCrit == TwoPi && forall j :: 0 <= j < k ==> vals[j] >= Sentinel
    else
      BestUpTo(vals, k, best) && pot == vals[best] && phiCrit == SampleAngle(best)
  }

  /** At most one sample is the first strict minimum. */
  lemma FirstMinUnique(vals: seq<real>, j: int, k: int)
    requires IsFirstMin(vals, j) && IsFirstMin(vals, k)
    ensures j == k
  {
  }

  /** Running the scan from a state described by `best` ends in the state the
      returned `b` describes: `b` = -1 when no sample lies below the sentinel
      (the result is then 2*pi), otherwise `b` is the first strict minimum of
      all samples and the result is its angle. */
  lemma {:induction false} ScanSelects(vals: seq<real>, k: nat, pot: real, phiCrit: real, best: int)
      returns (b: int)
    requires |vals| == SampleCount && k <= SampleCount
    requires ScanState(vals, k, pot, phiCrit, best)
    ensures b == -1 ==> Scan(vals, k, pot, phiCrit) == TwoPi
    ensures b == -1 ==> forall j :: 0 <= j < |vals| ==> vals[j] >= Sentinel
    ensures b != -1 ==> IsFirstMin(vals, b) && Scan(vals, k, pot, phiCrit) == SampleAngle(b)
    decreases SampleCount - k
  {
    if k == SampleCount {
      b := best;
    } else if pot > vals[k] {
      assert BestUpTo(vals, k + 1, k) by {
        if best != -1 {
          assert vals[k] < vals[best];
        }
      }
      b := ScanSelects(vals, k + 1, vals[k], SampleAngle(k), k);
    } else {
      assert ScanState(vals, k + 1, pot, phiCrit, best);
      b := ScanSelects(vals, k + 1, pot, phiCrit, best);
    }
  }

  /** `potential_min(radius)`: the angle of the first sample with the lowest
      potential, provided that potential is below 1000000; 2*pi (an angle no
      sample has) when none is. */
  function PotentialMin(m: Maths, growth: real, s: Seeds, radius: real): (phi: real)
    requires Valid(s)
    ensures var vals := Samples(m, growth, s, radius);
      && (forall k :: IsFirstMin(vals, k) ==> phi == SampleAngle(k))
      && (phi == TwoPi <==> forall j :: 0 <= j < SampleCount ==> vals[j] >= Sentinel)
  {
    var vals := Samples(m, growth, s, radius);
    assert forall c :: IsFirstMin(vals, c) ==> Scan(vals, 0, Sentinel, TwoPi) == SampleAngle(c) by {
      var b := ScanSelects(vals, 0, Sentinel, TwoPi, -1);
      forall c | IsFirstMin(vals, c) ensures Scan(vals, 0, Sentinel, TwoPi) == SampleAngle(c) {
        if b != -1 {
          FirstMinUnique(vals, b, c);
        }
      }
    }
    assert Scan(vals, 0, Sentinel, TwoPi) == TwoPi <==> forall j :: 0 <= j < SampleCount ==> vals[j] >= Sentinel by {
      var b := ScanSelects(vals, 0, Sentinel, TwoPi, -1);
    }
    Scan(vals, 0, Sentinel, TwoPi)
  }

  /** The result is 2*pi or the angle of a sample that is the first strict
      minimum (so a first strict minimum exists whenever the result is not
      2*pi). */
  lemma {:induction false} PotentialMinIsFirstMin(m: Maths, growth: real, s: Seeds, radius: real)
    requires Valid(s)
    ensures var phi := PotentialMin(m, growth, s, radius);
      phi == TwoPi || exists k :: IsFirstMin(Samples(m, growth, s, radius), k) && phi == SampleAngle(k)
  {
    var vals := Samples(m, growth, s, radius);
    var b := ScanSelects(vals, 0, Sentinel, TwoPi, -1);
  }

  /** On an empty field every sample has potential 0, so the strict `>` keeps
      the first one: the new seed goes at angle 0. */
  lemma EmptyFieldPicksAngleZero(m: Maths, growth: real, s: Seeds, radius: real)
    requires Valid(s) && s.nSeeds == 0
    ensures PotentialMin(m, growth, s, radius) == 0.0
  {
    var vals := Samples(m, growth, s, radius);
    assert forall k :: 0 <= k < SampleCount ==> vals[k] == 0.0;
    assert IsFirstMin(vals, 0);
  }
}
