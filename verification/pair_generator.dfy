/** The state and the stepping code that the `Fibonacci` and `Lucas` classes
    share line for line: a pair (last, current) advanced by the Fibonacci
    recurrence in Java `long` arithmetic, the list of every value produced,
    and the counter `numbers_index`. Only the constructors and the invariants
    they establish differ; those live in `FibonacciSeq` and `LucasSeq`. The
    `ratio` field (a double) is not modelled. */
module PairGenerator {
  import opened IntMath
  import opened JavaInts
  import opened Recurrences

  datatype Generator = Generator(current: int, last: int, numbers: seq<int>, numbersIndex: int)

  /** The shape every step keeps: from index 2 on each entry is the 64-bit
      sum of the two before it, and the list ends with `last, current`. */
  ghost predicate Recurrent(g: Generator) {
    && |g.numbers| >= 2
    && (forall i :: 2 <= i < |g.numbers| ==> LongSumAt(g.numbers, i))
    && g.last == g.numbers[|g.numbers| - 2]
    && g.current == g.numbers[|g.numbers| - 1]
  }

  /** How far `numbersIndex` is from the length of the list. */
  function IndexOffset(g: Generator): int {
    g.numbersIndex - |g.numbers|
  }

  /** `update`: add `current` to the list and count it. */
  function Update(g: Generator): (h: Generator)
    ensures |h.numbers| == |g.numbers| + 1 && h.numbers[..|g.numbers|] == g.numbers
    ensures h.numbers[|g.numbers|] == g.current
    ensures h.current == g.current && h.last == g.last
    ensures IndexOffset(h) == IndexOffset(g)
  {
    g.(numbers := g.numbers + [g.current], numbersIndex := g.numbersIndex + 1)
  }

  /** `step`: `current += last` (wrapping at 64 bits), `last` takes the old
      `current`, then `update`. */
  function Step(g: Generator): (h: Generator)
    ensures h.current == WrapLong(g.current + g.last) && h.last == g.current
    ensures |h.numbers| == |g.numbers| + 1 && h.numbers[..|g.numbers|] == g.numbers
    ensures h.numbers[|g.numbers|] == h.current
    ensures IndexOffset(h) == IndexOffset(g)
    ensures Recurrent(g) ==> Recurrent(h)
  {
    var cache := g.current;
    var h := Update(g.(current := WrapLong(g.current + g.last), last := cache));
    assert Recurrent(g) ==> forall i :: 2 <= i < |h.numbers| ==> LongSumAt(h.numbers, i) by {
      if Recurrent(g) {
        forall i | 2 <= i < |h.numbers| ensures LongSumAt(h.numbers, i) {
          if i < |g.numbers| {
            assert LongSumAt(g.numbers, i);
          }
        }
      }
    }
    h
  }

  /** `nsteps(n)`: step while `n > 0`, decrementing `n`. */
  function NSteps(g: Generator, n: int): (h: Generator)
    ensures |h.numbers| == |g.numbers| + Max(n, 0)
    ensures h.numbers[..|g.numbers|] == g.numbers
    ensures IndexOffset(h) == IndexOffset(g)
    ensures Recurrent(g) ==> Recurrent(h)
    decreases n
  {
    if n > 0 then NSteps(Step(g), n - 1) else g
  }

  /** A non-positive count leaves the generator untouched. */
  lemma {:induction false} NStepsNonPositive(g: Generator, n: int)
    requires n <= 0
    ensures NSteps(g, n) == g
  {
  }

  /** Running `nsteps(a)` and then `nsteps(b)` is running `nsteps` once on
      the sum of the counts, a non-positive count contributing nothing. */
  lemma NStepsAdd(g: Generator, a: int, b: int)
    ensures NSteps(NSteps(g, a), b) == NSteps(g, Max(a, 0) + Max(b, 0))
  {
    if a <= 0 {
      NStepsNonPositive(g, a);
    }
    if b <= 0 {
      NStepsNonPositive(NSteps(g, a), b);
      NStepsNonPositive(g, 0);
    }
    if a > 0 && b > 0 {
      NStepsAddCounts(g, a, b);
    }
  }

  /** `NStepsAdd` for positive counts, by induction on the first. */
  lemma {:induction false} NStepsAddCounts(g: Generator, a: nat, b: nat)
    ensures NSteps(NSteps(g, a), b) == NSteps(g, a + b)
    decreases a
  {
    if a > 0 {
      assert NSteps(g, a) == NSteps(Step(g), a - 1);
      assert NSteps(g, a + b) == NSteps(Step(g), a - 1 + b);
      NStepsAddCounts(Step(g), a - 1, b);
    }
  }

  /** Steps both `main` methods ask for on argument `n`: `n - 3` if `n > 3`,
      else none. */
  function MainSteps(n: int): (k: nat)
    ensures k == Max(n, 3) - 3
  {
    if n > 3 then n - 3 else 0
  }
}
