/** The `Fibonacci` class: the shared pair generator started from
    (last, current) = (1, 2) with the list 1, 1, 2. Every addition in the
    constructor is counted, so `numbersIndex` equals the list length. */
module FibonacciSeq {
  import opened IntMath
  import opened JavaInts
  import opened Recurrences
  import opened PairGenerator

  /** The class invariant: the list starts 1, 1, follows the (64-bit wrapping)
      recurrence, ends with `last, current`, and `numbersIndex` counts it. */
  ghost predicate Valid(f: Generator) {
    && Recurrent(f)
    && |f.numbers| >= 3
    && f.numbers[0] == 1 && f.numbers[1] == 1
    && f.numbersIndex == |f.numbers|
  }

  /** `numbers[i]` is the (i+1)-th Fibonacci number for every stored index. */
  ghost predicate IsFibPrefix(s: seq<int>) {
    forall i :: 0 <= i < |s| ==> s[i] == Fib(i + 1)
  }

  /** The constructor: current = 2, last = 1, then `last`, `last`, `current`
      are added, each addition followed by `numbers_index++`. */
  function New(): (f: Generator)
    ensures f.numbers == [1, 1, 2] && f.last == 1 && f.current == 2
    ensures f.numbersIndex == 3
    ensures Valid(f) && IsFibPrefix(f.numbers)
  {
    var f0 := Generator(2, 1, [], 0);
    var f1 := f0.(numbers := f0.numbers + [f0.last], numbersIndex := f0.numbersIndex + 1);
    var f2 := f1.(numbers := f1.numbers + [f1.last], numbersIndex := f1.numbersIndex + 1);
    f2.(numbers := f2.numbers + [f2.current], numbersIndex := f2.numbersIndex + 1)
  }

  /** Stepping keeps the class invariant. */
  lemma NStepsKeepsValid(f: Generator, n: int)
    requires Valid(f)
    ensures Valid(NSteps(f, n))
  {
  }

  /** The state `main` prints for argument `n`. */
  function Main(n: int): (f: Generator)
    ensures |f.numbers| == Max(n, 3)
    ensures f.numbersIndex == |f.numbers|
    ensures Valid(f)
  {
    NStepsKeepsValid(New(), MainSteps(n));
    NSteps(New(), MainSteps(n))
  }

  /** Up to index 91 the wrapping recurrence never wraps: every stored value is
      the exact Fibonacci number and fits in a `long`. */
  lemma {:induction false} ValidIsExactBelow92(f: Generator, i: nat)
    requires Valid(f)
    requires i < |f.numbers| && i < 92
    ensures f.numbers[i] == Fib(i + 1)
    ensures 0 < f.numbers[i] <= LongMax
  {
    FibFitsLong(i + 1);
    if i >= 2 {
      ValidIsExactBelow92(f, i - 1);
      ValidIsExactBelow92(f, i - 2);
      assert LongSumAt(f.numbers, i);
    }
  }

  /** A valid list of at most 92 entries is exactly F(1) .. F(|numbers|). */
  lemma ShortValidIsFibPrefix(f: Generator)
    requires Valid(f) && |f.numbers| <= 92
    ensures IsFibPrefix(f.numbers)
    ensures forall i :: 0 <= i < |f.numbers| ==> 0 < f.numbers[i] <= LongMax
  {
    forall i | 0 <= i < |f.numbers|
      ensures f.numbers[i] == Fib(i + 1) && 0 < f.numbers[i] <= LongMax
    {
      ValidIsExactBelow92(f, i);
    }
  }

  /** For N <= 92 (the bound the class comment gives), `main` prints the first
      max(N, 3) Fibonacci numbers, all representable as `long`. */
  lemma {:induction false} MainIsExactUpTo92(n: int)
    requires n <= 92
    ensures var f := Main(n);
      && IsFibPrefix(f.numbers)
      && forall i :: 0 <= i < |f.numbers| ==> 0 < f.numbers[i] <= LongMax
  {
    ShortValidIsFibPrefix(Main(n));
  }

  /** The bound is tight: from N = 93 on, the 93rd printed value is F(93)
      wrapped to a negative `long`. */
  lemma {:induction false} MainWrapsFrom93(n: int)
    requires n >= 93
    ensures |Main(n).numbers| >= 93
    ensures Main(n).numbers[92] == Fib(93) - LongModulus < 0
  {
    var f := Main(n);
    FibLongLimit();
    ValidIsExactBelow92(f, 90);
    ValidIsExactBelow92(f, 91);
    assert LongSumAt(f.numbers, 92);
    WrapLongOnce(Fib(93));
  }
}
