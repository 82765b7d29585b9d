/** The `Lucas` class: the shared pair generator started from
    (last, current) = (2, 1) with the list 2, 1. The constructor adds two
    values but counts only one, so `numbersIndex` trails the list length by
    one for the whole life of the object. */
module LucasSeq {
  import opened JavaInts
  import opened Recurrences
  import opened PairGenerator

  /** The class invariant: the list starts 2, 1, follows the (64-bit wrapping)
      recurrence, ends with `last, current`, and `numbersIndex` is one less
      than its length. */
  ghost predicate Valid(l: Generator) {
    && Recurrent(l)
    && l.numbers[0] == 2 && l.numbers[1] == 1
    && l.numbersIndex == |l.numbers| - 1
  }

  /** `numbers[i]` is the i-th Lucas number for every stored index. */
  ghost predicate IsLucasPrefix(s: seq<int>) {
    forall i :: 0 <= i < |s| ==> s[i] == Lucas(i)
  }

  /** The constructor: current = 1, last = 2, then `last` and `current` are
      added and `numbers_index++` runs once. */
  function New(): (l: Generator)
    ensures l.numbers == [2, 1] && l.last == 2 && l.current == 1
    ensures l.numbersIndex == 1
    ensures Valid(l) && IsLucasPrefix(l.numbers)
  {
    var l0 := Generator(1, 2, [], 0);
    var l1 := l0.(numbers := l0.numbers + [l0.last]);
    var l2 := l1.(numbers := l1.numbers + [l1.current]);
    l2.(numbersIndex := l2.numbersIndex + 1)
  }

  /** Stepping keeps the class invariant, the lagging counter included. */
  lemma NStepsKeepsValid(l: Generator, n: int)
    requires Valid(l)
    ensures Valid(NSteps(l, n))
  {
  }

  /** The state `main` prints for argument `n`: N - 1 values when N > 3,
      otherwise the 2 initial ones. */
  function Main(n: int): (l: Generator)
    ensures |l.numbers| == (if n > 3 then n - 1 else 2)
    ensures l.numbersIndex == |l.numbers| - 1
    ensures Valid(l)
  {
    NStepsKeepsValid(New(), MainSteps(n));
    NSteps(New(), MainSteps(n))
  }

  /** Up to index 90 the wrapping recurrence never wraps: every stored value is
      the exact Lucas number and fits in a `long`. */
  lemma {:induction false} ValidIsExactBelow91(l: Generator, i: nat)
    requires Valid(l)
    requires i < |l.numbers| && i <= 90
    ensures l.numbers[i] == Lucas(i)
    ensures 0 < l.numbers[i] <= LongMax
  {
    LucasFitsLong(i);
    if i >= 2 {
      ValidIsExactBelow91(l, i - 1);
      ValidIsExactBelow91(l, i - 2);
      assert LongSumAt(l.numbers, i);
    }
  }

  /** A valid list of at most 91 entries is exactly L(0) .. L(|numbers| - 1). */
  lemma ShortValidIsLucasPrefix(l: Generator)
    requires Valid(l) && |l.numbers| <= 91
    ensures IsLucasPrefix(l.numbers)
    ensures forall i :: 0 <= i < |l.numbers| ==> 0 < l.numbers[i] <= LongMax
  {
    forall i | 0 <= i < |l.numbers|
      ensures l.numbers[i] == Lucas(i) && 0 < l.numbers[i] <= LongMax
    {
      ValidIsExactBelow91(l, i);
    }
  }

  /** For N <= 92 (the bound the class comment gives), `main` prints the
      Lucas numbers L(0) .. L(N - 2) (just L(0), L(1) for N <= 3), all
      representable as `long`. */
  lemma {:induction false} MainIsExactUpTo92(n: int)
    requires n <= 92
    ensures var l := Main(n);
      && IsLucasPrefix(l.numbers)
      && forall i :: 0 <= i < |l.numbers| ==> 0 < l.numbers[i] <= LongMax
  {
    ShortValidIsLucasPrefix(Main(n));
  }

  /** The bound is tight: from N = 93 on, the 92nd printed value is L(91)
      wrapped to a negative `long`. */
  lemma {:induction false} MainWrapsFrom93(n: int)
    requires n >= 93
    ensures |Main(n).numbers| >= 92
    ensures Main(n).numbers[91] == Lucas(91) - LongModulus < 0
  {
    var l := Main(n);
    assert |l.numbers| >= 92 && Valid(l);
    LucasLongLimit();
    ValidIsExactBelow91(l, 89);
    ValidIsExactBelow91(l, 90);
    assert LongSumAt(l.numbers, 91);
    assert l.numbers[91] == WrapLong(Lucas(89) + Lucas(90));
    assert Lucas(89) + Lucas(90) == Lucas(91);
    WrapLongOnce(Lucas(91));
  }
}
