/** The two integer sequences the generators produce, as mathematical
    definitions over unbounded naturals. */
module Recurrences {
  import opened JavaInts

  /** Fibonacci numbers: F(0) = 0, F(1) = 1, F(n) = F(n-1) + F(n-2). */
  function Fib(n: nat): nat {
    if n < 2 then n else Fib(n - 1) + Fib(n - 2)
  }

  /** Lucas numbers: L(0) = 2, L(1) = 1, L(n) = L(n-1) + L(n-2). */
  function Lucas(n: nat): nat {
    if n == 0 then 2 else if n == 1 then 1 else Lucas(n - 1) + Lucas(n - 2)
  }

  /** Entry `i` of `s` is the sum of the two entries before it, as a Java
      `long` addition computes it. Kept as a named predicate so that the
      recurrence is only unfolded where a proof asks for it. */
  ghost predicate LongSumAt(s: seq<int>, i: int)
    requires 2 <= i < |s|
  {
    s[i] == WrapLong(s[i - 2] + s[i - 1])
  }

  lemma {:induction false} FibMonotone(i: nat, j: nat)
    requires i <= j
    ensures Fib(i) <= Fib(j)
    decreases j - i
  {
    if i < j {
      FibMonotone(i, j - 1);
      assert Fib(j - 1) <= Fib(j) by {
        if j >= 2 { assert Fib(j) == Fib(j - 1) + Fib(j - 2); }
      }
    }
  }

  /** Each Lucas number is the sum of the two Fibonacci numbers around it. */
  lemma {:induction false} LucasFromFib(n: nat)
    requires n >= 1
    ensures Lucas(n) == Fib(n - 1) + Fib(n + 1)
  {
    if n >= 3 {
      LucasFromFib(n - 1);
      LucasFromFib(n - 2);
    }
  }

  /** Lucas numbers grow from index 1 on (L(0) = 2 is larger than L(1) = 1). */
  lemma LucasMonotone(i: nat, j: nat)
    requires 1 <= i <= j
    ensures Lucas(i) <= Lucas(j)
  {
    LucasFromFib(i);
    LucasFromFib(j);
    FibMonotone(i - 1, j - 1);
    FibMonotone(i + 1, j + 1);
  }

  /** F(92) is the last Fibonacci number a Java `long` can hold. */
  lemma FibLongLimit()
    ensures Fib(92) == 7540113804746346429
    ensures Fib(93) == 12200160415121876738
    ensures Fib(92) <= LongMax < Fib(93)
  {
    assert Fib(3) == 2;
    assert Fib(6) == 8;
    assert Fib(9) == 34;
    assert Fib(12) == 144;
    assert Fib(15) == 610;
    assert Fib(18) == 2584;
    assert Fib(21) == 10946;
    assert Fib(24) == 46368;
    assert Fib(27) == 196418;
    assert Fib(30) == 832040;
    assert Fib(33) == 3524578;
    assert Fib(36) == 14930352;
    assert Fib(39) == 63245986;
    assert Fib(42) == 267914296;
    assert Fib(45) == 1134903170;
    assert Fib(48) == 4807526976;
    assert Fib(51) == 20365011074;
    assert Fib(54) == 86267571272;
    assert Fib(57) == 365435296162;
    assert Fib(60) == 1548008755920;
    assert Fib(63) == 6557470319842;
    assert Fib(66) == 27777890035288;
    assert Fib(69) == 117669030460994;
    assert Fib(72) == 498454011879264;
    assert Fib(75) == 2111485077978050;
    assert Fib(78) == 8944394323791464;
    assert Fib(81) == 37889062373143906;
    assert Fib(84) == 160500643816367088;
    assert Fib(87) == 679891637638612258;
    assert Fib(90) == 2880067194370816120;
    assert Fib(93) == 12200160415121876738;
  }

  /** Every Fibonacci number up to F(92) is a positive `long` value (from F(1) on). */
  lemma FibFitsLong(n: nat)
    requires n <= 92
    ensures Fib(n) <= LongMax
    ensures n >= 1 ==> Fib(n) >= 1
  {
    FibLongLimit();
    FibMonotone(n, 92);
    if n >= 1 {
      FibMonotone(1, n);
    }
  }

  /** L(90) is the last Lucas number a Java `long` can hold. */
  lemma LucasLongLimit()
    ensures Lucas(90) == 6440026026380244498
    ensures Lucas(91) == 10420180999117162549
    ensures Lucas(90) <= LongMax < Lucas(91) <= LongMax + LongModulus
  {
    FibLongLimit();
    LucasFromFib(90);
    LucasFromFib(91);
    assert Fib(89) + Fib(90) == Fib(91);
    assert Fib(90) + Fib(91) == Fib(92);
  }

  /** Every Lucas number up to L(90) is a positive `long` value. */
  lemma LucasFitsLong(n: nat)
    requires n <= 90
    ensures 1 <= Lucas(n) <= LongMax
  {
    LucasLongLimit();
    if n >= 1 {
      LucasMonotone(n, 90);
      LucasMonotone(1, n);
    }
  }
}
