/** Java's fixed-width integer arithmetic, written out over Dafny's unbounded `int`. */
module JavaInts {
  import opened IntMath

  /** Range of a Java `long` (64-bit two's complement). */
  const LongMin: int := -0x8000_0000_0000_0000
  const LongMax: int := 0x7FFF_FFFF_FFFF_FFFF
  const LongModulus: int := 0x1_0000_0000_0000_0000

  predicate InLong(x: int) {
    LongMin <= x <= LongMax
  }

  /** The value a `long` holds after an arithmetic result `x` is stored in it:
      Java keeps the low 64 bits and reads them back as two's complement. */
  function WrapLong(x: int): (r: int)
    ensures InLong(r)
    ensures (x - r) % LongModulus == 0
    ensures InLong(x) ==> r == x
  {
    (x - LongMin) % LongModulus + LongMin
  }

  /** A sum that overshoots `LongMax` by less than 2^64 wraps once, to a
      value 2^64 smaller. */
  lemma WrapLongOnce(x: int)
    requires LongMax < x <= LongMax + LongModulus
    ensures WrapLong(x) == x - LongModulus
  {
    assert (x - LongMin) % LongModulus == x - LongMin - LongModulus;
  }

  /** Java's integer `/`: the quotient is truncated toward zero, unlike
      Dafny's Euclidean `/`. */
  function JavaDiv(a: int, b: int): int
    requires b != 0
  {
    var q := Abs(a) / Abs(b);
    if (a >= 0) == (b > 0) then q else -q
  }

  /** Java's `%` on integers: the remainder takes the sign of the dividend. */
  function JavaRem(a: int, b: int): (r: int)
    requires b != 0
    ensures JavaDiv(a, b) * b + r == a
    ensures a >= 0 ==> 0 <= r < Abs(b) && r == a % Abs(b)
    ensures a <= 0 ==> 0 <= -r < Abs(b)
  {
    var m := Abs(a) % Abs(b);
    TruncatedDivision(a, b);
    if a >= 0 then m else -m
  }

  lemma TruncatedDivision(a: int, b: int)
    requires b != 0
    ensures JavaDiv(a, b) * b == (if a >= 0 then 1 else -1) * (Abs(a) / Abs(b) * Abs(b))
  {
    var q := Abs(a) / Abs(b);
    if b > 0 {
      assert Abs(b) == b;
    } else {
      assert Abs(b) == -b;
      assert -q * b == q * Abs(b);
    }
  }
}
