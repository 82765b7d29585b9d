/** Absolute value, maximum and the uniqueness of Euclidean quotients on
    mathematical integers, used to state counts and bounds throughout the
    model. */
module IntMath {
  /** |x|. */
  function Abs(x: int): (r: nat)
    ensures r == x || r == -x
  {
    if x < 0 then -x else x
  }

  /** The larger of `a` and `b`. */
  function Max(a: int, b: int): (r: int)
    ensures r >= a && r >= b
    ensures r == a || r == b
  {
    if a >= b then a else b
  }

  /** Quotients are unique: `x = d * q + r` with `0 <= r < q` fixes `x / q`. */
  lemma {:induction false} DivUnique(x: int, q: int, d: int, r: int)
    requires q > 0 && 0 <= r < q && x == d * q + r
    ensures x / q == d
  {
    var d', r' := x / q, x % q;
    assert x == d' * q + r';
    MulSub(d, d', q);
    MulSub(d', d, q);
    if d > d' {
      MulAtLeast(d - d', q);
    } else if d < d' {
      MulAtLeast(d' - d, q);
    }
  }

  lemma MulAtLeast(k: int, q: int)
    requires k >= 1 && q > 0
    ensures k * q >= q
  {
  }

  lemma MulSub(a: int, b: int, q: int)
    ensures (a - b) * q == a * q - b * q
  {
  }
}
