/** Go's fixed-width integer types and the integer operators the identicon code relies on. */
module GoInt {

  /** Go `uint8`: one colour channel. */
  type uint8 = x: int | 0 <= x < 0x100

  /** Go `uint64`: the hash value every visual choice is derived from. */
  type uint64 = x: int | 0 <= x < 0x1_0000_0000_0000_0000

  /** Go's `/` on `int` for a positive divisor: it truncates toward zero, whereas
      Dafny's `/` is Euclidean and rounds negative dividends down. */
  function Quot(a: int, b: int): (q: int)
    requires b > 0
    ensures 0 <= a ==> 0 <= q && q * b <= a < q * b + b
    ensures a < 0 ==> q <= 0 && q * b - b < a <= q * b
  {
    if a >= 0 then
      DivBounds(a, b);
      a / b
    else
      DivBounds(-a, b);
      assert -((-a) / b) * b == -(((-a) / b) * b);
      -((-a) / b)
  }

  /** Euclidean division of a non-negative dividend: the quotient is non-negative and its
      multiple is the largest multiple of b not above n. */
  lemma DivBounds(n: int, b: int)
    requires 0 <= n && b > 0
    ensures 0 <= n / b && (n / b) * b <= n < (n / b) * b + b
  {
    var q, r := n / b, n % b;
    assert n == b * q + r && 0 <= r < b;
    assert b * (q + 1) > 0;
    PositiveFactor(b, q + 1);
  }

  lemma PositiveFactor(b: int, c: int)
    requires b > 0 && b * c > 0
    ensures c > 0
  {
  }

  /** Go's builtin `max` on two ints. */
  function Max(a: int, b: int): (m: int)
    ensures a <= m && b <= m && (m == a || m == b)
  {
    if a >= b then a else b
  }

  /** 2 to the power `n`. */
  function Pow2(n: nat): (p: nat)
    ensures p >= 1
  {
    if n == 0 then 1 else 2 * Pow2(n - 1)
  }

  lemma {:induction false} Pow2Monotone(m: nat, n: nat)
    requires m <= n
    ensures Pow2(m) <= Pow2(n)
  {
    if m < n {
      Pow2Monotone(m, n - 1);
    }
  }

  lemma {:induction false} Pow2Add(m: nat, n: nat)
    ensures Pow2(m + n) == Pow2(m) * Pow2(n)
  {
    if n > 0 {
      Pow2Add(m, n - 1);
    }
  }

  /** Every `uint64` lies below 2^64. */
  lemma Uint64Bound(v: uint64)
    ensures v < Pow2(64)
  {
    assert Pow2(8) == 0x100;
    Pow2Add(8, 8);
    Pow2Add(16, 16);
    Pow2Add(32, 32);
  }
}
