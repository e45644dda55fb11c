/** The symmetric cell pattern: a rows x cols grid of booleans read off the seed's bits,
    least significant bit first, with the left half mirrored into the right half. */
module Pattern {
  import opened GoInt

  /** Bit `i` of `v`, in the usual sense: the remainder modulo 2 of `v / 2^i`. */
  function Bit(v: nat, i: nat): bool
  {
    (v / Pow2(i)) % 2 == 1
  }

  /** The value of the shared `bits` stream after `k` executions of `bits >>= 1`. */
  function Shift(seed: nat, k: nat): nat
  {
    if k == 0 then seed else Shift(seed, k - 1) / 2
  }

  lemma DivUnique(a: int, d: int, q: int, r: int)
    requires d > 0 && 0 <= r < d && a == d * q + r
    ensures a / d == q && a % d == r
  {
    var q', r' := a / d, a % d;
    assert a == d * q' + r';
    assert d * q - d * q' == d * (q - q');
    if q' < q {
      MulAtLeast(d, q - q');
    } else if q < q' {
      MulAtLeast(d, q' - q);
    }
  }

  lemma MulAtLeast(d: nat, k: int)
    requires k >= 1
    ensures d * k >= d
  {
  }

  /** Halving a quotient is dividing by twice the divisor. */
  lemma DivHalf(a: nat, b: nat)
    requires b > 0
    ensures a / b / 2 == a / (2 * b)
  {
    var q, r := a / b, a % b;
    var q2, r2 := q / 2, q % 2;
    assert a == b * q + r;
    assert q == 2 * q2 + r2;
    assert b * q == (2 * b) * q2 + b * r2;
    assert 0 <= b * r2 + r < 2 * b by {
      assert b * r2 <= b;
    }
    DivUnique(a, 2 * b, q2, b * r2 + r);
  }

  /** After `k` shifts the low bit of the stream is bit `k` of the seed. */
  lemma {:induction false} ShiftIsDiv(seed: nat, k: nat)
    ensures Shift(seed, k) == seed / Pow2(k)
  {
    if k > 0 {
      ShiftIsDiv(seed, k - 1);
      DivHalf(seed, Pow2(k - 1));
    }
  }

  /** A `uint64` has no bit set at position 64 or above. */
  lemma BitBeyond64(seed: uint64, i: nat)
    requires i >= 64
    ensures !Bit(seed, i)
  {
    Uint64Bound(seed);
    Pow2Monotone(64, i);
    DivUnique(seed, Pow2(i), 0, seed);
  }

  /** Number of columns drawn from the seed: half the columns, rounded up. */
  function MiddleCol(cols: nat): (m: nat)
    ensures cols <= 2 * m <= cols + 1
  {
    if cols % 2 == 1 then cols / 2 + 1 else cols / 2
  }

  /** The cell at row `y`, column `x`: a left-half cell (x < middleCol) is seed bit
      y*middleCol + x, a right-half cell repeats its mirror image cols-1-x. */
  function PatternCell(seed: uint64, cols: nat, y: nat, x: nat): bool
    requires x < cols
  {
    var m := MiddleCol(cols);
    Bit(seed, y * m + (if x < m then x else cols - 1 - x))
  }

  /** Left-right mirror symmetry, including the unmirrored middle column of an odd width. */
  lemma PatternMirror(seed: uint64, cols: nat, y: nat, x: nat)
    requires x < cols
    ensures PatternCell(seed, cols, y, x) == PatternCell(seed, cols, y, cols - 1 - x)
  {
  }

  /** A left-half cell is the seed bit at its position in the row-major scan of the left half. */
  lemma PatternLeftIsSeedBit(seed: uint64, cols: nat, y: nat, x: nat)
    requires x < MiddleCol(cols)
    ensures x < cols && PatternCell(seed, cols, y, x) == Bit(seed, y * MiddleCol(cols) + x)
  {
  }

  /** Once the scan passes bit 63 the stream is exhausted: such cells, and their mirror
      images, are never set. */
  lemma PatternBeyondSeedIsClear(seed: uint64, cols: nat, y: nat, x: nat)
    requires x < MiddleCol(cols) && y * MiddleCol(cols) + x >= 64
    ensures x < cols && !PatternCell(seed, cols, y, x) && !PatternCell(seed, cols, y, cols - 1 - x)
  {
    BitBeyond64(seed, y * MiddleCol(cols) + x);
  }

  /** A row whose first bit index is 64 or more is blank, whatever the seed. */
  lemma {:induction false} PatternRowBeyondSeedIsBlank(seed: uint64, cols: nat, y: nat, x: nat)
    requires x < cols && y * MiddleCol(cols) >= 64
    ensures !PatternCell(seed, cols, y, x)
  {
    var m := MiddleCol(cols);
    BitBeyond64(seed, y * m + (if x < m then x else cols - 1 - x));
  }

  /** The all-zero seed sets no cell. */
  lemma PatternOfZeroIsBlank(cols: nat, y: nat, x: nat)
    requires x < cols
    ensures !PatternCell(0, cols, y, x)
  {
  }

  /** generateSymmetricPattern: one `bits` stream, shifted once per left-half cell and never
      reset between rows, fills the left half; each cell is copied to its mirror position. */
  method GenerateSymmetricPattern(seed: uint64, rows: nat, cols: nat) returns (pattern: array2<bool>)
    ensures fresh(pattern)
    ensures pattern.Length0 == rows && pattern.Length1 == cols
    ensures forall y, x :: 0 <= y < rows && 0 <= x < cols ==> pattern[y, x] == PatternCell(seed, cols, y, x)
    ensures forall y, x :: 0 <= y < rows && 0 <= x < cols ==> pattern[y, x] == pattern[y, cols - 1 - x]
  {
    pattern := new bool[rows, cols]((_, _) => false);
    var middleCol := MiddleCol(cols);
    // `bits & 1 == 1` and `bits >>= 1` on an unsigned value are `% 2 == 1` and `/ 2`.
    var bits: nat := seed;
    var y := 0;
    while y < rows
      invariant 0 <= y <= rows
      invariant bits == Shift(seed, y * middleCol)
      invariant forall r, c :: 0 <= r < y && 0 <= c < cols ==> pattern[r, c] == PatternCell(seed, cols, r, c)
    {
      var x := 0;
      while x < middleCol
        invariant 0 <= x <= middleCol
        invariant bits == Shift(seed, y * middleCol + x)
        invariant forall r, c :: 0 <= r < y && 0 <= c < cols ==> pattern[r, c] == PatternCell(seed, cols, r, c)
        invariant forall c :: 0 <= c < x ==> pattern[y, c] == PatternCell(seed, cols, y, c)
        invariant forall c :: cols - x <= c < cols && middleCol <= c ==> pattern[y, c] == PatternCell(seed, cols, y, c)
      {
        ShiftIsDiv(seed, y * middleCol + x);
        PatternLeftIsSeedBit(seed, cols, y, x);
        pattern[y, x] := bits % 2 == 1;
        assert pattern[y, x] == PatternCell(seed, cols, y, x);
        bits := bits / 2;
        if x < cols / 2 {
          PatternMirror(seed, cols, y, x);
          pattern[y, cols - x - 1] := pattern[y, x];
        }
        x := x + 1;
      }
      assert y * middleCol + middleCol == (y + 1) * middleCol;
      y := y + 1;
    }
    forall y, x | 0 <= y < rows && 0 <= x < cols
      ensures pattern[y, x] == pattern[y, cols - 1 - x]
    {
      PatternMirror(seed, cols, y, x);
    }
  }
}
