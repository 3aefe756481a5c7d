/**
 The test bench's summed-area table: each pass doubles the width of the window a
 cell has summed, ping-ponging between two images, first along the rows and then
 along the columns. Elements are integers of a fixed width, so every sum is
 taken modulo `modulus`.
 */
module SumTable {
  import opened Arithmetic

  type Grid = seq<seq<seq<int>>>

  /** A cell of the input image; nothing lies outside it. */
  function At(g: Grid, y: int, x: int, c: int): int {
    if 0 <= y < |g| && 0 <= x < |g[y]| && 0 <= c < |g[y][x]| then g[y][x][c] else 0
  }

  /** The `n` cells of a row ending at column `x`. */
  function RowSum(g: Grid, y: int, x: int, c: int, n: nat): int {
    if n == 0 then 0 else RowSum(g, y, x, c, n - 1) + At(g, y, x - (n - 1), c)
  }

  /** The `n` row prefixes ending at row `y`, each up to column `x`. */
  function BoxSum(g: Grid, y: int, x: nat, c: int, n: nat): int {
    if n == 0 then 0 else BoxSum(g, y, x, c, n - 1) + RowSum(g, y - (n - 1), x, c, x + 1)
  }

  /** The two-dimensional inclusive prefix sum. */
  function PrefixSum(g: Grid, y: nat, x: nat, c: nat): int { BoxSum(g, y, x, c, y + 1) }

  function Pow2(n: nat): (p: nat)
    ensures p >= 1
  {
    if n == 0 then 1 else 2 * Pow2(n - 1)
  }

  lemma {:induction false} RowWindowsJoin(g: Grid, y: int, x: int, c: int, n: nat, m: nat)
    ensures RowSum(g, y, x, c, n + m) == RowSum(g, y, x, c, n) + RowSum(g, y, x - n, c, m)
    decreases m
  {
    if m > 0 { RowWindowsJoin(g, y, x, c, n, m - 1); }
  }

  lemma {:induction false} BoxWindowsJoin(g: Grid, y: int, x: nat, c: int, n: nat, m: nat)
    ensures BoxSum(g, y, x, c, n + m) == BoxSum(g, y, x, c, n) + BoxSum(g, y - n, x, c, m)
    decreases m
  {
    if m > 0 { BoxWindowsJoin(g, y, x, c, n, m - 1); }
  }

  lemma {:induction false} RowWindowFull(g: Grid, y: int, x: int, c: int, n: nat)
    requires n >= x + 1 >= 0
    ensures RowSum(g, y, x, c, n) == RowSum(g, y, x, c, x + 1)
    decreases n
  {
    if n > x + 1 { RowWindowFull(g, y, x, c, n - 1); }
  }

  lemma {:induction false} RowsAboveAreEmpty(g: Grid, y: int, x: int, c: int, n: nat)
    requires y < 0
    ensures RowSum(g, y, x, c, n) == 0
    decreases n
  {
    if n > 0 { RowsAboveAreEmpty(g, y, x, c, n - 1); }
  }

  lemma {:induction false} BoxWindowFull(g: Grid, y: int, x: nat, c: int, n: nat)
    requires n >= y + 1 >= 0
    ensures BoxSum(g, y, x, c, n) == BoxSum(g, y, x, c, y + 1)
    decreases n
  {
    if n > y + 1 {
      BoxWindowFull(g, y, x, c, n - 1);
      RowsAboveAreEmpty(g, y - (n - 1), x, c, x + 1);
    }
  }

  /** The prefix sum by its usual recurrence over rectangles. */
  lemma PrefixSumRecurrence(g: Grid, y: nat, x: nat, c: nat)
    ensures PrefixSum(g, y, x, c)
         == (if y == 0 then 0 else PrefixSum(g, y - 1, x, c))
            + (if x == 0 then 0 else PrefixSum(g, y, x - 1, c))
            - (if y == 0 || x == 0 then 0 else PrefixSum(g, y - 1, x - 1, c))
            + At(g, y, x, c)
  {
    RowsStack(g, y, x, c);
    if x > 0 { RowsStack(g, y, x - 1, c); }
    RowGrows(g, y, x, c);
  }

  lemma RowsStack(g: Grid, y: nat, x: nat, c: int)
    ensures BoxSum(g, y, x, c, y + 1)
         == RowSum(g, y, x, c, x + 1) + (if y == 0 then 0 else BoxSum(g, y - 1, x, c, y))
  {
    BoxWindowsJoin(g, y, x, c, 1, y);
    assert BoxSum(g, y, x, c, 1) == BoxSum(g, y, x, c, 0) + RowSum(g, y, x, c, x + 1);
  }

  lemma RowGrows(g: Grid, y: int, x: nat, c: int)
    ensures RowSum(g, y, x, c, x + 1) == At(g, y, x, c) + (if x == 0 then 0 else RowSum(g, y, x - 1, c, x))
  {
    RowWindowsJoin(g, y, x, c, 1, x);
    assert RowSum(g, y, x, c, 1) == RowSum(g, y, x, c, 0) + At(g, y, x, c);
  }

  lemma ModAdd(a: int, b: int, m: nat)
    requires m > 0
    ensures (a % m + b % m) % m == (a + b) % m
  {
    var qa, qb := a / m, b / m;
    assert a == qa * m + a % m && b == qb * m + b % m;
    assert a + b == (qa + qb) * m + (a % m + b % m) by {
      assert (qa + qb) * m == qa * m + qb * m;
    }
    ModShift(qa + qb, a % m + b % m, m);
  }

  lemma ModShift(q: int, r: int, m: nat)
    requires m > 0 && 0 <= r < 2 * m
    ensures (q * m + r) % m == r % m
  {
    if r < m {
      UniqueRemainder(q * m + r, q, r, m);
      UniqueRemainder(r, 0, r, m);
    } else {
      assert (q + 1) * m == q * m + m;
      UniqueRemainder(q * m + r, q + 1, r - m, m);
      UniqueRemainder(r, 1, r - m, m);
    }
  }

  lemma UniqueRemainder(n: int, q: int, r: int, m: nat)
    requires m > 0 && n == q * m + r && 0 <= r < m
    ensures n % m == r
  {
    var d := n / m - q;
    assert n == (n / m) * m + n % m;
    assert d * m == (n / m) * m - q * m == r - n % m;
    if d >= 1 { MulMonotone(1, d, m); }
    if d <= -1 { MulMonotone(d, -1, m); }
  }

  // ---------------------------------------------------------------------
  // Images
  // ---------------------------------------------------------------------

  type Image = array3<int>

  predicate Sized(a: Image, w: int, h: int, c: int) { a.Length0 == h && a.Length1 == w && a.Length2 == c }

  ghost function Contents(a: Image): (g: Grid)
    reads a
    ensures |g| == a.Length0
    ensures forall y :: 0 <= y < a.Length0 ==> |g[y]| == a.Length1
    ensures forall y, x :: 0 <= y < a.Length0 && 0 <= x < a.Length1 ==> |g[y][x]| == a.Length2
    ensures forall y, x, c :: 0 <= y < a.Length0 && 0 <= x < a.Length1 && 0 <= c < a.Length2 ==>
              g[y][x][c] == a[y, x, c]
  {
    seq(a.Length0, y requires 0 <= y < a.Length0 reads a =>
      seq(a.Length1, x requires 0 <= x < a.Length1 reads a =>
        seq(a.Length2, c requires 0 <= c < a.Length2 reads a => a[y, x, c])))
  }

  /** Every cell holds the sum of the `n` inputs of its row that end there. */
  ghost predicate HoldsRows(a: Image, g: Grid, n: nat, modulus: nat)
    requires modulus > 0
    reads a
  {
    forall y, x, c :: 0 <= y < a.Length0 && 0 <= x < a.Length1 && 0 <= c < a.Length2 ==>
      a[y, x, c] == RowSum(g, y, x, c, n) % modulus
  }

  ghost predicate HoldsBoxes(a: Image, g: Grid, n: nat, modulus: nat)
    requires modulus > 0
    reads a
  {
    forall y, x, c :: 0 <= y < a.Length0 && 0 <= x < a.Length1 && 0 <= c < a.Length2 ==>
      a[y, x, c] == BoxSum(g, y, x, c, n) % modulus
  }

  predicate Inside(a: Image, y: int, x: int, c: int) {
    0 <= y < a.Length0 && 0 <= x < a.Length1 && 0 <= c < a.Length2
  }

  /** One cell of a horizontal pass. */
  function StepH(src: Image, y: int, x: int, c: int, step: nat, modulus: nat): int
    requires Inside(src, y, x, c) && modulus > 0
    reads src
  {
    if x < step then src[y, x, c] else (src[y, x, c] + src[y, x - step, c]) % modulus
  }

  function StepV(src: Image, y: int, x: int, c: int, step: nat, modulus: nat): int
    requires Inside(src, y, x, c) && modulus > 0
    reads src
  {
    if y < step then src[y, x, c] else (src[y, x, c] + src[y - step, x, c]) % modulus
  }

  /** Cells before `(y, x)` in row order. */
  predicate Before(v: int, u: int, y: int, x: int) { v < y || (v == y && u < x) }

  method CopyPixel(src: Image, dst: Image, y: nat, x: nat)
    requires src != dst && Sized(dst, src.Length1, src.Length0, src.Length2) && y < src.Length0 && x < src.Length1
    modifies dst
    ensures forall v, u, k :: Inside(dst, v, u, k) ==>
              dst[v, u, k] == if v == y && u == x then src[y, x, k] else old(dst[v, u, k])
  {
    for c := 0 to src.Length2
      invariant forall v, u, k :: Inside(dst, v, u, k) ==>
                  dst[v, u, k] == if v == y && u == x && k < c then src[y, x, k] else old(dst[v, u, k])
    {
      dst[y, x, c] := src[y, x, c];
    }
  }

  method AddPixel(src: Image, dst: Image, y: nat, x: nat, fromY: nat, fromX: nat, modulus: nat)
    requires src != dst && Sized(dst, src.Length1, src.Length0, src.Length2) && y < src.Length0 && x < src.Length1
    requires fromY < src.Length0 && fromX < src.Length1 && modulus > 0
    modifies dst
    ensures forall v, u, k :: Inside(dst, v, u, k) ==>
              dst[v, u, k] == if v == y && u == x then (src[y, x, k] + src[fromY, fromX, k]) % modulus
                              else old(dst[v, u, k])
  {
    for c := 0 to src.Length2
      invariant forall v, u, k :: Inside(dst, v, u, k) ==>
                  dst[v, u, k] == if v == y && u == x && k < c then (src[y, x, k] + src[fromY, fromX, k]) % modulus
                                  else old(dst[v, u, k])
    {
      dst[y, x, c] := (src[y, x, c] + src[fromY, fromX, c]) % modulus;
    }
  }

  method KernelH(src: Image, dst: Image, step: nat, modulus: nat)
    requires src != dst && Sized(dst, src.Length1, src.Length0, src.Length2) && step <= src.Length1 && modulus > 0
    modifies dst
    ensures forall v, u, k :: Inside(dst, v, u, k) ==> dst[v, u, k] == StepH(src, v, u, k, step, modulus)
  {
    for y := 0 to src.Length0
      invariant forall v, u, k :: Inside(dst, v, u, k) && Before(v, u, y, 0) ==>
                  dst[v, u, k] == StepH(src, v, u, k, step, modulus)
    {
      for x := 0 to step
        invariant forall v, u, k :: Inside(dst, v, u, k) && Before(v, u, y, x) ==>
                    dst[v, u, k] == StepH(src, v, u, k, step, modulus)
      {
        CopyPixel(src, dst, y, x);
      }
      for x := step to src.Length1
        invariant forall v, u, k :: Inside(dst, v, u, k) && Before(v, u, y, x) ==>
                    dst[v, u, k] == StepH(src, v, u, k, step, modulus)
      {
        AddPixel(src, dst, y, x, y, x - step, modulus);
      }
    }
  }

  method KernelV(src: Image, dst: Image, step: nat, modulus: nat)
    requires src != dst && Sized(dst, src.Length1, src.Length0, src.Length2) && step <= src.Length0 && modulus > 0
    modifies dst
    ensures forall v, u, k :: Inside(dst, v, u, k) ==> dst[v, u, k] == StepV(src, v, u, k, step, modulus)
  {
    for y := 0 to step
      invariant forall v, u, k :: Inside(dst, v, u, k) && Before(v, u, y, 0) ==>
                  dst[v, u, k] == StepV(src, v, u, k, step, modulus)
    {
      for x := 0 to src.Length1
        invariant forall v, u, k :: Inside(dst, v, u, k) && Before(v, u, y, x) ==>
                    dst[v, u, k] == StepV(src, v, u, k, step, modulus)
      {
        CopyPixel(src, dst, y, x);
      }
    }
    for y := step to src.Length0
      invariant forall v, u, k :: Inside(dst, v, u, k) && Before(v, u, y, 0) ==>
                  dst[v, u, k] == StepV(src, v, u, k, step, modulus)
    {
      for x := 0 to src.Length1
        invariant forall v, u, k :: Inside(dst, v, u, k) && Before(v, u, y, x) ==>
                    dst[v, u, k] == StepV(src, v, u, k, step, modulus)
      {
        AddPixel(src, dst, y, x, y - step, x, modulus);
      }
    }
  }

  // ---------------------------------------------------------------------
  // A pass doubles the window
  // ---------------------------------------------------------------------

  lemma StepDoublesRow(src: Image, g: Grid, y: int, x: int, c: int, step: nat, modulus: nat)
    requires Inside(src, y, x, c) && modulus > 0 && step > 0 && HoldsRows(src, g, step, modulus)
    ensures StepH(src, y, x, c, step, modulus) == RowSum(g, y, x, c, 2 * step) % modulus
  {
    RowWindowsJoin(g, y, x, c, step, step);
    if x < step {
      RowWindowFull(g, y, x, c, step);
      RowWindowFull(g, y, x, c, 2 * step);
    } else {
      ModAdd(RowSum(g, y, x, c, step), RowSum(g, y, x - step, c, step), modulus);
    }
  }

  lemma StepDoublesBox(src: Image, g: Grid, y: int, x: int, c: int, step: nat, modulus: nat)
    requires Inside(src, y, x, c) && modulus > 0 && step > 0 && HoldsBoxes(src, g, step, modulus)
    ensures StepV(src, y, x, c, step, modulus) == BoxSum(g, y, x, c, 2 * step) % modulus
  {
    BoxWindowsJoin(g, y, x, c, step, step);
    if y < step {
      BoxWindowFull(g, y, x, c, step);
      BoxWindowFull(g, y, x, c, 2 * step);
    } else {
      ModAdd(BoxSum(g, y, x, c, step), BoxSum(g, y - step, x, c, step), modulus);
    }
  }

  /** Floor of the base-two logarithm, and -1 for zero. */
  method RoundLog2(n: nat) returns (r: int)
    ensures n == 0 ==> r == -1
    ensures n > 0 ==> r >= 0 && Pow2(r) <= n < Pow2(r + 1)
  {
    var result := 0;
    assert n / 1 == n;
    while n / Pow2(result) > 0
      invariant result >= 0 && (result > 0 ==> Pow2(result - 1) <= n)
      decreases n - Pow2(result)
    {
      QuotientAtLeast(n, Pow2(result), 1);
      result := result + 1;
    }
    QuotientAtLeast(n, Pow2(result), 1);
    return result - 1;
  }

  /** One horizontal pass between images that hold windows of `step`. */
  method PassH(src: Image, dst: Image, ghost g: Grid, step: nat, modulus: nat)
    requires src != dst && Sized(dst, src.Length1, src.Length0, src.Length2) && 0 < step <= src.Length1 && modulus > 0
    requires HoldsRows(src, g, step, modulus)
    modifies dst
    ensures HoldsRows(dst, g, 2 * step, modulus)
  {
    KernelH(src, dst, step, modulus);
    forall y, x, c | Inside(dst, y, x, c) ensures dst[y, x, c] == RowSum(g, y, x, c, 2 * step) % modulus {
      StepDoublesRow(src, g, y, x, c, step, modulus);
    }
  }

  method PassV(src: Image, dst: Image, ghost g: Grid, step: nat, modulus: nat)
    requires src != dst && Sized(dst, src.Length1, src.Length0, src.Length2) && 0 < step <= src.Length0 && modulus > 0
    requires HoldsBoxes(src, g, step, modulus)
    modifies dst
    ensures HoldsBoxes(dst, g, 2 * step, modulus)
  {
    KernelV(src, dst, step, modulus);
    forall y, x, c | Inside(dst, y, x, c) ensures dst[y, x, c] == BoxSum(g, y, x, c, 2 * step) % modulus {
      StepDoublesBox(src, g, y, x, c, step, modulus);
    }
  }

  lemma {:induction false} Pow2Monotone(n: nat, m: nat)
    requires n <= m
    ensures Pow2(n) <= Pow2(m)
    decreases m
  {
    if n < m { Pow2Monotone(n, m - 1); }
  }

  /** The image holding the result after the passes made so far. */
  function Current(first: Image, second: Image, swapped: bool): Image { if swapped then second else first }

  /** callKernels(true): afterwards the flag names the image holding whole rows. */
  method SumRows(first: Image, second: Image, ghost g: Grid, modulus: nat) returns (isOutputSwapped: bool)
    requires first != second && Sized(second, first.Length1, first.Length0, first.Length2)
    requires first.Length1 > 0 && modulus > 0 && HoldsRows(first, g, 1, modulus)
    modifies first, second
    ensures var a := Current(first, second, isOutputSwapped);
      forall y, x, c :: Inside(a, y, x, c) ==> a[y, x, c] == RowSum(g, y, x, c, x + 1) % modulus
  {
    isOutputSwapped := false;
    var w := first.Length1;
    var numIterations := RoundLog2(w - 1);
    for i := 0 to numIterations + 1
      invariant isOutputSwapped == (i % 2 == 1)
      invariant HoldsRows(Current(first, second, isOutputSwapped), g, Pow2(i), modulus)
    {
      Pow2Monotone(i, numIterations);
      if i % 2 == 0 {
        PassH(first, second, g, Pow2(i), modulus);
      } else {
        PassH(second, first, g, Pow2(i), modulus);
      }
      isOutputSwapped := !isOutputSwapped;
    }
    var a := Current(first, second, isOutputSwapped);
    forall y, x, c | Inside(a, y, x, c) ensures a[y, x, c] == RowSum(g, y, x, c, x + 1) % modulus {
      RowWindowFull(g, y, x, c, Pow2(numIterations + 1));
    }
  }

  method SumColumns(first: Image, second: Image, ghost g: Grid, modulus: nat) returns (isOutputSwapped: bool)
    requires first != second && Sized(second, first.Length1, first.Length0, first.Length2)
    requires first.Length0 > 0 && modulus > 0 && HoldsBoxes(first, g, 1, modulus)
    modifies first, second
    ensures var a := Current(first, second, isOutputSwapped);
      forall y, x, c :: Inside(a, y, x, c) ==> a[y, x, c] == PrefixSum(g, y, x, c) % modulus
  {
    isOutputSwapped := false;
    var h := first.Length0;
    var numIterations := RoundLog2(h - 1);
    for i := 0 to numIterations + 1
      invariant isOutputSwapped == (i % 2 == 1)
      invariant HoldsBoxes(Current(first, second, isOutputSwapped), g, Pow2(i), modulus)
    {
      Pow2Monotone(i, numIterations);
      if i % 2 == 0 {
        PassV(first, second, g, Pow2(i), modulus);
      } else {
        PassV(second, first, g, Pow2(i), modulus);
      }
      isOutputSwapped := !isOutputSwapped;
    }
    var a := Current(first, second, isOutputSwapped);
    forall y, x, c | Inside(a, y, x, c) ensures a[y, x, c] == PrefixSum(g, y, x, c) % modulus {
      BoxWindowFull(g, y, x, c, Pow2(numIterations + 1));
    }
  }

  class Mat {
    var data: Image

    constructor (w: nat, h: nat, c: nat)
      ensures Sized(data, w, h, c) && fresh(data)
    {
      data := new int[h, w, c];
    }

    /** Leaves in this matrix the prefix sums of what it held, whichever image the
        last pass happened to write. */
    method ComputeSumTable(modulus: nat)
      requires data.Length0 > 0 && data.Length1 > 0 && data.Length2 > 0 && modulus > 0
      requires forall y, x, c :: Inside(data, y, x, c) ==> 0 <= data[y, x, c] < modulus
      modifies this, data
      ensures Sized(data, old(data.Length1), old(data.Length0), old(data.Length2))
      ensures forall y, x, c :: Inside(data, y, x, c) ==>
                data[y, x, c] == PrefixSum(old(Contents(data)), y, x, c) % modulus
    {
      var w, h, c := data.Length1, data.Length0, data.Length2;
      ghost var g := Contents(data);
      var output := new Mat(w, h, c);
      SingleCells(data, g, modulus);
      var isOutputSwapped := SumRows(data, output.data, g, modulus);
      RowsStartBoxes(Current(data, output.data, isOutputSwapped), g, modulus);
      if isOutputSwapped {
        data := output.data;
        output := new Mat(w, h, c);
      }
      isOutputSwapped := SumColumns(data, output.data, g, modulus);
      if isOutputSwapped {
        data := output.data;
      }
    }
  }

  lemma SingleCells(a: Image, g: Grid, modulus: nat)
    requires modulus > 0 && g == Contents(a)
    requires forall y, x, c :: Inside(a, y, x, c) ==> 0 <= a[y, x, c] < modulus
    ensures HoldsRows(a, g, 1, modulus)
  {
    forall y, x, c | Inside(a, y, x, c) ensures a[y, x, c] == RowSum(g, y, x, c, 1) % modulus {
      assert RowSum(g, y, x, c, 1) == RowSum(g, y, x, c, 0) + At(g, y, x, c);
      UniqueRemainder(a[y, x, c], 0, a[y, x, c], modulus);
    }
  }

  lemma RowsStartBoxes(a: Image, g: Grid, modulus: nat)
    requires modulus > 0
    requires forall y, x, c :: Inside(a, y, x, c) ==> a[y, x, c] == RowSum(g, y, x, c, x + 1) % modulus
    ensures HoldsBoxes(a, g, 1, modulus)
  {
    forall y, x, c | Inside(a, y, x, c) ensures a[y, x, c] == BoxSum(g, y, x, c, 1) % modulus {
      assert BoxSum(g, y, x, c, 1) == BoxSum(g, y, x, c, 0) + RowSum(g, y, x, c, x + 1);
    }
  }
}
