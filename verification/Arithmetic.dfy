/** Facts about products, quotients and sizes that the models lean on. */
module Arithmetic {
  lemma QuotientAtLeast(n: nat, d: nat, q: int)
    requires d > 0 && q >= 0
    ensures n / d >= q <==> n >= q * d
  {
    if n >= q * d {
      assert (n / d + 1) * d > n;
      if n / d < q { MulMonotone(n / d + 1, q, d); }
    } else {
      if n / d >= q { MulMonotone(q, n / d, d); }
    }
  }

  lemma MulMonotone(a: int, b: int, d: nat)
    requires a <= b
    ensures a * d <= b * d
  {
    assert b * d - a * d == (b - a) * d;
  }

  lemma QuotientMonotone(limit: nat, f: nat, size: nat)
    requires f > 0
    ensures size > limit / f <==> size * f > limit
  {
    QuotientAtLeast(limit, f, size);
  }

  /** Dividing by a * b is dividing by b and then by a. */
  lemma DivideInTurn(n: nat, a: nat, b: nat)
    requires a > 0 && b > 0
    ensures a * b > 0 && n / (a * b) == n / b / a
  {
    assert a * b > 0 by { MulMonotone(1, a, b); }
    var q := n / b / a;
    AtLeastInTurn(n, a, b, q);
    AtLeastInTurn(n, a, b, q + 1);
  }

  lemma AtLeastInTurn(n: nat, a: nat, b: nat, q: nat)
    requires a > 0 && b > 0 && a * b > 0
    ensures n / (a * b) >= q <==> n / b / a >= q
  {
    QuotientAtLeast(n / b, a, q);
    QuotientAtLeast(n, b, q * a);
    assert q * a * b == q * (a * b);
    QuotientAtLeast(n, a * b, q);
  }

  lemma ExactQuotient(height: nat, row: nat)
    requires height > 0
    ensures height * row / height == row
  {
    QuotientAtLeast(height * row, height, row);
    QuotientAtLeast(height * row, height, row + 1);
    assert row * height == height * row && (row + 1) * height == height * row + height;
  }

  lemma RowSpan(r: nat, count: nat, row: nat)
    requires r < count
    ensures 0 <= r * row <= (r + 1) * row <= count * row && (r + 1) * row - r * row == row
  {
    MulMonotone(r + 1, count, row);
    MulMonotone(0, r, row);
  }

  lemma {:induction false} SubsetSize<T>(a: set<T>, b: set<T>)
    requires a <= b
    ensures |a| <= |b|
    decreases a
  {
    if a != {} {
      var t :| t in a;
      SubsetSize(a - {t}, b - {t});
    }
  }
}
