/** Quotients and remainders by a variable, where the solver needs leading. */
module Division {

  lemma OutsideOneStep(t: int, c: int)
    requires c > 0
    ensures t >= 1 ==> t * c >= c
    ensures t <= -1 ==> t * c <= 0 - c
  {
    if t >= 1 {
      assert t * c == (t - 1) * c + c;
      assert (t - 1) * c >= 0;
    }
    if t <= -1 {
      var u := -t;
      assert u * c == (u - 1) * c + c;
      assert (u - 1) * c >= 0;
      assert t * c == -(u * c);
    }
  }

  lemma SamePlace(c: int, d: int, n: int, q: int, m: int)
    requires c > 0 && d * c + n == q * c + m && 0 <= m < c && 0 <= n < c
    ensures d == q && n == m
  {
    assert (d - q) * c == d * c - q * c;
    OutsideOneStep(d - q, c);
  }

  lemma Decomposed(x: int, c: int)
    requires c > 0
    ensures x == (x / c) * c + x % c && 0 <= x % c < c
  {
  }

  /** The one quotient and remainder that fit. */
  lemma QuotientAndRemainder(x: int, c: int, q: int, m: int)
    requires c > 0 && x == q * c + m && 0 <= m < c
    ensures x / c == q && x % c == m
  {
    Decomposed(x, c);
    SamePlace(c, x / c, x % c, q, m);
  }

  /** A packed square is its row times the width plus its column. */
  lemma RowAndColumn(cell: nat, cols: nat)
    requires cols > 0
    ensures var col := cell % cols;
      && 0 <= col < cols
      && 0 <= (cell - col) / cols
      && cell == (cell - col) / cols * cols + col
  {
    Decomposed(cell, cols);
    var col := cell % cols;
    QuotientAndRemainder(cell - col, cols, cell / cols, 0);
  }
}
