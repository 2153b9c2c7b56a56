/** Facts about integer multiplication, division and remainder that the
    solver does not find on its own. */
module Arithmetic {
  /** The only multiple of a positive number strictly between minus it and
      it is zero. */
  lemma SmallMultipleIsZero(b: int, d: int)
    requires b > 0 && -b < b * d < b
    ensures d == 0
  {
  }

  /** Quotient and remainder are determined by x == n * q + r, 0 <= r < n. */
  lemma DivModUnique(x: int, n: int, q: int, r: int)
    requires n > 0 && 0 <= r < n && x == n * q + r
    ensures x / n == q && x % n == r
  {
    var q', r' := x / n, x % n;
    assert x == n * q' + r';
    var d := q - q';
    assert n * d == n * q - n * q';
    SmallMultipleIsZero(n, d);
  }

  lemma MultipleMod(n: int, q: int)
    requires n > 0
    ensures (n * q) % n == 0
  {
    DivModUnique(n * q, n, q, 0);
  }
}
