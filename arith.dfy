/** Facts about integer multiplication and floor division that the solver does not find alone. */
module Arith {

  lemma DivBounds(x: int, n: int)
    requires n > 0
    ensures n * (x / n) <= x < n * (x / n) + n
  {
  }

  lemma MulMono(n: int, a: int, b: int)
    requires n > 0 && a <= b
    ensures n * a <= n * b
  {
  }

  lemma MulCancel(n: int, c: int)
    requires n > 0
    ensures (n * c) / n == c
  {
    DivBounds(n * c, n);
    var q := (n * c) / n;
    if q < c {
      MulMono(n, q + 1, c);
    }
    if q > c {
      MulMono(n, c + 1, q);
    }
  }
}
