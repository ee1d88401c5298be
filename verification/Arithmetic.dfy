/** Facts about division by a variable that the solver does not find by itself. */
module Arithmetic {

  lemma MulApart(p: int, q: int, n: int)
    requires n > 0 && p < q
    ensures p * n + n <= q * n
  {
    assert (q - p - 1) * n >= 0;
    assert (q - p - 1) * n == q * n - p * n - n;
  }

  lemma DivUnique(a: int, n: int, q: int, r: int)
    requires n > 0 && a == q * n + r && 0 <= r < n
    ensures a / n == q
  {
    var p := a / n;
    assert a == p * n + a % n;
    if p < q {
      MulApart(p, q, n);
    } else if q < p {
      MulApart(q, p, n);
    }
  }

  lemma DivClose(a: nat, b: nat, n: nat)
    requires n > 0 && a <= b <= a + n
    ensures a / n <= b / n <= a / n + 1
  {
    var q, r := a / n, a % n;
    assert a == q * n + r;
    if b < q * n + n {
      DivUnique(b, n, q, b - q * n);
    } else if b < q * n + n + n {
      assert (q + 1) * n == q * n + n;
      DivUnique(b, n, q + 1, b - (q + 1) * n);
    }
  }
}
