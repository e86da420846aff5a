// Remainders, from their defining equation.

module Modulo {
  lemma MulAtLeast(d: int, n: int)
    requires n > 0
    ensures d >= 1 ==> d * n >= n
    ensures d <= -1 ==> d * n <= -n
  {
    assert d >= 1 ==> (d - 1) * n >= 0;
    assert d <= -1 ==> (-1 - d) * n >= 0;
  }

  lemma ModUnique(y: int, q: int, r: int, n: int)
    requires n > 0 && 0 <= r < n && y == q * n + r
    ensures y % n == r
  {
    var d := q - y / n;
    assert d * n == q * n - (y / n) * n;
    MulAtLeast(d, n);
  }

  lemma ModAdd(a: int, b: int, n: int)
    requires n > 0
    ensures (a + b % n) % n == (a + b) % n
  {
    var x := a + b % n;
    assert a + b == (b / n + x / n) * n + x % n;
    ModUnique(a + b, b / n + x / n, x % n, n);
  }
}
