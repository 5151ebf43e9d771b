/** Division facts used where a window size or a buffer size is a variable. */
module Arithmetic {

  lemma MulAtLeast(a: int, b: int, w: int)
    requires a >= b && w >= 0
    ensures a * w >= b * w
  {
  }

  /** Quotient and remainder are determined by x == q * w + r. */
  lemma DivModUnique(x: int, w: int, q: int, r: int)
    requires w > 0 && 0 <= r < w && x == q * w + r
    ensures x / w == q && x % w == r
  {
    var q', r' := x / w, x % w;
    assert x == q' * w + r';
    if q' >= q + 1 {
      MulAtLeast(q', q + 1, w);
    } else if q >= q' + 1 {
      MulAtLeast(q, q' + 1, w);
    }
  }

  lemma MultipleOf(x: int, w: int, q: int)
    requires w > 0 && x == q * w
    ensures x % w == 0 && x / w == q
  {
    DivModUnique(x, w, q, 0);
  }

  /** Reducing modulo a multiple of w keeps the remainder modulo w. */
  lemma ModOfMod(x: nat, n: int, w: int, c: int)
    requires w > 0 && n > 0 && n == c * w
    ensures (x % n) % w == x % w
  {
    var q := x / n;
    var y := x % n;
    assert x == q * n + y;
    assert q * n == (q * c) * w;
    assert y == (y / w) * w + y % w;
    assert (q * c) * w + (y / w) * w == (q * c + y / w) * w;
    DivModUnique(x, w, q * c + y / w, y % w);
  }

  lemma AddMultiple(x: nat, w: int, q: int)
    requires w > 0
    ensures (x + q * w) % w == x % w && (x + q * w) / w == x / w + q
  {
    assert x == (x / w) * w + x % w;
    assert (x / w) * w + q * w == (x / w + q) * w;
    DivModUnique(x + q * w, w, x / w + q, x % w);
  }

  /** Two multiples of w that differ, differ by at least w. */
  lemma MultiplesApart(x: nat, n: nat, w: int)
    requires w > 0 && x % w == 0 && n % w == 0 && x < n
    ensures x + w <= n
  {
    assert x == (x / w) * w && n == (n / w) * w;
    if n / w <= x / w {
      MulAtLeast(x / w, n / w, w);
    } else {
      MulAtLeast(n / w, x / w + 1, w);
      assert (x / w + 1) * w == (x / w) * w + w;
    }
  }

  lemma DivBelow(d: nat, n: nat, w: int)
    requires w > 0 && d < n * w
    ensures d / w < n
  {
  }
}
