/** Facts about division that the solver does not find by itself. */
module Arithmetic {

  lemma ProductGap(d: int, k: int)
    requires d > 0 && k >= 1
    ensures d * k >= d
  {
  }

  /** Division with remainder is unique. */
  lemma QuotientUnique(d: int, q: int, r: int, q': int, r': int)
    requires d > 0 && 0 <= r < d && 0 <= r' < d && d * q + r == d * q' + r'
    ensures q == q'
  {
    assert d * (q - q') == d * q - d * q';
    if q > q' {
      ProductGap(d, q - q');
    } else if q < q' {
      assert d * (q' - q) == d * q' - d * q;
      ProductGap(d, q' - q);
    }
  }

  lemma DivDiv(n: nat, a: nat, b: nat)
    requires a > 0 && b > 0 && a * b > 0
    ensures n / a / b == n / (a * b)
  {
    var q, r := n / a, n % a;
    var p, s := q / b, q % b;
    assert n == a * q + r && q == b * p + s;
    SplitTwice(a, b, p, s);
    assert a * s + r < a * b by {
      ProductBelow(a, s, b);
    }
    QuotientUnique(a * b, p, a * s + r, n / (a * b), n % (a * b));
  }

  lemma SplitTwice(a: int, b: int, p: int, s: int)
    ensures a * (b * p + s) == (a * b) * p + a * s
  {
  }

  lemma ProductBelow(a: int, s: int, b: int)
    requires a > 0 && 0 <= s < b
    ensures 0 <= a * s <= a * b - a
  {
    assert a * (b - 1 - s) >= 0;
    assert a * (b - 1 - s) == a * b - a - a * s;
  }

  lemma ModShift(a: int, k: int, m: int)
    requires m > 0
    ensures (a + k * m) % m == a % m
  {
    var b := a + k * m;
    assert m * (a / m + k) == m * (a / m) + k * m;
    QuotientUnique(m, b / m, b % m, a / m + k, a % m);
  }
}
