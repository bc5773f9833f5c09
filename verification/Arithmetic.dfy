// Division facts that the solver does not find on its own.
module Arithmetic {

  /** The largest `int` of a 64-bit platform. */
  const MAX_INT := 0x7FFF_FFFF_FFFF_FFFF

  lemma AtLeastOnce(d: nat, m: nat)
    requires d >= 1
    ensures d * m >= m
  {
  }

  lemma SplitProduct(c: nat, a: nat, b: nat)
    requires a <= b
    ensures 0 <= c * a <= c * b
  {
    assert c * b == c * a + c * (b - a);
  }

  lemma DivisionUnique(m: nat, q: int, r: nat, q': int, r': nat)
    requires r < m && r' < m && q * m + r == q' * m + r'
    ensures q == q' && r == r'
  {
    assert (q - q') * m == r' - r;
    if q > q' {
      AtLeastOnce(q - q', m);
    } else if q < q' {
      AtLeastOnce(q' - q, m);
    }
  }

  lemma RemainderUnique(n: nat, m: nat, q: nat, r: nat)
    requires m > 0 && n == q * m + r && r < m
    ensures n % m == r && n / m == q
  {
    DivisionUnique(m, n / m, n % m, q, r);
  }

  lemma DivideTwice(n: nat, d: nat, m: nat)
    requires d > 0 && m > 0
    ensures d * m > 0 && (n / d) / m == n / (d * m)
  {
    var q, r := n / d, n % d;
    var q', r' := q / m, q % m;
    assert n == (q' * m + r') * d + r == q' * (d * m) + (r' * d + r) by {
      assert (q' * m + r') * d == q' * m * d + r' * d;
      assert q' * m * d == q' * (d * m);
    }
    ProductBelow(r', m, d, r);
    RemainderUnique(n, d * m, q', r' * d + r);
  }

  lemma ProductBelow(a: nat, m: nat, d: nat, r: nat)
    requires a < m && r < d
    ensures d * m > 0 && 0 <= a * d + r < d * m
  {
    assert d * m == (m - 1 - a) * d + a * d + d;
    AtLeastOnce(d, 0);
    assert (m - 1 - a) * d >= 0;
  }

  lemma MultipleMod(q: nat, m: nat)
    requires m > 0
    ensures (q * m) % m == 0
  {
    RemainderUnique(q * m, m, q, 0);
  }

  lemma DivideOneMore(n: nat, m: nat)
    requires m > 0
    ensures (n + m) / m == n / m + 1
  {
    RemainderUnique(n + m, m, n / m + 1, n % m);
  }
}
