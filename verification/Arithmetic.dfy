/** Remainders of products and successors. */
module Arithmetic {

  lemma NextRemainder(c: nat, m: nat)
    requires m > 0
    ensures (c + 1) % m == if c % m == m - 1 then 0 else c % m + 1
  {
    var q, r := c / m, c % m;
    assert c == m * q + r;
    if r == m - 1 {
      assert c + 1 == m * (q + 1);
      MultipleOf(q + 1, m);
    } else {
      assert c + 1 == m * q + (r + 1);
      RemainderOf(c + 1, m, q, r + 1);
    }
  }

  lemma MultipleOf(q: nat, m: nat)
    requires m > 0
    ensures (m * q) % m == 0
  {
    RemainderOf(m * q, m, q, 0);
  }

  lemma RemainderOf(x: nat, m: nat, q: nat, r: nat)
    requires m > 0 && r < m && x == m * q + r
    ensures x % m == r
  {
    var d := x / m - q;
    assert x == m * (x / m) + x % m;
    assert m * (x / m) - m * q == m * d;
    assert m * d == r - x % m;
    if d > 0 {
      Scaled(m, d);
    } else if d < 0 {
      Scaled(m, -d);
    }
  }

  lemma {:induction false} Scaled(m: nat, d: int)
    requires d > 0
    ensures m * d >= m
    ensures m * (-d) <= 0 - m
  {
    if d > 1 {
      Scaled(m, d - 1);
      assert m * d == m * (d - 1) + m;
      assert m * (-d) == m * (-(d - 1)) - m;
    }
  }

  /** Going back by the divisor keeps the remainder. */
  lemma SameRemainder(k: nat, n: nat)
    requires 0 < n <= k
    ensures (k - n) % n == k % n
  {
    var q, r := k / n, k % n;
    assert k == n * q + r;
    assert n * (q - 1) == n * q - n;
    RemainderOf(k - n, n, q - 1, r);
  }

  lemma NextQuotient(c: nat, m: nat)
    requires m > 0
    ensures (c + 1) / m == c / m + if c % m == m - 1 then 1 else 0
  {
    NextRemainder(c, m);
    var q, q' := c / m, (c + 1) / m;
    assert c == m * q + c % m && c + 1 == m * q' + (c + 1) % m;
    var d := if c % m == m - 1 then 1 else 0;
    assert m * (q' - q) == if d == 1 then m else 0;
    SameMultiple(m, q' - q, d);
  }

  lemma SmallerFactor(m: nat, a: int, b: int)
    requires m > 0 && m * a < m * b
    ensures a < b
  {
    assert m * (a - b) < 0;
    if a > b { Scaled(m, a - b); }
  }

  lemma SameMultiple(m: nat, a: int, b: int)
    requires m > 0 && m * a == m * b
    ensures a == b
  {
    assert m * (a - b) == 0;
    if a > b { Scaled(m, a - b); } else if a < b { Scaled(m, b - a); }
  }
}
