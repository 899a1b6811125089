/** Remainders by repeated subtraction, and how they relate to division. */
module Remainders {

  function Rem(a: nat, m: nat): (r: nat)
    requires m > 0
    ensures r < m
    decreases a
  {
    if a < m then a else Rem(a - m, m)
  }

  lemma {:induction false} RemIsMod(a: nat, m: nat)
    requires m > 0
    ensures Rem(a, m) == a % m
    decreases a
  {
    if a < m {
      QuotientIs(a, m, 0, a);
    } else {
      RemIsMod(a - m, m);
      var q, r := (a - m) / m, (a - m) % m;
      assert a == q * m + r + m;
      assert (q + 1) * m == q * m + m;
      QuotientIs(a, m, q + 1, r);
    }
  }

  lemma {:induction false} RemAdd(a: nat, b: nat, m: nat)
    requires m > 0
    ensures Rem(Rem(a, m) + b, m) == Rem(a + b, m)
    decreases a
  {
    if a >= m {
      RemAdd(a - m, b, m);
    }
  }

  function Next(o: nat, period: nat): nat
  {
    if o + 1 < period then o + 1 else 0
  }

  lemma {:induction false} RemNext(a: nat, m: nat)
    requires m > 0
    ensures Rem(a + 1, m) == Next(Rem(a, m), m)
    decreases a
  {
    if a >= m {
      RemNext(a - m, m);
    }
  }

  lemma QuotientIs(x: int, n: nat, d: int, m: int)
    requires n > 0 && x == d * n + m && 0 <= m < n
    ensures x / n == d && x % n == m
  {
    SameQuotient(n, x / n, x % n, d, m);
  }

  lemma SameQuotient(n: nat, e: int, r: int, d: int, m: int)
    requires e * n + r == d * n + m && 0 <= r < n && 0 <= m < n
    ensures e == d
  {
    var k := e - d;
    assert k > 0 ==> (k - 1) * n >= 0;
    assert k < 0 ==> (-k - 1) * n >= 0;
    assert k * n == m - r;
  }
}
