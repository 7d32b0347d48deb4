/** Quotients and remainders: when they are determined, and when two numbers have the same. */
module Residues {
  lemma SmallMod(t: nat, n: int)
    requires t < n
    ensures t % n == t
  {
  }

  /** Two counters of one residue that are less than n apart are equal. */
  lemma SameTurn(a: int, b: int, n: int)
    requires n >= 1 && a % n == b % n && a < b + n && b < a + n
    ensures a == b
  {
    var qa, qb := a / n, b / n;
    assert a == qa * n + a % n && b == qb * n + b % n;
    if qa < qb { Times(qa + 1, qb, n); } else if qb < qa { Times(qb + 1, qa, n); }
  }

  lemma Times(a: int, b: int, n: int)
    requires n >= 0
    requires a <= b
    ensures a * n <= b * n && (a - 1) * n + n == a * n && (b - 1) * n + n == b * n
  {
  }

  lemma ModIs(a: int, n: int, q: int, r: int)
    requires 0 <= r < n && a == q * n + r
    ensures a % n == r
  {
    var p, m := a / n, a % n;
    assert a == p * n + m;
    if p < q { Times(p + 1, q, n); } else if q < p { Times(q + 1, p, n); }
  }

  lemma MulLe(a: int, b: int, d: nat)
    ensures a <= b ==> a * d <= b * d
  {
  }

  lemma QuotientUnique(v: nat, d: nat, q: nat, r: nat)
    requires d >= 1 && r < d && v == q * d + r
    ensures v / d == q && v % d == r
  {
    var q2, r2 := v / d, v % d;
    assert v == q2 * d + r2;
    MulLe(q + 1, q2, d);
    MulLe(q2 + 1, q, d);
    assert (q + 1) * d == q * d + d && (q2 + 1) * d == q2 * d + d;
  }
}
