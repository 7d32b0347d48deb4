/**
 * Numbers as JavaScript computes with them: reals rounded to 53 significant bits, to the nearest, ties to even.
 * Exponents are unbounded.
 */
module Doubles {
  import opened Residues

  // ---------------------------------------------------------------- powers of two

  /** 2 to the power of e. */
  function Power(e: int): (r: real)
    ensures r > 0.0
    decreases if e < 0 then -e else e
  {
    if e == 0 then 1.0 else if e > 0 then 2.0 * Power(e - 1) else Power(e + 1) / 2.0
  }

  lemma PowerNext(e: int)
    ensures Power(e + 1) == 2.0 * Power(e)
  {
  }

  lemma {:induction false} PowerGrows(e: int, f: int)
    requires e <= f
    ensures Power(e) <= Power(f)
    decreases f - e
  {
    if e < f {
      PowerNext(f - 1);
      PowerGrows(e, f - 1);
    }
  }

  /** x has its highest bit in the 53rd place above 2^e. */
  predicate Binade(x: real, e: int) {
    4503599627370496.0 * Power(e) <= x < 9007199254740992.0 * Power(e)
  }

  lemma OneBinade(x: real, e: int, f: int)
    requires Binade(x, e) && Binade(x, f)
    ensures e == f
  {
    if e < f { Above(x, e, f); }
    if f < e { Above(x, f, e); }
  }

  lemma Above(x: real, e: int, f: int)
    requires x < 9007199254740992.0 * Power(e) && e < f
    ensures x < 4503599627370496.0 * Power(f)
  {
    PowerNext(e);
    PowerGrows(e + 1, f);
  }

  /** The exponent of x, searched for upwards. */
  function ExponentUp(x: real, e: int): (r: int)
    requires x >= 4503599627370496.0 * Power(e)
    ensures Binade(x, r)
    decreases Times(x, Power(e))
  {
    PowerNext(e);
    if x < 9007199254740992.0 * Power(e) then e
    else
      Halved(x, Power(e));
      ExponentUp(x, e + 1)
  }

  function Times(x: real, p: real): (n: int)
    requires p > 0.0
  {
    (x / p).Floor
  }

  lemma Halved(x: real, p: real)
    requires p > 0.0 && x >= 2.0 * p
    ensures Times(x, 2.0 * p) < Times(x, p) && Times(x, 2.0 * p) >= 0
  {
    assert x / (2.0 * p) == (x / p) / 2.0;
    assert x / p >= 2.0;
  }

  function ExponentDown(x: real, e: int): (r: int)
    requires 0.0 < x < 9007199254740992.0 * Power(e)
    ensures Binade(x, r)
    decreases Times(4503599627370496.0 * Power(e), x)
  {
    PowerNext(e - 1);
    if x >= 4503599627370496.0 * Power(e) then e
    else
      Halving(4503599627370496.0 * Power(e), x);
      ExponentDown(x, e - 1)
  }

  lemma Halving(p: real, x: real)
    requires p > x > 0.0
    ensures 0 <= Times(p / 2.0, x) < Times(p, x)
  {
    assert (p / 2.0) / x == (p / x) / 2.0;
    assert p / x >= 1.0;
  }

  function Exponent(x: real): (e: int)
    requires x > 0.0
    ensures Binade(x, e)
  {
    if x >= 4503599627370496.0 * Power(0) then ExponentUp(x, 0) else ExponentDown(x, 0)
  }

  // ---------------------------------------------------------------- rounding

  /** The nearest integer, an even one if two are equally near. */
  function Nearest(t: real): int {
    var f := t.Floor;
    var d := t - f as real;
    if d < 0.5 then f else if d > 0.5 then f + 1 else if f % 2 == 0 then f else f + 1
  }

  lemma NearestRises(s: real, t: real)
    requires s <= t
    ensures Nearest(s) <= Nearest(t)
  {
  }

  lemma NearestIs(t: real, n: int)
    requires -0.5 < t - n as real < 0.5
    ensures Nearest(t) == n
  {
  }

  lemma NearestClose(t: real)
    ensures -0.5 <= t - Nearest(t) as real <= 0.5
  {
  }

  /** The double nearest to x. */
  function Rounded(x: real): real {
    if x == 0.0 then 0.0 else if x < 0.0 then -RoundedUpper(-x) else RoundedUpper(x)
  }

  function RoundedUpper(x: real): real
    requires x > 0.0
  {
    Nearest(x / Power(Exponent(x))) as real * Power(Exponent(x))
  }

  lemma RoundedWithin(x: real)
    requires x > 0.0
    ensures 4503599627370496.0 * Power(Exponent(x)) <= RoundedUpper(x) <= 9007199254740992.0 * Power(Exponent(x))
  {
    hide Power, Exponent, Nearest;
    var p := Power(Exponent(x));
    Quotient(x, p);
    NearestWithin(x / p);
    WithinIs(Nearest(x / p), p);
    assert RoundedUpper(x) == Nearest(x / p) as real * p;
  }

  lemma NearestWithin(t: real)
    requires 4503599627370496.0 <= t < 9007199254740992.0
    ensures 4503599627370496 <= Nearest(t) <= 9007199254740992
  {
  }

  lemma WithinIs(m: int, p: real)
    requires 4503599627370496 <= m <= 9007199254740992 && p > 0.0
    ensures 4503599627370496.0 * p <= m as real * p <= 9007199254740992.0 * p
  {
    Scales(4503599627370496.0, m as real, p);
    Scales(m as real, 9007199254740992.0, p);
  }

  lemma Quotient(x: real, p: real)
    requires p > 0.0 && 4503599627370496.0 * p <= x < 9007199254740992.0 * p
    ensures 4503599627370496.0 <= x / p < 9007199254740992.0
  {
    DivBack(x, p);
    Cancel(x / p, 9007199254740992.0, p);
    CancelAtMost(4503599627370496.0, x / p, p);
  }

  lemma Scales(s: real, t: real, p: real)
    requires s <= t && p >= 0.0
    ensures s * p <= t * p
  {
  }

  lemma Divides(s: real, t: real, p: real)
    requires s <= t && p > 0.0
    ensures s / p <= t / p
  {
    DivBack(s, p);
    DivBack(t, p);
    CancelAtMost(s / p, t / p, p);
  }

  lemma UpperRises(x: real, y: real)
    requires 0.0 < x <= y
    ensures RoundedUpper(x) <= RoundedUpper(y)
  {
    hide Power, Nearest, Exponent;
    var e, f := Exponent(x), Exponent(y);
    if e == f {
      Divides(x, y, Power(e));
      NearestRises(x / Power(e), y / Power(e));
      Scales(Nearest(x / Power(e)) as real, Nearest(y / Power(e)) as real, Power(e));
    } else {
      RoundedWithin(x);
      RoundedWithin(y);
      if f < e { Above(y, f, e); }
      PowerNext(e);
      PowerGrows(e + 1, f);
    }
  }

  /** Rounding keeps the order. */
  lemma RoundedRises(x: real, y: real)
    requires x <= y
    ensures Rounded(x) <= Rounded(y)
  {
    hide RoundedUpper;
    if x > 0.0 {
      UpperRises(x, y);
    } else if y < 0.0 {
      UpperRises(-y, -x);
    } else {
      if x < 0.0 { UpperSign(-x); }
      if y > 0.0 { UpperSign(y); }
    }
  }

  lemma UpperSign(x: real)
    requires x > 0.0
    ensures RoundedUpper(x) > 0.0
  {
    RoundedWithin(x);
  }

  lemma HalfDivisor(x: real, p: real, q: real)
    requires p > 0.0 && q == 2.0 * p
    ensures x / p == 2.0 * (x / q)
  {
    assert x / (2.0 * p) == (x / p) / 2.0;
  }

  lemma ExponentAtMost(x: real, k: int, p: real)
    requires p == Power(k) && 0.0 < x < 9007199254740992.0 * p
    ensures Exponent(x) <= k
  {
    var e := Exponent(x);
    if e > k { Above(x, k, e); }
  }

  /** Numbers of 53 bits are not rounded. */
  lemma ShiftStays(n: int, k: int)
    requires 0 < n < 9007199254740992
    ensures Rounded(n as real * Power(k)) == n as real * Power(k)
  {
    hide Nearest, Exponent, Power, RoundedUpper;
    var p := Power(k);
    var x := n as real * p;
    InScale(n, p, x);
    UpperStays(n, k, p, x);
  }

  lemma InScale(n: int, p: real, x: real)
    requires 0 < n < 9007199254740992 && p > 0.0 && x == n as real * p
    ensures 0.0 < x < 9007199254740992.0 * p
  {
    Shorter(0.0, n as real, p);
    Shorter(n as real, 9007199254740992.0, p);
  }

  lemma UpperStays(n: int, k: int, p: real, x: real)
    requires p == Power(k) && 0.0 < x < 9007199254740992.0 * p && x == n as real * p
    ensures RoundedUpper(x) == x
  {
    hide Nearest, Exponent, Power;
    ExponentAtMost(x, k, p);
    var q := Power(Exponent(x));
    var m := WholeShift(n, k, Exponent(x), p, q);
    NearestIs(x / q, m);
    DivBack(x, q);
  }

  lemma DivBack(x: real, p: real)
    requires p > 0.0
    ensures x / p * p == x
  {
  }

  lemma Shorter(s: real, t: real, p: real)
    requires s < t && p > 0.0
    ensures s * p < t * p
  {
  }

  lemma {:induction false} WholeShift(n: int, k: int, e: int, p: real, q: real) returns (m: int)
    requires e <= k && p == Power(k) && q == Power(e)
    ensures n as real * p / q == m as real
    decreases k - e
  {
    if e == k {
      m := n;
    } else {
      PowerNext(e);
      var half := WholeShift(n, k, e + 1, p, 2.0 * q);
      HalfDivisor(n as real * p, q, 2.0 * q);
      m := 2 * half;
    }
  }

  lemma WholeStays(n: int)
    requires -9007199254740992 < n < 9007199254740992
    ensures Rounded(n as real) == n as real
  {
    hide RoundedUpper;
    assert Power(0) == 1.0;
    if n > 0 {
      ShiftStays(n, 0);
    } else if n < 0 {
      ShiftStays(-n, 0);
    }
  }

  /** Rounding changes a number by at most one part in 2^53. */
  lemma RoundedClose(x: real)
    requires x > 0.0
    ensures 0.0 < Rounded(x) && (Rounded(x) - x) * 9007199254740992.0 <= x
  {
    UpperSign(x);
    hide Power, Exponent, Nearest;
    var p := Power(Exponent(x));
    NearestClose(x / p);
    CloseBy(Nearest(x / p) as real, p, x);
  }

  lemma CloseBy(n: real, p: real, x: real)
    requires p > 0.0 && n - x / p <= 0.5 && 4503599627370496.0 * p <= x
    ensures (n * p - x) * 9007199254740992.0 <= x
  {
    DivBack(x, p);
    Scales(n - x / p, 0.5, p);
    Distributes(n, x / p, p);
  }

  /** A number rounds to m 2^e if that is nearest and in the binade. */
  lemma RoundsTo(x: real, e: int, m: int)
    requires Binade(x, e) && -0.5 * Power(e) < x - m as real * Power(e) < 0.5 * Power(e)
    ensures Rounded(x) == m as real * Power(e)
  {
    hide Power, Exponent, Nearest, Binade;
    Positive(x, e);
    OneBinade(x, e, Exponent(x));
    NearBy(x, Power(e), m as real);
    NearestIs(x / Power(e), m);
  }

  lemma Positive(x: real, e: int)
    requires Binade(x, e)
    ensures x > 0.0
  {
    Scales(0.0, 4503599627370496.0, Power(e));
  }

  lemma NearBy(x: real, p: real, n: real)
    requires p > 0.0 && -0.5 * p < x - n * p < 0.5 * p
    ensures -0.5 < x / p - n < 0.5
  {
    DivBack(x, p);
    Distributes(x / p, n, p);
    Cancel(x / p - n, 0.5, p);
    Cancel(-0.5, x / p - n, p);
  }

  lemma Distributes(s: real, t: real, p: real)
    ensures (s - t) * p == s * p - t * p
  {
  }

  lemma CancelAtMost(s: real, t: real, p: real)
    requires p > 0.0 && s * p <= t * p
    ensures s <= t
  {
    if s > t { Shorter(t, s, p); }
  }

  lemma Cancel(s: real, t: real, p: real)
    requires p > 0.0 && s * p < t * p
    ensures s < t
  {
  }

  // ---------------------------------------------------------------- the nearest double

  function Apart(x: real, y: real): real { if x < y then y - x else x - y }

  /** A significand of 53 bits with an even last one. */
  predicate EvenAt(v: real, m: int, e: int) {
    4503599627370496 <= m <= 9007199254740992 && m % 2 == 0 && (v == m as real * Power(e) || v == -(m as real * Power(e)))
  }

  lemma NearestLeast(t: real, m: int)
    ensures Apart(t, Nearest(t) as real) <= Apart(t, m as real)
    ensures Apart(t, Nearest(t) as real) == Apart(t, m as real) && m != Nearest(t) ==> Nearest(t) % 2 == 0
  {
  }

  lemma ApartScales(s: real, t: real, p: real, sp: real, tp: real)
    requires p > 0.0 && sp == s * p && tp == t * p
    ensures Apart(sp, tp) == Apart(s, t) * p
  {
    Distributes(s, t, p);
    Distributes(t, s, p);
    if s < t { Shorter(s, t, p); } else { Scales(t, s, p); }
  }

  /** x and y are as many places apart as t and m say, counted in p. */
  lemma GridLeast(t: real, p: real, x: real, m: int, y: real, r: int, z: real)
    requires p > 0.0 && r == Nearest(t) && x == t * p && y == m as real * p && z == r as real * p
    ensures Apart(x, z) <= Apart(x, y)
    ensures Apart(x, z) == Apart(x, y) && y != z ==> r % 2 == 0
  {
    hide Nearest, Apart;
    NearestLeast(t, m);
    ApartScales(t, r as real, p, x, z);
    ApartScales(t, m as real, p, x, y);
    var a, b := Apart(t, r as real), Apart(t, m as real);
    Scales(a, b, p);
    if a * p == b * p { CancelAtMost(b, a, p); }
    assert Apart(x, z) == a * p && Apart(x, y) == b * p;
  }

  /** Numbers with a lower last place than x are below the binade of x. */
  lemma BelowBinade(n: int, k: int, e: int, p: real, y: real)
    requires k < e && n <= 9007199254740992 && p == Power(e) && y == n as real * Power(k)
    ensures y <= 4503599627370496.0 * p
  {
    hide Power;
    PowerNext(e - 1);
    PowerGrows(k, e - 1);
    Scales(n as real, 9007199254740992.0, Power(k));
    assert y <= 9007199254740992.0 * Power(k);
    Grown(Power(k), Power(e - 1), p);
  }

  lemma Grown(p: real, q: real, r: real)
    requires p <= q && r == 2.0 * q
    ensures 9007199254740992.0 * p <= 4503599627370496.0 * r
  {
  }

  lemma FartherBelow(x: real, z: real, b: real, y: real, m: int)
    requires y <= b <= x && Apart(x, z) <= Apart(x, b) && (Apart(x, z) == Apart(x, b) && b != z ==> m % 2 == 0)
    ensures Apart(x, z) <= Apart(x, y) && (Apart(x, z) == Apart(x, y) && y != z ==> m % 2 == 0)
  {
  }

  lemma WholeIs(n: int, k: int, e: int, p: real, y: real) returns (w: int)
    requires e <= k && p == Power(e) && y == n as real * Power(k)
    ensures y == w as real * p
  {
    hide Power;
    w := WholeShift(n, k, e, Power(k), p);
    DivBack(y, p);
  }

  lemma UpperIs(x: real) returns (m: int, t: real, p: real)
    requires x > 0.0
    ensures p == Power(Exponent(x)) && t * p == x && m == Nearest(t) && RoundedUpper(x) == m as real * p
    ensures 4503599627370496.0 * p <= x && 4503599627370496 <= m <= 9007199254740992
  {
    hide Power, Exponent, Nearest;
    p := Power(Exponent(x));
    t := x / p;
    m := Nearest(t);
    DivBack(x, p);
    Quotient(x, p);
    NearestWithin(t);
  }

  lemma UpperLeast(x: real, n: int, k: int, y: real) returns (m: int)
    requires x > 0.0 && n <= 9007199254740992 && y == n as real * Power(k)
    ensures RoundedUpper(x) == m as real * Power(Exponent(x)) && 4503599627370496 <= m <= 9007199254740992
    ensures Apart(x, RoundedUpper(x)) <= Apart(x, y)
    ensures Apart(x, RoundedUpper(x)) == Apart(x, y) && y != RoundedUpper(x) ==> m % 2 == 0
  {
    hide Power, Exponent, Nearest, Apart, RoundedUpper;
    var t, p;
    m, t, p := UpperIs(x);
    var e, z := Exponent(x), RoundedUpper(x);
    if e <= k {
      var w := WholeIs(n, k, e, p, y);
      GridLeast(t, p, x, w, y, m, z);
    } else {
      BelowBinade(n, k, e, p, y);
      var b := 4503599627370496.0 * p;
      GridLeast(t, p, x, 4503599627370496, b, m, z);
      FartherBelow(x, z, b, y, m);
    }
  }

  lemma TimesOpposite(n: int, p: real)
    ensures (-n) as real * p == -(n as real * p)
  {
  }

  /**
   * A number is rounded to the nearest of 53 bits: no other is nearer, and if another is as near the last bit of the
   * one taken is 0.
   */
  lemma RoundedNearest(x: real, y: real, n: int, k: int) returns (m: int, e: int)
    requires x != 0.0 && y == n as real * Power(k) && -9007199254740992 <= n <= 9007199254740992
    ensures Apart(x, Rounded(x)) <= Apart(x, y)
    ensures Apart(x, Rounded(x)) == Apart(x, y) && y != Rounded(x) ==> EvenAt(Rounded(x), m, e)
  {
    hide Power, Exponent, RoundedUpper;
    if x > 0.0 {
      e := Exponent(x);
      m := UpperLeast(x, n, k, y);
    } else {
      e := Exponent(-x);
      TimesOpposite(n, Power(k));
      m := UpperLeast(-x, -n, k, -y);
    }
  }

  // ---------------------------------------------------------------- arithmetic

  function Sub(x: real, y: real): real { Rounded(x - y) }

  function Mul(x: real, y: real): real { Rounded(x * y) }

  /** s t - u v */
  function Cross(s: real, t: real, u: real, v: real): real { Sub(Mul(s, t), Mul(u, v)) }

  /** Multiples of 2^k by integers of 25 bits, whose differences have products that are not rounded. */
  predicate Small(v: real, k: int) {
    var m := v / Power(k);
    m == m.Floor as real && -33554432.0 < m < 33554432.0
  }

  /** n times 2^k. */
  function Grid(n: int, k: int): real { n as real * Power(k) }

  lemma SmallIs(v: real, k: int) returns (n: int)
    requires Small(v, k)
    ensures v == Grid(n, k) && -33554432 < n < 33554432
  {
    hide Power;
    n := (v / Power(k)).Floor;
    DivBack(v, Power(k));
  }

  /** Multiples of a power of two by integers of 53 bits are not rounded. */
  lemma GridStays(n: int, k: int)
    requires -9007199254740992 < n < 9007199254740992
    ensures Rounded(Grid(n, k)) == Grid(n, k)
  {
    hide Rounded, Power;
    if n > 0 {
      ShiftStays(n, k);
    } else if n < 0 {
      ShiftStays(-n, k);
      Opposite(Grid(-n, k));
      GridMinus(n, k);
    } else {
      NoneStays();
    }
  }

  lemma GridMinus(n: int, k: int)
    ensures Grid(-n, k) == -Grid(n, k)
  {
    hide Power;
    assert (-n) as real == -(n as real);
  }

  lemma GridDiff(m: int, n: int, k: int)
    ensures Grid(m, k) - Grid(n, k) == Grid(m - n, k)
  {
    hide Power;
    assert (m - n) as real == m as real - n as real;
    Distributes(m as real, n as real, Power(k));
  }

  lemma GridTimes(s: int, t: int, k: int)
    ensures Grid(s, k) * Grid(t, k) == Grid(s * t, 2 * k)
  {
    hide Power;
    Converts(s, t);
    PowerAdd(k, k);
    Regrouped(s as real, t as real, Power(k));
  }

  lemma Regrouped(s: real, t: real, p: real)
    ensures (s * p) * (t * p) == (s * t) * (p * p)
  {
  }

  lemma {:induction false} PowerAdd(e: int, f: int)
    ensures Power(e) * Power(f) == Power(e + f)
    decreases if f < 0 then -f else f
  {
    hide Power;
    if f > 0 {
      PowerAdd(e, f - 1);
      PowerNext(f - 1);
      PowerNext(e + f - 1);
      Twice(Power(e), Power(f - 1));
    } else if f < 0 {
      PowerAdd(e, f + 1);
      PowerNext(f);
      PowerNext(e + f);
      Twice(Power(e), Power(f));
    } else {
      PowerZero();
    }
  }

  lemma PowerZero()
    ensures Power(0) == 1.0
  {
  }

  lemma Twice(p: real, q: real)
    ensures p * (2.0 * q) == 2.0 * (p * q)
  {
  }

  lemma SubExact(x: real, y: real, k: int) returns (d: int)
    requires Small(x, k) && Small(y, k)
    ensures Sub(x, y) == x - y == Grid(d, k) && -67108864 < d < 67108864
  {
    hide Small, Rounded, Grid;
    var m := SmallIs(x, k);
    var n := SmallIs(y, k);
    d := m - n;
    GridDiff(m, n, k);
    GridStays(d, k);
  }

  lemma ProductBound(s: int, t: int)
    requires -67108864 < s < 67108864 && -67108864 < t < 67108864
    ensures -4503599627370496 < s * t < 4503599627370496
  {
    var m, n := if s < 0 then -s else s, if t < 0 then -t else t;
    MulLe(m, 67108863, n);
    Signs(s, t, m, n);
  }

  lemma Signs(s: int, t: int, m: int, n: int)
    requires (s == m || s == -m) && (t == n || t == -n)
    ensures s * t == m * n || s * t == -(m * n)
  {
  }

  lemma MulExact(s: int, t: int, k: int)
    requires -67108864 < s < 67108864 && -67108864 < t < 67108864
    ensures Mul(Grid(s, k), Grid(t, k)) == Grid(s, k) * Grid(t, k) == Grid(s * t, 2 * k)
  {
    hide Rounded, Grid;
    ProductBound(s, t);
    GridTimes(s, t, k);
    GridStays(s * t, 2 * k);
  }

  lemma Converts(s: int, t: int)
    ensures s as real * t as real == (s * t) as real
  {
  }

  lemma SubRises(v: real, w: real, m: real)
    requires m <= v <= w
    ensures 0.0 <= Sub(v, m) <= Sub(w, m)
  {
    NoneStays();
    hide Rounded;
    RoundedRises(0.0, v - m);
    RoundedRises(v - m, w - m);
  }

  lemma MulRises(s: real, t: real, p: real)
    requires 0.0 <= s <= t && p >= 0.0
    ensures 0.0 <= Mul(s, p) <= Mul(t, p)
  {
    NoneStays();
    hide Rounded;
    Scales(0.0, s, p);
    Scales(s, t, p);
    RoundedRises(0.0, s * p);
    RoundedRises(s * p, t * p);
  }

  lemma NoneStays()
    ensures Rounded(0.0) == 0.0
  {
  }

  lemma CrossExact(s: int, t: int, u: int, v: int, k: int)
    requires -67108864 < s < 67108864 && -67108864 < t < 67108864 && -67108864 < u < 67108864 && -67108864 < v < 67108864
    ensures Cross(Grid(s, k), Grid(t, k), Grid(u, k), Grid(v, k)) == Grid(s, k) * Grid(t, k) - Grid(u, k) * Grid(v, k)
  {
    hide Rounded, Mul, Grid;
    MulExact(s, t, k);
    MulExact(u, v, k);
    ProductBound(s, t);
    ProductBound(u, v);
    GridDiff(s * t, u * v, 2 * k);
    GridStays(s * t - u * v, 2 * k);
  }

  /** A product is rounded to m 2^e. */
  lemma MulRounds(s: int, t: int, e: nat, pow: int, m: int)
    requires Power(e) == pow as real && 4503599627370496 * pow <= s * t < 9007199254740992 * pow && -pow < 2 * (s * t - m * pow) < pow
    ensures Mul(s as real, t as real) == (m * pow) as real
  {
    hide Rounded, Power, Binade;
    Converts(s, t);
    InBinade(s * t, e, pow, m);
    RoundsTo((s * t) as real, e, m);
    Converts(m, pow);
  }

  lemma InBinade(n: int, e: nat, pow: int, m: int)
    requires Power(e) == pow as real && 4503599627370496 * pow <= n < 9007199254740992 * pow && -pow < 2 * (n - m * pow) < pow
    ensures Binade(n as real, e) && -0.5 * Power(e) < n as real - m as real * Power(e) < 0.5 * Power(e)
  {
    hide Power;
    Converts(m, pow);
    var q := m * pow;
    assert m as real * Power(e) == q as real;
  }

  lemma Opposite(x: real)
    ensures Rounded(-x) == -Rounded(x)
  {
  }
}
