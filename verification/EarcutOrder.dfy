/** The z-order index of earcut: coordinates scaled to 15 bits, whose bits are then interleaved. */
module EarcutOrder {
  import opened Bits
  import opened Doubles

  // ---------------------------------------------------------------- bit operations

  function Or(x: nat, y: nat): nat {
    if x == 0 then y else if y == 0 then x
    else 2 * Or(x / 2, y / 2) + (if x % 2 == 1 || y % 2 == 1 then 1 else 0)
  }

  function And(x: nat, y: nat): nat {
    if x == 0 || y == 0 then 0
    else 2 * And(x / 2, y / 2) + (if x % 2 == 1 && y % 2 == 1 then 1 else 0)
  }

  function Shl(x: nat, k: nat): nat {
    if k == 0 then x else 2 * Shl(x, k - 1)
  }

  /** Bit k of x; bits below the first are 0. */
  function BitAt(x: nat, k: int): bool
    decreases k
  {
    k >= 0 && if k == 0 then x % 2 == 1 else BitAt(x / 2, k - 1)
  }

  lemma {:induction false} OrBit(x: nat, y: nat, k: int)
    ensures BitAt(Or(x, y), k) == (BitAt(x, k) || BitAt(y, k))
    decreases k
  {
    if x == 0 {
      ZeroBit(k);
    } else if y == 0 {
      ZeroBit(k);
    } else if k > 0 {
      OrBit(x / 2, y / 2, k - 1);
    }
  }

  lemma {:induction false} AndBit(x: nat, y: nat, k: int)
    ensures BitAt(And(x, y), k) == (BitAt(x, k) && BitAt(y, k))
    decreases k
  {
    if x == 0 || y == 0 {
      ZeroBit(k);
    } else if k > 0 {
      AndBit(x / 2, y / 2, k - 1);
    }
  }

  lemma {:induction false} ShlBit(x: nat, n: nat, k: int)
    ensures BitAt(Shl(x, n), k) == BitAt(x, k - n)
    decreases n
  {
    if n > 0 {
      ShlBit(x, n - 1, k - 1);
    }
  }

  lemma {:induction false} ZeroBit(k: int)
    ensures !BitAt(0, k)
    decreases k
  {
    if k > 0 { ZeroBit(k - 1); }
  }

  /** Numbers with the same bits are equal. */
  lemma {:induction false} SameBits(x: nat, y: nat)
    requires forall k {:trigger BitAt(x, k)} {:trigger BitAt(y, k)} :: k >= 0 ==> BitAt(x, k) == BitAt(y, k)
    ensures x == y
  {
    assert BitAt(x, 0) == BitAt(y, 0);
    if x > 0 || y > 0 {
      forall k | k >= 0 ensures BitAt(x / 2, k) == BitAt(y / 2, k) {
        assert BitAt(x, k + 1) == BitAt(y, k + 1);
      }
      SameBits(x / 2, y / 2);
    }
  }

  lemma {:induction false} HighBit(x: nat, n: nat, k: int)
    requires x < Pow2(n) && k >= n
    ensures !BitAt(x, k)
    decreases n
  {
    if n == 0 { ZeroBit(k); } else { HighBit(x / 2, n - 1, k - 1); }
  }

  // ---------------------------------------------------------------- spreading bits

  function Step(x: nat, n: nat, mask: nat): nat {
    And(Or(x, Shl(x, n)), mask)
  }

  lemma StepBit(x: nat, n: nat, mask: nat, k: int)
    ensures BitAt(Step(x, n, mask), k) == (BitAt(mask, k) && (BitAt(x, k) || BitAt(x, k - n)))
  {
    AndBit(Or(x, Shl(x, n)), mask, k);
    OrBit(x, Shl(x, n), k);
    ShlBit(x, n, k);
  }

  /** The bits of hi follow n bits of lo. */
  lemma {:induction false} Chunks(lo: nat, hi: nat, n: nat, k: int)
    requires lo < Pow2(n)
    ensures BitAt(hi * Pow2(n) + lo, k) == if k < n then BitAt(lo, k) else BitAt(hi, k - n)
    decreases n
  {
    if n == 0 {
      assert hi * Pow2(0) + lo == hi && lo == 0;
      ZeroBit(k);
    } else {
      var h := hi * Pow2(n - 1);
      Doubled(hi, n);
      Halves(h, lo);
      if k > 0 { Chunks(lo / 2, hi, n - 1, k - 1); }
      ChunkBit(2 * h + lo, h + lo / 2, lo, k);
    }
  }

  lemma Doubled(hi: nat, n: nat)
    requires n > 0
    ensures hi * Pow2(n) == 2 * (hi * Pow2(n - 1))
  {
    assert Pow2(n) == 2 * Pow2(n - 1);
  }

  lemma Halves(h: nat, lo: nat)
    ensures (2 * h + lo) / 2 == h + lo / 2 && (2 * h + lo) % 2 == lo % 2
  {
  }

  lemma ChunkBit(x: nat, half: nat, lo: nat, k: int)
    requires x / 2 == half && x % 2 == lo % 2
    ensures k <= 0 ==> BitAt(x, k) == BitAt(lo, k)
    ensures k > 0 ==> BitAt(x, k) == BitAt(half, k - 1) && BitAt(lo, k) == BitAt(lo / 2, k - 1)
  {
  }

  lemma Powers()
    ensures Pow2(1) == 2 && Pow2(2) == 4 && Pow2(4) == 16 && Pow2(8) == 256 && Pow2(15) == 32768 && Pow2(16) == 65536
  {
  }

  lemma {:induction false} OnesBit(n: nat, k: int)
    ensures BitAt(Pow2(n) - 1, k) == (0 <= k < n)
    decreases n
  {
    if n == 0 { ZeroBit(k); } else if k > 0 { OnesBit(n - 1, k - 1); }
  }

  /** Bits 2 c a + b of the masks, b < 2 c, are set where b < c. */
  lemma Mask8(a: int, b: nat)
    requires b < 16
    ensures BitAt(0x00FF00FF, 16 * a + b) == (0 <= a < 2 && b < 8)
  {
    hide BitAt, Pow2;
    Powers();
    Chunks(255, 255, 16, 16 * a + b);
    OnesBit(8, 16 * a + b);
    OnesBit(8, 16 * a + b - 16);
  }

  lemma Mask4(a: int, b: nat)
    requires b < 8
    ensures BitAt(0x0F0F0F0F, 8 * a + b) == (0 <= a < 4 && b < 4)
  {
    hide BitAt, Pow2;
    Powers();
    Chunks(0x0F0F, 0x0F0F, 16, 8 * a + b);
    Mask4Half(a, b);
    Mask4Half(a - 2, b);
  }

  lemma Mask4Half(a: int, b: nat)
    requires b < 8
    ensures BitAt(0x0F0F, 8 * a + b) == (0 <= a < 2 && b < 4)
  {
    hide BitAt, Pow2;
    Powers();
    Chunks(15, 15, 8, 8 * a + b);
    OnesBit(4, 8 * a + b);
    OnesBit(4, 8 * a + b - 8);
  }

  lemma Mask2(a: int, b: nat)
    requires b < 4
    ensures BitAt(0x33333333, 4 * a + b) == (0 <= a < 8 && b < 2)
  {
    hide BitAt, Pow2;
    Powers();
    Chunks(0x3333, 0x3333, 16, 4 * a + b);
    Mask2Half(a, b);
    Mask2Half(a - 4, b);
  }

  lemma Mask2Half(a: int, b: nat)
    requires b < 4
    ensures BitAt(0x3333, 4 * a + b) == (0 <= a < 4 && b < 2)
  {
    hide BitAt, Pow2;
    Powers();
    Chunks(0x33, 0x33, 8, 4 * a + b);
    Mask2Quarter(a, b);
    Mask2Quarter(a - 2, b);
  }

  lemma Mask2Quarter(a: int, b: nat)
    requires b < 4
    ensures BitAt(0x33, 4 * a + b) == (0 <= a < 2 && b < 2)
  {
    hide BitAt, Pow2;
    Powers();
    Chunks(3, 3, 4, 4 * a + b);
    OnesBit(2, 4 * a + b);
    OnesBit(2, 4 * a + b - 4);
  }

  lemma Mask1(a: int, b: nat)
    requires b < 2
    ensures BitAt(0x55555555, 2 * a + b) == (0 <= a < 16 && b == 0)
  {
    hide BitAt, Pow2;
    Powers();
    Chunks(0x5555, 0x5555, 16, 2 * a + b);
    Mask1Half(a, b);
    Mask1Half(a - 8, b);
  }

  lemma Mask1Half(a: int, b: nat)
    requires b < 2
    ensures BitAt(0x5555, 2 * a + b) == (0 <= a < 8 && b == 0)
  {
    hide BitAt, Pow2;
    Powers();
    Chunks(0x55, 0x55, 8, 2 * a + b);
    Mask1Quarter(a, b);
    Mask1Quarter(a - 4, b);
  }

  lemma Mask1Quarter(a: int, b: nat)
    requires b < 2
    ensures BitAt(0x55, 2 * a + b) == (0 <= a < 4 && b == 0)
  {
    hide BitAt, Pow2;
    Powers();
    Chunks(5, 5, 4, 2 * a + b);
    Mask1Pair(a, b);
    Mask1Pair(a - 2, b);
  }

  lemma Mask1Pair(a: int, b: nat)
    requires b < 2
    ensures BitAt(5, 2 * a + b) == (0 <= a < 2 && b == 0)
  {
    hide BitAt, Pow2;
    Powers();
    Chunks(1, 1, 2, 2 * a + b);
    OnesBit(1, 2 * a + b);
    OnesBit(1, 2 * a + b - 2);
  }

  function Step8(x: nat): nat { Step(x, 8, 0x00FF00FF) }
  function Step4(x: nat): nat { Step(Step8(x), 4, 0x0F0F0F0F) }
  function Step2(x: nat): nat { Step(Step4(x), 2, 0x33333333) }

  /** Four steps that move bit i of a 15-bit number to bit 2 i. */
  function Spread(x: nat): nat { Step(Step2(x), 1, 0x55555555) }

  lemma Spread8(x: nat, a: int, b: nat)
    requires x < Pow2(15) && b < 16
    ensures BitAt(Step8(x), 16 * a + b) == (0 <= a < 2 && b < 8 && BitAt(x, 8 * a + b))
  {
    hide BitAt, Step, Pow2;
    StepBit(x, 8, 0x00FF00FF, 16 * a + b);
    Mask8(a, b);
    if 0 <= a < 2 && b < 8 {
      if a == 1 { HighBit(x, 15, 16 + b); } else { NoBit(x, b - 8); }
    }
  }

  lemma NoBit(x: nat, k: int)
    requires k < 0
    ensures !BitAt(x, k)
  {
  }

  lemma Spread4(x: nat, a: int, b: nat)
    requires x < Pow2(15) && b < 8
    ensures BitAt(Step4(x), 8 * a + b) == (0 <= a < 4 && b < 4 && BitAt(x, 4 * a + b))
  {
    hide BitAt, Step, Pow2, Step8;
    StepBit(Step8(x), 4, 0x0F0F0F0F, 8 * a + b);
    Mask4(a, b);
    if b < 4 {
      var c := a / 2;
      if a == 2 * c {
        Spread8(x, c, b);
        Spread8(x, c - 1, 12 + b);
      } else {
        Spread8(x, c, 8 + b);
        Spread8(x, c, 4 + b);
      }
    }
  }

  lemma Spread2(x: nat, a: int, b: nat)
    requires x < Pow2(15) && b < 4
    ensures BitAt(Step2(x), 4 * a + b) == (0 <= a < 8 && b < 2 && BitAt(x, 2 * a + b))
  {
    hide BitAt, Step, Pow2, Step4;
    StepBit(Step4(x), 2, 0x33333333, 4 * a + b);
    Mask2(a, b);
    if b < 2 {
      var c := a / 2;
      if a == 2 * c {
        Spread4(x, c, b);
        Spread4(x, c - 1, 6 + b);
      } else {
        Spread4(x, c, 4 + b);
        Spread4(x, c, 2 + b);
      }
    }
  }

  lemma SpreadBit(x: nat, a: int, b: nat)
    requires x < Pow2(15) && b < 2
    ensures BitAt(Spread(x), 2 * a + b) == (0 <= a < 16 && b == 0 && BitAt(x, a))
  {
    hide BitAt, Step, Pow2, Step2;
    StepBit(Step2(x), 1, 0x55555555, 2 * a + b);
    Mask1(a, b);
    if b == 0 {
      var c := a / 2;
      if a == 2 * c {
        Spread2(x, c, 0);
        Spread2(x, c - 1, 3);
      } else {
        Spread2(x, c, 2);
        Spread2(x, c, 1);
      }
    }
  }

  /** The binary digits of x read in base 4. */
  function Spaced(x: nat): nat {
    if x == 0 then 0 else 4 * Spaced(x / 2) + x % 2
  }

  lemma {:induction false} SpacedBit(x: nat, a: nat, b: nat)
    requires b < 2
    ensures BitAt(Spaced(x), 2 * a + b) == (b == 0 && BitAt(x, a))
    decreases a
  {
    if x == 0 {
      ZeroBit(2 * a + b);
      ZeroBit(a);
    } else {
      assert Spaced(x) / 2 == 2 * Spaced(x / 2);
      if a > 0 { SpacedBit(x / 2, a - 1, b); }
    }
  }

  lemma SpreadIsSpaced(x: nat)
    requires x < Pow2(15)
    ensures Spread(x) == Spaced(x)
  {
    hide Spread, Spaced, BitAt;
    forall k | k >= 0 ensures BitAt(Spread(x), k) == BitAt(Spaced(x), k) {
      var a, b := k / 2, k % 2;
      SpreadBit(x, a, b);
      SpacedBit(x, a, b);
      if a >= 15 { HighBit(x, 15, a); }
    }
    SameBits(Spread(x), Spaced(x));
  }

  lemma {:induction false} SpacedRises(x: nat, y: nat)
    requires x < y
    ensures Spaced(x) < Spaced(y)
  {
    if x / 2 < y / 2 { SpacedRises(x / 2, y / 2); }
  }

  lemma SpacedSplit(x: nat)
    ensures Spaced(x) == 4 * Spaced(x / 2) + x % 2
  {
  }

  lemma OrZero(x: nat)
    ensures Or(x, 0) == x && Or(0, x) == x
  {
  }

  lemma {:induction false} Interleaved(x: nat, y: nat)
    ensures Or(Spaced(x), 2 * Spaced(y)) == Spaced(x) + 2 * Spaced(y)
    decreases x + y
  {
    hide Or;
    if x == 0 || y == 0 {
      OrZero(Spaced(x));
      OrZero(2 * Spaced(y));
    } else {
      Interleaved(x / 2, y / 2);
      SpacedSplit(x);
      SpacedSplit(y);
      hide Spaced;
      OrPairs(Spaced(x / 2), x % 2, Spaced(y / 2), y % 2);
    }
  }

  lemma OrPairs(a: nat, p: nat, b: nat, q: nat)
    requires p <= 1 && q <= 1
    ensures Or(4 * a + p, 2 * (4 * b + q)) == 4 * Or(a, 2 * b) + p + 2 * q
  {
    OrHalf(4 * a + p, 2 * (4 * b + q), 2 * a, 4 * b + q, p, 0);
    OrHalf(2 * a, 4 * b + q, a, 2 * b, 0, q);
  }

  lemma OrHalf(x: nat, y: nat, a: nat, b: nat, p: nat, q: nat)
    requires x == 2 * a + p && y == 2 * b + q && p <= 1 && q <= 1
    ensures Or(x, y) == 2 * Or(a, b) + (if p == 1 || q == 1 then 1 else 0)
  {
  }

  // ---------------------------------------------------------------- the order

  /** A coordinate as a number of steps from the edge of the box, each operation rounded. */
  function Steps(v: real, min: real, invSize: real): real {
    Mul(Mul(Sub(v, min), 32767.0), invSize)
  }

  /** A coordinate is in the box: there are not too many steps. */
  predicate Inside(v: real, min: real, invSize: real) {
    invSize >= 0.0 && min <= v && Steps(v, min, invSize) < 32768.0
  }

  function Scaled(v: real, min: real, invSize: real): (n: nat)
    requires Inside(v, min, invSize)
    ensures n <= 32767
  {
    StepsRise(min, v, min, invSize);
    Steps(v, min, invSize).Floor
  }

  lemma StepsRise(v: real, w: real, min: real, invSize: real)
    requires invSize >= 0.0 && min <= v <= w
    ensures 0.0 <= Steps(v, min, invSize) <= Steps(w, min, invSize)
  {
    hide Mul, Sub;
    SubRises(v, w, min);
    MulRises(Sub(v, min), Sub(w, min), 32767.0);
    MulRises(Mul(Sub(v, min), 32767.0), Mul(Sub(w, min), 32767.0), invSize);
  }

  lemma ScaledRises(v: real, w: real, min: real, invSize: real)
    requires Inside(v, min, invSize) && Inside(w, min, invSize) && v <= w
    ensures Scaled(v, min, invSize) <= Scaled(w, min, invSize)
  {
    hide Steps;
    StepsRise(v, w, min, invSize);
  }

  /** What lies between inside points is inside. */
  lemma InsideBetween(v: real, w: real, min: real, invSize: real)
    requires min <= v <= w && Inside(w, min, invSize)
    ensures Inside(v, min, invSize)
  {
    hide Steps;
    StepsRise(v, w, min, invSize);
  }

  function ZOrder(x: real, y: real, minX: real, minY: real, invSize: real): nat
    requires Inside(x, minX, invSize) && Inside(y, minY, invSize)
  {
    Or(Spread(Scaled(x, minX, invSize)), Shl(Spread(Scaled(y, minY, invSize)), 1))
  }

  /** The order grows with either coordinate. */
  lemma ZOrderRises(x: real, y: real, x2: real, y2: real, minX: real, minY: real, invSize: real)
    requires Inside(x, minX, invSize) && Inside(y, minY, invSize) && Inside(x2, minX, invSize) && Inside(y2, minY, invSize)
    requires x <= x2 && y <= y2
    ensures ZOrder(x, y, minX, minY, invSize) <= ZOrder(x2, y2, minX, minY, invSize)
  {
    hide Scaled, ZOrder, Spaced, Steps, Inside;
    ScaledRises(x, x2, minX, invSize);
    ScaledRises(y, y2, minY, invSize);
    ZOrderIs(x, y, minX, minY, invSize);
    ZOrderIs(x2, y2, minX, minY, invSize);
    if Scaled(x, minX, invSize) < Scaled(x2, minX, invSize) { SpacedRises(Scaled(x, minX, invSize), Scaled(x2, minX, invSize)); }
    if Scaled(y, minY, invSize) < Scaled(y2, minY, invSize) { SpacedRises(Scaled(y, minY, invSize), Scaled(y2, minY, invSize)); }
  }

  /** The digits of both coordinates take turns. */
  lemma ZOrderIs(x: real, y: real, minX: real, minY: real, invSize: real)
    requires Inside(x, minX, invSize) && Inside(y, minY, invSize)
    ensures ZOrder(x, y, minX, minY, invSize) == Spaced(Scaled(x, minX, invSize)) + 2 * Spaced(Scaled(y, minY, invSize))
  {
    hide Spread, Or, Spaced, Pow2, Shl, Scaled;
    Powers();
    var u, v := Scaled(x, minX, invSize), Scaled(y, minY, invSize);
    SpreadIsSpaced(u);
    SpreadIsSpaced(v);
    Interleaved(u, v);
    ShlOne(Spread(v));
  }

  lemma ShlOne(x: nat)
    ensures Shl(x, 1) == 2 * x
  {
  }
}
