/** The encoder's table of distance slots, filled once, and its two look-ups for distances of any size. */
module LzmaSlots {
  import opened Bits
  import opened Residues
  import opened LzmaStrokes

  const NUM_LOG_BITS: nat := 13

  lemma LeastNext(s: nat)
    requires s >= 2
    ensures Least(s + 1) == Least(s) + Pow2(s / 2 - 1) && (s >= 4 ==> Least(s) == 2 * Least(s - 2))
  {
    if s < 4 {
      assert Pow2(0) == 1 && Pow2(1) == 2;
    } else {
      var p := Pow2(s / 2 - 1);
      assert Pow2(s / 2) == 2 * p;
      if s >= 6 {
        assert p == 2 * Pow2(s / 2 - 2);
        Doubled(2 + s % 2, Pow2(s / 2 - 2));
      } else {
        assert p == 2 by { assert Pow2(0) == 1; }
      }
    }
  }

  /** The distances of a slot. */
  lemma {:induction false} SlotIs(d: nat, s: nat)
    requires s >= 2 && Least(s) <= d < Least(s + 1)
    ensures SlotOf(d) == s
    decreases s
  {
    hide Least;
    LeastNext(s);
    LeastNext(s + 1);
    if s < 4 {
      Smallest();
    } else {
      LeastNext(s - 1);
      LeastPositive(s - 2);
      SlotIs(d / 2, s - 2);
    }
  }

  lemma Smallest()
    ensures Least(2) == 2 && Least(3) == 3 && Least(4) == 4
  {
    assert Pow2(1) == 2;
  }

  lemma LeastPositive(s: nat)
    requires s >= 2
    ensures Least(s) >= 2
  {
    if s >= 4 { MulLe(1, 2 + s % 2, Pow2(s / 2 - 1)); MulLe(2, 2 + s % 2, Pow2(s / 2 - 1)); }
  }

  lemma TableFull()
    ensures Least(26) == 0x2000 && Least(2) == 2
  {
    assert Pow2(12) == 0x1000 by { assert Pow2(6) == 64; Pow2Add(6, 6); }
  }

  lemma {:induction false} LeastRises(s: nat, t: nat)
    requires 2 <= s <= t
    ensures Least(s) <= Least(t)
    decreases t
  {
    hide Least;
    if s < t {
      LeastRises(s, t - 1);
      LeastNext(t - 1);
    }
  }

  ghost predicate Filled(g: seq<nat>, c: nat) {
    c <= |g| && forall d :: 0 <= d < c ==> g[d] == SlotOf(d)
  }

  method FastPosInit(g: array<nat>)
    requires g.Length == 0x2000
    modifies g
    ensures Filled(g[..], 0x2000)
  {
    hide SlotOf, Least, Pow2;
    g[0] := 0;
    g[1] := 1;
    var c := 2;
    TwoSlots();
    TableFull();
    var slotFast := 2;
    while slotFast < NUM_LOG_BITS * 2
      invariant 2 <= slotFast <= 26 && c == Least(slotFast) && c <= 0x2000 && Filled(g[..], c)
    {
      var k := Pow2(slotFast / 2 - 1);
      LeastNext(slotFast);
      LeastRises(slotFast + 1, 26);
      ghost var c0 := c;
      for j := 0 to k
        invariant c == c0 + j && Filled(g[..], c)
      {
        SlotIs(c, slotFast);
        g[c] := slotFast;
        c := c + 1;
      }
      slotFast := slotFast + 1;
    }
  }

  lemma TwoSlots()
    ensures SlotOf(0) == 0 && SlotOf(1) == 1
  {
  }

  /** The slot is that of the distance without its lowest bits, and two more for each bit left off. */
  lemma {:induction false} SlotShift(d: nat, i: nat)
    requires d / Pow2(i) >= 2
    ensures SlotOf(d) == SlotOf(d / Pow2(i)) + 2 * i
    decreases i
  {
    if i == 0 {
      assert d / 1 == d;
    } else {
      HalveDiv(d, Pow2(i - 1));
      AtLeastFour(d, Pow2(i - 1));
      SlotShift(d / 2, i - 1);
    }
  }

  lemma AtLeastFour(d: nat, p: nat)
    requires p >= 1 && d / (2 * p) >= 2
    ensures d >= 4
  {
    var q := d / (2 * p);
    assert d == q * (2 * p) + d % (2 * p);
    MulLe(2, q, 2 * p);
  }

  lemma Powers2()
    ensures Pow2(6) == 0x40 && Pow2(18) == 0x4_0000
  {
    assert Pow2(6) == 64;
    Pow2Add(6, 6);
    Pow2Add(12, 6);
  }

  /** Small distances are looked up as they are, others without their low 6 or 18 bits. */
  method GetPosSlot(g: array<nat>, pos: nat) returns (res: nat)
    requires g.Length == 0x2000 && Filled(g[..], 0x2000) && pos < 0x8000_0000
    ensures res == SlotOf(pos)
  {
    hide SlotOf, Pow2;
    if pos < 0x80 {
      assert g[..][pos] == SlotOf(pos);
      return g[pos];
    }
    Powers2();
    if pos < 0x8_0000 {
      SlotShift(pos, 6);
      assert g[..][pos / 0x40] == SlotOf(pos / 0x40);
      return g[pos / 0x40] + 12;
    } else {
      SlotShift(pos, 18);
      assert g[..][pos / 0x4_0000] == SlotOf(pos / 0x4_0000);
      return g[pos / 0x4_0000] + 36;
    }
  }
}
