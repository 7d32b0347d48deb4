/**
 * LZMA's encoder, bit by bit: for each packet, the bits it is coded as and the probability each is coded under, told
 * from the encoder's tables; and that the decoder's walk asks for just these.
 */
module LzmaStrokes {
  import opened Bytes
  import opened Bits
  import opened Residues
  import opened RangeCoder
  import opened LzmaSymbol
  import opened LzmaCore

  /** A bit and what it is coded under. */
  datatype Stroke = Stroke(q: Request, bit: bool)

  function Under(slot: nat, bit: bool): Stroke { Stroke(Adaptive(slot), bit) }

  // ---------------------------------------------------------------- trees and literals

  /** Bits down a tree whose nodes are numbered from m. */
  function Tree(at: int, m: nat, bits: seq<bool>): (s: seq<Stroke>)
    requires at + m >= 0
    ensures |s| == |bits|
    decreases |bits|
  {
    if bits == [] then [] else [Under(at + m, bits[0])] + Tree(at, 2 * m + Bit(bits[0]), bits[1..])
  }

  /** Bits that have no probability. */
  function Plain(bits: seq<bool>): (s: seq<Stroke>)
    ensures |s| == |bits|
  {
    if bits == [] then [] else [Stroke(Direct, bits[0])] + Plain(bits[1..])
  }

  /** The n low bits of v, the lowest first. */
  function LowFirst(v: nat, n: nat): (s: seq<bool>)
    ensures |s| == n
  {
    if n == 0 then [] else [v % 2 == 1] + LowFirst(v / 2, n - 1)
  }

  /**
   * The bits of a literal after a match, beside those of the byte that the last distance promised: as long as they are
   * the same, the promised next bit chooses the table; from the first difference on the plain table is used.
   */
  function Matched(at: nat, m: nat, bits: seq<bool>, promised: seq<bool>, same: bool): (s: seq<Stroke>)
    requires |bits| == |promised|
    ensures |s| == |bits|
    decreases |bits|
  {
    if bits == [] then [] else
    [Under(at + m + (if !same then 0 else if promised[0] then 0x200 else 0x100), bits[0])]
      + Matched(at, 2 * m + Bit(bits[0]), bits[1..], promised[1..], same && bits[0] == promised[0])
  }

  /** A length, less 2. */
  function Length(at: nat, len: nat, posState: nat): seq<Stroke> {
    if len < 8 then [Under(at, false)] + Tree(at + 2 + 8 * posState, 1, BitsOf(len, 3))
    else if len < 16 then [Under(at, true), Under(at + 1, false)] + Tree(at + 130 + 8 * posState, 1, BitsOf(len - 8, 3))
    else [Under(at, true), Under(at + 1, true)] + Tree(at + 258, 1, BitsOf(len - 16, 8))
  }

  // ---------------------------------------------------------------- distances

  /** The slot of a distance: its highest bit and the one after it. */
  function SlotOf(d: nat): (s: nat) {
    if d < 4 then d else SlotOf(d / 2) + 2
  }

  /** The bits that the slot leaves open, and the least distance of the slot. */
  function OpenBits(slot: nat): nat { if slot < 4 then 0 else slot / 2 - 1 }
  function Least(slot: nat): nat { if slot < 4 then slot else (2 + slot % 2) * Pow2(slot / 2 - 1) }

  lemma {:induction false} SlotHolds(d: nat)
    ensures Least(SlotOf(d)) <= d < Least(SlotOf(d)) + Pow2(OpenBits(SlotOf(d)))
  {
    if d >= 4 {
      SlotHolds(d / 2);
      var s := SlotOf(d / 2);
      assert SlotOf(d) == s + 2 && s >= 2;
      if s < 4 {
        assert d / 2 == s && Pow2(1) == 2;
      } else {
        assert Pow2(s / 2) == 2 * Pow2(s / 2 - 1);
        Doubled(2 + s % 2, Pow2(s / 2 - 1));
      }
    }
  }

  lemma Doubled(a: nat, p: nat)
    ensures a * (2 * p) == 2 * (a * p)
  {
  }

  lemma {:induction false} SlotBelow(d: nat, k: nat)
    requires d < Pow2(k) && k >= 2
    ensures SlotOf(d) < 2 * k
  {
    assert Pow2(2) == 4 && Pow2(k) == 2 * Pow2(k - 1);
    if d >= 4 { SlotBelow(d / 2, k - 1); }
  }

  /** The open bits of a distance: in a reverse tree of its own, or plain but for the last four, which share one. */
  function Footer(d: nat): seq<Stroke> {
    SlotHolds(d);
    var slot := SlotOf(d);
    var open, rest := OpenBits(slot), d - Least(slot);
    if slot < 4 then []
    else if slot < 14 then
      FooterAt(slot);
      Tree(SPEC_POS + Least(slot) - slot - 1, 1, LowFirst(rest, open))
    else Plain(BitsOf(rest / 16, open - 4)) + Tree(ALIGN, 1, LowFirst(rest % 16, 4))
  }

  lemma FooterAt(slot: nat)
    requires 4 <= slot < 14
    ensures Least(slot) - slot - 1 == SpecBase(slot) >= -1
  {
    SpecBaseRange(slot);
    assert Pow2(1) == 2 && Pow2(2) == 4 && Pow2(3) == 8 && Pow2(4) == 16 && Pow2(5) == 32;
  }

  function Distance(d: nat, len: nat): seq<Stroke> {
    Tree(POS_SLOT + 64 * (if len < 4 then len else 3), 1, BitsOf(SlotOf(d), 6)) + Footer(d)
  }

  // ---------------------------------------------------------------- packets

  /**
   * What the encoder chooses to say: a literal; the byte at the last distance; a match at one of the last four
   * distances; a match at a new one.  Lengths are less 2, distances less 1.
   */
  datatype Packet = ALiteral(value: Byte) | AShortRep | ARep(which: nat, len: nat) | AMatch(distance: nat, len: nat)

  predicate PacketOk(k: Packet) {
    match k
    case ARep(which, len) => which < 4 && len < 272
    case AMatch(distance, len) => distance < WORD && len < 272
    case _ => true
  }

  function LiteralStrokes(c: Context, v: Byte): seq<Stroke> {
    if c.state < 7 then Tree(c.literal, 1, BitsOf(v, 8))
    else Matched(c.literal, 1, BitsOf(v, 8), BitsOf(c.matchByte, 8), true)
  }

  function RepStrokes(c: Context, which: nat): seq<Stroke> {
    if which == 0 then [Under(IS_REP_G0 + c.state, false), Under(IS_REP0_LONG + 16 * c.state + c.posState, true)]
    else if which == 1 then [Under(IS_REP_G0 + c.state, true), Under(IS_REP_G1 + c.state, false)]
    else [Under(IS_REP_G0 + c.state, true), Under(IS_REP_G1 + c.state, true), Under(IS_REP_G2 + c.state, which == 3)]
  }

  function Strokes(c: Context, k: Packet): seq<Stroke> {
    var first := Under(IS_MATCH + 16 * c.state + c.posState, !k.ALiteral?);
    match k
    case ALiteral(v) => [first] + LiteralStrokes(c, v)
    case AShortRep =>
      [first, Under(IS_REP + c.state, true), Under(IS_REP_G0 + c.state, false),
       Under(IS_REP0_LONG + 16 * c.state + c.posState, false)]
    case ARep(which, len) =>
      [first, Under(IS_REP + c.state, true)] + RepStrokes(c, which) + Length(REP_LEN_CODER, len, c.posState)
    case AMatch(distance, len) =>
      [first, Under(IS_REP + c.state, false)] + Length(LEN_CODER, len, c.posState) + Distance(distance, len)
  }

  /** The encoder's tables, of 12 states, 16 positions, 4 lengths and so on, do not share a probability. */
  lemma TablesApart(slot: nat, slot2: nat)
    ensures 0 <= IS_MATCH && IS_MATCH + 12 * 16 <= IS_REP && IS_REP + 12 <= IS_REP_G0 && IS_REP_G0 + 12 <= IS_REP_G1
    ensures IS_REP_G1 + 12 <= IS_REP_G2 && IS_REP_G2 + 12 <= IS_REP0_LONG && IS_REP0_LONG + 12 * 16 <= POS_SLOT
    ensures POS_SLOT + 4 * 64 <= SPEC_POS && SPEC_POS + 114 <= ALIGN && ALIGN + 16 <= LEN_CODER
    ensures LEN_CODER + 514 <= REP_LEN_CODER && REP_LEN_CODER + 514 <= LITERAL
    ensures 4 <= slot < slot2 < 14 ==> 0 <= Least(slot) - slot && Least(slot) - slot - 1 + Pow2(OpenBits(slot)) <= Least(slot2) - slot2
    ensures 4 <= slot2 < 14 ==> Least(slot2) - slot2 - 1 + Pow2(OpenBits(slot2)) <= 114
  {
    assert Pow2(1) == 2 && Pow2(2) == 4 && Pow2(3) == 8 && Pow2(4) == 16 && Pow2(5) == 32;
  }

  // ---------------------------------------------------------------- the walk along strokes

  /** Where the decoder's walk is after these strokes, and what it has put together; none if it asks for others. */
  function After(c: Context, p: Phase, a: Acc, s: seq<Stroke>): Option<(Phase, Acc)>
    decreases |s|
  {
    if s == [] then Some((p, a))
    else if p.End? || Wanted(c, p) != s[0].q then None
    else After(c, Following(c, p, s[0].bit), NextAcc(p, a, s[0].bit), s[1..])
  }

  lemma {:induction false} AfterBoth(c: Context, p: Phase, a: Acc, s: seq<Stroke>, t: seq<Stroke>)
    ensures After(c, p, a, s).Some? ==> After(c, p, a, s + t) == After(c, After(c, p, a, s).value.0, After(c, p, a, s).value.1, t)
    decreases |s|
  {
    hide Wanted, Following, NextAcc;
    if s == [] {
      assert s + t == t;
    } else if After(c, p, a, s).Some? {
      assert (s + t)[1..] == s[1..] + t;
      AfterBoth(c, Following(c, p, s[0].bit), NextAcc(p, a, s[0].bit), s[1..], t);
    }
  }

  lemma AfterOne(c: Context, p: Phase, a: Acc, x: Stroke)
    requires !p.End? && Wanted(c, p) == x.q
    ensures After(c, p, a, [x]) == Some((Following(c, p, x.bit), NextAcc(p, a, x.bit)))
  {
    hide Wanted, Following, NextAcc;
    assert [x][1..] == [];
  }

  /** The first of some strokes. */
  lemma AfterFirst(c: Context, p: Phase, a: Acc, x: Stroke, t: seq<Stroke>)
    requires !p.End? && Wanted(c, p) == x.q
    ensures After(c, p, a, [x] + t) == After(c, Following(c, p, x.bit), NextAcc(p, a, x.bit), t)
  {
    hide Wanted, Following, NextAcc;
    assert ([x] + t)[1..] == t;
  }

  /** The number of the node that bits lead to. */
  function Grown(m: nat, bits: seq<bool>): nat
    decreases |bits|
  {
    if bits == [] then m else Grown(2 * m + Bit(bits[0]), bits[1..])
  }

  lemma {:induction false} GrownSnoc(m: nat, bits: seq<bool>, b: bool)
    ensures Grown(m, bits + [b]) == 2 * Grown(m, bits) + Bit(b)
    decreases |bits|
  {
    if bits == [] {
      assert [] + [b] == [b] && [b][1..] == [];
    } else {
      assert (bits + [b])[1..] == bits[1..] + [b];
      GrownSnoc(2 * m + Bit(bits[0]), bits[1..], b);
    }
  }

  /** After n bits of v the node is m 2^n + v. */
  lemma {:induction false} GrownIs(m: nat, v: nat, n: nat)
    requires v < Pow2(n)
    ensures Grown(m, BitsOf(v, n)) == m * Pow2(n) + v
  {
    if n == 0 {
      assert BitsOf(v, 0) == [];
    } else {
      GrownIs(m, v / 2, n - 1);
      GrownSnoc(m, BitsOf(v / 2, n - 1), v % 2 == 1);
      Doubled(m, Pow2(n - 1));
    }
  }

  // ---------------------------------------------------------------- lengths

  /** The nodes i that n more bits lead from into the limit's own row. */
  ghost predicate Row(i: nat, n: nat, limit: nat) {
    i >= 1 && limit <= i * Pow2(n) && (i + 1) * Pow2(n) <= 2 * limit
  }

  lemma RowDown(i: nat, n: nat, limit: nat, b: bool)
    requires Row(i, n, limit) && n >= 1
    ensures Row(2 * i + Bit(b), n - 1, limit)
    ensures i < limit && (n >= 2 <==> 2 * i + Bit(b) < limit)
  {
    var p := Pow2(n - 1);
    assert Pow2(n) == 2 * p;
    RowParts(i, p, Bit(b), limit);
    if n >= 2 { RowParts(2 * i + Bit(b), Pow2(n - 2), 0, limit); }
  }

  lemma RowParts(i: nat, p: nat, b: nat, limit: nat)
    requires i >= 1 && p >= 1 && b <= 1 && limit <= i * (2 * p) && (i + 1) * (2 * p) <= 2 * limit
    ensures limit <= (2 * i + b) * p && (2 * i + b + 1) * p <= 2 * limit && i < limit
  {
    var t := i * p;
    assert i * (2 * p) == 2 * t && (i + 1) * (2 * p) == 2 * t + 2 * p;
    assert (2 * i + b) * p == 2 * t + b * p && (2 * i + b + 1) * p == 2 * t + b * p + p;
    assert b * p == 0 || b * p == p;
    assert t >= i;
  }

  lemma LenTreeStep(c: Context, a: Acc, rep: bool, base: nat, limit: nat, offset: nat, i: nat, b: bool)
    requires i < limit
    ensures var p, i2 := LenTree(rep, base, limit, offset, i), 2 * i + Bit(b);
      && Wanted(c, p) == Adaptive(LenCoderAt(rep) + base + i)
      && (i2 < limit ==> Following(c, p, b) == LenTree(rep, base, limit, offset, i2) && NextAcc(p, a, b) == a)
      && (i2 >= limit ==> Following(c, p, b) == AfterLen(rep, i2 - limit + offset) && NextAcc(p, a, b) == a.(len := i2 - limit + offset))
  {
    hide AfterLen;
  }

  lemma {:induction false} LenTreeWalk(c: Context, a: Acc, rep: bool, base: nat, limit: nat, offset: nat, i: nat, bits: seq<bool>)
    requires Row(i, |bits|, limit) && |bits| >= 1
    ensures limit <= Grown(i, bits)
    ensures After(c, LenTree(rep, base, limit, offset, i), a, Tree(LenCoderAt(rep) + base, i, bits)) ==
            Some((AfterLen(rep, Grown(i, bits) - limit + offset), a.(len := Grown(i, bits) - limit + offset)))
    decreases |bits|
  {
    hide Row, AfterLen, Wanted, Following, NextAcc, LenCoderAt, Bit;
    var p := LenTree(rep, base, limit, offset, i);
    RowDown(i, |bits|, limit, bits[0]);
    LenTreeStep(c, a, rep, base, limit, offset, i, bits[0]);
    AfterFirst(c, p, a, Under(LenCoderAt(rep) + base + i, bits[0]), Tree(LenCoderAt(rep) + base, 2 * i + Bit(bits[0]), bits[1..]));
    if |bits| == 1 {
      RowEnd(2 * i + Bit(bits[0]), limit);
    } else {
      LenTreeWalk(c, a, rep, base, limit, offset, 2 * i + Bit(bits[0]), bits[1..]);
    }
  }

  lemma RowEnd(i: nat, limit: nat)
    requires Row(i, 0, limit)
    ensures limit <= i
  {
  }

  lemma Rows()
    ensures Row(1, 3, 8) && Row(1, 8, 256) && Pow2(3) == 8 && Pow2(8) == 256 && Row(1, 6, 64) && Pow2(6) == 64
  {
    assert Pow2(3) == 8 && Pow2(6) == 64 && Pow2(8) == 256;
  }

  lemma LengthWalk(c: Context, a: Acc, rep: bool, len: nat)
    requires len < 272
    ensures After(c, LenChoice(rep), a, Length(LenCoderAt(rep), len, c.posState)) == Some((AfterLen(rep, len), a.(len := len)))
  {
    hide AfterLen, Row, Pow2, Tree, BitsOf, LenCoderAt, After, Following, NextAcc, Wanted, Grown;
    var at := LenCoderAt(rep);
    if len < 8 {
      var t := Tree(at + 2 + 8 * c.posState, 1, BitsOf(len, 3));
      Choice1(c, a, rep, t);
      LengthTree(c, a, rep, LEN_LOW + 8 * c.posState, 3, 8, 0, len);
    } else if len < 16 {
      var t := Tree(at + 130 + 8 * c.posState, 1, BitsOf(len - 8, 3));
      Choice2(c, a, rep, false, t);
      LengthTree(c, a, rep, LEN_MID + 8 * c.posState, 3, 8, 8, len - 8);
    } else {
      var t := Tree(at + 258, 1, BitsOf(len - 16, 8));
      Choice2(c, a, rep, true, t);
      LengthTree(c, a, rep, LEN_HIGH, 8, 256, 16, len - 16);
    }
  }

  lemma LengthTree(c: Context, a: Acc, rep: bool, base: nat, n: nat, limit: nat, offset: nat, v: nat)
    requires ((n == 3 && limit == 8) || (n == 8 && limit == 256)) && v < limit
    ensures After(c, LenTree(rep, base, limit, offset, 1), a, Tree(LenCoderAt(rep) + base, 1, BitsOf(v, n))) ==
            Some((AfterLen(rep, v + offset), a.(len := v + offset)))
  {
    hide AfterLen, Row, Pow2, Tree, BitsOf, LenCoderAt, After, Grown;
    Rows();
    GrownIs(1, v, n);
    LenTreeWalk(c, a, rep, base, limit, offset, 1, BitsOf(v, n));
  }

  lemma Choice1(c: Context, a: Acc, rep: bool, t: seq<Stroke>)
    ensures After(c, LenChoice(rep), a, [Under(LenCoderAt(rep), false)] + t)
         == After(c, LenTree(rep, LEN_LOW + 8 * c.posState, 8, 0, 1), a, t)
  {
    AfterFirst(c, LenChoice(rep), a, Under(LenCoderAt(rep), false), t);
  }

  lemma Choice2(c: Context, a: Acc, rep: bool, bit: bool, t: seq<Stroke>)
    ensures After(c, LenChoice(rep), a, [Under(LenCoderAt(rep), true), Under(LenCoderAt(rep) + 1, bit)] + t)
         == After(c, if bit then LenTree(rep, LEN_HIGH, 256, 16, 1) else LenTree(rep, LEN_MID + 8 * c.posState, 8, 8, 1), a, t)
  {
    var x, y := Under(LenCoderAt(rep), true), Under(LenCoderAt(rep) + 1, bit);
    assert [x, y] + t == [x] + ([y] + t);
    AfterFirst(c, LenChoice(rep), a, x, [y] + t);
    AfterFirst(c, LenChoice2(rep), a, y, t);
  }

  // ---------------------------------------------------------------- literals

  lemma LiteralStep(c: Context, a: Acc, m: nat, mb: nat, same: bool, b: bool, promised: bool)
    requires a.symbol == m && (promised <==> (mb / 128) % 2 == 1)
    ensures var p, m2 := Literal(m, if same then 256 else 0, mb), 2 * m + Bit(b);
      && Wanted(c, p) == Adaptive(c.literal + m + (if !same then 0 else if promised then 0x200 else 0x100))
      && Following(c, p, b) ==
           (if m2 >= 256 then End(Lit) else Literal(m2, if same && b == promised then 256 else 0, (2 * mb) % 0x10000))
      && NextAcc(p, a, b) == a.(symbol := m2)
  {
  }

  lemma {:induction false} PlainWalk(c: Context, a: Acc, mb: nat, m: nat, bits: seq<bool>)
    requires Row(m, |bits|, 256) && |bits| >= 1 && a.symbol == m
    ensures After(c, Literal(m, 0, mb), a, Tree(c.literal, m, bits)) == Some((End(Lit), a.(symbol := Grown(m, bits))))
    decreases |bits|
  {
    hide Row, Wanted, Following, NextAcc, Bit;
    var m2 := 2 * m + Bit(bits[0]);
    RowDown(m, |bits|, 256, bits[0]);
    LiteralStep(c, a, m, mb, false, bits[0], (mb / 128) % 2 == 1);
    AfterFirst(c, Literal(m, 0, mb), a, Under(c.literal + m, bits[0]), Tree(c.literal, m2, bits[1..]));
    if |bits| > 1 {
      PlainWalk(c, a.(symbol := m2), (2 * mb) % 0x10000, m2, bits[1..]);
    }
  }

  /** The bits that the decoder tests, doubling mb each time, are those promised. */
  ghost predicate Shows(mb: nat, promised: seq<bool>)
    decreases |promised|
  {
    promised == [] || (((mb / 128) % 2 == 1 <==> promised[0]) && Shows((2 * mb) % 0x10000, promised[1..]))
  }

  lemma EightAre(v: nat)
    requires v < 256
    ensures BitsOf(v, 8) == [v / 128 == 1, v / 64 % 2 == 1, v / 32 % 2 == 1, v / 16 % 2 == 1,
                             v / 8 % 2 == 1, v / 4 % 2 == 1, v / 2 % 2 == 1, v % 2 == 1]
  {
    Halves(v);
    assert BitsOf(v / 128, 1) == [v / 128 == 1] by { assert BitsOf(v / 128 / 2, 0) == []; }
    assert BitsOf(v / 64, 2) == [v / 128 == 1, v / 64 % 2 == 1];
    assert BitsOf(v / 32, 3) == [v / 128 == 1, v / 64 % 2 == 1, v / 32 % 2 == 1];
    assert BitsOf(v / 16, 4) == [v / 128 == 1, v / 64 % 2 == 1, v / 32 % 2 == 1, v / 16 % 2 == 1];
    assert BitsOf(v / 8, 5) == [v / 128 == 1, v / 64 % 2 == 1, v / 32 % 2 == 1, v / 16 % 2 == 1, v / 8 % 2 == 1];
    assert BitsOf(v / 4, 6) == [v / 128 == 1, v / 64 % 2 == 1, v / 32 % 2 == 1, v / 16 % 2 == 1, v / 8 % 2 == 1, v / 4 % 2 == 1];
    assert BitsOf(v / 2, 7) ==
      [v / 128 == 1, v / 64 % 2 == 1, v / 32 % 2 == 1, v / 16 % 2 == 1, v / 8 % 2 == 1, v / 4 % 2 == 1, v / 2 % 2 == 1];
  }

  lemma Halves(v: nat)
    ensures v / 2 / 2 == v / 4 && v / 4 / 2 == v / 8 && v / 8 / 2 == v / 16 && v / 16 / 2 == v / 32
    ensures v / 32 / 2 == v / 64 && v / 64 / 2 == v / 128
  {
  }

  lemma {:induction false} MatchedWalk(c: Context, a: Acc, mb: nat, m: nat, bits: seq<bool>, promised: seq<bool>, same: bool)
    requires Row(m, |bits|, 256) && |bits| >= 1 && a.symbol == m && |promised| == |bits| && Shows(mb, promised)
    ensures After(c, Literal(m, if same then 256 else 0, mb), a, Matched(c.literal, m, bits, promised, same)) ==
            Some((End(Lit), a.(symbol := Grown(m, bits))))
    decreases |bits|
  {
    hide Row, Wanted, Following, NextAcc, Bit;
    var m2, p := 2 * m + Bit(bits[0]), Literal(m, if same then 256 else 0, mb);
    RowDown(m, |bits|, 256, bits[0]);
    LiteralStep(c, a, m, mb, same, bits[0], promised[0]);
    AfterFirst(c, p, a, Under(c.literal + m + (if !same then 0 else if promised[0] then 0x200 else 0x100), bits[0]),
               Matched(c.literal, m2, bits[1..], promised[1..], same && bits[0] == promised[0]));
    if |bits| > 1 {
      MatchedWalk(c, a.(symbol := m2), (2 * mb) % 0x10000, m2, bits[1..], promised[1..], same && bits[0] == promised[0]);
    }
  }

  lemma LiteralWalk(c: Context, v: Byte)
    requires c.matchByte < 256
    ensures After(c, Following(c, IsMatch, false), NOTHING, LiteralStrokes(c, v)) == Some((End(Lit), NOTHING.(symbol := 256 + v)))
  {
    hide Row, Shows, Pow2, Tree, Matched;
    Rows();
    GrownIs(1, v, 8);
    if c.state < 7 {
      PlainWalk(c, NOTHING, c.matchByte, 1, BitsOf(v, 8));
    } else {
      ShowsAll(c.matchByte);
      MatchedWalk(c, NOTHING, c.matchByte, 1, BitsOf(v, 8), BitsOf(c.matchByte, 8), true);
    }
  }

  lemma ShowsAll(m: nat)
    requires m < 256
    ensures Shows(m, BitsOf(m, 8))
  {
    hide BitsOf, Shows, Top;
    TopBits(m);
    var bits := BitsOf(m, 8);
    ShowsNone(256 * m, bits);
    ShowsOne(128 * m, bits, 7);
    ShowsOne(64 * m, bits, 6);
    ShowsOne(32 * m, bits, 5);
    ShowsOne(16 * m, bits, 4);
    ShowsOne(8 * m, bits, 3);
    ShowsOne(4 * m, bits, 2);
    ShowsOne(2 * m, bits, 1);
    ShowsOne(m, bits, 0);
    assert bits[0..] == bits;
  }

  /** Bit 7. */
  ghost predicate Top(mb: nat) { mb / 128 % 2 == 1 }

  lemma TopBits(m: nat)
    requires m < 256
    ensures var b := BitsOf(m, 8);
      && b[0] == Top(m) && b[1] == Top(2 * m) && b[2] == Top(4 * m) && b[3] == Top(8 * m)
      && b[4] == Top(16 * m) && b[5] == Top(32 * m) && b[6] == Top(64 * m) && b[7] == Top(128 * m)
  {
    hide BitsOf;
    EightAre(m);
    Tests(m);
  }

  lemma Tests(m: nat)
    ensures 128 * m / 128 == m && 64 * m / 128 == m / 2 && 32 * m / 128 == m / 4 && 16 * m / 128 == m / 8
    ensures 8 * m / 128 == m / 16 && 4 * m / 128 == m / 32 && 2 * m / 128 == m / 64
    ensures m < 256 ==> m / 128 < 2
  {
  }

  lemma ShowsNone(mb: nat, bits: seq<bool>)
    requires |bits| == 8
    ensures Shows(mb, bits[8..])
  {
    assert bits[8..] == [];
  }

  lemma ShowsOne(mb: nat, bits: seq<bool>, k: nat)
    requires mb < 0x8000 && k < |bits| && bits[k] == Top(mb) && Shows(2 * mb, bits[k + 1..])
    ensures Shows(mb, bits[k..])
  {
    assert bits[k..][0] == bits[k] && bits[k..][1..] == bits[k + 1..];
    assert (2 * mb) % 0x10000 == 2 * mb;
  }

  // ---------------------------------------------------------------- distances

  lemma SlotStep(c: Context, a: Acc, lenState: nat, i: nat, b: bool)
    ensures var p, i2 := PosSlot(lenState, i), 2 * i + Bit(b);
      && Wanted(c, p) == Adaptive(POS_SLOT + 64 * lenState + i)
      && (i2 < 64 ==> Following(c, p, b) == PosSlot(lenState, i2) && NextAcc(p, a, b) == a)
      && (i2 >= 64 ==> Following(c, p, b) == AfterSlot(i2 - 64) && NextAcc(p, a, b) == a.(slot := i2 - 64, distance := SlotStart(i2 - 64)))
  {
    hide AfterSlot, SlotStart;
  }

  lemma {:induction false} SlotWalk(c: Context, a: Acc, lenState: nat, i: nat, bits: seq<bool>)
    requires Row(i, |bits|, 64) && |bits| >= 1
    ensures 64 <= Grown(i, bits)
    ensures After(c, PosSlot(lenState, i), a, Tree(POS_SLOT + 64 * lenState, i, bits)) ==
            Some((AfterSlot(Grown(i, bits) - 64), a.(slot := Grown(i, bits) - 64, distance := SlotStart(Grown(i, bits) - 64))))
    decreases |bits|
  {
    hide Row, AfterSlot, SlotStart, Wanted, Following, NextAcc, Bit;
    SlotStep(c, a, lenState, i, bits[0]);
    var i2 := 2 * i + Bit(bits[0]);
    RowDown(i, |bits|, 64, bits[0]);
    AfterFirst(c, PosSlot(lenState, i), a, Under(POS_SLOT + 64 * lenState + i, bits[0]), Tree(POS_SLOT + 64 * lenState, i2, bits[1..]));
    if |bits| == 1 {
      RowEnd(i2, 64);
    } else {
      SlotWalk(c, a, lenState, i2, bits[1..]);
    }
  }

  /** What reverse bits add, the k-th being worth 2^k. */
  lemma LowFirstStep(v: nat, n: nat, k: nat)
    requires n >= 1 && v < Pow2(n)
    ensures v / 2 < Pow2(n - 1)
    ensures Bit(v % 2 == 1) * Pow2(k) + v / 2 * Pow2(k + 1) == v * Pow2(k)
  {
    var h, b, p := v / 2, v % 2, Pow2(k);
    assert v == 2 * h + b && Pow2(k + 1) == 2 * p;
    assert h * (2 * p) == 2 * (h * p);
    assert (2 * h + b) * p == 2 * (h * p) + b * p;
  }

  lemma SpecLowIs(k: nat)
    requires k <= 4
    ensures SpecLow(k) == Pow2(k)
  {
    assert Pow2(1) == 2 && Pow2(2) == 4 && Pow2(3) == 8 && Pow2(4) == 16;
  }

  lemma SpecStep(c: Context, a: Acc, slot: nat, i: nat, left: nat, b: bool)
    requires SPEC_POS + SpecBase(slot) + i >= 0
    ensures var p := Spec(slot, i, left);
      && Wanted(c, p) == Adaptive(SPEC_POS + SpecBase(slot) + i)
      && Following(c, p, b) == (if left > 1 then Spec(slot, 2 * i + Bit(b), left - 1) else End(Match))
      && NextAcc(p, a, b) == a.(distance := a.distance + Bit(b) * SpecLow(slot / 2 - 1 - left))
  {
    hide SpecBase, SpecLow;
  }

  lemma {:induction false} SpecWalk(c: Context, a: Acc, slot: nat, i: nat, left: nat, v: nat)
    requires 4 <= slot < 14 && 1 <= left <= slot / 2 - 1 && v < Pow2(left) && SPEC_POS + SpecBase(slot) + i >= 0
    ensures After(c, Spec(slot, i, left), a, Tree(SPEC_POS + SpecBase(slot), i, LowFirst(v, left))) ==
            Some((End(Match), a.(distance := a.distance + v * Pow2(slot / 2 - 1 - left))))
    decreases left
  {
    hide SpecBase, SpecLow, Pow2, Wanted, Following, NextAcc;
    var k, b := slot / 2 - 1 - left, v % 2 == 1;
    var p, i2 := Spec(slot, i, left), 2 * i + Bit(b);
    SpecStep(c, a, slot, i, left, b);
    assert LowFirst(v, left)[1..] == LowFirst(v / 2, left - 1);
    assert SPEC_POS + SpecBase(slot) + i2 >= 0;
    AfterFirst(c, p, a, Under(SPEC_POS + SpecBase(slot) + i, b), Tree(SPEC_POS + SpecBase(slot), i2, LowFirst(v / 2, left - 1)));
    SpecLowIs(k);
    LowFirstStep(v, left, k);
    if left > 1 {
      SpecWalk(c, a.(distance := a.distance + Bit(b) * SpecLow(k)), slot, i2, left - 1, v / 2);
    } else {
      NoBits(v, k);
    }
  }

  lemma NoBits(v: nat, k: nat)
    requires v / 2 < Pow2(0)
    ensures v / 2 == 0 && v / 2 * Pow2(k + 1) == 0
  {
  }

  lemma AlignStep(c: Context, a: Acc, i: nat, left: nat, b: bool)
    ensures var p := Align(i, left);
      && Wanted(c, p) == Adaptive(ALIGN + i)
      && Following(c, p, b) == (if left > 1 then Align(2 * i + Bit(b), left - 1) else End(Match))
      && NextAcc(p, a, b) == a.(distance := a.distance + Bit(b) * SpecLow(4 - left))
  {
  }

  lemma {:induction false} AlignWalk(c: Context, a: Acc, i: nat, left: nat, v: nat)
    requires 1 <= left <= 4 && v < Pow2(left)
    ensures After(c, Align(i, left), a, Tree(ALIGN, i, LowFirst(v, left))) ==
            Some((End(Match), a.(distance := a.distance + v * Pow2(4 - left))))
    decreases left
  {
    hide SpecLow, Pow2, Wanted, Following, NextAcc;
    var k, b := 4 - left, v % 2 == 1;
    var p, i2 := Align(i, left), 2 * i + Bit(b);
    AlignStep(c, a, i, left, b);
    assert LowFirst(v, left)[1..] == LowFirst(v / 2, left - 1);
    AfterFirst(c, p, a, Under(ALIGN + i, b), Tree(ALIGN, i2, LowFirst(v / 2, left - 1)));
    SpecLowIs(k);
    LowFirstStep(v, left, k);
    if left > 1 {
      AlignWalk(c, a.(distance := a.distance + Bit(b) * SpecLow(k)), i2, left - 1, v / 2);
    } else {
      NoBits(v, k);
    }
  }

  /** Plain bits double the distance each; after the last, four bits more are made room for. */
  lemma {:induction false} StraightWalk(c: Context, a: Acc, bits: seq<bool>)
    requires |bits| >= 1 && 16 * Grown(a.distance, bits) < WORD
    ensures After(c, Straight(|bits|), a, Plain(bits)) == Some((Align(1, 4), a.(distance := 16 * Grown(a.distance, bits))))
    decreases |bits|
  {
    hide Wanted, Following, NextAcc;
    var d2 := 2 * a.distance + Bit(bits[0]);
    GrownMore(d2, bits[1..]);
    StraightStep(c, a, |bits|, bits[0]);
    AfterFirst(c, Straight(|bits|), a, Stroke(Direct, bits[0]), Plain(bits[1..]));
    if |bits| > 1 {
      StraightWalk(c, a.(distance := d2), bits[1..]);
    }
  }

  lemma StraightStep(c: Context, a: Acc, left: nat, b: bool)
    requires left >= 1 && 16 * (2 * a.distance + Bit(b)) < WORD
    ensures var p, d2 := Straight(left), 2 * a.distance + Bit(b);
      && Wanted(c, p) == Direct
      && Following(c, p, b) == (if left > 1 then Straight(left - 1) else Align(1, 4))
      && NextAcc(p, a, b) == a.(distance := if left > 1 then d2 else 16 * d2)
  {
    SmallMod(2 * a.distance + Bit(b), WORD);
    SmallMod(16 * (2 * a.distance + Bit(b)), WORD);
  }

  lemma {:induction false} GrownMore(m: nat, bits: seq<bool>)
    ensures Grown(m, bits) >= m
    decreases |bits|
  {
    if bits != [] { GrownMore(2 * m + Bit(bits[0]), bits[1..]); }
  }

  lemma DistanceWalk(c: Context, a: Acc, d: nat, len: nat)
    requires d < WORD
    ensures After(c, AfterLen(false, len), a, Distance(d, len)) == Some((End(Match), a.(slot := SlotOf(d), distance := d)))
  {
    hide Row, Pow2, Tree, SlotOf, Footer, AfterSlot, SlotStart;
    Rows();
    var slot, lenState := SlotOf(d), if len < 4 then len else 3;
    ThirtyTwo();
    SlotBelow(d, 32);
    GrownIs(1, slot, 6);
    SlotWalk(c, a, lenState, 1, BitsOf(slot, 6));
    var a2 := a.(slot := slot, distance := SlotStart(slot));
    AfterBoth(c, AfterLen(false, len), a, Tree(POS_SLOT + 64 * lenState, 1, BitsOf(slot, 6)), Footer(d));
    FooterWalk(c, a2, d);
  }

  lemma ThirtyTwo()
    ensures Pow2(32) == WORD
  {
    assert Pow2(8) == 256;
    Pow2Add(8, 8);
    Pow2Add(16, 16);
  }

  lemma FooterWalk(c: Context, a: Acc, d: nat)
    requires d < WORD && a.distance == SlotStart(SlotOf(d))
    ensures After(c, AfterSlot(SlotOf(d)), a, Footer(d)) == Some((End(Match), a.(distance := d)))
  {
    hide Pow2, SlotOf, Tree, Plain, BitsOf, LowFirst;
    SlotHolds(d);
    ThirtyTwo();
    SlotBelow(d, 32);
    var slot := SlotOf(d);
    var open, rest := OpenBits(slot), d - Least(slot);
    if slot < 4 {
      assert Pow2(0) == 1 by { Rows0(); }
    } else if slot < 14 {
      FooterAt(slot);
      SpecBaseRange(slot);
      SlotStartIs(slot);
      SpecWalk(c, a, slot, 1, open, rest);
      Rows0();
    } else {
      BigFooter(c, a, slot, rest, d);
    }
  }

  lemma Rows0()
    ensures Pow2(0) == 1
  {
  }

  lemma SlotStartIs(slot: nat)
    requires 4 <= slot < 14
    ensures SlotStart(slot) == Least(slot)
  {
    hide SpecLow;
    SpecLowIs(slot / 2 - 2);
    Doubled(2 + slot % 2, Pow2(slot / 2 - 2));
  }

  lemma BigFooter(c: Context, a: Acc, slot: nat, rest: nat, d: nat)
    requires 14 <= slot < 64 && a.distance == 2 + slot % 2 && rest < Pow2(slot / 2 - 1) && d == Least(slot) + rest < WORD
    ensures After(c, Straight(slot / 2 - 5), a, Plain(BitsOf(rest / 16, slot / 2 - 5)) + Tree(ALIGN, 1, LowFirst(rest % 16, 4)))
         == Some((End(Match), a.(distance := d)))
  {
    hide Pow2, Tree, Plain, BitsOf, LowFirst, After, Grown;
    var n := slot / 2 - 5;
    Sixteenths(2 + slot % 2, rest, n);
    GrownIs(2 + slot % 2, rest / 16, n);
    FooterParts(c, a, BitsOf(rest / 16, n), rest % 16);
  }

  lemma FooterParts(c: Context, a: Acc, bits: seq<bool>, low: nat)
    requires |bits| >= 1 && 16 * Grown(a.distance, bits) < WORD && low < 16
    ensures After(c, Straight(|bits|), a, Plain(bits) + Tree(ALIGN, 1, LowFirst(low, 4)))
         == Some((End(Match), a.(distance := 16 * Grown(a.distance, bits) + low)))
  {
    hide Tree, Plain, LowFirst, After, Grown;
    StraightWalk(c, a, bits);
    AfterBoth(c, Straight(|bits|), a, Plain(bits), Tree(ALIGN, 1, LowFirst(low, 4)));
    assert Pow2(4) == 16 && Pow2(0) == 1;
    AlignWalk(c, a.(distance := 16 * Grown(a.distance, bits)), 1, 4, low);
  }

  lemma Sixteenths(h: nat, rest: nat, n: nat)
    requires rest < Pow2(n + 4)
    ensures rest / 16 < Pow2(n) && Pow2(4) == 16
    ensures 16 * (h * Pow2(n) + rest / 16) + rest % 16 == h * Pow2(n + 4) + rest
  {
    assert Pow2(4) == 16;
    Pow2Add(n, 4);
    var p := Pow2(n);
    assert h * (p * 16) == 16 * (h * p);
  }

  // ---------------------------------------------------------------- whole packets

  /** What the walk has put together at the end of a packet. */
  function Means(k: Packet): Acc {
    match k
    case ALiteral(v) => NOTHING.(symbol := 256 + v)
    case AShortRep => NOTHING.(short := true)
    case ARep(which, len) => NOTHING.(rep := which, len := len)
    case AMatch(distance, len) => NOTHING.(len := len, slot := SlotOf(distance), distance := distance)
  }

  function KindOf(k: Packet): Kind {
    match k case ALiteral(_) => Lit case AMatch(_, _) => Match case _ => Rep
  }

  lemma RepWalk(c: Context, which: nat)
    requires which < 4
    ensures After(c, RepG0, NOTHING, RepStrokes(c, which)) == Some((LenChoice(true), NOTHING.(rep := which)))
  {
    var s := RepStrokes(c, which);
    AfterFirst(c, RepG0, NOTHING, s[0], s[1..]);
    assert s == [s[0]] + s[1..];
    if which == 0 {
      AfterOne(c, Rep0Long, NOTHING, s[1]);
      assert s[1..] == [s[1]];
    } else if which == 1 {
      AfterOne(c, RepG1, NOTHING, s[1]);
      assert s[1..] == [s[1]];
    } else {
      AfterFirst(c, RepG1, NOTHING, s[1], [s[2]]);
      AfterOne(c, RepG2, NOTHING.(rep := 2), s[2]);
      assert s[1..] == [s[1]] + [s[2]];
    }
  }

  /** The decoder, given a packet's bits, asks for just the encoder's probabilities and ends with what the packet says. */
  lemma PacketWalk(c: Context, k: Packet)
    requires PacketOk(k) && c.matchByte < 256
    ensures After(c, IsMatch, NOTHING, Strokes(c, k)) == Some((End(KindOf(k)), Means(k)))
  {
    hide LiteralStrokes, RepStrokes, Length, Distance, AfterLen, SlotOf;
    var first := Under(IS_MATCH + 16 * c.state + c.posState, !k.ALiteral?);
    match k {
      case ALiteral(v) =>
        AfterFirst(c, IsMatch, NOTHING, first, LiteralStrokes(c, v));
        LiteralWalk(c, v);
      case AShortRep => ShortWalk(c);
      case ARep(which, len) => RepPacket(c, which, len);
      case AMatch(distance, len) => MatchPacket(c, distance, len);
    }
  }

  lemma RepPacket(c: Context, which: nat, len: nat)
    requires which < 4 && len < 272
    ensures After(c, IsMatch, NOTHING, Strokes(c, ARep(which, len))) == Some((End(Rep), NOTHING.(rep := which, len := len)))
  {
    hide RepStrokes, Length, AfterLen, After, Wanted, Following, NextAcc;
    var rest := RepStrokes(c, which) + Length(REP_LEN_CODER, len, c.posState);
    TwoFirst(c, true, rest);
    assert Strokes(c, ARep(which, len)) ==
      [Under(IS_MATCH + 16 * c.state + c.posState, true), Under(IS_REP + c.state, true)] + rest;
    RepWalk(c, which);
    AfterBoth(c, RepG0, NOTHING, RepStrokes(c, which), Length(REP_LEN_CODER, len, c.posState));
    LengthWalk(c, NOTHING.(rep := which), true, len);
    RepEnds(len);
  }

  lemma MatchPacket(c: Context, distance: nat, len: nat)
    requires distance < WORD && len < 272
    ensures After(c, IsMatch, NOTHING, Strokes(c, AMatch(distance, len))) ==
            Some((End(Match), NOTHING.(len := len, slot := SlotOf(distance), distance := distance)))
  {
    hide Length, Distance, AfterLen, After, Wanted, Following, NextAcc, SlotOf;
    var rest := Length(LEN_CODER, len, c.posState) + Distance(distance, len);
    TwoFirst(c, false, rest);
    assert Strokes(c, AMatch(distance, len)) ==
      [Under(IS_MATCH + 16 * c.state + c.posState, true), Under(IS_REP + c.state, false)] + rest;
    LengthWalk(c, NOTHING, false, len);
    AfterBoth(c, LenChoice(false), NOTHING, Length(LEN_CODER, len, c.posState), Distance(distance, len));
    DistanceWalk(c, NOTHING.(len := len), distance, len);
  }

  lemma RepEnds(len: nat)
    ensures AfterLen(true, len) == End(Rep)
  {
  }

  lemma TwoFirst(c: Context, rep: bool, t: seq<Stroke>)
    ensures After(c, IsMatch, NOTHING, [Under(IS_MATCH + 16 * c.state + c.posState, true), Under(IS_REP + c.state, rep)] + t)
         == After(c, if rep then RepG0 else LenChoice(false), NOTHING, t)
  {
    var x, y := Under(IS_MATCH + 16 * c.state + c.posState, true), Under(IS_REP + c.state, rep);
    assert [x, y] + t == [x] + ([y] + t);
    AfterFirst(c, IsMatch, NOTHING, x, [y] + t);
    AfterFirst(c, IsRep, NOTHING, y, t);
  }

  lemma ShortWalk(c: Context)
    ensures After(c, IsMatch, NOTHING, Strokes(c, AShortRep)) == Some((End(Rep), NOTHING.(short := true)))
  {
    var x, y := Under(IS_REP_G0 + c.state, false), Under(IS_REP0_LONG + 16 * c.state + c.posState, false);
    TwoFirst(c, true, [x, y]);
    assert Strokes(c, AShortRep) == [Under(IS_MATCH + 16 * c.state + c.posState, true), Under(IS_REP + c.state, true)] + [x, y];
    assert [x, y] == [x] + [y];
    AfterFirst(c, RepG0, NOTHING, x, [y]);
    AfterOne(c, Rep0Long, NOTHING, y);
  }
}
