/** The LZMA encoder's coding of chosen packets: its loops over bits, its state, its table of distance slots, the flush. */
module LzmaEncoder {
  import opened Bytes
  import opened Bits
  import opened Residues
  import opened RangeCoder
  import opened LzmaSymbol
  import opened LzmaCore
  import opened LzmaDecoder
  import opened LzmaStrokes
  import opened LzmaRoundTrip
  import opened LzmaSlots

  // ---------------------------------------------------------------- bits of a number

  /** The highest of the n low bits of v. */
  lemma {:induction false} TopOf(v: nat, n: nat)
    requires n >= 1
    ensures BitsOf(v, n) == [v / Pow2(n - 1) % 2 == 1] + BitsOf(v, n - 1)
    decreases n
  {
    if n == 1 {
      assert BitsOf(v / 2, 0) == [] && v / 1 == v;
    } else {
      TopOf(v / 2, n - 1);
      HalveDiv(v, Pow2(n - 2));
      assert [v / Pow2(n - 1) % 2 == 1] + BitsOf(v / 2, n - 2) + [v % 2 == 1]
          == [v / Pow2(n - 1) % 2 == 1] + (BitsOf(v / 2, n - 2) + [v % 2 == 1]);
    }
  }

  lemma TreeTop(at: int, m: nat, v: nat, n: nat)
    requires n >= 1 && at + m >= 0
    ensures var b := v / Pow2(n - 1) % 2 == 1;
            at + (2 * m + Bit(b)) >= 0 && Tree(at, m, BitsOf(v, n)) == [Under(at + m, b)] + Tree(at, 2 * m + Bit(b), BitsOf(v, n - 1))
  {
    hide Pow2;
    TopOf(v, n);
    assert BitsOf(v, n)[1..] == BitsOf(v, n - 1);
  }

  lemma {:induction false} DirectAreBits(v: nat, n: nat)
    ensures DirectBits(v, n) == BitsOf(v, n)
  {
    hide Pow2;
    if n > 0 {
      TopOf(v, n);
      DirectAreBits(v, n - 1);
    }
  }

  lemma {:induction false} DirectCoded(h: seq<bool>, bits: seq<bool>, probs: seq<Prob>, iv: Interval)
    requires Normal(iv.range)
    ensures Within(Plain(bits), |probs|)
    ensures Coded(Plain(bits), probs, iv) == (EncodeBits(DirectOnly, h, bits, [], iv).0, probs)
    decreases |bits|
  {
    if bits != [] {
      DirectCoded(h + [bits[0]], bits[1..], probs, EncodeStep(iv, Direct, probs, bits[0]));
      var s := Plain(bits);
      assert s[1..] == Plain(bits[1..]);
      assert EncodeStep(iv, Direct, probs, bits[0]) == EncodeStep(iv, Direct, [], bits[0]);
    }
  }

  // ---------------------------------------------------------------- strokes on the coder

  /** What is coded when `s` is still to come leads to the goal. */
  ghost predicate Brings(s: seq<Stroke>, probs: seq<Prob>, iv: Interval, goal: (Interval, seq<Prob>)) {
    Normal(iv.range) && Within(s, |probs|) && Coded(s, probs, iv) == goal
  }

  lemma LeadsOne(x: Stroke, t: seq<Stroke>, probs: seq<Prob>, iv: Interval, goal: (Interval, seq<Prob>))
    requires Brings([x] + t, probs, iv, goal)
    ensures x.q.Adaptive? ==> x.q.ctx < |probs|
    ensures Brings(t, UpdateProbs(probs, x.q, x.bit), EncodeStep(iv, x.q, probs, x.bit), goal)
  {
    hide EncodeStep, UpdateProbs;
    var s := [x] + t;
    assert s[0] == x && s[1..] == t;
    forall i | 0 <= i < |t| && t[i].q.Adaptive? ensures t[i].q.ctx < |probs| { assert s[i + 1] == t[i]; }
  }

  lemma LeadsFirst(s: seq<Stroke>, t: seq<Stroke>, probs: seq<Prob>, iv: Interval, goal: (Interval, seq<Prob>))
    requires Brings(s + t, probs, iv, goal)
    ensures Normal(iv.range) && Within(s, |probs|) && Brings(t, Coded(s, probs, iv).1, Coded(s, probs, iv).0, goal)
  {
    hide Coded;
    WithinParts(s, t, |probs|);
    CodedBoth(s, t, probs, iv);
  }

  /** Coding bit by bit: each method does the strokes it stands for. */
  class SymbolCoder {
    const rc: RangeEnc
    const probs: array<Prob>

    constructor (rc: RangeEnc, probs: array<Prob>)
      ensures this.rc == rc && this.probs == probs
    {
      this.rc, this.probs := rc, probs;
    }

    ghost function Now(): (r: (Interval, seq<Prob>))
      requires rc.cacheSize >= 1
      reads this, rc, probs
    {
      (rc.Abs(), probs[..])
    }

    ghost predicate Valid()
      reads this, rc, probs
    {
      rc.Valid()
    }

    /** The goal is what coding the strokes leads to from here. */
    ghost predicate Goes(s: seq<Stroke>, goal: (Interval, seq<Prob>))
      reads this, rc, probs
    {
      Valid() && Brings(s, probs[..], rc.Abs(), goal)
    }

    lemma GoesValid(s: seq<Stroke>, goal: (Interval, seq<Prob>))
      requires Goes(s, goal)
      ensures rc.Valid()
    {
    }

    /** One bit. */
    method Bit1(slot: nat, bit: bool, ghost rest: seq<Stroke>, ghost goal: (Interval, seq<Prob>))
      requires Goes([Under(slot, bit)] + rest, goal)
      modifies rc, probs
      ensures Goes(rest, goal) && rc.Valid()
    {
      hide Coded, EncodeStep, UpdateProbs, RangeEnc.Abs;
      LeadsOne(Under(slot, bit), rest, probs[..], rc.Abs(), goal);
      rc.EncodeBit(probs, slot, bit);
    }

    method LitEncode(at: nat, value: Byte, ghost rest: seq<Stroke>, ghost goal: (Interval, seq<Prob>))
      requires Goes(Tree(at, 1, BitsOf(value, 8)) + rest, goal)
      modifies rc, probs
      ensures Goes(rest, goal) && rc.Valid()
    {
      hide Goes, Tree, Pow2, BitsOf;
      var symbol: nat := 0x100 + value;
      ghost var k := 0;
      LitStart(value);
      while symbol < 0x10000
        invariant k <= 8 && symbol == (0x100 + value as nat) * Pow2(k) && symbol / 0x100 >= 1
        invariant Goes(Tree(at, symbol / 0x100, BitsOf(value, 8)[k..]) + rest, goal)
        decreases 8 - k
      {
        LitBit(at, value, symbol, k, rest);
        Bit1(at + symbol / 0x100, symbol / 0x80 % 2 == 1, Tree(at, 2 * symbol / 0x100, BitsOf(value, 8)[k + 1..]) + rest, goal);
        symbol := 2 * symbol;
        k := k + 1;
      }
      LitEnd(value, symbol, k);
      TreeNone(at, symbol / 0x100, BitsOf(value, 8)[k..], rest);
      GoesValid(rest, goal);
    }

    method LitEncodeMatched(at: nat, value: Byte, match0: Byte, ghost rest: seq<Stroke>, ghost goal: (Interval, seq<Prob>))
      requires Goes(Matched(at, 1, BitsOf(value, 8), BitsOf(match0, 8), true) + rest, goal)
      modifies rc, probs
      ensures Goes(rest, goal) && rc.Valid()
    {
      hide Goes, Matched, Pow2, BitsOf;
      var offs, symbol: nat, matchByte: nat := 0x100, 0x100 + value, match0;
      ghost var k := 0;
      LitStart(value);
      assert BitsOf(match0, 8)[0..] == BitsOf(match0, 8);
      assert matchByte == match0 as nat * Pow2(0) by { LitStart(match0); }
      while symbol < 0x10000
        invariant k <= 8 && symbol == (0x100 + value as nat) * Pow2(k) && matchByte == match0 as nat * Pow2(k)
        invariant symbol / 0x100 >= 1 && (offs == 0 || offs == 0x100)
        invariant Goes(Matched(at, symbol / 0x100, BitsOf(value, 8)[k..], BitsOf(match0, 8)[k..], offs == 0x100) + rest, goal)
        decreases 8 - k
      {
        matchByte := 2 * matchByte;
        var promised := if offs == 0x100 && matchByte / 0x100 % 2 == 1 then 0x100 else 0;
        ghost var same := offs == 0x100 && matchByte / 0x100 % 2 == 2 * symbol / 0x100 % 2;
        MatchedBit(at, value, match0, symbol, matchByte, k, offs == 0x100, rest);
        Bit1(at + offs + promised + symbol / 0x100, symbol / 0x80 % 2 == 1,
             Matched(at, 2 * symbol / 0x100, BitsOf(value, 8)[k + 1..], BitsOf(match0, 8)[k + 1..], same) + rest, goal);
        symbol := 2 * symbol;
        if matchByte / 0x100 % 2 != symbol / 0x100 % 2 { offs := 0; }
        k := k + 1;
      }
      LitEnd(value, symbol, k);
      MatchedNone(at, symbol / 0x100, BitsOf(value, 8)[k..], BitsOf(match0, 8)[k..], offs == 0x100, rest);
      GoesValid(rest, goal);
    }

    method TreeEncode(at: int, numBitLevels: nat, symbol: nat, ghost rest: seq<Stroke>, ghost goal: (Interval, seq<Prob>))
      requires at + 1 >= 0 && Goes(Tree(at, 1, BitsOf(symbol, numBitLevels)) + rest, goal)
      modifies rc, probs
      ensures Goes(rest, goal) && rc.Valid()
    {
      hide Goes, Tree, Pow2, BitsOf;
      var m: nat := 1;
      var i := numBitLevels;
      while i != 0
        invariant at + m >= 0 && m >= 1 && Goes(Tree(at, m, BitsOf(symbol, i)) + rest, goal)
      {
        TreeTop(at, m, symbol, i);
        ghost var more := Tree(at, 2 * m + Bit(symbol / Pow2(i - 1) % 2 == 1), BitsOf(symbol, i - 1));
        assert Tree(at, m, BitsOf(symbol, i)) + rest == [Under(at + m, symbol / Pow2(i - 1) % 2 == 1)] + (more + rest);
        i := i - 1;
        var bit := symbol / Pow2(i) % 2;
        Bit1(at + m, bit == 1, more + rest, goal);
        m := 2 * m + bit;
      }
      NoBitsLeft(symbol);
      TreeNone(at, m, BitsOf(symbol, 0), rest);
      GoesValid(rest, goal);
    }

    method ReverseEncode(at: int, numBitLevels: nat, symbol0: nat, ghost rest: seq<Stroke>, ghost goal: (Interval, seq<Prob>))
      requires at + 1 >= 0 && Goes(Tree(at, 1, LowFirst(symbol0, numBitLevels)) + rest, goal)
      modifies rc, probs
      ensures Goes(rest, goal) && rc.Valid()
    {
      hide Goes, Tree;
      var m: nat, symbol := 1, symbol0;
      for i := 0 to numBitLevels
        invariant at + m >= 0 && m >= 1 && Goes(Tree(at, m, LowFirst(symbol, numBitLevels - i)) + rest, goal)
      {
        ReverseBit(at, m, symbol, numBitLevels - i, rest);
        var bit := symbol % 2;
        Bit1(at + m, bit == 1, Tree(at, 2 * m + bit, LowFirst(symbol / 2, numBitLevels - i - 1)) + rest, goal);
        m := 2 * m + bit;
        symbol := symbol / 2;
      }
      TreeNone(at, m, LowFirst(symbol, 0), rest);
      GoesValid(rest, goal);
    }

    method DirectEncode(value: nat, n: nat, ghost rest: seq<Stroke>, ghost goal: (Interval, seq<Prob>))
      requires n >= 1 && Goes(Plain(BitsOf(value, n)) + rest, goal)
      modifies rc, probs
      ensures Goes(rest, goal) && rc.Valid()
    {
      hide Coded, EncodeBits, RangeEnc.Abs, Within;
      LeadsFirst(Plain(BitsOf(value, n)), rest, probs[..], rc.Abs(), goal);
      DirectAreBits(value, n);
      DirectCoded([], BitsOf(value, n), probs[..], rc.Abs());
      ghost var p := probs[..];
      rc.EncodeDirectBits(value, n);
      assert probs[..] == p;
    }

    method LenEncode(at: nat, symbol: nat, posState: nat, ghost rest: seq<Stroke>, ghost goal: (Interval, seq<Prob>))
      requires symbol < 272 && Goes(Length(at, symbol, posState) + rest, goal)
      modifies rc, probs
      ensures Goes(rest, goal) && rc.Valid()
    {
      hide Goes, Tree, BitsOf;
      if symbol < 8 {
        ghost var t := Tree(at + 2 + 8 * posState, 1, BitsOf(symbol, 3));
        assert [Under(at, false)] + t + rest == [Under(at, false)] + (t + rest);
        Bit1(at, false, t + rest, goal);
        TreeEncode(at + 2 + 8 * posState, 3, symbol, rest, goal);
      } else if symbol < 16 {
        ghost var t := Tree(at + 130 + 8 * posState, 1, BitsOf(symbol - 8, 3));
        TwoBits(at, at + 1, true, false, t, rest);
        Bit1(at, true, [Under(at + 1, false)] + (t + rest), goal);
        Bit1(at + 1, false, t + rest, goal);
        TreeEncode(at + 130 + 8 * posState, 3, symbol - 8, rest, goal);
      } else {
        ghost var t := Tree(at + 258, 1, BitsOf(symbol - 16, 8));
        TwoBits(at, at + 1, true, true, t, rest);
        Bit1(at, true, [Under(at + 1, true)] + (t + rest), goal);
        Bit1(at + 1, true, t + rest, goal);
        TreeEncode(at + 258, 8, symbol - 16, rest, goal);
      }
    }
  }

  // ---------------------------------------------------------------- what the loops over bits need

  lemma TwoBits(x: nat, y: nat, b: bool, d: bool, t: seq<Stroke>, rest: seq<Stroke>)
    ensures [Under(x, b), Under(y, d)] + t + rest == [Under(x, b)] + ([Under(y, d)] + (t + rest))
  {
  }

  lemma TreeNone(at: int, m: nat, bits: seq<bool>, rest: seq<Stroke>)
    requires bits == [] && at + m >= 0
    ensures Tree(at, m, bits) + rest == rest
  {
  }

  lemma MatchedNone(at: nat, m: nat, bits: seq<bool>, promised: seq<bool>, same: bool, rest: seq<Stroke>)
    requires bits == [] == promised
    ensures Matched(at, m, bits, promised, same) + rest == rest
  {
  }

  lemma NoBitsLeft(v: nat)
    ensures BitsOf(v, 0) == []
  {
  }

  lemma LitStart(value: Byte)
    ensures BitsOf(value, 8)[0..] == BitsOf(value, 8) && Pow2(0) == 1
    ensures value as nat * Pow2(0) == value as nat && (0x100 + value as nat) * Pow2(0) == 0x100 + value as nat
    ensures (0x100 + value as nat) / 0x100 == 1
  {
  }

  lemma LitEnd(value: Byte, symbol: nat, k: nat)
    requires k <= 8 && symbol == (0x100 + value as nat) * Pow2(k) && symbol >= 0x10000
    ensures k == 8 && BitsOf(value, 8)[k..] == []
  {
    hide Pow2;
    UpToEight(value, k);
  }

  /** A literal with its marker bit is shifted eight times. */
  lemma UpToEight(v: nat, k: nat)
    requires v < 256 && k <= 8
    ensures k < 8 <==> (0x100 + v) * Pow2(k) < 0x10000
  {
    hide Pow2;
    Powers();
    assert k == 0 || k == 1 || k == 2 || k == 3 || k == 4 || k == 5 || k == 6 || k == 7 || k == 8;
  }

  lemma Powers()
    ensures Pow2(0) == 1 && Pow2(1) == 2 && Pow2(2) == 4 && Pow2(3) == 8 && Pow2(4) == 16 && Pow2(5) == 32 && Pow2(6) == 64
    ensures Pow2(7) == 128 && Pow2(8) == 256
  {
    assert Pow2(3) == 8 && Pow2(6) == 64;
  }

  /** Bit 7 of a byte shifted k places is its k-th bit from the top. */
  lemma ShiftedBit(v: nat, k: nat)
    requires v < 256 && k < 8
    ensures BitsOf(v, 8)[k] <==> v * Pow2(k) / 0x80 % 2 == 1
  {
    hide BitsOf, Pow2;
    TopBits(v);
    Powers();
    assert k == 0 || k == 1 || k == 2 || k == 3 || k == 4 || k == 5 || k == 6 || k == 7;
  }

  /** With the marker bit above it, too; and shifting moves the node down. */
  lemma ShiftedSymbol(v: nat, symbol: nat, k: nat)
    requires v < 256 && k < 8 && symbol == (0x100 + v) * Pow2(k)
    ensures BitsOf(v, 8)[k] <==> symbol / 0x80 % 2 == 1
    ensures 2 * symbol / 0x100 == 2 * (symbol / 0x100) + Bit(BitsOf(v, 8)[k]) && 2 * symbol == (0x100 + v) * Pow2(k + 1)
    ensures symbol < 0x10000
  {
    hide BitsOf, Pow2;
    ShiftedBit(v, k);
    UpToEight(v, k);
    NextPower(0x100 + v, k);
    Markers(v, Pow2(k));
    EvenAbove(Pow2(k), v * Pow2(k));
    HalfNode(symbol);
  }

  lemma Markers(v: nat, p: nat)
    ensures (0x100 + v) * p == 0x100 * p + v * p
  {
  }

  lemma EvenAbove(p: nat, r: nat)
    ensures (0x100 * p + r) / 0x80 % 2 == r / 0x80 % 2
  {
    var q, s := r / 0x80, r % 0x80;
    QuotientUnique(0x100 * p + r, 0x80, 2 * p + q, s);
  }

  lemma HalfNode(symbol: nat)
    ensures 2 * symbol / 0x100 == 2 * (symbol / 0x100) + symbol / 0x80 % 2
    ensures 2 * symbol / 0x100 % 2 == symbol / 0x80 % 2
  {
    var h, s := symbol / 0x80, symbol % 0x80;
    QuotientUnique(2 * symbol, 0x100, h, 2 * s);
    QuotientUnique(symbol, 0x100, h / 2, 0x80 * (h % 2) + s);
  }

  lemma LitBit(at: nat, value: Byte, symbol: nat, k: nat, rest: seq<Stroke>)
    requires k <= 8 && symbol == (0x100 + value as nat) * Pow2(k) && symbol < 0x10000
    ensures k < 8 && 2 * symbol / 0x100 >= 1 && 2 * symbol == (0x100 + value as nat) * Pow2(k + 1)
    ensures Tree(at, symbol / 0x100, BitsOf(value, 8)[k..]) + rest ==
            [Under(at + symbol / 0x100, symbol / 0x80 % 2 == 1)] + (Tree(at, 2 * symbol / 0x100, BitsOf(value, 8)[k + 1..]) + rest)
  {
    hide Pow2, BitsOf, Tree;
    UpToEight(value, k);
    ShiftedSymbol(value, symbol, k);
    TreeOne(at, symbol / 0x100, BitsOf(value, 8), k, rest);
  }

  lemma TreeOne(at: nat, m: nat, bits: seq<bool>, k: nat, rest: seq<Stroke>)
    requires k < |bits|
    ensures Tree(at, m, bits[k..]) + rest == [Under(at + m, bits[k])] + (Tree(at, 2 * m + Bit(bits[k]), bits[k + 1..]) + rest)
  {
    assert bits[k..][0] == bits[k] && bits[k..][1..] == bits[k + 1..];
    var t := Tree(at, 2 * m + Bit(bits[k]), bits[k + 1..]);
    assert [Under(at + m, bits[k])] + t + rest == [Under(at + m, bits[k])] + (t + rest);
  }

  lemma MatchedBit(at: nat, value: Byte, match0: Byte, symbol: nat, matchByte: nat, k: nat, same: bool, rest: seq<Stroke>)
    requires k <= 8 && symbol == (0x100 + value as nat) * Pow2(k) && symbol < 0x10000
    requires matchByte == 2 * (match0 as nat * Pow2(k))
    ensures k < 8 && 2 * symbol / 0x100 >= 1 && 2 * symbol == (0x100 + value as nat) * Pow2(k + 1)
    ensures matchByte == match0 as nat * Pow2(k + 1)
    ensures var slot := at + (if same then 0x100 else 0) + (if same && matchByte / 0x100 % 2 == 1 then 0x100 else 0) + symbol / 0x100;
      Matched(at, symbol / 0x100, BitsOf(value, 8)[k..], BitsOf(match0, 8)[k..], same) + rest ==
      [Under(slot, symbol / 0x80 % 2 == 1)]
        + (Matched(at, 2 * symbol / 0x100, BitsOf(value, 8)[k + 1..], BitsOf(match0, 8)[k + 1..],
                   same && matchByte / 0x100 % 2 == 2 * symbol / 0x100 % 2) + rest)
  {
    hide Pow2, BitsOf, Matched;
    UpToEight(value, k);
    ShiftedSymbol(value, symbol, k);
    ShiftedBit(match0, k);
    HalfNode(symbol);
    HalfNode(match0 as nat * Pow2(k));
    NextPower(match0, k);
    MatchedOne(at, symbol / 0x100, BitsOf(value, 8), BitsOf(match0, 8), k, same, rest);
  }

  lemma NextPower(v: nat, k: nat)
    ensures 2 * (v * Pow2(k)) == v * Pow2(k + 1)
  {
    var p := Pow2(k);
    assert v * (2 * p) == 2 * (v * p);
  }

  lemma MatchedOne(at: nat, m: nat, bits: seq<bool>, promised: seq<bool>, k: nat, same: bool, rest: seq<Stroke>)
    requires |bits| == |promised| && k < |bits|
    ensures Matched(at, m, bits[k..], promised[k..], same) + rest ==
      [Under(at + m + (if !same then 0 else if promised[k] then 0x200 else 0x100), bits[k])]
        + (Matched(at, 2 * m + Bit(bits[k]), bits[k + 1..], promised[k + 1..], same && bits[k] == promised[k]) + rest)
  {
    assert bits[k..][0] == bits[k] && bits[k..][1..] == bits[k + 1..];
    assert promised[k..][0] == promised[k] && promised[k..][1..] == promised[k + 1..];
    var x := Under(at + m + (if !same then 0 else if promised[k] then 0x200 else 0x100), bits[k]);
    var t := Matched(at, 2 * m + Bit(bits[k]), bits[k + 1..], promised[k + 1..], same && bits[k] == promised[k]);
    assert [x] + t + rest == [x] + (t + rest);
  }

  lemma ReverseBit(at: int, m: nat, v: nat, n: nat, rest: seq<Stroke>)
    requires n >= 1 && m >= 1 && at + m >= 0
    ensures at + (2 * m + v % 2) >= 0
    ensures Tree(at, m, LowFirst(v, n)) + rest ==
            [Under(at + m, v % 2 == 1)] + (Tree(at, 2 * m + v % 2, LowFirst(v / 2, n - 1)) + rest)
  {
    assert LowFirst(v, n)[1..] == LowFirst(v / 2, n - 1);
    var x, t := Under(at + m, v % 2 == 1), Tree(at, 2 * m + v % 2, LowFirst(v / 2, n - 1));
    assert [x] + t + rest == [x] + (t + rest);
  }

  // ---------------------------------------------------------------- packets

  /** A choice as the optimiser states it: -1 for a literal, 0 to 3 for a last distance, 4 and more for a new one. */
  datatype Choice = Choice(len: nat, pos: int)

  predicate ChoiceOk(c: Choice) {
    (c.len == 1 && (c.pos == -1 || c.pos == 0)) || (2 <= c.len < 274 && 0 <= c.pos < 4 + WORD)
  }

  function PacketOf(text: seq<Byte>, n: nat, c: Choice): Packet
    requires ChoiceOk(c)
  {
    if c.pos == -1 then ALiteral(if n < |text| then text[n] else 0)
    else if c.len == 1 then AShortRep
    else if c.pos < 4 then ARep(c.pos, c.len - 2)
    else AMatch(c.pos - 4, c.len - 2)
  }

  function Packets(text: seq<Byte>, n: nat, plan: seq<Choice>): seq<Packet>
    requires forall c :: c in plan ==> ChoiceOk(c)
    decreases |plan|
  {
    if plan == [] then [] else [PacketOf(text, n, plan[0])] + Packets(text, n + plan[0].len, plan[1..])
  }

  /** The first byte is always a literal; what follows is as planned. */
  function AllPackets(text: seq<Byte>, plan: seq<Choice>): seq<Packet>
    requires forall c :: c in plan ==> ChoiceOk(c)
  {
    if text == [] then [] else [ALiteral(text[0])] + Packets(text, 1, plan)
  }

  lemma PacketMoves(text: seq<Byte>, e: Enc, c: Choice)
    requires ChoiceOk(c) && e.state < 12 && |e.reps| == 4
    ensures PacketOk(PacketOf(text, e.n, c)) && Next(e, PacketOf(text, e.n, c)).n == e.n + c.len
  {
  }

  /** What is to come: the rest of the text's packets, then the end mark or nothing. */
  ghost predicate Remains(pr: Props, text: seq<Byte>, e: Enc, ks: seq<Packet>, mark: bool, s: seq<Stroke>) {
    && PropsOk(pr) && EncOk(e, text) && AllFit(pr, text, e, ks)
    && s == TextStrokes(pr, text, e, ks) + if mark then Strokes(EncContext(pr, text, AtEnd(pr, text, e, ks)), MARK) else []
  }

  lemma RemainsNext(pr: Props, text: seq<Byte>, e: Enc, ks: seq<Packet>, mark: bool, s: seq<Stroke>) returns (t: seq<Stroke>)
    requires Remains(pr, text, e, ks, mark, s) && ks != []
    ensures Fits(pr, text, e, ks[0]) && PacketOk(ks[0]) && e.n < |text|
    ensures Remains(pr, text, Next(e, ks[0]), ks[1..], mark, t) && s == Strokes(EncContext(pr, text, e), ks[0]) + t
  {
    hide Strokes, EncContext, Fits, Next;
    FitsOk(pr, text, e, ks[0]);
    NextOk(pr, text, e, ks[0]);
    var m := if mark then Strokes(EncContext(pr, text, AtEnd(pr, text, e, ks)), MARK) else [];
    t := TextStrokes(pr, text, Next(e, ks[0]), ks[1..]) + m;
    var x, y := Strokes(EncContext(pr, text, e), ks[0]), TextStrokes(pr, text, Next(e, ks[0]), ks[1..]);
    assert x + y + m == x + (y + m);
  }

  class LzmaEnc {
    const pr: Props
    const rc: RangeEnc
    const probs: array<Prob>
    const coder: SymbolCoder
    const fastPos: array<nat>
    const reps: array<nat>
    var state: nat

    ghost predicate Valid()
      reads this, rc, probs, coder, fastPos, reps
    {
      && PropsOk(pr) && pr.dicSize <= 0x4000_0000 && coder.rc == rc && coder.probs == probs && rc.Valid()
      && reps.Length == 4 && fastPos != reps && fastPos.Length == 0x2000 && Filled(fastPos[..], 0x2000) && state < 12
    }

    /** Where the encoder stands when it has coded n bytes. */
    ghost function Self(n: nat): Enc
      reads this, reps
    {
      Enc(state, reps[..], n)
    }

    constructor (pr: Props)
      requires PropsOk(pr) && pr.dicSize <= 0x4000_0000
      ensures Valid() && Self(0) == AT_START && this.pr == pr && rc.Abs() == START && probs[..] == InitProbs(pr)
      ensures fresh(rc) && fresh(probs) && fresh(coder) && fresh(fastPos) && fresh(reps) && rc.out == []
    {
      var r := new RangeEnc();
      var p := new Prob[NumProbs(pr)](i => PROB_INIT);
      var k := new SymbolCoder(r, p);
      var g := new nat[0x2000];
      FastPosInit(g);
      var d := new nat[4](i => 0);
      this.pr, rc, probs, coder, fastPos, reps, state := pr, r, p, k, g, d, 0;
      new;
      assert reps[..] == [0, 0, 0, 0];
      assert probs[..] == InitProbs(pr);
    }

    /** A literal: beside the byte that the last distance promises, if a match came before. */
    method CodeLiteral(text: seq<Byte>, n: nat, ghost rest: seq<Stroke>, ghost goal: (Interval, seq<Prob>))
      requires Valid() && EncOk(Self(n), text) && n < |text|
      requires coder.Goes(Strokes(EncContext(pr, text, Self(n)), ALiteral(text[n])) + rest, goal)
      modifies this`state, rc, probs
      ensures Valid() && coder.Goes(rest, goal) && Self(n + 1) == old(Next(Self(n), ALiteral(text[n])))
    {
      hide SymbolCoder.Goes, Pow2, Tree, Matched, BitsOf, Filled;
      var posState := n % Pow2(pr.pb);
      var table := if n == 0 then LITERAL else LiteralTable(pr, n, text[n - 1]);
      ghost var c := EncContext(pr, text, Self(n));
      ghost var first, body := Under(IS_MATCH + 16 * state + posState, false), LiteralStrokes(c, text[n]);
      assert [first] + body + rest == [first] + (body + rest);
      coder.Bit1(IS_MATCH + 16 * state + posState, false, body + rest, goal);
      if state < 7 {
        coder.LitEncode(table, text[n], rest, goal);
      } else {
        coder.LitEncodeMatched(table, text[n], text[n - reps[0] - 1], rest, goal);
      }
      state := LITERAL_NEXT[state];
    }

    /** A repetition at one of the last distances, which comes to the front. */
    method CodeRep(text: seq<Byte>, n: nat, len: nat, pos: nat, ghost rest: seq<Stroke>, ghost goal: (Interval, seq<Prob>))
      requires Valid() && EncOk(Self(n), text) && pos < 4 && (len == 1 ==> pos == 0) && 1 <= len < 274
      requires coder.Goes(Strokes(EncContext(pr, text, Self(n)), Repetition(len, pos)) + rest, goal)
      modifies this`state, rc, probs, reps
      ensures Valid() && coder.Goes(rest, goal) && Self(n + len) == old(Next(Self(n), Repetition(len, pos)))
    {
      hide SymbolCoder.Goes, Filled, Strokes, RangeEnc.Valid;
      CodeRepBits(EncContext(pr, text, Self(n)), len, pos, n % Pow2(pr.pb), rest, goal);
      MoveToFront(pos);
      state := if len == 1 then SHORT_REP_NEXT[state] else REP_NEXT[state];
    }

    method CodeRepBits(ghost c: Context, len: nat, pos: nat, posState: nat, ghost rest: seq<Stroke>, ghost goal: (Interval, seq<Prob>))
      requires Valid() && c.state == state && c.posState == posState && pos < 4 && (len == 1 ==> pos == 0) && 1 <= len < 274
      requires coder.Goes(Strokes(c, Repetition(len, pos)) + rest, goal)
      modifies rc, probs
      ensures Valid() && coder.Goes(rest, goal)
    {
      hide SymbolCoder.Goes, Length, Filled, Which, Strokes, RangeEnc.Valid;
      ghost var tail := (if len == 1 then [] else Length(REP_LEN_CODER, len - 2, posState)) + rest;
      RepParts(c, len, pos, rest);
      coder.Bit1(IS_MATCH + 16 * state + posState, true, [Under(IS_REP + state, true)] + (Which(c, len, pos) + tail), goal);
      coder.Bit1(IS_REP + state, true, Which(c, len, pos) + tail, goal);
      CodeWhich(c, len, pos, posState, tail, goal);
      if len == 1 {
        assert [] + rest == rest;
      } else {
        coder.LenEncode(REP_LEN_CODER, len - 2, posState, rest, goal);
      }
    }

    /** Which of the last distances, and whether it is more than one byte. */
    method CodeWhich(ghost c: Context, len: nat, pos: nat, posState: nat, ghost rest: seq<Stroke>, ghost goal: (Interval, seq<Prob>))
      requires Valid() && c.state == state && c.posState == posState && pos < 4 && coder.Goes(Which(c, len, pos) + rest, goal)
      modifies rc, probs
      ensures Valid() && coder.Goes(rest, goal)
    {
      hide SymbolCoder.Goes, Filled;
      ghost var s := Which(c, len, pos);
      if pos == 0 {
        assert s + rest == [s[0]] + ([s[1]] + rest);
        coder.Bit1(IS_REP_G0 + state, false, [s[1]] + rest, goal);
        coder.Bit1(IS_REP0_LONG + 16 * state + posState, len != 1, rest, goal);
      } else if pos == 1 {
        assert s + rest == [s[0]] + ([s[1]] + rest);
        coder.Bit1(IS_REP_G0 + state, true, [s[1]] + rest, goal);
        coder.Bit1(IS_REP_G1 + state, false, rest, goal);
      } else {
        assert s + rest == [s[0]] + ([s[1]] + ([s[2]] + rest));
        coder.Bit1(IS_REP_G0 + state, true, [s[1]] + ([s[2]] + rest), goal);
        coder.Bit1(IS_REP_G1 + state, true, [s[2]] + rest, goal);
        coder.Bit1(IS_REP_G2 + state, pos == 3, rest, goal);
      }
    }

    method MoveToFront(pos: nat)
      requires reps.Length == 4 && pos < 4
      modifies reps
      ensures var r := old(reps[..]);
        reps[..] == if pos == 0 then r else if pos == 1 then [r[1], r[0], r[2], r[3]]
                    else if pos == 2 then [r[2], r[0], r[1], r[3]] else [r[3], r[0], r[1], r[2]]
    {
      if pos != 0 {
        var distance := reps[pos];
        if pos != 1 {
          if pos == 3 { reps[3] := reps[2]; }
          reps[2] := reps[1];
        }
        reps[1] := reps[0];
        reps[0] := distance;
      }
    }

    /** A match at a new distance, which comes before the last ones. */
    method CodeMatch(text: seq<Byte>, n: nat, len: nat, pos: nat, ghost rest: seq<Stroke>, ghost goal: (Interval, seq<Prob>))
      requires Valid() && EncOk(Self(n), text) && pos < 0x8000_0000 && 2 <= len < 274
      requires coder.Goes(Strokes(EncContext(pr, text, Self(n)), AMatch(pos, len - 2)) + rest, goal)
      modifies this`state, rc, probs, reps
      ensures Valid() && coder.Goes(rest, goal) && Self(n + len) == old(Next(Self(n), AMatch(pos, len - 2)))
    {
      hide SymbolCoder.Goes, Filled, Strokes, RangeEnc.Valid;
      CodeMatchBits(EncContext(pr, text, Self(n)), len, pos, n % Pow2(pr.pb), rest, goal);
      PushFront(pos);
      state := MATCH_NEXT[state];
    }

    method PushFront(pos: nat)
      requires reps.Length == 4
      modifies reps
      ensures reps[..] == [pos] + old(reps[..])[..3]
    {
      reps[3] := reps[2];
      reps[2] := reps[1];
      reps[1] := reps[0];
      reps[0] := pos;
    }

    method CodeMatchBits(ghost c: Context, len: nat, pos: nat, posState: nat, ghost rest: seq<Stroke>, ghost goal: (Interval, seq<Prob>))
      requires Valid() && c.state == state && c.posState == posState && pos < 0x8000_0000 && 2 <= len < 274
      requires coder.Goes(Strokes(c, AMatch(pos, len - 2)) + rest, goal)
      modifies rc, probs
      ensures Valid() && coder.Goes(rest, goal)
    {
      hide SymbolCoder.Goes, Pow2, Length, Filled, Distance, SlotOf, Strokes, Footer, Tree, RangeEnc.Valid;
      MatchParts(c, len - 2, pos, rest);
      CodeMatchLen(c, len, posState, Distance(pos, len - 2) + rest, goal);
      var posSlot := GetPosSlot(fastPos, pos);
      SlotSix(pos);
      DistanceParts(pos, len - 2, rest);
      coder.TreeEncode(POS_SLOT + 64 * (if len < 6 then len - 2 else 3), 6, posSlot, Footer(pos) + rest, goal);
      CodeFooter(pos, posSlot, rest, goal);
    }

    /** That it is a match, and how long. */
    method CodeMatchLen(ghost c: Context, len: nat, posState: nat, ghost rest: seq<Stroke>, ghost goal: (Interval, seq<Prob>))
      requires Valid() && 2 <= len < 274 && c.state == state && c.posState == posState
      requires coder.Goes([Under(IS_MATCH + 16 * c.state + c.posState, true)] + ([Under(IS_REP + c.state, false)]
                          + (Length(LEN_CODER, len - 2, c.posState) + rest)), goal)
      modifies rc, probs
      ensures Valid() && coder.Goes(rest, goal)
    {
      hide SymbolCoder.Goes, Length, Filled;
      coder.Bit1(IS_MATCH + 16 * state + posState, true,
                 [Under(IS_REP + state, false)] + (Length(LEN_CODER, len - 2, posState) + rest), goal);
      coder.Bit1(IS_REP + state, false, Length(LEN_CODER, len - 2, posState) + rest, goal);
      coder.LenEncode(LEN_CODER, len - 2, posState, rest, goal);
    }

    /** The bits of a distance that its slot leaves open. */
    method CodeFooter(pos: nat, posSlot: nat, ghost rest: seq<Stroke>, ghost goal: (Interval, seq<Prob>))
      requires Valid() && posSlot == SlotOf(pos) && coder.Goes(Footer(pos) + rest, goal)
      modifies rc, probs
      ensures Valid() && coder.Goes(rest, goal)
    {
      hide SymbolCoder.Goes, Pow2, Tree, LowFirst, BitsOf, Plain, Filled, SlotOf;
      SlotHolds(pos);
      if posSlot >= 4 {
        var footerBits := posSlot / 2 - 1;
        var base := (2 + posSlot % 2) * Pow2(footerBits);
        var posReduced := pos - base;
        if posSlot < 14 {
          FooterAt(posSlot);
          coder.ReverseEncode(SPEC_POS + base - posSlot - 1, footerBits, posReduced, rest, goal);
        } else {
          ghost var t := Tree(ALIGN, 1, LowFirst(posReduced % 16, 4));
          assert Plain(BitsOf(posReduced / 16, footerBits - 4)) + t + rest == Plain(BitsOf(posReduced / 16, footerBits - 4)) + (t + rest);
          coder.DirectEncode(posReduced / 16, footerBits - 4, t + rest, goal);
          coder.ReverseEncode(ALIGN, 4, posReduced % 16, rest, goal);
        }
      } else {
        assert [] + rest == rest;
      }
    }

    method WriteEndMarker(text: seq<Byte>, n: nat, ghost rest: seq<Stroke>, ghost goal: (Interval, seq<Prob>))
      requires Valid() && EncOk(Self(n), text) && coder.Goes(Strokes(EncContext(pr, text, Self(n)), MARK) + rest, goal)
      modifies this`state, rc, probs
      ensures Valid() && coder.Goes(rest, goal)
    {
      hide SymbolCoder.Goes, Pow2, Length, Filled, Distance, Tree, LowFirst, Plain, BitsOf;
      var posState := n % Pow2(pr.pb);
      ghost var c := EncContext(pr, text, Self(n));
      MatchParts(c, 0, 0xFFFFFFFF, rest);
      CodeMatchLen(c, 2, posState, Distance(0xFFFFFFFF, 0) + rest, goal);
      state := MATCH_NEXT[state];
      ghost var t := Tree(ALIGN, 1, LowFirst(15, 4));
      MarkParts(rest);
      coder.TreeEncode(POS_SLOT, 6, 63, Plain(BitsOf(0x3FF_FFFF, 26)) + (t + rest), goal);
      coder.DirectEncode(0x3FF_FFFF, 26, t + rest, goal);
      coder.ReverseEncode(ALIGN, 4, 15, rest, goal);
    }

    /** One planned packet. */
    method CodePacket(text: seq<Byte>, n: nat, c: Choice, ghost rest: seq<Stroke>, ghost goal: (Interval, seq<Prob>))
      requires Valid() && EncOk(Self(n), text) && ChoiceOk(c) && Fits(pr, text, Self(n), PacketOf(text, n, c))
      requires coder.Goes(Strokes(EncContext(pr, text, Self(n)), PacketOf(text, n, c)) + rest, goal)
      modifies this`state, rc, probs, reps
      ensures Valid() && coder.Goes(rest, goal) && Self(n + c.len) == old(Next(Self(n), PacketOf(text, n, c)))
    {
      hide SymbolCoder.Goes, Strokes, EncContext, Filled, EncOk;
      EncOkIs(Self(n), text);
      if c.len == 1 && c.pos == -1 {
        CodeLiteral(text, n, rest, goal);
      } else if c.pos < 4 {
        CodeRep(text, n, c.len, c.pos, rest, goal);
      } else {
        CodeMatch(text, n, c.len, c.pos - 4, rest, goal);
      }
    }

    /**
     * A text coded as planned: the first byte as a literal, the rest packet by packet, the end mark if one is wanted, and
     * the flush.
     */
    method Encode(text: seq<Byte>, plan: seq<Choice>, mark: bool)
      requires Valid() && Self(0) == AT_START && rc.Abs() == START && probs[..] == InitProbs(pr)
      requires (forall c :: c in plan ==> ChoiceOk(c)) && AllFit(pr, text, AT_START, AllPackets(text, plan))
      modifies this`state, rc, probs, reps
      ensures rc.out == LzmaBytes(pr, text, AllPackets(text, plan), mark)
    {
      hide SymbolCoder.Goes, Strokes, EncContext, Filled, Remains, Fits, AllFit, StreamStrokes, Packets, Next, RangeEnc.Abs;
      ghost var s := StreamStrokes(pr, text, AllPackets(text, plan), mark);
      ghost var goal := StartGoes(text, plan, mark);
      var nowPos: nat := 0;
      ghost var ks := AllPackets(text, plan);
      if text != [] {
        ghost var t := RemainsNext(pr, text, AT_START, ks, mark, s);
        CodeLiteral(text, 0, t, goal);
        nowPos := 1;
        s, ks := t, ks[1..];
      }
      AfterFirstByte(text, plan, ks);
      var i := 0;
      while i < |plan| && text != []
        invariant i <= |plan| && Valid() && (text != [] ==> ks == Packets(text, nowPos, plan[i..])) && (text == [] ==> ks == [])
        invariant Remains(pr, text, Self(nowPos), ks, mark, s) && coder.Goes(s, goal)
        decreases |plan| - i
      {
        PlanNext(text, nowPos, plan, i);
        ghost var t := RemainsNext(pr, text, Self(nowPos), ks, mark, s);
        RemainsOk(pr, text, Self(nowPos), ks, mark, s);
        PacketMoves(text, Self(nowPos), plan[i]);
        CodePacket(text, nowPos, plan[i], t, goal);
        nowPos := nowPos + plan[i].len;
        s, ks := t, ks[1..];
        i := i + 1;
      }
      PlanEnds(text, nowPos, plan, i, ks);
      Flush(text, nowPos, mark, s, goal);
      FlushedIs(text, plan, mark, goal);
    }

    /** The end of the stream. */
    method Flush(text: seq<Byte>, nowPos: nat, mark: bool, ghost s: seq<Stroke>, ghost goal: (Interval, seq<Prob>))
      requires Valid() && Remains(pr, text, Self(nowPos), [], mark, s) && coder.Goes(s, goal)
      modifies this`state, rc, probs
      ensures rc.out == BigEndian(goal.0.low, goal.0.len)
    {
      hide Strokes, EncContext, Filled;
      if mark {
        assert s == Strokes(EncContext(pr, text, Self(nowPos)), MARK) + [];
        WriteEndMarker(text, nowPos, [], goal);
      }
      BringsNone(probs[..], rc.Abs(), goal);
      rc.FlushData();
    }

    lemma StartGoes(text: seq<Byte>, plan: seq<Choice>, mark: bool) returns (goal: (Interval, seq<Prob>))
      requires Valid() && Self(0) == AT_START && rc.Abs() == START && probs[..] == InitProbs(pr)
      requires (forall c :: c in plan ==> ChoiceOk(c)) && AllFit(pr, text, AT_START, AllPackets(text, plan))
      ensures var s := StreamStrokes(pr, text, AllPackets(text, plan), mark);
        && Within(s, NumProbs(pr)) && goal == Coded(s, InitProbs(pr), START)
        && coder.Goes(s, goal) && Remains(pr, text, AT_START, AllPackets(text, plan), mark, s)
    {
      hide Strokes, EncContext, Filled, AllFit, TextStrokes, Coded, RangeEnc.Abs;
      var s := StreamStrokes(pr, text, AllPackets(text, plan), mark);
      StreamWithin(pr, text, AllPackets(text, plan), mark);
      goal := Coded(s, InitProbs(pr), START);
    }

    lemma FlushedIs(text: seq<Byte>, plan: seq<Choice>, mark: bool, goal: (Interval, seq<Prob>))
      requires PropsOk(pr) && (forall c :: c in plan ==> ChoiceOk(c)) && AllFit(pr, text, AT_START, AllPackets(text, plan))
      requires Within(StreamStrokes(pr, text, AllPackets(text, plan), mark), NumProbs(pr))
      requires goal == Coded(StreamStrokes(pr, text, AllPackets(text, plan), mark), InitProbs(pr), START)
      ensures LzmaBytes(pr, text, AllPackets(text, plan), mark) == BigEndian(goal.0.low, goal.0.len)
    {
    }
  }

  lemma EncOkIs(e: Enc, text: seq<Byte>)
    requires EncOk(e, text)
    ensures e.state < 12 && |e.reps| == 4
  {
  }

  lemma RemainsOk(pr: Props, text: seq<Byte>, e: Enc, ks: seq<Packet>, mark: bool, s: seq<Stroke>)
    requires Remains(pr, text, e, ks, mark, s)
    ensures PropsOk(pr) && EncOk(e, text) && AllFit(pr, text, e, ks) && e.state < 12 && |e.reps| == 4
  {
  }

  /** The packet of a repetition. */
  function Repetition(len: nat, pos: nat): Packet {
    if len <= 1 then AShortRep else ARep(pos, len - 2)
  }

  ghost function Which(c: Context, len: nat, pos: nat): seq<Stroke> {
    if pos == 0 then [Under(IS_REP_G0 + c.state, false), Under(IS_REP0_LONG + 16 * c.state + c.posState, len != 1)]
    else RepStrokes(c, pos)
  }

  lemma RepParts(c: Context, len: nat, pos: nat, rest: seq<Stroke>)
    requires pos < 4 && (len == 1 ==> pos == 0) && len >= 1
    ensures var tail := (if len == 1 then [] else Length(REP_LEN_CODER, len - 2, c.posState)) + rest;
      Strokes(c, Repetition(len, pos)) + rest ==
      [Under(IS_MATCH + 16 * c.state + c.posState, true)] + ([Under(IS_REP + c.state, true)] + (Which(c, len, pos) + tail))
  {
    hide Length;
    var l := if len == 1 then [] else Length(REP_LEN_CODER, len - 2, c.posState);
    var x, y := Under(IS_MATCH + 16 * c.state + c.posState, true), Under(IS_REP + c.state, true);
    assert Strokes(c, Repetition(len, pos)) == [x, y] + Which(c, len, pos) + l;
    assert [x, y] + Which(c, len, pos) + l + rest == [x] + ([y] + (Which(c, len, pos) + (l + rest)));
  }

  lemma MatchParts(c: Context, len: nat, distance: nat, rest: seq<Stroke>)
    ensures Strokes(c, AMatch(distance, len)) + rest ==
      [Under(IS_MATCH + 16 * c.state + c.posState, true)] + ([Under(IS_REP + c.state, false)]
        + (Length(LEN_CODER, len, c.posState) + (Distance(distance, len) + rest)))
  {
    hide Length, Distance;
    var x, y := Under(IS_MATCH + 16 * c.state + c.posState, true), Under(IS_REP + c.state, false);
    var l, d := Length(LEN_CODER, len, c.posState), Distance(distance, len);
    assert [x, y] + l + d + rest == [x] + ([y] + (l + (d + rest)));
  }

  lemma DistanceParts(distance: nat, len: nat, rest: seq<Stroke>)
    ensures Distance(distance, len) + rest ==
      Tree(POS_SLOT + 64 * (if len < 4 then len else 3), 1, BitsOf(SlotOf(distance), 6)) + (Footer(distance) + rest)
  {
    hide Tree, Footer, BitsOf, SlotOf;
  }

  lemma SlotSix(pos: nat)
    requires pos < 0x8000_0000
    ensures SlotOf(pos) < 64
  {
    hide SlotOf, Pow2;
    ThirtyTwo();
    SlotBelow(pos, 32);
  }

  /** The end mark is a match at the greatest distance. */
  lemma MarkParts(rest: seq<Stroke>)
    ensures Distance(0xFFFFFFFF, 0) + rest == Tree(POS_SLOT, 1, BitsOf(63, 6))
      + (Plain(BitsOf(0x3FF_FFFF, 26)) + (Tree(ALIGN, 1, LowFirst(15, 4)) + rest))
  {
    hide Tree, Plain, BitsOf, LowFirst, Pow2, SlotOf;
    DistanceParts(0xFFFFFFFF, 0, rest);
    ThirtyTwo();
    Pow2Add(30, 2);
    assert Pow2(2) == 4 by { Powers(); }
    assert Pow2(30) == 0x4000_0000;
    assert Pow2(31) == 2 * Pow2(30) by { DoublePower(30); }
    SlotBelow(0xFFFFFFFF, 32);
    TopSlot();
    SlotHolds(0xFFFFFFFF);
    var t := Tree(ALIGN, 1, LowFirst(15, 4));
    assert Footer(0xFFFFFFFF) == Plain(BitsOf(0x3FF_FFFF, 26)) + t;
    assert Plain(BitsOf(0x3FF_FFFF, 26)) + t + rest == Plain(BitsOf(0x3FF_FFFF, 26)) + (t + rest);
  }

  lemma DoublePower(n: nat)
    ensures Pow2(n + 1) == 2 * Pow2(n)
  {
  }

  lemma TopSlot()
    ensures SlotOf(0xFFFFFFFF) == 63
  {
    hide Pow2;
    Powers();
    ThirtyTwo();
    Pow2Add(30, 2);
    assert 0xFFFFFFFF / Pow2(30) == 3;
    SlotShift(0xFFFFFFFF, 30);
    assert SlotOf(3) == 3;
  }

  lemma BringsNone(probs: seq<Prob>, iv: Interval, goal: (Interval, seq<Prob>))
    requires Brings([], probs, iv, goal)
    ensures goal == (iv, probs)
  {
  }

  lemma AfterFirstByte(text: seq<Byte>, plan: seq<Choice>, ks: seq<Packet>)
    requires forall c :: c in plan ==> ChoiceOk(c)
    requires ks == if text == [] then AllPackets(text, plan) else AllPackets(text, plan)[1..]
    ensures text != [] ==> ks == Packets(text, 1, plan[0..])
    ensures text == [] ==> ks == []
  {
    hide Packets;
    assert plan[0..] == plan;
  }

  lemma PlanNext(text: seq<Byte>, n: nat, plan: seq<Choice>, i: nat)
    requires i < |plan| && forall c :: c in plan ==> ChoiceOk(c)
    ensures ChoiceOk(plan[i])
    ensures Packets(text, n, plan[i..]) == [PacketOf(text, n, plan[i])] + Packets(text, n + plan[i].len, plan[i + 1..])
  {
    hide PacketOf;
    assert plan[i..][0] == plan[i] && plan[i..][1..] == plan[i + 1..];
  }

  lemma PlanEnds(text: seq<Byte>, n: nat, plan: seq<Choice>, i: nat, ks: seq<Packet>)
    requires i <= |plan| && (text != [] ==> i == |plan|) && forall c :: c in plan ==> ChoiceOk(c)
    requires if text == [] then ks == [] else ks == Packets(text, n, plan[i..])
    ensures ks == []
  {
  }
}
