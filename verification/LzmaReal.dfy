/**
 * Decoding the bits of one symbol as the real decoder does: probabilities are updated in place, and the
 * values are put together on the way.
 */
module LzmaReal {
  import opened Bytes
  import Bits
  import opened RangeCoder
  import opened LzmaSymbol
  import opened LzmaInputBound
  import opened LzmaDummy
  import opened LzmaCore

  /** The walk goes on with that bit, that coder and those probabilities. */
  ghost predicate Goes(c: Context, p: Phase, a: Acc, probs: seq<Prob>, d: Dec, s: seq<Byte>, bit: bool, d2: Dec, next: seq<Prob>)
    requires Ready(c, p, probs, d)
  {
    && Ready(c, Following(c, p, bit), next, d2)
    && Decode(c, p, probs, d, s, true) == Decode(c, Following(c, p, bit), next, d2, s, true)
    && ItemOf(c, p, a, probs, d, s) == ItemOf(c, Following(c, p, bit), NextAcc(p, a, bit), next, d2, s)
  }

  lemma AdaptiveGoes(c: Context, p: Phase, a: Acc, probs: seq<Prob>, d: Dec, s: seq<Byte>, k: nat)
    requires Ready(c, p, probs, d) && Normal(d.range) && Fill(d, s) == Some(d) && !p.End? && Wanted(c, p) == Adaptive(k)
    ensures k < |probs| && d.code < WORD && 0 <= d.range / BIT_MODEL_TOTAL * probs[k] <= d.range
    ensures var q: int := probs[k]; 31 <= q + (BIT_MODEL_TOTAL - q) / 32 <= 2017 && 31 <= q - q / 32 <= 2017
    ensures var bound, q: int := d.range / BIT_MODEL_TOTAL * probs[k], probs[k];
      d.code < bound ==> Goes(c, p, a, probs, d, s, false, Dec(bound, d.code, d.pos), probs[k := q + (BIT_MODEL_TOTAL - q) / 32])
    ensures var bound, q: int := d.range / BIT_MODEL_TOTAL * probs[k], probs[k];
      d.code >= bound ==> Goes(c, p, a, probs, d, s, true, Dec(d.range - bound, d.code - bound, d.pos), probs[k := q - q / 32])
  {
    hide Wanted, Following, PhaseOk, ContextOk, NextAcc, Decode, ItemOf, Fill;
    var bit, d2, next := ItemOn(c, p, a, probs, d, s);
    BoundInside(d.range, probs[k]);
  }

  lemma DirectGoes(c: Context, p: Phase, a: Acc, probs: seq<Prob>, d: Dec, s: seq<Byte>)
    requires Ready(c, p, probs, d) && Normal(d.range) && Fill(d, s) == Some(d) && p.Straight?
    ensures d.code < WORD
    ensures var half := d.range / 2; var t := (d.code - half) % WORD / 0x8000_0000;
      (d.code - half + t * half) % WORD >= 0 && Goes(c, p, a, probs, d, s, t == 0, Dec(half, (d.code - half + t * half) % WORD, d.pos), probs)
  {
    hide PhaseOk, ContextOk, NextAcc, Decode, ItemOf, Fill;
    var bit, d2, next := ItemOn(c, p, a, probs, d, s);
    DirectHas(c, p);
  }

  /** The range, the code and the place in the input while a symbol is decoded. */
  class Reader {
    const c: Context
    const probs: array<Prob>
    const s: seq<Byte>
    var d: Dec
    ghost var p: Phase
    ghost var a: Acc
    ghost const goal: Outcome
    ghost const item: Acc

    ghost predicate Valid()
      reads this, probs
    {
      Ready(c, p, probs[..], d) && Decode(c, p, probs[..], d, s, true) == Some(goal) && ItemOf(c, p, a, probs[..], d, s) == item
    }

    constructor (c: Context, probs: array<Prob>, d: Dec, s: seq<Byte>)
      requires Ready(c, IsMatch, probs[..], d) && Decode(c, IsMatch, probs[..], d, s, true).Some?
      ensures Valid() && p == IsMatch && a == NOTHING && this.c == c && this.probs == probs && this.s == s && this.d == d
      ensures goal == Decode(c, IsMatch, probs[..], d, s, true).value && item == ItemOf(c, IsMatch, NOTHING, probs[..], d, s)
    {
      this.c, this.probs, this.s, this.d, p, a := c, probs, s, d, IsMatch, NOTHING;
      goal, item := Decode(c, IsMatch, probs[..], d, s, true).value, ItemOf(c, IsMatch, NOTHING, probs[..], d, s);
    }

    /** Normalisation: the input is known to be long enough. */
    method Normalize()
      requires Valid()
      modifies this`d
      ensures Valid() && Normal(d.range) && Fill(old(d), s) == Some(d) && Fill(d, s) == Some(d)
      ensures p.End? ==> d == goal.dec && probs[..] == goal.probs && a == item
    {
      hide Wanted, Following, PhaseOk, ContextOk, NextAcc, UpdateProbs, Choose;
      DecodeNeedsInput(c, p, probs[..], d, s, true);
      FillTwice(d, s);
      if d.range < TOP_VALUE {
        d := Dec(256 * d.range % WORD, (256 * d.code + s[d.pos]) % WORD, d.pos + 1);
      }
    }

    /** What the symbol will be, from where its first bits lead. */
    lemma Kinds(kind: Kind)
      requires Valid() && Leads(p, kind)
      ensures goal.kind == kind
    {
      LeadsTo(c, p, kind, probs[..], d, s);
    }

    /** At the end of the symbol. */
    lemma AtEnd()
      requires Valid() && p.End?
      ensures goal.kind == p.kind && item == a && goal.probs == probs[..] && Fill(d, s) == Some(goal.dec)
      ensures 0x10000 <= d.range < WORD && d.code < WORD
    {
      WalkEnds(c, p, a, probs[..], d, s);
      DecodeNeedsInput(c, p, probs[..], d, s, true);
    }

    /** One bit under probability k, which is updated. */
    method GetBit(k: nat) returns (bit: bool)
      requires Valid() && !p.End? && Wanted(c, p) == Adaptive(k)
      modifies this`d, this`p, this`a, probs
      ensures Valid() && p == Following(c, old(p), bit) && a == NextAcc(old(p), old(a), bit)
    {
      hide Wanted, Following, Ready, NextAcc, Decode, ItemOf, Fill;
      Normalize();
      AdaptiveGoes(c, p, a, probs[..], d, s, k);
      var ttt: int := probs[k];
      assert ttt == probs[..][k];
      var bound := d.range / BIT_MODEL_TOTAL * ttt;
      bit := d.code >= bound;
      if !bit {
        d := Dec(bound, d.code, d.pos);
        probs[k] := ttt + (BIT_MODEL_TOTAL - ttt) / 32;
      } else {
        d := Dec(d.range - bound, d.code - bound, d.pos);
        probs[k] := ttt - ttt / 32;
      }
      p, a := Following(c, p, bit), NextAcc(p, a, bit);
    }

    /** One bit without a probability: the sign of a difference of 32-bit words tells it. */
    method GetDirect() returns (bit: bool)
      requires Valid() && p.Straight?
      modifies this`d, this`p, this`a
      ensures Valid() && p == Following(c, old(p), bit) && a == NextAcc(old(p), old(a), bit)
    {
      hide Wanted, Following, Ready, NextAcc, Decode, ItemOf, Fill;
      Normalize();
      DirectGoes(c, p, a, probs[..], d, s);
      var range := d.range / 2;
      var t := (d.code - range) % WORD / 0x8000_0000;
      d := Dec(range, (d.code - range + t * range) % WORD, d.pos);
      bit := t == 0;
      p, a := Following(c, p, bit), NextAcc(p, a, bit);
    }

    /** A literal, with or without the byte at the last distance to go by. */
    method GetLiteral() returns (symbol: nat)
      requires Valid() && p == Literal(1, if c.state < 7 then 0 else 256, c.matchByte) && a == NOTHING
      modifies this`d, this`p, this`a, probs
      ensures Valid() && p == End(Lit) && a.symbol == symbol
    {
      hide Decode, ItemOf, Ready;
      var bit;
      symbol := 1;
      if c.state < 7 {
        ghost var mb := c.matchByte;
        while symbol < 0x100
          invariant Valid() && symbol >= 1 && a == NOTHING.(symbol := symbol) && p == (if symbol < 256 then Literal(symbol, 0, mb) else End(Lit))
          decreases 256 - symbol
        {
          bit := GetBit(c.literal + symbol);
          symbol := 2 * symbol + Bits.Bit(bit);
          mb := (2 * mb) % 0x10000;
        }
      } else {
        var matchByte, offs := c.matchByte, 0x100;
        while symbol < 0x100
          invariant Valid() && symbol >= 1 && a == NOTHING.(symbol := symbol)
          invariant p == if symbol < 256 then Literal(symbol, offs, matchByte) else End(Lit)
          invariant (offs == 0 || offs == 256) && matchByte >= 0
          decreases 256 - symbol
        {
          var b := MatchBit(offs, matchByte);
          bit := GetBit(c.literal + offs + b + symbol);
          symbol := 2 * symbol + Bits.Bit(bit);
          offs := if bit == (b != 0) then offs else 0;
          matchByte := (2 * matchByte) % 0x10000;
        }
      }
    }

    /** Which of the last distances is repeated; short says that it is for one byte only. */
    method GetRep() returns (rep: nat, short: bool)
      requires Valid() && p == RepG0 && a == NOTHING
      modifies this`d, this`p, this`a, probs
      ensures Valid() && p == (if short then End(Rep) else LenChoice(true)) && a == NOTHING.(rep := rep, short := short) && rep < 4
      ensures short ==> rep == 0
    {
      hide Wanted, Following, Decode, ItemOf, Ready;
      StartSteps(c);
      var bit;
      rep, short := 0, false;
      bit := GetBit(IS_REP_G0 + c.state);
      if !bit {
        bit := GetBit(IS_REP0_LONG + 16 * c.state + c.posState);
        short := !bit;
      } else {
        bit := GetBit(IS_REP_G1 + c.state);
        rep := 1;
        if bit {
          bit := GetBit(IS_REP_G2 + c.state);
          rep := if bit then 3 else 2;
        }
      }
    }

    /** The leaf of a length tree. */
    method GetLenTree(rep: bool, base: nat, limit: nat, offset: nat) returns (len: nat)
      requires Valid() && p == LenTree(rep, base, limit, offset, 1) && limit > 1
      modifies this`d, this`p, this`a, probs
      ensures Valid() && p == AfterLen(rep, len) && a == old(a).(len := len) && len < limit + offset
    {
      hide Wanted, Following, Decode, ItemOf, Ready, AfterLen;
      var bit;
      len := 1;
      while true
        invariant Valid() && 1 <= len < limit && p == LenTree(rep, base, limit, offset, len) && a == old(a)
        decreases limit - len
      {
        LenTreeStep(c, rep, base, limit, offset, len);
        bit := GetBit(LenCoderAt(rep) + base + len);
        len := 2 * len + Bits.Bit(bit);
        if len >= limit { break; }
      }
      len := len - limit + offset;
    }

    /** A length under one of the two length coders. */
    method GetLength(rep: bool) returns (len: nat)
      requires Valid() && p == LenChoice(rep)
      modifies this`d, this`p, this`a, probs
      ensures Valid() && p == AfterLen(rep, len) && a == old(a).(len := len) && len < 272
    {
      hide Wanted, Following, Decode, ItemOf, Ready, AfterLen;
      var prob, base, offset, limit := LenCoderAt(rep), LEN_HIGH, 16, 256;
      var bit;
      LenSteps(c, rep);
      bit := GetBit(prob);
      if !bit {
        base, offset, limit := LEN_LOW + 8 * c.posState, 0, 8;
      } else {
        bit := GetBit(prob + 1);
        if !bit {
          base, offset, limit := LEN_MID + 8 * c.posState, 8, 8;
        }
      }
      len := GetLenTree(rep, base, limit, offset);
    }

    method GetSlot(lenState: nat) returns (posSlot: nat)
      requires Valid() && lenState < 4 && p == PosSlot(lenState, 1)
      modifies this`d, this`p, this`a, probs
      ensures Valid() && posSlot < 64 && p == AfterSlot(posSlot) && a == old(a).(slot := posSlot, distance := SlotStart(posSlot))
    {
      hide Wanted, Following, Decode, ItemOf, Ready, AfterSlot, SlotStart;
      var bit;
      posSlot := 1;
      while true
        invariant Valid() && 1 <= posSlot < 64 && p == PosSlot(lenState, posSlot) && a == old(a)
        decreases 64 - posSlot
      {
        SlotStep(c, lenState, posSlot);
        bit := GetBit(POS_SLOT + 64 * lenState + posSlot);
        posSlot := 2 * posSlot + Bits.Bit(bit);
        if posSlot >= 64 { break; }
      }
      posSlot := posSlot - 64;
    }

    /** n direct bits behind the distance so far, and room for four more. */
    method GetStraight(n: nat, distance0: nat) returns (distance: nat)
      requires Valid() && n >= 1 && p == Straight(n) && a.distance == distance0
      modifies this`d, this`p, this`a
      ensures Valid() && p == Align(1, 4) && a == old(a).(distance := distance)
    {
      hide Wanted, Decode, ItemOf, Ready;
      var numDirectBits := n;
      distance := distance0;
      while true
        invariant Valid() && 1 <= numDirectBits && p == Straight(numDirectBits) && a == old(a).(distance := distance)
        decreases numDirectBits
      {
        var bit := GetDirect();
        distance := (2 * distance + Bits.Bit(bit)) % WORD;
        numDirectBits := numDirectBits - 1;
        if numDirectBits == 0 { break; }
      }
      distance := 16 * distance % WORD;
    }

    /** A tree read from the lowest bit: that of a short distance slot, or the four lowest bits of a long distance. */
    method GetReverse(prob: int, n: nat, slot: nat, distance0: nat) returns (distance: nat)
      requires Valid() && 1 <= n && (if slot < 14 then n == slot / 2 - 1 else n == 4) && a.distance == distance0
      requires p == if slot < 14 then Spec(slot, 1, n) else Align(1, n)
      requires if slot < 14 then 4 <= slot && prob == SPEC_POS + SpecBase(slot) else prob == ALIGN
      modifies this`d, this`p, this`a, probs
      ensures Valid() && p == End(Match) && a == old(a).(distance := distance)
    {
      hide Wanted, Following, Decode, ItemOf, Ready, SpecBase;
      var i: nat, numDirectBits, mask, bit := 1, n, 1, false;
      distance := distance0;
      while true
        invariant Valid() && 1 <= numDirectBits <= n && i >= 1 && mask == SpecLow(n - numDirectBits)
        invariant p == if slot < 14 then Spec(slot, i, numDirectBits) else Align(i, numDirectBits)
        invariant a == old(a).(distance := distance)
        decreases numDirectBits
      {
        ReverseStep(c, slot, i, numDirectBits);
        bit := GetBit(prob + i);
        if bit { distance := distance + mask; }
        MaskOn(n, numDirectBits);
        mask := 2 * mask;
        i := 2 * i + Bits.Bit(bit);
        numDirectBits := numDirectBits - 1;
        if numDirectBits == 0 { break; }
      }
    }

    /** A distance slot and the bits that go with it. */
    method GetDistance(lenState: nat) returns (posSlot: nat, distance: nat)
      requires Valid() && lenState < 4 && p == PosSlot(lenState, 1)
      modifies this`d, this`p, this`a, probs
      ensures Valid() && p == End(Match) && a == old(a).(slot := posSlot, distance := distance)
    {
      hide Wanted, Following, Decode, ItemOf, Ready, SpecBase;
      posSlot := GetSlot(lenState);
      distance := posSlot;
      if posSlot < 4 { return; }
      distance := 2 + posSlot % 2;
      if posSlot < 14 {
        distance := distance * SpecLow(posSlot / 2 - 2) * 2;
        distance := GetReverse(SPEC_POS + SpecBase(posSlot), posSlot / 2 - 1, posSlot, distance);
      } else {
        distance := GetStraight(posSlot / 2 - 5, distance);
        distance := GetReverse(ALIGN, 4, posSlot, distance);
      }
    }
  }

  lemma MaskOn(n: nat, left: nat)
    requires 1 <= left <= n <= 5
    ensures left > 1 ==> 2 * SpecLow(n - left) == SpecLow(n - left + 1)
  {
  }
}
