/** The trial decoder: it walks through one symbol with probabilities as they are and changes nothing. */
module LzmaDummy {
  import opened Bytes
  import Bits
  import opened RangeCoder
  import opened LzmaSymbol

  /** The range, the code and the place in the input that the trial keeps to itself. */
  class Trial {
    const c: Context
    const probs: seq<Prob>
    const s: seq<Byte>
    var d: Dec
    ghost var p: Phase
    ghost const goal: Option<Outcome>

    ghost predicate Valid()
      reads this
    {
      Ready(c, p, probs, d) && goal == Decode(c, p, probs, d, s, false)
    }

    constructor (c: Context, probs: seq<Prob>, d: Dec, s: seq<Byte>)
      requires Ready(c, IsMatch, probs, d)
      ensures Valid() && p == IsMatch && this.c == c && this.probs == probs && this.s == s
      ensures goal == Decode(c, IsMatch, probs, d, s, false)
    {
      this.c, this.probs, this.s, this.d, p := c, probs, s, d, IsMatch;
      goal := Decode(c, IsMatch, probs, d, s, false);
    }

    /** One bit under probability k; not ok when the input has run out. */
    method CheckBit(k: nat) returns (ok: bool, bit: bool)
      requires Valid() && !p.End? && Wanted(c, p) == Adaptive(k)
      modifies this`d, this`p
      ensures ok ==> Valid() && p == Following(c, old(p), bit)
      ensures !ok ==> goal.None?
    {
      hide Wanted, Following, PhaseOk, ContextOk;
      var f := Fill(d, s);
      if f.None? { return false, false; }
      ReadyNext(c, p, probs, d, s);
      bit := Choose(f.value, Adaptive(k), probs).0;
      d, p := Choose(f.value, Adaptive(k), probs).1, Following(c, p, bit);
      ok := true;
    }

    /** One bit without a probability. */
    method CheckDirect() returns (ok: bool)
      requires Valid() && p.Straight?
      modifies this`d, this`p
      ensures ok ==> Valid() && p == (if old(p).left > 1 then Straight(old(p).left - 1) else Align(1, 4))
      ensures !ok ==> goal.None?
    {
      hide PhaseOk, ContextOk;
      var f := Fill(d, s);
      if f.None? { return false; }
      ReadyNext(c, p, probs, d, s);
      var bit := Choose(f.value, Direct, probs).0;
      d, p := Choose(f.value, Direct, probs).1, Following(c, p, bit);
      ok := true;
    }

    /** The normalisation after the symbol. */
    method Finish(kind: Kind) returns (r: Option<Kind>)
      requires Valid() && p == End(kind)
      ensures r == (if goal.None? then None else Some(goal.value.kind))
    {
      r := if Fill(d, s).None? then None else Some(kind);
    }

    /** Which of the last distances is repeated; short says that it is for one byte only. */
    method TryRep() returns (ok: bool, short: bool)
      requires Valid() && p == RepG0
      modifies this`d, this`p
      ensures ok ==> Valid() && p == (if short then End(Rep) else LenChoice(true))
      ensures !ok ==> goal.None?
    {
      hide Wanted, Following, Decode, PhaseOk, ContextOk;
      StartSteps(c);
      var bit;
      short := false;
      ok, bit := CheckBit(IS_REP_G0 + c.state);
      if !ok { return; }
      if !bit {
        ok, bit := CheckBit(IS_REP0_LONG + 16 * c.state + c.posState);
        short := !bit;
      } else {
        ok, bit := CheckBit(IS_REP_G1 + c.state);
        if !ok { return; }
        if bit {
          ok, bit := CheckBit(IS_REP_G2 + c.state);
        }
      }
    }

    /** A literal, with or without the byte at the last distance to go by. */
    method TryLiteral() returns (ok: bool)
      requires Valid() && p == Literal(1, if c.state < 7 then 0 else 256, c.matchByte)
      modifies this`d, this`p
      ensures ok ==> Valid() && p == End(Lit)
      ensures !ok ==> goal.None?
    {
      var symbol, bit := 1, false;
      if c.state < 7 {
        ghost var mb := c.matchByte;
        while symbol < 0x100
          invariant Valid() && symbol >= 1 && p == (if symbol < 256 then Literal(symbol, 0, mb) else End(Lit))
          decreases 256 - symbol
        {
          ok, bit := CheckBit(c.literal + symbol);
          if !ok { return; }
          symbol := 2 * symbol + Bits.Bit(bit);
          mb := (2 * mb) % 0x10000;
        }
      } else {
        var matchByte, offs := c.matchByte, 0x100;
        while symbol < 0x100
          invariant Valid() && symbol >= 1 && p == (if symbol < 256 then Literal(symbol, offs, matchByte) else End(Lit))
          invariant (offs == 0 || offs == 256) && matchByte >= 0
          decreases 256 - symbol
        {
          var b := MatchBit(offs, matchByte);
          ok, bit := CheckBit(c.literal + offs + b + symbol);
          if !ok { return; }
          symbol := 2 * symbol + Bits.Bit(bit);
          offs := if bit == (b != 0) then offs else 0;
          matchByte := (2 * matchByte) % 0x10000;
        }
      }
      ok := true;
    }

    /** The leaf of a length tree. */
    method TryLenTree(rep: bool, base: nat, limit: nat, offset: nat) returns (ok: bool, len: nat)
      requires Valid() && p == LenTree(rep, base, limit, offset, 1) && limit > 1
      modifies this`d, this`p
      ensures ok ==> Valid() && p == AfterLen(rep, len)
      ensures !ok ==> goal.None?
    {
      hide Wanted, Following, Decode, PhaseOk, ContextOk, AfterLen;
      var bit;
      len := 1;
      while true
        invariant Valid() && 1 <= len < limit && p == LenTree(rep, base, limit, offset, len)
        decreases limit - len
      {
        LenTreeStep(c, rep, base, limit, offset, len);
        ok, bit := CheckBit(LenCoderAt(rep) + base + len);
        if !ok { return; }
        len := 2 * len + Bits.Bit(bit);
        if len >= limit { break; }
      }
      len := len - limit + offset;
    }

    /** A length under one of the two length coders; its phase afterwards is that of what follows it. */
    method TryLength(rep: bool) returns (ok: bool, len: nat)
      requires Valid() && p == LenChoice(rep)
      modifies this`d, this`p
      ensures ok ==> Valid() && p == AfterLen(rep, len)
      ensures !ok ==> goal.None?
    {
      hide Wanted, Following, Decode, PhaseOk, ContextOk, AfterLen;
      var prob, base, offset, limit := LenCoderAt(rep), LEN_HIGH, 16, 256;
      var bit;
      LenSteps(c, rep);
      len := 0;
      ok, bit := CheckBit(prob);
      if !ok { return; }
      if !bit {
        base, offset, limit := LEN_LOW + 8 * c.posState, 0, 8;
      } else {
        ok, bit := CheckBit(prob + 1);
        if !ok { return; }
        if !bit {
          base, offset, limit := LEN_MID + 8 * c.posState, 8, 8;
        }
      }
      ok, len := TryLenTree(rep, base, limit, offset);
    }

    method TrySlot(lenState: nat) returns (ok: bool, posSlot: nat)
      requires Valid() && lenState < 4 && p == PosSlot(lenState, 1)
      modifies this`d, this`p
      ensures ok ==> Valid() && posSlot < 64 && p == AfterSlot(posSlot)
      ensures !ok ==> goal.None?
    {
      hide Wanted, Following, Decode, PhaseOk, ContextOk, AfterSlot;
      var bit;
      posSlot := 1;
      while true
        invariant Valid() && 1 <= posSlot < 64 && p == PosSlot(lenState, posSlot)
        decreases 64 - posSlot
      {
        SlotStep(c, lenState, posSlot);
        ok, bit := CheckBit(POS_SLOT + 64 * lenState + posSlot);
        if !ok { return; }
        posSlot := 2 * posSlot + Bits.Bit(bit);
        if posSlot >= 64 { break; }
      }
      posSlot := posSlot - 64;
    }

    method TryStraight(n: nat) returns (ok: bool)
      requires Valid() && n >= 1 && p == Straight(n)
      modifies this`d, this`p
      ensures ok ==> Valid() && p == Align(1, 4)
      ensures !ok ==> goal.None?
    {
      hide Wanted, Following, Decode, PhaseOk, ContextOk;
      var numDirectBits := n;
      while true
        invariant Valid() && 1 <= numDirectBits && p == Straight(numDirectBits)
        decreases numDirectBits
      {
        ok := CheckDirect();
        if !ok { return; }
        numDirectBits := numDirectBits - 1;
        if numDirectBits == 0 { break; }
      }
    }

    /** A tree read from the lowest bit: that of a short distance slot, or the four lowest bits of a long distance. */
    method TryReverse(prob: int, n: nat, slot: nat) returns (ok: bool)
      requires Valid() && n >= 1 && p == (if slot < 14 then Spec(slot, 1, n) else Align(1, n))
      requires if slot < 14 then 4 <= slot && prob == SPEC_POS + SpecBase(slot) else prob == ALIGN
      modifies this`d, this`p
      ensures ok ==> Valid() && p == End(Match)
      ensures !ok ==> goal.None?
    {
      hide Wanted, Following, Decode, PhaseOk, ContextOk, SpecBase;
      var i: nat, numDirectBits, bit := 1, n, false;
      while true
        invariant Valid() && numDirectBits >= 1 && i >= 1
        invariant p == if slot < 14 then Spec(slot, i, numDirectBits) else Align(i, numDirectBits)
        decreases numDirectBits
      {
        ReverseStep(c, slot, i, numDirectBits);
        ok, bit := CheckBit(prob + i);
        if !ok { return; }
        i := 2 * i + Bits.Bit(bit);
        numDirectBits := numDirectBits - 1;
        if numDirectBits == 0 { break; }
      }
    }

    /** A distance slot and the bits that go with it. */
    method TryDistance(lenState: nat) returns (ok: bool)
      requires Valid() && lenState < 4 && p == PosSlot(lenState, 1)
      modifies this`d, this`p
      ensures ok ==> Valid() && p == End(Match)
      ensures !ok ==> goal.None?
    {
      hide Wanted, Following, Decode, PhaseOk, ContextOk, SpecBase;
      var posSlot;
      ok, posSlot := TrySlot(lenState);
      if !ok || posSlot < 4 { return; }
      if posSlot < 14 {
        ok := TryReverse(SPEC_POS + SpecBase(posSlot), posSlot / 2 - 1, posSlot);
      } else {
        ok := TryStraight(posSlot / 2 - 5);
        if !ok { return; }
        ok := TryReverse(ALIGN, 4, posSlot);
      }
    }
  }

  lemma LenTreeStep(c: Context, rep: bool, base: nat, limit: nat, offset: nat, i: nat)
    ensures Wanted(c, LenTree(rep, base, limit, offset, i)) == Adaptive(LenCoderAt(rep) + base + i)
    ensures forall b :: 2 * i + Bits.Bit(b) < limit ==>
      Following(c, LenTree(rep, base, limit, offset, i), b) == LenTree(rep, base, limit, offset, 2 * i + Bits.Bit(b))
    ensures forall b :: 2 * i + Bits.Bit(b) >= limit ==>
      Following(c, LenTree(rep, base, limit, offset, i), b) == AfterLen(rep, 2 * i + Bits.Bit(b) - limit + offset)
  {
  }

  lemma LenSteps(c: Context, rep: bool)
    ensures Wanted(c, LenChoice(rep)) == Adaptive(LenCoderAt(rep)) && Wanted(c, LenChoice2(rep)) == Adaptive(LenCoderAt(rep) + 1)
    ensures Following(c, LenChoice(rep), true) == LenChoice2(rep)
    ensures Following(c, LenChoice(rep), false) == LenTree(rep, LEN_LOW + 8 * c.posState, 8, 0, 1)
    ensures Following(c, LenChoice2(rep), true) == LenTree(rep, LEN_HIGH, 256, 16, 1)
    ensures Following(c, LenChoice2(rep), false) == LenTree(rep, LEN_MID + 8 * c.posState, 8, 8, 1)
  {
  }

  lemma SlotStep(c: Context, lenState: nat, i: nat)
    ensures Wanted(c, PosSlot(lenState, i)) == Adaptive(POS_SLOT + 64 * lenState + i)
    ensures forall b :: 2 * i + Bits.Bit(b) < 64 ==> Following(c, PosSlot(lenState, i), b) == PosSlot(lenState, 2 * i + Bits.Bit(b))
    ensures forall b :: 2 * i + Bits.Bit(b) >= 64 ==> Following(c, PosSlot(lenState, i), b) == AfterSlot(2 * i + Bits.Bit(b) - 64)
  {
  }

  lemma ReverseStep(c: Context, slot: nat, i: nat, left: nat)
    requires i >= 1
    ensures 4 <= slot < 14 ==> SPEC_POS + SpecBase(slot) + i >= 0
    ensures 4 <= slot < 14 ==> Wanted(c, Spec(slot, i, left)) == Adaptive(SPEC_POS + SpecBase(slot) + i)
    ensures Wanted(c, Align(i, left)) == Adaptive(ALIGN + i)
    ensures forall b :: Following(c, Spec(slot, i, left), b) == if left > 1 then Spec(slot, 2 * i + Bits.Bit(b), left - 1) else End(Match)
    ensures forall b :: Following(c, Align(i, left), b) == if left > 1 then Align(2 * i + Bits.Bit(b), left - 1) else End(Match)
  {
    if 4 <= slot < 14 { SpecSlot(slot, i); }
    hide SpecBase;
  }

  lemma SpecSlot(slot: nat, i: nat)
    requires 4 <= slot < 14 && i >= 1
    ensures SPEC_POS + SpecBase(slot) + i >= 0
  {
  }

  /** The trial of one symbol: none exactly when the real decoder would run out of input within it. */
  method TryDummy(c: Context, probs: seq<Prob>, range: nat, code: nat, buf: seq<Byte>) returns (r: Option<Kind>)
    requires ContextOk(c, |probs|) && Normal(range) && code < WORD
    ensures r.None? <==> Decode(c, IsMatch, probs, Dec(range, code, 0), buf, true).None?
    ensures r.Some? ==> r.value == Decode(c, IsMatch, probs, Dec(range, code, 0), buf, true).value.kind
  {
    DummyAgrees(c, IsMatch, probs, probs, Dec(range, code, 0), buf);
    hide Decode, Wanted, Following, PhaseOk;
    ReadyAtStart(c, probs, Dec(range, code, 0));
    StartSteps(c);
    var t := new Trial(c, probs, Dec(range, code, 0), buf);
    var ok, bit := t.CheckBit(IS_MATCH + 16 * c.state + c.posState);
    if !ok { return None; }
    if !bit {
      ok := t.TryLiteral();
      if !ok { return None; }
      r := t.Finish(Lit);
      return;
    }
    ok, bit := t.CheckBit(IS_REP + c.state);
    if !ok { return None; }
    var rep := bit;
    if rep {
      var short;
      ok, short := t.TryRep();
      if !ok { return None; }
      if short {
        r := t.Finish(Rep);
        return;
      }
    }
    var len;
    ok, len := t.TryLength(rep);
    if !ok { return None; }
    if !rep {
      ok := t.TryDistance(if len < 4 then len else 3);
      if !ok { return None; }
    }
    r := t.Finish(if rep then Rep else Match);
  }

  lemma ReadyAtStart(c: Context, probs: seq<Prob>, d: Dec)
    requires ContextOk(c, |probs|) && Normal(d.range) && d.code < WORD
    ensures Ready(c, IsMatch, probs, d)
  {
  }

  lemma StartSteps(c: Context)
    ensures Wanted(c, IsMatch) == Adaptive(IS_MATCH + 16 * c.state + c.posState) && Wanted(c, IsRep) == Adaptive(IS_REP + c.state)
    ensures Wanted(c, RepG0) == Adaptive(IS_REP_G0 + c.state) && Wanted(c, RepG1) == Adaptive(IS_REP_G1 + c.state)
    ensures Wanted(c, RepG2) == Adaptive(IS_REP_G2 + c.state)
    ensures Wanted(c, Rep0Long) == Adaptive(IS_REP0_LONG + 16 * c.state + c.posState)
    ensures Following(c, IsMatch, true) == IsRep
    ensures Following(c, IsMatch, false) == Literal(1, if c.state < 7 then 0 else 256, c.matchByte)
    ensures Following(c, IsRep, true) == RepG0 && Following(c, IsRep, false) == LenChoice(false)
    ensures Following(c, RepG0, true) == RepG1 && Following(c, RepG0, false) == Rep0Long
    ensures Following(c, Rep0Long, true) == LenChoice(true) && Following(c, Rep0Long, false) == End(Rep)
    ensures Following(c, RepG1, true) == RepG2 && Following(c, RepG1, false) == LenChoice(true)
    ensures forall b :: Following(c, RepG2, b) == LenChoice(true)
  {
  }
}
