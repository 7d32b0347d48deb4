/**
 * What LZMA symbols mean: the state of a decoder between two symbols, with everything it has written, and
 * what each kind of symbol does to it.
 */
module LzmaCore {
  import opened Bytes
  import opened Residues
  import Bits
  import opened RangeCoder
  import opened LzmaSymbol
  import opened LzmaInputBound

  // ---------------------------------------------------------------- what the bits of a symbol say

  /** The values a symbol's bits build up: a literal, a length less 2, a distance slot and distance, which repeat. */
  datatype Acc = Acc(symbol: nat, len: nat, slot: nat, distance: nat, rep: nat, short: bool)

  const NOTHING: Acc := Acc(1, 0, 0, 0, 0, false)

  /** The distance that a slot begins with. */
  function SlotStart(slot: nat): nat {
    if slot < 4 then slot
    else if slot < 14 then (2 + slot % 2) * SpecLow(slot / 2 - 2) * 2
    else 2 + slot % 2
  }

  function NextAcc(p: Phase, a: Acc, bit: bool): Acc {
    var b := Bits.Bit(bit);
    match p
    case Literal(_, _, _) => a.(symbol := 2 * a.symbol + b)
    case Rep0Long => a.(short := !bit)
    case RepG1 => a.(rep := 1 + b)
    case RepG2 => a.(rep := 2 + b)
    case LenTree(_, _, limit, offset, i) => if 2 * i + b < limit then a else a.(len := 2 * i + b - limit + offset)
    case PosSlot(_, i) => if 2 * i + b < 64 then a else a.(slot := 2 * i + b - 64, distance := SlotStart(2 * i + b - 64))
    case Spec(slot, _, left) => a.(distance := a.distance + b * SpecLow(slot / 2 - 1 - left))
    case Straight(left) =>
      var distance := (2 * a.distance + b) % WORD;
      a.(distance := if left > 1 then distance else 16 * distance % WORD)
    case Align(_, left) => a.(distance := a.distance + b * SpecLow(4 - left))
    case _ => a
  }

  /** The values at the end of the symbol. */
  ghost function ItemOf(c: Context, p: Phase, a: Acc, probs: seq<Prob>, d: Dec, s: seq<Byte>): Acc
    requires Ready(c, p, probs, d)
    decreases Steps(p)
  {
    match Fill(d, s)
    case None => a
    case Some(f) =>
      if p.End? then a
      else
        ReadyNext(c, p, probs, d, s);
        var q := Wanted(c, p);
        var (bit, d2) := Choose(f, q, probs);
        StepsFall(c, p, bit);
        ItemOf(c, Following(c, p, bit), NextAcc(p, a, bit), UpdateProbs(probs, q, bit), d2, s)
  }

  /** One bit of the walk, with the values. */
  lemma ItemOn(c: Context, p: Phase, a: Acc, probs: seq<Prob>, d: Dec, s: seq<Byte>) returns (bit: bool, d2: Dec, next: seq<Prob>)
    requires Ready(c, p, probs, d) && Fill(d, s).Some? && !p.End?
    ensures Normal(Fill(d, s).value.range) && Fill(d, s).value.code < WORD
    ensures Wanted(c, p).Adaptive? ==> Wanted(c, p).ctx < |probs|
    ensures (bit, d2) == Choose(Fill(d, s).value, Wanted(c, p), probs) && next == UpdateProbs(probs, Wanted(c, p), bit)
    ensures Ready(c, Following(c, p, bit), next, d2) && Steps(Following(c, p, bit)) < Steps(p)
    ensures Decode(c, p, probs, d, s, true) == Decode(c, Following(c, p, bit), next, d2, s, true)
    ensures ItemOf(c, p, a, probs, d, s) == ItemOf(c, Following(c, p, bit), NextAcc(p, a, bit), next, d2, s)
  {
    hide Wanted, Following, UpdateProbs, Steps, NextAcc;
    ReadyNext(c, p, probs, d, s);
    bit, d2, next := DecodeOn(c, p, probs, d, s, true);
  }

  /** Bytes after those read make no difference to the values. */
  lemma {:induction false} ItemLonger(c: Context, p: Phase, a: Acc, probs: seq<Prob>, d: Dec, s: seq<Byte>, s2: seq<Byte>)
    requires Ready(c, p, probs, d) && s <= s2 && Decode(c, p, probs, d, s, true).Some?
    ensures ItemOf(c, p, a, probs, d, s) == ItemOf(c, p, a, probs, d, s2)
    decreases Steps(p)
  {
    hide Wanted, Following, Choose, UpdateProbs, Steps, PhaseOk, ContextOk, Decode, NextAcc;
    FillLonger(c, p, probs, d, s, s2, true);
    if !p.End? {
      hide Fill;
      var bit, d2, next := ItemOn(c, p, a, probs, d, s);
      var bit2, d3, next2 := ItemOn(c, p, a, probs, d, s2);
      ItemLonger(c, Following(c, p, bit), NextAcc(p, a, bit), next, d2, s, s2);
    }
  }

  /** An outcome with its place counted from n on. */
  function Back(o: Outcome, n: nat): Outcome
    requires o.dec.pos >= n
  {
    o.(dec := o.dec.(pos := o.dec.pos - n))
  }

  /** The place where the input begins does not matter. */
  lemma {:induction false} WalkOffset(c: Context, p: Phase, a: Acc, probs: seq<Prob>, d: Dec, s: seq<Byte>, n: nat)
    requires Ready(c, p, probs, d) && n <= d.pos <= |s|
    ensures Decode(c, p, probs, d, s, true).None? <==> Decode(c, p, probs, d.(pos := d.pos - n), s[n..], true).None?
    ensures Decode(c, p, probs, d, s, true).Some? ==> Decode(c, p, probs, d, s, true).value.dec.pos >= n
    ensures Decode(c, p, probs, d, s, true).Some? ==>
      Decode(c, p, probs, d.(pos := d.pos - n), s[n..], true) == Some(Back(Decode(c, p, probs, d, s, true).value, n))
    ensures ItemOf(c, p, a, probs, d, s) == ItemOf(c, p, a, probs, d.(pos := d.pos - n), s[n..])
    decreases Steps(p)
  {
    hide Wanted, Following, Choose, UpdateProbs, Steps, PhaseOk, ContextOk, NextAcc, Fill, Decode, ItemOf;
    var e := d.(pos := d.pos - n);
    FillOffset(d, s, n);
    WalkEnds(c, p, a, probs, d, s);
    WalkEnds(c, p, a, probs, e, s[n..]);
    if Fill(d, s).Some? && !p.End? {
      var bit, d2, next := ItemOn(c, p, a, probs, d, s);
      var bit2, e2, next2 := ItemOn(c, p, a, probs, e, s[n..]);
      ChooseOffset(Fill(d, s).value, Wanted(c, p), probs, n);
      WalkOffset(c, Following(c, p, bit), NextAcc(p, a, bit), next, d2, s, n);
    }
  }

  /** The walk when there is no bit to read. */
  lemma WalkEnds(c: Context, p: Phase, a: Acc, probs: seq<Prob>, d: Dec, s: seq<Byte>)
    requires Ready(c, p, probs, d)
    ensures Fill(d, s).None? ==> Decode(c, p, probs, d, s, true).None? && ItemOf(c, p, a, probs, d, s) == a
    ensures Fill(d, s).Some? && p.End? ==>
      Decode(c, p, probs, d, s, true) == Some(Outcome(p.kind, Fill(d, s).value, probs)) && ItemOf(c, p, a, probs, d, s) == a
  {
  }

  lemma FillOffset(d: Dec, s: seq<Byte>, n: nat)
    requires n <= d.pos <= |s|
    ensures Fill(d, s).None? <==> Fill(d.(pos := d.pos - n), s[n..]).None?
    ensures Fill(d, s).Some? ==> n <= Fill(d, s).value.pos <= |s|
    ensures Fill(d, s).Some? ==> Fill(d.(pos := d.pos - n), s[n..]) == Some(Fill(d, s).value.(pos := Fill(d, s).value.pos - n))
  {
  }

  lemma ChooseOffset(d: Dec, q: Request, probs: seq<Prob>, n: nat)
    requires Normal(d.range) && d.code < WORD && (q.Adaptive? ==> q.ctx < |probs|) && n <= d.pos
    ensures Choose(d.(pos := d.pos - n), q, probs).0 == Choose(d, q, probs).0
    ensures Choose(d.(pos := d.pos - n), q, probs).1 == Choose(d, q, probs).1.(pos := d.pos - n)
  {
  }

  /** Nor does it matter whether the last symbol's normalisation was done with that symbol. */
  lemma WalkFilled(c: Context, a: Acc, probs: seq<Prob>, d: Dec, s: seq<Byte>)
    requires Ready(c, IsMatch, probs, d) && Fill(d, s).Some?
    ensures Ready(c, IsMatch, probs, Fill(d, s).value)
    ensures Decode(c, IsMatch, probs, d, s, true) == Decode(c, IsMatch, probs, Fill(d, s).value, s, true)
    ensures ItemOf(c, IsMatch, a, probs, d, s) == ItemOf(c, IsMatch, a, probs, Fill(d, s).value, s)
  {
    hide Wanted, Following, Choose, UpdateProbs, Steps, NextAcc;
    FillTwice(d, s);
    var bit, d2, next := ItemOn(c, IsMatch, a, probs, d, s);
    var bit2, e2, next2 := ItemOn(c, IsMatch, a, probs, Fill(d, s).value, s);
  }

  lemma FillTwice(d: Dec, s: seq<Byte>)
    requires 0x10000 <= d.range < WORD && d.code < WORD && Fill(d, s).Some?
    ensures Normal(Fill(d, s).value.range) && Fill(d, s).value.code < WORD
    ensures Fill(Fill(d, s).value, s) == Fill(d, s)
  {
  }

  predicate OfLength(p: Phase, rep: bool) {
    (p.LenChoice? && p.rep == rep) || (p.LenChoice2? && p.rep == rep) || (p.LenTree? && p.rep == rep)
  }

  /** Phases from which a symbol of that kind comes. */
  predicate Leads(p: Phase, kind: Kind) {
    match kind
    case Lit => p.Literal? || p == End(Lit)
    case Rep => p.RepG0? || p.Rep0Long? || p.RepG1? || p.RepG2? || p == End(Rep) || OfLength(p, true)
    case Match => p.PosSlot? || p.Spec? || p.Straight? || p.Align? || p == End(Match) || OfLength(p, false)
  }

  lemma LeadsOn(c: Context, p: Phase, bit: bool, kind: Kind)
    requires Leads(p, kind)
    ensures Leads(Following(c, p, bit), kind)
  {
    hide SpecLow, SpecBase, MatchBit;
  }

  lemma {:induction false} LeadsTo(c: Context, p: Phase, kind: Kind, probs: seq<Prob>, d: Dec, s: seq<Byte>)
    requires Ready(c, p, probs, d) && Decode(c, p, probs, d, s, true).Some? && Leads(p, kind)
    ensures Decode(c, p, probs, d, s, true).value.kind == kind
    decreases Steps(p)
  {
    hide Wanted, Following, Choose, UpdateProbs, Steps, PhaseOk, ContextOk, Decode;
    DecodeNeedsInput(c, p, probs, d, s, true);
    if p.End? {
      DecodeAtEnd(c, p, probs, d, s, true);
    } else {
      var bit, d2, next := DecodeOn(c, p, probs, d, s, true);
      hide Leads;
      LeadsOn(c, p, bit, kind);
      LeadsTo(c, Following(c, p, bit), kind, next, d2, s);
    }
  }

  // ---------------------------------------------------------------- the state between symbols

  datatype Props = Props(lc: nat, lp: nat, pb: nat, dicSize: nat)

  predicate PropsOk(pr: Props) {
    pr.lc <= 8 && pr.lp <= 4 && pr.pb <= 4 && 4096 <= pr.dicSize < WORD
  }

  /** Probabilities, state, last distances, range coder, everything written so far, and whether the end mark was met. */
  datatype Core = Core(probs: seq<Prob>, state: nat, rep0: nat, rep1: nat, rep2: nat, rep3: nat, range: nat, code: nat,
                       out: seq<Byte>, ended: bool)

  function NumProbs(pr: Props): nat { LITERAL + 768 * Bits.Pow2(pr.lc + pr.lp) }

  /** A distance that bytes are there for: before the first there is only the initial one. */
  predicate RepOk(pr: Props, rep: nat, n: nat) {
    1 <= rep <= pr.dicSize && (rep <= n || rep == 1)
  }

  ghost predicate CoreOk(pr: Props, k: Core) {
    && PropsOk(pr) && |k.probs| == NumProbs(pr) && k.state < 12 && (k.state >= 7 ==> |k.out| > 0)
    && RepOk(pr, k.rep0, |k.out|) && RepOk(pr, k.rep1, |k.out|) && RepOk(pr, k.rep2, |k.out|) && RepOk(pr, k.rep3, |k.out|)
    && Normal(k.range) && k.code < WORD
  }

  /** The coder of the next literal: chosen by low bits of the position and high bits of the byte before. */
  function LiteralAt(pr: Props, n: nat, prev: Byte): nat
    requires pr.lc <= 8
  {
    LITERAL + 768 * (n % Bits.Pow2(pr.lp) * Bits.Pow2(pr.lc) + prev / Bits.Pow2(8 - pr.lc))
  }

  function ContextOf(pr: Props, state: nat, rep0: nat, out: seq<Byte>): Context
    requires pr.lc <= 8
  {
    Context(state, |out| % Bits.Pow2(pr.pb),
            if out == [] then LITERAL else LiteralAt(pr, |out|, out[|out| - 1]),
            if state >= 7 && 1 <= rep0 <= |out| then out[|out| - rep0] else 0)
  }

  lemma ContextIsOk(pr: Props, k: Core)
    requires CoreOk(pr, k)
    ensures ContextOk(ContextOf(pr, k.state, k.rep0, k.out), |k.probs|)
    ensures Ready(ContextOf(pr, k.state, k.rep0, k.out), IsMatch, k.probs, Dec(k.range, k.code, 0))
  {
    PosStates(pr.pb, |k.out|);
    if k.out != [] { LiteralFits(pr, |k.out|, k.out[|k.out| - 1]); } else { LiteralFits(pr, 0, 0); }
    hide LiteralAt, NumProbs, Bits.Pow2;
  }

  lemma PosStates(pb: nat, n: nat)
    requires pb <= 4
    ensures n % Bits.Pow2(pb) < 16
  {
    assert pb == 0 || pb == 1 || pb == 2 || pb == 3 || pb == 4;
  }

  lemma LiteralFits(pr: Props, n: nat, prev: Byte)
    requires PropsOk(pr)
    ensures LITERAL <= LiteralAt(pr, n, prev) && LiteralAt(pr, n, prev) + 768 <= NumProbs(pr)
    ensures LITERAL + 768 <= NumProbs(pr)
  {
    hide Bits.Pow2;
    EightBits(pr.lc);
    Bits.Pow2Add(pr.lc, pr.lp);
    FitsIn(n, Bits.Pow2(pr.lp), Bits.Pow2(pr.lc), Bits.Pow2(8 - pr.lc), prev);
    Blocks(0, Bits.Pow2(pr.lc + pr.lp));
  }

  lemma FitsIn(n: nat, m: nat, y: nat, z: nat, prev: Byte)
    requires m >= 1 && z >= 1 && y * z == 256
    ensures LITERAL <= LITERAL + 768 * (n % m * y + prev / z) && LITERAL + 768 * (n % m * y + prev / z) + 768 <= LITERAL + 768 * (y * m)
  {
    HighBits(prev, y, z);
    TopDown(n % m, m, y, prev / z);
    Blocks(n % m * y + prev / z, y * m);
  }

  lemma Blocks(t: nat, m: nat)
    requires t + 1 <= m
    ensures LITERAL + 768 * t + 768 <= LITERAL + 768 * m
  {
  }

  lemma EightBits(lc: nat)
    requires lc <= 8
    ensures Bits.Pow2(lc) * Bits.Pow2(8 - lc) == 256
  {
    Bits.Pow2Add(lc, 8 - lc);
    assert Bits.Pow2(8) == 256;
  }

  lemma HighBits(v: nat, y: nat, z: nat)
    requires v < 256 == y * z && z >= 1
    ensures v / z < y
  {
    var q, r := v / z, v % z;
    assert v == q * z + r;
    if q >= y { MulLe(y, q, z); }
  }

  lemma TopDown(x: nat, m: nat, y: nat, q: nat)
    requires x < m && q < y
    ensures x * y + q + 1 <= y * m
  {
    MulLe(x + 1, m, y);
    assert (x + 1) * y == x * y + y && m * y == y * m;
  }
}
