/**
 * The bits of one LZMA symbol: which probability, or none, each bit is decoded under, as a walk whose
 * next step depends on the bits so far.  The real decoder adapts probabilities on the way, the dummy
 * one does not; both take the same walk, and no walk reads more than 20 bytes.
 */
module LzmaSymbol {
  import opened Bytes
  import Bits
  import opened RangeCoder

  const IS_MATCH: nat := 0
  const IS_REP: nat := 192
  const IS_REP_G0: nat := 204
  const IS_REP_G1: nat := 216
  const IS_REP_G2: nat := 228
  const IS_REP0_LONG: nat := 240
  const POS_SLOT: nat := 432
  const SPEC_POS: nat := 688
  const ALIGN: nat := 802
  const LEN_CODER: nat := 818
  const REP_LEN_CODER: nat := 1332
  const LITERAL: nat := 1846

  const LEN_LOW: nat := 2
  const LEN_MID: nat := 130
  const LEN_HIGH: nat := 258

  /**
   * What the walk depends on besides the bits: the state, the position modulo 2^pb, the literal coder
   * chosen by position and previous byte, the byte at the last distance, whether any byte came before.
   */
  datatype Context = Context(state: nat, posState: nat, literal: nat, matchByte: nat)

  predicate ContextOk(c: Context, slots: nat) {
    c.state < 12 && c.posState < 16 && LITERAL <= c.literal && c.literal + 768 <= slots && c.matchByte < 256
  }

  datatype Kind = Lit | Match | Rep

  /** Where in the symbol the decoder is. */
  datatype Phase =
    | IsMatch
    | Literal(symbol: nat, offs: nat, matchByte: nat)
    | IsRep | RepG0 | Rep0Long | RepG1 | RepG2
    | LenChoice(rep: bool) | LenChoice2(rep: bool)
    | LenTree(rep: bool, base: nat, limit: nat, offset: nat, i: nat)
    | PosSlot(lenState: nat, i: nat)
    | Spec(slot: nat, i: nat, left: nat)
    | Straight(left: nat)
    | Align(i: nat, left: nat)
    | End(kind: Kind)

  predicate PhaseOk(p: Phase) {
    match p
    case Literal(symbol, offs, mb) => 1 <= symbol < 256 && (offs == 0 || offs == 256) && mb < 0x10000
    case LenTree(_, base, limit, offset, i) =>
      (limit == 8 || limit == 256) && 1 <= i < limit && (offset == 0 || offset == 8 || offset == 16)
      && LEN_LOW <= base && base + limit <= 514
    case PosSlot(lenState, i) => lenState < 4 && 1 <= i < 64
    case Spec(slot, i, left) =>
      4 <= slot < 14 && 1 <= left <= slot / 2 - 1 && SpecLow(slot / 2 - 1 - left) <= i < 2 * SpecLow(slot / 2 - 1 - left)
    case Straight(left) => 1 <= left <= 26
    case Align(i, left) => 1 <= left <= 4 && SpecLow(4 - left) <= i < 2 * SpecLow(4 - left)
    case _ => true
  }

  /** 2^k for the few depths a reverse tree has. */
  function SpecLow(k: int): nat {
    if k <= 0 then 1 else if k == 1 then 2 else if k == 2 then 4 else if k == 3 then 8 else 16
  }

  /** The start of the reverse tree of a distance slot, relative to SPEC_POS. */
  function SpecBase(slot: nat): int {
    (2 + slot % 2) * 2 * SpecLow(slot / 2 - 2) - slot - 1
  }

  /** offs & b and offs & ~b for the literal coder's one-bit masks. */
  function MatchBit(offs: nat, mb: nat): nat {
    if offs == 256 && (mb / 128) % 2 == 1 then 256 else 0
  }

  /** The probability the next bit is decoded under; a direct bit has none. */
  function Wanted(c: Context, p: Phase): Request {
    match p
    case IsMatch => Adaptive(IS_MATCH + 16 * c.state + c.posState)
    case Literal(symbol, offs, mb) => Adaptive(c.literal + offs + MatchBit(offs, mb) + symbol)
    case IsRep => Adaptive(IS_REP + c.state)
    case RepG0 => Adaptive(IS_REP_G0 + c.state)
    case Rep0Long => Adaptive(IS_REP0_LONG + 16 * c.state + c.posState)
    case RepG1 => Adaptive(IS_REP_G1 + c.state)
    case RepG2 => Adaptive(IS_REP_G2 + c.state)
    case LenChoice(rep) => Adaptive(LenCoderAt(rep))
    case LenChoice2(rep) => Adaptive(LenCoderAt(rep) + 1)
    case LenTree(rep, base, _, _, i) => Adaptive(LenCoderAt(rep) + base + i)
    case PosSlot(lenState, i) => Adaptive(POS_SLOT + 64 * lenState + i)
    case Spec(slot, i, _) => if SPEC_POS + SpecBase(slot) + i >= 0 then Adaptive(SPEC_POS + SpecBase(slot) + i) else Direct
    case Straight(_) => Direct
    case Align(i, _) => Adaptive(ALIGN + i)
    case End(_) => Direct
  }

  function LenCoderAt(rep: bool): nat { if rep then REP_LEN_CODER else LEN_CODER }

  /** The phase after the distance slot is known. */
  function AfterSlot(slot: nat): Phase {
    if slot < 4 then End(Match)
    else if slot < 14 then Spec(slot, 1, slot / 2 - 1)
    else Straight(slot / 2 - 5)
  }

  /** The phase after the length is known: matches have a distance, repeats do not. */
  function AfterLen(rep: bool, len: nat): Phase {
    if rep then End(Rep) else PosSlot(if len < 4 then len else 3, 1)
  }

  function Following(c: Context, p: Phase, bit: bool): Phase {
    match p
    case IsMatch =>
      if bit then IsRep else Literal(1, if c.state < 7 then 0 else 256, c.matchByte)
    case Literal(symbol, offs, mb) =>
      var symbol2 := 2 * symbol + Bits.Bit(bit);
      if symbol2 >= 256 then End(Lit)
      else Literal(symbol2, if (MatchBit(offs, mb) == 256) == bit then offs else 0, (2 * mb) % 0x10000)
    case IsRep => if bit then RepG0 else LenChoice(false)
    case RepG0 => if bit then RepG1 else Rep0Long
    case Rep0Long => if bit then LenChoice(true) else End(Rep)
    case RepG1 => if bit then RepG2 else LenChoice(true)
    case RepG2 => LenChoice(true)
    case LenChoice(rep) => if bit then LenChoice2(rep) else LenTree(rep, LEN_LOW + 8 * c.posState, 8, 0, 1)
    case LenChoice2(rep) =>
      if bit then LenTree(rep, LEN_HIGH, 256, 16, 1) else LenTree(rep, LEN_MID + 8 * c.posState, 8, 8, 1)
    case LenTree(rep, base, limit, offset, i) =>
      var i2 := 2 * i + Bits.Bit(bit);
      if i2 < limit then LenTree(rep, base, limit, offset, i2) else AfterLen(rep, i2 - limit + offset)
    case PosSlot(lenState, i) =>
      var i2 := 2 * i + Bits.Bit(bit);
      if i2 < 64 then PosSlot(lenState, i2) else AfterSlot(i2 - 64)
    case Spec(slot, i, left) => if left > 1 then Spec(slot, 2 * i + Bits.Bit(bit), left - 1) else End(Match)
    case Straight(left) => if left > 1 then Straight(left - 1) else Align(1, 4)
    case Align(i, left) => if left > 1 then Align(2 * i + Bits.Bit(bit), left - 1) else End(Match)
    case End(kind) => End(kind)
  }

  lemma FollowingOk(c: Context, p: Phase, bit: bool)
    requires c.posState < 16 && c.matchByte < 256 && PhaseOk(p)
    ensures PhaseOk(Following(c, p, bit))
  {
    match p
    case Literal(_, _, _) => FollowingLiteral(c, p, bit);
    case LenTree(_, _, _, _, _) => FollowingTree(c, p, bit);
    case PosSlot(_, _) => FollowingTree(c, p, bit);
    case Spec(_, _, _) => FollowingSpec(c, p, bit);
    case Align(_, _) => FollowingSpec(c, p, bit);
    case _ => FollowingPlain(c, p, bit);
  }

  lemma FollowingLiteral(c: Context, p: Phase, bit: bool)
    requires PhaseOk(p) && p.Literal?
    ensures PhaseOk(Following(c, p, bit))
  {
    hide MatchBit;
  }

  lemma FollowingTree(c: Context, p: Phase, bit: bool)
    requires PhaseOk(p) && (p.LenTree? || p.PosSlot?)
    ensures PhaseOk(Following(c, p, bit))
  {
  }

  lemma FollowingSpec(c: Context, p: Phase, bit: bool)
    requires PhaseOk(p) && (p.Spec? || p.Align?)
    ensures PhaseOk(Following(c, p, bit))
  {
  }

  lemma FollowingPlain(c: Context, p: Phase, bit: bool)
    requires c.posState < 16 && c.matchByte < 256 && PhaseOk(p)
    requires !p.Literal? && !p.LenTree? && !p.PosSlot? && !p.Spec? && !p.Align?
    ensures PhaseOk(Following(c, p, bit))
  {
  }

  lemma WantedInRange(c: Context, p: Phase, slots: nat)
    requires ContextOk(c, slots) && PhaseOk(p)
    ensures Wanted(c, p).Adaptive? ==> Wanted(c, p).ctx < slots
    ensures Wanted(c, p).Adaptive? <==> !p.Straight? && !p.End?
  {
  }

  // ---------------------------------------------------------------- reading a symbol

  datatype Outcome = Outcome(kind: Kind, dec: Dec, probs: seq<Prob>)

  /** Every phase is nearer the end than the one before. */
  function Steps(p: Phase): nat {
    match p
    case IsMatch => 606
    case IsRep => 605
    case RepG0 => 604
    case Rep0Long => 603
    case RepG1 => 603
    case RepG2 => 602
    case LenChoice(_) => 601
    case LenChoice2(_) => 600
    case LenTree(_, _, limit, _, i) => if i < limit then 150 + limit - i else 150
    case PosSlot(_, i) => if i < 64 then 50 + 64 - i else 50
    case Literal(symbol, _, _) => if symbol < 256 then 1 + 256 - symbol else 1
    case Straight(left) => 5 + left
    case Align(_, left) => left
    case Spec(_, _, left) => left
    case End(_) => 0
  }

  lemma StepsFall(c: Context, p: Phase, bit: bool)
    requires PhaseOk(p) && !p.End?
    ensures Steps(Following(c, p, bit)) < Steps(p)
  {
    hide MatchBit;
    match p
    case Literal(_, _, _) => StepsRead(c, p, bit);
    case LenTree(_, _, _, _, _) => StepsRead(c, p, bit);
    case PosSlot(_, _) => StepsRead(c, p, bit);
    case Spec(_, _, _) => StepsLeft(c, p, bit);
    case Straight(_) => StepsLeft(c, p, bit);
    case Align(_, _) => StepsLeft(c, p, bit);
    case _ =>
  }

  lemma StepsRead(c: Context, p: Phase, bit: bool)
    requires PhaseOk(p) && (p.Literal? || p.LenTree? || p.PosSlot?)
    ensures Steps(Following(c, p, bit)) < Steps(p)
  {
    hide MatchBit;
  }

  lemma StepsLeft(c: Context, p: Phase, bit: bool)
    requires PhaseOk(p) && (p.Spec? || p.Straight? || p.Align?)
    ensures Steps(Following(c, p, bit)) < Steps(p)
  {
    hide SpecLow;
  }

  ghost predicate Ready(c: Context, p: Phase, probs: seq<Prob>, d: Dec) {
    ContextOk(c, |probs|) && PhaseOk(p) && 0x10000 <= d.range < WORD && d.code < WORD
  }

  lemma ReadyNext(c: Context, p: Phase, probs: seq<Prob>, d: Dec, s: seq<Byte>)
    requires Ready(c, p, probs, d) && Fill(d, s).Some? && !p.End?
    ensures Normal(Fill(d, s).value.range) && Fill(d, s).value.code < WORD
    ensures Wanted(c, p).Adaptive? ==> Wanted(c, p).ctx < |probs|
    ensures var b := Choose(Fill(d, s).value, Wanted(c, p), probs);
            Ready(c, Following(c, p, b.0), probs, b.1) && Ready(c, Following(c, p, b.0), UpdateProbs(probs, Wanted(c, p), b.0), b.1)
  {
    WantedInRange(c, p, |probs|);
    hide Wanted, Following;
    var b := Choose(Fill(d, s).value, Wanted(c, p), probs);
    FollowingOk(c, p, b.0);
  }

  /**
   * Decoding from a phase to the end of the symbol and the normalisation after it; none when the input
   * runs out.  Only the real decoder adapts.
   */
  ghost function Decode(c: Context, p: Phase, probs: seq<Prob>, d: Dec, s: seq<Byte>, adapt: bool): (r: Option<Outcome>)
    requires Ready(c, p, probs, d)
    decreases Steps(p)
  {
    match Fill(d, s)
    case None => None
    case Some(f) =>
      if p.End? then Some(Outcome(p.kind, f, probs))
      else
        ReadyNext(c, p, probs, d, s);
        var q := Wanted(c, p);
        var (bit, d2) := Choose(f, q, probs);
        StepsFall(c, p, bit);
        Decode(c, Following(c, p, bit), if adapt then UpdateProbs(probs, q, bit) else probs, d2, s, adapt)
  }

  // ---------------------------------------------------------------- the dummy decoder reads the same

  /** An order in which the walk meets the probabilities: by region, then by place. */
  function Order(c: Context, k: int): int {
    if k < POS_SLOT then k
    else if k < SPEC_POS then 4000 + k
    else if k < LEN_CODER then 4000 + k
    else if k < LITERAL then k
    else 10000 + (k - c.literal) % 256
  }

  function Slot(q: Request): int { if q.Adaptive? then q.ctx else -1 }

  /** Probabilities the walk may still ask for. */
  ghost predicate Ahead(c: Context, p: Phase, k: int) {
    if p.End? then false
    else if p.Straight? then Order(c, k) >= 4000 + ALIGN
    else if p.Literal? then LITERAL <= k && Order(c, k) >= 10000 + p.symbol
    else Order(c, k) >= Order(c, Slot(Wanted(c, p)))
  }

  lemma WantedAhead(c: Context, p: Phase)
    requires c.state < 12 && c.posState < 16 && LITERAL <= c.literal && PhaseOk(p) && Wanted(c, p).Adaptive?
    ensures Ahead(c, p, Wanted(c, p).ctx)
  {
    if p.Literal? { LiteralOrder(c, p.offs + MatchBit(p.offs, p.matchByte), p.symbol); }
  }

  lemma LiteralOrder(c: Context, o: nat, symbol: nat)
    requires (o == 0 || o == 256 || o == 512) && symbol < 256 && LITERAL <= c.literal
    ensures Order(c, c.literal + o + symbol) == 10000 + symbol
  {
  }

  /** What is asked for now is never asked for again, and nothing passed over comes back. */
  lemma AheadShrinks(c: Context, p: Phase, bit: bool, k: int)
    requires c.state < 12 && c.posState < 16 && LITERAL <= c.literal && c.matchByte < 256 && PhaseOk(p) && !p.End?
    requires 0 <= k && Ahead(c, Following(c, p, bit), k)
    ensures Ahead(c, p, k) && Slot(Wanted(c, p)) != k
  {
    if p.Literal? {
      LiteralOrder(c, p.offs + MatchBit(p.offs, p.matchByte), p.symbol);
    } else if p.LenChoice? || p.LenChoice2? {
      LenShrinks(c, p, bit, k);
    } else if p.LenTree? {
      LenTreeShrinks(c, p, bit, k);
    } else if p.PosSlot? {
      SlotShrinks(c, p, bit, k);
    } else if p.Spec? {
      SpecShrinks(c, p, bit, k);
    } else if p.Straight? || p.Align? {
      AlignShrinks(c, p, bit, k);
    } else {
      StartShrinks(c, p, bit, k);
    }
  }

  lemma LenShrinks(c: Context, p: Phase, bit: bool, k: int)
    requires c.state < 12 && c.posState < 16 && LITERAL <= c.literal && PhaseOk(p) && (p.LenChoice? || p.LenChoice2?)
    requires 0 <= k && Ahead(c, Following(c, p, bit), k)
    ensures Ahead(c, p, k) && Slot(Wanted(c, p)) != k
  {
    hide SpecBase, SpecLow, MatchBit;
  }

  lemma LenTreeShrinks(c: Context, p: Phase, bit: bool, k: int)
    requires c.state < 12 && c.posState < 16 && LITERAL <= c.literal && PhaseOk(p) && p.LenTree?
    requires 0 <= k && Ahead(c, Following(c, p, bit), k)
    ensures Ahead(c, p, k) && Slot(Wanted(c, p)) != k
  {
    hide SpecBase, SpecLow, MatchBit;
  }

  lemma SpecBaseRange(slot: nat)
    requires 4 <= slot < 14
    ensures -1 <= SpecBase(slot) <= 82
  {
  }

  lemma SlotShrinks(c: Context, p: Phase, bit: bool, k: int)
    requires c.state < 12 && c.posState < 16 && LITERAL <= c.literal && PhaseOk(p) && p.PosSlot?
    requires 0 <= k && Ahead(c, Following(c, p, bit), k)
    ensures Ahead(c, p, k) && Slot(Wanted(c, p)) != k
  {
    var i2 := 2 * p.i + Bits.Bit(bit);
    if 68 <= i2 < 78 { SpecBaseRange(i2 - 64); }
    hide SpecBase, SpecLow, MatchBit;
  }

  lemma SpecShrinks(c: Context, p: Phase, bit: bool, k: int)
    requires c.state < 12 && c.posState < 16 && LITERAL <= c.literal && PhaseOk(p) && p.Spec?
    requires 0 <= k && Ahead(c, Following(c, p, bit), k)
    ensures Ahead(c, p, k) && Slot(Wanted(c, p)) != k
  {
    SpecBaseRange(p.slot);
    hide SpecBase, SpecLow, MatchBit;
  }

  lemma AlignShrinks(c: Context, p: Phase, bit: bool, k: int)
    requires c.state < 12 && c.posState < 16 && LITERAL <= c.literal && PhaseOk(p) && (p.Straight? || p.Align?)
    requires 0 <= k && Ahead(c, Following(c, p, bit), k)
    ensures Ahead(c, p, k) && Slot(Wanted(c, p)) != k
  {
    hide SpecBase, MatchBit;
  }

  lemma StartShrinks(c: Context, p: Phase, bit: bool, k: int)
    requires c.state < 12 && c.posState < 16 && LITERAL <= c.literal && c.matchByte < 256 && PhaseOk(p)
    requires p.IsMatch? || p.IsRep? || p.RepG0? || p.Rep0Long? || p.RepG1? || p.RepG2?
    requires 0 <= k && Ahead(c, Following(c, p, bit), k)
    ensures Ahead(c, p, k) && Slot(Wanted(c, p)) != k
  {
  }

  /** Probability tables that agree wherever the walk may still look. */
  ghost predicate AgreeAhead(c: Context, p: Phase, a: seq<Prob>, b: seq<Prob>) {
    |a| == |b| && forall k :: 0 <= k < |a| && Ahead(c, p, k) ==> a[k] == b[k]
  }

  lemma AgreeNext(c: Context, p: Phase, bit: bool, a: seq<Prob>, b: seq<Prob>)
    requires ContextOk(c, |a|) && PhaseOk(p) && !p.End? && AgreeAhead(c, p, a, b)
    requires Wanted(c, p).Adaptive? ==> Wanted(c, p).ctx < |a|
    ensures AgreeAhead(c, Following(c, p, bit), UpdateProbs(a, Wanted(c, p), bit), b)
    ensures Wanted(c, p).Adaptive? ==> a[Wanted(c, p).ctx] == b[Wanted(c, p).ctx]
  {
    hide Ahead, Wanted, Following, UpdateProb;
    if Wanted(c, p).Adaptive? { WantedAhead(c, p); }
    forall k | 0 <= k < |a| && Ahead(c, Following(c, p, bit), k)
      ensures UpdateProbs(a, Wanted(c, p), bit)[k] == b[k]
    {
      AheadShrinks(c, p, bit, k);
    }
  }

  lemma ChooseSame(d: Dec, q: Request, a: seq<Prob>, b: seq<Prob>)
    requires Normal(d.range) && d.code < WORD && |a| == |b|
    requires q.Adaptive? ==> q.ctx < |a| && a[q.ctx] == b[q.ctx]
    ensures Choose(d, q, a) == Choose(d, q, b)
  {
  }

  /** The dummy decoder runs out of input exactly when the real one does, and ends in the same place. */
  lemma {:induction false} DummyAgrees(c: Context, p: Phase, a: seq<Prob>, b: seq<Prob>, d: Dec, s: seq<Byte>)
    requires Ready(c, p, a, d) && Ready(c, p, b, d) && AgreeAhead(c, p, a, b)
    ensures Decode(c, p, a, d, s, true).None? <==> Decode(c, p, b, d, s, false).None?
    ensures Decode(c, p, a, d, s, true).Some? ==>
      Decode(c, p, a, d, s, true).value.dec == Decode(c, p, b, d, s, false).value.dec
      && Decode(c, p, a, d, s, true).value.kind == Decode(c, p, b, d, s, false).value.kind
    decreases Steps(p)
  {
    hide Wanted, Following, Ahead, Choose, UpdateProbs, AgreeAhead, Steps;
    if Fill(d, s).Some? && !p.End? {
      var f, q := Fill(d, s).value, Wanted(c, p);
      ReadyNext(c, p, a, d, s);
      ReadyNext(c, p, b, d, s);
      AgreeSize(c, p, a, b);
      var bit, d2 := Choose(f, q, a).0, Choose(f, q, a).1;
      AgreeNext(c, p, bit, a, b);
      ChooseSame(f, q, a, b);
      StepsFall(c, p, bit);
      DummyAgrees(c, Following(c, p, bit), UpdateProbs(a, q, bit), b, d2, s);
    }
  }

  lemma AgreeSize(c: Context, p: Phase, a: seq<Prob>, b: seq<Prob>)
    requires AgreeAhead(c, p, a, b)
    ensures |a| == |b|
  {
  }
}
