/**
 * No symbol takes more than 20 bytes: an adaptive bit divides the range by less than 67, a direct bit
 * by at most 2.01, and the costliest walk has 22 of the one and 26 of the other.
 */
module LzmaInputBound {
  import opened Bytes
  import Bits
  import opened RangeCoder
  import opened LzmaSymbol

  /** How much so many adaptive and direct bits can divide the range. */
  function Cost(adaptive: nat, direct: nat): (c: real)
    ensures c >= 1.0
  {
    if adaptive > 0 then 67.0 * Cost(adaptive - 1, direct)
    else if direct > 0 then 2.01 * Cost(0, direct - 1)
    else 1.0
  }

  lemma CostAdaptive(adaptive: nat, direct: nat)
    ensures Cost(adaptive + 1, direct) == 67.0 * Cost(adaptive, direct)
  {
  }

  lemma {:induction false} CostDirect(adaptive: nat, direct: nat)
    ensures Cost(adaptive, direct + 1) == 2.01 * Cost(adaptive, direct)
  {
    if adaptive > 0 { CostDirect(adaptive - 1, direct); }
  }

  lemma {:induction false} CostGrows(a: nat, b: nat, direct: nat)
    requires a <= b
    ensures Cost(a, direct) <= Cost(b, direct)
    decreases b
  {
    hide Cost;
    if a < b {
      CostGrows(a, b - 1, direct);
      CostAdaptive(b - 1, direct);
    }
  }

  lemma {:induction false} CostGrowsDirect(adaptive: nat, a: nat, b: nat)
    requires a <= b
    ensures Cost(adaptive, a) <= Cost(adaptive, b)
    decreases b
  {
    hide Cost;
    if a < b {
      CostGrowsDirect(adaptive, a, b - 1);
      CostDirect(adaptive, b - 1);
    }
  }

  /** One adaptive bit more is less than seven direct bits. */
  lemma CostTrade(a: nat)
    ensures Cost(a + 1, 0) <= Cost(a, 26)
  {
    hide Cost;
    CostAdaptive(a, 0);
    CostDirect(a, 0);
    CostDirect(a, 1);
    CostDirect(a, 2);
    CostDirect(a, 3);
    CostDirect(a, 4);
    CostDirect(a, 5);
    CostDirect(a, 6);
    CostGrowsDirect(a, 7, 26);
  }

  lemma {:induction false} CostApart(a: nat, d: nat)
    ensures Cost(a, d) == Cost(a, 0) * Cost(0, d)
  {
    if a > 0 {
      CostApart(a - 1, d);
      assert 67.0 * (Cost(a - 1, 0) * Cost(0, d)) == 67.0 * Cost(a - 1, 0) * Cost(0, d);
    }
  }

  /** 22 adaptive and 26 direct bits stay below 160 bits of range. */
  lemma WorstCost()
    ensures Cost(22, 26) < Pow256(20) as real
  {
    hide Cost, Pow256;
    CostApart(22, 26);
    Cost67();
    Cost201();
    BigPow();
    assert Cost(22, 0) * Cost(0, 26) <= 14915769363385151583217201855136979828889.0 * 77000000.0;
  }

  lemma Cost67()
    ensures Cost(22, 0) == 14915769363385151583217201855136979828889.0
  {
    hide Cost;
    CostNone();
    CostAdaptive(0, 0); CostAdaptive(1, 0); CostAdaptive(2, 0); CostAdaptive(3, 0); CostAdaptive(4, 0); CostAdaptive(5, 0); CostAdaptive(6, 0); CostAdaptive(7, 0); CostAdaptive(8, 0); CostAdaptive(9, 0); CostAdaptive(10, 0);
    CostAdaptive(11, 0); CostAdaptive(12, 0); CostAdaptive(13, 0); CostAdaptive(14, 0); CostAdaptive(15, 0); CostAdaptive(16, 0); CostAdaptive(17, 0); CostAdaptive(18, 0); CostAdaptive(19, 0); CostAdaptive(20, 0); CostAdaptive(21, 0);
  }

  lemma Cost201()
    ensures Cost(0, 26) <= 77000000.0
  {
    hide Cost;
    CostNone();
    CostDirect(0, 0); CostDirect(0, 1); CostDirect(0, 2); CostDirect(0, 3); CostDirect(0, 4); CostDirect(0, 5); CostDirect(0, 6); CostDirect(0, 7); CostDirect(0, 8); CostDirect(0, 9); CostDirect(0, 10); CostDirect(0, 11); CostDirect(0, 12);
    CostDirect(0, 13); CostDirect(0, 14); CostDirect(0, 15); CostDirect(0, 16); CostDirect(0, 17); CostDirect(0, 18); CostDirect(0, 19); CostDirect(0, 20); CostDirect(0, 21); CostDirect(0, 22); CostDirect(0, 23); CostDirect(0, 24); CostDirect(0, 25);
  }

  lemma CostNone()
    ensures Cost(0, 0) == 1.0
  {
  }

  lemma BigPow()
    ensures Pow256(20) == 0x1_0000000000_0000000000_0000000000_0000000000
  {
    assert Pow256(10) == 0x1_0000000000_0000000000;
  }

  // ---------------------------------------------------------------- the walk of a symbol

  /** Bits still to come in a tree below node i. */
  function Depth(i: nat, limit: nat): (n: nat)
    decreases limit - i
  {
    if i == 0 || i >= limit then 0 else 1 + Depth(2 * i, limit)
  }

  lemma {:induction false} DepthFalls(i: nat, j: nat, limit: nat)
    requires 1 <= i <= j
    ensures Depth(j, limit) <= Depth(i, limit)
    decreases limit - i
  {
    if i < limit && j < limit { DepthFalls(2 * i, 2 * j, limit); }
  }

  lemma TreeDepths()
    ensures Depth(1, 8) == 3 && Depth(1, 64) == 6 && Depth(1, 256) == 8
  {
    assert Depth(8, 8) == 0 && Depth(4, 8) == 1 && Depth(2, 8) == 2;
    assert Depth(64, 64) == 0 && Depth(32, 64) == 1 && Depth(16, 64) == 2 && Depth(8, 64) == 3 && Depth(4, 64) == 4;
    assert Depth(256, 256) == 0 && Depth(128, 256) == 1 && Depth(64, 256) == 2 && Depth(32, 256) == 3;
    assert Depth(16, 256) == 4 && Depth(8, 256) == 5 && Depth(4, 256) == 6;
  }

  /** Adaptive bits a distance may still take at most, besides 26 direct ones. */
  function Adaptives(p: Phase): nat {
    match p
    case IsMatch => 22
    case IsRep => 21
    case LenChoice(rep) => if rep then 10 else 20
    case LenChoice2(rep) => if rep then 9 else 19
    case LenTree(rep, _, limit, _, i) => Depth(i, limit) + (if rep then 0 else 10)
    case RepG0 => 13
    case Rep0Long => 11
    case RepG1 => 12
    case RepG2 => 11
    case PosSlot(_, i) => Depth(i, 64) + 4
    case Spec(_, _, left) => left
    case Straight(_) => 4
    case Align(_, left) => left
    case Literal(symbol, _, _) => Depth(symbol, 256)
    case End(_) => 0
  }

  function Directs(p: Phase): nat {
    match p
    case IsMatch => 26
    case IsRep => 26
    case LenChoice(rep) => if rep then 0 else 26
    case LenChoice2(rep) => if rep then 0 else 26
    case LenTree(rep, _, _, _, _) => if rep then 0 else 26
    case PosSlot(_, _) => 26
    case Straight(left) => left
    case _ => 0
  }

  function CostOf(p: Phase): real { Cost(Adaptives(p), Directs(p)) }

  lemma CostWider(a: nat, d: nat, a2: nat, d2: nat)
    requires a <= a2 && d <= d2
    ensures Cost(a, d) <= Cost(a2, d2)
  {
    CostGrows(a, a2, d);
    CostGrowsDirect(a2, d, d2);
  }

  lemma DepthStep(i: nat, b: nat, limit: nat)
    requires 1 <= i < limit && b <= 1
    ensures Depth(2 * i + b, limit) < Depth(i, limit)
  {
    DepthFalls(2 * i, 2 * i + b, limit);
  }

  /** Adaptive bits get fewer; only a distance slot may have five more to come instead of direct ones. */
  ghost predicate Falls(p: Phase, q: Phase) {
    && Adaptives(p) >= 1
    && ((Adaptives(q) < Adaptives(p) && Directs(q) <= Directs(p)) || (p.PosSlot? && q.Spec? && Adaptives(q) <= 5 <= Adaptives(p)))
  }

  lemma LenTreeFalls(c: Context, p: Phase, bit: bool)
    requires PhaseOk(p) && p.LenTree?
    ensures Falls(p, Following(c, p, bit))
  {
    TreeDepths();
    DepthStep(p.i, Bits.Bit(bit), p.limit);
    hide Depth, SpecLow, SpecBase, MatchBit;
  }

  lemma PosSlotFalls(c: Context, p: Phase, bit: bool)
    requires PhaseOk(p) && p.PosSlot?
    ensures Falls(p, Following(c, p, bit))
  {
    DepthStep(p.i, Bits.Bit(bit), 64);
    hide Depth, SpecLow, SpecBase, MatchBit;
  }

  lemma LiteralFalls(c: Context, p: Phase, bit: bool)
    requires PhaseOk(p) && p.Literal?
    ensures Falls(p, Following(c, p, bit))
  {
    DepthStep(p.symbol, Bits.Bit(bit), 256);
    hide Depth, SpecLow, SpecBase, MatchBit;
  }

  lemma AdaptivesFall(c: Context, p: Phase, bit: bool)
    requires PhaseOk(p) && !p.End? && !p.Straight?
    ensures Falls(p, Following(c, p, bit))
  {
    hide Depth, SpecLow, SpecBase, MatchBit;
    if p.LenTree? {
      LenTreeFalls(c, p, bit);
    } else if p.PosSlot? {
      PosSlotFalls(c, p, bit);
    } else if p.Literal? {
      LiteralFalls(c, p, bit);
    } else {
      TreeDepths();
    }
  }

  /** Every adaptive bit is paid for by a factor of 67, every direct bit by 2.01. */
  lemma CostPays(c: Context, p: Phase, bit: bool)
    requires PhaseOk(p) && !p.End?
    ensures !p.Straight? ==> 67.0 * CostOf(Following(c, p, bit)) <= CostOf(p)
    ensures p.Straight? ==> 2.01 * CostOf(Following(c, p, bit)) <= CostOf(p)
  {
    hide Cost, Depth;
    var q := Following(c, p, bit);
    if p.Straight? {
      CostDirect(4, p.left - 1);
    } else {
      AdaptivesFall(c, p, bit);
      hide Following, Adaptives, PhaseOk;
      CostAdaptive(Adaptives(p) - 1, Directs(p));
      if Adaptives(q) < Adaptives(p) && Directs(q) <= Directs(p) {
        CostWider(Adaptives(q), Directs(q), Adaptives(p) - 1, Directs(p));
      } else {
        CostWider(Adaptives(q), 0, 5, 0);
        CostTrade(4);
        CostWider(4, 26, Adaptives(p) - 1, 26);
      }
    }
  }

  // ---------------------------------------------------------------- bytes read

  lemma BoundPays(range: nat, u: nat, x: nat, p: Prob)
    requires Normal(range) && u == range / BIT_MODEL_TOTAL && x == u * p
    ensures x <= range && range <= 67 * x && range <= 67 * (range - x)
  {
    TimesMore(u, 31, p);
    TimesMore(u, p, 2017);
  }

  lemma AdaptivePays(d: Dec, ctx: nat, probs: seq<Prob>)
    requires Normal(d.range) && d.code < WORD && ctx < |probs|
    ensures d.range <= 67 * Choose(d, Adaptive(ctx), probs).1.range
  {
    BoundPays(d.range, d.range / BIT_MODEL_TOTAL, d.range / BIT_MODEL_TOTAL * probs[ctx], probs[ctx]);
  }

  lemma DirectPays(d: Dec, probs: seq<Prob>)
    requires Normal(d.range) && d.code < WORD
    ensures 100 * d.range <= 201 * Choose(d, Direct, probs).1.range
  {
  }

  lemma FillPays(d: Dec, s: seq<Byte>)
    requires 0x10000 <= d.range < WORD && Fill(d, s).Some?
    ensures d.pos <= Fill(d, s).value.pos
    ensures Pow256(Fill(d, s).value.pos - d.pos) * d.range == Fill(d, s).value.range
  {
  }

  lemma PayOn(n: nat, n1: nat, r: nat, f: nat, r2: nat, e: nat, k: real, cost: real, cost2: real)
    requires n * r == f && f as real <= k * r2 as real && k * cost2 <= cost && k > 0.0
    requires (n1 * r2) as real <= cost2 * e as real
    ensures ((n * n1) * r) as real <= cost * e as real
  {
    assert (n * n1) * r == n1 * f;
    RealMono(n1 as real, f as real, k * r2 as real);
    assert n1 as real * (k * r2 as real) == k * (n1 as real * r2 as real);
    RealMono(k, (n1 * r2) as real, cost2 * e as real);
    assert k * (cost2 * e as real) == (k * cost2) * e as real;
    RealMono(e as real, k * cost2, cost);
  }

  lemma RealMono(a: real, x: real, y: real)
    requires a >= 0.0 && x <= y
    ensures a * x <= a * y && x * a <= y * a
  {
  }

  /** One bit of the walk, and the rest of it. */
  lemma DecodeOn(c: Context, p: Phase, probs: seq<Prob>, d: Dec, s: seq<Byte>, adapt: bool) returns (bit: bool, d2: Dec, next: seq<Prob>)
    requires Ready(c, p, probs, d) && Fill(d, s).Some? && !p.End?
    ensures Normal(Fill(d, s).value.range) && Fill(d, s).value.code < WORD
    ensures Wanted(c, p).Adaptive? ==> Wanted(c, p).ctx < |probs|
    ensures (bit, d2) == Choose(Fill(d, s).value, Wanted(c, p), probs) && d2.pos == Fill(d, s).value.pos
    ensures Ready(c, Following(c, p, bit), next, d2) && Steps(Following(c, p, bit)) < Steps(p)
    ensures Decode(c, p, probs, d, s, adapt) == Decode(c, Following(c, p, bit), next, d2, s, adapt)
    ensures Wanted(c, p).Adaptive? <==> !p.Straight?
    ensures next == if adapt then UpdateProbs(probs, Wanted(c, p), bit) else probs
  {
    hide Wanted, Following, UpdateProbs, Steps;
    ReadyNext(c, p, probs, d, s);
    var q := Wanted(c, p);
    bit, d2 := Choose(Fill(d, s).value, q, probs).0, Choose(Fill(d, s).value, q, probs).1;
    StepsFall(c, p, bit);
    next := if adapt then UpdateProbs(probs, q, bit) else probs;
    WantedInRange(c, p, |probs|);
  }

  ghost predicate Paid(d: Dec, o: Dec, cost: real) {
    d.pos <= o.pos && o.range < WORD && (Pow256(o.pos - d.pos) * d.range) as real <= cost * o.range as real
  }

  lemma EndPaid(p: Phase, d: Dec, f: Dec)
    requires p.End? && d.pos <= f.pos && f.range < WORD && Pow256(f.pos - d.pos) * d.range == f.range
    ensures Paid(d, f, CostOf(p))
  {
    EndCost(p);
  }

  /** What is read, in powers of 256, is paid for by the range that the bits took away. */
  lemma {:induction false} ReadsPaid(c: Context, p: Phase, probs: seq<Prob>, d: Dec, s: seq<Byte>, adapt: bool)
    requires Ready(c, p, probs, d) && Decode(c, p, probs, d, s, adapt).Some?
    ensures Paid(d, Decode(c, p, probs, d, s, adapt).value.dec, CostOf(p))
    decreases Steps(p)
  {
    hide Wanted, Following, Choose, UpdateProbs, Steps, Cost, CostOf, Pow256, PhaseOk, ContextOk, Decode, Paid;
    DecodeNeedsInput(c, p, probs, d, s, adapt);
    FillPays(d, s);
    var f := Fill(d, s).value;
    if p.End? {
      EndPaid(p, d, f);
    } else {
      var bit, d2, next := DecodeOn(c, p, probs, d, s, adapt);
      ReadsPaid(c, Following(c, p, bit), next, d2, s, adapt);
      var o := Decode(c, p, probs, d, s, adapt).value.dec;
      CostPays(c, p, bit);
      BitPays(c, p, probs, f, d2);
      PayThrough(d, f, d2, o, if p.Straight? then 2.01 else 67.0, CostOf(p), CostOf(Following(c, p, bit)));
    }
  }

  lemma BitPays(c: Context, p: Phase, probs: seq<Prob>, f: Dec, d2: Dec)
    requires Normal(f.range) && f.code < WORD && (Wanted(c, p).Adaptive? <==> !p.Straight?) && !p.End?
    requires Wanted(c, p).Adaptive? ==> Wanted(c, p).ctx < |probs|
    requires d2 == Choose(f, Wanted(c, p), probs).1
    ensures f.range as real <= (if p.Straight? then 2.01 else 67.0) * d2.range as real
  {
    hide Choose, Wanted;
    if p.Straight? {
      DirectPays(f, probs);
      DirectHas(c, p);
    } else {
      AdaptivePays(f, Wanted(c, p).ctx, probs);
    }
  }

  /** What is read before a bit and what is read after it are paid together. */
  lemma PayThrough(d: Dec, f: Dec, d2: Dec, o: Dec, k: real, cost: real, cost2: real)
    requires d.pos <= f.pos == d2.pos && Pow256(f.pos - d.pos) * d.range == f.range && k > 0.0
    requires f.range as real <= k * d2.range as real && k * cost2 <= cost
    requires Paid(d2, o, cost2)
    ensures Paid(d, o, cost)
  {
    hide Pow256;
    Pow256Add(f.pos - d.pos, o.pos - f.pos);
    PayOn(Pow256(f.pos - d.pos), Pow256(o.pos - f.pos), d.range, f.range, d2.range, o.range, k, cost, cost2);
  }

  lemma DirectHas(c: Context, p: Phase)
    requires p.Straight?
    ensures Wanted(c, p) == Direct
  {
  }

  lemma DecodeNeedsInput(c: Context, p: Phase, probs: seq<Prob>, d: Dec, s: seq<Byte>, adapt: bool)
    requires Ready(c, p, probs, d) && Decode(c, p, probs, d, s, adapt).Some?
    ensures Fill(d, s).Some? && Fill(d, s).value.range < WORD
    ensures p.End? ==> Decode(c, p, probs, d, s, adapt).value.dec == Fill(d, s).value
  {
  }

  lemma EndCost(p: Phase)
    requires p.End?
    ensures CostOf(p) == 1.0
  {
  }

  lemma {:induction false} Pow256Add(m: nat, n: nat)
    ensures Pow256(m + n) == Pow256(m) * Pow256(n)
  {
    if m > 0 {
      Pow256Add(m - 1, n);
      assert 256 * (Pow256(m - 1) * Pow256(n)) == 256 * Pow256(m - 1) * Pow256(n);
    }
  }

  lemma {:induction false} Pow256Grows(m: nat, n: nat)
    requires m <= n
    ensures Pow256(m) <= Pow256(n)
    decreases n
  {
    if m < n { Pow256Grows(m, n - 1); }
  }

  /** From a normalised state one symbol, with the normalisation after it, reads at most 20 bytes. */
  lemma TwentyBytes(c: Context, probs: seq<Prob>, d: Dec, s: seq<Byte>, adapt: bool)
    requires Ready(c, IsMatch, probs, d) && Normal(d.range) && Decode(c, IsMatch, probs, d, s, adapt).Some?
    ensures d.pos <= Decode(c, IsMatch, probs, d, s, adapt).value.dec.pos <= d.pos + 20
  {
    hide Decode, Cost, Pow256;
    ReadsPaid(c, IsMatch, probs, d, s, adapt);
    var o := Decode(c, IsMatch, probs, d, s, adapt).value.dec;
    var n := o.pos - d.pos;
    WorstCost();
    if n > 20 {
      Pow256Grows(21, n);
      NextPower(20);
      TooMany(Pow256(n), Pow256(20), d.range, o.range, Cost(22, 26));
      assert false;
    }
  }

  lemma NextPower(n: nat)
    ensures Pow256(n + 1) == 256 * Pow256(n)
  {
  }

  lemma TooMany(p: nat, p20: nat, range: nat, end: nat, cost: real)
    requires p >= 256 * p20 && p20 >= 1 && Normal(range) && end < WORD && 1.0 <= cost < p20 as real
    ensures (p * range) as real > cost * end as real
  {
    NatMono(range, 256 * p20, p);
    NatMono(256 * p20, 0x100_0000, range);
    var least := p20 * WORD;
    assert p * range >= least;
    RealMono(end as real, cost, p20 as real);
    NatMono(p20, end, WORD - 1);
    assert p20 * end < least;
    assert p20 as real * end as real == (p20 * end) as real;
  }

  lemma NatMono(k: nat, a: nat, b: nat)
    requires a <= b
    ensures k * a <= k * b && a * k <= b * k
  {
  }

  // ---------------------------------------------------------------- how much input is enough

  /** Bytes after those read make no difference. */
  lemma {:induction false} DecodeLonger(c: Context, p: Phase, probs: seq<Prob>, d: Dec, s: seq<Byte>, s2: seq<Byte>, adapt: bool)
    requires Ready(c, p, probs, d) && s <= s2
    requires Decode(c, p, probs, d, s, adapt).Some?
      || (Decode(c, p, probs, d, s2, adapt).Some? && Decode(c, p, probs, d, s2, adapt).value.dec.pos <= |s|)
    ensures Decode(c, p, probs, d, s, adapt) == Decode(c, p, probs, d, s2, adapt)
    decreases Steps(p)
  {
    hide Wanted, Following, Choose, UpdateProbs, Steps, PhaseOk, ContextOk, Decode;
    FillLonger(c, p, probs, d, s, s2, adapt);
    if !p.End? {
      var bit, d2, next := DecodeOn(c, p, probs, d, s, adapt);
      var bit2, d3, next2 := DecodeOn(c, p, probs, d, s2, adapt);
      DecodeLonger(c, Following(c, p, bit), next, d2, s, s2, adapt);
    } else {
      DecodeAtEnd(c, p, probs, d, s, adapt);
      DecodeAtEnd(c, p, probs, d, s2, adapt);
    }
  }

  lemma DecodeAtEnd(c: Context, p: Phase, probs: seq<Prob>, d: Dec, s: seq<Byte>, adapt: bool)
    requires Ready(c, p, probs, d) && p.End? && Fill(d, s).Some?
    ensures Decode(c, p, probs, d, s, adapt) == Some(Outcome(p.kind, Fill(d, s).value, probs))
  {
  }

  lemma FillLonger(c: Context, p: Phase, probs: seq<Prob>, d: Dec, s: seq<Byte>, s2: seq<Byte>, adapt: bool)
    requires Ready(c, p, probs, d) && s <= s2
    requires Decode(c, p, probs, d, s, adapt).Some?
      || (Decode(c, p, probs, d, s2, adapt).Some? && Decode(c, p, probs, d, s2, adapt).value.dec.pos <= |s|)
    ensures Fill(d, s).Some? && Fill(d, s) == Fill(d, s2)
  {
    hide Wanted, Following, Choose, UpdateProbs, Steps, PhaseOk, ContextOk, Decode;
    if Decode(c, p, probs, d, s, adapt).Some? {
      DecodeNeedsInput(c, p, probs, d, s, adapt);
    } else {
      DecodeNeedsInput(c, p, probs, d, s2, adapt);
      PastFill(c, p, probs, d, s2, adapt);
    }
  }

  lemma PastFill(c: Context, p: Phase, probs: seq<Prob>, d: Dec, s: seq<Byte>, adapt: bool)
    requires Ready(c, p, probs, d) && Decode(c, p, probs, d, s, adapt).Some? && Fill(d, s).Some?
    ensures Fill(d, s).value.pos <= Decode(c, p, probs, d, s, adapt).value.dec.pos
  {
    hide Wanted, Following, Choose, UpdateProbs, Steps, PhaseOk, ContextOk, Decode, CostOf, Pow256;
    if p.End? {
      DecodeAtEnd(c, p, probs, d, s, adapt);
    } else {
      var bit, d2, next := DecodeOn(c, p, probs, d, s, adapt);
      ReadsPaid(c, Following(c, p, bit), next, d2, s, adapt);
    }
  }

  /** With a byte for every step there is always enough. */
  lemma {:induction false} EnoughForSteps(c: Context, p: Phase, probs: seq<Prob>, d: Dec, s: seq<Byte>, adapt: bool)
    requires Ready(c, p, probs, d) && d.pos + Steps(p) + 1 <= |s|
    ensures Decode(c, p, probs, d, s, adapt).Some?
    decreases Steps(p)
  {
    hide Wanted, Following, Choose, UpdateProbs, Steps, PhaseOk, ContextOk, Decode;
    if p.End? {
      DecodeAtEnd(c, p, probs, d, s, adapt);
    } else {
      var bit, d2, next := DecodeOn(c, p, probs, d, s, adapt);
      EnoughForSteps(c, Following(c, p, bit), next, d2, s, adapt);
    }
  }

  /** Twenty bytes are enough for any symbol. */
  lemma TwentyEnough(c: Context, probs: seq<Prob>, d: Dec, s: seq<Byte>, adapt: bool)
    requires Ready(c, IsMatch, probs, d) && Normal(d.range) && d.pos + 20 <= |s|
    ensures Decode(c, IsMatch, probs, d, s, adapt).Some?
  {
    hide Decode;
    var s2: seq<Byte> := s + seq(607, i => 0);
    EnoughForSteps(c, IsMatch, probs, d, s2, adapt);
    TwentyBytes(c, probs, d, s2, adapt);
    DecodeLonger(c, IsMatch, probs, d, s, s2, adapt);
  }
}
