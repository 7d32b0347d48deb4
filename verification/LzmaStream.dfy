/**
 * Whole LZMA streams: symbol after symbol up to an output limit, in either finish mode, as a decoder whose
 * result does not depend on how its input is cut.
 */
module LzmaStream {
  import opened Bytes
  import opened RangeCoder
  import opened LzmaSymbol
  import opened LzmaInputBound
  import opened LzmaFeed
  import opened LzmaCore

  // ---------------------------------------------------------------- what symbols do

  const END_MARK: nat := 0xFFFFFFFF

  /** n bytes repeated from rep bytes back, each of them there for the next. */
  function CopyOut(out: seq<Byte>, rep: nat, n: nat): (r: seq<Byte>)
    requires 1 <= rep <= |out|
    ensures |r| == |out| + n && out <= r
    decreases n
  {
    if n == 0 then out else CopyOut(out + [out[|out| - rep]], rep, n - 1)
  }

  lemma {:induction false} CopySplit(out: seq<Byte>, rep: nat, m: nat, n: nat)
    requires 1 <= rep <= |out|
    ensures CopyOut(out, rep, m + n) == CopyOut(CopyOut(out, rep, m), rep, n)
    decreases m
  {
    if m > 0 { CopySplit(out + [out[|out| - rep]], rep, m - 1, n); }
  }

  /** How far back a new distance may go: all that was written, at most the dictionary. */
  function Reach(pr: Props, n: nat): nat {
    if n >= pr.dicSize then pr.dicSize else n
  }

  function LiteralState(state: nat): nat {
    if state < 4 then 0 else if state < 10 then state - 3 else state - 6
  }

  /** The state after a symbol whose bits said `a`; none if it is invalid. */
  ghost function Effect(pr: Props, k: Core, o: Outcome, a: Acc): Option<Core> {
    var k2 := k.(probs := o.probs, range := o.dec.range, code := o.dec.code);
    match o.kind
    case Lit => Some(k2.(state := LiteralState(k.state), out := k.out + [a.symbol % 256]))
    case Match =>
      if a.slot >= 14 && a.distance == END_MARK then Some(k2.(ended := true))
      else if a.distance >= Reach(pr, |k.out|) then None
      else Some(k2.(state := if k.state < 7 then 7 else 10, rep0 := a.distance + 1, rep1 := k.rep0, rep2 := k.rep1, rep3 := k.rep2,
                    out := CopyOut(k.out, a.distance + 1, a.len + 2)))
    case Rep =>
      if k.out == [] then None
      else if a.short then
        if 1 <= k.rep0 <= |k.out| then
          Some(k2.(state := if k.state < 7 then 9 else 11, out := k.out + [k.out[|k.out| - k.rep0]]))
        else None
      else
        var rep := if a.rep == 0 then k.rep0 else if a.rep == 1 then k.rep1 else if a.rep == 2 then k.rep2 else k.rep3;
        if 1 <= rep <= |k.out| then
          Some(k2.(state := if k.state < 7 then 8 else 11, rep0 := rep,
                   rep1 := if a.rep >= 1 then k.rep0 else k.rep1,
                   rep2 := if a.rep >= 2 then k.rep1 else k.rep2,
                   rep3 := if a.rep >= 3 then k.rep2 else k.rep3,
                   out := CopyOut(k.out, rep, a.len + 2)))
        else None
  }

  /** A symbol writes something or ends the stream. */
  ghost predicate Onwards(k: Core, t: Core) {
    k.out <= t.out && ((t.ended == k.ended && |t.out| > |k.out|) || (t.ended && t.out == k.out))
  }

  lemma EffectOk(pr: Props, k: Core, o: Outcome, a: Acc)
    requires CoreOk(pr, k) && Effect(pr, k, o, a).Some? && |o.probs| == |k.probs| && Normal(o.dec.range) && o.dec.code < WORD
    ensures CoreOk(pr, Effect(pr, k, o, a).value) && Onwards(k, Effect(pr, k, o, a).value)
  {
    hide NumProbs, CopyOut;
    var t := Effect(pr, k, o, a).value;
    match o.kind
    case Lit => RepsLater(pr, k, t);
    case Match =>
      if !t.ended || k.ended {
        RepsLater(pr, k, t);
      }
    case Rep => RepsLater(pr, k, t);
  }

  /** More output keeps distances in reach. */
  lemma RepsLater(pr: Props, k: Core, t: Core)
    requires CoreOk(pr, k) && |t.out| >= |k.out|
    ensures RepOk(pr, k.rep0, |t.out|) && RepOk(pr, k.rep1, |t.out|) && RepOk(pr, k.rep2, |t.out|) && RepOk(pr, k.rep3, |t.out|)
  {
    hide NumProbs;
  }

  ghost function Read(pr: Props, k: Core, b: seq<Byte>): Option<Outcome>
    requires CoreOk(pr, k)
  {
    ContextIsOk(pr, k);
    Decode(ContextOf(pr, k.state, k.rep0, k.out), IsMatch, k.probs, Dec(k.range, k.code, 0), b, true)
  }

  ghost function Said(pr: Props, k: Core, b: seq<Byte>): Acc
    requires CoreOk(pr, k)
  {
    ContextIsOk(pr, k);
    ItemOf(ContextOf(pr, k.state, k.rep0, k.out), IsMatch, NOTHING, k.probs, Dec(k.range, k.code, 0), b)
  }

  /** One symbol. */
  ghost function Symbol(pr: Props, k: Core, b: seq<Byte>): Step<Core> {
    if !CoreOk(pr, k) then Bad
    else match Read(pr, k, b)
      case None => More
      case Some(o) =>
        match Effect(pr, k, o, Said(pr, k, b))
        case None => Bad
        case Some(t) => Got(t, o.dec.pos)
  }

  lemma ReadFacts(pr: Props, k: Core, b: seq<Byte>, b2: seq<Byte>)
    requires CoreOk(pr, k)
    ensures |b| >= REQUIRED_INPUT_MAX ==> Read(pr, k, b).Some?
    ensures b <= b2 && Read(pr, k, b).Some? ==>
      Read(pr, k, b2) == Read(pr, k, b) && Said(pr, k, b2) == Said(pr, k, b)
    ensures b <= b2 && Read(pr, k, b2).Some? && Read(pr, k, b2).value.dec.pos <= |b| ==> Read(pr, k, b) == Read(pr, k, b2)
  {
    hide Decode, ItemOf, ContextOf;
    ContextIsOk(pr, k);
    var c, d := ContextOf(pr, k.state, k.rep0, k.out), Dec(k.range, k.code, 0);
    if |b| >= REQUIRED_INPUT_MAX { TwentyEnough(c, k.probs, d, b, true); }
    if b <= b2 && (Read(pr, k, b).Some? || (Read(pr, k, b2).Some? && Read(pr, k, b2).value.dec.pos <= |b|)) {
      DecodeLonger(c, IsMatch, k.probs, d, b, b2, true);
      ItemLonger(c, IsMatch, NOTHING, k.probs, d, b, b2);
    }
  }

  /** No byte is read beyond the input, and the walk leaves the coder ready for the next symbol. */
  lemma {:induction false} StaysWithin(c: Context, p: Phase, probs: seq<Prob>, d: Dec, s: seq<Byte>)
    requires Ready(c, p, probs, d) && Decode(c, p, probs, d, s, true).Some? && d.pos <= |s|
    ensures var o := Decode(c, p, probs, d, s, true).value;
            o.dec.pos <= |s| && |o.probs| == |probs| && Normal(o.dec.range) && o.dec.code < WORD
    decreases Steps(p)
  {
    hide Wanted, Following, Choose, UpdateProbs, Steps, PhaseOk, ContextOk, Decode;
    DecodeNeedsInput(c, p, probs, d, s, true);
    if p.End? {
      DecodeAtEnd(c, p, probs, d, s, true);
    } else {
      var bit, d2, next := DecodeOn(c, p, probs, d, s, true);
      SameSize(probs, Wanted(c, p), bit);
      StaysWithin(c, Following(c, p, bit), next, d2, s);
    }
  }

  lemma SameSize(probs: seq<Prob>, q: Request, bit: bool)
    requires q.Adaptive? ==> q.ctx < |probs|
    ensures |UpdateProbs(probs, q, bit)| == |probs|
  {
  }

  lemma SymbolFacts(pr: Props, k: Core, b: seq<Byte>)
    ensures |b| >= REQUIRED_INPUT_MAX ==> !Symbol(pr, k, b).More?
    ensures Symbol(pr, k, b).Got? ==> CoreOk(pr, k) && Symbol(pr, k, b).used <= |b| && CoreOk(pr, Symbol(pr, k, b).next)
    ensures Symbol(pr, k, b).Got? ==> Onwards(k, Symbol(pr, k, b).next)
  {
    hide Effect, CoreOk, Said, Read, Onwards;
    if CoreOk(pr, k) {
      ReadFacts(pr, k, b, b);
      if Read(pr, k, b).Some? {
        ReadWithin(pr, k, b);
        if Symbol(pr, k, b).Got? { EffectOk(pr, k, Read(pr, k, b).value, Said(pr, k, b)); }
      }
    }
  }

  lemma ReadWithin(pr: Props, k: Core, b: seq<Byte>)
    requires CoreOk(pr, k) && Read(pr, k, b).Some?
    ensures var o := Read(pr, k, b).value; o.dec.pos <= |b| && |o.probs| == |k.probs| && Normal(o.dec.range) && o.dec.code < WORD
  {
    hide Decode, ContextOf, NumProbs;
    ContextIsOk(pr, k);
    StaysWithin(ContextOf(pr, k.state, k.rep0, k.out), IsMatch, k.probs, Dec(k.range, k.code, 0), b);
  }

  lemma SymbolLong(pr: Props, k: Core, b: seq<Byte>, b2: seq<Byte>)
    requires b <= b2
    ensures !Symbol(pr, k, b).More? ==> Symbol(pr, k, b2) == Symbol(pr, k, b)
    ensures Symbol(pr, k, b2).Got? && Symbol(pr, k, b2).used <= |b| ==> Symbol(pr, k, b) == Symbol(pr, k, b2)
  {
    hide Effect, CoreOk, Said, Read;
    if CoreOk(pr, k) { ReadFacts(pr, k, b, b2); }
  }

  // ---------------------------------------------------------------- up to a limit

  /** How far to go: so many bytes of output, and whether the stream must end there. */
  datatype Goal = Goal(limit: nat, finish: bool)

  /** At the limit only the end mark may come, and after it nothing. */
  ghost function Wished(pr: Props, g: Goal, k: Core, b: seq<Byte>): Step<Core> {
    var step := Symbol(pr, k, b);
    if step.Got? && (k.ended || (|k.out| >= g.limit && !step.next.ended)) then Bad else step
  }

  ghost predicate Full(g: Goal, k: Core) {
    |k.out| >= g.limit && (!g.finish || k.code == 0)
  }

  /** A match that goes beyond the limit where the stream must end. */
  ghost predicate Stuck(g: Goal, k: Core) {
    |k.out| > g.limit && g.finish
  }

  ghost function SetUp(k: Core, b: seq<Byte>): Core {
    match InitDec(b) case None => k case Some(d) => k.(range := d.range, code := d.code)
  }

  ghost function Room(g: Goal, k: Core): nat {
    if k.ended then 0 else if |k.out| >= g.limit then 1 else 1 + g.limit - |k.out|
  }

  ghost function Lzma(pr: Props, g: Goal): Decoder<Core> {
    Decoder((k, b) => Wished(pr, g, k, b), (k, b) => SetUp(k, b),
            (k: Core) => k.ended, k => Stuck(g, k), k => Full(g, k), k => Room(g, k))
  }

  lemma LzmaParts(pr: Props, g: Goal, k: Core, b: seq<Byte>)
    ensures Lzma(pr, g).symbol(k, b) == Wished(pr, g, k, b)
    ensures Lzma(pr, g).setUp(k, b) == SetUp(k, b)
    ensures Lzma(pr, g).finished(k) == k.ended && Lzma(pr, g).stuck(k) == Stuck(g, k) && Lzma(pr, g).full(k) == Full(g, k)
    ensures Lzma(pr, g).room(k) == Room(g, k)
  {
    hide Wished, SetUp, Stuck, Full, Room;
  }

  lemma RoomFalls(pr: Props, g: Goal, k: Core, b: seq<Byte>)
    requires Wished(pr, g, k, b).Got?
    ensures Wished(pr, g, k, b).used <= |b| && Room(g, Wished(pr, g, k, b).next) < Room(g, k)
  {
    SymbolFacts(pr, k, b);
    hide Symbol;
  }

  /** LZMA streams may be fed in any pieces. */
  lemma LzmaMayBeFed(pr: Props, g: Goal)
    ensures DecoderOk(Lzma(pr, g))
  {
    hide Symbol, Wished, Lzma, SetUp, Room, Stuck, Full;
    var d := Lzma(pr, g);
    forall k, b
      ensures d.symbol(k, b).Got? ==> d.symbol(k, b).used <= |b| && d.room(d.symbol(k, b).next) < d.room(k)
      ensures |b| >= REQUIRED_INPUT_MAX ==> !d.symbol(k, b).More?
      ensures d.room(d.setUp(k, b)) == d.room(k) && d.finished(d.setUp(k, b)) == d.finished(k)
    {
      AllParts(pr, g, k, b, b);
    }
    forall k, b, b2 | b <= b2
      ensures !d.symbol(k, b).More? ==> d.symbol(k, b2) == d.symbol(k, b)
      ensures d.symbol(k, b2).Got? && d.symbol(k, b2).used <= |b| ==> d.symbol(k, b) == d.symbol(k, b2)
    {
      AllParts(pr, g, k, b, b2);
    }
  }

  lemma AllParts(pr: Props, g: Goal, k: Core, b: seq<Byte>, b2: seq<Byte>)
    ensures var d := Lzma(pr, g);
      && (d.symbol(k, b).Got? ==> d.symbol(k, b).used <= |b| && d.room(d.symbol(k, b).next) < d.room(k))
      && (|b| >= REQUIRED_INPUT_MAX ==> !d.symbol(k, b).More?)
      && (b <= b2 && !d.symbol(k, b).More? ==> d.symbol(k, b2) == d.symbol(k, b))
      && (b <= b2 && d.symbol(k, b2).Got? && d.symbol(k, b2).used <= |b| ==> d.symbol(k, b) == d.symbol(k, b2))
      && d.room(d.setUp(k, b)) == d.room(k) && d.finished(d.setUp(k, b)) == d.finished(k)
  {
    hide Symbol, Lzma;
    LzmaParts(pr, g, k, b);
    LzmaParts(pr, g, k, b2);
    LzmaParts(pr, g, SetUp(k, b), b);
    SymbolFacts(pr, k, b);
    if b <= b2 { SymbolLong(pr, k, b, b2); }
    if Wished(pr, g, k, b).Got? {
      RoomFalls(pr, g, k, b);
      LzmaParts(pr, g, Wished(pr, g, k, b).next, b);
    }
  }

  // ---------------------------------------------------------------- moving the limit

  /** How much of the output a decoder with that limit has written. */
  function Written(g: Goal, k: Core): nat {
    if |k.out| < g.limit then |k.out| else g.limit
  }

  lemma {:induction false} PumpGrows(pr: Props, g: Goal, k: Kept<Core>)
    requires DecoderOk(Lzma(pr, g)) && Pump(Lzma(pr, g), k).Some?
    ensures k.s.out <= Pump(Lzma(pr, g), k).value.s.out && (k.s.ended ==> Pump(Lzma(pr, g), k).value.s.ended)
    decreases Room(g, k.s), k.flush
  {
    hide DecoderOk, Wished, Lzma, SetUp, Pump;
    var d := Lzma(pr, g);
    var next := PumpOn(pr, g, k);
    if next.Some? {
      PumpGrows(pr, g, next.value);
    }
  }

  /** One symbol is taken off what is kept. */
  ghost predicate Takes(pr: Props, k: Kept<Core>, next: Kept<Core>) {
    && Symbol(pr, k.s, k.rest).Got? && Symbol(pr, k.s, k.rest).used <= |k.rest|
    && next == Kept(Symbol(pr, k.s, k.rest).next, false, k.rest[Symbol(pr, k.s, k.rest).used..])
  }

  /** What pumping does first, and what that changes. */
  lemma PumpOn(pr: Props, g: Goal, k: Kept<Core>) returns (next: Option<Kept<Core>>)
    requires DecoderOk(Lzma(pr, g)) && Pump(Lzma(pr, g), k).Some?
    ensures next.None? ==> Pump(Lzma(pr, g), k) == Some(k)
    ensures next.Some? ==> Pump(Lzma(pr, g), k) == Pump(Lzma(pr, g), next.value)
    ensures next.Some? ==> !k.s.ended && k.s.out <= next.value.s.out
    ensures next.Some? ==> Room(g, next.value.s) < Room(g, k.s) || (Room(g, next.value.s) == Room(g, k.s) && k.flush && !next.value.flush)
    ensures next.Some? && k.flush ==>
      |k.rest| >= RC_INIT_SIZE && k.rest[0] == 0 && next.value == Kept(SetUp(k.s, k.rest[..RC_INIT_SIZE]), false, k.rest[RC_INIT_SIZE..])
    ensures next.Some? && !k.flush ==> !Full(g, k.s) && !Stuck(g, k.s) && Takes(pr, k, next.value)
    ensures next.Some? && !k.flush ==> next.value.s.ended || (|k.s.out| < g.limit && |k.s.out| < |next.value.s.out|)
  {
    hide DecoderOk, Symbol, Lzma;
    LzmaParts(pr, g, k.s, k.rest);
    next := None;
    if !k.s.ended && k.flush && |k.rest| >= RC_INIT_SIZE {
      LzmaParts(pr, g, k.s, k.rest[..RC_INIT_SIZE]);
      next := Some(Kept(SetUp(k.s, k.rest[..RC_INIT_SIZE]), false, k.rest[RC_INIT_SIZE..]));
    } else if !k.s.ended && !k.flush && !Full(g, k.s) && Wished(pr, g, k.s, k.rest).Got? {
      SymbolFacts(pr, k.s, k.rest);
      RoomFalls(pr, g, k.s, k.rest);
      next := Some(Kept(Symbol(pr, k.s, k.rest).next, false, k.rest[Symbol(pr, k.s, k.rest).used..]));
    }
  }

  /** As long as the stream has not ended, the limit can be any that leaves what was written. */
  lemma {:induction false} Rebase(pr: Props, g: Goal, g2: Goal, k: Kept<Core>, l: Kept<Core>)
    requires DecoderOk(Lzma(pr, g)) && DecoderOk(Lzma(pr, g2)) && Pump(Lzma(pr, g), k) == Some(l)
    requires !l.s.ended && Written(g, l.s) <= g2.limit
    ensures Pump(Lzma(pr, g2), k) == Pump(Lzma(pr, g2), l)
    decreases Room(g, k.s), k.flush
  {
    hide DecoderOk, Lzma, Pump, SetUp, Symbol;
    var next := PumpOn(pr, g, k);
    if next.Some? {
      PumpGrows(pr, g, next.value);
      Rebase(pr, g, g2, next.value, l);
      PumpSame(pr, g2, k, next.value);
    }
  }

  /** A limit that was not met, where the stream need not end, might have been further away. */
  lemma {:induction false} LimitNotMet(pr: Props, g: Goal, g2: Goal, k: Kept<Core>)
    requires DecoderOk(Lzma(pr, g)) && DecoderOk(Lzma(pr, g2)) && !g.finish && g.limit <= g2.limit
    ensures Pump(Lzma(pr, g), k).None? ==> Pump(Lzma(pr, g2), k).None?
    ensures var r := Pump(Lzma(pr, g), k); r.Some? && (r.value.s.ended || |r.value.s.out| < g.limit) ==> Pump(Lzma(pr, g2), k) == r
    decreases Room(g, k.s), k.flush
  {
    hide DecoderOk, Symbol, Lzma;
    LzmaParts(pr, g, k.s, k.rest);
    LzmaParts(pr, g2, k.s, k.rest);
    if !k.s.ended && k.flush && |k.rest| >= RC_INIT_SIZE && k.rest[0] == 0 {
      LzmaParts(pr, g, k.s, k.rest[..RC_INIT_SIZE]);
      LzmaParts(pr, g2, k.s, k.rest[..RC_INIT_SIZE]);
      LimitNotMet(pr, g, g2, Kept(SetUp(k.s, k.rest[..RC_INIT_SIZE]), false, k.rest[RC_INIT_SIZE..]));
    } else if !k.s.ended && !k.flush && |k.s.out| < g.limit && Symbol(pr, k.s, k.rest).Got? {
      RoomFalls(pr, g, k.s, k.rest);
      LimitNotMet(pr, g, g2, Kept(Symbol(pr, k.s, k.rest).next, false, k.rest[Symbol(pr, k.s, k.rest).used..]));
    }
  }

  /** Where the stream need not end, the end mark is met before the limit. */
  lemma {:induction false} NotPassed(pr: Props, g: Goal, k: Kept<Core>)
    requires DecoderOk(Lzma(pr, g)) && !g.finish && Pump(Lzma(pr, g), k).Some? && !k.s.ended
    ensures Pump(Lzma(pr, g), k).value.s.ended ==> |Pump(Lzma(pr, g), k).value.s.out| < g.limit
    decreases Room(g, k.s), k.flush
  {
    hide DecoderOk, Wished, Lzma, SetUp, Pump, Symbol;
    var next := PumpOn(pr, g, k);
    if next.Some? && !next.value.s.ended {
      NotPassed(pr, g, next.value);
    } else if next.Some? && !k.flush {
      SymbolFacts(pr, k.s, k.rest);
      LzmaParts(pr, g, next.value.s, []);
      PumpStopped(Lzma(pr, g), next.value);
    } else if next.Some? {
      SetUpOpen(k.s, k.rest[..RC_INIT_SIZE]);
    }
  }

  lemma SetUpOpen(k: Core, b: seq<Byte>)
    ensures SetUp(k, b).ended == k.ended
  {
  }

  lemma PumpSame(pr: Props, g: Goal, k: Kept<Core>, next: Kept<Core>)
    requires DecoderOk(Lzma(pr, g)) && !k.s.ended
    requires k.flush ==> |k.rest| >= RC_INIT_SIZE && k.rest[0] == 0 && next == Kept(SetUp(k.s, k.rest[..RC_INIT_SIZE]), false, k.rest[RC_INIT_SIZE..])
    requires !k.flush ==> |k.s.out| < g.limit && Takes(pr, k, next)
    ensures Pump(Lzma(pr, g), k) == Pump(Lzma(pr, g), next)
  {
    hide DecoderOk, Symbol, Lzma;
    LzmaParts(pr, g, k.s, k.rest);
    if k.flush { LzmaParts(pr, g, k.s, k.rest[..RC_INIT_SIZE]); }
  }
}
