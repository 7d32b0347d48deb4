/**
 * From a text to LZMA bytes and back: whatever true packets the text is cut into, the bytes that their strokes are coded
 * as decode to the text, with or without an end mark.
 */
module LzmaRoundTrip {
  import opened Bytes
  import opened Bits
  import opened RangeCoder
  import opened LzmaSymbol
  import opened LzmaInputBound
  import opened LzmaFeed
  import opened LzmaCore
  import opened LzmaStream
  import opened LzmaDecoder
  import opened LzmaStrokes

  // ---------------------------------------------------------------- coding strokes

  ghost predicate Within(s: seq<Stroke>, n: nat) {
    forall i :: 0 <= i < |s| && s[i].q.Adaptive? ==> s[i].q.ctx < n
  }

  /** The interval and the probabilities after coding strokes one by one. */
  ghost function Coded(s: seq<Stroke>, probs: seq<Prob>, iv: Interval): (r: (Interval, seq<Prob>))
    requires Normal(iv.range) && Within(s, |probs|)
    ensures Normal(r.0.range) && |r.1| == |probs|
    decreases |s|
  {
    if s == [] then (iv, probs)
    else Coded(s[1..], UpdateProbs(probs, s[0].q, s[0].bit), EncodeStep(iv, s[0].q, probs, s[0].bit))
  }

  lemma {:induction false} CodedBoth(s: seq<Stroke>, t: seq<Stroke>, probs: seq<Prob>, iv: Interval)
    requires Normal(iv.range) && Within(s, |probs|) && Within(t, |probs|)
    ensures Within(s + t, |probs|) && Coded(s + t, probs, iv) == Coded(t, Coded(s, probs, iv).1, Coded(s, probs, iv).0)
    decreases |s|
  {
    hide EncodeStep, UpdateProbs;
    if s == [] {
      assert s + t == t;
    } else {
      assert (s + t)[1..] == s[1..] + t;
      CodedBoth(s[1..], t, UpdateProbs(probs, s[0].q, s[0].bit), EncodeStep(iv, s[0].q, probs, s[0].bit));
    }
  }

  /** A stream that lies in the interval after some strokes lies in the one before. */
  lemma {:induction false} HoldsBefore(s: seq<Stroke>, probs: seq<Prob>, iv: Interval, x: seq<Byte>)
    requires Normal(iv.range) && Within(s, |probs|) && Holds(Coded(s, probs, iv).0, x)
    ensures Holds(iv, x) && iv.len <= Coded(s, probs, iv).0.len
    decreases |s|
  {
    hide UpdateProbs, Holds, Narrow;
    if s != [] {
      HoldsBefore(s[1..], UpdateProbs(probs, s[0].q, s[0].bit), EncodeStep(iv, s[0].q, probs, s[0].bit), x);
      StepBack(iv, s[0], probs, x);
    }
  }

  lemma StepBack(iv: Interval, y: Stroke, probs: seq<Prob>, x: seq<Byte>)
    requires Normal(iv.range) && (y.q.Adaptive? ==> y.q.ctx < |probs|) && Holds(EncodeStep(iv, y.q, probs, y.bit), x)
    ensures Holds(Narrow(iv, y.q, probs, y.bit), x) && Holds(iv, x) && iv.len <= EncodeStep(iv, y.q, probs, y.bit).len
  {
    hide Narrow;
    HoldsBack(Narrow(iv, y.q, probs, y.bit), x);
    ChooseTracks(iv, y.q, probs, y.bit, x);
  }

  /** No carry reaches the first byte. */
  lemma {:induction false} FirstByteZero(s: seq<Stroke>, probs: seq<Prob>, iv: Interval)
    requires Normal(iv.range) && Within(s, |probs|) && iv.len >= 5 && iv.low + iv.range <= Pow256(iv.len - 1)
    ensures var fin := Coded(s, probs, iv).0; fin.len >= 5 && fin.low + fin.range <= Pow256(fin.len - 1)
    decreases |s|
  {
    hide UpdateProbs;
    if s != [] {
      StepZero(iv, s[0], probs);
      hide EncodeStep;
      FirstByteZero(s[1..], UpdateProbs(probs, s[0].q, s[0].bit), EncodeStep(iv, s[0].q, probs, s[0].bit));
    }
  }

  lemma StepZero(iv: Interval, y: Stroke, probs: seq<Prob>)
    requires Normal(iv.range) && (y.q.Adaptive? ==> y.q.ctx < |probs|) && iv.len >= 5 && iv.low + iv.range <= Pow256(iv.len - 1)
    ensures var r := EncodeStep(iv, y.q, probs, y.bit); r.len >= 5 && r.low + r.range <= Pow256(r.len - 1)
  {
    hide Narrow;
  }

  // ---------------------------------------------------------------- the decoder along strokes

  /** The normalisation before a walk may have been done before. */
  lemma DecodeFilled(c: Context, p: Phase, a: Acc, probs: seq<Prob>, d: Dec, s: seq<Byte>)
    requires Ready(c, p, probs, d) && Fill(d, s).Some?
    ensures Ready(c, p, probs, Fill(d, s).value)
    ensures Decode(c, p, probs, d, s, true) == Decode(c, p, probs, Fill(d, s).value, s, true)
    ensures ItemOf(c, p, a, probs, d, s) == ItemOf(c, p, a, probs, Fill(d, s).value, s)
  {
    hide Wanted, Following, Choose, UpdateProbs, Steps, NextAcc, PhaseOk, ContextOk;
    FillTwice(d, s);
    if !p.End? {
      hide Fill, Decode, ItemOf;
      var bit, d2, next := ItemOn(c, p, a, probs, d, s);
      var bit2, e2, next2 := ItemOn(c, p, a, probs, Fill(d, s).value, s);
    }
  }

  /** A walk that the strokes lead along needs no probability that is not there. */
  lemma {:induction false} AfterWithin(c: Context, p: Phase, a: Acc, s: seq<Stroke>, slots: nat)
    requires ContextOk(c, slots) && PhaseOk(p) && After(c, p, a, s).Some?
    ensures Within(s, slots)
    decreases |s|
  {
    hide Wanted, Following, NextAcc;
    if s != [] {
      WantedInRange(c, p, slots);
      FollowingOk(c, p, s[0].bit);
      hide ContextOk, PhaseOk;
      AfterWithin(c, Following(c, p, s[0].bit), NextAcc(p, a, s[0].bit), s[1..], slots);
      assert forall i :: 1 <= i < |s| ==> s[i] == s[1..][i - 1];
    }
  }

  ghost predicate ReadyAt(c: Context, p: Phase, probs: seq<Prob>, iv: Interval) {
    ContextOk(c, |probs|) && PhaseOk(p) && Normal(iv.range)
  }

  /** The decoder's walk over a stream in the final interval reads the strokes' bits and ends as the encoder does. */
  lemma {:induction false} WalkDecodes(c: Context, p: Phase, a: Acc, s: seq<Stroke>, kind: Kind, a2: Acc, probs: seq<Prob>, iv: Interval, x: seq<Byte>)
    requires ReadyAt(c, p, probs, iv) && Within(s, |probs|) && After(c, p, a, s) == Some((End(kind), a2))
    requires Holds(Coded(s, probs, iv).0, x)
    ensures Holds(iv, x) && Ready(c, p, probs, At(iv, x))
    ensures var fin := Coded(s, probs, iv);
            Decode(c, p, probs, At(iv, x), x, true) == Some(Outcome(kind, At(fin.0, x), fin.1))
    ensures ItemOf(c, p, a, probs, At(iv, x), x) == a2
    decreases |s|
  {
    hide Wanted, Following, NextAcc, UpdateProbs, Holds, Narrow, Renormalise, Choose, Steps, At, PhaseOk, ContextOk;
    HoldsBefore(s, probs, iv, x);
    AtReady(c, p, probs, iv, x);
    if s == [] {
      DecodeAtEnd(c, p, probs, At(iv, x), x, true);
      WalkEnds(c, p, a, probs, At(iv, x), x);
    } else {
      hide Decode, ItemOf, Fill;
      var q, bit := s[0].q, s[0].bit;
      var nv, p2 := Narrow(iv, q, probs, bit), Following(c, p, bit);
      var r, next := EncodeStep(iv, q, probs, bit), UpdateProbs(probs, q, bit);
      NextReady(c, p, probs, iv, bit, next);
      WalkDecodes(c, p2, NextAcc(p, a, bit), s[1..], kind, a2, next, r, x);
      StepBack(iv, s[0], probs, x);
      ChooseTracks(iv, q, probs, bit, x);
      FillAt(nv, x);
      var b2, d2, n2 := ItemOn(c, p, a, probs, At(iv, x), x);
      assert (b2, d2) == (bit, At(nv, x)) && n2 == next;
      DecodeFilled(c, p2, NextAcc(p, a, bit), next, At(nv, x), x);
    }
  }

  lemma AtReady(c: Context, p: Phase, probs: seq<Prob>, iv: Interval, x: seq<Byte>)
    requires ReadyAt(c, p, probs, iv) && Holds(iv, x)
    ensures Ready(c, p, probs, At(iv, x)) && Fill(At(iv, x), x) == Some(At(iv, x))
  {
    hide PhaseOk, ContextOk;
  }

  lemma FillAt(nv: Interval, x: seq<Byte>)
    requires 0x10000 <= nv.range < WORD && Holds(Renormalise(nv), x) && Holds(nv, x)
    ensures Fill(At(nv, x), x) == Some(At(Renormalise(nv), x))
  {
    FillTracks(At(nv, x), nv, x);
  }

  lemma NextReady(c: Context, p: Phase, probs: seq<Prob>, iv: Interval, bit: bool, next: seq<Prob>)
    requires ReadyAt(c, p, probs, iv) && !p.End? && |next| == |probs|
    ensures Wanted(c, p).Adaptive? ==> Wanted(c, p).ctx < |probs|
    ensures ReadyAt(c, Following(c, p, bit), next, EncodeStep(iv, Wanted(c, p), probs, bit))
  {
    hide Wanted, Following, EncodeStep, PhaseOk;
    WantedInRange(c, p, |probs|);
    FollowingOk(c, p, bit);
  }

  // ---------------------------------------------------------------- what the encoder knows

  /** The encoder's state, its last four distances less 1, and how much of the text it has coded. */
  datatype Enc = Enc(state: nat, reps: seq<nat>, n: nat)

  const AT_START: Enc := Enc(0, [0, 0, 0, 0], 0)

  const LITERAL_NEXT: seq<nat> := [0, 0, 0, 0, 1, 2, 3, 4, 5, 6, 4, 5]
  const MATCH_NEXT: seq<nat> := [7, 7, 7, 7, 7, 7, 7, 10, 10, 10, 10, 10]
  const REP_NEXT: seq<nat> := [8, 8, 8, 8, 8, 8, 8, 11, 11, 11, 11, 11]
  const SHORT_REP_NEXT: seq<nat> := [9, 9, 9, 9, 9, 9, 9, 11, 11, 11, 11, 11]

  predicate EncOk(e: Enc, text: seq<Byte>) {
    e.state < 12 && |e.reps| == 4 && e.n <= |text| && (e.state >= 7 ==> e.reps[0] < e.n)
  }

  /** len bytes of the text at n repeat those d bytes before. */
  predicate Repeats(text: seq<Byte>, n: nat, d: nat, len: nat) {
    1 <= d <= n && n + len <= |text| && forall i :: n <= i < n + len ==> text[i] == text[i - d]
  }

  /** A packet that says what the text has next. */
  predicate Fits(pr: Props, text: seq<Byte>, e: Enc, k: Packet)
    requires EncOk(e, text)
  {
    PacketOk(k) &&
    match k
    case ALiteral(v) => e.n < |text| && text[e.n] == v
    case AShortRep => Repeats(text, e.n, e.reps[0] + 1, 1)
    case ARep(which, len) => Repeats(text, e.n, e.reps[which] + 1, len + 2)
    case AMatch(distance, len) => distance < pr.dicSize && Repeats(text, e.n, distance + 1, len + 2)
  }

  function Next(e: Enc, k: Packet): Enc
    requires e.state < 12 && |e.reps| == 4 && PacketOk(k)
  {
    var r := e.reps;
    match k
    case ALiteral(_) => Enc(LITERAL_NEXT[e.state], r, e.n + 1)
    case AShortRep => Enc(SHORT_REP_NEXT[e.state], r, e.n + 1)
    case ARep(which, len) =>
      Enc(REP_NEXT[e.state],
          if which == 0 then r
          else if which == 1 then [r[1], r[0], r[2], r[3]]
          else if which == 2 then [r[2], r[0], r[1], r[3]]
          else [r[3], r[0], r[1], r[2]], e.n + len + 2)
    case AMatch(distance, len) => Enc(MATCH_NEXT[e.state], [distance, r[0], r[1], r[2]], e.n + len + 2)
  }

  /** The probabilities of a literal: by low bits of its position and high bits of the byte before. */
  function LiteralTable(pr: Props, n: nat, before: Byte): nat
    requires pr.lc <= 8
  {
    LITERAL + 0x300 * (n % Pow2(pr.lp) * Pow2(pr.lc) + before / Pow2(8 - pr.lc))
  }

  /** The tables for the next packet: by position, byte before, and the byte that the last distance promises. */
  function EncContext(pr: Props, text: seq<Byte>, e: Enc): Context
    requires PropsOk(pr) && EncOk(e, text)
  {
    Context(e.state, e.n % Pow2(pr.pb),
            if e.n == 0 then LITERAL
            else LiteralTable(pr, e.n, text[e.n - 1]),
            if e.state < 7 then 0 else text[e.n - e.reps[0] - 1])
  }

  lemma NextOk(pr: Props, text: seq<Byte>, e: Enc, k: Packet)
    requires EncOk(e, text) && Fits(pr, text, e, k)
    ensures EncOk(Next(e, k), text) && e.n < Next(e, k).n
  {
  }

  /** Packets that say all of the text from where the encoder is. */
  ghost predicate AllFit(pr: Props, text: seq<Byte>, e: Enc, ks: seq<Packet>)
    requires EncOk(e, text)
    decreases |ks|
  {
    if ks == [] then e.n == |text|
    else Fits(pr, text, e, ks[0]) && (NextOk(pr, text, e, ks[0]); AllFit(pr, text, Next(e, ks[0]), ks[1..]))
  }

  /** The encoder after all packets. */
  ghost function AtEnd(pr: Props, text: seq<Byte>, e: Enc, ks: seq<Packet>): (r: Enc)
    requires EncOk(e, text) && AllFit(pr, text, e, ks)
    ensures EncOk(r, text) && r.n == |text|
    decreases |ks|
  {
    if ks == [] then e else NextOk(pr, text, e, ks[0]); AtEnd(pr, text, Next(e, ks[0]), ks[1..])
  }

  /** All strokes of a text cut into packets. */
  ghost function TextStrokes(pr: Props, text: seq<Byte>, e: Enc, ks: seq<Packet>): seq<Stroke>
    requires PropsOk(pr) && EncOk(e, text) && AllFit(pr, text, e, ks)
    decreases |ks|
  {
    if ks == [] then []
    else NextOk(pr, text, e, ks[0]); Strokes(EncContext(pr, text, e), ks[0]) + TextStrokes(pr, text, Next(e, ks[0]), ks[1..])
  }

  // ---------------------------------------------------------------- encoder and decoder side by side

  /** The decoder's state is the encoder's. */
  ghost predicate Alike(pr: Props, text: seq<Byte>, e: Enc, k: Core, probs: seq<Prob>, iv: Interval, x: seq<Byte>) {
    && EncOk(e, text) && CoreOk(pr, k) && Normal(iv.range) && Holds(iv, x)
    && k.out == text[..e.n] && k.state == e.state && !k.ended && k.probs == probs
    && k.rep0 == e.reps[0] + 1 && k.rep1 == e.reps[1] + 1 && k.rep2 == e.reps[2] + 1 && k.rep3 == e.reps[3] + 1
    && k.range == iv.range && k.code == At(iv, x).code
  }

  lemma SameContext(pr: Props, text: seq<Byte>, e: Enc, k: Core, probs: seq<Prob>, iv: Interval, x: seq<Byte>)
    requires Alike(pr, text, e, k, probs, iv, x)
    ensures ContextOf(pr, k.state, k.rep0, k.out) == EncContext(pr, text, e)
    ensures ContextOk(EncContext(pr, text, e), |probs|)
  {
    hide Pow2, Holds, At, NumProbs;
    ContextIsOk(pr, k);
  }

  lemma PacketCodes(pr: Props, text: seq<Byte>, e: Enc, k: Core, probs: seq<Prob>, iv: Interval, x: seq<Byte>, y: Packet)
    requires Alike(pr, text, e, k, probs, iv, x) && PacketOk(y)
    ensures Within(Strokes(EncContext(pr, text, e), y), |probs|)
    ensures After(EncContext(pr, text, e), IsMatch, NOTHING, Strokes(EncContext(pr, text, e), y)) == Some((End(KindOf(y)), Means(y)))
  {
    hide Strokes, Means, After, EncContext, ContextOf;
    var c := EncContext(pr, text, e);
    SameContext(pr, text, e, k, probs, iv, x);
    ContextBytes(c, |probs|);
    PacketWalk(c, y);
    AfterWithin(c, IsMatch, NOTHING, Strokes(c, y), |probs|);
  }

  lemma ContextBytes(c: Context, slots: nat)
    requires ContextOk(c, slots)
    ensures c.matchByte < 256 && PhaseOk(IsMatch)
  {
  }

  /** The decoder reads the packet. */
  lemma PacketRead(pr: Props, text: seq<Byte>, e: Enc, k: Core, probs: seq<Prob>, iv: Interval, x: seq<Byte>, y: Packet)
    requires Alike(pr, text, e, k, probs, iv, x) && PacketOk(y) && Within(Strokes(EncContext(pr, text, e), y), |probs|)
    requires Holds(Coded(Strokes(EncContext(pr, text, e), y), probs, iv).0, x)
    ensures var fin := Coded(Strokes(EncContext(pr, text, e), y), probs, iv);
      && iv.len <= fin.0.len <= |x| && fin.0.len - iv.len <= |x| - iv.len
      && Read(pr, k, x[iv.len..]) ==
           Some(Outcome(KindOf(y), Dec(fin.0.range, At(fin.0, x).code, fin.0.len - iv.len), fin.1))
      && Said(pr, k, x[iv.len..]) == Means(y)
  {
    hide Strokes, Means, After, EncContext, ContextOf, Decode, ItemOf, Coded, ContextOk, PhaseOk;
    var c := EncContext(pr, text, e);
    var s := Strokes(c, y);
    var fin := Coded(s, probs, iv);
    SameContext(pr, text, e, k, probs, iv, x);
    PacketCodes(pr, text, e, k, probs, iv, x, y);
    ContextBytes(c, |probs|);
    HoldsBefore(s, probs, iv, x);
    WalkDecodes(c, IsMatch, NOTHING, s, KindOf(y), Means(y), probs, iv, x);
    WalkOffset(c, IsMatch, NOTHING, probs, At(iv, x), x, iv.len);
    ContextIsOk(pr, k);
  }

  /** Copying repeats the text. */
  lemma {:induction false} CopyRepeats(text: seq<Byte>, n: nat, d: nat, len: nat)
    requires Repeats(text, n, d, len)
    ensures 1 <= d <= |text[..n]| && CopyOut(text[..n], d, len) == text[..n + len]
    decreases len
  {
    if len > 0 {
      assert text[..n + 1] == text[..n] + [text[n]];
      assert text[..n][n - d] == text[n - d];
      CopyRepeats(text, n + 1, d, len - 1);
    }
  }

  lemma StatesAgree(state: nat)
    requires state < 12
    ensures LITERAL_NEXT[state] == LiteralState(state)
    ensures MATCH_NEXT[state] == (if state < 7 then 7 else 10) && REP_NEXT[state] == (if state < 7 then 8 else 11)
    ensures SHORT_REP_NEXT[state] == if state < 7 then 9 else 11
  {
  }

  /** The decoder as far as a symbol's bits go: what they do is another matter. */
  ghost function Moved(k: Core, o: Outcome): Core {
    k.(probs := o.probs, range := o.dec.range, code := o.dec.code)
  }

  /** After a repetition that led the encoder to r. */
  ghost function Repeated(text: seq<Byte>, r: Enc, k: Core, o: Outcome): Core
    requires |r.reps| == 4 && r.n <= |text|
  {
    Moved(k, o).(state := r.state, rep0 := r.reps[0] + 1, rep1 := r.reps[1] + 1, rep2 := r.reps[2] + 1, rep3 := r.reps[3] + 1,
                 out := text[..r.n])
  }

  lemma LiteralDone(pr: Props, text: seq<Byte>, e: Enc, k: Core, o: Outcome, v: Byte)
    requires EncOk(e, text) && Fits(pr, text, e, ALiteral(v)) && k.out == text[..e.n] && k.state == e.state && o.kind == Lit
    ensures e.n < |text| && Effect(pr, k, o, Means(ALiteral(v))) ==
            Some(Moved(k, o).(state := Next(e, ALiteral(v)).state, out := text[..e.n + 1]))
  {
    StatesAgree(e.state);
    assert text[..e.n + 1] == text[..e.n] + [text[e.n]];
  }

  lemma ShortDone(pr: Props, text: seq<Byte>, e: Enc, k: Core, o: Outcome)
    requires EncOk(e, text) && Fits(pr, text, e, AShortRep) && k.out == text[..e.n] && k.state == e.state && o.kind == Rep
    requires k.rep0 == e.reps[0] + 1
    ensures e.n < |text| && Effect(pr, k, o, Means(AShortRep)) ==
            Some(Moved(k, o).(state := Next(e, AShortRep).state, out := text[..e.n + 1]))
  {
    StatesAgree(e.state);
    assert text[..e.n + 1] == text[..e.n] + [text[e.n]];
    assert text[..e.n][e.n - e.reps[0] - 1] == text[e.n - e.reps[0] - 1];
  }

  lemma RepDone(pr: Props, text: seq<Byte>, e: Enc, k: Core, o: Outcome, which: nat, len: nat)
    requires EncOk(e, text) && Fits(pr, text, e, ARep(which, len)) && k.out == text[..e.n] && k.state == e.state && o.kind == Rep
    requires k.rep0 == e.reps[0] + 1 && k.rep1 == e.reps[1] + 1 && k.rep2 == e.reps[2] + 1 && k.rep3 == e.reps[3] + 1
    ensures Next(e, ARep(which, len)).n <= |text|
    ensures Effect(pr, k, o, Means(ARep(which, len))) == Some(Repeated(text, Next(e, ARep(which, len)), k, o))
  {
    hide CopyOut;
    StatesAgree(e.state);
    CopyRepeats(text, e.n, e.reps[which] + 1, len + 2);
  }

  lemma MatchDone(pr: Props, text: seq<Byte>, e: Enc, k: Core, o: Outcome, d: nat, len: nat)
    requires EncOk(e, text) && Fits(pr, text, e, AMatch(d, len)) && k.out == text[..e.n] && k.state == e.state && o.kind == Match
    requires k.rep0 == e.reps[0] + 1 && k.rep1 == e.reps[1] + 1 && k.rep2 == e.reps[2] + 1 && PropsOk(pr)
    ensures Next(e, AMatch(d, len)).n <= |text|
    ensures Effect(pr, k, o, Means(AMatch(d, len))) == Some(Repeated(text, Next(e, AMatch(d, len)), k, o))
  {
    hide CopyOut, SlotOf;
    StatesAgree(e.state);
    CopyRepeats(text, e.n, d + 1, len + 2);
  }

  /** What the packet does to the decoder is what the encoder did. */
  lemma PacketEffect(pr: Props, text: seq<Byte>, e: Enc, k: Core, probs: seq<Prob>, iv: Interval, x: seq<Byte>, y: Packet,
                     o: Outcome, fin: Interval)
    requires Alike(pr, text, e, k, probs, iv, x) && Fits(pr, text, e, y) && o.kind == KindOf(y)
    requires |o.probs| == |probs| && Normal(fin.range) && Holds(fin, x) && o.dec.range == fin.range && o.dec.code == At(fin, x).code < WORD
    ensures Effect(pr, k, o, Means(y)).Some? && EncOk(Next(e, y), text)
    ensures Alike(pr, text, Next(e, y), Effect(pr, k, o, Means(y)).value, o.probs, fin, x)
  {
    hide Effect, Means, Fits, NumProbs, Repeats, Holds, At;
    NextOk(pr, text, e, y);
    match y {
      case ALiteral(v) => LiteralDone(pr, text, e, k, o, v);
      case AShortRep => ShortDone(pr, text, e, k, o);
      case ARep(which, len) => RepDone(pr, text, e, k, o, which, len);
      case AMatch(distance, len) => MatchDone(pr, text, e, k, o, distance, len);
    }
    hide PropsOk;
    EffectOk(pr, k, o, Means(y));
  }

  lemma PacketSymbol(pr: Props, text: seq<Byte>, e: Enc, k: Core, probs: seq<Prob>, iv: Interval, x: seq<Byte>, y: Packet)
    returns (t: Core)
    requires Alike(pr, text, e, k, probs, iv, x) && Fits(pr, text, e, y) && Within(Strokes(EncContext(pr, text, e), y), |probs|)
    requires Holds(Coded(Strokes(EncContext(pr, text, e), y), probs, iv).0, x)
    ensures var fin := Coded(Strokes(EncContext(pr, text, e), y), probs, iv);
      && iv.len <= fin.0.len <= |x|
      && Symbol(pr, k, x[iv.len..]) == Got(t, fin.0.len - iv.len)
      && EncOk(Next(e, y), text) && Alike(pr, text, Next(e, y), t, fin.1, fin.0, x)
  {
    hide Strokes, Means, EncContext, Coded, Effect, Read, Said, Fits;
    var fin := Coded(Strokes(EncContext(pr, text, e), y), probs, iv);
    FitsOk(pr, text, e, y);
    PacketRead(pr, text, e, k, probs, iv, x, y);
    var o := Read(pr, k, x[iv.len..]).value;
    CodeSmall(fin.0, x);
    PacketEffect(pr, text, e, k, probs, iv, x, y, o, fin.0);
    t := Effect(pr, k, o, Means(y)).value;
  }

  lemma FitsOk(pr: Props, text: seq<Byte>, e: Enc, y: Packet)
    requires EncOk(e, text) && Fits(pr, text, e, y)
    ensures PacketOk(y) && e.n < |text|
  {
  }

  lemma CodeSmall(iv: Interval, x: seq<Byte>)
    requires Normal(iv.range) && Holds(iv, x)
    ensures At(iv, x).code < WORD
  {
  }

  // ---------------------------------------------------------------- all packets

  /** From where the encoder is, the decoder goes on to the end of the text. */
  lemma {:induction false} PumpPackets(pr: Props, g: Goal, text: seq<Byte>, e: Enc, k: Core, probs: seq<Prob>, iv: Interval, x: seq<Byte>,
                                       ks: seq<Packet>) returns (t: Core)
    requires DecoderOk(Lzma(pr, g)) && Alike(pr, text, e, k, probs, iv, x) && |text| <= g.limit && AllFit(pr, text, e, ks)
    requires Within(TextStrokes(pr, text, e, ks), |probs|) && Holds(Coded(TextStrokes(pr, text, e, ks), probs, iv).0, x)
    ensures var fin := Coded(TextStrokes(pr, text, e, ks), probs, iv);
      && iv.len <= fin.0.len <= |x|
      && Alike(pr, text, AtEnd(pr, text, e, ks), t, fin.1, fin.0, x)
      && Pump(Lzma(pr, g), Kept(k, false, x[iv.len..])) == Pump(Lzma(pr, g), Kept(t, false, x[fin.0.len..]))
    decreases |ks|
  {
    hide Alike, DecoderOk, Strokes, EncContext, Lzma, Pump, Fits, Symbol, Coded, Holds;
    PropsAre(pr, text, e, k, probs, iv, x);
    if ks == [] {
      t := k;
      CodedNone(probs, iv);
    } else {
      var y, next := ks[0], ks[1..];
      FitsOk(pr, text, e, y);
      NextOk(pr, text, e, y);
      var s, rest := Strokes(EncContext(pr, text, e), y), TextStrokes(pr, text, Next(e, y), next);
      WithinParts(s, rest, |probs|);
      CodedBoth(s, rest, probs, iv);
      var mid := Coded(s, probs, iv);
      HoldsBefore(rest, mid.1, mid.0, x);
      var t1 := PacketSymbol(pr, text, e, k, probs, iv, x, y);
      t := PumpPackets(pr, g, text, Next(e, y), t1, mid.1, mid.0, x, next);
      OnePump(pr, g, text, e, k, probs, iv, x, t1, mid.0);
    }
  }

  lemma PropsAre(pr: Props, text: seq<Byte>, e: Enc, k: Core, probs: seq<Prob>, iv: Interval, x: seq<Byte>)
    requires Alike(pr, text, e, k, probs, iv, x)
    ensures PropsOk(pr) && EncOk(e, text) && Normal(iv.range) && iv.len <= |x| && !k.ended && |k.out| == e.n && Holds(iv, x)
  {
    hide NumProbs;
  }

  lemma CodedNone(probs: seq<Prob>, iv: Interval)
    requires Normal(iv.range)
    ensures Coded([], probs, iv) == (iv, probs)
  {
  }

  lemma WithinParts(s: seq<Stroke>, t: seq<Stroke>, n: nat)
    requires Within(s + t, n)
    ensures Within(s, n) && Within(t, n)
  {
    forall i | 0 <= i < |s| && s[i].q.Adaptive? ensures s[i].q.ctx < n { assert (s + t)[i] == s[i]; }
    forall i | 0 <= i < |t| && t[i].q.Adaptive? ensures t[i].q.ctx < n { assert (s + t)[|s| + i] == t[i]; }
  }

  lemma OnePump(pr: Props, g: Goal, text: seq<Byte>, e: Enc, k: Core, probs: seq<Prob>, iv: Interval, x: seq<Byte>, t: Core, fin: Interval)
    requires DecoderOk(Lzma(pr, g)) && Alike(pr, text, e, k, probs, iv, x) && e.n < |text| <= g.limit
    requires iv.len <= fin.len <= |x| && Symbol(pr, k, x[iv.len..]) == Got(t, fin.len - iv.len)
    ensures Pump(Lzma(pr, g), Kept(k, false, x[iv.len..])) == Pump(Lzma(pr, g), Kept(t, false, x[fin.len..]))
  {
    hide DecoderOk, Symbol, Lzma, NumProbs, Holds, At, Pump;
    assert x[iv.len..][fin.len - iv.len..] == x[fin.len..];
    PumpSame(pr, g, Kept(k, false, x[iv.len..]), Kept(t, false, x[fin.len..]));
  }

  /** Strokes of a fitting text need no probability that is not there. */
  lemma {:induction false} TextWithin(pr: Props, text: seq<Byte>, e: Enc, ks: seq<Packet>)
    requires PropsOk(pr) && EncOk(e, text) && AllFit(pr, text, e, ks)
    ensures Within(TextStrokes(pr, text, e, ks), NumProbs(pr))
    decreases |ks|
  {
    hide Strokes, EncContext, NumProbs, Fits;
    if ks != [] {
      FitsOk(pr, text, e, ks[0]);
      NextOk(pr, text, e, ks[0]);
      TextWithin(pr, text, Next(e, ks[0]), ks[1..]);
      StrokesWithin(pr, text, e, ks[0]);
      BothWithin(Strokes(EncContext(pr, text, e), ks[0]), TextStrokes(pr, text, Next(e, ks[0]), ks[1..]), NumProbs(pr));
    }
  }

  lemma BothWithin(s: seq<Stroke>, t: seq<Stroke>, n: nat)
    requires Within(s, n) && Within(t, n)
    ensures Within(s + t, n)
  {
  }

  lemma StrokesWithin(pr: Props, text: seq<Byte>, e: Enc, y: Packet)
    requires PropsOk(pr) && EncOk(e, text) && PacketOk(y)
    ensures Within(Strokes(EncContext(pr, text, e), y), NumProbs(pr))
  {
    hide Strokes, EncContext, Means, NumProbs, After;
    var c := EncContext(pr, text, e);
    EncContextOk(pr, text, e);
    ContextBytes(c, NumProbs(pr));
    PacketWalk(c, y);
    AfterWithin(c, IsMatch, NOTHING, Strokes(c, y), NumProbs(pr));
  }

  lemma EncContextOk(pr: Props, text: seq<Byte>, e: Enc)
    requires PropsOk(pr) && EncOk(e, text)
    ensures ContextOk(EncContext(pr, text, e), NumProbs(pr))
  {
    hide Pow2, NumProbs;
    PosStates(pr.pb, e.n);
    if e.n > 0 { LiteralFits(pr, e.n, text[e.n - 1]); } else { LiteralFits(pr, 0, 0); }
  }

  // ---------------------------------------------------------------- whole streams

  /** What the encoder writes for a text: its packets, and the end mark if one is wanted. */
  ghost function StreamStrokes(pr: Props, text: seq<Byte>, ks: seq<Packet>, mark: bool): seq<Stroke>
    requires PropsOk(pr) && AllFit(pr, text, AT_START, ks)
  {
    TextStrokes(pr, text, AT_START, ks) + if mark then MarkStrokes(pr, text, ks) else []
  }

  const MARK: Packet := AMatch(0xFFFFFFFF, 0)

  ghost function MarkStrokes(pr: Props, text: seq<Byte>, ks: seq<Packet>): seq<Stroke>
    requires PropsOk(pr) && AllFit(pr, text, AT_START, ks)
  {
    Strokes(EncContext(pr, text, AtEnd(pr, text, AT_START, ks)), MARK)
  }

  lemma StreamWithin(pr: Props, text: seq<Byte>, ks: seq<Packet>, mark: bool)
    requires PropsOk(pr) && AllFit(pr, text, AT_START, ks)
    ensures Within(StreamStrokes(pr, text, ks, mark), NumProbs(pr))
  {
    hide NumProbs, Strokes, EncContext, TextStrokes;
    TextWithin(pr, text, AT_START, ks);
    StrokesWithin(pr, text, AtEnd(pr, text, AT_START, ks), MARK);
    BothWithin(TextStrokes(pr, text, AT_START, ks), if mark then MarkStrokes(pr, text, ks) else [], NumProbs(pr));
  }

  /** The bytes written: the strokes coded from the first interval on, and all digits of its low end. */
  ghost function LzmaBytes(pr: Props, text: seq<Byte>, ks: seq<Packet>, mark: bool): seq<Byte>
    requires PropsOk(pr) && AllFit(pr, text, AT_START, ks)
  {
    StreamWithin(pr, text, ks, mark);
    var fin := Coded(StreamStrokes(pr, text, ks, mark), InitProbs(pr), START).0;
    BigEndian(fin.low, fin.len)
  }

  lemma BytesHold(pr: Props, text: seq<Byte>, ks: seq<Packet>, mark: bool, rest: seq<Byte>)
    requires PropsOk(pr) && AllFit(pr, text, AT_START, ks)
    ensures Within(StreamStrokes(pr, text, ks, mark), NumProbs(pr))
    ensures var fin, b := Coded(StreamStrokes(pr, text, ks, mark), InitProbs(pr), START).0, LzmaBytes(pr, text, ks, mark);
      |b| == fin.len >= 5 && b[0] == 0 && Holds(fin, b + rest) && At(fin, b + rest).code == 0
  {
    hide StreamStrokes, Coded, NumProbs, InitProbs;
    StreamWithin(pr, text, ks, mark);
    var s := StreamStrokes(pr, text, ks, mark);
    assert START.low + START.range <= Pow256(4) by { assert Pow256(2) == 65536; }
    FirstByteZero(s, InitProbs(pr), START);
    DigitsHold(Coded(s, InitProbs(pr), START).0, rest);
  }

  lemma DigitsHold(fin: Interval, rest: seq<Byte>)
    requires fin.len >= 5 && fin.low + fin.range <= Pow256(fin.len - 1) && Normal(fin.range)
    ensures var b := BigEndian(fin.low, fin.len); |b| == fin.len && b[0] == 0 && Holds(fin, b + rest) && At(fin, b + rest).code == 0
  {
    BigEndianLead(fin.low, fin.len);
    assert (BigEndian(fin.low, fin.len) + rest)[..fin.len] == BigEndian(fin.low, fin.len);
    assert Pow256(fin.len) == 256 * Pow256(fin.len - 1);
  }

  /** After the five bytes of set-up the decoder is where the encoder began. */
  lemma StartAlike(pr: Props, text: seq<Byte>, x: seq<Byte>)
    requires PropsOk(pr) && Holds(START, x) && |x| >= 5 && x[0] == 0
    ensures Alike(pr, text, AT_START, SetUp(Start(pr), x[..RC_INIT_SIZE]), InitProbs(pr), START, x)
  {
    hide NumProbs, InitProbs;
    HeaderValue(x);
    assert Num(x[..5]) == Num(x[..5][..5]) by { assert x[..5][..5] == x[..5]; }
    HeaderValue(x[..5]);
  }

  lemma SetUpPump(pr: Props, g: Goal, x: seq<Byte>)
    requires DecoderOk(Lzma(pr, g)) && |x| >= 5 && x[0] == 0
    ensures Pump(Lzma(pr, g), Kept(Start(pr), true, x)) ==
            Pump(Lzma(pr, g), Kept(SetUp(Start(pr), x[..RC_INIT_SIZE]), false, x[5..]))
  {
    hide DecoderOk, Symbol, Lzma, SetUp, Pump, InitProbs;
    PumpSame(pr, g, Kept(Start(pr), true, x), Kept(SetUp(Start(pr), x[..RC_INIT_SIZE]), false, x[5..]));
  }

  /** The decoder at the end of the text. */
  lemma TextPumped(pr: Props, g: Goal, text: seq<Byte>, ks: seq<Packet>, mark: bool, rest: seq<Byte>) returns (t: Core, probs: seq<Prob>, iv: Interval)
    requires PropsOk(pr) && AllFit(pr, text, AT_START, ks) && |text| <= g.limit && DecoderOk(Lzma(pr, g))
    ensures var x := LzmaBytes(pr, text, ks, mark) + rest;
      && Alike(pr, text, AtEnd(pr, text, AT_START, ks), t, probs, iv, x)
      && Pump(Lzma(pr, g), Kept(Start(pr), true, x)) == Pump(Lzma(pr, g), Kept(t, false, x[iv.len..]))
      && (!mark ==> t.code == 0 && iv.len == |LzmaBytes(pr, text, ks, mark)|)
    ensures mark ==> Within(MarkStrokes(pr, text, ks), |probs|)
    ensures mark ==> var fin, x := Coded(MarkStrokes(pr, text, ks), probs, iv).0, LzmaBytes(pr, text, ks, mark) + rest;
      Holds(fin, x) && At(fin, x).code == 0 && fin.len == |LzmaBytes(pr, text, ks, mark)|
  {
    hide DecoderOk, Lzma, Pump, Coded, Strokes, EncContext, TextStrokes, NumProbs, InitProbs, LzmaBytes, Alike, Holds, At, SetUp, Start;
    var b := LzmaBytes(pr, text, ks, mark);
    var x, s, m := b + rest, TextStrokes(pr, text, AT_START, ks), MarkStrokes(pr, text, ks);
    BytesHold(pr, text, ks, mark, rest);
    TextWithin(pr, text, AT_START, ks);
    StrokesWithin(pr, text, AtEnd(pr, text, AT_START, ks), MARK);
    var last := if mark then m else [];
    CodedBoth(s, last, InitProbs(pr), START);
    var mid := Coded(s, InitProbs(pr), START);
    probs, iv := mid.1, mid.0;
    if !mark { CodedNone(probs, iv); }
    HoldsBefore(last, probs, iv, x);
    HoldsBefore(s, InitProbs(pr), START, x);
    SetUpPump(pr, g, x);
    StartAlike(pr, text, x);
    t := PumpPackets(pr, g, text, AT_START, SetUp(Start(pr), x[..RC_INIT_SIZE]), InitProbs(pr), START, x, ks);
    if !mark { CodeIs(pr, text, AtEnd(pr, text, AT_START, ks), t, probs, iv, x); }
  }

  lemma CodeIs(pr: Props, text: seq<Byte>, e: Enc, k: Core, probs: seq<Prob>, iv: Interval, x: seq<Byte>)
    requires Alike(pr, text, e, k, probs, iv, x) && e.n == |text|
    ensures Normal(iv.range) && Holds(iv, x) && k.code == At(iv, x).code && k.out == text && !k.ended && iv.len <= |x|
  {
    hide NumProbs;
    assert text[..|text|] == text;
  }

  /**
   * A text written without an end mark comes back whole, in either finish mode, when its length is the limit; the bytes
   * that follow are not used.
   */
  lemma ThereAndBack(pr: Props, text: seq<Byte>, ks: seq<Packet>, finish: bool, rest: seq<Byte>)
    requires PropsOk(pr) && AllFit(pr, text, AT_START, ks)
    ensures var b := LzmaBytes(pr, text, ks, false);
            VerdictOn(pr, Goal(|text|, finish), b + rest) == Fine(text, |b|, MaybeFinishedWithoutMark)
  {
    hide Alike, Lzma, Pump, DecoderOk, LzmaBytes, Start;
    var g := Goal(|text|, finish);
    LzmaMayBeFed(pr, g);
    var t, probs, iv := TextPumped(pr, g, text, ks, false, rest);
    var b := LzmaBytes(pr, text, ks, false);
    CodeIs(pr, text, AtEnd(pr, text, AT_START, ks), t, probs, iv, b + rest);
    LzmaParts(pr, g, t, (b + rest)[iv.len..]);
    PumpStopped(Lzma(pr, g), Kept(t, false, (b + rest)[iv.len..]));
    assert text[..|text|] == text;
  }

  /** The end mark read. */
  lemma MarkSymbol(pr: Props, text: seq<Byte>, e: Enc, k: Core, probs: seq<Prob>, iv: Interval, x: seq<Byte>) returns (t: Core)
    requires Alike(pr, text, e, k, probs, iv, x) && e.n == |text| && Within(Strokes(EncContext(pr, text, e), MARK), |probs|)
    requires Holds(Coded(Strokes(EncContext(pr, text, e), MARK), probs, iv).0, x)
    ensures var fin := Coded(Strokes(EncContext(pr, text, e), MARK), probs, iv).0;
      && iv.len <= fin.len <= |x| && Symbol(pr, k, x[iv.len..]) == Got(t, fin.len - iv.len)
      && t.ended && t.out == text && t.code == At(fin, x).code
  {
    hide Strokes, EncContext, Coded, Read, Said, SlotOf, CopyOut, NumProbs;
    var fin := Coded(Strokes(EncContext(pr, text, e), MARK), probs, iv);
    PacketRead(pr, text, e, k, probs, iv, x, MARK);
    MarkSlot();
    t := Effect(pr, k, Read(pr, k, x[iv.len..]).value, Means(MARK)).value;
    assert text[..|text|] == text;
  }

  lemma MarkSlot()
    ensures SlotOf(0xFFFFFFFF) >= 14
  {
    hide SlotOf;
    Halved(0xFFFFFFFF);
    Halved(0x7FFFFFFF);
    Halved(0x3FFFFFFF);
    Halved(0x1FFFFFFF);
    Halved(0x0FFFFFFF);
    Halved(0x07FFFFFF);
    Halved(0x03FFFFFF);
  }

  lemma Halved(d: nat)
    requires d >= 4
    ensures SlotOf(d) == SlotOf(d / 2) + 2
  {
  }

  /** Written with an end mark it comes back whole whatever limit beyond its length is set. */
  lemma ThereAndBackMarked(pr: Props, text: seq<Byte>, ks: seq<Packet>, g: Goal, rest: seq<Byte>)
    requires PropsOk(pr) && AllFit(pr, text, AT_START, ks) && |text| < g.limit
    ensures var b := LzmaBytes(pr, text, ks, true);
            VerdictOn(pr, g, b + rest) == Fine(text, |b|, FinishedWithMark)
  {
    hide Alike, Lzma, Pump, DecoderOk, LzmaBytes, Start, Coded, EncContext, Strokes, Symbol;
    LzmaMayBeFed(pr, g);
    var t, probs, iv := TextPumped(pr, g, text, ks, true, rest);
    var b := LzmaBytes(pr, text, ks, true);
    var x, e := b + rest, AtEnd(pr, text, AT_START, ks);
    CodeIs(pr, text, e, t, probs, iv, x);
    var u := MarkSymbol(pr, text, e, t, probs, iv, x);
    var fin := Coded(MarkStrokes(pr, text, ks), probs, iv).0;
    assert x[iv.len..][fin.len - iv.len..] == x[fin.len..];
    PumpSame(pr, g, Kept(t, false, x[iv.len..]), Kept(u, false, x[fin.len..]));
    LzmaParts(pr, g, u, x[fin.len..]);
    PumpStopped(Lzma(pr, g), Kept(u, false, x[fin.len..]));
    assert text[..|text|] == text;
  }
}
