/**
 * The LZMA decoder as it is called: piece by piece, up to a limit that may lie inside a match.  What it has
 * written after a call, and what it says, depends on all input so far and the limit, not on the pieces.
 */
module LzmaDecoder {
  import opened Bytes
  import opened RangeCoder
  import opened LzmaSymbol
  import opened LzmaDummy
  import opened LzmaFeed
  import opened LzmaCore
  import opened LzmaStream
  import opened LzmaDict
  import opened LzmaWork

  function InitProbs(pr: Props): (ps: seq<Prob>)
    ensures |ps| == NumProbs(pr)
  {
    seq(NumProbs(pr), _ => 1024)
  }

  /** A decoder before its first byte. */
  function Start(pr: Props): Core {
    Core(InitProbs(pr), 0, 1, 1, 1, 1, 0, 0, [], false)
  }

  datatype Status = NotSpecified | FinishedWithMark | NotFinished | NeedsMoreInput | MaybeFinishedWithoutMark

  /** What a caller sees: an error, or the output, how much of the input the symbols used, and the status. */
  datatype Verdict = Wrong | Fine(out: seq<Byte>, used: int, status: Status)

  /** What a decoder that has stopped says. */
  ghost function StatusOf(g: Goal, k: Kept<Core>): Status {
    if k.s.ended then FinishedWithMark
    else if k.flush || |k.s.out| < g.limit then NeedsMoreInput
    else if |k.s.out| == g.limit && k.s.code == 0 then MaybeFinishedWithoutMark
    else if g.finish then NeedsMoreInput
    else NotFinished
  }

  /** What decoding the input up to the goal gives. */
  ghost function VerdictOn(pr: Props, g: Goal, input: seq<Byte>): Verdict {
    LzmaMayBeFed(pr, g);
    match Pump(Lzma(pr, g), Kept(Start(pr), true, input))
    case None => Wrong
    case Some(k) =>
      if k.s.ended && k.s.code != 0 then Wrong else Fine(k.s.out[..Written(g, k.s)], |input| - |k.rest|, StatusOf(g, k))
  }

  class LzmaDec {
    const pr: Props
    const probs: array<Prob>
    const dic: array<Byte>
    var state: nat
    var rep0: nat
    var rep1: nat
    var rep2: nat
    var rep3: nat
    var range: nat
    var code: nat
    var dicPos: nat
    var processedPos: nat
    var checkDicSize: nat
    var remainLen: nat
    var needFlush: bool
    var needInitState: bool
    var tempBuf: seq<Byte>
    var buf: nat
    ghost var out: seq<Byte>
    ghost var goal: Goal
    ghost var fed: seq<Byte>

    /** The state between symbols that the fields stand for, a match being written to its end. */
    ghost function Now(): Core
      reads this`state, this`rep0, this`rep1, this`rep2, this`rep3, this`range, this`code, this`remainLen, this`needInitState, this`out, probs
    {
      if needInitState then Start(pr).(range := range, code := code)
      else Core(probs[..], state, rep0, rep1, rep2, rep3, range, code, WithRest(out, rep0, remainLen), remainLen >= SPEC_LEN_START)
    }

    ghost predicate Fit()
      reads this`state, this`rep0, this`rep1, this`rep2, this`rep3, this`range, this`code, this`remainLen, this`needInitState, this`out,
            this`dicPos, this`processedPos, this`checkDicSize, this`needFlush, probs, dic
    {
      && Fits(pr, dic[..], dicPos, processedPos, checkDicSize, out) && probs.Length == NumProbs(pr)
      && (needInitState ==> out == [] && remainLen == 0) && (!needFlush ==> CoreOk(pr, Now()))
      && (0 < remainLen < SPEC_LEN_START ==> 1 <= rep0 <= |out| && rep0 <= dic.Length)
    }

    /** The dictionary size counts as soon as so much has been written. */
    ghost predicate Checked()
      reads this`checkDicSize, this`processedPos
    {
      checkDicSize == 0 ==> processedPos < pr.dicSize
    }

    constructor (pr: Props, dicBufSize: nat)
      requires PropsOk(pr)
      ensures Valid() && this.pr == pr && dic.Length == dicBufSize && fresh(dic) && fresh(probs) && fed == [] && out == [] && dicPos == 0 && remainLen == 0
    {
      this.pr := pr;
      probs := new Prob[NumProbs(pr)];
      dic := new Byte[dicBufSize];
      state, rep0, rep1, rep2, rep3, range, code := 0, 0, 0, 0, 0, 0, 0;
      dicPos, processedPos, checkDicSize, remainLen := 0, 0, 0, 0;
      needFlush, needInitState, tempBuf, buf := true, true, [], 0;
      out, fed, goal := [], [], Goal(0, false);
      new;
      hide CoreOk, InitProbs, NumProbs, Symbol, Lzma, DecoderOk, Pump, Keeps, Written;
      NothingYet(pr);
      NoneKept(dic[..]);
    }

    lemma NothingYet(pr: Props)
      ensures DecoderOk(Lzma(pr, Goal(0, false))) && Pump(Lzma(pr, Goal(0, false)), Kept(Start(pr), true, [])) == Some(Kept(Start(pr), true, []))
      ensures Written(Goal(0, false), Start(pr)) == 0
    {
      hide Lzma, DecoderOk, Pump, InitProbs;
      LzmaMayBeFed(pr, Goal(0, false));
      LzmaParts(pr, Goal(0, false), Start(pr), []);
      PumpStopped(Lzma(pr, Goal(0, false)), Kept(Start(pr), true, []));
    }

    lemma NoneKept(dic: seq<Byte>)
      ensures Keeps(dic, 0, [])
    {
    }

    method InitStateReal()
      requires Fit() && needInitState
      modifies probs, this`state, this`rep0, this`rep1, this`rep2, this`rep3, this`needInitState
      ensures Fit() && !needInitState && Now() == old(Now())
    {
      hide CoreOk, Fits, NumProbs, WithRest, InitProbs;
      var i := 0;
      while i < probs.Length
        invariant 0 <= i <= probs.Length && forall j :: 0 <= j < i ==> probs[j] == PROB_INIT
        modifies probs
      {
        probs[i] := PROB_INIT;
        i := i + 1;
      }
      rep0, rep1, rep2, rep3, state, needInitState := 1, 1, 1, 1, 0, false;
      assert probs[..] == InitProbs(pr) by { InitIs(pr, probs[..]); }
      NothingLeft(out, rep0);
    }

    /** len bytes of the rest of a match are written. */
    method WriteSome(len: nat)
      requires Fit() && 0 <= len <= remainLen && 0 < remainLen < SPEC_LEN_START && dicPos + len <= dic.Length
      modifies dic, this`dicPos, this`processedPos, this`checkDicSize, this`remainLen, this`out
      ensures Fit() && Now() == old(Now()) && (old(Checked()) ==> Checked())
      ensures remainLen == old(remainLen) - len && dicPos == old(dicPos) + len && |out| == |old(out)| + len && old(out) <= out
    {
      hide CoreOk, Keeps, NumProbs, CopyOut, WithRest;
      if checkDicSize == 0 && pr.dicSize - processedPos <= len { checkDicSize := pr.dicSize; }
      processedPos := processedPos + len;
      RestSplit(out, rep0, remainLen, len);
      remainLen := remainLen - len;
      ghost var out2;
      dicPos, out2 := CopyRest(dic, dicPos, rep0, len, out);
      out := out2;
    }

    /** As much of a match as fits is written. */
    method WriteRem(limit: nat)
      requires Fit() && dicPos <= limit <= dic.Length
      modifies dic, this`dicPos, this`processedPos, this`checkDicSize, this`remainLen, this`out
      ensures Fit() && Now() == old(Now()) && (old(Checked()) ==> Checked()) && (0 < remainLen < SPEC_LEN_START ==> dicPos == limit)
      ensures |out| - dicPos == old(|out| - dicPos) && dicPos <= limit && (remainLen >= SPEC_LEN_START <==> old(remainLen) >= SPEC_LEN_START)
      ensures dicPos >= old(dicPos) && remainLen <= old(remainLen) && (old(remainLen) >= SPEC_LEN_START ==> out == old(out) && dicPos == old(dicPos))
    {
      hide Fits, CoreOk, NumProbs, WithRest;
      if remainLen != 0 && remainLen < SPEC_LEN_START {
        var len := remainLen;
        if limit - dicPos < len { len := limit - dicPos; }
        WriteSome(len);
      }
    }

    // ---------------------------------------------------------------- decoding from input that is known to suffice

    /** Taking the bytes y from the state k0 leads to the same future as the state k. */
    ghost predicate Leads(k0: Core, y: seq<Byte>, k: Core)
      reads this`goal
    {
      DecoderOk(Lzma(pr, goal)) && Pump(Lzma(pr, goal), Kept(k0, false, y)) == Pump(Lzma(pr, goal), Kept(k, false, []))
    }

    /** The locals of the loop, after some symbols from s; n is how far the output is ahead of the dictionary's place. */
    ghost predicate Stand(w: Work, s: seq<Byte>, k0: Core, limit: nat, n: int)
      reads this`goal, w, w.probs, w.dic
    {
      && w.pr == pr && w.probs == probs && w.dic == dic && w.src == s && w.Shape() && 0x10000 <= w.range < WORD && w.code < WORD
      && w.Filled().Some? && w.buf + w.Filled().value.pos <= |s| && CoreOk(pr, w.Whole())
      && Leads(k0, s[..w.buf + w.Filled().value.pos], w.Whole()) && (w.len >= SPEC_LEN_START <==> w.Whole().ended)
      && |w.out| - w.dicPos == n && n + limit <= goal.limit && w.dicPos <= limit <= dic.Length && (0 < w.len < SPEC_LEN_START ==> w.dicPos == limit && 1 <= w.rep0 <= |w.out| && w.rep0 <= dic.Length)
      && (w.checkDicSize == 0 && w.dicPos < limit ==> |w.out| + (limit - w.dicPos) <= pr.dicSize)
    }

    /** The place behind the last symbol, its normalisation included. */
    ghost function Place(w: Work): nat
      reads w`range, w`code, w`buf
    {
      if w.Filled().Some? then w.buf + w.Filled().value.pos else w.buf
    }

    /** Input from the place on. */
    ghost function From(s: seq<Byte>, n: nat): seq<Byte> {
      if n <= |s| then s[n..] else []
    }

    /** The next symbol may be decoded: the limit is not reached, or only the end mark may come. */
    ghost predicate MayGo(k: Core, b: seq<Byte>, room: int)
      reads this`goal
    {
      && Running(Lzma(pr, goal), k) && !Symbol(pr, k, b).More?
      && (room > 0 || (room == 0 && |k.out| >= goal.limit && CoreOk(pr, k) && Read(pr, k, b).Some? && Read(pr, k, b).value.kind == Match))
    }

    /** One symbol of the loop. */
    method StepWork(w: Work, s: seq<Byte>, limit: nat, ghost k0: Core, ghost n: int) returns (ok: bool)
      requires Stand(w, s, k0, limit, n) && w.len == 0 && MayGo(w.Whole(), From(s, Place(w)), limit - w.dicPos)
      modifies w, probs, dic
      ensures ok ==> Stand(w, s, k0, limit, n) && Room(goal, w.Whole()) < Room(goal, old(w.Whole()))
      ensures !ok ==> Pump(Lzma(pr, goal), Kept(k0, false, s)).None?
      ensures w.buf >= old(w.buf)
    {
      hide Fits, CoreOk, NumProbs, WithRest, Pump, DecoderOk, Symbol, Lzma, Effect, Read, Fill, Work.Stepped, Leads;
      ghost var k, p, pos0 := w.Whole(), Place(w), w.dicPos;
      ghost var b := s[p..];
      SetIs(w, s, k0, limit, n);
      TakeIt(k, b, s[..p], k0, s, p);
      ghost var o, a;
      ok, o, a := w.One(limit);
      if ok {
        ghost var t, u := Symbol(pr, k, b).next, Symbol(pr, k, b).used;
        SymbolFacts(pr, k, b);
        LzmaParts(pr, goal, k, b);
        RoomDrops(k, t);
        w.WholeIs(k, t, o, a, pos0, limit, p + u);
        StepStands(w, s, k0, limit, n, k, t, o, a, pos0, p, u);
      }
    }

    lemma RoomDrops(k: Core, t: Core)
      requires Onwards(k, t) && !k.ended && (|k.out| < goal.limit || t.ended)
      ensures Room(goal, t) < Room(goal, k)
    {
    }

    /** The locals are ready for a symbol. */
    lemma SetIs(w: Work, s: seq<Byte>, k0: Core, limit: nat, n: int)
      requires Stand(w, s, k0, limit, n) && w.len == 0 && MayGo(w.Whole(), From(s, Place(w)), limit - w.dicPos)
      ensures w.Set() && w.Now() == w.Whole() && w.Rest() == s[Place(w)..] && !w.Whole().ended
      ensures w.dicPos < limit || Read(pr, w.Now(), w.Rest()).value.kind == Match
    {
      hide Fits, NumProbs, Pump, DecoderOk, Lzma, Read, Fill, CopyOut, CoreOk;
      NothingLeft(w.out, w.rep0);
    }

    /** What the symbol does to the future. */
    lemma TakeIt(k: Core, b: seq<Byte>, y: seq<Byte>, k0: Core, s: seq<Byte>, p: nat)
      requires Leads(k0, y, k) && Running(Lzma(pr, goal), k) && p <= |s| && b == s[p..] && y == s[..p]
      ensures Symbol(pr, k, b).Got? && (|k.out| < goal.limit || Symbol(pr, k, b).next.ended) ==>
        Symbol(pr, k, b).used <= |b| && Leads(k0, s[..p + Symbol(pr, k, b).used], Symbol(pr, k, b).next)
      ensures Symbol(pr, k, b).Bad? || (Symbol(pr, k, b).Got? && |k.out| >= goal.limit && !Symbol(pr, k, b).next.ended) ==>
        Pump(Lzma(pr, goal), Kept(k0, false, s)).None?
    {
      hide Pump, DecoderOk, Symbol, Lzma, Running, Wished;
      WishedIs(pr, goal, k, b);
      TakeFromKept(Lzma(pr, goal), Kept(k0, false, y), k, [], b);
      assert [] + b == b;
      Rejoined(s, p, if Symbol(pr, k, b).Got? then Symbol(pr, k, b).used else 0);
    }

    /** After a symbol the locals stand as before it. */
    lemma StepStands(w: Work, s: seq<Byte>, k0: Core, limit: nat, n: int, k: Core, t: Core, o: Outcome, a: Acc, pos0: nat, p: nat, u: nat)
      requires w.pr == pr && w.probs == probs && w.dic == dic && w.src == s && w.Stepped(k, t, o, a, pos0, limit, p + u)
      requires w.Whole() == t && w.Shape() && CoreOk(pr, t) && (t.ended <==> w.len >= SPEC_LEN_START) && Leads(k0, s[..p + u], t)
      requires |k.out| - pos0 == n && pos0 <= limit <= dic.Length && n + limit <= goal.limit
      requires !t.ended ==> |w.out| == |k.out| + (w.dicPos - pos0) && pos0 < w.dicPos <= limit
      requires !t.ended && w.len > 0 ==> w.dicPos == limit && 1 <= w.rep0 <= |w.out| && w.rep0 <= dic.Length
      requires t.ended ==> w.dicPos == pos0 && |w.out| == |k.out|
      requires w.checkDicSize == 0 && pos0 < limit ==> |k.out| + (limit - pos0) <= pr.dicSize
      ensures Stand(w, s, k0, limit, n)
    {
      hide Fits, CoreOk, Pump, DecoderOk, Lzma, Effect, CopyOut, Leads, Fill, Work.Done, Work.Whole;
    }

    /** The loop may go round again: 20 bytes are left, and so is room. */
    lemma GoesOn(w: Work, s: seq<Byte>, k0: Core, limit: nat, n: int, bufLimit: int)
      requires Stand(w, s, k0, limit, n) && w.dicPos < limit && w.buf < bufLimit && bufLimit + REQUIRED_INPUT_MAX <= |s| && w.len < SPEC_LEN_START
      ensures w.len == 0 && MayGo(w.Whole(), From(s, Place(w)), limit - w.dicPos) && |w.Whole().out| < goal.limit
    {
      hide Fits, CoreOk, NumProbs, Pump, DecoderOk, Symbol, Lzma, Read, Leads, CopyOut;
      NothingLeft(w.out, w.rep0);
      LzmaParts(pr, goal, w.Whole(), []);
      SymbolFacts(pr, w.Whole(), From(s, Place(w)));
    }

    /** At first the locals are the fields. */
    lemma WorkStarts(w: Work, s: seq<Byte>, k0: Core, limit: nat, n: int, k: Core)
      requires Fit() && !needFlush && !needInitState && remainLen == 0 && buf <= |s| && Leads(k0, s[..buf], Now()) && k == Now()
      requires dicPos <= limit <= dic.Length && n == |out| - dicPos && n + limit <= goal.limit
      requires checkDicSize == 0 && dicPos < limit ==> |out| + (limit - dicPos) <= pr.dicSize
      requires w.pr == pr && w.probs == probs && w.dic == dic && w.src == s && w.checkDicSize == checkDicSize
      requires w.state == state && w.rep0 == rep0 && w.rep1 == rep1 && w.rep2 == rep2 && w.rep3 == rep3
      requires w.dicPos == dicPos && w.processedPos == processedPos && w.len == 0 && w.range == range && w.code == code && w.buf == buf && w.out == out
      ensures Stand(w, s, k0, limit, n) && w.Whole() == k && Place(w) == buf
    {
      hide Fits, NumProbs, Pump, DecoderOk, Lzma, CopyOut, Leads;
    }

    /** The loop: at least one symbol, then more while there is input for any symbol, and room. */
    method RunWork(w: Work, s: seq<Byte>, limit: nat, bufLimit: int, ghost k0: Core, ghost n: int) returns (ok: bool)
      requires Stand(w, s, k0, limit, n) && w.len == 0 && MayGo(w.Whole(), From(s, Place(w)), limit - w.dicPos)
      requires bufLimit <= w.buf || bufLimit + REQUIRED_INPUT_MAX <= |s|
      modifies w, probs, dic
      ensures ok ==> Stand(w, s, k0, limit, n) && Room(goal, w.Whole()) < Room(goal, old(w.Whole()))
      ensures !ok ==> Pump(Lzma(pr, goal), Kept(k0, false, s)).None?
      ensures w.buf >= old(w.buf)
    {
      hide Fits, CoreOk, NumProbs, WithRest, Pump, DecoderOk, Symbol, Lzma, Read, Leads, MayGo, Fill, Work.Whole;
      LzmaMayBeFed(pr, goal);
      ok := StepWork(w, s, limit, k0, n);
      while ok && w.dicPos < limit && w.buf < bufLimit && w.len < SPEC_LEN_START
        invariant ok ==> Stand(w, s, k0, limit, n) && Room(goal, w.Whole()) < Room(goal, old(w.Whole()))
        invariant !ok ==> Pump(Lzma(pr, goal), Kept(k0, false, s)).None?
        invariant w.buf >= old(w.buf)
        decreases ok, if ok then Room(goal, w.Whole()) else 0
      {
        GoesOn(w, s, k0, limit, n, bufLimit);
        ok := StepWork(w, s, limit, k0, n);
      }
    }

    /** Symbols straight from s, until little of it is left or the limit is reached; at an error nothing is stored. */
    method DecodeReal(s: seq<Byte>, limit: nat, bufLimit: int, ghost k0: Core) returns (ok: bool)
      requires Fit() && !needFlush && !needInitState && remainLen == 0 && buf <= |s| && Leads(k0, s[..buf], Now())
      requires dicPos <= limit <= dic.Length && |out| - dicPos + limit <= goal.limit && MayGo(Now(), From(s, buf), limit - dicPos)
      requires checkDicSize == 0 && dicPos < limit ==> |out| + (limit - dicPos) <= pr.dicSize
      requires bufLimit <= buf || bufLimit + REQUIRED_INPUT_MAX <= |s|
      modifies this`state, this`rep0, this`rep1, this`rep2, this`rep3, this`range, this`code, this`dicPos, this`processedPos
      modifies this`remainLen, this`buf, this`out, probs, dic
      ensures ok ==> Fit() && old(buf) <= buf <= |s| && Leads(k0, s[..buf], Now()) && Room(goal, Now()) < Room(goal, old(Now()))
      ensures ok ==> |out| - dicPos == old(|out| - dicPos) && dicPos <= limit && (0 < remainLen < SPEC_LEN_START ==> dicPos == limit)
      ensures !ok ==> Pump(Lzma(pr, goal), Kept(k0, false, s)).None?
    {
      hide Fits, CoreOk, NumProbs, WithRest, Pump, DecoderOk, Symbol, Lzma, Read, Leads, MayGo, Stand, Work.Whole, Fill;
      ghost var k, n: int := Now(), |out| - dicPos;
      var w := Load(s);
      WorkStarts(w, s, k0, limit, n, k);
      ok := RunWork(w, s, limit, bufLimit, k0, n);
      if ok { Store(w, s, limit, k0, n); }
    }

    /** The fields become locals. */
    method Load(s: seq<Byte>) returns (w: Work)
      ensures fresh(w) && w.pr == pr && w.probs == probs && w.dic == dic && w.src == s && w.checkDicSize == checkDicSize
      ensures w.state == state && w.rep0 == rep0 && w.rep1 == rep1 && w.rep2 == rep2 && w.rep3 == rep3
      ensures w.dicPos == dicPos && w.processedPos == processedPos && w.len == 0 && w.range == range && w.code == code && w.buf == buf && w.out == out
    {
      w := new Work(pr, probs, dic, checkDicSize, s);
      w.state, w.rep0, w.rep1, w.rep2, w.rep3, w.dicPos, w.processedPos := state, rep0, rep1, rep2, rep3, dicPos, processedPos;
      w.len, w.range, w.code, w.buf := 0, range, code, buf;
      w.out := out;
    }

    lemma StandParts(w: Work, s: seq<Byte>, k0: Core, limit: nat, n: int)
      requires Stand(w, s, k0, limit, n)
      ensures w.probs == probs && w.dic == dic && w.pr == pr && 0x10000 <= w.range < WORD && w.code < WORD && w.buf <= |s|
      ensures w.Filled().Some? && w.Filled() == Fill(Dec(w.range, w.code, 0), s[w.buf..]) && Place(w) == w.buf + w.Filled().value.pos <= |s|
      ensures w.Whole() == Core(probs[..], w.state, w.rep0, w.rep1, w.rep2, w.rep3, w.Filled().value.range, w.Filled().value.code,
                                WithRest(w.out, w.rep0, w.len), w.len >= SPEC_LEN_START)
      ensures Fits(pr, dic[..], w.dicPos, w.processedPos, w.checkDicSize, w.out) && CoreOk(pr, w.Whole()) && Leads(k0, s[..Place(w)], w.Whole())
      ensures |w.out| - w.dicPos == n && w.dicPos <= limit
      ensures 0 < w.len < SPEC_LEN_START ==> w.dicPos == limit && 1 <= w.rep0 <= |w.out| && w.rep0 <= dic.Length
    {
      hide Fits, CoreOk, NumProbs, WithRest, Fill, Leads;
    }

    /** The last normalisation. */
    method NormalizeEnd(w: Work, s: seq<Byte>)
      requires 0x10000 <= w.range < WORD && w.code < WORD && w.buf <= |s| && Fill(Dec(w.range, w.code, 0), s[w.buf..]).Some?
      modifies this`range, this`code, this`buf
      ensures var f := Fill(Dec(w.range, w.code, 0), s[w.buf..]).value; range == f.range && code == f.code && buf == w.buf + f.pos
    {
      if w.range < TOP_VALUE {
        code, range, buf := (256 * w.code + s[w.buf]) % WORD, 256 * w.range % WORD, w.buf + 1;
      } else {
        buf, range, code := w.buf, w.range, w.code;
      }
    }

    method StoreFields(w: Work, s: seq<Byte>)
      requires 0x10000 <= w.range < WORD && w.code < WORD && w.buf <= |s| && Fill(Dec(w.range, w.code, 0), s[w.buf..]).Some?
      modifies this`state, this`rep0, this`rep1, this`rep2, this`rep3, this`range, this`code, this`dicPos, this`processedPos
      modifies this`remainLen, this`buf, this`out
      ensures Stored(w, s)
    {
      hide Fill;
      NormalizeEnd(w, s);
      state, rep0, rep1, rep2, rep3 := w.state, w.rep0, w.rep1, w.rep2, w.rep3;
      dicPos, processedPos, remainLen, out := w.dicPos, w.processedPos, w.len, w.out;
    }

    ghost predicate Stored(w: Work, s: seq<Byte>)
      reads this, w
    {
      && state == w.state && rep0 == w.rep0 && rep1 == w.rep1 && rep2 == w.rep2 && rep3 == w.rep3
      && dicPos == w.dicPos && processedPos == w.processedPos && remainLen == w.len && out == w.out
      && w.buf <= |s| && Fill(Dec(w.range, w.code, 0), s[w.buf..]).Some?
      && var f := Fill(Dec(w.range, w.code, 0), s[w.buf..]).value; range == f.range && code == f.code && buf == w.buf + f.pos
    }

    lemma StoredStands(w: Work, s: seq<Byte>, k0: Core, limit: nat, n: int)
      requires Stand(w, s, k0, limit, n) && Stored(w, s)
      requires probs.Length == NumProbs(pr) && !needFlush && !needInitState && checkDicSize == w.checkDicSize
      ensures Fit() && w.buf <= buf <= |s| && Leads(k0, s[..buf], Now()) && w.Filled().Some? && Now() == w.Whole()
      ensures |out| - dicPos == n && dicPos <= limit && (0 < remainLen < SPEC_LEN_START ==> dicPos == limit)
    {
      hide Fits, CoreOk, NumProbs, WithRest, Fill, Leads, Stand, Work.Whole, Work.Filled, Place;
      StandParts(w, s, k0, limit, n);
    }

    method Store(w: Work, s: seq<Byte>, limit: nat, ghost k0: Core, ghost n: int)
      requires Stand(w, s, k0, limit, n) && probs.Length == NumProbs(pr) && !needFlush && !needInitState && checkDicSize == w.checkDicSize
      modifies this`state, this`rep0, this`rep1, this`rep2, this`rep3, this`range, this`code, this`dicPos, this`processedPos
      modifies this`remainLen, this`buf, this`out
      ensures Fit() && w.buf <= buf <= |s| && Leads(k0, s[..buf], Now()) && w.Filled().Some? && Now() == w.Whole()
      ensures |out| - dicPos == n && dicPos <= limit && (0 < remainLen < SPEC_LEN_START ==> dicPos == limit)
    {
      hide Fits, CoreOk, NumProbs, WithRest, Fill, Leads, Stand, Stored, Fit, Now, Work.Whole, Work.Filled;
      StandParts(w, s, k0, limit, n);
      StoreFields(w, s);
      StoredStands(w, s, k0, limit, n);
    }

    /** Once the dictionary is full, its size counts. */
    method CheckSize()
      requires Fit()
      modifies this`checkDicSize
      ensures Fit() && Checked()
    {
      hide CoreOk, NumProbs, Keeps, WithRest;
      if processedPos >= pr.dicSize { checkDicSize := pr.dicSize; }
    }

    /** How far the loop may go without a check: to the limit, or until the dictionary is full. */
    method UpTo(limit: nat) returns (limit2: nat)
      requires Fit() && Checked() && dicPos <= limit
      ensures dicPos <= limit2 <= limit && (limit2 == dicPos ==> limit == dicPos)
      ensures checkDicSize == 0 && dicPos < limit2 ==> |out| + (limit2 - dicPos) <= pr.dicSize
    {
      hide CoreOk, NumProbs, Keeps, WithRest;
      limit2 := limit;
      if checkDicSize == 0 {
        var rem := pr.dicSize - processedPos;
        if limit - dicPos > rem { limit2 := dicPos + rem; }
      }
    }

    /** The fields as between symbols, up to the limit, after the bytes s[..buf]. */
    ghost predicate Between(s: seq<Byte>, limit: nat, k0: Core)
      reads this, probs, dic
    {
      && Fit() && Checked() && !needFlush && !needInitState && buf <= |s| && Leads(k0, s[..buf], Now())
      && dicPos <= limit <= dic.Length && |out| - dicPos + limit == goal.limit && (0 < remainLen < SPEC_LEN_START ==> dicPos == limit)
    }

    lemma MayGoOn(s: seq<Byte>, limit: nat, k0: Core, bufLimit: int)
      requires Between(s, limit, k0) && dicPos < limit && buf < bufLimit && bufLimit + REQUIRED_INPUT_MAX <= |s| && remainLen < SPEC_LEN_START
      ensures remainLen == 0 && MayGo(Now(), From(s, buf), limit - dicPos)
    {
      hide Fits, CoreOk, NumProbs, Pump, DecoderOk, Symbol, Lzma, Read, Leads;
      NothingLeft(out, rep0);
      LzmaParts(pr, goal, Now(), []);
      SymbolFacts(pr, Now(), From(s, buf));
    }

    /** Room is a matter of the place only when something can be written. */
    lemma MayGoTo(k: Core, b: seq<Byte>, room: int, room2: int)
      requires MayGo(k, b, room) && (room > 0 ==> room2 > 0) && (room == 0 ==> room2 == 0)
      ensures MayGo(k, b, room2)
    {
    }

    /** One turn of the outer loop. */
    method Turn(s: seq<Byte>, limit: nat, bufLimit: int, ghost k0: Core) returns (ok: bool)
      requires Between(s, limit, k0) && remainLen == 0 && MayGo(Now(), From(s, buf), limit - dicPos)
      requires bufLimit <= buf || bufLimit + REQUIRED_INPUT_MAX <= |s|
      modifies this`state, this`rep0, this`rep1, this`rep2, this`rep3, this`range, this`code, this`dicPos, this`processedPos, this`checkDicSize
      modifies this`remainLen, this`buf, this`out, probs, dic
      ensures ok ==> Between(s, limit, k0) && Room(goal, Now()) < Room(goal, old(Now())) && buf >= old(buf)
      ensures !ok ==> Pump(Lzma(pr, goal), Kept(k0, false, s)).None?
    {
      hide Pump, Fit, Now, Leads, MayGo, Room;
      var limit2 := UpTo(limit);
      MayGoTo(Now(), From(s, buf), limit - dicPos, limit2 - dicPos);
      ok := DecodeReal(s, limit2, bufLimit, k0);
      if !ok { return; }
      CheckSize();
      WriteRem(limit);
    }

    /** Turns until little input is left, the limit is reached or the stream has ended. */
    method Turns(s: seq<Byte>, limit: nat, bufLimit: int, ghost k0: Core) returns (ok: bool)
      requires Between(s, limit, k0) && remainLen == 0 && MayGo(Now(), From(s, buf), limit - dicPos)
      requires bufLimit <= buf || bufLimit + REQUIRED_INPUT_MAX <= |s|
      modifies this`state, this`rep0, this`rep1, this`rep2, this`rep3, this`range, this`code, this`dicPos, this`processedPos, this`checkDicSize
      modifies this`remainLen, this`buf, this`out, probs, dic
      ensures ok ==> Between(s, limit, k0) && Room(goal, Now()) < Room(goal, old(Now())) && buf >= old(buf)
      ensures !ok ==> Pump(Lzma(pr, goal), Kept(k0, false, s)).None?
    {
      hide DecoderOk, Pump, Fit, Now, Leads, MayGo, Room, Between;
      LzmaMayBeFed(pr, goal);
      ghost var room := Room(goal, Now());
      ok := Turn(s, limit, bufLimit, k0);
      while ok && dicPos < limit && buf < bufLimit && remainLen < SPEC_LEN_START
        invariant ok ==> Between(s, limit, k0) && Room(goal, Now()) < room && buf >= old(buf)
        invariant !ok ==> Pump(Lzma(pr, goal), Kept(k0, false, s)).None?
        decreases ok, if ok then Room(goal, Now()) else 0
      {
        MayGoOn(s, limit, k0, bufLimit);
        ok := Turn(s, limit, bufLimit, k0);
      }
    }

    method DecodeReal2(s: seq<Byte>, limit: nat, bufLimit: int, ghost k0: Core) returns (ok: bool)
      requires Between(s, limit, k0) && remainLen == 0 && MayGo(Now(), From(s, buf), limit - dicPos)
      requires bufLimit <= buf || bufLimit + REQUIRED_INPUT_MAX <= |s|
      modifies this`state, this`rep0, this`rep1, this`rep2, this`rep3, this`range, this`code, this`dicPos, this`processedPos, this`checkDicSize
      modifies this`remainLen, this`buf, this`out, probs, dic
      ensures ok ==> Between(s, limit, k0) && Room(goal, Now()) < Room(goal, old(Now())) && remainLen <= SPEC_LEN_START
      ensures !ok ==> Pump(Lzma(pr, goal), Kept(k0, false, s)).None?
    {
      hide Pump, Fit, Now, Leads, MayGo, Room, Between;
      ok := Turns(s, limit, bufLimit, k0);
      if ok && remainLen > SPEC_LEN_START { SetEnd(s, limit, k0); }
    }

    method SetEnd(s: seq<Byte>, limit: nat, ghost k0: Core)
      requires Between(s, limit, k0) && remainLen > SPEC_LEN_START
      modifies this`remainLen
      ensures Between(s, limit, k0) && Now() == old(Now()) && remainLen == SPEC_LEN_START
    {
      hide Fits, CoreOk, NumProbs, Leads;
      remainLen := SPEC_LEN_START;
    }

    // ---------------------------------------------------------------- one call

    /** Taking the input x leads to the same future as the fields. */
    ghost predicate Follows(x: seq<Byte>)
      reads this`state, this`rep0, this`rep1, this`rep2, this`rep3, this`range, this`code, this`remainLen, this`needInitState, this`out, probs,
            this`needFlush, this`tempBuf, this`goal
    {
      DecoderOk(Lzma(pr, goal)) && Pump(Lzma(pr, goal), Kept(Start(pr), true, x)) == Pump(Lzma(pr, goal), Kept(Now(), needFlush, tempBuf))
    }

    /** The output goes to the limit at most. */
    ghost predicate Within(dicLimit: nat)
      reads this`dicPos, this`remainLen, this`out, this`goal, dic
    {
      && dicPos <= dicLimit <= dic.Length && (0 < remainLen < SPEC_LEN_START ==> dicPos == dicLimit)
      && (if remainLen < SPEC_LEN_START then |out| - dicPos + dicLimit == goal.limit else |out| <= goal.limit)
    }

    /** Kept bytes are too few for a start, or for a symbol. */
    ghost predicate KeptFew()
      reads this`state, this`rep0, this`rep1, this`rep2, this`rep3, this`range, this`code, this`remainLen, this`needInitState, this`out, probs,
            this`needFlush, this`tempBuf
    {
      && (needFlush ==> |tempBuf| < RC_INIT_SIZE && needInitState && remainLen == 0)
      && (!needFlush && tempBuf != [] ==> Symbol(pr, Now(), tempBuf).More?)
      && (remainLen == SPEC_LEN_START ==> tempBuf == [])
    }

    /** Fields, dictionary and limit fit together. */
    ghost predicate Steady(dicLimit: nat)
      reads this`state, this`rep0, this`rep1, this`rep2, this`rep3, this`range, this`code, this`remainLen, this`needInitState, this`out,
            this`dicPos, this`processedPos, this`checkDicSize, this`needFlush, this`goal, probs, dic
    {
      Fit() && Checked() && Within(dicLimit) && remainLen <= SPEC_LEN_START
    }

    /** Decoding goes on behind the input x. */
    ghost predicate Going(x: seq<Byte>, dicLimit: nat)
      reads this`state, this`rep0, this`rep1, this`rep2, this`rep3, this`range, this`code, this`remainLen, this`needInitState, this`out,
            this`dicPos, this`processedPos, this`checkDicSize, this`needFlush, this`tempBuf, this`goal, probs, dic
    {
      Steady(dicLimit) && KeptFew() && Follows(x)
    }

    ghost predicate Dead(x: seq<Byte>)
      reads this`goal
    {
      DecoderOk(Lzma(pr, goal)) && Pump(Lzma(pr, goal), Kept(Start(pr), true, x)).None?
    }

    lemma Extend(x: seq<Byte>, more: seq<Byte>)
      requires Follows(x)
      ensures Pump(Lzma(pr, goal), Kept(Start(pr), true, x + more)) == Pump(Lzma(pr, goal), Kept(Now(), needFlush, tempBuf + more))
    {
      SameFuture(Lzma(pr, goal), Kept(Start(pr), true, x), Kept(Now(), needFlush, tempBuf), more);
    }

    /** The bytes that set up the range coder, as far as they are there. */
    method CollectStart(src: seq<Byte>, n: nat, ghost x: seq<Byte>) returns (m: nat)
      requires n <= |src| && Follows(x + src[..n]) && needFlush && |tempBuf| < RC_INIT_SIZE
      modifies this`tempBuf
      ensures n <= m <= |src| && Follows(x + src[..m]) && |tempBuf| <= RC_INIT_SIZE
      ensures |tempBuf| < RC_INIT_SIZE ==> m == |src|
    {
      hide Pump, DecoderOk, Now, Lzma, Start;
      m := n;
      while m < |src| && |tempBuf| < RC_INIT_SIZE
        invariant n <= m <= |src| && Follows(x + src[..m]) && |tempBuf| <= RC_INIT_SIZE
        decreases |src| - m
      {
        Extend(x + src[..m], [src[m]]);
        assert x + src[..m] + [src[m]] == x + src[..m + 1];
        tempBuf := tempBuf + [src[m]];
        m := m + 1;
      }
    }

    method InitRc()
      requires Fit() && needFlush && needInitState && |tempBuf| == RC_INIT_SIZE && tempBuf[0] == 0
      modifies this`range, this`code, this`needFlush, this`tempBuf
      ensures Fit() && !needFlush && tempBuf == [] && Now() == SetUp(old(Now()), old(tempBuf))
    {
      hide Fits, NumProbs, InitProbs, CoreOk;
      FitsProps();
      code := 0x1000000 * (tempBuf[1] as int) + 0x10000 * (tempBuf[2] as int) + 0x100 * (tempBuf[3] as int) + tempBuf[4];
      range := 0xFFFFFFFF;
      needFlush := false;
      tempBuf := [];
      StartOk(pr, code);
    }

    lemma FitsProps()
      requires Fit()
      ensures PropsOk(pr)
    {
    }

    /** The range coder is set up once its five bytes are there. */
    method SetUpRc(src: seq<Byte>, n: nat, dicLimit: nat, ghost x: seq<Byte>) returns (ok: bool, m: nat, wait: bool)
      requires n <= |src| && Going(x + src[..n], dicLimit) && needFlush
      modifies this`range, this`code, this`needFlush, this`tempBuf
      ensures n <= m <= |src| && (ok ==> Going(x + src[..m], dicLimit))
      ensures ok && !wait ==> !needFlush && tempBuf == [] && Room(goal, Now()) == old(Room(goal, Now()))
      ensures wait ==> ok && m == |src| && needFlush
      ensures !ok ==> Dead(x + src)
    {
      hide Pump, DecoderOk, Now, Lzma, Start, SetUp, Fit, Symbol, Room, Within, Checked;
      m := CollectStart(src, n, x);
      if |tempBuf| < RC_INIT_SIZE {
        return true, m, true;
      }
      SetUpTells(x + src[..m]);
      if tempBuf[0] != 0 {
        DeadLater(x, src, m);
        return false, m, false;
      }
      InitRc();
      return true, m, false;
    }

    /** What the first five bytes say. */
    lemma SetUpTells(x: seq<Byte>)
      requires Follows(x) && needFlush && |tempBuf| == RC_INIT_SIZE && remainLen < SPEC_LEN_START
      ensures tempBuf[0] != 0 ==> Dead(x)
      ensures tempBuf[0] == 0 ==>
        Pump(Lzma(pr, goal), Kept(Start(pr), true, x)) == Pump(Lzma(pr, goal), Kept(SetUp(Now(), tempBuf), false, []))
      ensures Room(goal, SetUp(Now(), tempBuf)) == Room(goal, Now())
    {
      hide Pump, DecoderOk, Now, Lzma, Start, SetUp, Room;
      NotEnded();
      LzmaParts(pr, goal, Now(), tempBuf);
      LzmaParts(pr, goal, SetUp(Now(), tempBuf), tempBuf);
      PumpSetUp(Lzma(pr, goal), Kept(Now(), needFlush, tempBuf));
    }

    lemma DeadLater(x: seq<Byte>, src: seq<Byte>, m: nat)
      requires m <= |src| && Dead(x + src[..m])
      ensures Dead(x + src)
    {
      hide Pump, DecoderOk, Lzma, Start;
      PumpBad(Lzma(pr, goal), Kept(Start(pr), true, x + src[..m]), src[m..]);
      assert x + src[..m] + src[m..] == x + src;
    }

    lemma NotEnded()
      ensures remainLen < SPEC_LEN_START ==> !Now().ended
    {
    }

    /** A symbol can be read: below the limit, or at it if only the end mark may come. */
    ghost predicate Able(dicLimit: nat, check: bool)
      reads this`dicPos, this`remainLen, this`needFlush, this`needInitState, this`code, this`goal
    {
      && !needFlush && !needInitState && remainLen == 0
      && (if check then dicPos == dicLimit && goal.finish && code != 0 else dicPos < dicLimit)
    }

    lemma AbleRuns(dicLimit: nat, check: bool)
      requires Steady(dicLimit) && Able(dicLimit, check)
      ensures CoreOk(pr, Now()) && Now() == Core(probs[..], state, rep0, rep1, rep2, rep3, range, code, out, false)
      ensures Running(Lzma(pr, goal), Now()) && (check ==> |Now().out| == goal.limit)
    {
      hide Fits, CoreOk, WithRest;
      NothingLeft(out, rep0);
      LzmaParts(pr, goal, Now(), []);
    }

    /** The trial of a symbol. */
    method Probe(b: seq<Byte>, dicLimit: nat, check: bool) returns (r: Option<Kind>)
      requires Steady(dicLimit) && Able(dicLimit, check)
      ensures r.None? <==> Symbol(pr, Now(), b).More?
      ensures r.Some? ==> Read(pr, Now(), b).Some? && Read(pr, Now(), b).value.kind == r.value
    {
      hide CoreOk, Fits, Effect, Decode, ContextOf, Now, Running, Said, ContextOk;
      AbleRuns(dicLimit, check);
      RepHas(pr, Now());
      ContextIsOk(pr, Now());
      CoderOk(pr, Now());
      var c := FindContext(pr, dic, dicPos, processedPos, checkDicSize, state, rep0, out);
      r := TryDummy(c, probs[..], range, code, b);
      SymbolMore(pr, Now(), b);
    }

    /** At the limit only a match can be the end mark. */
    lemma Refuses(dicLimit: nat, b: seq<Byte>)
      requires Steady(dicLimit) && Able(dicLimit, true) && CoreOk(pr, Now()) && DecoderOk(Lzma(pr, goal))
      requires Read(pr, Now(), b).Some? && Read(pr, Now(), b).value.kind != Match
      ensures Pump(Lzma(pr, goal), Kept(Now(), false, b)).None?
    {
      AbleRuns(dicLimit, true);
      hide Now, CoreOk, Pump, DecoderOk, Lzma, Steady, Read, Said, Running, Symbol;
      OnlyMatchEnds(pr, Now(), b);
      WishedIs(pr, goal, Now(), b);
      PumpMore(Lzma(pr, goal), Kept(Now(), false, b));
    }

    /** Symbols are to be read from b. */
    lemma Begins(dicLimit: nat, check: bool, b: seq<Byte>)
      requires Steady(dicLimit) && Able(dicLimit, check) && buf == 0 && !Symbol(pr, Now(), b).More?
      requires check ==> Read(pr, Now(), b).Some? && Read(pr, Now(), b).value.kind == Match
      ensures Between(b, dicLimit, Now()) && MayGo(Now(), From(b, buf), dicLimit - dicPos)
    {
      AbleRuns(dicLimit, check);
      hide Now, CoreOk, Pump, DecoderOk, Lzma, Read, Running, Symbol, Fit;
      LzmaMayBeFed(pr, goal);
      assert b[..0] == [] && b[0..] == b;
    }

    /** After the symbols decoding goes on. */
    lemma Resumes(b: seq<Byte>, dicLimit: nat, k0: Core, y: seq<Byte>)
      requires Between(b, dicLimit, k0) && remainLen <= SPEC_LEN_START && tempBuf == [] && SameAs(pr, goal, y, k0, b[..buf])
      ensures Going(y, dicLimit)
    {
      hide Now, Pump, DecoderOk, Lzma, Fit, Symbol, Start;
    }

    /** Decoding from the input itself; at the end of it what is no whole symbol is kept. */
    method FromInput(src: seq<Byte>, n: nat, dicLimit: nat, check: bool, ghost x: seq<Byte>) returns (ok: bool, m: nat, wait: bool)
      requires n <= |src| && Going(x + src[..n], dicLimit) && tempBuf == [] && Able(dicLimit, check)
      modifies this`state, this`rep0, this`rep1, this`rep2, this`rep3, this`range, this`code, this`dicPos, this`processedPos, this`checkDicSize
      modifies this`remainLen, this`buf, this`out, probs, dic, this`tempBuf
      ensures n <= m <= |src| && (ok ==> Going(x + src[..m], dicLimit) && |out| - dicPos == goal.limit - dicLimit)
      ensures ok && !wait ==> Room(goal, Now()) < Room(goal, old(Now()))
      ensures wait ==> ok && m == |src| && Able(dicLimit, check) && Symbol(pr, Now(), tempBuf).More?
      ensures !ok ==> Dead(x + src)
    {
      hide Now, Pump, DecoderOk, Lzma, Read, Symbol, Fit, Room, Going, MayGo, Between, SameAs, Dead, Steady;
      var rest := src[n..];
      var bufLimit := |rest| - REQUIRED_INPUT_MAX;
      GoingSame(x + src[..n], dicLimit, check);
      AbleRuns(dicLimit, check);
      LzmaMayBeFed(pr, goal);
      SameFeed(pr, goal, x, src, n, Now(), |src|);
      EnoughFor(pr, Now(), rest);
      if |rest| < REQUIRED_INPUT_MAX || check {
        var r := Probe(rest, dicLimit, check);
        if r.None? {
          assert src[..|src|] == src;
          KeepAll(x + src[..n], x + src, dicLimit, check, rest);
          return true, |src|, true;
        }
        if check && r.value != Match {
          Refuses(dicLimit, rest);
          IsDead(x + src, Now(), rest);
          return false, n, false;
        }
        bufLimit := 0;
      }
      ghost var k0 := Now();
      buf := 0;
      Begins(dicLimit, check, rest);
      ok := DecodeReal2(rest, dicLimit, bufLimit, k0);
      m, wait := n, false;
      if ok {
        PlaceAfter(rest, dicLimit, k0);
        m := n + buf;
        SameFeed(pr, goal, x, src, n, k0, m);
        Resumes(rest, dicLimit, k0, x + src[..m]);
      } else {
        IsDead(x + src, k0, rest);
      }
    }

    lemma IsDead(y: seq<Byte>, k: Core, kept: seq<Byte>)
      requires SameAs(pr, goal, y, k, kept) && Pump(Lzma(pr, goal), Kept(k, false, kept)).None?
      ensures Dead(y)
    {
      hide Pump, DecoderOk, Lzma, Start;
    }

    lemma PlaceAfter(b: seq<Byte>, dicLimit: nat, k0: Core)
      requires Between(b, dicLimit, k0)
      ensures buf <= |b| && |out| - dicPos == goal.limit - dicLimit
    {
    }

    lemma GoingSame(x: seq<Byte>, dicLimit: nat, check: bool)
      requires Going(x, dicLimit) && Able(dicLimit, check)
      ensures SameAs(pr, goal, x, Now(), tempBuf) && Steady(dicLimit) && (tempBuf != [] ==> Symbol(pr, Now(), tempBuf).More?)
      ensures |out| - dicPos == goal.limit - dicLimit
    {
      hide Now, Pump, DecoderOk, Lzma, Start, Symbol, Fit;
    }

    /** Too little for a symbol: all is kept. */
    method KeepAll(ghost x: seq<Byte>, ghost y: seq<Byte>, ghost dicLimit: nat, ghost check: bool, b: seq<Byte>)
      requires Going(x, dicLimit) && Able(dicLimit, check) && Symbol(pr, Now(), b).More? && SameAs(pr, goal, y, Now(), b)
      modifies this`tempBuf
      ensures Going(y, dicLimit) && Able(dicLimit, check) && Symbol(pr, Now(), tempBuf).More? && tempBuf == b
    {
      hide Now, Pump, DecoderOk, Lzma, Start, Fit, Symbol, Steady;
      tempBuf := b;
    }

    /** Kept bytes are filled up to what any symbol needs. */
    method LookAhead(src: seq<Byte>, n: nat) returns (lookAhead: nat)
      requires n <= |src| && |tempBuf| <= REQUIRED_INPUT_MAX
      modifies this`tempBuf
      ensures n + lookAhead <= |src| && tempBuf == old(tempBuf) + src[n..][..lookAhead]
      ensures |tempBuf| < REQUIRED_INPUT_MAX ==> n + lookAhead == |src|
    {
      lookAhead := 0;
      while |tempBuf| < REQUIRED_INPUT_MAX && n + lookAhead < |src|
        invariant n + lookAhead <= |src| && tempBuf == old(tempBuf) + src[n..][..lookAhead] && |tempBuf| <= REQUIRED_INPUT_MAX
      {
        tempBuf := tempBuf + [src[n + lookAhead]];
        lookAhead := lookAhead + 1;
      }
    }

    /** Bytes appended to the kept ones are taken. */
    lemma KeptOn(y: seq<Byte>, dicLimit: nat, check: bool)
      requires Steady(dicLimit) && Able(dicLimit, check) && SameAs(pr, goal, y, Now(), tempBuf) && Symbol(pr, Now(), tempBuf).More?
      ensures Going(y, dicLimit)
    {
      hide Now, Pump, DecoderOk, Lzma, Start, Symbol, Steady;
    }

    /** Decoding one symbol that begins in the kept bytes and ends in the input. */
    method FromKept(src: seq<Byte>, n: nat, dicLimit: nat, check: bool, ghost x: seq<Byte>) returns (ok: bool, m: nat, wait: bool)
      requires n <= |src| && Going(x + src[..n], dicLimit) && tempBuf != [] && Able(dicLimit, check)
      modifies this`state, this`rep0, this`rep1, this`rep2, this`rep3, this`range, this`code, this`dicPos, this`processedPos, this`checkDicSize
      modifies this`remainLen, this`buf, this`out, probs, dic, this`tempBuf
      ensures n <= m <= |src| && (ok ==> Going(x + src[..m], dicLimit) && |out| - dicPos == goal.limit - dicLimit)
      ensures ok && !wait ==> Room(goal, Now()) < Room(goal, old(Now()))
      ensures wait ==> ok && m == |src| && Able(dicLimit, check) && Symbol(pr, Now(), tempBuf).More?
      ensures !ok ==> Dead(x + src)
    {
      hide Now, Pump, DecoderOk, Lzma, Read, Symbol, Fit, Room, Going, MayGo, Between, SameAs, Dead, Steady, Running;
      ghost var kept, k0 := tempBuf, Now();
      GoingSame(x + src[..n], dicLimit, check);
      AbleRuns(dicLimit, check);
      LzmaMayBeFed(pr, goal);
      EnoughFor(pr, k0, kept);
      var lookAhead := LookAhead(src, n);
      SameKept(pr, goal, x, src, n, k0, kept, lookAhead);
      EnoughFor(pr, k0, tempBuf);
      if |tempBuf| < REQUIRED_INPUT_MAX || check {
        var r := Probe(tempBuf, dicLimit, check);
        if r.None? {
          KeptOn(x + src[..n + lookAhead], dicLimit, check);
          return true, n + lookAhead, true;
        }
        if check && r.value != Match {
          Refuses(dicLimit, tempBuf);
          IsDead(x + src[..n + lookAhead], k0, tempBuf);
          DeadLater(x, src, n + lookAhead);
          return false, n, false;
        }
      }
      buf := 0;
      Begins(dicLimit, check, tempBuf);
      ok := DecodeReal2(tempBuf, dicLimit, 0, k0);
      m, wait := n, false;
      if ok {
        PlaceAfter(tempBuf, dicLimit, k0);
        LeadsIs(tempBuf, dicLimit, k0);
        UsedKept(pr, goal, k0, kept, tempBuf, buf, Now());
        lookAhead := lookAhead - (|tempBuf| - buf);
        m := n + lookAhead;
        SameKept(pr, goal, x, src, n, k0, kept, lookAhead);
        TakenOf(kept, src[n..], tempBuf, lookAhead, buf);
        Cleared(x + src[..m], dicLimit, k0);
      } else {
        IsDead(x + src[..n + lookAhead], k0, tempBuf);
        DeadLater(x, src, n + lookAhead);
      }
    }

    lemma LeadsIs(b: seq<Byte>, dicLimit: nat, k0: Core)
      requires Between(b, dicLimit, k0)
      ensures buf <= |b| && Leads(k0, b[..buf], Now())
    {
    }

    /** Nothing is kept any more. */
    method Cleared(ghost y: seq<Byte>, ghost dicLimit: nat, ghost k0: Core)
      requires Between(tempBuf, dicLimit, k0) && remainLen <= SPEC_LEN_START && SameAs(pr, goal, y, k0, tempBuf[..buf])
      modifies this`tempBuf
      ensures Going(y, dicLimit)
    {
      hide Now, Pump, DecoderOk, Lzma, Start, Fit, Symbol, Going, SameAs, Leads;
      ghost var b := tempBuf;
      tempBuf := [];
      Resumes(b, dicLimit, k0, y);
    }

    /** Why a call may end well, with what it says. */
    ghost predicate Halted(dicLimit: nat, status: Status, all: bool)
      reads this`state, this`rep0, this`rep1, this`rep2, this`rep3, this`range, this`code, this`remainLen, this`needInitState, this`out,
            this`dicPos, this`needFlush, this`tempBuf, this`goal, probs
    {
      if remainLen == SPEC_LEN_START then code == 0 && status == FinishedWithMark
      else if needFlush then status == NeedsMoreInput && all
      else if status == NeedsMoreInput then (Able(dicLimit, true) || Able(dicLimit, false)) && Symbol(pr, Now(), tempBuf).More? && all
      else dicPos == dicLimit && (if remainLen == 0 && code == 0 then status == MaybeFinishedWithoutMark else !goal.finish && status == NotFinished)
    }

    /** What the fields say about the whole that they stand for. */
    lemma NowSays(dicLimit: nat)
      requires Steady(dicLimit)
      ensures Now().code == code && out <= Now().out && (Now().ended <==> remainLen == SPEC_LEN_START)
      ensures remainLen < SPEC_LEN_START ==> |out| == goal.limit - (dicLimit - dicPos)
      ensures remainLen == 0 || remainLen == SPEC_LEN_START ==> Now().out == out
      ensures 0 < remainLen < SPEC_LEN_START ==> |Now().out| > goal.limit && |out| == goal.limit
      ensures |out| == Written(goal, Now())
    {
      hide Fits, CoreOk;
      NothingLeft(out, rep0);
    }

    lemma Settles(x: seq<Byte>, dicLimit: nat, status: Status, all: bool)
      requires Going(x, dicLimit) && Halted(dicLimit, status, all)
      ensures Pump(Lzma(pr, goal), Kept(Start(pr), true, x)) == Some(Kept(Now(), needFlush, tempBuf))
      ensures all || Stopped(Lzma(pr, goal), Kept(Now(), needFlush, tempBuf))
    {
      NowSays(dicLimit);
      if Able(dicLimit, true) { AbleRuns(dicLimit, true); }
      if Able(dicLimit, false) { AbleRuns(dicLimit, false); }
      hide Now, Pump, DecoderOk, Lzma, Start, Fit, Symbol, Steady, CoreOk, Within;
      LzmaParts(pr, goal, Now(), []);
      if status == NeedsMoreInput && !needFlush && remainLen < SPEC_LEN_START {
        WishedIs(pr, goal, Now(), tempBuf);
        PumpMore(Lzma(pr, goal), Kept(Now(), needFlush, tempBuf));
      } else {
        PumpStopped(Lzma(pr, goal), Kept(Now(), needFlush, tempBuf));
      }
    }

    lemma SaysStatus(x: seq<Byte>, dicLimit: nat, status: Status, all: bool)
      requires Going(x, dicLimit) && Halted(dicLimit, status, all)
      ensures StatusOf(goal, Kept(Now(), needFlush, tempBuf)) == status && (Now().ended ==> Now().code == 0)
      ensures out == Now().out[..Written(goal, Now())] && |out| == Written(goal, Now())
    {
      NowSays(dicLimit);
      hide Now, Pump, DecoderOk, Lzma, Start, Fit, Symbol, Steady, CoreOk, Within, Follows;
    }

    /** A call that ends well says what the input says. */
    lemma Says(x: seq<Byte>, src: seq<Byte>, m: nat, dicLimit: nat, status: Status)
      requires m <= |src| && Going(x + src[..m], dicLimit) && Halted(dicLimit, status, m == |src|)
      ensures Pump(Lzma(pr, goal), Kept(Start(pr), true, x + src[..m])) == Some(Kept(Now(), needFlush, tempBuf))
      ensures VerdictOn(pr, goal, x + src) == Fine(out, |x| + m - |tempBuf|, status)
      ensures |out| == Written(goal, Now())
    {
      hide Now, Pump, DecoderOk, Lzma, Start, Going, Halted, KeptFew, StatusOf, VerdictOn, Stopped, Written;
      Settles(x + src[..m], dicLimit, status, m == |src|);
      SaysStatus(x + src[..m], dicLimit, status, m == |src|);
      LzmaMayBeFed(pr, goal);
      Told(pr, goal, x, src, m, Kept(Now(), needFlush, tempBuf), out, status);
    }

    lemma WithinIs(x: seq<Byte>, dicLimit: nat)
      requires Going(x, dicLimit)
      ensures remainLen <= SPEC_LEN_START && dicPos <= dicLimit && (0 < remainLen < SPEC_LEN_START ==> dicPos == dicLimit)
      ensures needFlush ==> remainLen == 0
      ensures remainLen < SPEC_LEN_START ==> |out| - dicPos == goal.limit - dicLimit
    {
      hide Now, Follows, Fit, Symbol, Checked;
    }

    /** More of a match than may be written. */
    lemma StuckDead(x: seq<Byte>, src: seq<Byte>, m: nat, dicLimit: nat)
      requires m <= |src| && Going(x + src[..m], dicLimit) && !needFlush && 0 < remainLen < SPEC_LEN_START && goal.finish
      ensures Dead(x + src)
    {
      NowSays(dicLimit);
      hide Now, DecoderOk, Lzma, Start, Steady, Symbol;
      LzmaParts(pr, goal, Now(), []);
      DeadLater(x, src, m);
    }

    method InitState(ghost x: seq<Byte>, ghost dicLimit: nat)
      requires Going(x, dicLimit) && needInitState && !needFlush
      modifies probs, this`state, this`rep0, this`rep1, this`rep2, this`rep3, this`needInitState
      ensures Going(x, dicLimit) && !needInitState && Now() == old(Now())
    {
      hide Now, Pump, DecoderOk, Lzma, Start, Symbol, Fit, Checked;
      InitStateReal();
    }

    /** One turn of the loop: set up, check of the limit, and decoding. */
    method Round(src: seq<Byte>, n: nat, dicLimit: nat, finish: bool, ghost x: seq<Byte>) returns (ok: bool, m: nat, done: bool, status: Status)
      requires n <= |src| && Going(x + src[..n], dicLimit) && remainLen != SPEC_LEN_START && finish == goal.finish
      modifies this`state, this`rep0, this`rep1, this`rep2, this`rep3, this`range, this`code, this`dicPos, this`processedPos, this`checkDicSize
      modifies this`remainLen, this`buf, this`out, probs, dic, this`tempBuf, this`needFlush, this`needInitState
      ensures n <= m <= |src| && (ok ==> Going(x + src[..m], dicLimit) && |out| - dicPos == goal.limit - dicLimit)
      ensures ok && !done ==> Room(goal, Now()) < Room(goal, old(Now()))
      ensures ok && done ==> Halted(dicLimit, status, m == |src|)
      ensures !ok ==> Dead(x + src)
    {
      hide Now, Pump, DecoderOk, Lzma, Start, Symbol, Fit, Room, Going, Dead, Steady, SetUp;
      ok, m, done, status := true, n, true, NotSpecified;
      var wait := false;
      WithinIs(x + src[..n], dicLimit);
      if needFlush {
        ok, m, wait := SetUpRc(src, n, dicLimit, x);
        if !ok { return; }
        if wait {
          status := NeedsMoreInput;
          return;
        }
      }
      WithinIs(x + src[..m], dicLimit);
      var checkEndMarkNow := false;
      if dicPos >= dicLimit {
        if remainLen == 0 && code == 0 {
          status := MaybeFinishedWithoutMark;
          return;
        }
        if !finish {
          status := NotFinished;
          return;
        }
        if remainLen != 0 {
          StuckDead(x, src, m, dicLimit);
          ok, status := false, NotFinished;
          return;
        }
        checkEndMarkNow := true;
      }
      if needInitState { InitState(x + src[..m], dicLimit); }
      if tempBuf == [] {
        ok, m, wait := FromInput(src, m, dicLimit, checkEndMarkNow, x);
      } else {
        ok, m, wait := FromKept(src, m, dicLimit, checkEndMarkNow, x);
      }
      done := wait;
      if wait { status := NeedsMoreInput; }
    }

    /** Between calls: what pumping all input taken so far leads to, written up to the limit. */
    ghost predicate Valid()
      reads this, probs, dic
    {
      && Fit() && Checked() && remainLen <= SPEC_LEN_START && KeptFew() && DecoderOk(Lzma(pr, goal)) && |out| == Written(goal, Now())
      && Pump(Lzma(pr, goal), Kept(Start(pr), true, fed)) == Some(Kept(Now(), needFlush, tempBuf))
    }

    /** The limit that a call has in terms of all output. */
    ghost function GoalOf(dicLimit: nat, finish: bool): Goal
      requires dicPos <= dicLimit
      reads this`remainLen, this`goal, this`out, this`dicPos
    {
      if remainLen == SPEC_LEN_START then goal else Goal(|out| + (dicLimit - dicPos), finish)
    }

    /** A new limit is set. */
    ghost method Begin(dicLimit: nat, finish: bool)
      requires Valid() && dicPos <= dicLimit
      modifies this`goal
      ensures goal == old(GoalOf(dicLimit, finish)) && Follows(fed)
    {
      hide Fits, CoreOk, Pump, DecoderOk, Lzma, Start, Symbol;
      ghost var g, now := goal, Kept(Now(), needFlush, tempBuf);
      if remainLen != SPEC_LEN_START {
        NotEnded();
        goal := Goal(|out| + (dicLimit - dicPos), finish);
        LzmaMayBeFed(pr, goal);
        Rebase(pr, g, goal, Kept(Start(pr), true, fed), now);
      } else {
        PumpTwice(Lzma(pr, goal), Kept(Start(pr), true, fed));
      }
    }

    /** The call begins with what was left of a match. */
    method Open(dicLimit: nat, finish: bool)
      requires Valid() && dicPos <= dicLimit <= dic.Length
      modifies this`goal, dic, this`dicPos, this`processedPos, this`checkDicSize, this`remainLen, this`out
      ensures goal == old(GoalOf(dicLimit, finish)) && Going(fed, dicLimit) && Now() == old(Now())
      ensures |out| - dicPos == old(|out| - dicPos) && (remainLen == SPEC_LEN_START <==> old(remainLen) == SPEC_LEN_START)
      ensures if remainLen == SPEC_LEN_START then out == old(out) && dicPos == old(dicPos) else goal.finish == finish
    {
      hide Fit, Pump, DecoderOk, Lzma, Start, Symbol, Now;
      Begin(dicLimit, finish);
      WriteRem(dicLimit);
    }

    /** All that was taken counts as fed. */
    ghost method Close(src: seq<Byte>, m: nat, dicLimit: nat, status: Status, g0: Goal, out0: seq<Byte>)
      requires m <= |src| && Going(fed + src[..m], dicLimit) && Halted(dicLimit, status, m == |src|) && Began(pr, g0, fed, out0, goal)
      modifies this`fed
      ensures Valid() && fed == old(fed) + src[..m] && dicPos <= dicLimit
      ensures VerdictOn(pr, goal, old(fed) + src) == Fine(out, |fed| - |tempBuf|, status) && out0 <= out
      ensures status == FinishedWithMark <==> remainLen == SPEC_LEN_START
    {
      hide Fit, Pump, DecoderOk, Lzma, Start, Symbol, Now, VerdictOn, Halted, Began;
      Says(fed, src, m, dicLimit, status);
      WithinIs(fed + src[..m], dicLimit);
      SaysStatus(fed + src[..m], dicLimit, status, m == |src|);
      NowSays(dicLimit);
      Grown(pr, g0, fed, out0, goal, src[..m], Kept(Now(), needFlush, tempBuf));
      fed := fed + src[..m];
    }

    lemma EndsWell(all: bool, dicLimit: nat)
      requires remainLen == SPEC_LEN_START && code == 0
      ensures Halted(dicLimit, FinishedWithMark, all)
    {
    }

    /** The stream has ended, but not the range coder. */
    lemma EndsBadly(src: seq<Byte>, m: nat, dicLimit: nat)
      requires m <= |src| && Going(fed + src[..m], dicLimit) && remainLen == SPEC_LEN_START && code != 0
      ensures VerdictOn(pr, goal, fed + src) == Wrong
    {
      NowSays(dicLimit);
      hide Fit, Pump, DecoderOk, Lzma, Start, Symbol, Now, Steady;
      LzmaParts(pr, goal, Now(), []);
      PumpStopped(Lzma(pr, goal), Kept(Now(), needFlush, tempBuf));
      EndsWrong(pr, goal, fed, src, m, Kept(Now(), needFlush, tempBuf));
    }

    /**
     * One call: decoding goes on up to the limit, as far as the input allows.  What it says and what has been
     * written is what decoding all input so far, at once, up to that limit gives.
     */
    method DecodeToDic(dicLimit: nat, src: seq<Byte>, finish: bool) returns (ok: bool, srcLen: nat, status: Status)
      requires Valid() && dicPos <= dicLimit <= dic.Length
      modifies this, probs, dic
      ensures goal == old(GoalOf(dicLimit, finish)) && srcLen <= |src|
      ensures ok ==> Valid() && fed == old(fed) + src[..srcLen] && dicPos <= dicLimit && |out| - dicPos == old(|out| - dicPos)
      ensures VerdictOn(pr, goal, old(fed) + src) == if ok then Fine(out, |fed| - |tempBuf|, status) else Wrong
      ensures ok ==> old(out) <= out && (old(remainLen) == SPEC_LEN_START ==> out == old(out) && dicPos == old(dicPos))
      ensures ok ==> (status == FinishedWithMark <==> remainLen == SPEC_LEN_START) && (old(remainLen) == SPEC_LEN_START ==> status == FinishedWithMark)
    {
      hide Valid, Going, Halted, VerdictOn, Now, Room, Dead, Fit, GoalOf, Began;
      ghost var g0, out0 := goal, out;
      BeganHere(dicLimit, finish);
      Open(dicLimit, finish);
      ok, srcLen, status := true, 0, NotSpecified;
      assert fed + src[..0] == fed;
      while remainLen != SPEC_LEN_START
        invariant srcLen <= |src| && Going(fed + src[..srcLen], dicLimit) && fed == old(fed) && goal == old(GoalOf(dicLimit, finish))
        invariant remainLen != SPEC_LEN_START ==> goal.finish == finish
        invariant |out| - dicPos == old(|out| - dicPos)
        invariant old(remainLen) == SPEC_LEN_START ==> remainLen == SPEC_LEN_START && out == old(out) && dicPos == old(dicPos)
        decreases Room(goal, Now())
      {
        var done;
        WithinIs(fed + src[..srcLen], dicLimit);
        ok, srcLen, done, status := Round(src, srcLen, dicLimit, finish, fed);
        if !ok {
          DeadIs(fed + src);
          return;
        }
        if done {
          Close(src, srcLen, dicLimit, status, g0, out0);
          return;
        }
      }
      if code == 0 {
        status := FinishedWithMark;
        EndsWell(srcLen == |src|, dicLimit);
        Close(src, srcLen, dicLimit, status, g0, out0);
      } else {
        EndsBadly(src, srcLen, dicLimit);
        ok := false;
      }
    }

    lemma BeganHere(dicLimit: nat, finish: bool)
      requires Valid() && dicPos <= dicLimit
      ensures Began(pr, goal, fed, out, GoalOf(dicLimit, finish))
    {
      OutIs();
      hide Fit, Pump, DecoderOk, Lzma, Start, Symbol, Now, KeptFew, Began;
      BeganIs(pr, goal, fed, out, GoalOf(dicLimit, finish), Kept(Now(), needFlush, tempBuf));
    }

    /** What has been written is the beginning of the whole. */
    lemma OutIs()
      requires Valid()
      ensures out == Now().out[..Written(goal, Now())] && (Now().ended <==> remainLen == SPEC_LEN_START)
    {
      hide Fits, CoreOk, Pump, DecoderOk, Lzma, Symbol, KeptFew, Written, InitProbs;
      NothingLeft(out, rep0);
      assert out <= Now().out;
    }

    // ---------------------------------------------------------------- to a buffer of the caller's

    /** A full dictionary is written from its beginning on. */
    method Wrap()
      requires Valid() && pr.dicSize <= dic.Length
      modifies this`dicPos
      ensures Valid() && dicPos < dic.Length
    {
      hide CoreOk, Keeps, Pump, DecoderOk, Lzma, Start, Symbol, Now, NumProbs, Written;
      PlaceIn(dic[..], dicPos, out);
      FitsProps();
      if dicPos == dic.Length {
        WrapAround(dic[..], out);
        dicPos := 0;
      }
    }

    /** The bytes written last are those before the place in the dictionary. */
    lemma LastBytes(pos0: nat, out0: seq<Byte>)
      requires Valid() && out0 <= out && dicPos - pos0 == |out| - |out0| && pos0 <= dicPos
      ensures dicPos <= dic.Length && dic[pos0..dicPos] == out[|out0|..]
    {
      hide CoreOk, Keeps, Pump, DecoderOk, Lzma, Start, Symbol, Now, NumProbs, Written;
      PlaceIn(dic[..], dicPos, out);
      var m := dicPos - pos0;
      forall i | 0 <= i < m ensures dic[pos0..dicPos][i] == out[|out0|..][i] {
        ByteAt(dic[..], dicPos, out, m - i);
      }
    }

    /** The goal of a call for destLen bytes. */
    ghost function BufGoal(destLen: nat, finish: bool): Goal
      reads this`remainLen, this`goal, this`out
    {
      if remainLen == SPEC_LEN_START then goal else Goal(|out| + destLen, finish)
    }

    /** One stretch of the dictionary, at most to its end. */
    method DecodeStretch(outSize: nat, src: seq<Byte>, finish: bool) returns (ok: bool, bytes: seq<Byte>, srcLen: nat, status: Status)
      requires Valid() && pr.dicSize <= dic.Length
      modifies this, probs, dic
      ensures srcLen <= |src| && (ok ==> Valid() && fed == old(fed) + src[..srcLen] && out == old(out) + bytes)
      ensures VerdictOn(pr, goal, old(fed) + src) == if ok then Fine(out, |fed| - |tempBuf|, status) else Wrong
      ensures ok ==> |bytes| <= outSize && (status == FinishedWithMark <==> remainLen == SPEC_LEN_START)
      ensures ok && old(remainLen) == SPEC_LEN_START ==> status == FinishedWithMark && bytes == []
      ensures goal != old(BufGoal(outSize, finish)) ==> old(remainLen) != SPEC_LEN_START && !goal.finish && goal.limit <= old(|out|) + outSize
      ensures ok && goal != old(BufGoal(outSize, finish)) ==> |bytes| < outSize && (bytes == [] ==> |out| < goal.limit)
    {
      hide Valid, VerdictOn;
      Wrap();
      var dicPos0 := dicPos;
      ghost var out0 := out;
      var outSizeCur, curFinish := dicPos + outSize, finish;
      if outSize > dic.Length - dicPos {
        outSizeCur, curFinish := dic.Length, false;
      }
      ok, srcLen, status := DecodeToDic(outSizeCur, src, curFinish);
      bytes := [];
      if ok {
        LastBytes(dicPos0, out0);
        bytes := dic[dicPos0..dicPos];
      }
    }

    /** Decoding to a buffer of destLen bytes, of any length, piece by piece through the dictionary. */
    method DecodeToBuf(destLen: nat, src: seq<Byte>, finish: bool) returns (ok: bool, dest: seq<Byte>, srcLen: nat, status: Status)
      requires Valid() && pr.dicSize <= dic.Length
      modifies this, probs, dic
      ensures srcLen <= |src| && (ok ==> Valid() && fed == old(fed) + src[..srcLen] && out == old(out) + dest)
      ensures VerdictOn(pr, old(BufGoal(destLen, finish)), old(fed) + src) == if ok then Fine(out, |fed| - |tempBuf|, status) else Wrong
      ensures ok ==> |dest| <= destLen && (status == FinishedWithMark <==> remainLen == SPEC_LEN_START)
      ensures ok && remainLen == SPEC_LEN_START ==> NoTighter(goal, old(BufGoal(destLen, finish)))
      ensures ok && old(remainLen) == SPEC_LEN_START ==> remainLen == SPEC_LEN_START && goal == old(goal) && dest == []
    {
      hide Valid, VerdictOn;
      ghost var g := BufGoal(destLen, finish);
      var outSize: nat := destLen;
      srcLen, dest := 0, [];
      while true
        invariant srcLen <= |src| && Valid() && fed == old(fed) + src[..srcLen] && out == old(out) + dest
        invariant if remainLen == SPEC_LEN_START then NoTighter(goal, g) else g == Goal(|out| + outSize, finish)
        invariant |dest| + outSize == destLen
        invariant old(remainLen) == SPEC_LEN_START ==> remainLen == SPEC_LEN_START && goal == old(goal) && dest == []
        decreases outSize
      {
        var bytes, used;
        ok, bytes, used, status := DecodeStretch(outSize, src[srcLen..], finish);
        Apart(old(fed), src, srcLen, if ok then used else 0);
        if !ok {
          if goal != g { SameVerdict(pr, goal, g, old(fed) + src); }
          return;
        }
        srcLen, dest, outSize := srcLen + used, dest + bytes, outSize - |bytes|;
        if bytes == [] || outSize == 0 {
          if goal != g { SameVerdict(pr, goal, g, old(fed) + src); }
          return;
        }
      }
    }

    lemma DeadIs(x: seq<Byte>)
      requires Dead(x)
      ensures VerdictOn(pr, goal, x) == Wrong
    {
    }
  }

  /** Pumping y leads to the same future as having the state k and the bytes kept. */
  ghost predicate SameAs(pr: Props, g: Goal, y: seq<Byte>, k: Core, kept: seq<Byte>) {
    DecoderOk(Lzma(pr, g)) && Pump(Lzma(pr, g), Kept(Start(pr), true, y)) == Pump(Lzma(pr, g), Kept(k, false, kept))
  }

  lemma SameMore(pr: Props, g: Goal, y: seq<Byte>, k: Core, kept: seq<Byte>, more: seq<Byte>)
    requires SameAs(pr, g, y, k, kept)
    ensures SameAs(pr, g, y + more, k, kept + more)
  {
    hide DecoderOk, Pump, Lzma, Start;
    SameFuture(Lzma(pr, g), Kept(Start(pr), true, y), Kept(k, false, kept), more);
  }

  /** The same, when the input up to m is taken. */
  lemma SameFeed(pr: Props, g: Goal, x: seq<Byte>, src: seq<Byte>, n: nat, k: Core, m: nat)
    requires n <= m <= |src| && SameAs(pr, g, x + src[..n], k, [])
    ensures SameAs(pr, g, x + src[..m], k, src[n..][..m - n])
    ensures m == |src| ==> SameAs(pr, g, x + src, k, src[n..])
  {
    hide SameAs;
    SameMore(pr, g, x + src[..n], k, [], src[n..m]);
    assert src[n..m] == src[n..][..m - n] && [] + src[n..m] == src[n..m];
    assert x + src[..n] + src[n..m] == x + src[..m];
    assert m == |src| ==> src[n..m] == src[n..] && src[..m] == src;
  }

  /** The same, when bytes are kept. */
  lemma SameKept(pr: Props, g: Goal, x: seq<Byte>, src: seq<Byte>, n: nat, k: Core, kept: seq<Byte>, m: nat)
    requires n + m <= |src| && SameAs(pr, g, x + src[..n], k, kept)
    ensures SameAs(pr, g, x + src[..n + m], k, kept + src[n..][..m])
  {
    hide SameAs;
    SameMore(pr, g, x + src[..n], k, kept, src[n..][..m]);
    assert x + src[..n] + src[n..][..m] == x + src[..n + m];
  }

  /** A symbol that did not fit into the kept bytes uses more than they are. */
  lemma UsedKept(pr: Props, g: Goal, k: Core, kept: seq<Byte>, b: seq<Byte>, u: nat, t: Core)
    requires DecoderOk(Lzma(pr, g)) && Running(Lzma(pr, g), k) && kept <= b && u <= |b| && Symbol(pr, k, kept).More? && Room(g, t) < Room(g, k)
    requires Pump(Lzma(pr, g), Kept(k, false, b[..u])) == Pump(Lzma(pr, g), Kept(t, false, []))
    ensures |kept| < u
  {
    hide DecoderOk, Pump, Lzma, Symbol, Room, Running;
    if u <= |kept| {
      var d := Lzma(pr, g);
      WishedIs(pr, g, k, kept);
      PumpMore(d, Kept(k, false, kept));
      SameFuture(d, Kept(k, false, b[..u]), Kept(t, false, []), kept[u..]);
      assert b[..u] + kept[u..] == kept && [] + kept[u..] == kept[u..];
      PumpRoom(d, Kept(t, false, kept[u..]));
      LzmaParts(pr, g, k, []);
      LzmaParts(pr, g, t, []);
    }
  }

  lemma TakenOf(kept: seq<Byte>, rest: seq<Byte>, b: seq<Byte>, m: int, u: nat)
    requires 0 <= |b| - |kept| <= |rest| && b == kept + rest[..|b| - |kept|] && u <= |b| && m == u - |kept| && 0 <= m
    ensures kept + rest[..m] == b[..u]
  {
  }

  /** What the bytes taken say is what the whole input says. */
  lemma Told(pr: Props, g: Goal, x: seq<Byte>, src: seq<Byte>, m: nat, k: Kept<Core>, out: seq<Byte>, status: Status)
    requires m <= |src| && DecoderOk(Lzma(pr, g)) && Pump(Lzma(pr, g), Kept(Start(pr), true, x + src[..m])) == Some(k)
    requires (m == |src| || Stopped(Lzma(pr, g), k)) && StatusOf(g, k) == status && (k.s.ended ==> k.s.code == 0) && out == k.s.out[..Written(g, k.s)]
    ensures VerdictOn(pr, g, x + src) == Fine(out, |x| + m - |k.rest|, status)
  {
    hide Pump, DecoderOk, Lzma, Start, Stopped;
    assert x + src[..m] <= x + src && (x + src)[|x + src[..m]|..] == src[m..];
    assert m == |src| ==> x + src[..m] == x + src;
    WholeInput(Lzma(pr, g), Start(pr), x + src, x + src[..m], k);
  }

  lemma EndsWrong(pr: Props, g: Goal, x: seq<Byte>, src: seq<Byte>, m: nat, k: Kept<Core>)
    requires m <= |src| && DecoderOk(Lzma(pr, g)) && Pump(Lzma(pr, g), Kept(Start(pr), true, x + src[..m])) == Some(k)
    requires Lzma(pr, g).finished(k.s) && k.s.ended && k.s.code != 0
    ensures VerdictOn(pr, g, x + src) == Wrong
  {
    hide Pump, DecoderOk, Lzma, Start;
    assert x + src[..m] <= x + src && (x + src)[|x + src[..m]|..] == src[m..];
    WholeInput(Lzma(pr, g), Start(pr), x + src, x + src[..m], k);
  }

  /** Before a call with the goal g, after taking x with the goal g0, out0 has been written. */
  ghost predicate Began(pr: Props, g0: Goal, x: seq<Byte>, out0: seq<Byte>, g: Goal) {
    && DecoderOk(Lzma(pr, g0)) && DecoderOk(Lzma(pr, g)) && Pump(Lzma(pr, g0), Kept(Start(pr), true, x)).Some?
    && var k := Pump(Lzma(pr, g0), Kept(Start(pr), true, x)).value;
       out0 == k.s.out[..Written(g0, k.s)] && |out0| <= g.limit && (k.s.ended ==> g == g0)
  }

  lemma BeganIs(pr: Props, g0: Goal, x: seq<Byte>, out0: seq<Byte>, g: Goal, k: Kept<Core>)
    requires DecoderOk(Lzma(pr, g0)) && Pump(Lzma(pr, g0), Kept(Start(pr), true, x)) == Some(k)
    requires out0 == k.s.out[..Written(g0, k.s)] && |out0| <= g.limit && (k.s.ended ==> g == g0)
    ensures Began(pr, g0, x, out0, g)
  {
    LzmaMayBeFed(pr, g);
    hide Pump, DecoderOk, Lzma, Start;
  }

  /** What was written stays. */
  lemma Grown(pr: Props, g0: Goal, x: seq<Byte>, out0: seq<Byte>, g: Goal, y: seq<Byte>, l: Kept<Core>)
    requires Began(pr, g0, x, out0, g) && Pump(Lzma(pr, g), Kept(Start(pr), true, x + y)) == Some(l)
    ensures out0 <= l.s.out[..Written(g, l.s)]
  {
    hide Pump, DecoderOk, Lzma, Start;
    var a := Kept(Start(pr), true, x);
    var k := Pump(Lzma(pr, g0), a).value;
    if k.s.ended {
      PumpTwice(Lzma(pr, g0), a);
    } else {
      Rebase(pr, g0, g, a, k);
    }
    SameFuture(Lzma(pr, g), a, k, y);
    PumpGrows(pr, g, Plus(k, y));
  }

  lemma EnoughFor(pr: Props, k: Core, b: seq<Byte>)
    ensures |b| >= REQUIRED_INPUT_MAX ==> !Symbol(pr, k, b).More?
  {
    SymbolFacts(pr, k, b);
  }

  lemma SymbolMore(pr: Props, k: Core, b: seq<Byte>)
    requires CoreOk(pr, k)
    ensures Symbol(pr, k, b).More? <==> Read(pr, k, b).None?
  {
    hide CoreOk, Read, Effect, Said;
  }

  lemma CoderOk(pr: Props, k: Core)
    requires CoreOk(pr, k)
    ensures Normal(k.range) && k.code < WORD
  {
  }

  lemma OnlyMatchEnds(pr: Props, k: Core, b: seq<Byte>)
    requires CoreOk(pr, k) && !k.ended && Read(pr, k, b).Some? && Read(pr, k, b).value.kind != Match
    ensures !Symbol(pr, k, b).More? && (Symbol(pr, k, b).Got? ==> !Symbol(pr, k, b).next.ended)
  {
    hide CoreOk, Read, Said, CopyOut;
  }

  lemma StartOk(pr: Props, code: nat)
    requires PropsOk(pr) && code < WORD
    ensures CoreOk(pr, Start(pr).(range := 0xFFFFFFFF, code := code))
  {
    hide NumProbs, InitProbs;
  }

  lemma WishedIs(pr: Props, g: Goal, k: Core, b: seq<Byte>)
    requires Running(Lzma(pr, g), k)
    ensures !k.ended && Lzma(pr, g).symbol(k, b) == Wished(pr, g, k, b)
    ensures Symbol(pr, k, b).Got? && (|k.out| < g.limit || Symbol(pr, k, b).next.ended) ==> Wished(pr, g, k, b) == Symbol(pr, k, b)
    ensures Symbol(pr, k, b).Bad? || (Symbol(pr, k, b).Got? && |k.out| >= g.limit && !Symbol(pr, k, b).next.ended) ==> Wished(pr, g, k, b) == Bad
    ensures Symbol(pr, k, b).More? ==> Wished(pr, g, k, b) == More
  {
    hide Symbol, Lzma;
    LzmaParts(pr, g, k, b);
  }

  lemma Apart(x: seq<Byte>, src: seq<Byte>, n: nat, u: nat)
    requires n + u <= |src|
    ensures x + src[..n] + src[n..] == x + src
    ensures x + src[..n] + src[n..][..u] == x + src[..n + u]
  {
  }

  /** The goal g2, or one that is met no earlier. */
  predicate NoTighter(g: Goal, g2: Goal) {
    g == g2 || (!g.finish && g.limit <= g2.limit)
  }

  lemma SameVerdict(pr: Props, g: Goal, g2: Goal, x: seq<Byte>)
    requires !g.finish && g.limit <= g2.limit
    requires var v := VerdictOn(pr, g, x); v.Wrong? || v.status == FinishedWithMark || |v.out| < g.limit
    ensures VerdictOn(pr, g2, x) == VerdictOn(pr, g, x)
  {
    hide Pump, DecoderOk, Lzma, InitProbs;
    LzmaMayBeFed(pr, g);
    LzmaMayBeFed(pr, g2);
    LimitNotMet(pr, g, g2, Kept(Start(pr), true, x));
    if Pump(Lzma(pr, g), Kept(Start(pr), true, x)).Some? {
      NotPassed(pr, g, Kept(Start(pr), true, x));
    }
  }

  lemma Rejoined(s: seq<Byte>, p: nat, u: nat)
    requires p <= |s|
    ensures s[..p] + s[p..] == s
    ensures p + u <= |s| ==> s[..p] + s[p..][..u] == s[..p + u]
  {
  }

  /** Writing n bytes of the rest of a match leaves the whole the same. */
  lemma RestSplit(out: seq<Byte>, rep: nat, rem: nat, n: nat)
    requires 1 <= rep <= |out| && n <= rem < SPEC_LEN_START
    ensures WithRest(CopyOut(out, rep, n), rep, rem - n) == WithRest(out, rep, rem)
  {
    hide CopyOut;
    CopySplit(out, rep, n, rem - n);
    CopyNone(out, rep);
    CopyNone(CopyOut(out, rep, n), rep);
  }

  lemma InitIs(pr: Props, ps: seq<Prob>)
    requires |ps| == NumProbs(pr) && forall j :: 0 <= j < |ps| ==> ps[j] == PROB_INIT
    ensures ps == InitProbs(pr)
  {
  }

  lemma NothingLeft(out: seq<Byte>, rep: nat)
    ensures WithRest(out, rep, 0) == out
  {
  }
}
