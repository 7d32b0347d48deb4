/** One symbol of the real LZMA decoder: its bits, and what it does to distances, state and dictionary. */
module LzmaWork {
  import opened Bytes
  import Bits
  import opened RangeCoder
  import opened LzmaSymbol
  import opened LzmaDummy
  import opened LzmaFeed
  import opened LzmaCore
  import opened LzmaStream
  import opened LzmaReal
  import opened LzmaDict

  /** Lengths from here on are not lengths: the stream has ended. */
  const SPEC_LEN_START: nat := 274

  /** The output once the unwritten rest of a match has been written. */
  ghost function WithRest(out: seq<Byte>, rep0: nat, len: nat): seq<Byte> {
    if len == 0 || len >= SPEC_LEN_START || !(1 <= rep0 <= |out|) then out else CopyOut(out, rep0, len)
  }

  /** What reading a symbol is, when the normalisation before it is still to be done. */
  lemma ReadIs(pr: Props, k: Core, d: Dec, s: seq<Byte>)
    requires Fill(d, s).Some? && d.pos == 0 && 0x10000 <= d.range < WORD && d.code < WORD
    requires var f := Fill(d, s).value; k.range == f.range && k.code == f.code
    requires CoreOk(pr, k) && Fill(d, s).value.pos <= |s| && Read(pr, k, s[Fill(d, s).value.pos..]).Some?
    ensures var c, f := ContextOf(pr, k.state, k.rep0, k.out), Fill(d, s).value;
            && Ready(c, IsMatch, k.probs, d) && Decode(c, IsMatch, k.probs, d, s, true).Some?
            && Decode(c, IsMatch, k.probs, d, s, true).value.dec.pos >= f.pos
            && Read(pr, k, s[f.pos..]) == Some(Back(Decode(c, IsMatch, k.probs, d, s, true).value, f.pos))
            && Said(pr, k, s[f.pos..]) == ItemOf(c, IsMatch, NOTHING, k.probs, d, s)
  {
    hide Decode, ItemOf, ContextOf, NumProbs;
    ContextIsOk(pr, k);
    var c, f := ContextOf(pr, k.state, k.rep0, k.out), Fill(d, s).value;
    WalkFilled(c, NOTHING, k.probs, d, s);
    WalkOffset(c, IsMatch, NOTHING, k.probs, f, s, f.pos);
    hide CoreOk;
  }

  /** The dictionary holds the output, and distances in reach are in the dictionary. */
  ghost predicate Fits(pr: Props, dic: seq<Byte>, dicPos: nat, processedPos: nat, checkDicSize: nat, out: seq<Byte>) {
    && PropsOk(pr) && Keeps(dic, dicPos, out) && processedPos == |out|
    && (if checkDicSize == 0 then |out| <= pr.dicSize else checkDicSize == pr.dicSize <= |out|)
    && (pr.dicSize <= |dic| || dicPos == |out|)
  }

  /** What the walk depends on, from the fields and the dictionary. */
  method FindContext(pr: Props, dic: array<Byte>, dicPos: nat, processedPos: nat, checkDicSize: nat, state: nat, rep0: nat,
                     ghost out: seq<Byte>)
    returns (c: Context)
    requires Fits(pr, dic[..], dicPos, processedPos, checkDicSize, out)
    requires state >= 7 ==> |out| > 0 && RepOk(pr, rep0, |out|)
    ensures c == ContextOf(pr, state, rep0, out) && c.state == state
  {
    hide Bits.Pow2, Keeps;
    PlaceIn(dic[..], dicPos, out);
    var literal := LITERAL;
    if checkDicSize != 0 || processedPos != 0 {
      ByteAt(dic[..], dicPos, out, 1);
      literal := LiteralAt(pr, processedPos, dic[(if dicPos == 0 then dic.Length else dicPos) - 1]);
    }
    var matchByte := 0;
    if state >= 7 {
      ByteAt(dic[..], dicPos, out, rep0);
      matchByte := dic[dicPos - rep0 + (if dicPos < rep0 then dic.Length else 0)];
    }
    c := Context(state, processedPos % Bits.Pow2(pr.pb), literal, matchByte);
  }

  /** Local variables of the decoding loop. */
  class Work {
    const pr: Props
    const probs: array<Prob>
    const dic: array<Byte>
    const checkDicSize: nat
    const src: seq<Byte>
    var state: nat
    var rep0: nat
    var rep1: nat
    var rep2: nat
    var rep3: nat
    var dicPos: nat
    var processedPos: nat
    var len: nat
    var range: nat
    var code: nat
    var buf: nat
    ghost var out: seq<Byte>

    constructor (pr: Props, probs: array<Prob>, dic: array<Byte>, checkDicSize: nat, src: seq<Byte>)
      ensures this.pr == pr && this.probs == probs && this.dic == dic && this.checkDicSize == checkDicSize && this.src == src
    {
      this.pr, this.probs, this.dic, this.checkDicSize, this.src := pr, probs, dic, checkDicSize, src;
    }

    ghost predicate Shape()
      reads this`dicPos, this`processedPos, this`out, dic
    {
      Fits(pr, dic[..], dicPos, processedPos, checkDicSize, out)
    }

    /** The normalisation that is still to be done. */
    ghost function Filled(): Option<Dec>
      reads this`range, this`code, this`buf
    {
      if buf <= |src| then Fill(Dec(range, code, 0), src[buf..]) else None
    }

    ghost function Now(): Core
      requires Filled().Some?
      reads this, probs
    {
      Core(probs[..], state, rep0, rep1, rep2, rep3, Filled().value.range, Filled().value.code, out, false)
    }

    ghost function Rest(): seq<Byte>
      reads this`range, this`code, this`buf
      requires Filled().Some?
    {
      if buf + Filled().value.pos <= |src| then src[buf + Filled().value.pos..] else []
    }

    /** The next symbol can be read. */
    ghost predicate Set()
      reads this, probs, dic
    {
      && Shape() && 0x10000 <= range < WORD && code < WORD && Filled().Some? && buf + Filled().value.pos <= |src|
      && CoreOk(pr, Now()) && Read(pr, Now(), Rest()).Some?
    }

    /** What a symbol has done: all of it, but for what of a match is beyond the limit. */
    ghost predicate Done(k: Core, o: Outcome, a: Acc, pos0: nat, limit: nat)
      reads this`state, this`rep0, this`rep1, this`rep2, this`rep3, this`dicPos, this`processedPos, this`len, this`out, dic
    {
      && Effect(pr, k, o, a).Some? && Shape()
      && var t := Effect(pr, k, o, a).value;
         && state == t.state && rep0 == t.rep0 && rep1 == t.rep1 && rep2 == t.rep2 && rep3 == t.rep3
         && (if t.ended then len >= SPEC_LEN_START && dicPos == pos0 && out == t.out
             else len < SPEC_LEN_START && (len > 0 ==> dicPos == limit && 1 <= rep0 <= |out| && rep0 <= dic.Length) && pos0 < dicPos <= limit
                  && |out| == |k.out| + (dicPos - pos0) && WithRest(out, rep0, len) == t.out)
    }

    /** The fields are those of k. */
    ghost predicate From(k: Core)
      reads this, dic
    {
      && Shape() && CoreOk(pr, k) && !k.ended && out == k.out && state == k.state
      && rep0 == k.rep0 && rep1 == k.rep1 && rep2 == k.rep2 && rep3 == k.rep3
    }

    method PutLiteral(symbol: nat, limit: nat, ghost k: Core, ghost o: Outcome, ghost a: Acc)
      requires From(k) && dicPos < limit <= dic.Length && (checkDicSize == 0 ==> |out| + (limit - dicPos) <= pr.dicSize)
      requires o.kind == Lit && a.symbol == symbol
      modifies dic, this`state, this`len, this`dicPos, this`processedPos, this`out
      ensures Done(k, o, a, old(dicPos), limit)
    {
      hide Keeps, NumProbs, RepOk;
      state := if state < 7 then (if state < 4 then 0 else state - 3) else if state < 10 then state - 3 else state - 6;
      PutByte(dic[..], dicPos, out, symbol % 256);
      dic[dicPos] := symbol % 256;
      out := out + [symbol % 256];
      dicPos := dicPos + 1;
      processedPos := processedPos + 1;
      len := 0;
    }

    /** A distance that can be repeated is in the dictionary. */
    lemma InReach(k: Core, rep: nat)
      requires From(k) && RepOk(pr, rep, |out|) && |out| > 0
      ensures 1 <= rep <= |out| && rep <= dic.Length
    {
      hide NumProbs;
    }

    method DoShortRep(limit: nat, ghost k: Core, ghost o: Outcome, ghost a: Acc)
      requires From(k) && dicPos < limit <= dic.Length && (checkDicSize == 0 ==> |out| + (limit - dicPos) <= pr.dicSize)
      requires o.kind == Rep && a.short && out != []
      modifies dic, this`state, this`len, this`dicPos, this`processedPos, this`out
      ensures Done(k, o, a, old(dicPos), limit)
    {
      hide Keeps, NumProbs;
      InReach(k, rep0);
      ghost var out2 := RepeatByte(dic, dicPos, rep0, out);
      out := out2;
      dicPos := dicPos + 1;
      processedPos := processedPos + 1;
      state := if state < 7 then 9 else 11;
      len := 0;
    }

    /** State and distances are those after the symbol t; its bytes are still to be copied. */
    ghost predicate Copying(t: Core, len0: nat)
      requires 1 <= rep0 <= |out|
      reads this
    {
      && !t.ended && state == t.state && rep0 == t.rep0 && rep1 == t.rep1 && rep2 == t.rep2 && rep3 == t.rep3
      && t.out == CopyOut(out, rep0, len0 + 2)
    }

    /** len0 + 2 bytes are copied, up to the limit. */
    method DoCopy(limit: nat, len0: nat, ghost k: Core, ghost o: Outcome, ghost a: Acc)
      requires Shape() && dicPos < limit <= dic.Length && (checkDicSize == 0 ==> |out| + (limit - dicPos) <= pr.dicSize)
      requires len0 + 2 < SPEC_LEN_START && 1 <= rep0 <= |out| && rep0 <= dic.Length && out == k.out
      requires Effect(pr, k, o, a).Some? && Copying(Effect(pr, k, o, a).value, len0)
      modifies dic, this`len, this`dicPos, this`processedPos, this`out
      ensures Done(k, o, a, old(dicPos), limit)
    {
      hide Keeps, NumProbs, Effect, Done, CopyOut, WithRest;
      len := len0 + 2;
      var rem := limit - dicPos;
      var curLen := if rem < len then rem else len;
      processedPos := processedPos + curLen;
      len := len - curLen;
      ghost var out2;
      dicPos, out2 := CopyMatch(dic, dicPos, rep0, curLen, out);
      out := out2;
      CopyDone(k, o, a, old(dicPos), limit, len0, curLen);
    }

    /** The first n bytes of a match have been copied. */
    lemma CopyDone(k: Core, o: Outcome, a: Acc, pos0: nat, limit: nat, len0: nat, n: nat)
      requires Shape() && Effect(pr, k, o, a).Some? && 1 <= rep0 <= |k.out| && rep0 <= dic.Length
      requires var t := Effect(pr, k, o, a).value; !t.ended && state == t.state && t.out == CopyOut(k.out, rep0, len0 + 2)
      requires var t := Effect(pr, k, o, a).value; rep0 == t.rep0 && rep1 == t.rep1 && rep2 == t.rep2 && rep3 == t.rep3
      requires 1 <= n <= len0 + 2 < SPEC_LEN_START && len == len0 + 2 - n && out == CopyOut(k.out, rep0, n)
      requires dicPos == pos0 + n <= limit && (len > 0 ==> dicPos == limit)
      ensures Done(k, o, a, pos0, limit)
    {
      hide Keeps, NumProbs, Effect, Shape, CopyOut;
      CopySplit(k.out, rep0, n, len);
      CopyNone(out, rep0);
    }

    method DoLiteral(w: Reader, limit: nat, ghost k: Core)
      requires From(k) && dicPos < limit <= dic.Length && (checkDicSize == 0 ==> |out| + (limit - dicPos) <= pr.dicSize)
      requires w.Valid() && w.probs == probs && w.c.state == state && w.a == NOTHING
      requires w.p == Literal(1, if w.c.state < 7 then 0 else 256, w.c.matchByte)
      modifies w`d, w`p, w`a, probs, dic, this`state, this`len, this`dicPos, this`processedPos, this`out
      ensures w.Valid() && w.p.End? && Done(k, w.goal, w.item, old(dicPos), limit)
    {
      hide Shape, NumProbs, RepOk, w.Valid, Done, CoreOk;
      var symbol := w.GetLiteral();
      w.AtEnd();
      PutLiteral(symbol, limit, k, w.goal, w.item);
    }

    /** One of the last distances becomes the last. */
    method MoveToFront(rep: nat)
      requires rep < 4
      modifies this`rep0, this`rep1, this`rep2, this`rep3
      ensures rep0 == old(if rep == 0 then rep0 else if rep == 1 then rep1 else if rep == 2 then rep2 else rep3)
      ensures rep1 == old(if rep >= 1 then rep0 else rep1) && rep2 == old(if rep >= 2 then rep1 else rep2)
      ensures rep3 == old(if rep >= 3 then rep2 else rep3)
    {
      if rep != 0 {
        var distance;
        if rep == 1 {
          distance := rep1;
        } else {
          if rep == 2 {
            distance := rep2;
          } else {
            distance := rep3;
            rep3 := rep2;
          }
          rep2 := rep1;
        }
        rep1 := rep0;
        rep0 := distance;
      }
    }

    /** A new distance becomes the last; not ok if there are no bytes that far back. */
    method NewDistance(distance: nat) returns (ok: bool)
      requires Shape()
      modifies this`rep0, this`rep1, this`rep2, this`rep3
      ensures rep0 == distance + 1 && rep1 == old(rep0) && rep2 == old(rep1) && rep3 == old(rep2)
      ensures ok <==> distance < Reach(pr, |out|)
      ensures ok ==> rep0 <= |out| && rep0 <= dic.Length
    {
      PlaceIn(dic[..], dicPos, out);
      hide Keeps;
      rep3, rep2, rep1, rep0 := rep2, rep1, rep0, distance + 1;
      if checkDicSize == 0 {
        ok := distance < processedPos;
      } else {
        ok := distance < checkDicSize;
      }
    }

    /** A repeated match: which of the last distances, and how long unless it is one byte. */
    method DoRep(w: Reader, limit: nat, ghost k: Core) returns (ok: bool)
      requires From(k) && dicPos < limit <= dic.Length && (checkDicSize == 0 ==> |out| + (limit - dicPos) <= pr.dicSize)
      requires w.Valid() && w.probs == probs && w.c.state == state && w.a == NOTHING && w.p == RepG0 && w.goal.kind == Rep
      modifies w`d, w`p, w`a, probs, dic, this`state, this`len, this`dicPos, this`processedPos, this`out
      modifies this`rep0, this`rep1, this`rep2, this`rep3
      ensures ok ==> w.Valid() && w.p.End? && Done(k, w.goal, w.item, old(dicPos), limit)
      ensures !ok ==> Effect(pr, k, w.goal, w.item).None?
    {
      hide NumProbs, w.Valid, Done, AfterLen, Keeps, CopyOut, Effect;
      if checkDicSize == 0 && processedPos == 0 {
        NoRepYet(pr, k, w.goal, w.item);
        return false;
      }
      InReach(k, rep0);
      InReach(k, rep1);
      InReach(k, rep2);
      InReach(k, rep3);
      var rep, short := w.GetRep();
      if short {
        w.AtEnd();
        DoShortRep(limit, k, w.goal, w.item);
        return true;
      }
      MoveToFront(rep);
      state := if state < 7 then 8 else 11;
      var len0 := w.GetLength(true);
      RepAfter(len0);
      w.AtEnd();
      RepEffect(pr, k, w.goal, w.item);
      DoCopy(limit, len0, k, w.goal, w.item);
      ok := true;
    }

    /** A match at a new distance, or the end mark. */
    method DoMatch(w: Reader, limit: nat, ghost k: Core) returns (ok: bool)
      requires From(k) && dicPos <= limit <= dic.Length && (checkDicSize == 0 && dicPos < limit ==> |out| + (limit - dicPos) <= pr.dicSize)
      requires w.Valid() && w.probs == probs && w.c.state == state && w.a == NOTHING && w.p == LenChoice(false)
      modifies w`d, w`p, w`a, probs, dic, this`state, this`len, this`dicPos, this`processedPos, this`out
      modifies this`rep0, this`rep1, this`rep2, this`rep3
      ensures w.Valid() && w.p.End?
      ensures ok ==> Done(k, w.goal, w.item, old(dicPos), limit)
      ensures !ok ==> Effect(pr, k, w.goal, w.item).None? || (old(dicPos) == limit && !Effect(pr, k, w.goal, w.item).value.ended)
    {
      hide NumProbs, w.Valid, Done, Keeps, CopyOut;
      var len0 := w.GetLength(false);
      var posSlot, distance := w.GetDistance(if len0 < 4 then len0 else 3);
      w.AtEnd();
      if posSlot >= 14 && distance == END_MARK {
        len := len0 + SPEC_LEN_START;
        MarkDone(k, w.goal, w.item, limit);
        return true;
      }
      ok := NewDistance(distance);
      if !ok { return; }
      state := if state < 7 then 7 else 10;
      if limit == dicPos { return false; }
      DoCopy(limit, len0, k, w.goal, w.item);
      ok := true;
    }

    lemma MarkDone(k: Core, o: Outcome, a: Acc, limit: nat)
      requires From(k) && o.kind == Match && a.slot >= 14 && a.distance == END_MARK && len >= SPEC_LEN_START
      ensures Done(k, o, a, dicPos, limit)
    {
    }

    /** The symbol t has been decoded, and the input stands behind it. */
    ghost predicate Stepped(k: Core, t: Core, o: Outcome, a: Acc, pos0: nat, limit: nat, place: nat)
      reads this, probs, dic
    {
      && Effect(pr, k, o, a) == Some(t) && Done(k, o, a, pos0, limit)
      && 0x10000 <= range < WORD && code < WORD && Filled().Some? && buf + Filled().value.pos == place <= |src|
      && probs[..] == t.probs && Filled().value.range == t.range && Filled().value.code == t.code
    }

    /** The bits of a symbol and what it does. */
    method Perform(w: Reader, limit: nat, ghost k: Core) returns (ok: bool)
      requires From(k) && dicPos <= limit <= dic.Length && (dicPos < limit || w.goal.kind == Match)
      requires checkDicSize == 0 && dicPos < limit ==> |out| + (limit - dicPos) <= pr.dicSize
      requires w.Valid() && w.probs == probs && w.c.state == state && w.a == NOTHING && w.p == IsMatch
      modifies w`d, w`p, w`a, probs, dic, this`state, this`len, this`dicPos, this`processedPos, this`out
      modifies this`rep0, this`rep1, this`rep2, this`rep3
      ensures ok ==> w.Valid() && w.p.End? && Effect(pr, k, w.goal, w.item).Some? && Done(k, w.goal, w.item, old(dicPos), limit)
      ensures ok && old(dicPos) == limit ==> Effect(pr, k, w.goal, w.item).value.ended
      ensures !ok ==> Effect(pr, k, w.goal, w.item).None? || (old(dicPos) == limit && !Effect(pr, k, w.goal, w.item).value.ended)
    {
      hide Shape, CoreOk, Effect, w.Valid, Wanted, Following;
      StartSteps(w.c);
      var bit := w.GetBit(IS_MATCH + 16 * state + w.c.posState);
      if !bit {
        w.Kinds(Lit);
        DoLiteral(w, limit, k);
        ok := true;
      } else {
        bit := w.GetBit(IS_REP + state);
        if bit {
          w.Kinds(Rep);
          ok := DoRep(w, limit, k);
        } else {
          w.Kinds(Match);
          ok := DoMatch(w, limit, k);
        }
      }
    }

    /** One symbol, from the context to the last bit, with all it does. */
    method One(limit: nat) returns (ok: bool, ghost o: Outcome, ghost a: Acc)
      requires Set() && dicPos <= limit <= dic.Length
      requires dicPos < limit || Read(pr, Now(), Rest()).value.kind == Match
      requires checkDicSize == 0 && dicPos < limit ==> |out| + (limit - dicPos) <= pr.dicSize
      modifies this, probs, dic
      ensures ok ==> Symbol(pr, old(Now()), old(Rest())).Got?
      ensures ok ==> old(dicPos) < limit || Symbol(pr, old(Now()), old(Rest())).next.ended
      ensures ok ==> Stepped(old(Now()), Symbol(pr, old(Now()), old(Rest())).next, o, a, old(dicPos), limit,
                             old(buf + Filled().value.pos) + Symbol(pr, old(Now()), old(Rest())).used)
      ensures !ok ==> Refused(old(Now()), old(Rest()), old(dicPos) == limit)
      ensures buf >= old(buf)
    {
      hide Fits, CoreOk, Effect, Decode, ItemOf, Done, ContextOf, Read, Said, Symbol, Reader.Valid, Fill, Ready, RepOk,
        Stepped, Refused;
      ghost var k, b, d := Now(), Rest(), Dec(range, code, 0);
      ghost var n := Fill(d, src[buf..]).value.pos;
      ReadIs(pr, k, d, src[buf..]);
      RepHas(pr, k);
      var c := FindContext(pr, dic, dicPos, processedPos, checkDicSize, state, rep0, out);
      var w := new Reader(c, probs, Dec(range, code, 0), src[buf..]);
      o, a := w.goal, w.item;
      SymbolIs(pr, k, b, o, a, n);
      ghost var full := dicPos == limit;
      ok := Perform(w, limit, k);
      if !ok {
        IsRefused(k, b, o, a, full);
        return;
      }
      w.AtEnd();
      NextPlace(pr, k, b, w.d, w.s, o, n, src, buf);
      buf := buf + w.d.pos;
      range, code := w.d.range, w.d.code;
      IsStepped(k, o, a, old(dicPos), limit, old(buf) + n + (o.dec.pos - n));
    }

    lemma IsRefused(k: Core, b: seq<Byte>, o: Outcome, a: Acc, full: bool)
      requires Effect(pr, k, o, a).None? ==> Symbol(pr, k, b) == Bad
      requires Effect(pr, k, o, a).Some? ==> Symbol(pr, k, b).Got? && Symbol(pr, k, b).next == Effect(pr, k, o, a).value
      requires Effect(pr, k, o, a).None? || (full && !Effect(pr, k, o, a).value.ended)
      ensures Refused(k, b, full)
    {
      hide Effect, Symbol;
    }

    lemma IsStepped(k: Core, o: Outcome, a: Acc, pos0: nat, limit: nat, place: nat)
      requires Effect(pr, k, o, a).Some? && Done(k, o, a, pos0, limit)
      requires 0x10000 <= range < WORD && code < WORD && Filled().Some? && buf + Filled().value.pos == place <= |src|
      requires var t := Effect(pr, k, o, a).value;
        probs[..] == t.probs && Filled().value.range == t.range && Filled().value.code == t.code
      ensures Stepped(k, Effect(pr, k, o, a).value, o, a, pos0, limit, place)
    {
      hide Effect, Done;
    }

    /** The state that the fields stand for, with a match written to its end. */
    ghost function Whole(): Core
      requires Filled().Some?
      reads this, probs
    {
      Now().(out := WithRest(out, rep0, len), ended := len >= SPEC_LEN_START)
    }

    lemma WholeIs(k: Core, t: Core, o: Outcome, a: Acc, pos0: nat, limit: nat, place: nat)
      requires CoreOk(pr, k) && !k.ended && Stepped(k, t, o, a, pos0, limit, place) && (!t.ended ==> |t.out| > |k.out|)
      ensures Whole() == t && Shape() && (t.ended <==> len >= SPEC_LEN_START)
      ensures !t.ended ==> |out| == |k.out| + (dicPos - pos0) && pos0 < dicPos <= limit
      ensures !t.ended && len > 0 ==> dicPos == limit && 1 <= rep0 <= |out| && rep0 <= dic.Length
      ensures t.ended ==> dicPos == pos0 && out == t.out
    {
      hide Effect, CoreOk, CopyOut, Fits;
    }

    /** The symbol is invalid, or writes where nothing may be written. */
    ghost predicate Refused(k: Core, b: seq<Byte>, full: bool) {
      Symbol(pr, k, b).Bad? || (full && Symbol(pr, k, b).Got? && !Symbol(pr, k, b).next.ended)
    }
  }

  lemma RepHas(pr: Props, k: Core)
    requires CoreOk(pr, k)
    ensures k.state >= 7 ==> |k.out| > 0 && RepOk(pr, k.rep0, |k.out|)
  {
  }

  /** Where the input stands behind a symbol, with the normalisation still to be done. */
  lemma NextPlace(pr: Props, k: Core, b: seq<Byte>, d: Dec, s: seq<Byte>, o: Outcome, n: nat, src: seq<Byte>, buf: nat)
    requires CoreOk(pr, k) && o.dec.pos >= n && Read(pr, k, b) == Some(Back(o, n)) && Fill(d, s) == Some(o.dec)
    requires buf <= |src| && s == src[buf..] && n <= |s| && b == s[n..]
    ensures buf + d.pos <= |src| && Fill(Dec(d.range, d.code, 0), src[buf + d.pos..]).Some?
    ensures var f := Fill(Dec(d.range, d.code, 0), src[buf + d.pos..]).value;
            f.range == o.dec.range && f.code == o.dec.code && buf + d.pos + f.pos == buf + n + (o.dec.pos - n) <= |src|
  {
    hide CoreOk, Read;
    ReadWithin(pr, k, b);
    assert d.pos <= |s|;
    FillOffset(d, s, d.pos);
    assert s[d.pos..] == src[buf + d.pos..];
  }

  lemma NoRepYet(pr: Props, k: Core, o: Outcome, a: Acc)
    requires o.kind == Rep && k.out == []
    ensures Effect(pr, k, o, a).None?
  {
  }

  function Chosen(k: Core, rep: nat): nat {
    if rep == 0 then k.rep0 else if rep == 1 then k.rep1 else if rep == 2 then k.rep2 else k.rep3
  }

  lemma RepEffect(pr: Props, k: Core, o: Outcome, a: Acc)
    requires CoreOk(pr, k) && o.kind == Rep && !a.short && k.out != [] && a.rep < 4
    ensures Effect(pr, k, o, a).Some? && 1 <= Chosen(k, a.rep) <= |k.out|
    ensures var t := Effect(pr, k, o, a).value;
      t.ended == k.ended && t.state == (if k.state < 7 then 8 else 11) && t.out == CopyOut(k.out, Chosen(k, a.rep), a.len + 2)
    ensures var t := Effect(pr, k, o, a).value;
      t.rep0 == Chosen(k, a.rep) && t.rep1 == (if a.rep >= 1 then k.rep0 else k.rep1)
      && t.rep2 == (if a.rep >= 2 then k.rep1 else k.rep2) && t.rep3 == if a.rep >= 3 then k.rep2 else k.rep3
  {
    hide NumProbs, CopyOut;
  }

  lemma SymbolIs(pr: Props, k: Core, b: seq<Byte>, o: Outcome, a: Acc, n: nat)
    requires CoreOk(pr, k) && o.dec.pos >= n && Read(pr, k, b) == Some(Back(o, n)) && Said(pr, k, b) == a
    ensures Effect(pr, k, o, a).None? ==> Symbol(pr, k, b) == Bad
    ensures Effect(pr, k, o, a).Some? ==> Symbol(pr, k, b) == Got(Effect(pr, k, o, a).value, o.dec.pos - n)
    ensures Effect(pr, k, o, a).Some? ==> var t := Effect(pr, k, o, a).value;
      t.probs == o.probs && t.range == o.dec.range && t.code == o.dec.code
  {
    hide CopyOut, CoreOk, Read, Said;
  }

  lemma RepAfter(len: nat)
    ensures AfterLen(true, len) == End(Rep)
  {
  }

  lemma CopyNone(out: seq<Byte>, rep: nat)
    requires 1 <= rep <= |out|
    ensures CopyOut(out, rep, 0) == out
  {
  }
}
