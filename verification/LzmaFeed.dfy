/**
 * Decoding symbol after symbol from input that comes in pieces: what a decoder that keeps the bytes of an
 * unfinished symbol has decoded depends on the input only, not on where it was cut.
 */
module LzmaFeed {
  import opened Bytes

  const RC_INIT_SIZE: nat := 5
  const REQUIRED_INPUT_MAX: nat := 20

  /** One symbol: more input is needed, the data are bad, or so many bytes led to the next state. */
  datatype Step<S> = More | Bad | Got(next: S, used: nat)

  /** A state, whether the range coder has still to be set up, and bytes kept for later. */
  datatype Kept<S> = Kept(s: S, flush: bool, rest: seq<Byte>)

  /**
   * The decoder by its parts: one symbol, the set-up, the end mark, an output limit that is an
   * error or one that is not, and output room.
   */
  datatype Decoder<!S> = Decoder(
    symbol: (S, seq<Byte>) -> Step<S>, setUp: (S, seq<Byte>) -> S,
    finished: S -> bool, stuck: S -> bool, full: S -> bool, room: S -> nat)

  /** What reading symbols promises: see LzmaSymbol for the walk and LzmaInputBound for the bound. */
  ghost predicate DecoderOk<S(!new)>(d: Decoder<S>) {
    && (forall s, b :: d.symbol(s, b).Got? ==> d.symbol(s, b).used <= |b| && d.room(d.symbol(s, b).next) < d.room(s))
    && (forall s, b :: |b| >= REQUIRED_INPUT_MAX ==> !d.symbol(s, b).More?)
    && (forall s, b, b2 :: b <= b2 && !d.symbol(s, b).More? ==> d.symbol(s, b2) == d.symbol(s, b))
    && (forall s, b, b2 :: b <= b2 && d.symbol(s, b2).Got? && d.symbol(s, b2).used <= |b| ==> d.symbol(s, b) == d.symbol(s, b2))
    && (forall s, b :: d.room(d.setUp(s, b)) == d.room(s) && d.finished(d.setUp(s, b)) == d.finished(s))
  }

  /** The next symbol is wanted. */
  ghost predicate Running<S>(d: Decoder<S>, s: S) {
    !d.finished(s) && !d.stuck(s) && !d.full(s)
  }

  /** All symbols that the input holds, one after the other; none for bad data. */
  ghost function Pump<S(!new)>(d: Decoder<S>, k: Kept<S>): Option<Kept<S>>
    requires DecoderOk(d)
    decreases d.room(k.s), k.flush
  {
    if d.finished(k.s) then Some(k)
    else if k.flush then
      if |k.rest| < RC_INIT_SIZE then Some(k)
      else if k.rest[0] != 0 then None
      else Pump(d, Kept(d.setUp(k.s, k.rest[..RC_INIT_SIZE]), false, k.rest[RC_INIT_SIZE..]))
    else if d.stuck(k.s) then None
    else if d.full(k.s) then Some(k)
    else
      match d.symbol(k.s, k.rest)
      case More => Some(k)
      case Bad => None
      case Got(next, used) => Pump(d, Kept(next, false, k.rest[used..]))
  }

  lemma SymbolLonger<S(!new)>(d: Decoder<S>, s: S, b: seq<Byte>, more: seq<Byte>)
    requires DecoderOk(d)
    ensures !d.symbol(s, b).More? ==> d.symbol(s, b + more) == d.symbol(s, b)
    ensures d.symbol(s, b).Got? ==> d.symbol(s, b).used <= |b| && d.room(d.symbol(s, b).next) < d.room(s)
    ensures d.symbol(s, b).Got? ==> (b + more)[d.symbol(s, b).used..] == b[d.symbol(s, b).used..] + more
    ensures d.room(d.setUp(s, b)) == d.room(s)
  {
    assert b <= b + more;
  }

  /** Input that comes later can as well be appended to what is kept. */
  lemma {:induction false} PumpLater<S(!new)>(d: Decoder<S>, k: Kept<S>, more: seq<Byte>)
    requires DecoderOk(d)
    ensures Pump(d, k).Some? ==>
      Pump(d, Kept(k.s, k.flush, k.rest + more)) == Pump(d, Pump(d, k).value.(rest := Pump(d, k).value.rest + more))
    decreases d.room(k.s), k.flush
  {
    SymbolLonger(d, k.s, k.rest, more);
    if d.finished(k.s) {
    } else if k.flush {
      if |k.rest| >= RC_INIT_SIZE && k.rest[0] == 0 {
        SymbolLonger(d, k.s, k.rest[..RC_INIT_SIZE], more);
        hide DecoderOk;
        assert (k.rest + more)[..RC_INIT_SIZE] == k.rest[..RC_INIT_SIZE];
        assert (k.rest + more)[RC_INIT_SIZE..] == k.rest[RC_INIT_SIZE..] + more;
        PumpLater(d, Kept(d.setUp(k.s, k.rest[..RC_INIT_SIZE]), false, k.rest[RC_INIT_SIZE..]), more);
      }
    } else if Running(d, k.s) && d.symbol(k.s, k.rest).Got? {
      hide DecoderOk;
      PumpLater(d, Kept(d.symbol(k.s, k.rest).next, false, k.rest[d.symbol(k.s, k.rest).used..]), more);
    }
  }

  /** Two states with the same future. */
  lemma PumpBoth<S(!new)>(d: Decoder<S>, k: Kept<S>, l: Kept<S>, more: seq<Byte>)
    requires DecoderOk(d) && Pump(d, k).Some? && Pump(d, k) == Pump(d, l)
    ensures Pump(d, Kept(k.s, k.flush, k.rest + more)) == Pump(d, Kept(l.s, l.flush, l.rest + more))
  {
    PumpLater(d, k, more);
    PumpLater(d, l, more);
  }

  /** Bad data stay bad. */
  lemma {:induction false} PumpBad<S(!new)>(d: Decoder<S>, k: Kept<S>, more: seq<Byte>)
    requires DecoderOk(d) && Pump(d, k).None?
    ensures Pump(d, Kept(k.s, k.flush, k.rest + more)).None?
    decreases d.room(k.s), k.flush
  {
    SymbolLonger(d, k.s, k.rest, more);
    if k.flush {
      SymbolLonger(d, k.s, k.rest[..RC_INIT_SIZE], more);
      hide DecoderOk;
      assert (k.rest + more)[..RC_INIT_SIZE] == k.rest[..RC_INIT_SIZE];
      assert (k.rest + more)[RC_INIT_SIZE..] == k.rest[RC_INIT_SIZE..] + more;
      if k.rest[0] == 0 {
        PumpBad(d, Kept(d.setUp(k.s, k.rest[..RC_INIT_SIZE]), false, k.rest[RC_INIT_SIZE..]), more);
      }
    } else if !d.stuck(k.s) {
      hide DecoderOk;
      if d.symbol(k.s, k.rest).Got? {
        PumpBad(d, Kept(d.symbol(k.s, k.rest).next, false, k.rest[d.symbol(k.s, k.rest).used..]), more);
      }
    }
  }

  ghost function Plus<S>(k: Kept<S>, more: seq<Byte>): Kept<S> { k.(rest := k.rest + more) }

  /** States with the same future keep it, whatever comes. */
  lemma SameFuture<S(!new)>(d: Decoder<S>, k: Kept<S>, l: Kept<S>, more: seq<Byte>)
    requires DecoderOk(d) && Pump(d, k) == Pump(d, l)
    ensures Pump(d, Plus(k, more)) == Pump(d, Plus(l, more))
  {
    hide DecoderOk, Pump;
    if Pump(d, k).Some? {
      PumpBoth(d, k, l, more);
    } else {
      PumpBad(d, k, more);
      PumpBad(d, l, more);
    }
  }

  /** A symbol read from input that may go on, told from the bytes it used. */
  lemma PumpSymbol<S(!new)>(d: Decoder<S>, s: S, b: seq<Byte>)
    requires DecoderOk(d) && Running(d, s) && d.symbol(s, b).Got?
    ensures d.symbol(s, b).used <= |b| && d.room(d.symbol(s, b).next) < d.room(s)
    ensures Pump(d, Kept(s, false, b[..d.symbol(s, b).used])) == Pump(d, Kept(d.symbol(s, b).next, false, []))
  {
    var u := d.symbol(s, b).used;
    assert b[..u] <= b;
    assert d.symbol(s, b[..u]) == d.symbol(s, b);
    assert b[..u][u..] == [];
  }

  lemma PumpMore<S(!new)>(d: Decoder<S>, k: Kept<S>)
    requires DecoderOk(d) && Running(d, k.s) && !k.flush
    ensures d.symbol(k.s, k.rest).More? ==> Pump(d, k) == Some(k)
    ensures d.symbol(k.s, k.rest).Bad? ==> Pump(d, k) == None
  {
  }

  lemma PumpStopped<S(!new)>(d: Decoder<S>, k: Kept<S>)
    requires DecoderOk(d)
    requires d.finished(k.s) || (k.flush && |k.rest| < RC_INIT_SIZE) || (!k.flush && !d.stuck(k.s) && d.full(k.s))
    ensures Pump(d, k) == Some(k)
  {
  }

  lemma PumpSetUp<S(!new)>(d: Decoder<S>, k: Kept<S>)
    requires DecoderOk(d) && !d.finished(k.s) && k.flush && |k.rest| == RC_INIT_SIZE
    ensures k.rest[0] != 0 ==> Pump(d, k) == None
    ensures k.rest[0] == 0 ==> Pump(d, k) == Pump(d, Kept(d.setUp(k.s, k.rest), false, []))
    ensures d.room(d.setUp(k.s, k.rest)) == d.room(k.s) && !d.finished(d.setUp(k.s, k.rest))
  {
    assert k.rest[..RC_INIT_SIZE] == k.rest && k.rest[RC_INIT_SIZE..] == [];
  }

  /** What pumping has left cannot be pumped further. */
  lemma {:induction false} PumpTwice<S(!new)>(d: Decoder<S>, k: Kept<S>)
    requires DecoderOk(d) && Pump(d, k).Some?
    ensures Pump(d, Pump(d, k).value) == Pump(d, k)
  {
    PumpLater(d, k, []);
    hide DecoderOk, Pump;
    assert k.rest + [] == k.rest;
    assert Pump(d, k).value.rest + [] == Pump(d, k).value.rest;
  }

  /** The same when the symbol begins in kept bytes. */
  lemma TakeFromKept<S(!new)>(d: Decoder<S>, k: Kept<S>, s: S, kept: seq<Byte>, b: seq<Byte>)
    requires DecoderOk(d) && Pump(d, k) == Pump(d, Kept(s, false, kept)) && Running(d, s)
    ensures d.symbol(s, kept + b).Bad? ==> Pump(d, Plus(k, b)) == None
    ensures d.symbol(s, kept + b).More? ==> Pump(d, Plus(k, b)) == Some(Kept(s, false, kept + b))
    ensures d.symbol(s, kept + b).Got? && |kept| <= d.symbol(s, kept + b).used ==>
      d.symbol(s, kept + b).used <= |kept + b| &&
      Pump(d, Plus(k, b[..d.symbol(s, kept + b).used - |kept|])) == Pump(d, Kept(d.symbol(s, kept + b).next, false, []))
  {
    hide DecoderOk, Pump;
    SameFuture(d, k, Kept(s, false, kept), b);
    PumpMore(d, Kept(s, false, kept + b));
    if d.symbol(s, kept + b).Got? {
      var u := d.symbol(s, kept + b).used;
      PumpSymbol(d, s, kept + b);
      if |kept| <= u {
        SameFuture(d, k, Kept(s, false, kept), b[..u - |kept|]);
        assert (kept + b)[..u] == kept + b[..u - |kept|];
      }
    }
  }

  lemma {:induction false} PumpRoom<S(!new)>(d: Decoder<S>, k: Kept<S>)
    requires DecoderOk(d) && Pump(d, k).Some?
    ensures d.room(Pump(d, k).value.s) <= d.room(k.s) && (!k.flush ==> !Pump(d, k).value.flush)
    decreases d.room(k.s), k.flush
  {
    SymbolLonger(d, k.s, k.rest, []);
    if !d.finished(k.s) && k.flush {
      if |k.rest| >= RC_INIT_SIZE {
        SymbolLonger(d, k.s, k.rest[..RC_INIT_SIZE], []);
        hide DecoderOk;
        PumpRoom(d, Kept(d.setUp(k.s, k.rest[..RC_INIT_SIZE]), false, k.rest[RC_INIT_SIZE..]));
      }
    } else if Running(d, k.s) && d.symbol(k.s, k.rest).Got? {
      hide DecoderOk;
      PumpRoom(d, Kept(d.symbol(k.s, k.rest).next, false, k.rest[d.symbol(k.s, k.rest).used..]));
    }
  }

  /** Nothing more is wanted of the input. */
  ghost predicate Stopped<S>(d: Decoder<S>, k: Kept<S>) {
    d.finished(k.s) || (!k.flush && !d.stuck(k.s) && d.full(k.s))
  }

  lemma WholeInput<S(!new)>(d: Decoder<S>, start: S, input: seq<Byte>, x: seq<Byte>, k: Kept<S>)
    requires DecoderOk(d) && x <= input && Pump(d, Kept(start, true, x)) == Some(k) && (x == input || Stopped(d, k))
    ensures Pump(d, Kept(start, true, input)) == Some(k.(rest := k.rest + input[|x|..]))
  {
    if x == input {
      assert k.rest + input[|x|..] == k.rest;
    } else {
      PumpLater(d, Kept(start, true, x), input[|x|..]);
      assert x + input[|x|..] == input;
      PumpStopped(d, k.(rest := k.rest + input[|x|..]));
    }
  }
}
