/**
 * The LZMA binary range coder: an encoder that keeps 33 bits of the low end of its interval and a
 * run of bytes waiting for a carry, and a decoder that keeps 32 bits of the difference.
 *
 * The encoder class is proved to refine exact interval arithmetic on unbounded numbers; the decoder
 * is then proved to recover every bit from the bytes the encoder writes.
 */
module RangeCoder {
  import opened Bytes
  import Bits
  import opened Residues

  const TOP_VALUE: nat := 0x1000000
  const WORD: nat := 0x1_0000_0000
  const BIT_MODEL_TOTAL: nat := 2048
  const PROB_INIT: Prob := 1024

  type Prob = p: int | 31 <= p <= 2017 witness 1024

  /** What the coder is asked for next: an adaptive bit under a probability slot, or a direct bit. */
  datatype Request = Adaptive(ctx: nat) | Direct

  /** A model decides the next request from the bits coded so far. */
  type Model = seq<bool> -> Request

  ghost predicate ModelOk(m: Model, slots: nat) {
    forall h: seq<bool> :: m(h).Adaptive? ==> m(h).ctx < slots
  }

  // ---------------------------------------------------------------- adaptive probabilities

  // The functions that define the coding have its numbers written out; the methods have names for them.

  /** The shift-by-5 update never leaves 31..2017, so no probability degenerates. */
  function UpdateProb(p: Prob, bit: bool): (q: Prob)
    ensures !bit ==> p <= q && (p < q <==> p <= 2016)
    ensures bit ==> q <= p && (q < p <==> p >= 32)
  {
    if bit then p - p / 32 else p + (2048 - p) / 32
  }

  // ---------------------------------------------------------------- exact interval arithmetic

  /** The half-open interval [low, low + range) of numbers with `len` base-256 digits. */
  datatype Interval = Interval(low: nat, range: nat, len: nat)

  const START: Interval := Interval(0, 0xFFFFFFFF, 5)

  predicate Normal(range: nat) {
    0x100_0000 <= range < 0x1_0000_0000
  }

  function Narrow(iv: Interval, q: Request, probs: seq<Prob>, bit: bool): (r: Interval)
    requires Normal(iv.range)
    requires q.Adaptive? ==> q.ctx < |probs|
    ensures r.len == iv.len
    ensures iv.low <= r.low && r.low + r.range <= iv.low + iv.range
    ensures 0x10000 <= r.range < WORD
  {
    match q
    case Direct =>
      var half := iv.range / 2;
      Interval(iv.low + (if bit then half else 0), half, iv.len)
    case Adaptive(ctx) =>
      var bound := iv.range / 2048 * probs[ctx];
      BoundInside(iv.range, probs[ctx]);
      if bit then Interval(iv.low + bound, iv.range - bound, iv.len)
      else Interval(iv.low, bound, iv.len)
  }

  /** Both parts of a split interval keep at least 2^16, so one shift renormalises. */
  lemma TimesMore(u: nat, a: nat, b: nat)
    requires a <= b
    ensures u * a <= u * b
  {
  }

  lemma BoundInside(range: nat, p: Prob)
    requires Normal(range)
    ensures 0x10000 <= range / BIT_MODEL_TOTAL * p
    ensures 0x10000 <= range - range / BIT_MODEL_TOTAL * p
  {
    var u := range / BIT_MODEL_TOTAL;
    assert u >= 8192;
    TimesMore(u, 31, p);
    TimesMore(u, p, 2017);
  }

  function Renormalise(iv: Interval): (r: Interval)
    requires 0x10000 <= iv.range < WORD
    ensures Normal(r.range)
  {
    if iv.range < 0x100_0000 then Interval(256 * iv.low, 256 * iv.range, iv.len + 1) else iv
  }

  function UpdateProbs(probs: seq<Prob>, q: Request, bit: bool): (r: seq<Prob>)
    requires q.Adaptive? ==> q.ctx < |probs|
    ensures |r| == |probs|
  {
    match q
    case Direct => probs
    case Adaptive(ctx) => probs[ctx := UpdateProb(probs[ctx], bit)]
  }

  function EncodeStep(iv: Interval, q: Request, probs: seq<Prob>, bit: bool): (r: Interval)
    requires Normal(iv.range)
    requires q.Adaptive? ==> q.ctx < |probs|
    ensures Normal(r.range)
  {
    Renormalise(Narrow(iv, q, probs, bit))
  }

  /** The interval and the probabilities after coding `bits`, `hist` having been coded before. */
  ghost function EncodeBits(m: Model, hist: seq<bool>, bits: seq<bool>, probs: seq<Prob>, iv: Interval)
    : (r: (Interval, seq<Prob>))
    requires ModelOk(m, |probs|) && Normal(iv.range)
    ensures Normal(r.0.range) && |r.1| == |probs|
    decreases |bits|
  {
    if bits == [] then (iv, probs) else
      var q := m(hist);
      EncodeBits(m, hist + [bits[0]], bits[1..], UpdateProbs(probs, q, bits[0]),
                 EncodeStep(iv, q, probs, bits[0]))
  }

  // ---------------------------------------------------------------- the decoder

  datatype Dec = Dec(range: nat, code: nat, pos: nat)

  /** The decoder's lazy normalisation; none when the input is exhausted. */
  function Fill(d: Dec, s: seq<Byte>): (r: Option<Dec>)
    ensures r.Some? && 0x10000 <= d.range < WORD ==> Normal(r.value.range)
  {
    if d.range >= 0x100_0000 then Some(d)
    else if d.pos >= |s| then None
    else Some(Dec(256 * d.range % WORD, (256 * d.code + s[d.pos]) % WORD, d.pos + 1))
  }

  /** The borrow test on 32-bit words: bit 31 of code - range. */
  function Borrow(code: nat, range: nat): nat
    requires code < WORD && range < WORD
  {
    ((code - range) % WORD) / 0x8000_0000
  }

  /** One bit from a filled decoder state. */
  function Choose(d: Dec, q: Request, probs: seq<Prob>): (r: (bool, Dec))
    requires Normal(d.range) && d.code < WORD
    requires q.Adaptive? ==> q.ctx < |probs|
    ensures 0x10000 <= r.1.range < WORD && r.1.code < WORD && r.1.pos == d.pos
  {
    match q
    case Direct =>
      var half := d.range / 2;
      var borrow := Borrow(d.code, half);
      (borrow == 0, Dec(half, (d.code - half + borrow * half) % WORD, d.pos))
    case Adaptive(ctx) =>
      var bound := d.range / 2048 * probs[ctx];
      BoundInside(d.range, probs[ctx]);
      if d.code < bound then (false, Dec(bound, d.code, d.pos))
      else (true, Dec(d.range - bound, d.code - bound, d.pos))
  }

  /** `n` bits decoded from `s`; none when the input is exhausted first. */
  ghost function DecodeBits(m: Model, hist: seq<bool>, n: nat, probs: seq<Prob>, d: Dec, s: seq<Byte>)
    : (r: Option<(seq<bool>, Dec, seq<Prob>)>)
    requires ModelOk(m, |probs|) && 0x10000 <= d.range < WORD && d.code < WORD
    ensures r.Some? ==> |r.value.0| == n && 0x10000 <= r.value.1.range < WORD && r.value.1.code < WORD
    decreases n
  {
    if n == 0 then Some(([], d, probs)) else
      match Fill(d, s)
      case None => None
      case Some(f) =>
        var q := m(hist);
        var (bit, d2) := Choose(f, q, probs);
        match DecodeBits(m, hist + [bit], n - 1, UpdateProbs(probs, q, bit), d2, s)
        case None => None
        case Some((bits, d3, probs3)) => Some(([bit] + bits, d3, probs3))
  }

  /** The state after the five initial bytes; none when the first of them is not zero. */
  function InitDec(s: seq<Byte>): (r: Option<Dec>)
    ensures r.Some? ==> 0x10000 <= r.value.range < WORD && r.value.code < WORD
  {
    if |s| < 5 || s[0] != 0 then None
    else Some(Dec(0xFFFFFFFF, 0x1000000 * (s[1] as int) + 0x10000 * (s[2] as int) + 0x100 * (s[3] as int) + s[4], 5))
  }

  // ---------------------------------------------------------------- decoding inverts encoding

  /** An interval read as a decoder state over the stream `s`. */
  ghost predicate Tracks(d: Dec, iv: Interval, s: seq<Byte>) {
    && iv.len <= |s|
    && d.pos == iv.len
    && d.range == iv.range
    && iv.low <= Num(s[..iv.len]) < iv.low + iv.range
    && d.code == Num(s[..iv.len]) - iv.low
  }

  /** Filling the decoder is renormalising the encoder. */
  lemma FillTracks(d: Dec, iv: Interval, s: seq<Byte>)
    requires 0x10000 <= iv.range < WORD
    requires Renormalise(iv).len <= |s|
    requires Tracks(d, iv, s)
    ensures Fill(d, s).Some? && Tracks(Fill(d, s).value, Renormalise(iv), s)
  {
    if iv.range < TOP_VALUE {
      assert s[..iv.len + 1] == s[..iv.len] + [s[iv.len]];
      NumSnoc(s[..iv.len], s[iv.len]);
    }
  }

  /** The stream `s` lies in `iv`: its leading digits are one of the interval's numbers. */
  ghost predicate Holds(iv: Interval, s: seq<Byte>) {
    iv.len <= |s| && iv.low <= Num(s[..iv.len]) < iv.low + iv.range
  }

  /** The decoder state that stands for `iv` on the stream `s`. */
  ghost function At(iv: Interval, s: seq<Byte>): (d: Dec)
    requires Holds(iv, s)
    ensures Tracks(d, iv, s)
  {
    Dec(iv.range, Num(s[..iv.len]) - iv.low, iv.len)
  }

  /** A stream inside the renormalised interval is inside the interval before. */
  lemma HoldsBack(iv: Interval, s: seq<Byte>)
    requires 0x10000 <= iv.range < WORD
    requires Holds(Renormalise(iv), s)
    ensures Holds(iv, s)
  {
    if iv.range < TOP_VALUE {
      assert s[..iv.len + 1] == s[..iv.len] + [s[iv.len]];
      NumSnoc(s[..iv.len], s[iv.len]);
    }
  }

  /** The comparison picks the bit whose part of the interval holds the stream. */
  lemma ChooseTracks(iv: Interval, q: Request, probs: seq<Prob>, bit: bool, s: seq<Byte>)
    requires Normal(iv.range)
    requires q.Adaptive? ==> q.ctx < |probs|
    requires Holds(Narrow(iv, q, probs, bit), s)
    ensures Holds(iv, s)
    ensures Choose(At(iv, s), q, probs) == (bit, At(Narrow(iv, q, probs, bit), s))
  {
    if q.Direct? {
      var half := iv.range / 2;
      var d := At(iv, s);
      DirectBorrow(d.code, half);
      assert bit <==> half <= d.code;
      assert d.code < 2 * half;
    }
  }

  /** The borrow of code - range on 32-bit words tells which half the code lies in. */
  lemma DirectBorrow(code: nat, half: nat)
    requires 0x800000 <= half < 0x8000_0000 && code < 2 * half
    ensures Borrow(code, half) == (if half <= code then 0 else 1)
    ensures (code - half + Borrow(code, half) * half) % WORD == (if half <= code then code - half else code)
  {
    if half <= code {
      assert (code - half) % WORD == code - half;
    } else {
      assert (code - half) % WORD == code - half + WORD;
    }
  }

  /** One step of the decoder when the stream lies in the part of the interval for `bit`. */
  lemma DecodeStep(m: Model, hist: seq<bool>, bit: bool, n: nat, probs: seq<Prob>, iv: Interval, s: seq<Byte>)
    requires ModelOk(m, |probs|) && Normal(iv.range)
    requires Holds(EncodeStep(iv, m(hist), probs, bit), s)
    ensures Holds(iv, s)
    ensures var q := m(hist);
            var rv := EncodeStep(iv, q, probs, bit);
            var rest := DecodeBits(m, hist + [bit], n, UpdateProbs(probs, q, bit), At(rv, s), s);
            var all := DecodeBits(m, hist, n + 1, probs, At(iv, s), s);
            rest.Some? ==>
              all.Some? && all.value.0 == [bit] + rest.value.0 && all.value.2 == rest.value.2 &&
              Fill(all.value.1, s) == Fill(rest.value.1, s)
  {
    var q := m(hist);
    var nv := Narrow(iv, q, probs, bit);
    HoldsBack(nv, s);
    ChooseTracks(iv, q, probs, bit, s);
    FillTracks(At(nv, s), nv, s);
    assert Fill(At(nv, s), s).value == At(Renormalise(nv), s);
    FilledSame(m, hist + [bit], n, UpdateProbs(probs, q, bit), At(nv, s), s);
  }

  /** Filling first changes nothing, because decoding fills before it looks. */
  lemma FilledSame(m: Model, hist: seq<bool>, n: nat, probs: seq<Prob>, d: Dec, s: seq<Byte>)
    requires ModelOk(m, |probs|) && 0x10000 <= d.range < WORD && d.code < WORD
    requires Fill(d, s).Some? && Fill(d, s).value.code < WORD
    ensures Fill(Fill(d, s).value, s) == Fill(d, s)
    ensures n > 0 ==> DecodeBits(m, hist, n, probs, d, s) == DecodeBits(m, hist, n, probs, Fill(d, s).value, s)
  {
  }

  /** Decoding from the point where `bits` are still to come returns exactly what was coded. */
  ghost predicate Recovers(m: Model, hist: seq<bool>, bits: seq<bool>, probs: seq<Prob>, iv: Interval, s: seq<Byte>)
    requires ModelOk(m, |probs|) && Normal(iv.range)
  {
    && Holds(iv, s)
    && var enc := EncodeBits(m, hist, bits, probs, iv);
    && Holds(enc.0, s)
    && var r := DecodeBits(m, hist, |bits|, probs, At(iv, s), s);
    && r.Some? && r.value.0 == bits && r.value.2 == enc.1
    && Fill(r.value.1, s) == Some(At(enc.0, s))
  }

  lemma RecoversStep(m: Model, hist: seq<bool>, bit: bool, tail: seq<bool>, probs: seq<Prob>, iv: Interval, s: seq<Byte>)
    requires ModelOk(m, |probs|) && Normal(iv.range)
    requires Recovers(m, hist + [bit], tail, UpdateProbs(probs, m(hist), bit), EncodeStep(iv, m(hist), probs, bit), s)
    ensures Recovers(m, hist, [bit] + tail, probs, iv, s)
  {
    DecodeStep(m, hist, bit, |tail|, probs, iv, s);
    assert ([bit] + tail)[1..] == tail;
  }

  /**
   * From any point of an encoding: a stream that lies in the final interval lies in the interval at
   * that point, and decoding from there returns the remaining bits and the encoder's probabilities.
   */
  lemma {:induction false} DecodesRest(m: Model, hist: seq<bool>, bits: seq<bool>, probs: seq<Prob>,
                                       iv: Interval, s: seq<Byte>)
    requires ModelOk(m, |probs|) && Normal(iv.range)
    requires Holds(EncodeBits(m, hist, bits, probs, iv).0, s)
    ensures Recovers(m, hist, bits, probs, iv, s)
    decreases |bits|
  {
    if bits != [] {
      DecodesRest(m, hist + [bits[0]], bits[1..], UpdateProbs(probs, m(hist), bits[0]),
                  EncodeStep(iv, m(hist), probs, bits[0]), s);
      RecoversStep(m, hist, bits[0], bits[1..], probs, iv, s);
      assert [bits[0]] + bits[1..] == bits;
    }
  }

  /** Whatever is coded, the low end stays below 256^(len - 1): the leading byte is always zero. */
  lemma {:induction false} LeadingByteZero(m: Model, hist: seq<bool>, bits: seq<bool>, probs: seq<Prob>, iv: Interval)
    requires ModelOk(m, |probs|) && Normal(iv.range)
    requires iv.len >= 5 && iv.low + iv.range <= Pow256(iv.len - 1)
    ensures var fin := EncodeBits(m, hist, bits, probs, iv).0;
            fin.len >= 5 && fin.low + fin.range <= Pow256(fin.len - 1)
    decreases |bits|
  {
    if bits != [] {
      var q := m(hist);
      LeadingByteZero(m, hist + [bits[0]], bits[1..], UpdateProbs(probs, q, bits[0]),
                      EncodeStep(iv, q, probs, bits[0]));
    }
  }

  /** The stream the encoder leaves after its flush: the digits of the final low end. */
  ghost function Encoded(m: Model, bits: seq<bool>, probs: seq<Prob>): seq<Byte>
    requires ModelOk(m, |probs|)
  {
    var fin := EncodeBits(m, [], bits, probs, START).0;
    BigEndian(fin.low, fin.len)
  }

  /**
   * Round trip: for every model, every starting probabilities and every list of bits, and whatever
   * bytes follow the stream, the decoder accepts the header, returns exactly the bits, ends with the
   * encoder's probabilities, has consumed exactly the stream, and its code is zero.
   */
  lemma RoundTrip(m: Model, bits: seq<bool>, probs: seq<Prob>, rest: seq<Byte>)
    requires ModelOk(m, |probs|)
    ensures var s := Encoded(m, bits, probs);
            var all := s + rest;
            |s| >= 5 && s[0] == 0 &&
            InitDec(all).Some? &&
            var r := DecodeBits(m, [], |bits|, probs, InitDec(all).value, all);
            r.Some? && r.value.0 == bits &&
            r.value.2 == EncodeBits(m, [], bits, probs, START).1 &&
            Fill(r.value.1, all).Some? && Fill(r.value.1, all).value.pos == |s| &&
            Fill(r.value.1, all).value.code == 0
  {
    var s := Encoded(m, bits, probs);
    StreamHolds(m, bits, probs, rest);
    DecodesRest(m, [], bits, probs, START, s + rest);
    HeaderValue(s + rest);
    assert At(START, s + rest) == InitDec(s + rest).value;
  }

  lemma StreamHolds(m: Model, bits: seq<bool>, probs: seq<Prob>, rest: seq<Byte>)
    requires ModelOk(m, |probs|)
    ensures var fin := EncodeBits(m, [], bits, probs, START).0;
            var s := Encoded(m, bits, probs);
            |s| == fin.len >= 5 && s[0] == 0 && Holds(fin, s + rest) && At(fin, s + rest).code == 0
  {
    var fin := EncodeBits(m, [], bits, probs, START).0;
    assert START.low + START.range <= Pow256(4) by {
      assert Pow256(2) == 65536;
    }
    LeadingByteZero(m, [], bits, probs, START);
    BigEndianLead(fin.low, fin.len);
    assert (BigEndian(fin.low, fin.len) + rest)[..fin.len] == BigEndian(fin.low, fin.len);
  }

  lemma HeaderValue(s: seq<Byte>)
    requires |s| >= 5
    ensures Num(s[..5]) == 0x1_0000_0000 * (s[0] as int) + 0x1000000 * (s[1] as int) + 0x10000 * (s[2] as int) + 0x100 * (s[3] as int) + s[4]
  {
    assert s[..1] == [] + [s[0]];
    NumSnoc([], s[0]);
    assert s[..2] == s[..1] + [s[1]];
    NumSnoc(s[..1], s[1]);
    assert s[..3] == s[..2] + [s[2]];
    NumSnoc(s[..2], s[2]);
    assert s[..4] == s[..3] + [s[3]];
    NumSnoc(s[..3], s[3]);
    assert s[..5] == s[..4] + [s[4]];
    NumSnoc(s[..4], s[4]);
  }

  // ---------------------------------------------------------------- the encoder that carries

  /** The bits of `value` from bit `n - 1` down to bit 0. */
  function DirectBits(value: nat, n: nat): (r: seq<bool>)
    ensures |r| == n
  {
    if n == 0 then [] else [(value / Bits.Pow2(n - 1)) % 2 == 1] + DirectBits(value, n - 1)
  }

  function DirectOnly(h: seq<bool>): Request { Direct }

  lemma DirectStep(hist: seq<bool>, value: nat, n: nat, iv: Interval, bit: bool)
    requires n >= 1 && Normal(iv.range) && bit == ((value / Bits.Pow2(n - 1)) % 2 == 1)
    ensures EncodeBits(DirectOnly, hist, DirectBits(value, n), [], iv)
         == EncodeBits(DirectOnly, hist + [bit], DirectBits(value, n - 1), [], EncodeStep(iv, Direct, [], bit))
  {
    hide EncodeStep;
    assert DirectBits(value, n)[1..] == DirectBits(value, n - 1);
  }

  lemma DirectEnd(hist: seq<bool>, value: nat, iv: Interval)
    requires Normal(iv.range)
    ensures EncodeBits(DirectOnly, hist, DirectBits(value, 0), [], iv).0 == iv
  {
  }

  class RangeEnc {
    var low: nat
    var range: nat
    var cache: Byte
    var cacheSize: nat
    var out: seq<Byte>

    /**
     * The number the encoder stands for: the bytes written, the cached byte, the 0xFF bytes that
     * wait behind it, and the low word with its carry.
     */
    ghost function Code(): nat
      requires cacheSize >= 1
      reads this
    {
      CodeOf(out, cache, cacheSize, low)
    }

    ghost function Abs(): Interval
      requires cacheSize >= 1
      reads this
    {
      Interval(Code(), range, |out| + cacheSize + 4)
    }

    /** `r` bounds what may still be added to low; a cached 0xFF can never receive a carry. */
    ghost predicate Room(r: nat)
      reads this
    {
      cacheSize >= 1 && low + r <= 2 * WORD && (cache == 255 ==> low + r <= WORD)
    }

    ghost predicate Valid()
      reads this
    {
      Normal(range) && Room(range)
    }

    constructor ()
      ensures Valid() && Abs() == START && out == []
    {
      low, range, cache, cacheSize, out := 0, 0xFFFFFFFF, 0, 1, [];
    }

    /** Shifting multiplies the number by 256 exactly, and never rewrites a byte already written. */
    method ShiftLow(ghost r: nat)
      requires 1 <= r < TOP_VALUE && Room(r)
      modifies this
      ensures Room(256 * r) && range == old(range)
      ensures Code() == 256 * old(Code()) && |out| + cacheSize == old(|out| + cacheSize) + 1
      ensures old(out) <= out
      ensures low == old(low) % TOP_VALUE * 256
      ensures low == old(low) == 0 ==> cacheSize == 1 && cache == 0
    {
      if low % WORD < 0xFF000000 || low / WORD != 0 {
        RoomAfter(low, r);
        Drain(low / WORD);
        ShiftedCode(old(out), cache, old(cacheSize), low, out);
        cache := low % WORD / TOP_VALUE;
      } else {
        RoomAfter(low, r);
        HeldCode(out, cache, cacheSize, low);
      }
      cacheSize := cacheSize + 1;
      low := low % TOP_VALUE * 256;
    }

    /** The inner loop of the shift: the cached byte and the 0xFF run leave with the carry added. */
    method Drain(carry: nat)
      requires cacheSize >= 1 && carry <= 1 && (carry == 1 ==> cache < 255)
      modifies `out, `cacheSize
      ensures cacheSize == 0 && |out| == old(|out| + cacheSize) && old(out) <= out
      ensures Num(out) == Num(old(out)) * Pow256(old(cacheSize)) + Pending(cache, old(cacheSize)) + carry
    {
      var temp := cache;
      ghost var size0, out0 := cacheSize, out;
      ghost var goal := Num(out) * Pow256(cacheSize) + Pending(cache, cacheSize) + carry;
      while cacheSize != 0
        invariant 0 <= cacheSize <= size0
        invariant cacheSize == size0 ==> out == out0 && temp == cache
        invariant cacheSize < size0 ==> temp == 255
        invariant cacheSize < size0 ==> Num(out) * Pow256(cacheSize) + Owed(carry, cacheSize) == goal
        invariant |out| + cacheSize == |out0| + size0 && out0 <= out
      {
        NumSnoc(out, (temp + carry) % 256);
        if cacheSize == size0 {
          FirstByte(Num(out), cache, cacheSize, carry);
        } else {
          NextByte(Num(out), cacheSize, carry);
        }
        out := out + [(temp + carry) % 256];
        temp := 255;
        cacheSize := cacheSize - 1;
      }
    }

    method EncodeBit(probs: array<Prob>, ctx: nat, symbol: bool)
      requires Valid() && ctx < probs.Length
      modifies this, probs
      ensures Valid() && old(out) <= out
      ensures Abs() == EncodeStep(old(Abs()), Adaptive(ctx), old(probs[..]), symbol)
      ensures probs[..] == UpdateProbs(old(probs[..]), Adaptive(ctx), symbol)
    {
      var ttt := probs[ctx];
      var newBound := range / BIT_MODEL_TOTAL * ttt;
      BoundInside(range, ttt);
      if !symbol {
        range := newBound;
        ttt := ttt + (BIT_MODEL_TOTAL - ttt) / 32;
      } else {
        low := low + newBound;
        range := range - newBound;
        ttt := ttt - ttt / 32;
      }
      probs[ctx] := ttt;
      if range < TOP_VALUE {
        ghost var r := range;
        range := 256 * range;
        ShiftLow(r);
      }
    }

    method EncodeDirectBits(value: nat, n: nat)
      requires Valid() && n >= 1
      modifies this
      ensures Valid() && old(out) <= out
      ensures Abs() == EncodeBits(DirectOnly, [], DirectBits(value, n), [], old(Abs())).0
    {
      hide EncodeBits, EncodeStep;
      var numBits := n;
      ghost var hist := [];
      while numBits != 0
        invariant Valid() && old(out) <= out
        invariant EncodeBits(DirectOnly, hist, DirectBits(value, numBits), [], Abs())
               == EncodeBits(DirectOnly, [], DirectBits(value, n), [], old(Abs()))
      {
        DirectStep(hist, value, numBits, Abs(), (value / Bits.Pow2(numBits - 1)) % 2 == 1);
        hist := hist + [(value / Bits.Pow2(numBits - 1)) % 2 == 1];
        numBits := numBits - 1;
        EncodeHalf((value / Bits.Pow2(numBits)) % 2);
      }
      DirectEnd(hist, value, Abs());
    }

    /** One round of the direct-bit loop. */
    method EncodeHalf(bit: nat)
      requires Valid() && bit <= 1
      modifies this
      ensures Valid() && old(out) <= out
      ensures Abs() == EncodeStep(old(Abs()), Direct, [], bit == 1)
    {
      range := range / 2;
      low := low + range * bit;
      if range < TOP_VALUE {
        ghost var r := range;
        range := 256 * range;
        ShiftLow(r);
      }
    }

    /** The flush writes every digit of the number, and nothing but them. */
    method FlushData()
      requires Valid()
      modifies this
      ensures out == BigEndian(old(Abs()).low, old(Abs()).len)
    {
      ghost var code, l := Code(), low;
      for i := 0 to 5
        invariant Room(1) && Code() == CodeAfter(code, i) && |out| + cacheSize == old(|out| + cacheSize) + i
        invariant low == LowAfter(l, i)
        invariant i == 5 ==> cacheSize == 1 && cache == 0
      {
        LowAfterStep(l, i);
        ShiftLow(1);
      }
      FlushedValue(out, code);
      NumIsBigEndian(out);
    }

    /** A whole stream: every bit under the model, then the flush. */
    method EncodeStream(m: Model, bits: seq<bool>, probs: array<Prob>)
      requires Valid() && Abs() == START && ModelOk(m, probs.Length)
      modifies this, probs
      ensures out == Encoded(m, bits, old(probs[..]))
      ensures probs[..] == EncodeBits(m, [], bits, old(probs[..]), START).1
    {
      ghost var fin := EncodeBits(m, [], bits, probs[..], START);
      for i := 0 to |bits|
        invariant Valid()
        invariant EncodeBits(m, bits[..i], bits[i..], probs[..], Abs()) == fin
      {
        assert bits[..i] + [bits[i]] == bits[..i + 1];
        assert bits[i..][1..] == bits[i + 1..];
        match m(bits[..i]) {
          case Adaptive(ctx) =>
            EncodeBit(probs, ctx, bits[i]);
          case Direct =>
            ghost var iv := Abs();
            EncodeDirectBits(if bits[i] then 1 else 0, 1);
            DirectOne(iv, bits[i], probs[..]);
        }
      }
      FlushData();
    }
  }

  ghost function Pending(cache: Byte, cacheSize: nat): nat
    requires cacheSize >= 1
  {
    (cache as int + 1) * Pow256(cacheSize - 1) - 1
  }

  ghost function CodeOf(out: seq<Byte>, cache: Byte, cacheSize: nat, low: nat): nat
    requires cacheSize >= 1
  {
    (Num(out) * Pow256(cacheSize) + Pending(cache, cacheSize)) * WORD + low
  }

  /** What the waiting 0xFF bytes come to, once it is known whether the carry runs through them. */
  ghost function Owed(carry: nat, n: nat): nat {
    if carry == 1 then 0 else Pow256(n) - 1
  }

  lemma Shifted(a: nat, b: nat, p: nat)
    ensures (256 * a + b) * p == a * (256 * p) + b * p
  {
  }

  lemma FirstByte(v: nat, cache: Byte, n: nat, carry: nat)
    requires n >= 1 && carry <= 1 && (carry == 1 ==> cache < 255)
    ensures (256 * v + (cache + carry) % 256) * Pow256(n - 1) + Owed(carry, n - 1)
         == v * Pow256(n) + Pending(cache, n) + carry
  {
    hide Num;
    var p := Pow256(n - 1);
    var c: nat := cache as int;
    Shifted(v, c + carry, p);
    assert (c + carry) * p == c * p + carry * p;
    assert (c + 1) * p == c * p + p;
    assert carry == 0 || carry == 1;
  }

  lemma NextByte(v: nat, n: nat, carry: nat)
    requires n >= 1 && carry <= 1
    ensures (256 * v + (255 + carry) % 256) * Pow256(n - 1) + Owed(carry, n - 1) == v * Pow256(n) + Owed(carry, n)
  {
    var p := Pow256(n - 1);
    assert v * (256 * p) == 256 * v * p;
    if carry == 1 {
      assert (256 * v + 0) * p == 256 * v * p;
    } else {
      assert (256 * v + 255) * p == 256 * v * p + 255 * p;
    }
  }

  /** A 33-bit low end is its carry, its top byte and its bottom 24 bits. */
  lemma SplitLow(low: nat)
    requires low < 2 * WORD
    ensures low == low / WORD * WORD + low % WORD / TOP_VALUE * TOP_VALUE + low % TOP_VALUE
    ensures low / WORD <= 1 && low % WORD / TOP_VALUE < 256
  {
    var c, l := low / WORD, low % WORD;
    var t := l / TOP_VALUE;
    assert low % TOP_VALUE == l % TOP_VALUE by {
      assert low == TOP_VALUE * (256 * c + t) + l % TOP_VALUE;
    }
  }

  /** What is left below the top byte has room for the range, and is tight when that byte is 0xFF. */
  lemma RoomAfter(low: nat, r: nat)
    requires 1 <= r < TOP_VALUE && low + r <= 2 * WORD
    ensures low / WORD <= 1 && low % WORD / TOP_VALUE < 256
    ensures low % TOP_VALUE * 256 + 256 * r <= 2 * WORD
    ensures low >= WORD && low % WORD / TOP_VALUE == 255 ==> low % TOP_VALUE * 256 + 256 * r <= WORD
    ensures 0xFF000000 <= low && low + r <= WORD ==> low % TOP_VALUE * 256 + 256 * r <= WORD
  {
    SplitLow(low);
  }

  /** Everything pending written: only the top byte of the low word is cached. */
  lemma ShiftedCode(out: seq<Byte>, cache: Byte, n: nat, low: nat, out2: seq<Byte>)
    requires n >= 1 && low < 2 * WORD
    requires Num(out2) == Num(out) * Pow256(n) + Pending(cache, n) + low / WORD
    ensures low % WORD / TOP_VALUE < 256
    ensures CodeOf(out2, low % WORD / TOP_VALUE, 1, low % TOP_VALUE * 256) == 256 * CodeOf(out, cache, n, low)
  {
    SplitLow(low);
    var q := Num(out) * Pow256(n) + Pending(cache, n);
    CachedCode(out2, low % WORD / TOP_VALUE, low % TOP_VALUE * 256);
    assert CodeOf(out, cache, n, low) == q * WORD + low;
  }

  lemma CachedCode(out: seq<Byte>, cache: Byte, low: nat)
    ensures CodeOf(out, cache, 1, low) == (256 * Num(out) + cache) * WORD + low
  {
    assert Pow256(1) == 256 && Pow256(0) == 1;
  }

  /** Nothing written: one more 0xFF waits. */
  lemma HeldCode(out: seq<Byte>, cache: Byte, n: nat, low: nat)
    requires n >= 1 && 0xFF000000 <= low < WORD
    ensures CodeOf(out, cache, n + 1, low % TOP_VALUE * 256) == 256 * CodeOf(out, cache, n, low)
  {
    var p := Pow256(n - 1);
    assert Pow256(n + 1) == 256 * Pow256(n) && Pow256(n) == 256 * p;
    assert Num(out) * (256 * Pow256(n)) == 256 * (Num(out) * Pow256(n));
    assert (cache as int + 1) * (256 * p) == 256 * ((cache as int + 1) * p);
  }

  /** The low word loses its top byte at every shift. */
  lemma TailBits(l: nat)
    ensures l % 0x1000000 * 0x100 % TOP_VALUE * 256 == l % 0x10000 * 0x10000
    ensures l % 0x10000 * 0x10000 % TOP_VALUE * 256 == l % 0x100 * 0x1000000
    ensures l % 0x100 * 0x1000000 % TOP_VALUE == 0
  {
    var a, r := l / 0x1000000, l % 0x1000000;
    var b, s := r / 0x10000, r % 0x10000;
    var c, t := s / 0x100, s % 0x100;
    QuotientUnique(l, 0x10000, 0x100 * a + b, s);
    QuotientUnique(l, 0x100, 0x10000 * a + 0x100 * b + c, t);
    QuotientUnique(r * 0x100, TOP_VALUE, b, s * 0x100);
    QuotientUnique(s * 0x10000, TOP_VALUE, c, t * 0x10000);
    QuotientUnique(t * 0x1000000, TOP_VALUE, t, 0);
  }

  ghost function LowAfter(l: nat, i: nat): nat {
    match i
    case 0 => l
    case 1 => l % 0x1000000 * 0x100
    case 2 => l % 0x10000 * 0x10000
    case 3 => l % 0x100 * 0x1000000
    case _ => 0
  }

  ghost function CodeAfter(code: nat, i: nat): nat {
    match i
    case 0 => code
    case 1 => 0x100 * code
    case 2 => 0x10000 * code
    case 3 => 0x1000000 * code
    case 4 => WORD * code
    case _ => 256 * (WORD * code)
  }

  lemma LowAfterStep(l: nat, i: nat)
    ensures LowAfter(l, i) % TOP_VALUE * 256 == LowAfter(l, i + 1)
  {
    TailBits(l);
  }

  lemma FlushedValue(out: seq<Byte>, code: nat)
    requires CodeOf(out, 0, 1, 0) == CodeAfter(code, 5)
    ensures Num(out) == code
  {
    CachedCode(out, 0, 0);
  }

  lemma DirectOne(iv: Interval, bit: bool, probs: seq<Prob>)
    requires Normal(iv.range)
    ensures EncodeBits(DirectOnly, [], DirectBits(if bit then 1 else 0, 1), [], iv).0 == EncodeStep(iv, Direct, probs, bit)
  {
    assert DirectBits(if bit then 1 else 0, 1) == [bit];
    assert [bit][1..] == [];
  }
}
