/** The bit streams of bzip2: a 32-bit buffer that bits are pushed into from one side and bytes taken off at the other. */
module BitStream {
  import opened Bytes
  import opened Bits
  import opened Residues

  const BUFFER: nat := 0x1_0000_0000

  /** The bits of some bytes in order. */
  function BytesBits(s: seq<Byte>): (r: seq<bool>)
    ensures |r| == 8 * |s|
  {
    if s == [] then [] else BytesBits(s[..|s| - 1]) + BitsOf(s[|s| - 1], 8)
  }

  lemma BytesSnoc(s: seq<Byte>, b: Byte)
    ensures BytesBits(s + [b]) == BytesBits(s) + BitsOf(b, 8)
  {
    assert (s + [b])[..|s|] == s;
  }

  lemma {:induction false} BytesFirst(s: seq<Byte>)
    requires s != []
    ensures BytesBits(s) == BitsOf(s[0], 8) + BytesBits(s[1..])
  {
    if |s| > 1 {
      BytesFirst(s[..|s| - 1]);
      assert s[..|s| - 1][1..] == s[1..][..|s| - 2];
    } else {
      assert s[..0] == [] && s[1..] == [];
    }
  }

  /** Numbers written one after the other are one number. */
  lemma {:induction false} BitsJoin(h: nat, l: nat, a: nat, b: nat)
    requires l < Pow2(b)
    ensures BitsOf(h * Pow2(b) + l, a + b) == BitsOf(h, a) + BitsOf(l, b)
    decreases b
  {
    if b == 0 {
      assert h * Pow2(0) + l == h;
      assert BitsOf(h, a) + [] == BitsOf(h, a);
    } else {
      BitsJoin(h, l / 2, a, b - 1);
      HalfOf(h, l, Pow2(b - 1));
      assert BitsOf(h, a) + (BitsOf(l / 2, b - 1) + [l % 2 == 1]) == BitsOf(h, a) + BitsOf(l / 2, b - 1) + [l % 2 == 1];
    }
  }

  lemma HalfOf(h: nat, l: nat, p: nat)
    ensures (h * (2 * p) + l) / 2 == h * p + l / 2 && (h * (2 * p) + l) % 2 == l % 2
  {
    var x := h * p;
    assert h * (2 * p) == 2 * x;
  }

  // ---------------------------------------------------------------- writing

  class BitWriter {
    var bsBuff: nat
    var bsLive: nat
    var out: seq<Byte>
    ghost var live: nat

    /** The live bits stand at the top of the buffer. */
    ghost predicate Valid()
      reads this
    {
      bsLive <= 32 && live < Pow2(bsLive) && bsBuff == live * Pow2(32 - bsLive)
    }

    /** All bits written so far. */
    ghost function Bits(): seq<bool>
      reads this
    {
      BytesBits(out) + BitsOf(live, bsLive)
    }

    constructor ()
      ensures Valid() && Bits() == [] && out == []
    {
      bsBuff, bsLive, out, live := 0, 0, [], 0;
    }

    /** The top byte goes out. */
    method PutByte()
      requires Valid() && bsLive >= 8
      modifies this
      ensures Valid() && bsLive == old(bsLive) - 8 && Bits() == old(Bits())
    {
      hide BitsOf, BytesBits, Pow2;
      ghost var p := Pow2(bsLive - 8);
      ghost var h, l := live / p, live % p;
      TopByte(live, bsLive, bsBuff);
      BitsJoin(h, l, 8, bsLive - 8);
      BytesSnoc(out, h);
      assert BytesBits(out) + (BitsOf(h, 8) + BitsOf(l, bsLive - 8)) == BytesBits(out) + BitsOf(h, 8) + BitsOf(l, bsLive - 8);
      out := out + [bsBuff / 0x100_0000];
      bsBuff := 256 * bsBuff % BUFFER;
      bsLive := bsLive - 8;
      live := l;
    }

    /** The n low bits of v are written; the lower part of the buffer is empty, so that adding is combining. */
    method W(n: nat, v: nat)
      requires Valid() && n <= 24 && v < Pow2(n)
      modifies this
      ensures Valid() && Bits() == old(Bits()) + BitsOf(v, n)
    {
      hide BitsOf, BytesBits, Pow2;
      while bsLive >= 8
        invariant Valid() && Bits() == old(Bits())
      {
        PutByte();
      }
      Pushed(live, bsLive, bsBuff, n, v);
      BitsJoin(live, v, bsLive, n);
      assert BytesBits(out) + (BitsOf(live, bsLive) + BitsOf(v, n)) == BytesBits(out) + BitsOf(live, bsLive) + BitsOf(v, n);
      bsBuff := bsBuff + Shifted(v, 32 - bsLive - n);
      bsLive := bsLive + n;
      live := live * Pow2(n) + v;
    }

    /** What is left goes out, filled up with zeros. */
    method Finish() returns (ghost pad: seq<bool>)
      requires Valid()
      modifies this
      ensures Valid() && BytesBits(out) == old(Bits()) + pad && |pad| < 8 && forall i :: 0 <= i < |pad| ==> !pad[i]
    {
      hide BitsOf, BytesBits, Pow2;
      while bsLive >= 8
        invariant Valid() && Bits() == old(Bits())
      {
        PutByte();
      }
      pad := [];
      Nothing();
      if bsLive > 0 {
        pad := BitsOf(0, 8 - bsLive);
        Zeros(8 - bsLive);
        PutLast();
      }
    }

    /** A byte with fewer than eight live bits. */
    method PutLast()
      requires Valid() && 0 < bsLive < 8
      modifies this
      ensures Valid() && bsLive == 0 && BytesBits(out) == old(Bits() + BitsOf(0, 8 - bsLive))
    {
      hide BitsOf, BytesBits, Pow2;
      LastByte(live, bsLive, bsBuff);
      BitsJoin(live, 0, bsLive, 8 - bsLive);
      BytesSnoc(out, live * Pow2(8 - bsLive));
      assert BytesBits(out) + (BitsOf(live, bsLive) + BitsOf(0, 8 - bsLive)) == BytesBits(out) + BitsOf(live, bsLive) + BitsOf(0, 8 - bsLive);
      out := out + [bsBuff / 0x100_0000];
      bsBuff, bsLive, live := 0, 0, 0;
      NoneLive();
    }

    lemma NoneLive()
      ensures 0 < Pow2(0)
    {
    }

    lemma Nothing()
      ensures bsLive == 0 ==> Bits() == BytesBits(out)
    {
      hide BytesBits;
    }
  }

  lemma {:induction false} Zeros(n: nat)
    ensures forall i :: 0 <= i < n ==> !BitsOf(0, n)[i]
  {
    if n > 0 { Zeros(n - 1); }
  }

  function Shifted(v: nat, k: nat): nat { v * Pow2(k) }

  lemma Eights()
    ensures Pow2(8) == 256 && Pow2(24) == 0x100_0000 && Pow2(32) == BUFFER
  {
    Pow2Add(8, 8);
    Pow2Add(16, 8);
    Pow2Add(24, 8);
    assert Pow2(8) == 256;
  }

  /** The top byte of a buffer, and the buffer without it. */
  lemma TopByte(live: nat, n: nat, buff: nat)
    requires 8 <= n <= 32 && live < Pow2(n) && buff == live * Pow2(32 - n)
    ensures var p := Pow2(n - 8);
      && live == live / p * p + live % p && live % p < p && live / p < 256
      && buff / 0x100_0000 == live / p && 256 * buff % BUFFER == live % p * Pow2(40 - n)
  {
    hide Pow2;
    var p, r := Pow2(n - 8), Pow2(32 - n);
    var h, l := live / p, live % p;
    Eights();
    Pow2Add(n - 8, 8);
    Pow2Add(n - 8, 32 - n);
    Pow2Add(8, 32 - n);
    TopParts(live, h, l, p, r, buff);
  }

  lemma TopParts(live: nat, h: nat, l: nat, p: nat, r: nat, buff: nat)
    requires p >= 1 && r >= 1 && live == h * p + l && l < p && live < p * 256 && p * r == 0x100_0000 && buff == live * r
    ensures h < 256 && buff / 0x100_0000 == h && 256 * buff % BUFFER == l * (256 * r)
  {
    HighPart(h, l, p, live);
    Spread(h, p, l, r);
    SmallProduct(l, p, r);
    TopOf(h, l * r, buff);
    Swap256(l, r);
  }

  lemma Swap256(l: nat, r: nat)
    ensures l * (256 * r) == l * r * 256
  {
  }

  lemma TopOf(h: nat, z: nat, buff: nat)
    requires buff == h * 0x100_0000 + z && z < 0x100_0000
    ensures buff / 0x100_0000 == h && 256 * buff % BUFFER == z * 256
  {
    QuotientUnique(buff, 0x100_0000, h, z);
    QuotientUnique(256 * buff, BUFFER, h, z * 256);
  }

  lemma HighPart(h: nat, l: nat, p: nat, live: nat)
    requires live == h * p + l && live < p * 256 && p >= 1
    ensures h < 256
  {
    if h >= 256 { MulLe(256, h, p); }
  }

  lemma Spread(h: nat, p: nat, l: nat, r: nat)
    ensures (h * p + l) * r == h * (p * r) + l * r
  {
    assert h * p * r == h * (p * r);
  }

  lemma SmallProduct(l: nat, p: nat, r: nat)
    requires l < p && r >= 1
    ensures l * r < p * r
  {
  }

  lemma LastByte(live: nat, n: nat, buff: nat)
    requires 0 < n < 8 && live < Pow2(n) && buff == live * Pow2(32 - n)
    ensures buff / 0x100_0000 == live * Pow2(8 - n) < 256
  {
    hide Pow2;
    Pow2Add(8 - n, 24);
    Pow2Add(n, 8 - n);
    Eights();
    var q := Pow2(8 - n);
    assert buff == live * q * 0x100_0000;
    QuotientUnique(buff, 0x100_0000, live * q, 0);
    SmallProduct(live, Pow2(n), q);
  }

  /** n more bits below the live ones. */
  lemma Pushed(live: nat, m: nat, buff: nat, n: nat, v: nat)
    requires m + n <= 32 && live < Pow2(m) && buff == live * Pow2(32 - m) && v < Pow2(n)
    ensures live * Pow2(n) + v < Pow2(m + n) && buff + Shifted(v, 32 - m - n) == (live * Pow2(n) + v) * Pow2(32 - m - n)
  {
    hide Pow2;
    Pow2Add(n, 32 - m - n);
    Pow2Add(m, n);
    PushedParts(live, v, Pow2(m), Pow2(n), Pow2(32 - m - n));
  }

  lemma PushedParts(live: nat, v: nat, p: nat, q: nat, r: nat)
    requires live < p && v < q
    ensures live * q + v < p * q && live * (q * r) + v * r == (live * q + v) * r
  {
    MulLe(live + 1, p, q);
    assert (live + 1) * q == live * q + q;
    Spread(live, q, v, r);
  }

  // ---------------------------------------------------------------- reading

  lemma {:induction false} BytesJoin(s: seq<Byte>, t: seq<Byte>)
    ensures BytesBits(s + t) == BytesBits(s) + BytesBits(t)
  {
    if t == [] {
      assert s + t == s;
      assert BytesBits(s) + [] == BytesBits(s);
    } else {
      var n := |t| - 1;
      BytesJoin(s, t[..n]);
      assert (s + t)[..|s| + n] == s + t[..n];
      assert BytesBits(s) + (BytesBits(t[..n]) + BitsOf(t[n], 8)) == BytesBits(s) + BytesBits(t[..n]) + BitsOf(t[n], 8);
    }
  }

  /** The input of several calls. */
  function Flat(calls: seq<seq<Byte>>): seq<Byte> {
    if calls == [] then [] else calls[0] + Flat(calls[1..])
  }

  lemma FlatFirst(calls: seq<seq<Byte>>, i: nat)
    requires i < |calls|
    ensures BytesBits(Flat(calls[i..])) == BytesBits(calls[i]) + BytesBits(Flat(calls[i + 1..]))
  {
    assert calls[i..][0] == calls[i] && calls[i..][1..] == calls[i + 1..];
    BytesJoin(calls[i], Flat(calls[i + 1..]));
  }

  lemma NothingLeft(calls: seq<seq<Byte>>, bits: seq<bool>)
    ensures bits + BytesBits(Flat(calls[|calls|..])) == bits
  {
  }

  /** What is read of the first bits is read of all. */
  lemma GotOne(bits: seq<bool>, n: nat, rest: seq<bool>)
    ensures n <= |bits| ==> (bits + rest)[..n] == bits[..n] && (bits + rest)[n..] == bits[n..] + rest
  {
  }

  class BitReader {
    var src: seq<Byte>
    var next: nat
    var bsBuff: nat
    var bsLive: nat

    ghost predicate Valid()
      reads this
    {
      next <= |src| && bsBuff < BUFFER && bsLive <= 31
    }

    /** The bits that are still to be read: the lowest of the buffer, then the rest of the bytes. */
    ghost function Bits(): seq<bool>
      reads this
    {
      BitsOf(bsBuff % Pow2(bsLive), bsLive) + if next <= |src| then BytesBits(src[next..]) else []
    }

    constructor (src: seq<Byte>)
      ensures Valid() && Bits() == BytesBits(src) && this.src == src
    {
      this.src, next, bsBuff, bsLive := src, 0, 0, 0;
      new;
      assert src[0..] == src;
    }

    /** n bits are read; false if there are too few. */
    method Get(n: nat) returns (ok: bool, v: nat)
      requires Valid() && n <= 24
      modifies this`next, this`bsBuff, this`bsLive
      ensures Valid() && (ok <==> n <= |old(Bits())|)
      ensures ok ==> Bits() == old(Bits())[n..] && v == ValueOf(old(Bits())[..n]) && v < Pow2(n)
      ensures !ok ==> Bits() == old(Bits())
    {
      hide BitsOf, BytesBits, Pow2, ValueOf;
      while bsLive < n
        invariant Valid() && Bits() == old(Bits())
        decreases |src| - next
      {
        if next == |src| {
          TooFew();
          return false, 0;
        }
        Fetch();
      }
      v := Low(bsBuff / Pow2(bsLive - n), n);
      TakeBits(bsBuff, bsLive, n, if next <= |src| then BytesBits(src[next..]) else []);
      bsLive := bsLive - n;
      ok := true;
    }

    method Fetch()
      requires Valid() && next < |src| && bsLive < 24
      modifies this`next, this`bsBuff, this`bsLive
      ensures Valid() && Bits() == old(Bits()) && next == old(next) + 1
    {
      hide BitsOf, BytesBits, Pow2;
      ghost var b: nat := src[next];
      BytesFirst(src[next..]);
      assert src[next..][1..] == src[next + 1..];
      ShiftedIn(bsBuff, bsLive, b);
      Eights();
      BitsJoin(bsBuff % Pow2(bsLive), b, bsLive, 8);
      assert BitsOf(bsBuff % Pow2(bsLive), bsLive) + (BitsOf(b, 8) + BytesBits(src[next + 1..]))
          == BitsOf(bsBuff % Pow2(bsLive), bsLive) + BitsOf(b, 8) + BytesBits(src[next + 1..]);
      bsBuff := (256 * bsBuff + src[next]) % BUFFER;
      bsLive := bsLive + 8;
      next := next + 1;
    }

    lemma TooFew()
      requires next == |src|
      ensures |Bits()| == bsLive
    {
    }

    /** More input, offered by a later call. */
    method Feed(more: seq<Byte>)
      requires Valid()
      modifies this`src
      ensures Valid() && Bits() == old(Bits()) + BytesBits(more)
    {
      hide BitsOf, BytesBits, Pow2;
      assert (src + more)[next..] == src[next..] + more;
      BytesJoin(src[next..], more);
      assert BitsOf(bsBuff % Pow2(bsLive), bsLive) + (BytesBits(src[next..]) + BytesBits(more))
          == BitsOf(bsBuff % Pow2(bsLive), bsLive) + BytesBits(src[next..]) + BytesBits(more);
      src := src + more;
    }

    /** A number whose bits come in over any number of calls: the reader stops where input runs out and goes on there. */
    method GetOverCalls(n: nat, calls: seq<seq<Byte>>) returns (ok: bool, v: nat, used: nat)
      requires Valid() && n <= 24
      modifies this`src, this`next, this`bsBuff, this`bsLive
      ensures Valid() && used <= |calls| && (ok <==> n <= |old(Bits()) + BytesBits(Flat(calls))|)
      ensures !ok ==> used == |calls| && Bits() == old(Bits()) + BytesBits(Flat(calls))
      ensures ok ==> v == ValueOf((old(Bits()) + BytesBits(Flat(calls)))[..n]) && v < Pow2(n)
      ensures ok ==> Bits() + BytesBits(Flat(calls[used..])) == (old(Bits()) + BytesBits(Flat(calls)))[n..]
    {
      hide BytesBits, Pow2, ValueOf, Valid, Bits;
      ghost var all := Bits() + BytesBits(Flat(calls));
      assert calls[0..] == calls;
      used := 0;
      ok, v := Get(n);
      GotOne(old(Bits()), n, BytesBits(Flat(calls)));
      while !ok && used < |calls|
        invariant Valid() && used <= |calls|
        invariant !ok ==> |Bits()| < n && Bits() + BytesBits(Flat(calls[used..])) == all
        invariant ok ==> n <= |all| && v == ValueOf(all[..n]) && v < Pow2(n) && Bits() + BytesBits(Flat(calls[used..])) == all[n..]
        decreases |calls| - used
      {
        ghost var bits, rest := Bits(), BytesBits(Flat(calls[used + 1..]));
        FlatFirst(calls, used);
        assert bits + (BytesBits(calls[used]) + rest) == bits + BytesBits(calls[used]) + rest;
        Feed(calls[used]);
        GotOne(bits + BytesBits(calls[used]), n, rest);
        ok, v := Get(n);
        used := used + 1;
      }
      if !ok {
        NothingLeft(calls, Bits());
      }
    }
  }

  function Low(v: nat, n: nat): nat { v % Pow2(n) }

  /** A byte shifted into the buffer, of which bits may be pushed out at the top. */
  lemma ShiftedIn(buff: nat, n: nat, b: nat)
    requires n <= 24 && b < 256
    ensures (256 * buff + b) % BUFFER % Pow2(n + 8) == buff % Pow2(n) * Pow2(8) + b
  {
    hide Pow2;
    Eights();
    Pow2Add(n, 8);
    Pow2Add(n + 8, 24 - n);
    NestedMod(256 * buff + b, Pow2(n + 8), Pow2(24 - n), BUFFER);
    ByteMod(buff, Pow2(n), b);
  }

  lemma ByteMod(buff: nat, p: nat, b: nat)
    requires p >= 1 && b < 256
    ensures (256 * buff + b) % (p * 256) == buff % p * 256 + b
  {
    var k, q := buff / p, buff % p;
    assert buff == k * p + q;
    ByteIn(k, p, q, b);
    QuotientUnique(256 * buff + b, p * 256, k, q * 256 + b);
  }

  lemma ByteIn(k: nat, p: nat, q: nat, b: nat)
    ensures 256 * (k * p + q) + b == k * (p * 256) + (q * 256 + b)
  {
    var y := k * p;
    assert k * (p * 256) == y * 256;
  }

  lemma Nested(k: nat, m: nat, r: nat, j: nat, z: nat)
    ensures k * (m * r) + (j * m + z) == (k * r + j) * m + z
  {
    assert k * (m * r) == (k * r) * m;
    assert (k * r + j) * m == (k * r) * m + j * m;
  }

  lemma NestedMod(x: nat, m: nat, r: nat, t: nat)
    requires m >= 1 && r >= 1 && t == m * r
    ensures x % t % m == x % m
  {
    var k, y := x / t, x % t;
    assert x == k * t + y;
    var j, z := y / m, y % m;
    assert y == j * m + z;
    Nested(k, m, r, j, z);
    QuotientUnique(x, m, k * r + j, z);
  }

  /** The n highest of the live bits, and the ones below. */
  lemma TakeBits(buff: nat, m: nat, n: nat, rest: seq<bool>)
    requires n <= m
    ensures var all := BitsOf(buff % Pow2(m), m) + rest;
      && Low(buff / Pow2(m - n), n) < Pow2(n) && Low(buff / Pow2(m - n), n) == ValueOf(all[..n])
      && all[n..] == BitsOf(buff % Pow2(m - n), m - n) + rest
  {
    hide Pow2, BitsOf, ValueOf;
    var p, q := Pow2(m - n), Pow2(n);
    Pow2Add(n, m - n);
    var h, l := Low(buff / p, n), buff % p;
    Parts(buff, p, q);
    BitsJoin(h, l, n, m - n);
    ValueOfBits(h, n);
    var all := BitsOf(buff % Pow2(m), m) + rest;
    assert all == BitsOf(h, n) + (BitsOf(l, m - n) + rest);
    assert all[..n] == BitsOf(h, n) && all[n..] == BitsOf(l, m - n) + rest;
  }

  lemma Below(h: nat, q: nat, p: nat, l: nat)
    requires h < q && l < p
    ensures h * p + l < q * p
  {
    MulLe(h + 1, q, p);
    assert (h + 1) * p == h * p + p;
  }

  lemma Parts(x: nat, p: nat, q: nat)
    requires p >= 1 && q >= 1
    ensures x % (q * p) == x / p % q * p + x % p && x / p % q < q && x % p < p
  {
    var a, l := x / p, x % p;
    assert x == a * p + l;
    var k, h := a / q, a % q;
    assert a == k * q + h;
    Spread(k, q, h, p);
    Below(h, q, p, l);
    QuotientUnique(x, q * p, k, h * p + l);
  }
}
