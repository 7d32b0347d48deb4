/**
 * Move-to-front coding of the last column, with runs of zero ranks written in bijective base 2:
 * the meaning of the symbol stream, and the proof that decoding inverts encoding.
 */
module MoveToFront {
  import opened Bytes

  const RUNA: nat := 0
  const RUNB: nat := 1

  function ToFront(l: seq<Byte>, k: nat): (r: seq<Byte>)
    requires k < |l|
    ensures |r| == |l|
  {
    [l[k]] + l[..k] + l[k + 1..]
  }

  function IndexOf(l: seq<Byte>, x: Byte): (k: nat)
    requires x in l
    ensures k < |l| && l[k] == x
    ensures forall i :: 0 <= i < k ==> l[i] != x
  {
    if l[0] == x then 0 else 1 + IndexOf(l[1..], x)
  }

  /** The digits of z in bijective base 2, least significant first; RUNA is 1 and RUNB is 2. */
  function RunDigits(z: nat): seq<nat> {
    if z == 0 then [] else [(z - 1) % 2] + RunDigits((z - 1) / 2)
  }

  function Copies(x: Byte, n: nat): (r: seq<Byte>)
    ensures |r| == n && forall i :: 0 <= i < n ==> r[i] == x
  {
    seq(n, _ => x)
  }

  ghost predicate AllIn(v: seq<Byte>, l: seq<Byte>) {
    forall i :: 0 <= i < |v| ==> v[i] in l
  }

  lemma ToFrontKeeps(l: seq<Byte>, k: nat, x: Byte)
    requires k < |l|
    ensures x in ToFront(l, k) <==> x in l
  {
    assert l == l[..k] + [l[k]] + l[k + 1..];
  }

  lemma AllInMoves(v: seq<Byte>, l: seq<Byte>, k: nat)
    requires AllIn(v, l) && k < |l|
    ensures AllIn(v, ToFront(l, k))
  {
    forall i | 0 <= i < |v|
      ensures v[i] in ToFront(l, k)
    {
      ToFrontKeeps(l, k, v[i]);
    }
  }

  /** The symbols for the bytes `v` under the list `l`, `z` bytes equal to its head being pending. */
  ghost function Encode(v: seq<Byte>, l: seq<Byte>, z: nat, eob: nat): seq<nat>
    requires |l| > 0 && AllIn(v, l)
    decreases |v|
  {
    if v == [] then RunDigits(z) + [eob]
    else if v[0] == l[0] then Encode(v[1..], l, z + 1, eob)
    else
      var k := IndexOf(l, v[0]);
      AllInMoves(v, l, k);
      RunDigits(z) + ([k + 1] + Encode(v[1..], ToFront(l, k), 0, eob))
  }

  // ---------------------------------------------------------------- what the decoder makes of symbols

  datatype Run = BadRun | Run(count: nat, next: nat)

  /** A run of RUNA/RUNB symbols from place `i` on: how many bytes it adds, and where it ends. */
  ghost function ReadRun(syms: seq<nat>, i: nat, es: nat, n: nat): (r: Run)
    ensures r.Run? ==> i <= r.next < |syms| && r.count >= es && syms[r.next] >= 2
    decreases |syms| - i
  {
    if i >= |syms| then BadRun
    else if syms[i] >= 2 then Run(es, i)
    else if n >= 0x200000 then BadRun
    else ReadRun(syms, i + 1, es + (syms[i] + 1) * n, 2 * n)
  }

  /** The bytes that the symbols from place `i` on stand for; none for a stream the decoder rejects. */
  ghost function Decode(syms: seq<nat>, i: nat, l: seq<Byte>, room: nat, eob: nat): (r: Option<seq<Byte>>)
    requires |l| > 0
    ensures r.Some? ==> |r.value| <= room
    decreases |syms| - i
  {
    if i >= |syms| then None
    else if syms[i] == eob then Some([])
    else if syms[i] < 2 then
      var run := ReadRun(syms, i, 0, 1);
      if run.BadRun? || run.count > room then None
      else
        match Decode(syms, run.next, l, room - run.count, eob)
        case None => None
        case Some(v) => Some(Copies(l[0], run.count) + v)
    else if syms[i] - 1 >= |l| || room == 0 then None
    else
      match Decode(syms, i + 1, ToFront(l, syms[i] - 1), room - 1, eob)
      case None => None
      case Some(v) => Some([l[syms[i] - 1]] + v)
  }

  // ---------------------------------------------------------------- decoding inverts encoding

  /** The digits of z, read back, add z at the current weight. */
  lemma {:induction false} ReadRunDigits(pre: seq<nat>, z: nat, post: seq<nat>, es: nat, n: nat)
    requires post != [] && post[0] >= 2 && n >= 1
    requires z > 0 ==> n * z <= 900000
    ensures ReadRun(pre + RunDigits(z) + post, |pre|, es, n) == Run(es + n * z, |pre| + |RunDigits(z)|)
    decreases z
  {
    var all := pre + RunDigits(z) + post;
    if z == 0 {
      assert all[|pre|] == post[0];
    } else {
      var d, h := (z - 1) % 2, (z - 1) / 2;
      assert all[|pre|] == d;
      assert n <= n * z by { Grows(n, z); }
      assert pre + [d] + RunDigits(h) + post == all;
      assert n * z == (d + 1) * n + (2 * n) * h by { Weigh(n, z, d, h); }
      ReadRunDigits(pre + [d], h, post, es + (d + 1) * n, 2 * n);
    }
  }

  lemma Grows(n: nat, z: nat)
    requires z >= 1
    ensures n <= n * z
  {
  }

  lemma Weigh(n: nat, z: nat, d: nat, h: nat)
    requires z == 2 * h + d + 1
    ensures n * z == (d + 1) * n + (2 * n) * h
  {
    assert n * z == n * (2 * h) + n * (d + 1);
  }

  /** Moving to the front acts on a longer list as on the prefix the symbol lies in. */
  lemma PrefixMoves(l: seq<Byte>, big: seq<Byte>, k: nat)
    requires l <= big && k < |l|
    ensures ToFront(l, k) <= ToFront(big, k)
  {
    assert big[..k] == l[..k];
    assert big[k + 1..][..|l| - k - 1] == l[k + 1..];
    assert ToFront(big, k)[..|l|] == ToFront(l, k);
  }

  /** What follows a pending run, decoded after it. */
  lemma DecodeAfterRun(pre: seq<nat>, z: nat, rest: seq<nat>, big: seq<Byte>, room: nat, eob: nat)
    requires |big| > 0 && rest != [] && rest[0] >= 2 && eob >= 2 && z <= 900000 && z <= room
    requires Decode(pre + RunDigits(z) + rest, |pre| + |RunDigits(z)|, big, room - z, eob).Some?
    ensures Decode(pre + RunDigits(z) + rest, |pre|, big, room, eob)
         == Some(Copies(big[0], z) + Decode(pre + RunDigits(z) + rest, |pre| + |RunDigits(z)|, big, room - z, eob).value)
  {
    var all := pre + RunDigits(z) + rest;
    if z > 0 {
      assert all[|pre|] == (z - 1) % 2;
      ReadRunDigits(pre, z, rest, 0, 1);
    } else {
      var t := Decode(all, |pre|, big, room, eob).value;
      assert Copies(big[0], 0) + t == t;
    }
  }

  /**
   * Round trip: after any symbols already read, the decoder turns the encoding of `v` back into the
   * pending run followed by `v`, on its own longer list, as long as the block has room for them.
   */
  lemma {:induction false} DecodeEncode(pre: seq<nat>, v: seq<Byte>, l: seq<Byte>, big: seq<Byte>, z: nat, room: nat, eob: nat)
    requires |l| > 0 && AllIn(v, l) && l <= big && eob == |l| + 1
    requires z + |v| <= room <= 900000
    ensures Decode(pre + Encode(v, l, z, eob), |pre|, big, room, eob) == Some(Copies(l[0], z) + v)
    decreases |v|
  {
    var digits := RunDigits(z);
    if v == [] {
      var all := pre + digits + [eob];
      assert pre + Encode(v, l, z, eob) == all;
      assert Decode(all, |pre| + |digits|, big, room - z, eob) == Some([]);
      DecodeAfterRun(pre, z, [eob], big, room, eob);
      assert Copies(l[0], z) + [] == Copies(l[0], z);
    } else if v[0] == l[0] {
      DecodeEncode(pre, v[1..], l, big, z + 1, room, eob);
      assert Copies(l[0], z + 1) + v[1..] == Copies(l[0], z) + v;
    } else {
      DecodeRanked(pre, v, l, big, z, room, eob);
    }
  }

  lemma DecodeSymbol(all: seq<nat>, i: nat, big: seq<Byte>, room: nat, eob: nat, w: seq<Byte>)
    requires i < |all| && 2 <= all[i] <= |big| && all[i] != eob && room >= 1
    requires Decode(all, i + 1, ToFront(big, all[i] - 1), room - 1, eob) == Some(w)
    ensures Decode(all, i, big, room, eob) == Some([big[all[i] - 1]] + w)
  {
  }

  lemma EncodeRanked(v: seq<Byte>, l: seq<Byte>, z: nat, eob: nat, k: nat)
    requires |l| > 0 && AllIn(v, l) && v != [] && v[0] != l[0] && k == IndexOf(l, v[0])
    ensures AllIn(v[1..], ToFront(l, k))
    ensures Encode(v, l, z, eob) == RunDigits(z) + ([k + 1] + Encode(v[1..], ToFront(l, k), 0, eob))
  {
    hide RunDigits, ToFront;
    AllInMoves(v, l, k);
    assert AllIn(v[1..], ToFront(l, k)) by { RestIn(v, ToFront(l, k)); }
  }

  lemma RestIn(v: seq<Byte>, l: seq<Byte>)
    requires AllIn(v, l) && v != []
    ensures AllIn(v[1..], l)
  {
  }

  lemma {:induction false} DecodeRanked(pre: seq<nat>, v: seq<Byte>, l: seq<Byte>, big: seq<Byte>, z: nat, room: nat, eob: nat)
    requires |l| > 0 && AllIn(v, l) && l <= big && eob == |l| + 1
    requires z + |v| <= room <= 900000 && v != [] && v[0] != l[0]
    ensures Decode(pre + Encode(v, l, z, eob), |pre|, big, room, eob) == Some(Copies(l[0], z) + v)
    decreases |v|, 0
  {
    hide Encode, Decode, RunDigits;
    var digits := RunDigits(z);
    var k := IndexOf(l, v[0]);
    EncodeRanked(v, l, z, eob, k);
    var tail := Encode(v[1..], ToFront(l, k), 0, eob);
    var rest := [k + 1] + tail;
    var all := pre + digits + rest;
    var pre2 := pre + digits + [k + 1];
    assert pre + Encode(v, l, z, eob) == all == pre2 + tail;
    PrefixMoves(l, big, k);
    DecodeEncode(pre2, v[1..], ToFront(l, k), ToFront(big, k), 0, room - z - 1, eob);
    assert Copies(ToFront(l, k)[0], 0) + v[1..] == v[1..];
    assert all[|pre2| - 1] == k + 1 && big[k] == v[0] && [v[0]] + v[1..] == v;
    DecodeSymbol(all, |pre2| - 1, big, room - z, eob, v[1..]);
    DecodeAfterRun(pre, z, rest, big, room, eob);
  }
}
