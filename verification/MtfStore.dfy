/**
 * The decoder's two-level move-to-front store: sixteen chunks of sixteen bytes that creep down a
 * 4096-byte array, so that a far move shifts one byte per chunk, and are packed at the top again when
 * the lowest chunk reaches the bottom. The store is proved to be a plain move-to-front list.
 */
module MtfStore {
  import opened Bytes
  import opened MoveToFront
  import opened MtfEncoder

  const MTFA_SIZE: nat := 4096
  const MTFL_SIZE: nat := 16

  /** Chunks in order, apart, inside the array. */
  ghost predicate Ordered(base: seq<nat>) {
    && |base| == 16
    && (forall i :: 0 <= i < 15 ==> base[i] + 16 <= base[i + 1])
    && base[15] + 16 <= MTFA_SIZE
  }

  lemma {:induction false} OrderedFar(base: seq<nat>, i: nat, j: nat)
    requires Ordered(base) && i <= j < 16
    ensures base[i] + 16 * (j - i) <= base[j] <= 3840 + 16 * j
    decreases 15 - i, 15 - j
  {
    if i < j {
      OrderedFar(base, i + 1, j);
    } else if j < 15 {
      OrderedFar(base, j + 1, j + 1);
    }
  }

  /** The list the store stands for. */
  ghost function ListOf(a: seq<Byte>, base: seq<nat>): (l: seq<Byte>)
    requires |a| == MTFA_SIZE && Ordered(base)
    ensures |l| == 256
  {
    seq(256, i requires 0 <= i < 256 => Entry(a, base, i))
  }

  ghost function Entry(a: seq<Byte>, base: seq<nat>, i: nat): Byte
    requires |a| == MTFA_SIZE && Ordered(base) && i < 256
  {
    OrderedFar(base, i / 16, i / 16);
    a[base[i / 16] + i % 16]
  }

  lemma ListAt(a: seq<Byte>, base: seq<nat>, u: nat, r: nat)
    requires |a| == MTFA_SIZE && Ordered(base) && u < 16 && r < 16
    ensures base[u] + r < MTFA_SIZE && ListOf(a, base)[16 * u + r] == a[base[u] + r]
  {
    OrderedFar(base, u, u);
    assert (16 * u + r) / 16 == u && (16 * u + r) % 16 == r;
  }

  /** Places lo + 1 .. hi hold what stood one place below; the others are as they were. */
  ghost predicate Slid(a0: seq<Byte>, a: seq<Byte>, lo: int, hi: int) {
    && |a| == |a0|
    && (forall x :: 0 < x < |a| && lo < x <= hi ==> a[x] == a0[x - 1])
    && (forall x :: 0 <= x < |a| && !(lo < x <= hi) ==> a[x] == a0[x])
  }

  lemma SlidStep(a0: seq<Byte>, a: seq<Byte>, lo: int, hi: int)
    requires Slid(a0, a, lo, hi) && 0 < lo <= hi < |a|
    ensures Slid(a0, a[lo := a[lo - 1]], lo - 1, hi)
  {
  }

  /** Moves the bytes of [lo, hi) up one place, four at a time while more than three are left. */
  method SlideFast(a: array<Byte>, lo: nat, hi: nat)
    requires lo <= hi < a.Length
    modifies a
    ensures Slid(old(a[..]), a[..], lo, hi)
  {
    ghost var a0 := a[..];
    var z := hi;
    assert Slid(a0, a[..], z, hi);
    hide Slid;
    while z - lo > 3
      invariant lo <= z <= hi && Slid(a0, a[..], z, hi)
    {
      SlideOne(a, z, a0, hi);
      SlideOne(a, z - 1, a0, hi);
      SlideOne(a, z - 2, a0, hi);
      SlideOne(a, z - 3, a0, hi);
      z := z - 4;
    }
    while z > lo
      invariant lo <= z <= hi && Slid(a0, a[..], z, hi)
    {
      SlideOne(a, z, a0, hi);
      z := z - 1;
    }
  }

  method SlideOne(a: array<Byte>, z: nat, ghost a0: seq<Byte>, ghost hi: nat)
    requires 0 < z <= hi < a.Length && Slid(a0, a[..], z, hi)
    modifies a
    ensures Slid(a0, a[..], z - 1, hi)
  {
    SlidStep(a0, a[..], z, hi);
    a[z] := a[z - 1];
  }

  /** A move inside the first chunk. */
  lemma NearMoved(a0: seq<Byte>, a: seq<Byte>, base: seq<nat>, nn: nat)
    requires |a0| == MTFA_SIZE && Ordered(base) && nn < 16
    requires base[0] + nn < MTFA_SIZE && Slid(a0, a, base[0], base[0] + nn)
    ensures ListOf(a[base[0] := a0[base[0] + nn]], base) == ToFront(ListOf(a0, base), nn)
  {
    var l := ListOf(a0, base);
    var a2 := a[base[0] := a0[base[0] + nn]];
    hide ListOf, ToFront, Ordered;
    forall i | 0 <= i < 256
      ensures ListOf(a2, base)[i] == ToFront(l, nn)[i]
    {
      NearMovedAt(a0, a, base, nn, i);
    }
  }

  lemma NearMovedAt(a0: seq<Byte>, a: seq<Byte>, base: seq<nat>, nn: nat, i: nat)
    requires |a0| == MTFA_SIZE && Ordered(base) && nn < 16 && i < 256
    requires base[0] + nn < MTFA_SIZE && Slid(a0, a, base[0], base[0] + nn)
    ensures ListOf(a[base[0] := a0[base[0] + nn]], base)[i] == ToFront(ListOf(a0, base), nn)[i]
  {
    hide ListOf;
    var a2, u, r := a[base[0] := a0[base[0] + nn]], i / 16, i % 16;
    ListAt(a2, base, u, r);
    ListAt(a0, base, u, r);
    ListAt(a0, base, 0, nn);
    if u > 0 { OrderedFar(base, 0, u); }
    if 0 < i <= nn { ListAt(a0, base, 0, i - 1); }
  }

  /** Chunks in order and apart while chunk t is one byte short. */
  ghost predicate ShortOrdered(base: seq<nat>, t: nat) {
    && |base| == 16 && t < 16
    && (forall i :: 0 <= i < 15 ==> base[i] + (if i == t then 15 else 16) <= base[i + 1])
    && base[15] + (if t == 15 then 15 else 16) <= MTFA_SIZE
  }

  lemma {:induction false} ShortFar(base: seq<nat>, t: nat, i: nat, j: nat)
    requires ShortOrdered(base, t) && i <= j < 16
    ensures i < j ==> base[i] + (if i == t then 15 else 16) <= base[j]
    ensures base[j] + (if j == t then 15 else 16) <= MTFA_SIZE
    decreases 15 - i, 15 - j
  {
    if i < j {
      ShortFar(base, t, i + 1, j);
    } else if j < 15 {
      ShortFar(base, t, j + 1, j + 1);
    }
  }

  /** The chunk and the place in it of entry i, when chunk t is one byte short. */
  function ShortPlace(t: nat, i: nat): (p: (nat, nat))
    requires t < 16 && i < 255
    ensures p.0 < 16 && p.1 < 16 && (p.0 == t ==> p.1 < 15)
  {
    var j := if i < 16 * t + 15 then i else i + 1;
    (j / 16, j % 16)
  }

  ghost function ShortEntry(a: seq<Byte>, base: seq<nat>, t: nat, i: nat): Byte
    requires |a| == MTFA_SIZE && ShortOrdered(base, t) && i < 255
  {
    var p := ShortPlace(t, i);
    ShortFar(base, t, p.0, p.0);
    a[base[p.0] + p.1]
  }

  /** The 255 bytes left in the store while chunk t is short. */
  ghost predicate ShortIs(a: seq<Byte>, base: seq<nat>, t: nat, rest: seq<Byte>) {
    && |a| == MTFA_SIZE && ShortOrdered(base, t) && |rest| == 255
    && forall i :: 0 <= i < 255 ==> ShortEntry(a, base, t, i) == rest[i]
  }

  /** Handing the last byte of chunk t - 1 up to chunk t moves the short chunk down and keeps the bytes. */
  lemma ShortStep(a: seq<Byte>, base: seq<nat>, t: nat, rest: seq<Byte>)
    requires ShortIs(a, base, t, rest) && 0 < t
    ensures 1 <= base[t] <= MTFA_SIZE && base[t - 1] + 15 < MTFA_SIZE
    ensures ShortIs(a[base[t] - 1 := a[base[t - 1] + 15]], base[t := base[t] - 1], t - 1, rest)
    ensures t > 1 ==> base[0] == base[t := base[t] - 1][0]
  {
    ShortFar(base, t, t - 1, t);
    ShortFar(base, t, t, t);
    var a2, base2 := a[base[t] - 1 := a[base[t - 1] + 15]], base[t := base[t] - 1];
    assert ShortOrdered(base2, t - 1);
    forall i | 0 <= i < 255
      ensures ShortEntry(a2, base2, t - 1, i) == rest[i]
    {
      ShortEntryKept(a, base, t, i);
    }
  }

  lemma ShortEntryKept(a: seq<Byte>, base: seq<nat>, t: nat, i: nat)
    requires |a| == MTFA_SIZE && ShortOrdered(base, t) && 0 < t && i < 255
    requires 1 <= base[t] <= MTFA_SIZE && base[t - 1] + 15 < MTFA_SIZE
    requires ShortOrdered(base[t := base[t] - 1], t - 1)
    ensures ShortEntry(a[base[t] - 1 := a[base[t - 1] + 15]], base[t := base[t] - 1], t - 1, i)
         == ShortEntry(a, base, t, i)
  {
    var p, q := ShortPlace(t, i), ShortPlace(t - 1, i);
    ShortFar(base, t, p.0, p.0);
    ShortFar(base, t, t - 1, t);
    if q.0 < t { ShortFar(base, t, q.0, t - 1); } else if q.0 > t { ShortFar(base, t, t, q.0); }
    if i == 16 * t - 1 {
      assert p == (t - 1, 15) && q == (t, 0);
    } else if 16 * t <= i < 16 * t + 15 {
      assert p == (t, i - 16 * t) && q == (t, i - 16 * t + 1);
    } else {
      assert p == q;
    }
  }

  /** The list without entry k. */
  function Without(l: seq<Byte>, k: nat): (r: seq<Byte>)
    requires k < |l|
    ensures |r| == |l| - 1
  {
    l[..k] + l[k + 1..]
  }

  lemma ShortStartEntry(a0: seq<Byte>, a: seq<Byte>, base: seq<nat>, lno: nat, off: nat, i: nat)
    requires |a0| == MTFA_SIZE && |base| == 16 && Ordered(base) && lno < 16 && off < 16 && i < 255
    requires Slid(a0, a, base[lno], base[lno] + off)
    requires ShortOrdered(base[lno := base[lno] + 1], lno)
    ensures ShortEntry(a, base[lno := base[lno] + 1], lno, i) == Without(ListOf(a0, base), 16 * lno + off)[i]
  {
    hide ListOf, Ordered, ShortOrdered;
    var base2, k := base[lno := base[lno] + 1], 16 * lno + off;
    var p := ShortPlace(lno, i);
    ShortFar(base2, lno, p.0, p.0);
    if p.0 < lno { OrderedFar(base, p.0, lno); } else { OrderedFar(base, lno, p.0); }
    var j := if i < k then i else i + 1;
    assert Without(ListOf(a0, base), k)[i] == ListOf(a0, base)[j];
    ListAt(a0, base, j / 16, j % 16);
  }

  /** Sliding the front of chunk lno over the moved byte leaves the other 255 bytes, with that chunk short. */
  lemma ShortStart(a0: seq<Byte>, a: seq<Byte>, base: seq<nat>, lno: nat, off: nat)
    requires |a0| == MTFA_SIZE && Ordered(base) && lno < 16 && off < 16
    requires Slid(a0, a, base[lno], base[lno] + off)
    ensures ShortIs(a, base[lno := base[lno] + 1], lno, Without(ListOf(a0, base), 16 * lno + off))
  {
    var base2 := base[lno := base[lno] + 1];
    assert ShortOrdered(base2, lno);
    var rest := Without(ListOf(a0, base), 16 * lno + off);
    forall i | 0 <= i < 255
      ensures ShortEntry(a, base2, lno, i) == rest[i]
    {
      ShortStartEntry(a0, a, base, lno, off, i);
    }
  }

  /** Putting the moved byte in front of the short first chunk completes the list. */
  lemma ShortEnd(a: seq<Byte>, base: seq<nat>, rest: seq<Byte>, uc: Byte)
    requires ShortIs(a, base, 0, rest) && 1 <= base[0] <= MTFA_SIZE
    ensures Ordered(base[0 := base[0] - 1])
    ensures ListOf(a[base[0] - 1 := uc], base[0 := base[0] - 1]) == [uc] + rest
  {
    var a2, base2 := a[base[0] - 1 := uc], base[0 := base[0] - 1];
    assert Ordered(base2);
    forall i | 0 <= i < 256
      ensures ListOf(a2, base2)[i] == ([uc] + rest)[i]
    {
      ListAt(a2, base2, i / 16, i % 16);
      if i > 0 {
        var p := ShortPlace(0, i - 1);
        ShortFar(base, 0, p.0, p.0);
        ShortFar(base, 0, 0, p.0);
        assert ShortEntry(a, base, 0, i - 1) == rest[i - 1];
      }
    }
  }

  // ---------------------------------------------------------------- packing the chunks at the top

  /** While packing from the top: entries from place `e` on are at the top, the rest where they were. */
  ghost predicate Packing(l: seq<Byte>, a0: seq<Byte>, base0: seq<nat>, a: seq<Byte>, e: nat) {
    && |a0| == |a| == MTFA_SIZE && Ordered(base0) && e <= 256 && l == ListOf(a0, base0)
    && (forall x :: 0 <= x < 3840 + e ==> a[x] == a0[x])
    && (forall i :: e <= i < 256 ==> a[3840 + i] == l[i])
  }

  lemma PackStep(l: seq<Byte>, a0: seq<Byte>, base0: seq<nat>, a: seq<Byte>, u: nat, r: nat)
    requires u < 16 && r < 16 && Packing(l, a0, base0, a, 16 * u + r + 1)
    ensures base0[u] + r < MTFA_SIZE
    ensures Packing(l, a0, base0, a[3840 + 16 * u + r := a[base0[u] + r]], 16 * u + r)
  {
    OrderedFar(base0, u, u);
    ListAt(a0, base0, u, r);
  }

  lemma PackDone(l: seq<Byte>, a0: seq<Byte>, base0: seq<nat>, a: seq<Byte>, base: seq<nat>)
    requires Packing(l, a0, base0, a, 0) && |base| == 16 && forall u :: 0 <= u < 16 ==> base[u] == 3840 + 16 * u
    ensures Ordered(base) && ListOf(a, base) == l
  {
    forall i | 0 <= i < 256
      ensures ListOf(a, base)[i] == l[i]
    {
      ListAt(a, base, i / 16, i % 16);
    }
  }

  // ---------------------------------------------------------------- the store

  class Store {
    const mtfa: array<Byte>
    const mtfbase: array<nat>

    ghost predicate Valid()
      reads this, mtfa, mtfbase
    {
      mtfa.Length == MTFA_SIZE && mtfbase.Length == 16 && Ordered(mtfbase[..]) && mtfbase[0] >= 1
    }

    ghost function List(): (l: seq<Byte>)
      requires Valid()
      reads this, mtfa, mtfbase
      ensures |l| == 256
    {
      ListOf(mtfa[..], mtfbase[..])
    }

    constructor ()
      ensures Valid() && fresh(mtfa) && fresh(mtfbase) && List() == Identity(256)
    {
      mtfa := new Byte[MTFA_SIZE];
      mtfbase := new nat[16];
      new;
      var kk: int := MTFA_SIZE - 1;
      for ii := 16 downto 0
        invariant kk == 3840 + 16 * ii - 1
        invariant forall u :: ii <= u < 16 ==> mtfbase[u] == 3840 + 16 * u
        invariant forall x :: kk < x < MTFA_SIZE ==> mtfa[x] == x - 3840
      {
        for jj := 16 downto 0
          invariant kk == 3840 + 16 * ii + jj - 1
          invariant forall u :: ii < u < 16 ==> mtfbase[u] == 3840 + 16 * u
          invariant forall x :: kk < x < MTFA_SIZE ==> mtfa[x] == x - 3840
        {
          mtfa[kk] := ii * MTFL_SIZE + jj;
          kk := kk - 1;
        }
        mtfbase[ii] := kk + 1;
      }
      assert Ordered(mtfbase[..]);
      forall i | 0 <= i < 256
        ensures ListOf(mtfa[..], mtfbase[..])[i] == Identity(256)[i]
      {
        ListAt(mtfa[..], mtfbase[..], i / 16, i % 16);
      }
    }

    method First() returns (uc: Byte)
      requires Valid()
      ensures uc == List()[0]
    {
      OrderedFar(mtfbase[..], 0, 0);
      ListAt(mtfa[..], mtfbase[..], 0, 0);
      uc := mtfa[mtfbase[0]];
    }

    /** Takes entry nn and moves it to the front. */
    method Take(nn: nat) returns (uc: Byte)
      requires Valid() && nn < 256
      modifies mtfa, mtfbase
      ensures Valid() && uc == old(List())[nn] && List() == ToFront(old(List()), nn)
    {
      hide Ordered, ListOf;
      if nn < MTFL_SIZE {
        uc := TakeNear(nn);
      } else {
        uc := TakeFar(nn / MTFL_SIZE, nn % MTFL_SIZE);
        if mtfbase[0] == 0 {
          Pack();
        }
      }
    }

    method TakeNear(nn: nat) returns (uc: Byte)
      requires Valid() && nn < 16
      modifies mtfa
      ensures Valid() && uc == old(List())[nn] && List() == ToFront(old(List()), nn)
    {
      ghost var a0, base := mtfa[..], mtfbase[..];
      OrderedFar(base, 0, 0);
      ListAt(a0, base, 0, nn);
      hide Ordered, ListOf, Slid;
      var pp := mtfbase[0];
      uc := mtfa[pp + nn];
      SlideFast(mtfa, pp, pp + nn);
      NearMoved(a0, mtfa[..], base, nn);
      mtfa[pp] := uc;
    }

    method TakeFar(lno0: nat, off: nat) returns (uc: Byte)
      requires Valid() && 0 < lno0 < 16 && off < 16
      modifies mtfa, mtfbase
      ensures mtfa.Length == MTFA_SIZE && mtfbase.Length == 16 && Ordered(mtfbase[..])
      ensures uc == old(List())[16 * lno0 + off]
      ensures ListOf(mtfa[..], mtfbase[..]) == ToFront(old(List()), 16 * lno0 + off)
    {
      hide Ordered, ListOf, Slid, ShortIs, ShortOrdered;
      ghost var a0, base0, l := mtfa[..], mtfbase[..], List();
      OrderedFar(base0, lno0, lno0);
      ListAt(a0, base0, lno0, off);
      ghost var rest := Without(l, 16 * lno0 + off);
      var pp := mtfbase[lno0] + off;
      uc := mtfa[pp];
      SlideFast(mtfa, mtfbase[lno0], pp);
      ShortStart(a0, mtfa[..], base0, lno0, off);
      mtfbase[lno0] := mtfbase[lno0] + 1;
      HandUp(lno0, rest);
      ShortBound(mtfa[..], mtfbase[..], rest);
      ShortEnd(mtfa[..], mtfbase[..], rest, uc);
      mtfbase[0] := mtfbase[0] - 1;
      mtfa[mtfbase[0]] := uc;
      assert [uc] + rest == ToFront(l, 16 * lno0 + off);
    }

    /** One byte handed up from every chunk below lno0 to the next. */
    method HandUp(lno0: nat, ghost rest: seq<Byte>)
      requires mtfa.Length == MTFA_SIZE && mtfbase.Length == 16 && 0 < lno0 < 16
      requires ShortIs(mtfa[..], mtfbase[..], lno0, rest)
      modifies mtfa, mtfbase
      ensures ShortIs(mtfa[..], mtfbase[..], 0, rest) && mtfbase[0] == old(mtfbase[0])
    {
      hide ShortIs, ShortOrdered;
      var lno := lno0;
      while lno > 0
        invariant lno <= lno0 && ShortIs(mtfa[..], mtfbase[..], lno, rest) && mtfbase[0] == old(mtfbase[0])
      {
        ShortStep(mtfa[..], mtfbase[..], lno, rest);
        mtfbase[lno] := mtfbase[lno] - 1;
        mtfa[mtfbase[lno]] := mtfa[mtfbase[lno - 1] + MTFL_SIZE - 1];
        lno := lno - 1;
      }
    }

    /** Packs the chunks together at the top of the array. */
    method Pack()
      requires mtfa.Length == MTFA_SIZE && mtfbase.Length == 16 && Ordered(mtfbase[..])
      modifies mtfa, mtfbase
      ensures Valid() && List() == ListOf(old(mtfa[..]), old(mtfbase[..]))
    {
      ghost var a0, base0 := mtfa[..], mtfbase[..];
      ghost var l := ListOf(a0, base0);
      hide Packing;
      PackStart(l, a0, base0);
      var kk: int := MTFA_SIZE - 1;
      for ii := 16 downto 0
        invariant kk == 3840 + 16 * ii - 1 && Packing(l, a0, base0, mtfa[..], 16 * ii)
        invariant forall u :: ii <= u < 16 ==> mtfbase[u] == 3840 + 16 * u
        invariant forall u :: 0 <= u < ii ==> mtfbase[u] == base0[u]
      {
        for jj := 16 downto 0
          invariant kk == 3840 + 16 * ii + jj - 1 && Packing(l, a0, base0, mtfa[..], 16 * ii + jj)
          invariant forall u :: ii < u < 16 ==> mtfbase[u] == 3840 + 16 * u
          invariant forall u :: 0 <= u <= ii ==> mtfbase[u] == base0[u]
        {
          PackStep(l, a0, base0, mtfa[..], ii, jj);
          mtfa[kk] := mtfa[mtfbase[ii] + jj];
          kk := kk - 1;
        }
        mtfbase[ii] := kk + 1;
      }
      PackDone(l, a0, base0, mtfa[..], mtfbase[..]);
    }
  }

  lemma PackStart(l: seq<Byte>, a0: seq<Byte>, base0: seq<nat>)
    requires |a0| == MTFA_SIZE && Ordered(base0) && l == ListOf(a0, base0)
    ensures Packing(l, a0, base0, a0, 256)
  {
  }

  lemma ShortBound(a: seq<Byte>, base: seq<nat>, rest: seq<Byte>)
    requires ShortIs(a, base, 0, rest)
    ensures |base| == 16 && base[0] <= MTFA_SIZE && |a| == MTFA_SIZE && |rest| == 255
  {
    ShortFar(base, 0, 0, 0);
  }
}
