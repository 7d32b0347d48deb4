/** A bzip2 block as bits: which bytes are in use, which tables are used where, the tables' code lengths, and the symbols. */
module BlockStream {
  import opened Bytes
  import opened Bits
  import opened BitStream
  import opened MoveToFront
  import opened MtfEncoder
  import opened HuffmanCodes
  import opened HuffmanCoding
  import HuffmanLengths
  import opened BlockCoding

  /** What the reader leaves when it has taken x off its bits. */
  lemma Rest(x: seq<bool>, after: seq<bool>, n: nat)
    requires n <= |x|
    ensures (x + after)[..n] == x[..n] && (x + after)[n..] == x[n..] + after
  {
  }

  /** A number of n bits is read back. */
  method GetNumber(r: BitReader, n: nat, ghost v: nat, ghost after: seq<bool>) returns (ok: bool, x: nat)
    requires r.Valid() && n <= 24 && v < Pow2(n) && r.Bits() == BitsOf(v, n) + after
    modifies r`next, r`bsBuff, r`bsLive
    ensures ok && x == v && r.Valid() && r.Bits() == after
  {
    hide BitReader.Valid, BitReader.Bits, BitsOf, ValueOf, Pow2;
    Rest(BitsOf(v, n), after, n);
    ValueOfBits(v, n);
    assert BitsOf(v, n)[..n] == BitsOf(v, n) && BitsOf(v, n)[n..] + after == after;
    ok, x := r.Get(n);
  }

  method GetBit(r: BitReader, ghost b: bool, ghost after: seq<bool>) returns (ok: bool, x: bool)
    requires r.Valid() && r.Bits() == [b] + after
    modifies r`next, r`bsBuff, r`bsLive
    ensures ok && x == b && r.Valid() && r.Bits() == after
  {
    BitIs(b);
    var uc;
    ok, uc := GetNumber(r, 1, Bit(b), after);
    x := uc == 1;
  }

  lemma BitIs(b: bool)
    ensures Bit(b) < Pow2(1) && BitsOf(Bit(b), 1) == [b]
  {
    assert BitsOf(Bit(b), 1) == BitsOf(0, 0) + [b];
  }

  method PutBit(w: BitWriter, b: bool)
    requires w.Valid()
    modifies w
    ensures w.Valid() && w.Bits() == old(w.Bits()) + [b]
  {
    BitIs(b);
    hide BitWriter.Valid, BitWriter.Bits, BitsOf, Pow2;
    w.W(1, if b then 1 else 0);
  }

  // ---------------------------------------------------------------- the bytes in use

  /** Whether any of sixteen neighbours is in use. */
  ghost function RowUsed(inUse: seq<bool>, i: nat): bool
    requires |inUse| == 256 && i < 16
  {
    exists j :: 16 * i <= j < 16 * i + 16 && inUse[j]
  }

  ghost function RowBits(inUse: seq<bool>, i: nat): seq<bool>
    requires |inUse| == 256 && i < 16
  {
    if RowUsed(inUse, i) then inUse[16 * i..16 * i + 16] else []
  }

  ghost function Rows(inUse: seq<bool>): (r: seq<bool>)
    requires |inUse| == 256
    ensures |r| == 16 && forall i :: 0 <= i < 16 ==> r[i] == RowUsed(inUse, i)
  {
    seq(16, i requires 0 <= i < 16 => RowUsed(inUse, i))
  }

  /** The rows from the i-th on. */
  ghost function RowsFrom(inUse: seq<bool>, i: nat): seq<bool>
    requires |inUse| == 256 && i <= 16
    decreases 16 - i
  {
    if i == 16 then [] else RowBits(inUse, i) + RowsFrom(inUse, i + 1)
  }

  /** Bits are written one by one. */
  method PutAll(w: BitWriter, s: seq<bool>)
    requires w.Valid()
    modifies w
    ensures w.Valid() && w.Bits() == old(w.Bits()) + s
  {
    hide BitWriter.Valid, BitWriter.Bits;
    ghost var bits := w.Bits();
    for i := 0 to |s|
      invariant w.Valid() && w.Bits() == bits + s[..i]
    {
      PutBit(w, s[i]);
      assert bits + s[..i] + [s[i]] == bits + s[..i + 1];
    }
    assert s[..|s|] == s;
  }

  /** Bits are read one by one. */
  method GetAll(r: BitReader, n: nat, ghost s: seq<bool>, ghost after: seq<bool>) returns (ok: bool, x: seq<bool>)
    requires r.Valid() && |s| == n && r.Bits() == s + after
    modifies r`next, r`bsBuff, r`bsLive
    ensures ok && x == s && r.Valid() && r.Bits() == after
  {
    hide BitReader.Valid, BitReader.Bits;
    x := [];
    assert s[0..] == s;
    for i := 0 to n
      invariant r.Valid() && |x| == i && x == s[..i] && r.Bits() == s[i..] + after
    {
      assert s[i..] + after == [s[i]] + (s[i + 1..] + after);
      var b;
      ok, b := GetBit(r, s[i], s[i + 1..] + after);
      x := x + [b];
    }
    ok := true;
    assert s[n..] + after == after;
  }

  /** Which rows of sixteen have a byte in use. */
  method FindRows(inUse: seq<bool>) returns (inUse16: seq<bool>)
    requires |inUse| == 256
    ensures inUse16 == Rows(inUse)
  {
    inUse16 := [];
    for i := 0 to 16
      invariant |inUse16| == i && forall k :: 0 <= k < i ==> inUse16[k] == RowUsed(inUse, k)
    {
      var used := false;
      for j := 0 to 16
        invariant used == exists k :: 16 * i <= k < 16 * i + j && inUse[k]
      {
        if inUse[i * 16 + j] { used := true; }
      }
      inUse16 := inUse16 + [used];
    }
  }

  method WriteMap(w: BitWriter, inUse: seq<bool>)
    requires w.Valid() && |inUse| == 256
    modifies w
    ensures w.Valid() && w.Bits() == old(w.Bits()) + (Rows(inUse) + RowsFrom(inUse, 0))
  {
    hide BitWriter.Valid, BitWriter.Bits, RowsFrom, RowUsed, Rows;
    ghost var bits := w.Bits();
    var inUse16 := FindRows(inUse);
    PutAll(w, inUse16);
    assert bits + (Rows(inUse) + RowsFrom(inUse, 0)) == bits + Rows(inUse) + RowsFrom(inUse, 0);
    for i := 0 to 16
      invariant w.Valid() && w.Bits() + RowsFrom(inUse, i) == bits + (Rows(inUse) + RowsFrom(inUse, 0))
    {
      RowAfter(inUse, i, w.Bits());
      if inUse16[i] {
        PutAll(w, inUse[16 * i..16 * i + 16]);
      }
    }
    NoRows(inUse, w.Bits());
  }

  lemma RowAfter(inUse: seq<bool>, i: nat, bits: seq<bool>)
    requires |inUse| == 256 && i < 16
    ensures RowUsed(inUse, i) ==> bits + RowsFrom(inUse, i) == bits + inUse[16 * i..16 * i + 16] + RowsFrom(inUse, i + 1)
    ensures !RowUsed(inUse, i) ==> RowsFrom(inUse, i) == RowsFrom(inUse, i + 1)
  {
    assert bits + (RowBits(inUse, i) + RowsFrom(inUse, i + 1)) == bits + RowBits(inUse, i) + RowsFrom(inUse, i + 1);
    assert [] + RowsFrom(inUse, i + 1) == RowsFrom(inUse, i + 1);
  }

  method ReadMap(r: BitReader, ghost inUse: seq<bool>, ghost after: seq<bool>) returns (ok: bool, used: seq<bool>)
    requires r.Valid() && |inUse| == 256 && r.Bits() == Rows(inUse) + RowsFrom(inUse, 0) + after
    modifies r`next, r`bsBuff, r`bsLive
    ensures ok && used == inUse && r.Valid() && r.Bits() == after
  {
    hide BitReader.Valid, BitReader.Bits, RowsFrom, RowUsed, Rows;
    assert Rows(inUse) + RowsFrom(inUse, 0) + after == Rows(inUse) + (RowsFrom(inUse, 0) + after);
    var inUse16;
    ok, inUse16 := GetAll(r, 16, Rows(inUse), RowsFrom(inUse, 0) + after);
    used := [];
    for i := 0 to 16
      invariant r.Valid() && used == inUse[..16 * i] && r.Bits() == RowsFrom(inUse, i) + after
    {
      RowStep(inUse, i, after);
      if inUse16[i] {
        var row;
        ok, row := GetAll(r, 16, inUse[16 * i..16 * i + 16], RowsFrom(inUse, i + 1) + after);
        used := used + row;
      } else {
        used := used + seq(16, _ => false);
      }
    }
    ok := true;
    NoRows(inUse, after);
  }

  lemma RowStep(inUse: seq<bool>, i: nat, after: seq<bool>)
    requires |inUse| == 256 && i < 16
    ensures inUse[..16 * i] + inUse[16 * i..16 * i + 16] == inUse[..16 * (i + 1)]
    ensures RowUsed(inUse, i) ==> RowsFrom(inUse, i) + after == inUse[16 * i..16 * i + 16] + (RowsFrom(inUse, i + 1) + after)
    ensures !RowUsed(inUse, i) ==> RowsFrom(inUse, i) == RowsFrom(inUse, i + 1) && inUse[16 * i..16 * i + 16] == seq(16, _ => false)
  {
    if RowUsed(inUse, i) {
      assert inUse[16 * i..16 * i + 16] + RowsFrom(inUse, i + 1) + after == inUse[16 * i..16 * i + 16] + (RowsFrom(inUse, i + 1) + after);
    } else {
      assert [] + RowsFrom(inUse, i + 1) == RowsFrom(inUse, i + 1);
    }
  }

  lemma NoRows(inUse: seq<bool>, after: seq<bool>)
    requires |inUse| == 256
    ensures RowsFrom(inUse, 16) + after == after && after + RowsFrom(inUse, 16) == after
  {
    assert [] + after == after && after + [] == after;
  }

  // ---------------------------------------------------------------- which table is used where

  function Unary(j: nat): seq<bool> {
    if j == 0 then [false] else [true] + Unary(j - 1)
  }

  ghost predicate Listed(sel: seq<Byte>, i: nat, l: seq<Byte>) {
    forall k :: i <= k < |sel| ==> sel[k] in l
  }

  /** The ranks of the selectors from the i-th on, each moved to the front of the list. */
  ghost function Ranks(sel: seq<Byte>, i: nat, l: seq<Byte>): (ranks: seq<nat>)
    requires i <= |sel| && Listed(sel, i, l)
    ensures |ranks| == |sel| - i
    decreases |sel| - i
  {
    if i == |sel| then []
    else
      ListedOn(sel, i, l);
      [IndexOf(l, sel[i])] + Ranks(sel, i + 1, ToFront(l, IndexOf(l, sel[i])))
  }

  lemma ListedOn(sel: seq<Byte>, i: nat, l: seq<Byte>)
    requires i < |sel| && Listed(sel, i, l)
    ensures Listed(sel, i + 1, ToFront(l, IndexOf(l, sel[i])))
  {
    forall k | i + 1 <= k < |sel| ensures sel[k] in ToFront(l, IndexOf(l, sel[i])) {
      ToFrontKeeps(l, IndexOf(l, sel[i]), sel[k]);
    }
  }

  lemma RanksNext(sel: seq<Byte>, i: nat, l: seq<Byte>, ranks: seq<nat>)
    requires i < |sel| && Listed(sel, i, l)
    ensures sel[i] in l && Listed(sel, i + 1, ToFront(l, IndexOf(l, sel[i])))
    ensures Ranks(sel, i, l) == [IndexOf(l, sel[i])] + Ranks(sel, i + 1, ToFront(l, IndexOf(l, sel[i])))
    ensures ranks + Ranks(sel, i, l) == ranks + [IndexOf(l, sel[i])] + Ranks(sel, i + 1, ToFront(l, IndexOf(l, sel[i])))
  {
    ListedOn(sel, i, l);
  }

  lemma {:induction false} RanksSmall(sel: seq<Byte>, i: nat, l: seq<Byte>)
    requires i <= |sel| && Listed(sel, i, l)
    ensures forall k :: 0 <= k < |sel| - i ==> Ranks(sel, i, l)[k] < |l|
    decreases |sel| - i
  {
    if i < |sel| {
      ListedOn(sel, i, l);
      RanksSmall(sel, i + 1, ToFront(l, IndexOf(l, sel[i])));
    }
  }

  function Unaries(ranks: seq<nat>): seq<bool> {
    if ranks == [] then [] else Unary(ranks[0]) + Unaries(ranks[1..])
  }

  /** The rank of v, which moves to the front. */
  method MoveFound(pos: array<Byte>, n: nat, v: Byte) returns (j: nat)
    requires n <= pos.Length && v in pos[..n]
    modifies pos
    ensures j == IndexOf(old(pos[..n]), v) && pos[..n] == ToFront(old(pos[..n]), j)
  {
    ghost var l := pos[..n];
    ghost var k := IndexOf(l, v);
    j := 0;
    var tmp := pos[j];
    while v != tmp
      invariant 0 <= j <= k && tmp == l[j]
      invariant forall i :: 1 <= i <= j ==> pos[i] == l[i - 1]
      invariant forall i :: j < i < n ==> pos[i] == l[i]
      decreases k - j
    {
      j := j + 1;
      var tmp2 := tmp;
      tmp := pos[j];
      pos[j] := tmp2;
    }
    pos[0] := tmp;
    assert pos[..n] == ToFront(l, j);
  }

  /** The v-th of the list moves to the front. */
  method MoveRanked(pos: array<Byte>, n: nat, rank: nat) returns (tmp: Byte)
    requires rank < n <= pos.Length
    modifies pos
    ensures tmp == old(pos[rank]) && pos[..n] == ToFront(old(pos[..n]), rank)
  {
    ghost var l := pos[..n];
    var v := rank;
    tmp := pos[v];
    while v > 0
      invariant 0 <= v <= rank
      invariant forall i :: 0 <= i < v ==> pos[i] == l[i]
      invariant forall i :: v < i <= rank ==> pos[i] == l[i - 1]
      invariant forall i :: rank < i < n ==> pos[i] == l[i]
    {
      pos[v] := pos[v - 1];
      v := v - 1;
    }
    pos[0] := tmp;
    assert pos[..n] == ToFront(l, rank);
  }

  method SelectorRanks(selector: seq<Byte>, nGroups: nat) returns (ranks: seq<nat>)
    requires nGroups <= 6 && Listed(selector, 0, Identity(nGroups))
    ensures ranks == Ranks(selector, 0, Identity(nGroups))
  {
    hide Listed, Ranks;
    var pos := new Byte[6](i => if 0 <= i < 256 then i else 0);
    assert pos[..nGroups] == Identity(nGroups);
    ranks := [];
    for i := 0 to |selector|
      invariant Listed(selector, i, pos[..nGroups])
      invariant ranks + Ranks(selector, i, pos[..nGroups]) == Ranks(selector, 0, Identity(nGroups))
    {
      RanksNext(selector, i, pos[..nGroups], ranks);
      var j := MoveFound(pos, nGroups, selector[i]);
      ranks := ranks + [j];
    }
    assert ranks + [] == ranks;
  }

  method UndoRanks(ranks: seq<nat>, nGroups: nat, ghost sel: seq<Byte>) returns (selector: seq<Byte>)
    requires nGroups <= 6 && Listed(sel, 0, Identity(nGroups)) && ranks == Ranks(sel, 0, Identity(nGroups))
    ensures selector == sel
  {
    hide Listed, Ranks;
    var pos := new Byte[6](i => if 0 <= i < 256 then i else 0);
    assert pos[..nGroups] == Identity(nGroups);
    selector := [];
    assert ranks[0..] == ranks;
    for i := 0 to |ranks|
      invariant selector == sel[..i] && Listed(sel, i, pos[..nGroups])
      invariant ranks[i..] == Ranks(sel, i, pos[..nGroups])
    {
      RanksNext(sel, i, pos[..nGroups], []);
      assert ranks[i..][1..] == ranks[i + 1..] && ranks[i] == ranks[i..][0];
      var tmp := MoveRanked(pos, nGroups, ranks[i]);
      selector := selector + [tmp];
    }
  }

  method WriteRanks(w: BitWriter, ranks: seq<nat>)
    requires w.Valid()
    modifies w
    ensures w.Valid() && w.Bits() == old(w.Bits()) + Unaries(ranks)
  {
    hide BitWriter.Valid, BitWriter.Bits;
    ghost var bits := w.Bits();
    assert ranks[0..] == ranks;
    for i := 0 to |ranks|
      invariant w.Valid() && w.Bits() + Unaries(ranks[i..]) == bits + Unaries(ranks)
    {
      ghost var now, rest := w.Bits(), Unaries(ranks[i + 1..]);
      assert ranks[i..][1..] == ranks[i + 1..];
      assert now + (Unary(ranks[i]) + rest) == now + Unary(ranks[i]) + rest;
      for j := 0 to ranks[i]
        invariant w.Valid() && w.Bits() + Unary(ranks[i] - j) == now + Unary(ranks[i])
      {
        assert w.Bits() + ([true] + Unary(ranks[i] - j - 1)) == w.Bits() + [true] + Unary(ranks[i] - j - 1);
        PutBit(w, true);
      }
      PutBit(w, false);
    }
    assert ranks[|ranks|..] == [] && w.Bits() + [] == w.Bits();
  }

  method ReadRanks(r: BitReader, n: nat, nGroups: nat, ghost ranks: seq<nat>, ghost after: seq<bool>) returns (ok: bool, read: seq<nat>)
    requires r.Valid() && |ranks| == n && (forall i :: 0 <= i < n ==> ranks[i] < nGroups) && r.Bits() == Unaries(ranks) + after
    modifies r`next, r`bsBuff, r`bsLive
    ensures ok && read == ranks && r.Valid() && r.Bits() == after
  {
    hide BitReader.Valid, BitReader.Bits;
    read := [];
    assert ranks[0..] == ranks;
    for i := 0 to n
      invariant r.Valid() && |read| == i && read == ranks[..i] && r.Bits() == Unaries(ranks[i..]) + after
    {
      ghost var rest := Unaries(ranks[i + 1..]) + after;
      assert ranks[i..][1..] == ranks[i + 1..];
      assert Unary(ranks[i]) + Unaries(ranks[i + 1..]) + after == Unary(ranks[i]) + rest;
      var j := 0;
      while true
        invariant 0 <= j <= ranks[i] && r.Valid() && r.Bits() == Unary(ranks[i] - j) + rest
        decreases ranks[i] - j
      {
        var uc;
        if j < ranks[i] {
          assert Unary(ranks[i] - j) + rest == [true] + (Unary(ranks[i] - j - 1) + rest);
        }
        ok, uc := GetBit(r, j < ranks[i], if j < ranks[i] then Unary(ranks[i] - j - 1) + rest else rest);
        if !uc { break; }
        j := j + 1;
        if j >= nGroups { return false, read; }
      }
      read := read + [j];
    }
    ok := true;
    assert ranks[n..] == [] && [] + after == after;
  }

  // ---------------------------------------------------------------- the code lengths

  /** From one length to the next: 10 for one more, 11 for one less. */
  function Steps(a: nat, b: nat): seq<bool>
    decreases if a < b then b - a else a - b
  {
    if a < b then [true, false] + Steps(a + 1, b) else if a > b then [true, true] + Steps(a - 1, b) else []
  }

  /** The lengths from the i-th on, after the length curr. */
  function LenBits(len: seq<nat>, i: nat, curr: nat): seq<bool>
    requires i <= |len|
    decreases |len| - i
  {
    if i == |len| then [] else Steps(curr, len[i]) + ([false] + LenBits(len, i + 1, len[i]))
  }

  function TableBits(len: seq<nat>): seq<bool> {
    if len == [] then [] else BitsOf(len[0], 5) + LenBits(len, 0, len[0])
  }

  lemma Joins(a: seq<bool>, x: seq<bool>, y: seq<bool>)
    ensures a + (x + y) == a + x + y && (a + x) + y == a + (x + y)
  {
  }

  method WriteStep(w: BitWriter, up: bool)
    requires w.Valid()
    modifies w
    ensures w.Valid() && w.Bits() == old(w.Bits()) + [true, !up]
  {
    TwoBits();
    hide BitWriter.Valid, BitWriter.Bits, BitsOf, Pow2;
    w.W(2, if up then 2 else 3);
  }

  lemma TwoBits()
    ensures Pow2(2) == 4 && BitsOf(2, 2) == [true, false] && BitsOf(3, 2) == [true, true]
  {
    assert BitsOf(1, 1) == BitsOf(0, 0) + [true];
    assert BitsOf(2, 2) == BitsOf(1, 1) + [false] && BitsOf(3, 2) == BitsOf(1, 1) + [true];
  }

  /** The steps from one length to the next, and the bit that ends them. */
  method StepTo(w: BitWriter, curr0: nat, next: nat)
    requires w.Valid()
    modifies w
    ensures w.Valid() && w.Bits() == old(w.Bits()) + (Steps(curr0, next) + [false])
  {
    hide BitWriter.Valid, BitWriter.Bits;
    ghost var bits := w.Bits();
    var curr := curr0;
    Joins(bits, Steps(curr, next), [false]);
    while curr < next
      invariant w.Valid() && w.Bits() + Steps(curr, next) == bits + Steps(curr0, next)
    {
      Joins(w.Bits(), [true, false], Steps(curr + 1, next));
      WriteStep(w, true);
      curr := curr + 1;
    }
    while curr > next
      invariant curr >= next && w.Valid() && w.Bits() + Steps(curr, next) == bits + Steps(curr0, next)
    {
      Joins(w.Bits(), [true, true], Steps(curr - 1, next));
      WriteStep(w, false);
      curr := curr - 1;
    }
    assert w.Bits() + [] == w.Bits();
    PutBit(w, false);
  }

  method WriteLengths(w: BitWriter, len: seq<nat>)
    requires w.Valid() && LensOk(len)
    modifies w
    ensures w.Valid() && w.Bits() == old(w.Bits()) + TableBits(len)
  {
    hide BitWriter.Valid, BitWriter.Bits, BitsOf, Pow2, LenBits, Steps;
    ghost var bits := w.Bits();
    var curr := len[0];
    ThirtyTwo();
    w.W(5, curr);
    Joins(bits, BitsOf(curr, 5), LenBits(len, 0, curr));
    for i := 0 to |len|
      invariant w.Valid() && w.Bits() + LenBits(len, i, curr) == bits + TableBits(len)
    {
      LenNext(len, i, curr, w.Bits());
      StepTo(w, curr, len[i]);
      curr := len[i];
    }
    LenEnd(len, curr, w.Bits());
  }

  lemma ThirtyTwo()
    ensures Pow2(5) == 32
  {
  }

  lemma LenNext(len: seq<nat>, i: nat, curr: nat, bits: seq<bool>)
    requires i < |len|
    ensures LenBits(len, i, curr) == Steps(curr, len[i]) + ([false] + LenBits(len, i + 1, len[i]))
    ensures bits + LenBits(len, i, curr) == bits + (Steps(curr, len[i]) + [false]) + LenBits(len, i + 1, len[i])
  {
    Joins(Steps(curr, len[i]), [false], LenBits(len, i + 1, len[i]));
    Joins(bits, Steps(curr, len[i]) + [false], LenBits(len, i + 1, len[i]));
  }

  lemma LenEnd(len: seq<nat>, curr: nat, bits: seq<bool>)
    ensures bits + LenBits(len, |len|, curr) == bits && LenBits(len, |len|, curr) + bits == bits
  {
    assert bits + [] == bits && [] + bits == bits;
  }

  method ReadLengths(r: BitReader, alphaSize: nat, ghost len: seq<nat>, ghost after: seq<bool>) returns (ok: bool, read: seq<nat>)
    requires r.Valid() && LensOk(len) && |len| == alphaSize && r.Bits() == TableBits(len) + after
    modifies r`next, r`bsBuff, r`bsLive
    ensures ok && read == len && r.Valid() && r.Bits() == after
  {
    hide BitReader.Valid, BitReader.Bits, BitsOf, Pow2, LenBits, Steps;
    ThirtyTwo();
    Joins(BitsOf(len[0], 5), LenBits(len, 0, len[0]), after);
    var curr: nat;
    ok, curr := GetNumber(r, 5, len[0], LenBits(len, 0, len[0]) + after);
    read := [];
    for i := 0 to alphaSize
      invariant r.Valid() && |read| == i && read == len[..i] && r.Bits() == LenBits(len, i, curr) + after && 1 <= curr <= LONGEST
    {
      ghost var rest := LenBits(len, i + 1, len[i]) + after;
      LenNext(len, i, curr, []);
      Joins(Steps(curr, len[i]), [false] + LenBits(len, i + 1, len[i]), after);
      Joins([false], LenBits(len, i + 1, len[i]), after);
      while true
        invariant r.Valid() && 1 <= curr <= LONGEST && r.Bits() == Steps(curr, len[i]) + ([false] + rest)
        decreases if curr < len[i] then len[i] - curr else curr - len[i]
      {
        if curr < 1 || curr > 20 { return false, read; }
        StepNext(curr, len[i], rest);
        var uc;
        ok, uc := GetBit(r, curr != len[i], if curr == len[i] then rest else [curr > len[i]] + (Steps(if curr < len[i] then curr + 1 else curr - 1, len[i]) + ([false] + rest)));
        if !uc { break; }
        ok, uc := GetBit(r, curr > len[i], Steps(if curr < len[i] then curr + 1 else curr - 1, len[i]) + ([false] + rest));
        if !uc { curr := curr + 1; } else { curr := curr - 1; }
      }
      read := read + [curr];
    }
    ok := true;
    LenEnd(len, curr, after);
  }

  lemma StepNext(a: nat, b: nat, rest: seq<bool>)
    ensures a == b ==> Steps(a, b) + ([false] + rest) == [false] + rest
    ensures a < b ==> Steps(a, b) + ([false] + rest) == [true] + ([false] + (Steps(a + 1, b) + ([false] + rest)))
    ensures a > b ==> Steps(a, b) + ([false] + rest) == [true] + ([true] + (Steps(a - 1, b) + ([false] + rest)))
  {
  }

  /** The tables from the t-th on. */
  function TablesBits(lens: seq<seq<nat>>, t: nat): seq<bool>
    requires t <= |lens|
    decreases |lens| - t
  {
    if t == |lens| then [] else TableBits(lens[t]) + TablesBits(lens, t + 1)
  }

  method WriteTables(w: BitWriter, lens: seq<seq<nat>>)
    requires w.Valid() && forall k :: 0 <= k < |lens| ==> LensOk(lens[k])
    modifies w
    ensures w.Valid() && w.Bits() == old(w.Bits()) + TablesBits(lens, 0)
  {
    hide BitWriter.Valid, BitWriter.Bits, TableBits;
    ghost var bits := w.Bits();
    for t := 0 to |lens|
      invariant w.Valid() && w.Bits() + TablesBits(lens, t) == bits + TablesBits(lens, 0)
    {
      Joins(w.Bits(), TableBits(lens[t]), TablesBits(lens, t + 1));
      WriteLengths(w, lens[t]);
    }
    assert w.Bits() + [] == w.Bits();
  }

  method ReadTables(r: BitReader, nGroups: nat, alphaSize: nat, ghost lens: seq<seq<nat>>, ghost after: seq<bool>) returns (ok: bool, read: seq<seq<nat>>)
    requires r.Valid() && |lens| == nGroups && (forall k :: 0 <= k < |lens| ==> LensOk(lens[k]) && |lens[k]| == alphaSize)
    requires r.Bits() == TablesBits(lens, 0) + after
    modifies r`next, r`bsBuff, r`bsLive
    ensures ok && read == lens && r.Valid() && r.Bits() == after
  {
    hide BitReader.Valid, BitReader.Bits, TableBits;
    read := [];
    for t := 0 to nGroups
      invariant r.Valid() && |read| == t && read == lens[..t] && r.Bits() == TablesBits(lens, t) + after
    {
      Joins(TableBits(lens[t]), TablesBits(lens, t + 1), after);
      var len;
      ok, len := ReadLengths(r, alphaSize, lens[t], TablesBits(lens, t + 1) + after);
      read := read + [len];
    }
    ok := true;
    assert [] + after == after;
  }

  // ---------------------------------------------------------------- the block

  /** Frequencies for each table, and which table each group of symbols uses. */
  datatype Choice = Choice(freqs: seq<seq<nat>>, selector: seq<Byte>)

  /** From two to six tables, for all symbols and all groups of them. */
  ghost predicate Suits(c: Choice, alphaSize: nat, count: nat) {
    && 2 <= |c.freqs| <= 6 && 1 <= |c.selector| < 0x8000 && count <= GROUP_SIZE * |c.selector|
    && (forall t :: 0 <= t < |c.freqs| ==> |c.freqs[t]| == alphaSize && HuffmanLengths.FreqSum(c.freqs[t]) < 0x80_0000)
    && (forall i :: 0 <= i < |c.selector| ==> c.selector[i] < |c.freqs|)
  }

  /** The symbols fit the alphabet. */
  ghost predicate Sendable(code: Code, lens: seq<seq<nat>>, selector: seq<Byte>) {
    && code.origPtr < 0x100_0000 && |code.inUse| == 256 && 0 < UsedBelow(code.inUse, 256)
    && Closed(code.syms, UsedBelow(code.inUse, 256) + 1)
    && 2 <= |lens| <= 6 && 1 <= |selector| < 0x8000 && Listed(selector, 0, Identity(|lens|))
    && (forall t :: 0 <= t < |lens| ==> LensOk(lens[t]) && Fits(lens[t]) && |lens[t]| == UsedBelow(code.inUse, 256) + 2)
    && Codable(lens, selector, code.syms)
  }

  /** What is sent behind the tables' code lengths, the tables, the choice of tables, and so on. */
  ghost function Part5(code: Code, lens: seq<seq<nat>>, selector: seq<Byte>): seq<bool>
    requires Sendable(code, lens, selector)
  {
    TablesBits(lens, 0) + Words(lens, selector, code.syms, |code.syms|)
  }

  ghost function Part4(code: Code, lens: seq<seq<nat>>, selector: seq<Byte>): seq<bool>
    requires Sendable(code, lens, selector)
  {
    Unaries(Ranks(selector, 0, Identity(|lens|))) + Part5(code, lens, selector)
  }

  ghost function Part3(code: Code, lens: seq<seq<nat>>, selector: seq<Byte>): seq<bool>
    requires Sendable(code, lens, selector)
  {
    BitsOf(|lens|, 3) + (BitsOf(|selector|, 15) + Part4(code, lens, selector))
  }

  ghost function Part2(code: Code, lens: seq<seq<nat>>, selector: seq<Byte>): seq<bool>
    requires Sendable(code, lens, selector)
  {
    (Rows(code.inUse) + RowsFrom(code.inUse, 0)) + Part3(code, lens, selector)
  }

  /** The bits of a block: not randomised, the row of the block itself, and the rest. */
  ghost function BlockBits(code: Code, lens: seq<seq<nat>>, selector: seq<Byte>): seq<bool>
    requires Sendable(code, lens, selector)
  {
    [false] + (BitsOf(code.origPtr, 24) + Part2(code, lens, selector))
  }

  method SendBlock(w: BitWriter, code: Code, lens: seq<seq<nat>>, codes: seq<seq<int>>, selector: seq<Byte>)
    requires w.Valid() && Sendable(code, lens, selector) && |codes| == |lens|
    requires forall t :: 0 <= t < |lens| ==> |codes[t]| == |lens[t]|
    requires forall t, i :: 0 <= t < |lens| && 0 <= i < |lens[t]| ==> codes[t][i] == CodeOf(lens[t], i)
    modifies w
    ensures w.Valid() && w.Bits() == old(w.Bits()) + BlockBits(code, lens, selector)
  {
    hide BitWriter.Valid, BitWriter.Bits, BitsOf, Pow2, Rows, RowsFrom, Unaries, Ranks, TablesBits, Words, CodeOf, LensOk, Fits, Codable, Listed;
    ghost var bits := w.Bits();
    Widths();
    PutBit(w, false);
    Joins(bits, [false], BitsOf(code.origPtr, 24) + Part2(code, lens, selector));
    Joins(w.Bits(), BitsOf(code.origPtr, 24), Part2(code, lens, selector));
    w.W(24, code.origPtr);
    Joins(w.Bits(), Rows(code.inUse) + RowsFrom(code.inUse, 0), Part3(code, lens, selector));
    WriteMap(w, code.inUse);
    Joins(w.Bits(), BitsOf(|lens|, 3), BitsOf(|selector|, 15) + Part4(code, lens, selector));
    w.W(3, |lens|);
    Joins(w.Bits(), BitsOf(|selector|, 15), Part4(code, lens, selector));
    w.W(15, |selector|);
    var ranks := SelectorRanks(selector, |lens|);
    Joins(w.Bits(), Unaries(ranks), Part5(code, lens, selector));
    WriteRanks(w, ranks);
    Joins(w.Bits(), TablesBits(lens, 0), Words(lens, selector, code.syms, |code.syms|));
    WriteTables(w, lens);
    WriteSymbols(w, lens, codes, selector, code.syms);
  }

  lemma Widths()
    ensures Pow2(3) == 8 && Pow2(15) == 0x8000 && Pow2(24) == 0x100_0000
  {
    assert Pow2(3) == 8;
    Pow2Add(3, 12);
    Pow2Add(3, 9);
    Pow2Add(3, 6);
    Pow2Add(3, 3);
    Eights();
  }

  const NO_CODE: Code := Code(0, [], [])

  /** A block's bits are read back as its code. */
  method ReceiveBlock(r: BitReader, blockSize100k: nat, ghost code: Code, ghost lens: seq<seq<nat>>, ghost selector: seq<Byte>, ghost after: seq<bool>)
    returns (ok: bool, got: Code)
    requires Sendable(code, lens, selector) && code.origPtr <= 10 + 100000 * blockSize100k
    requires r.Valid() && r.Bits() == BlockBits(code, lens, selector) + after
    modifies r`next, r`bsBuff, r`bsLive
    ensures ok && got == code && r.Valid() && r.Bits() == after
  {
    hide BitReader.Valid, BitReader.Bits, BitsOf, Pow2, Rows, RowsFrom, Unaries, Ranks, TablesBits, Words, LensOk, Fits, Codable, Listed, UsedBelow;
    Widths();
    got := NO_CODE;
    Joins([false], BitsOf(code.origPtr, 24) + Part2(code, lens, selector), after);
    var uc;
    ok, uc := GetBit(r, false, BitsOf(code.origPtr, 24) + Part2(code, lens, selector) + after);
    Joins(BitsOf(code.origPtr, 24), Part2(code, lens, selector), after);
    var origPtr: nat;
    ok, origPtr := GetOrigPtr(r, code.origPtr, Part2(code, lens, selector) + after);
    if origPtr > 10 + 100000 * blockSize100k { return false, got; }
    Joins(Rows(code.inUse) + RowsFrom(code.inUse, 0), Part3(code, lens, selector), after);
    var inUse;
    ok, inUse := ReadMap(r, code.inUse, Part3(code, lens, selector) + after);
    var nInUse, seqToUnseq := MakeMapsD(inUse);
    if nInUse == 0 { return false, got; }
    var alphaSize := nInUse + 2;
    Joins(BitsOf(|lens|, 3), BitsOf(|selector|, 15) + Part4(code, lens, selector), after);
    var nGroups: nat, nSelectors: nat;
    ok, nGroups := GetNumber(r, 3, |lens|, BitsOf(|selector|, 15) + Part4(code, lens, selector) + after);
    if nGroups < 2 || nGroups > 6 { return false, got; }
    Joins(BitsOf(|selector|, 15), Part4(code, lens, selector), after);
    ok, nSelectors := GetNumber(r, 15, |selector|, Part4(code, lens, selector) + after);
    if nSelectors < 1 { return false, got; }
    var sel;
    ok, sel := ReadSelectors(r, nSelectors, nGroups, selector, Part5(code, lens, selector) + after, Part4(code, lens, selector) + after);
    Joins(TablesBits(lens, 0), Words(lens, selector, code.syms, |code.syms|), after);
    var read;
    ok, read := ReadTables(r, nGroups, alphaSize, lens, Words(lens, selector, code.syms, |code.syms|) + after);
    var tables := DecodeTables(read);
    var syms;
    ok, syms := ReadSymbols(r, tables, sel, nInUse + 1, lens, code.syms, after);
    got := Code(origPtr, inUse, syms);
  }

  /** The row of the block comes in three bytes. */
  method GetOrigPtr(r: BitReader, ghost v: nat, ghost after: seq<bool>) returns (ok: bool, origPtr: nat)
    requires r.Valid() && v < 0x100_0000 && r.Bits() == BitsOf(v, 24) + after
    modifies r`next, r`bsBuff, r`bsLive
    ensures ok && origPtr == v && r.Valid() && r.Bits() == after
  {
    hide BitReader.Valid, BitReader.Bits, BitsOf, Pow2;
    ghost var a, b, c := ThreeBytes(v);
    Eights();
    Joins(BitsOf(a, 8), BitsOf(b, 8) + BitsOf(c, 8), after);
    Joins(BitsOf(b, 8), BitsOf(c, 8), after);
    var uc: nat;
    ok, uc := GetNumber(r, 8, a, BitsOf(b, 8) + BitsOf(c, 8) + after);
    origPtr := uc;
    ok, uc := GetNumber(r, 8, b, BitsOf(c, 8) + after);
    origPtr := origPtr * 256 + uc;
    ok, uc := GetNumber(r, 8, c, after);
    origPtr := origPtr * 256 + uc;
  }

  lemma ThreeBytes(v: nat) returns (a: nat, b: nat, c: nat)
    requires v < 0x100_0000
    ensures a < 256 && b < 256 && c < 256 && v == (a * 256 + b) * 256 + c
    ensures BitsOf(v, 24) == BitsOf(a, 8) + (BitsOf(b, 8) + BitsOf(c, 8))
  {
    hide BitsOf, Pow2;
    a, b, c := v / 0x1_0000, v / 256 % 256, v % 256;
    Base256(v);
    Eights();
    BitsJoin(a * 256 + b, c, 16, 8);
    BitsJoin(a, b, 8, 8);
    Joins(BitsOf(a, 8), BitsOf(b, 8), BitsOf(c, 8));
  }

  lemma Base256(v: nat)
    requires v < 0x100_0000
    ensures v / 0x1_0000 < 256 && v == (v / 0x1_0000 * 256 + v / 256 % 256) * 256 + v % 256
  {
  }

  method ReadSelectors(r: BitReader, n: nat, nGroups: nat, ghost sel: seq<Byte>, ghost after: seq<bool>, ghost bits: seq<bool>) returns (ok: bool, selector: seq<Byte>)
    requires r.Valid() && nGroups <= 6 && |sel| == n && Listed(sel, 0, Identity(nGroups)) && r.Bits() == bits
    requires bits == Unaries(Ranks(sel, 0, Identity(nGroups))) + after
    modifies r`next, r`bsBuff, r`bsLive
    ensures ok && selector == sel && r.Valid() && r.Bits() == after
  {
    hide BitReader.Valid, BitReader.Bits, Unaries, Ranks, Listed;
    RanksSmall(sel, 0, Identity(nGroups));
    var ranks;
    ok, ranks := ReadRanks(r, n, nGroups, Ranks(sel, 0, Identity(nGroups)), after);
    selector := UndoRanks(ranks, nGroups, sel);
  }

  method DecodeTables(lens: seq<seq<nat>>) returns (tables: seq<DecodeTable>)
    requires forall t :: 0 <= t < |lens| ==> LensOk(lens[t]) && Fits(lens[t])
    ensures |tables| == |lens| && forall t :: 0 <= t < |lens| ==> TableFor(lens[t], tables[t])
  {
    hide LensOk, Fits, TableFor;
    tables := [];
    for t := 0 to |lens|
      invariant |tables| == t && forall k :: 0 <= k < t ==> TableFor(lens[k], tables[k])
    {
      var table := MakeTable(lens[t]);
      tables := tables + [table];
    }
  }

  /** The code of a block can be sent with tables for its alphabet. */
  lemma CodeSends(b: seq<Byte>, fm: seq<int>, l: seq<Byte>, code: Code, c: Choice, lens: seq<seq<nat>>)
    requires IsCode(b, fm, l, code) && |b| <= LARGEST_BLOCK && Suits(c, UsedBelow(code.inUse, 256) + 2, |code.syms|) && |lens| == |c.freqs|
    requires forall t :: 0 <= t < |lens| ==> LensOk(lens[t]) && Fits(lens[t]) && |lens[t]| == UsedBelow(code.inUse, 256) + 2
    ensures Sendable(code, lens, c.selector)
  {
    CodeDecodes(b, fm, l, code, LARGEST_BLOCK);
    hide UsedBelow, LensOk, Fits, IsCode;
    CodeRange(b, fm, l, code);
    forall i | 0 <= i < |code.syms| ensures HasWord(lens, c.selector, code.syms, i) {
      assert i / GROUP_SIZE < |c.selector|;
    }
    forall k | 0 <= k < |c.selector| ensures c.selector[k] in Identity(|lens|) {
      assert Identity(|lens|)[c.selector[k]] == c.selector[k];
    }
  }

  lemma CodeRange(b: seq<Byte>, fm: seq<int>, l: seq<Byte>, code: Code)
    requires IsCode(b, fm, l, code)
    ensures code.origPtr < |b| && |code.inUse| == 256 && 0 < UsedBelow(code.inUse, 256) <= 256
  {
  }

  /** For every alphabet and every number of symbols tables are chosen that suit. */
  ghost predicate Chooses(choose: (seq<nat>, nat) -> Choice) {
    forall syms, alphaSize :: 3 <= alphaSize <= MAX_ALPHA_SIZE && |syms| <= LARGEST_BLOCK + 1 ==> Suits(choose(syms, alphaSize), alphaSize, |syms|)
  }

  /** A block is sent as bytes and received: its code arrives. */
  method Transfer(block: array<Byte>, nblock: nat, blockSize100k: nat, choose: (seq<nat>, nat) -> Choice)
    returns (ok: bool, bytes: seq<Byte>, got: Code, ghost fm: seq<int>, ghost l: seq<Byte>)
    requires 0 < nblock <= block.Length && 1 <= blockSize100k <= 9 && nblock <= 100000 * blockSize100k && Chooses(choose)
    modifies block
    ensures ok && block[..nblock] == old(block[..nblock]) && IsCode(block[..nblock], fm, l, got)
  {
    hide IsCode, Suits, Sendable, BlockBits, BitWriter.Valid, BitWriter.Bits, BitReader.Valid, BitReader.Bits, BytesBits, UsedBelow, LensOk, Fits, TableFor;
    var code;
    code, fm, l := CompressBlock(block, nblock);
    ghost var b := block[..nblock];
    CodeRange(b, fm, l, code);
    var nInUse, unseqToSeq := MakeMapsE(code.inUse);
    var choice := choose(code.syms, nInUse + 2);
    SuitsFor(choice, nInUse + 2, |code.syms|);
    var lens, codes, tables := MakeTables(choice.freqs);
    CodeSends(b, fm, l, code, choice, lens);
    var w := new BitWriter();
    SendBlock(w, code, lens, codes, choice.selector);
    ghost var pad := w.Finish();
    bytes := w.out;
    var r := new BitReader(bytes);
    assert r.Bits() == BlockBits(code, lens, choice.selector) + pad;
    ok, got := ReceiveBlock(r, blockSize100k, code, lens, choice.selector, pad);
  }

  /**
   * Every block of at most nine hundred thousand bytes comes back from the bytes it is sent as, whatever tables are
   * chosen for its symbols, in either memory layout.
   */
  method ThereAndBack(block: array<Byte>, nblock: nat, blockSize100k: nat, small: bool, choose: (seq<nat>, nat) -> Choice)
    returns (ok: bool, out: seq<Byte>)
    requires 0 < nblock <= block.Length && 1 <= blockSize100k <= 9 && nblock <= 100000 * blockSize100k && Chooses(choose)
    modifies block
    ensures ok && out == old(block[..nblock])
  {
    hide IsCode, Chooses;
    var bytes, got;
    ghost var fm, l;
    ok, bytes, got, fm, l := Transfer(block, nblock, blockSize100k, choose);
    ok, out := DecompressBlock(got, 100000 * blockSize100k, small, block[..nblock], fm, l);
  }

  lemma SuitsFor(c: Choice, alphaSize: nat, count: nat)
    requires Suits(c, alphaSize, count)
    ensures forall t :: 0 <= t < |c.freqs| ==> |c.freqs[t]| == alphaSize && HuffmanLengths.FreqSum(c.freqs[t]) < 0x80_0000
  {
  }
}
