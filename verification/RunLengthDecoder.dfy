/**
 * The decompressor's last stage: a resumable machine that walks the inverted block and expands its
 * runs into whatever output room the caller has.
 */
module RunLengthDecoder {
  import opened Bytes
  import opened RunLength
  import opened Permutations
  import opened Counting
  import opened Rotations
  import opened InverseBwt
  import opened Residues

  /** A run read off the block from i: its byte, its length, and where the next one starts. */
  lemma ReadRunShort(b: seq<Byte>, i: nat, n: nat)
    requires i < |b| && 1 <= n <= 3 && i + n <= |b|
    requires forall k :: i <= k < i + n ==> b[k] == b[i]
    requires i + n < |b| ==> b[i + n] != b[i]
    ensures Unpacked(b, i) == Repeat(b[i], n) + Unpacked(b, i + n)
    ensures Complete(b, i) == Complete(b, i + n)
  {
    SameIs(b, i, n);
    hide Same;
  }

  lemma SameIs(b: seq<Byte>, i: nat, n: nat)
    requires i < |b| && 1 <= n <= 4 && i + n <= |b|
    requires forall k :: i <= k < i + n ==> b[k] == b[i]
    requires n < 4 && i + n < |b| ==> b[i + n] != b[i]
    ensures Same(b, i, 1) == n
  {
    if n >= 2 { assert b[i + 1] == b[i]; }
    if n >= 3 { assert b[i + 2] == b[i]; }
    if n >= 4 { assert b[i + 3] == b[i]; }
  }

  lemma ReadRunLong(b: seq<Byte>, i: nat)
    requires i + 4 <= |b| && forall k :: i <= k < i + 4 ==> b[k] == b[i]
    ensures i + 4 < |b| ==> Unpacked(b, i) == Repeat(b[i], 4 + b[i + 4] as int) + Unpacked(b, i + 5)
    ensures i + 4 < |b| ==> Complete(b, i) == Complete(b, i + 5)
    ensures i + 4 == |b| ==> Unpacked(b, i) == Repeat(b[i], 4 + b[0] as int) && !Complete(b, i)
  {
    SameIs(b, i, 4);
    hide Same;
  }

  /** The rows a block was transformed to, the inverse walk over them, and the table that holds it. */
  ghost predicate Laid(b: seq<Byte>, fm: seq<int>, l: seq<Byte>, origPtr: nat, p: seq<int>, tt: seq<nat>) {
    && Transformed(b, fm, l, origPtr) && Inverts(l, p) && |b| <= |tt|
    && forall k :: 0 <= k < |b| ==> tt[k] == 256 * p[k] + l[k]
  }

  /** The walk after m bytes. */
  ghost predicate At(tPos: nat, l: seq<Byte>, origPtr: nat, p: seq<int>, m: nat) {
    |p| == |l| && InRange(p, |p|) && origPtr < |p| && tPos == Walk(p, origPtr, m + 1)
  }

  lemma NextByte(b: seq<Byte>, fm: seq<int>, l: seq<Byte>, origPtr: nat, p: seq<int>, tt: seq<nat>, tPos: nat, m: nat)
    requires Laid(b, fm, l, origPtr, p, tt) && At(tPos, l, origPtr, p, m)
    ensures tPos < |tt| && tt[tPos] % 256 == b[m % |b|] && At(tt[tPos] / 256, l, origPtr, p, m + 1)
  {
    hide SortedBy, RowOf, LastColumn, SortedRows, InverseBwt.Inverts;
    WalkSpellsBlock(b, fm, l, origPtr, p, m);
    assert Walk(p, origPtr, m + 2) == p[Walk(p, origPtr, m + 1)];
    Halves(p[tPos], l[tPos]);
  }

  lemma Halves(x: nat, y: Byte)
    ensures (256 * x + y) % 256 == y && (256 * x + y) / 256 == x
  {
  }

  /** The output so far, the run under way and the rest of the block make up the whole text. */
  ghost predicate Owed(out: seq<Byte>, run: seq<Byte>, tail: seq<Byte>, text: seq<Byte>) {
    out + (run + tail) == text
  }

  lemma OwedEmit(out: seq<Byte>, more: seq<Byte>, left: seq<Byte>, run: seq<Byte>, tail: seq<Byte>, text: seq<Byte>)
    requires Owed(out, run, tail, text) && run == more + left
    ensures Owed(out + more, left, tail, text)
  {
    assert out + (more + left + tail) == out + more + (left + tail);
  }

  lemma OwedRead(out: seq<Byte>, run: seq<Byte>, tail: seq<Byte>, old_: seq<Byte>, text: seq<Byte>)
    requires Owed(out, [], old_, text) && old_ == run + tail
    ensures Owed(out, run, tail, text)
  {
    assert [] + old_ == old_;
  }

  lemma AtStart(b: seq<Byte>, fm: seq<int>, l: seq<Byte>, origPtr: nat, p: seq<int>, tt: seq<nat>, tPos: nat)
    requires Laid(b, fm, l, origPtr, p, tt) && tPos == tt[origPtr] / 256
    ensures |b| > 0 && At(tPos, l, origPtr, p, 0)
  {
    assert Walk(p, origPtr, 1) == p[Walk(p, origPtr, 0)];
  }

  lemma FirstRound(b: seq<Byte>, m: nat)
    requires m <= |b| && |b| > 0
    ensures b[m % |b|] == if m < |b| then b[m] else b[0]
  {
    if m < |b| { SmallMod(m, |b|); }
  }

  class Expander {
    const reader: FastReader
    const saveNblock: nat
    var stateOutCh: Byte
    var stateOutLen: nat
    var nblockUsed: nat
    var k0: Byte
    ghost const b: seq<Byte>
    ghost const fm: seq<int>
    ghost const l: seq<Byte>
    ghost const origPtr: nat
    ghost const p: seq<int>

    /** The walk has produced nblockUsed bytes. */
    ghost predicate Walking()
      reads this`nblockUsed, reader, reader.tt
    {
      && reader.limit == reader.tt.Length && |b| > 0
      && Laid(b, fm, l, origPtr, p, reader.tt[..]) && At(reader.tPos, l, origPtr, p, nblockUsed)
    }

    ghost function Tail(): seq<Byte>
      reads this
    {
      if 1 <= nblockUsed <= |b| + 1 then Unpacked(b, nblockUsed - 1) else []
    }

    /** The text still to come. */
    ghost function Rest(): seq<Byte>
      reads this
    {
      Repeat(stateOutCh, stateOutLen) + Tail()
    }

    ghost predicate Valid()
      reads this, reader, reader.tt
    {
      && Walking() && saveNblock == |b| && 1 <= nblockUsed <= |b| + 2 && (nblockUsed <= |b| ==> k0 == b[nblockUsed - 1])
      && (Complete(b, 0) <==> nblockUsed <= |b| + 1 && Complete(b, nblockUsed - 1))
    }

    constructor (reader: FastReader, nblock: nat, ghost b: seq<Byte>, ghost fm: seq<int>, ghost l: seq<Byte>,
                 ghost origPtr: nat, ghost p: seq<int>)
      ensures this.reader == reader && saveNblock == nblock && nblockUsed == 0 && stateOutLen == 0
      ensures this.b == b && this.fm == fm && this.l == l && this.origPtr == origPtr && this.p == p
    {
      this.reader, saveNblock, stateOutCh, stateOutLen, nblockUsed, k0 := reader, nblock, 0, 0, 0, 0;
      this.b, this.fm, this.l, this.origPtr, this.p := b, fm, l, origPtr, p;
    }

    /** The first byte of the block. */
    method Start()
      requires nblockUsed == 0 && stateOutLen == 0 && saveNblock == |b|
      requires reader.limit == reader.tt.Length && Laid(b, fm, l, origPtr, p, reader.tt[..])
      requires origPtr < reader.tt.Length && reader.tPos == reader.tt[origPtr] / 256
      modifies this, reader
      ensures Valid() && stateOutLen == 0 && Rest() == Unpacked(b, 0)
    {
      hide Laid, At, Unpacked, Complete;
      AtStart(b, fm, l, origPtr, p, reader.tt[..], reader.tPos);
      var corrupt, ch := Fetch();
      k0 := ch;
    }

    method Fetch() returns (corrupt: bool, ch: Byte)
      requires Walking()
      modifies this`nblockUsed, reader
      ensures !corrupt && Walking() && nblockUsed == old(nblockUsed) + 1
      ensures old(nblockUsed) < |b| ==> ch == b[old(nblockUsed)]
      ensures old(nblockUsed) == |b| > 0 ==> ch == b[0]
    {
      hide Laid, At;
      NextByte(b, fm, l, origPtr, p, reader.tt[..], reader.tPos, nblockUsed);
      if nblockUsed <= |b| { FirstRound(b, nblockUsed); }
      corrupt, ch := reader.Get();
      nblockUsed := nblockUsed + 1;
    }

    /** Reading one run off the block; `one` when it is a single byte that goes straight to the output. */
    method StartRun() returns (corrupt: bool, one: bool)
      requires Valid() && nblockUsed <= |b|
      modifies this, reader
      ensures !corrupt && Valid() && nblockUsed > old(nblockUsed)
      ensures Repeat(stateOutCh, if one then 1 else stateOutLen) + Tail() == old(Tail())
    {
      hide Laid, At, Walking, Unpacked, Complete, Repeat;
      ghost var i := nblockUsed - 1;
      var k1;
      one := false;
      stateOutCh := k0;
      corrupt, k1 := Fetch();
      if k1 != k0 || nblockUsed == saveNblock + 1 {
        ReadRunShort(b, i, 1);
        k0 := k1;
        one := true;
        return;
      }
      stateOutLen := 2;
      corrupt := RestOfRun(i);
    }

    /** The bytes before i have been delivered, and the two from i on read as equal. */
    ghost predicate Two(i: nat)
      reads this, reader, reader.tt
    {
      && Walking() && saveNblock == |b| && nblockUsed == i + 2 && i + 2 <= |b| && k0 == b[i] == b[i + 1]
      && (Complete(b, 0) <==> Complete(b, i)) && stateOutCh == k0 && stateOutLen == 2
    }

    /** The third byte of a run and what follows it. */
    method RestOfRun(ghost i: nat) returns (corrupt: bool)
      requires Two(i)
      modifies this, reader
      ensures !corrupt && Valid() && nblockUsed > old(nblockUsed)
      ensures Repeat(stateOutCh, stateOutLen) + Tail() == Unpacked(b, i)
    {
      hide Laid, At, Walking, Unpacked, Complete, Repeat;
      var k1;
      corrupt, k1 := Fetch();
      if nblockUsed == saveNblock + 1 || k1 != k0 {
        ReadRunShort(b, i, 2);
        k0 := k1;
        return;
      }
      stateOutLen := 3;
      corrupt, k1 := Fetch();
      if nblockUsed == saveNblock + 1 || k1 != k0 {
        ReadRunShort(b, i, 3);
        k0 := k1;
        return;
      }
      corrupt, k1 := Fetch();
      stateOutLen := k1 as int + 4;
      ReadRunLong(b, i);
      corrupt, k1 := Fetch();
      k0 := k1;
    }

    predicate Finished()
      reads this
    {
      nblockUsed == saveNblock + 1 && stateOutLen == 0
    }

    /** All but the last byte of the run that is under way, as far as there is room. */
    method FinishRun(availOut: nat) returns (out: seq<Byte>, full: bool)
      requires Valid() && stateOutLen > 0
      modifies this`stateOutLen
      ensures Valid() && |out| <= availOut && 1 <= stateOutLen
      ensures out + Repeat(stateOutCh, stateOutLen) == Repeat(stateOutCh, old(stateOutLen))
      ensures if full then |out| == availOut else stateOutLen == 1 && |out| < availOut
    {
      hide Walking, Complete;
      out := [];
      while true
        invariant Valid() && |out| <= availOut && stateOutLen >= 1
        invariant out + Repeat(stateOutCh, stateOutLen) == Repeat(stateOutCh, old(stateOutLen))
        decreases stateOutLen
      {
        if |out| == availOut { return out, true; }
        if stateOutLen == 1 { return out, false; }
        out := out + [stateOutCh];
        stateOutLen := stateOutLen - 1;
      }
    }

    /** The run under way goes out: a single byte straight from the block, or the counted run. */
    method EmitRun(direct: bool, availOut: nat) returns (out: seq<Byte>, full: bool)
      requires Valid()
      modifies this`stateOutLen
      ensures Valid() && |out| <= availOut
      ensures full ==> |out| == availOut && stateOutLen >= 1
      ensures full ==> out + Repeat(stateOutCh, stateOutLen) == Repeat(stateOutCh, if direct then 1 else old(stateOutLen))
      ensures !full ==> out == Repeat(stateOutCh, if direct then 1 else old(stateOutLen))
    {
      hide Walking, Complete;
      out, full := [], false;
      if direct || stateOutLen > 0 {
        if !direct {
          out, full := FinishRun(availOut);
          if full { return; }
        }
        if |out| == availOut {
          stateOutLen := 1;
          return out, true;
        }
        out := out + [stateOutCh];
      }
    }

    /** Output of the block's text until the room or the block is used up; corrupt exactly when a last count is missing. */
    method UnRleToOutputFast(availOut: nat) returns (corrupt: bool, out: seq<Byte>)
      requires Valid()
      modifies this, reader
      ensures corrupt ==> !Complete(b, 0)
      ensures !corrupt ==> Valid() && |out| <= availOut && out + Rest() == old(Rest())
      ensures !corrupt && |out| < availOut ==> Rest() == []
      ensures !corrupt ==> (Rest() == [] <==> Finished()) && (Finished() ==> Complete(b, 0))
    {
      hide Walking, Complete, Unpacked, Repeat, Owed;
      out, corrupt := [], false;
      var direct := false;
      OwedFirst(Repeat(stateOutCh, stateOutLen), Tail());
      while true
        invariant Valid() && |out| <= availOut
        invariant Owed(out, Repeat(stateOutCh, if direct then 1 else stateOutLen), Tail(), old(Rest()))
        decreases |b| + 3 - nblockUsed
      {
        ghost var run := Repeat(stateOutCh, if direct then 1 else stateOutLen);
        var more, full := EmitRun(direct, availOut - |out|);
        OwedEmit(out, more, if full then Repeat(stateOutCh, stateOutLen) else [], run, Tail(), old(Rest()));
        out := out + more;
        if full {
          OwedLast(out, Repeat(stateOutCh, stateOutLen), Tail(), old(Rest()));
          RepeatNonempty(stateOutCh, stateOutLen);
          return;
        }
        if nblockUsed > saveNblock + 1 {
          return true, out;
        }
        ghost var tail := Tail();
        if nblockUsed == saveNblock + 1 {
          stateOutLen := 0;
          NothingMore(b, stateOutCh);
          OwedLast(out, [], tail, old(Rest()));
          return;
        }
        corrupt, direct := StartRun();
        OwedRead(out, Repeat(stateOutCh, if direct then 1 else stateOutLen), Tail(), tail, old(Rest()));
      }
    }
  }

  lemma OwedFirst(run: seq<Byte>, tail: seq<Byte>)
    ensures Owed([], run, tail, run + tail)
  {
    assert [] + (run + tail) == run + tail;
  }

  lemma OwedLast(out: seq<Byte>, run: seq<Byte>, tail: seq<Byte>, text: seq<Byte>)
    requires Owed(out, run, tail, text)
    ensures out + (run + tail) == text
  {
  }

  lemma RepeatNonempty(ch: Byte, n: nat)
    requires n > 0
    ensures Repeat(ch, n) != []
  {
  }

  lemma NothingMore(b: seq<Byte>, ch: Byte)
    ensures Unpacked(b, |b|) == [] && Complete(b, |b|) && Repeat(ch, 0) == []
  {
  }
}
