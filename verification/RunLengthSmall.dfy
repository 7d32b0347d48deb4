/** The decompressor's last stage in the SMALL layout, where a byte is found by searching the sorted column. */
module RunLengthSmall {
  import opened Bytes
  import opened RunLength
  import opened Counting
  import opened InverseBwt
  import opened Permutations
  import opened RunLengthDecoder

  /** Row numbers turned round on the cycle that is walked, and where each byte's stretch of the sorted column begins. */
  ghost predicate LaidSmall(b: seq<Byte>, fm: seq<int>, l: seq<Byte>, origPtr: nat, ll: seq<nat>, cftab: seq<nat>, c: seq<int>) {
    && Transformed(b, fm, l, origPtr) && |ll| == |b| && origPtr in c && CycleInverts(ll, l, c)
    && |cftab| == 257 && forall x :: 0 <= x <= 256 ==> cftab[x] == CountBelow(l, x)
  }

  /** The walk stands on the cycle, before its m-th byte. */
  ghost predicate On(tPos: nat, l: seq<Byte>, origPtr: nat, p: seq<int>, c: seq<int>, m: nat) {
    Inverts(l, p) && InRange(p, |p|) && origPtr < |p| && tPos == Walk(p, origPtr, m) && tPos in c
  }

  lemma OnStart(b: seq<Byte>, fm: seq<int>, l: seq<Byte>, origPtr: nat, ll: seq<nat>, cftab: seq<nat>, c: seq<int>) returns (p: seq<int>)
    requires LaidSmall(b, fm, l, origPtr, ll, cftab, c)
    ensures On(origPtr, l, origPtr, p, c, 0) && |b| > 0
  {
    hide Inverts, CycleInverts;
    p := InverseExists(l);
    TransformedSize(b, fm, l, origPtr);
  }

  /** Where the next byte is found, and the row to go on from. */
  lemma NextOn(b: seq<Byte>, fm: seq<int>, l: seq<Byte>, origPtr: nat, ll: seq<nat>, cftab: seq<nat>, c: seq<int>, p: seq<int>, tPos: nat, m: nat)
    requires LaidSmall(b, fm, l, origPtr, ll, cftab, c) && On(tPos, l, origPtr, p, c, m)
    ensures |b| > 0 && |cftab| == 257 && tPos < |ll| && cftab[0] <= tPos < cftab[256] && On(ll[tPos], l, origPtr, p, c, m + 1)
    ensures forall x: nat :: x < 256 && cftab[x] <= tPos < cftab[x + 1] ==> x == b[m % |b|]
  {
    hide Inverts, CycleInverts, Transformed, RowOf, Count, CountBelow;
    TransformedSize(b, fm, l, origPtr);
    WalkSpellsBlock(b, fm, l, origPtr, p, m);
    CycleAgrees(ll, l, c, p, tPos);
    CountAll(l);
    WalkNext(p, origPtr, m);
    forall x: nat | x < 256 && cftab[x] <= tPos < cftab[x + 1] ensures x == l[p[tPos]] {
      StretchByte(l, p[tPos], x);
    }
  }

  lemma WalkNext(p: seq<int>, r: nat, m: nat)
    requires InRange(p, |p|) && r < |p|
    ensures Walk(p, r, m + 1) == p[Walk(p, r, m)]
  {
  }

  class SmallExpander {
    const store: SmallStore
    const cftab: array<nat>
    const saveNblock: nat
    var tPos: nat
    var stateOutCh: Byte
    var stateOutLen: nat
    var nblockUsed: nat
    var k0: Byte
    ghost const b: seq<Byte>
    ghost const fm: seq<int>
    ghost const l: seq<Byte>
    ghost const origPtr: nat
    ghost const c: seq<int>
    ghost const p: seq<int>

    /** The walk has produced nblockUsed bytes. */
    ghost predicate Walking()
      reads this`nblockUsed, this`tPos, store, store.ll16, store.ll4, cftab
    {
      && store.Valid() && |b| == saveNblock == store.ll16.Length && |b| > 0
      && LaidSmall(b, fm, l, origPtr, Pointers(store, saveNblock), cftab[..], c) && On(tPos, l, origPtr, p, c, nblockUsed)
    }

    ghost function Tail(): seq<Byte>
      reads this`nblockUsed
    {
      if 1 <= nblockUsed <= |b| + 1 then Unpacked(b, nblockUsed - 1) else []
    }

    /** The text still to come. */
    ghost function Rest(): seq<Byte>
      reads this`nblockUsed, this`stateOutCh, this`stateOutLen
    {
      Repeat(stateOutCh, stateOutLen) + Tail()
    }

    /** The reading is at a run's beginning; the block is complete if the rest of it is. */
    ghost predicate Reading()
      reads this`nblockUsed, this`k0
    {
      && 1 <= nblockUsed <= |b| + 2 && (nblockUsed <= |b| ==> k0 == b[nblockUsed - 1])
      && (Complete(b, 0) <==> nblockUsed <= |b| + 1 && Complete(b, nblockUsed - 1))
    }

    constructor (store: SmallStore, cftab: array<nat>, nblock: nat, origPtr: nat, ghost b: seq<Byte>, ghost fm: seq<int>, ghost l: seq<Byte>, ghost c: seq<int>)
      requires store.Valid() && |b| == nblock == store.ll16.Length && LaidSmall(b, fm, l, origPtr, Pointers(store, nblock), cftab[..], c)
      ensures Walking() && nblockUsed == 0 && stateOutLen == 0 && this.store == store && this.cftab == cftab && this.b == b && saveNblock == nblock
    {
      hide LaidSmall, On, Pointers;
      ghost var q := OnStart(b, fm, l, origPtr, Pointers(store, nblock), cftab[..], c);
      this.store, this.cftab, saveNblock, tPos := store, cftab, nblock, origPtr;
      stateOutCh, stateOutLen, nblockUsed, k0 := 0, 0, 0, 0;
      this.b, this.fm, this.l, this.origPtr, this.c, this.p := b, fm, l, origPtr, c, q;
    }

    /** The next byte: corrupt only if the walk has left the table. */
    method Get(limit: nat) returns (corrupt: bool, ch: Byte)
      requires Walking() && saveNblock <= limit
      modifies this`nblockUsed, this`tPos
      ensures !corrupt && Walking() && nblockUsed == old(nblockUsed) + 1
      ensures old(nblockUsed) < |b| ==> ch == b[old(nblockUsed)]
      ensures old(nblockUsed) == |b| ==> ch == b[0]
    {
      hide LaidSmall, On;
      ch := 0;
      NextOn(b, fm, l, origPtr, Pointers(store, saveNblock), cftab[..], c, p, tPos, nblockUsed);
      if nblockUsed <= |b| { FirstRound(b, nblockUsed); }
      if tPos >= limit { return true, ch; }
      ch := IndexIntoF(tPos, cftab);
      tPos := store.Get(tPos);
      nblockUsed := nblockUsed + 1;
      corrupt := false;
    }

    /** The first byte of the block. */
    method Start(limit: nat)
      requires Walking() && saveNblock <= limit && nblockUsed == 0 && stateOutLen == 0
      modifies this`nblockUsed, this`tPos, this`k0
      ensures Walking() && Reading() && stateOutLen == 0 && Rest() == Unpacked(b, 0)
    {
      hide Walking, Unpacked, Complete;
      WalkingSome();
      var corrupt, ch := Get(limit);
      k0 := ch;
      assert [] + Unpacked(b, 0) == Unpacked(b, 0);
    }

    lemma WalkingSome()
      requires Walking()
      ensures |b| == saveNblock > 0
    {
    }

    /** n equal bytes stand from i on. */
    ghost predicate Level(i: nat, n: nat) {
      && 1 <= n && i + n <= |b| && (forall k :: i <= k < i + n ==> b[k] == b[i])
      && (Complete(b, 0) <==> Complete(b, i))
    }

    /** The run at i has been read. */
    ghost predicate ReadFrom(i: nat)
      reads this`nblockUsed, this`k0, this`stateOutCh, this`stateOutLen
    {
      i <= |b| && Reading() && Rest() == Unpacked(b, i)
    }

    /** With n equal bytes read, the next one is; done if the run has ended. */
    method Another(n: nat, limit: nat, ghost i: nat) returns (done: bool)
      requires Walking() && saveNblock <= limit && n <= 3 && nblockUsed == i + n && Level(i, n) && k0 == stateOutCh == b[i]
      modifies this`nblockUsed, this`tPos, this`k0, this`stateOutLen
      ensures Walking() && nblockUsed == i + n + 1 && if done then ReadFrom(i) else Level(i, n + 1) && k0 == b[i]
    {
      hide Walking, Unpacked, Complete, Repeat, Reading, Rest, Tail;
      WalkingSome();
      stateOutLen := n;
      var corrupt, k1 := Get(limit);
      if nblockUsed == saveNblock + 1 {
        ReadRunShort(b, i, n);
        ShortOff(i, n);
        return true;
      }
      if k1 != k0 {
        k0 := k1;
        ReadRunShort(b, i, n);
        ShortOff(i, n);
        return true;
      }
      done := false;
    }

    /** One run is read off the block. */
    method StartRun(limit: nat) returns (corrupt: bool)
      requires Walking() && Reading() && saveNblock <= limit && nblockUsed <= |b|
      modifies this`nblockUsed, this`tPos, this`k0, this`stateOutCh, this`stateOutLen
      ensures !corrupt && Walking() && Reading() && nblockUsed > old(nblockUsed) && Rest() == old(Tail())
    {
      hide Walking, Unpacked, Complete, Repeat, Reading, Rest, Tail;
      WalkingSome();
      ghost var i := nblockUsed - 1;
      ReadingIs();
      corrupt := false;
      stateOutCh := k0;
      var done := Another(1, limit, i);
      if done { return; }
      done := Another(2, limit, i);
      if done { return; }
      done := Another(3, limit, i);
      if done { return; }
      var k1;
      corrupt, k1 := Get(limit);
      stateOutLen := k1 as int + 4;
      ReadRunLong(b, i);
      corrupt, k1 := Get(limit);
      k0 := k1;
      LongOff(i);
    }

    /** What reading stands on. */
    lemma ReadingIs()
      requires Reading() && nblockUsed <= |b|
      ensures nblockUsed >= 1 && k0 == b[nblockUsed - 1] && Tail() == Unpacked(b, nblockUsed - 1)
      ensures Complete(b, 0) <==> Complete(b, nblockUsed - 1)
    {
      hide Unpacked, Complete;
    }

    /** A run of n bytes has been read off. */
    lemma ShortOff(i: nat, n: nat)
      requires i + n <= |b| && nblockUsed == i + n + 1 && n > 0 && stateOutLen == n && stateOutCh == b[i] && (i + n < |b| ==> k0 == b[i + n])
      requires i < |b| && (Complete(b, 0) <==> Complete(b, i)) && (Complete(b, i) <==> Complete(b, i + n))
      requires Unpacked(b, i) == Repeat(b[i], n) + Unpacked(b, i + n)
      ensures Reading() && Rest() == Unpacked(b, i)
    {
      hide Unpacked, Complete, Repeat;
    }

    /** A run of four and more has been read off, or the block has ended before its count. */
    lemma LongOff(i: nat)
      requires i + 4 <= |b| && nblockUsed == i + 6 && stateOutCh == b[i] && stateOutLen == 4 + (if i + 4 < |b| then b[i + 4] else b[0]) as int
      requires (i + 5 < |b| ==> k0 == b[i + 5]) && (Complete(b, 0) <==> Complete(b, i))
      requires i + 4 < |b| ==> Unpacked(b, i) == Repeat(b[i], 4 + b[i + 4] as int) + Unpacked(b, i + 5) && Complete(b, i) == Complete(b, i + 5)
      requires i + 4 == |b| ==> Unpacked(b, i) == Repeat(b[i], 4 + b[0] as int) && !Complete(b, i)
      ensures Reading() && Rest() == Unpacked(b, i)
    {
      hide Unpacked, Complete, Repeat;
      if i + 4 == |b| { assert Repeat(stateOutCh, stateOutLen) + [] == Repeat(stateOutCh, stateOutLen); }
    }

    /** All the text has gone out. */
    ghost predicate Spent()
      reads this`nblockUsed, this`stateOutCh, this`stateOutLen
    {
      Rest() == [] && Complete(b, 0)
    }

    predicate Finished()
      reads this`nblockUsed, this`stateOutLen
    {
      nblockUsed == saveNblock + 1 && stateOutLen == 0
    }

    /** The run under way goes out as far as there is room; even an empty one needs room to be seen through. */
    method FinishRun(availOut: nat) returns (out: seq<Byte>, full: bool)
      modifies this`stateOutLen
      ensures |out| <= availOut && out + Repeat(stateOutCh, stateOutLen) == Repeat(stateOutCh, old(stateOutLen))
      ensures if full then |out| == availOut else stateOutLen == 0 && |out| < availOut
    {
      out := [];
      while true
        invariant |out| <= availOut && out + Repeat(stateOutCh, stateOutLen) == Repeat(stateOutCh, old(stateOutLen))
        decreases stateOutLen
      {
        if |out| == availOut { return out, true; }
        if stateOutLen == 0 { return out, false; }
        out := out + [stateOutCh];
        stateOutLen := stateOutLen - 1;
      }
    }

    /** Output of the block's text until the room or the block is used up; corrupt only when a last count is missing. */
    method UnRleToOutputSmall(availOut: nat, limit: nat) returns (corrupt: bool, out: seq<Byte>)
      requires Walking() && Reading() && saveNblock <= limit
      modifies this`nblockUsed, this`tPos, this`k0, this`stateOutCh, this`stateOutLen
      ensures corrupt ==> !Complete(b, 0)
      ensures !corrupt ==> Walking() && Reading() && |out| <= availOut && out + Rest() == old(Rest())
      ensures !corrupt && |out| < availOut ==> Finished()
      ensures !corrupt ==> (Finished() <==> Spent())
    {
      hide Walking, Complete, Unpacked, Repeat, Owed;
      WalkingSome();
      out, corrupt := [], false;
      OwedFirst(Repeat(stateOutCh, stateOutLen), Tail());
      while true
        invariant Walking() && Reading() && |out| <= availOut
        invariant Owed(out, Repeat(stateOutCh, stateOutLen), Tail(), old(Rest()))
        decreases |b| + 3 - nblockUsed
      {
        ghost var run := Repeat(stateOutCh, stateOutLen);
        var more, full := FinishRun(availOut - |out|);
        OwedEmit(out, more, Repeat(stateOutCh, stateOutLen), run, Tail(), old(Rest()));
        out := out + more;
        OwedLast(out, Repeat(stateOutCh, stateOutLen), Tail(), old(Rest()));
        AtEndOf(b, stateOutCh, stateOutLen, nblockUsed);
        if full { return; }
        if nblockUsed == saveNblock + 1 { return; }
        if nblockUsed > saveNblock + 1 { return true, out; }
        ghost var tail := Tail();
        NoRunLeft(out, stateOutCh, tail, old(Rest()));
        corrupt := StartRun(limit);
        OwedRead(out, Repeat(stateOutCh, stateOutLen), Tail(), tail, old(Rest()));
      }
    }
  }

  lemma NoRunLeft(out: seq<Byte>, ch: Byte, tail: seq<Byte>, text: seq<Byte>)
    requires Owed(out, Repeat(ch, 0), tail, text)
    ensures Owed(out, [], tail, text)
  {
  }

  /** Nothing is left exactly at the end of the block. */
  lemma AtEndOf(b: seq<Byte>, ch: Byte, n: nat, used: nat)
    requires 1 <= used <= |b| + 2
    ensures used == |b| + 1 && n == 0 ==> Repeat(ch, n) + Unpacked(b, used - 1) == [] && Complete(b, used - 1)
    ensures used <= |b| + 1 && Repeat(ch, n) + Unpacked(b, used - 1) == [] ==> used == |b| + 1 && n == 0
  {
    if used <= |b| && n == 0 { SomeText(b, used - 1); }
  }

  lemma SomeText(b: seq<Byte>, i: nat)
    requires i < |b|
    ensures Unpacked(b, i) != []
  {
    var n := Same(b, i, 1);
    hide Same;
  }
}
