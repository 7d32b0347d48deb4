/** From a text to blocks and their bytes, and back: what the compressor took is what the decompressor delivers. */
module BlockText {
  import opened Bytes
  import opened Rotations
  import opened Counting
  import opened InverseBwt
  import opened MoveToFront
  import opened MtfDecoder
  import opened RunLength
  import opened RunLengthEncoder
  import opened RunLengthDecoder
  import opened RunLengthSmall
  import opened BlockCoding
  import opened BlockStream

  /** Every call has room for something. */
  ghost predicate Roomy(rooms: nat -> nat) {
    forall i: nat :: rooms(i) >= 1
  }

  /** The text of a block goes out, call after call, in the FAST layout. */
  method DrainFast(e: Expander, rooms: nat -> nat) returns (ok: bool, out: seq<Byte>)
    requires e.Valid() && Roomy(rooms)
    modifies e, e.reader
    ensures ok <==> Complete(e.b, 0)
    ensures ok ==> out == old(e.Rest())
  {
    hide Expander.Valid, Expander.Rest, Complete;
    out := [];
    var calls := 0;
    assert [] + e.Rest() == e.Rest();
    while true
      invariant e.Valid() && out + e.Rest() == old(e.Rest()) && calls >= 0
      decreases |e.Rest()|
    {
      ghost var rest := e.Rest();
      var corrupt, more := e.UnRleToOutputFast(rooms(calls));
      if corrupt { return false, out; }
      calls := calls + 1;
      assert out + (more + e.Rest()) == out + more + e.Rest();
      out := out + more;
      if e.Finished() { break; }
    }
    assert out + [] == out;
    ok := true;
  }

  method DrainSmall(e: SmallExpander, limit: nat, rooms: nat -> nat) returns (ok: bool, out: seq<Byte>)
    requires e.Walking() && e.Reading() && e.saveNblock <= limit && Roomy(rooms)
    modifies e
    ensures ok <==> Complete(e.b, 0)
    ensures ok ==> out == old(e.Rest())
  {
    hide SmallExpander.Walking, SmallExpander.Reading, SmallExpander.Rest, Complete;
    out := [];
    var calls := 0;
    assert [] + e.Rest() == e.Rest();
    while true
      invariant e.Walking() && e.Reading() && out + e.Rest() == old(e.Rest()) && calls >= 0
      decreases |e.Rest()|
    {
      var corrupt, more := e.UnRleToOutputSmall(rooms(calls), limit);
      if corrupt { return false, out; }
      calls := calls + 1;
      assert out + (more + e.Rest()) == out + more + e.Rest();
      out := out + more;
      if e.Finished() { break; }
    }
    assert out + [] == out;
    ok := true;
  }

  /** The FAST table for a block. */
  method OpenFast(tt: array<nat>, unzftab: array<nat>, nblock: nat, origPtr: nat, ghost b: seq<Byte>, ghost fm: seq<int>, ghost l: seq<Byte>)
    returns (e: Expander)
    requires unzftab.Length == 256 && tt != unzftab && Transformed(b, fm, l, origPtr) && nblock == |b| <= tt.Length
    requires forall c :: 0 <= c < 256 ==> unzftab[c] == Count(l, c)
    requires forall k :: 0 <= k < nblock ==> tt[k] == l[k]
    modifies tt
    ensures fresh(e) && fresh(e.reader) && e.Valid() && e.b == b && e.Rest() == Unpacked(b, 0)
  {
    hide SortedBy, RowOf, Inverts, LastColumn, Count, CountBelow, Complete, Unpacked;
    var cftab := new nat[257];
    var ok := BuildCftab(unzftab, cftab, nblock, l);
    ghost var p := SetUpFast(tt, cftab, nblock, l);
    var reader := new FastReader(tt, tt.Length, origPtr);
    e := new Expander(reader, nblock, b, fm, l, origPtr, p);
    e.Start();
  }

  /** The SMALL tables for a block. */
  method OpenSmall(tt: array<nat>, unzftab: array<nat>, nblock: nat, origPtr: nat, limit: nat, ghost b: seq<Byte>, ghost fm: seq<int>, ghost l: seq<Byte>)
    returns (e: SmallExpander)
    requires unzftab.Length == 256 && Transformed(b, fm, l, origPtr) && nblock == |b| <= tt.Length && nblock <= limit && nblock <= 0x100000
    requires forall c :: 0 <= c < 256 ==> unzftab[c] == Count(l, c)
    requires forall k :: 0 <= k < nblock ==> tt[k] == l[k]
    ensures fresh(e) && e.Walking() && e.Reading() && e.saveNblock == nblock && e.b == b && e.Rest() == Unpacked(b, 0)
  {
    hide SortedBy, RowOf, CycleInverts, LastColumn, Count, CountBelow, Complete, Unpacked, SmallExpander.Walking, SmallExpander.Reading, SmallExpander.Rest;
    var store := LowParts(tt, nblock, l);
    var cftab, cftabCopy := new nat[257], new nat[257];
    var ok := BuildCftab(unzftab, cftab, nblock, l);
    for i := 0 to 257
      invariant forall k :: 0 <= k < i ==> cftabCopy[k] == cftab[k]
      invariant forall c :: 0 <= c <= 256 ==> cftab[c] == CountBelow(l, c)
      invariant store.Valid() && forall k :: 0 <= k < nblock ==> store.ll16[k] == l[k]
    {
      cftabCopy[i] := cftab[i];
    }
    ComputeT(store, cftabCopy, nblock, l);
    ghost var c := ReverseCycle(store, nblock, origPtr, l);
    e := new SmallExpander(store, cftab, nblock, origPtr, b, fm, l, c);
    e.Start(limit);
  }

  /** From the code of a block to its text; an error if the block ends before a last count. */
  method ExpandCode(code: Code, nblockMAX: nat, small: bool, rooms: nat -> nat, ghost b: seq<Byte>, ghost fm: seq<int>, ghost l: seq<Byte>)
    returns (ok: bool, out: seq<Byte>)
    requires IsCode(b, fm, l, code) && |b| <= nblockMAX <= LARGEST_BLOCK && Roomy(rooms)
    ensures ok <==> Complete(b, 0)
    ensures ok ==> out == Unpacked(b, 0)
  {
    hide SortedBy, Encode, Decode, UsedBelow, Count, AllIn, LastColumn, Complete, Unpacked, Expander.Valid, Expander.Rest;
    hide SmallExpander.Walking, SmallExpander.Reading, SmallExpander.Rest, Roomy;
    CodeDecodes(b, fm, l, code, nblockMAX);
    var nInUse, seqToUnseq := MakeMapsD(code.inUse);
    NamedBack(l, code.inUse, seqToUnseq[..]);
    var tt, unzftab := new nat[nblockMAX], new nat[256];
    var nblock;
    ok, nblock := DecodeValues(code.syms, seqToUnseq, tt, unzftab, nblockMAX, nInUse + 1);
    assert Written(tt[..], unzftab[..], l);
    if small {
      var e := OpenSmall(tt, unzftab, nblock, code.origPtr, nblockMAX, b, fm, l);
      ok, out := DrainSmall(e, nblockMAX, rooms);
    } else {
      var e := OpenFast(tt, unzftab, nblock, code.origPtr, b, fm, l);
      ok, out := DrainFast(e, rooms);
    }
  }

  /** One block is sent, received and expanded. */
  method OneBlock(b: seq<Byte>, blockSize100k: nat, small: bool, choose: (seq<nat>, nat) -> Choice, rooms: nat -> nat) returns (ok: bool, out: seq<Byte>)
    requires 1 <= blockSize100k <= 9 && 0 < |b| <= 100000 * blockSize100k && Chooses(choose) && Roomy(rooms) && Complete(b, 0)
    ensures ok && out == Unpacked(b, 0)
  {
    hide IsCode, Chooses, Roomy, Complete, Unpacked;
    var block := new Byte[|b|](i requires 0 <= i < |b| => b[i]);
    assert block[..|b|] == b;
    var bytes, got;
    ghost var fm, l;
    ok, bytes, got, fm, l := Transfer(block, |b|, blockSize100k, choose);
    ok, out := ExpandCode(got, 100000 * blockSize100k, small, rooms, b, fm, l);
  }

  /** Blocks that the compressor has closed are complete, and fit. */
  lemma ClosedBlock(c: Compressor, i: nat)
    requires c.Valid() && i < |c.history|
    ensures |c.history[i]| <= c.nblockMAX + 9 && Complete(c.history[i], 0)
  {
    hide Held, Accounted, Sent;
    var b := PackAll(c.closed[i]);
    assert c.history[i] == b && b[0..] == b;
    UnpackPacked(b, 0, c.closed[i]);
  }

  lemma Sizes(c: Compressor)
    requires c.Valid()
    ensures 1 <= c.blockSize100k <= 9 && c.nblockMAX == 100000 * c.blockSize100k - 19
  {
  }

  /**
   * When the compressor has flushed or finished, its blocks, each sent and received with whatever tables and expanded
   * with whatever room, are all that it has taken.
   */
  method Restore(c: Compressor, small: bool, choose: (seq<nat>, nat) -> Choice, rooms: nat -> nat) returns (ok: bool, text: seq<Byte>)
    requires c.Valid() && c.taken == UnpackBlocks(c.history) && Chooses(choose) && Roomy(rooms)
    ensures ok && text == c.taken
  {
    hide Compressor.Valid, Chooses, Roomy, Complete, Unpacked;
    Sizes(c);
    text, ok := [], true;
    assert c.history[..|c.history|] == c.history;
    for i := 0 to |c.history|
      invariant ok && text == UnpackBlocks(c.history[..i])
    {
      assert c.history[..i + 1][..i] == c.history[..i];
      ClosedBlock(c, i);
      var out := [];
      if c.history[i] != [] {
        ok, out := OneBlock(c.history[i], c.blockSize100k, small, choose, rooms);
      } else {
        NoText();
      }
      text := text + out;
    }
  }

  lemma NoText()
    ensures Unpacked([], 0) == []
  {
  }
}
