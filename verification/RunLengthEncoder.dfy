/**
 * The compressor's front end: bytes come in as the caller supplies them, gather into runs, and fill
 * blocks; each finished block is coded and its bytes go out as the caller has room.
 */
module RunLengthEncoder {
  import opened Bytes
  import opened RunLength

  datatype Mode = Idle | Running | Flushing | Finishing
  datatype State = Input | Output
  datatype Action = DoRun | DoFlush | DoFinish
  datatype Status = RunDone | FlushGoesOn | FinishGoesOn | StreamEnd | SequenceError | ParamError

  const NO_CHAR: nat := 256

  /** The text of a list of blocks. */
  function BlocksText(bs: seq<seq<Run>>): seq<Byte> {
    if bs == [] then [] else BlocksText(bs[..|bs| - 1]) + TextOf(bs[|bs| - 1])
  }

  ghost predicate BlocksOk(bs: seq<seq<Run>>, size: nat) {
    forall i :: 0 <= i < |bs| ==> Apart(bs[i]) && |PackAll(bs[i])| <= size
  }

  function PackBlocks(bs: seq<seq<Run>>): (r: seq<seq<Byte>>)
    requires forall i :: 0 <= i < |bs| ==> RunsOk(bs[i])
    ensures |r| == |bs|
  {
    seq(|bs|, i requires 0 <= i < |bs| => PackAll(bs[i]))
  }

  /** The blocks decoded one by one, each from nothing but its own bytes. */
  function UnpackBlocks(bs: seq<seq<Byte>>): seq<Byte> {
    if bs == [] then [] else UnpackBlocks(bs[..|bs| - 1]) + Unpacked(bs[|bs| - 1], 0)
  }

  /** Runs do not straddle blocks: decoding every block by itself gives the whole text. */
  lemma {:induction false} UnpackPackedBlocks(bs: seq<seq<Run>>, size: nat)
    requires BlocksOk(bs, size)
    ensures UnpackBlocks(PackBlocks(bs)) == BlocksText(bs)
  {
    if bs != [] {
      var n := |bs| - 1;
      UnpackPackedBlocks(bs[..n], size);
      assert PackBlocks(bs)[..n] == PackBlocks(bs[..n]);
      var b := PackAll(bs[n]);
      assert b[0..] == b;
      UnpackPacked(b, 0, bs[n]);
    }
  }

  /** What a block in the making holds, and which bytes occur in it. */
  ghost predicate Held(blk: seq<Byte>, used: seq<bool>, runs: seq<Run>) {
    && RunsOk(runs) && blk == PackAll(runs) && |used| == 256
    && forall c: Byte :: used[c] <==> c in blk
  }

  lemma HeldNext(blk: seq<Byte>, used: seq<bool>, runs: seq<Run>, r: Run, used2: seq<bool>)
    requires Held(blk, used, runs) && RunOk(r)
    requires used2 == if r.len < 4 then used[r.ch := true] else used[r.ch := true][r.len - 4 := true]
    ensures Held(blk + Packed(r), used2, runs + [r])
  {
    assert (runs + [r])[..|runs|] == runs;
    forall c: Byte ensures used2[c] <==> c in blk + Packed(r) {
      InPacked(r, c);
    }
  }

  lemma InPacked(r: Run, c: Byte)
    requires RunOk(r)
    ensures c in Packed(r) <==> c == r.ch || (r.len >= 4 && c == r.len - 4)
  {
    assert Packed(r)[0] == r.ch;
    if r.len >= 4 { assert Packed(r)[4] == r.len - 4; }
  }

  /** All output up to and including the last of these blocks. */
  function Delivered(coded: (seq<seq<Byte>>, bool) -> seq<Byte>, blocks: seq<seq<Byte>>, ended: bool): seq<Byte> {
    if blocks == [] then [] else Delivered(coded, blocks[..|blocks| - 1], false) + coded(blocks, ended)
  }

  /** The input taken is the text of the closed blocks, of the open one, and of the run being counted. */
  ghost predicate Accounted(closed: seq<seq<Run>>, runs: seq<Run>, pending: seq<Run>, taken: seq<Byte>) {
    Apart(runs + pending) && taken == BlocksText(closed) + TextOf(runs + pending)
  }

  ghost predicate Recorded(closed: seq<seq<Run>>, history: seq<seq<Byte>>, size: nat) {
    BlocksOk(closed, size) && history == PackBlocks(closed)
  }

  /** The output given and the output waiting are the whole code of the blocks so far. */
  ghost predicate Sent(coded: (seq<seq<Byte>>, bool) -> seq<Byte>, history: seq<seq<Byte>>, ended: bool,
                       given: seq<Byte>, waiting: seq<Byte>) {
    given + waiting == Delivered(coded, history, ended)
  }

  /** Every block that was not closed because the caller asked for it is full. */
  ghost predicate Full(history: seq<seq<Byte>>, asked: set<nat>, most: nat) {
    && (forall i :: i in asked ==> i < |history|)
    && forall i: nat :: i < |history| && i !in asked ==> |history[i]| >= most
  }

  lemma FullNext(history: seq<seq<Byte>>, asked: set<nat>, most: nat, b: seq<Byte>, onRequest: bool)
    requires Full(history, asked, most) && (onRequest || |b| >= most)
    ensures Full(history + [b], if onRequest then asked + {|history|} else asked, most)
  {
  }

  lemma ApartParts(runs: seq<Run>, pending: seq<Run>)
    requires Apart(runs + pending)
    ensures Apart(runs) && (|pending| <= 1 ==> Apart(pending))
  {
    forall i | 0 <= i < |runs| ensures RunOk(runs[i]) {
      assert (runs + pending)[i] == runs[i];
    }
    forall i | 1 <= i < |runs| && runs[i - 1].ch == runs[i].ch ensures runs[i - 1].len == 255 {
      assert (runs + pending)[i - 1] == runs[i - 1] && (runs + pending)[i] == runs[i];
    }
    forall i | 0 <= i < |pending| ensures RunOk(pending[i]) {
      assert (runs + pending)[|runs| + i] == pending[i];
    }
  }

  lemma TextOfParts(runs: seq<Run>, pending: seq<Run>)
    requires |pending| <= 1
    ensures TextOf(runs + pending) == TextOf(runs) + TextOf(pending)
  {
    hide Repeat;
    if pending == [] {
      assert runs + pending == runs;
    } else {
      assert (runs + pending)[..|runs|] == runs && pending[..0] == [];
    }
  }

  lemma CloseBlock(closed: seq<seq<Run>>, runs: seq<Run>, pending: seq<Run>, taken: seq<Byte>,
                   history: seq<seq<Byte>>, blk: seq<Byte>, used: seq<bool>, size: nat)
    requires Accounted(closed, runs, pending, taken) && Recorded(closed, history, size) && |pending| <= 1
    requires Held(blk, used, runs) && |blk| <= size
    ensures Accounted(closed + [runs], [], pending, taken) && Recorded(closed + [runs], history + [blk], size)
  {
    hide Apart, TextOf, PackAll, Recorded;
    assert (closed + [runs])[..|closed|] == closed;
    ApartParts(runs, pending);
    TextOfParts(runs, pending);
    assert [] + pending == pending;
    RecordOne(closed, history, size, runs, blk);
  }

  lemma RecordOne(closed: seq<seq<Run>>, history: seq<seq<Byte>>, size: nat, runs: seq<Run>, blk: seq<Byte>)
    requires Recorded(closed, history, size) && Apart(runs) && blk == PackAll(runs) && |blk| <= size
    ensures Recorded(closed + [runs], history + [blk], size)
  {
    assert BlocksOk(closed + [runs], size);
  }

  lemma SendBlock(coded: (seq<seq<Byte>>, bool) -> seq<Byte>, history: seq<seq<Byte>>, given: seq<Byte>,
                  waiting: seq<Byte>, block: seq<Byte>, last: bool)
    requires Sent(coded, history, false, given, waiting) && waiting == []
    ensures Sent(coded, history + [block], last, given, coded(history + [block], last)[0..])
  {
    assert coded(history + [block], last)[0..] == coded(history + [block], last);
    assert given + [] == given;
    assert (history + [block])[..|history|] == history;
  }

  lemma SendByte(coded: (seq<seq<Byte>>, bool) -> seq<Byte>, history: seq<seq<Byte>>, ended: bool,
                 given: seq<Byte>, zbits: seq<Byte>, pos: nat)
    requires pos < |zbits| && Sent(coded, history, ended, given, zbits[pos..])
    ensures Sent(coded, history, ended, given + [zbits[pos]], zbits[pos + 1..])
  {
    assert given + zbits[pos..] == given + [zbits[pos]] + zbits[pos + 1..];
  }

  lemma HeldNone(blk: seq<Byte>, used: seq<bool>)
    requires blk == [] && |used| == 256 && forall c: Byte :: !used[c]
    ensures Held(blk, used, [])
  {
  }

  lemma LongerRun(closed: seq<seq<Run>>, runs: seq<Run>, ch: Byte, n: nat, taken: seq<Byte>)
    requires Accounted(closed, runs, [Run(ch, n)], taken) && n < 255
    ensures Accounted(closed, runs, [Run(ch, n + 1)], taken + [ch])
  {
    var old_, new_ := runs + [Run(ch, n)], runs + [Run(ch, n + 1)];
    assert old_[..|runs|] == runs && new_[..|runs|] == runs;
    assert Repeat(ch, n + 1) == Repeat(ch, n) + [ch];
    forall i | 0 <= i < |new_| ensures RunOk(new_[i]) {
      if i < |runs| { assert old_[i] == new_[i]; }
    }
    forall i | 1 <= i < |new_| && new_[i - 1].ch == new_[i].ch ensures new_[i - 1].len == 255 {
      assert old_[i - 1] == new_[i - 1] && old_[i].ch == new_[i].ch;
    }
  }

  lemma NewRun(closed: seq<seq<Run>>, runs: seq<Run>, ch: Byte, taken: seq<Byte>)
    requires Accounted(closed, runs, [], taken)
    requires runs != [] && runs[|runs| - 1].ch == ch ==> runs[|runs| - 1].len == 255
    ensures Accounted(closed, runs, [Run(ch, 1)], taken + [ch])
  {
    var new_ := runs + [Run(ch, 1)];
    assert runs + [] == runs;
    assert new_[..|runs|] == runs;
    assert Repeat(ch, 1) == [ch];
    forall i | 1 <= i < |new_| && new_[i - 1].ch == new_[i].ch ensures new_[i - 1].len == 255 {
      assert new_[i - 1] == runs[i - 1];
    }
  }

  lemma RunMoves(closed: seq<seq<Run>>, runs: seq<Run>, pending: seq<Run>, taken: seq<Byte>)
    requires Accounted(closed, runs, pending, taken)
    ensures Accounted(closed, runs + pending, [], taken)
  {
    assert runs + pending + [] == runs + pending;
  }

  /** The next byte either starts a run of its own or lengthens the run being counted. */
  lemma RunMovesOn(closed: seq<seq<Run>>, runs: seq<Run>, pending: seq<Run>, taken: seq<Byte>, ch: Byte)
    requires Accounted(closed, runs, pending, taken) && |pending| <= 1
    requires if pending == [] then runs == [] else pending[0].len <= 255
    ensures pending == [] || pending[0].ch != ch || pending[0].len == 255 ==>
      Accounted(closed, runs + pending, [Run(ch, 1)], taken + [ch])
    ensures pending != [] && pending[0].ch == ch && pending[0].len < 255 ==>
      Accounted(closed, runs, [Run(ch, pending[0].len + 1)], taken + [ch])
  {
    hide Accounted;
    if pending == [] || pending[0].ch != ch || pending[0].len == 255 {
      RunMoves(closed, runs, pending, taken);
      NewRun(closed, runs + pending, ch, taken);
    } else {
      assert pending == [Run(ch, pending[0].len)];
      LongerRun(closed, runs, ch, pending[0].len, taken);
    }
  }

  lemma PackedIs(r: Run)
    requires RunOk(r)
    ensures r.len == 1 ==> Packed(r) == [r.ch]
    ensures r.len == 2 ==> Packed(r) == [r.ch, r.ch]
    ensures r.len == 3 ==> Packed(r) == [r.ch, r.ch, r.ch]
    ensures r.len >= 4 ==> Packed(r) == [r.ch, r.ch, r.ch, r.ch, r.len - 4]
  {
  }

  class Compressor {
    const blockSize100k: nat
    const nblockMAX: nat
    const block: array<Byte>
    const inUse: array<bool>
    /** The code of the last of a list of blocks; the flag marks the end of the stream. */
    const coded: (seq<seq<Byte>>, bool) -> seq<Byte>
    var nblock: nat
    var stateInCh: nat
    var stateInLen: nat
    var mode: Mode
    var state: State
    var history: seq<seq<Byte>>
    var zbits: seq<Byte>
    var stateOutPos: nat
    var availInExpect: nat
    ghost var closed: seq<seq<Run>>
    ghost var runs: seq<Run>
    ghost var taken: seq<Byte>
    ghost var given: seq<Byte>
    ghost var ended: bool
    /** The blocks that a flush or the end closed. */
    ghost var asked: set<nat>

    function Pending(): seq<Run>
      reads this`stateInCh, this`stateInLen
    {
      if stateInCh < 256 then [Run(stateInCh, stateInLen)] else []
    }

    ghost predicate Shape()
      reads this`nblock, this`stateInCh, this`stateInLen, this`stateOutPos, this`zbits
    {
      && 1 <= blockSize100k <= 9 && nblockMAX == 100000 * blockSize100k - 19
      && block.Length == 100000 * blockSize100k && inUse.Length == 256
      && nblock <= nblockMAX + 9 && stateInCh <= NO_CHAR && stateOutPos <= |zbits|
      && (if stateInCh < 256 then 1 <= stateInLen <= 255 else stateInLen == 0)
    }

    ghost predicate Valid()
      reads this, block, inUse
    {
      && Shape()
      && Recorded(closed, history, nblockMAX + 9) && Accounted(closed, runs, Pending(), taken)
      && Full(history, asked, nblockMAX)
      && Sent(coded, history, ended, given, zbits[stateOutPos..])
      && (state == Input ==> Held(block[..nblock], inUse[..], runs) && zbits == [] && !ended && mode != Idle)
      && (state == Output ==> runs == [])
      && (ended ==> (mode == Finishing || mode == Idle) && availInExpect == 0 && stateInCh == NO_CHAR)
      && (mode == Idle ==> ended && stateOutPos == |zbits|) && (ended ==> history != [])
    }

    constructor (blockSize100k: nat, coded: (seq<seq<Byte>>, bool) -> seq<Byte>)
      requires 1 <= blockSize100k <= 9
      ensures Valid() && fresh(block) && fresh(inUse) && this.coded == coded
      ensures taken == given == [] && mode == Running && state == Input && nblock == 0 && asked == {}
    {
      this.blockSize100k, this.coded := blockSize100k, coded;
      nblockMAX := 100000 * blockSize100k - 19;
      block := new Byte[100000 * blockSize100k];
      inUse := new bool[256](i => false);
      nblock, stateInCh, stateInLen := 0, NO_CHAR, 0;
      mode, state, history, zbits, stateOutPos, availInExpect := Running, Input, [], [], 0, 0;
      closed, runs, taken, given, ended, asked := [], [], [], [], false, {};
    }

    method Put(ch: Byte)
      requires nblock < block.Length
      modifies this`nblock, block
      ensures nblock == old(nblock) + 1 && block[..nblock] == old(block[..nblock]) + [ch]
    {
      block[nblock] := ch;
      nblock := nblock + 1;
    }

    method PutRun(ch: Byte, len: nat)
      requires 1 <= len <= 255 && nblock + 5 <= block.Length
      modifies this`nblock, block
      ensures nblock <= old(nblock) + 5
      ensures block[..nblock] == old(block[..nblock]) + Packed(Run(ch, len))
    {
      hide Packed, Repeat;
      ghost var blk := block[..nblock];
      PackedIs(Run(ch, len));
      Put(ch);
      if len == 1 { return; }
      Put(ch);
      assert block[..nblock] == blk + [ch, ch];
      if len == 2 { return; }
      Put(ch);
      assert block[..nblock] == blk + [ch, ch, ch];
      if len == 3 { return; }
      Put(ch);
      Put(len - 4);
      assert block[..nblock] == blk + [ch, ch, ch, ch, len - 4];
    }

    /** The counted run goes to the block. */
    method AddPairToBlock()
      requires Shape() && stateInCh < 256 && nblock <= nblockMAX + 4
      requires Held(block[..nblock], inUse[..], runs)
      modifies this`nblock, this`runs, block, inUse
      ensures runs == old(runs) + [Run(stateInCh, stateInLen)]
      ensures nblock <= old(nblock) + 5 && Held(block[..nblock], inUse[..], runs)
    {
      hide Held, Packed;
      ghost var r := Run(stateInCh, stateInLen);
      ghost var used := inUse[..];
      ghost var blk := block[..nblock];
      inUse[stateInCh] := true;
      if stateInLen >= 4 {
        inUse[stateInLen - 4] := true;
      }
      assert block[..nblock] == blk;
      PutRun(stateInCh, stateInLen);
      HeldNext(blk, used, runs, r, inUse[..]);
      runs := runs + [r];
    }

    method FlushRL()
      requires Valid() && state == Input && nblock <= nblockMAX + 4
      modifies this`nblock, this`runs, this`stateInCh, this`stateInLen, block, inUse
      ensures Valid() && stateInCh == NO_CHAR
    {
      hide Held, Accounted, Recorded, Full, Sent;
      RunMoves(closed, runs, Pending(), taken);
      if stateInCh < 256 {
        AddPairToBlock();
      } else {
        assert runs + [] == runs;
      }
      stateInCh, stateInLen := NO_CHAR, 0;
    }

    /** The common case: a run of one ends. */
    method AddSingle()
      requires Shape() && stateInCh < 256 && stateInLen == 1 && nblock <= nblockMAX + 4
      requires Held(block[..nblock], inUse[..], runs)
      modifies this`nblock, this`runs, block, inUse
      ensures runs == old(runs) + [Run(stateInCh, 1)]
      ensures nblock == old(nblock) + 1 && Held(block[..nblock], inUse[..], runs)
    {
      hide Held, Packed;
      inUse[stateInCh] := true;
      PackedIs(Run(stateInCh, 1));
      HeldNext(block[..nblock], old(inUse[..]), runs, Run(stateInCh, 1), inUse[..]);
      Put(stateInCh);
      runs := runs + [Run(stateInCh, 1)];
    }

    method AddCharToBlock(ch: Byte)
      requires Valid() && state == Input && nblock < nblockMAX && (stateInCh == NO_CHAR ==> runs == [])
      modifies this`nblock, this`runs, this`stateInCh, this`stateInLen, this`taken, block, inUse
      ensures Valid() && stateInCh < 256
      ensures taken == old(taken) + [ch] && nblock <= old(nblock) + 5
    {
      hide Held, Accounted, Recorded, Full, Sent;
      RunMovesOn(closed, runs, Pending(), taken, ch);
      assert runs == [] ==> runs + [] == runs;
      if ch != stateInCh && stateInLen == 1 {
        AddSingle();
        stateInCh := ch;
      } else if ch != stateInCh || stateInLen == 255 {
        if stateInCh < 256 {
          AddPairToBlock();
        }
        stateInCh := ch;
        stateInLen := 1;
      } else {
        stateInLen := stateInLen + 1;
      }
      taken := taken + [ch];
    }

    method ClearInUse()
      requires inUse.Length == 256
      modifies inUse
      ensures forall c :: 0 <= c < 256 ==> !inUse[c]
    {
      var i := 0;
      while i < 256
        invariant i <= 256
        invariant forall c :: 0 <= c < i ==> !inUse[c]
      {
        inUse[i] := false;
        i := i + 1;
      }
    }

    method PrepareNewBlock()
      requires Valid() && state == Output && stateOutPos == |zbits| && !ended && mode != Idle
      modifies this`nblock, this`zbits, this`stateOutPos, this`state, inUse
      ensures Valid() && nblock == 0 && state == Input
    {
      hide Held, Accounted, Recorded, Full, Sent;
      assert given + zbits[stateOutPos..] == given + [];
      nblock, zbits, stateOutPos := 0, [], 0;
      ClearInUse();
      HeldNone(block[..0], inUse[..]);
      state := Input;
    }

    /** The block is coded and waits to be delivered. */
    method CompressBlock(last: bool, ghost onRequest: bool)
      requires Valid() && state == Input && (last ==> stateInCh == NO_CHAR && mode == Finishing && availInExpect == 0)
      requires onRequest || nblock >= nblockMAX
      modifies this`closed, this`runs, this`history, this`zbits, this`stateOutPos, this`state, this`ended, this`asked
      ensures Valid() && state == Output && closed == old(closed) + [old(runs)] && ended == last
      ensures history == old(history) + [block[..nblock]]
      ensures asked == if onRequest then old(asked) + {|history| - 1} else old(asked)
    {
      hide Valid, Held, Accounted, Recorded, Full, Sent, Delivered, PackAll, TextOf;
      RecordBlock(last, onRequest);
      zbits, stateOutPos, state := coded(history, last), 0, Output;
      Opened();
    }

    /** The block joins those that are closed. */
    method RecordBlock(last: bool, ghost onRequest: bool)
      requires Valid() && state == Input && (last ==> stateInCh == NO_CHAR && mode == Finishing && availInExpect == 0)
      requires onRequest || nblock >= nblockMAX
      modifies this`closed, this`runs, this`history, this`ended, this`asked
      ensures Shape() && mode != Idle && runs == [] && ended == last && closed == old(closed) + [old(runs)] && history != []
      ensures Recorded(closed, history, nblockMAX + 9) && Accounted(closed, runs, Pending(), taken)
      ensures Sent(coded, history, ended, given, coded(history, last)[0..])
      ensures history == old(history) + [block[..nblock]] && Full(history, asked, nblockMAX)
      ensures asked == if onRequest then old(asked) + {|history| - 1} else old(asked)
    {
      hide Valid, Held, Accounted, Recorded, Full, Sent, Delivered, PackAll, TextOf;
      Closes(last, onRequest, if nblock <= block.Length then block[..nblock] else []);
      asked := if onRequest then asked + {|history|} else asked;
      closed, runs, ended := closed + [runs], [], last;
      history := history + [block[..nblock]];
    }

    lemma Closes(last: bool, onRequest: bool, b: seq<Byte>)
      requires Valid() && state == Input && (onRequest || nblock >= nblockMAX)
      requires nblock <= block.Length ==> b == block[..nblock]
      ensures Shape() && mode != Idle && Accounted(closed + [runs], [], Pending(), taken)
      ensures Recorded(closed + [runs], history + [b], nblockMAX + 9)
      ensures Sent(coded, history + [b], last, given, coded(history + [b], last)[0..])
      ensures Full(history + [b], if onRequest then asked + {|history|} else asked, nblockMAX)
    {
      hide Held, Accounted, Recorded, Full, Sent, Delivered, PackAll, TextOf;
      FullNext(history, asked, nblockMAX, b, onRequest);
      CloseBlock(closed, runs, Pending(), taken, history, b, inUse[..], nblockMAX + 9);
      SendBlock(coded, history, given, zbits[stateOutPos..], b, last);
    }

    lemma Opened()
      requires Shape() && state == Output && runs == [] && mode != Idle
      requires Recorded(closed, history, nblockMAX + 9) && Accounted(closed, runs, Pending(), taken)
      requires Full(history, asked, nblockMAX) && Sent(coded, history, ended, given, zbits[stateOutPos..]) && history != []
      requires ended ==> mode == Finishing && availInExpect == 0 && stateInCh == NO_CHAR
      ensures Valid()
    {
      hide Held, Accounted, Recorded, Full, Sent;
    }

    method CopyInputUntilStop(input: seq<Byte>) returns (used: nat)
      requires Valid() && state == Input && nblock < nblockMAX && (stateInCh == NO_CHAR ==> runs == [])
      requires mode != Running ==> availInExpect == |input|
      modifies this`nblock, this`runs, this`stateInCh, this`stateInLen, this`taken, this`availInExpect, block, inUse
      ensures Valid() && nblock <= nblockMAX + 4 && (stateInCh == NO_CHAR ==> runs == [])
      ensures used <= |input| && taken == old(taken) + input[..used]
      ensures nblock < nblockMAX ==> used == |input|
      ensures nblock >= nblockMAX ==> used > 0
      ensures used > 0 ==> stateInCh < 256
      ensures mode != Running ==> availInExpect == |input| - used
    {
      hide Held, Accounted, Recorded, Full, Sent;
      used := 0;
      while true
        invariant Valid() && nblock <= nblockMAX + 4 && (stateInCh == NO_CHAR ==> runs == [])
        invariant used <= |input| && taken == old(taken) + input[..used]
        invariant if used == 0 then nblock < nblockMAX else stateInCh < 256
        invariant mode != Running ==> availInExpect == |input| - used
        decreases |input| - used
      {
        if nblock >= nblockMAX || used == |input| || (mode != Running && availInExpect == 0) {
          break;
        }
        AddCharToBlock(input[used]);
        used := used + 1;
        if mode != Running {
          availInExpect := availInExpect - 1;
        }
      }
    }

    method CopyOutputUntilStop(availOut: nat) returns (out: seq<Byte>)
      requires Valid() && state == Output && mode != Idle
      modifies this`stateOutPos, this`given
      ensures Valid() && given == old(given) + out && |out| <= availOut
      ensures stateOutPos == old(stateOutPos) + |out|
      ensures |out| == availOut || stateOutPos == |zbits|
    {
      hide Held, Accounted, Recorded, Full, Sent;
      out := [];
      while |out| < availOut && stateOutPos < |zbits|
        invariant Valid() && given == old(given) + out && |out| <= availOut
        invariant stateOutPos == old(stateOutPos) + |out|
        decreases availOut - |out|
      {
        SendByte(coded, history, ended, given, zbits, stateOutPos);
        out := out + [zbits[stateOutPos]];
        given := given + [zbits[stateOutPos]];
        stateOutPos := stateOutPos + 1;
      }
    }

    predicate IsEmptyRL()
      reads this
    {
      !(stateInCh < 256 && stateInLen > 0)
    }

    /** Between calls: the open block is not full and has no run behind it that is not counted. */
    ghost predicate Ready()
      reads this, block, inUse
    {
      && Valid() && (state == Input ==> nblock < nblockMAX && (stateInCh == NO_CHAR ==> runs == []))
      && (state == Output && stateInCh == NO_CHAR ==> ended || mode == Flushing)
    }

    /** Nothing is left to take and no run is open: the flush or the finish has been carried out. */
    predicate Settled()
      reads this
    {
      mode != Running && availInExpect == 0 && stateInCh == NO_CHAR
    }

    method OutputStep(room: nat) returns (more: seq<Byte>, stop: bool)
      requires Ready() && mode != Idle
      modifies this`stateOutPos, this`given, this`nblock, this`zbits, this`state, inUse
      ensures Ready() && given == old(given) + more && |more| <= room
      ensures !stop ==> state == Input && (old(state) == Input || !Settled())
      ensures stop && stateOutPos == |zbits| ==> Settled() && (if mode == Finishing then ended else state == Input)
      ensures stop && (mode == Running || stateOutPos != |zbits|) ==> |more| == room
    {
      hide Held, Accounted, Recorded, Full, Sent;
      more, stop := [], false;
      if state == Output {
        more := CopyOutputUntilStop(room);
        if stateOutPos < |zbits| { return more, true; }
        if mode == Finishing && availInExpect == 0 && IsEmptyRL() { return more, true; }
        PrepareNewBlock();
        stop := mode == Flushing && availInExpect == 0 && IsEmptyRL();
      }
    }

    method InputStep(input: seq<Byte>) returns (used: nat, stop: bool)
      requires Ready() && state == Input && (mode != Running ==> availInExpect == |input|)
      modifies this, block, inUse
      ensures Ready() && mode == old(mode) && given == old(given)
      ensures used <= |input| && taken == old(taken) + input[..used]
      ensures mode != Running ==> availInExpect == |input| - used
      ensures if stop then mode == Running && used == |input| else state == Output && (used > 0 || Settled())
      ensures old(history) <= history
      ensures asked == old(asked) || (Settled() && state == Output && |history| > |old(history)| && asked == old(asked) + {|history| - 1})
    {
      hide Held, Accounted, Recorded, Full, Sent;
      used := CopyInputUntilStop(input);
      stop := false;
      if mode != Running && availInExpect == 0 {
        FlushRL();
        CompressBlock(mode == Finishing, true);
      } else if nblock >= nblockMAX {
        CompressBlock(false, false);
      } else {
        stop := true;
      }
    }

    /** Of the blocks closed since, at most the last was asked for: by a flush or the end, once all its input was taken. */
    ghost predicate OnlyLastAsked(before: seq<seq<Byte>>, askedBefore: set<nat>)
      reads this
    {
      before <= history && (asked == askedBefore || (Settled() && |history| > |before| && asked == askedBefore + {|history| - 1}))
    }

    method HandleCompress(input: seq<Byte>, availOut: nat) returns (used: nat, out: seq<Byte>, progress: bool)
      requires Ready() && mode != Idle && (mode != Running ==> availInExpect == |input|)
      modifies this, block, inUse
      ensures Ready() && mode == old(mode) && progress == (used > 0 || |out| > 0)
      ensures used <= |input| && taken == old(taken) + input[..used]
      ensures |out| <= availOut && given == old(given) + out
      ensures mode != Running ==> availInExpect == |input| - used
      ensures mode == Running ==> used == |input| || |out| == availOut
      ensures mode != Running ==> |out| == availOut || (Settled() && stateOutPos == |zbits|)
      ensures Settled() && stateOutPos == |zbits| && mode == Finishing ==> ended
      ensures Settled() && stateOutPos == |zbits| && mode == Flushing ==> state == Input
      ensures OnlyLastAsked(old(history), old(asked)) && Full(history, asked, nblockMAX)
    {
      hide Valid, Full;
      used, out := 0, [];
      while true
        invariant Ready() && mode == old(mode)
        invariant used <= |input| && taken == old(taken) + input[..used]
        invariant |out| <= availOut && given == old(given) + out
        invariant mode != Running ==> availInExpect == |input| - used
        invariant OnlyLastAsked(old(history), old(asked)) && (asked != old(asked) ==> state == Output)
        decreases |input| - used, if Settled() && state == Output then 0 else 1
      {
        var more, stop := OutputStep(availOut - |out|);
        out := out + more;
        if stop { break; }
        var n;
        n, stop := InputStep(input[used..]);
        assert input[used..][..n] == input[used..used + n];
        used := used + n;
        if stop { break; }
      }
      progress := used > 0 || |out| > 0;
      FullNow();
    }

    lemma FullNow()
      requires Valid()
      ensures Full(history, asked, nblockMAX)
    {
      hide Held, Accounted, Recorded, Full, Sent;
    }

    method Begin(m: Mode, availIn: nat)
      requires Ready() && mode == Running && (m == Flushing || m == Finishing)
      modifies this`mode, this`availInExpect
      ensures Ready() && mode == m && availInExpect == availIn
    {
      hide Shape, Held, Accounted, Recorded, Sent;
      availInExpect, mode := availIn, m;
    }

    lemma AllClosed()
      requires Valid() && stateInCh == NO_CHAR && runs == [] && stateOutPos == |zbits|
      ensures taken == UnpackBlocks(history) && given == Delivered(coded, history, ended)
    {
      assert runs + Pending() == [];
      UnpackPackedBlocks(closed, nblockMAX + 9);
      assert given + zbits[stateOutPos..] == given;
    }

    method End()
      requires Ready() && (mode == Flushing || mode == Finishing) && Settled() && stateOutPos == |zbits|
      requires if mode == Finishing then ended else state == Input
      modifies this`mode
      ensures Ready() && mode == if old(mode) == Flushing then Running else Idle
      ensures given == Delivered(coded, history, ended) && taken == UnpackBlocks(history)
      ensures mode == Idle ==> ended
    {
      hide Held, Accounted, Recorded, Full, Sent;
      AllClosed();
      mode := if mode == Flushing then Running else Idle;
    }

    /** A call that flushes or finishes, as far as the room goes. */
    method GoOn(input: seq<Byte>, availOut: nat) returns (status: Status, used: nat, out: seq<Byte>)
      requires Ready() && (mode == Flushing || mode == Finishing) && availInExpect == |input|
      modifies this, block, inUse
      ensures Ready() && used <= |input| && |out| <= availOut
      ensures taken == old(taken) + input[..used] && given == old(given) + out
      ensures match status
        case StreamEnd => old(mode) == Finishing && mode == Idle && ended
        case RunDone => old(mode) == Flushing && mode == Running
        case SequenceError => mode == old(mode) == Finishing && used == 0 && out == []
        case FlushGoesOn => mode == old(mode) == Flushing && |out| == availOut
        case FinishGoesOn => mode == old(mode) == Finishing && |out| == availOut
        case ParamError => false
      ensures status == StreamEnd || status == RunDone ==> given == Delivered(coded, history, ended) && taken == UnpackBlocks(history)
      ensures Full(history, asked, nblockMAX) && old(history) <= history
      ensures asked == old(asked) || (|history| > |old(history)| && asked == old(asked) + {|history| - 1})
    {
      hide Valid, Full, Delivered, UnpackBlocks;
      var progress;
      used, out, progress := HandleCompress(input, availOut);
      if mode == Finishing && !progress {
        return SequenceError, used, out;
      }
      StateShape();
      if availInExpect > 0 || !IsEmptyRL() || stateOutPos < |zbits| {
        status := if mode == Flushing then FlushGoesOn else FinishGoesOn;
        return;
      }
      status := if mode == Flushing then RunDone else StreamEnd;
      End();
    }

    /** One call of the compressor, with whatever input and output room the caller has. */
    method Compress(action: Action, input: seq<Byte>, availOut: nat) returns (status: Status, used: nat, out: seq<Byte>)
      requires Ready()
      modifies this, block, inUse
      ensures Ready() && used <= |input| && |out| <= availOut
      ensures taken == old(taken) + input[..used] && given == old(given) + out
      ensures status == StreamEnd ==> mode == Idle && ended
      ensures status == RunDone && action == DoRun ==> used == |input| || |out| == availOut
      ensures status == FlushGoesOn || status == FinishGoesOn ==> |out| == availOut
      ensures status == SequenceError ==>
        old(mode) == Idle || (mode == Finishing && used == 0 && out == []) ||
        (old(mode) != Running && (old(availInExpect) != |input| || action != if old(mode) == Flushing then DoFlush else DoFinish))
      ensures status == ParamError ==> old(mode) == Running && action == DoRun && used == 0 && out == []
      ensures old(mode) == Idle ==> status == SequenceError
      ensures (status == StreamEnd || (status == RunDone && action == DoFlush)) ==>
        given == Delivered(coded, history, ended) && taken == UnpackBlocks(history)
      ensures Full(history, asked, nblockMAX) && old(history) <= history && (action == DoRun ==> asked == old(asked))
      ensures asked == old(asked) || (|history| > |old(history)| && asked == old(asked) + {|history| - 1})
    {
      hide Valid, Full, Delivered, UnpackBlocks;
      FullNow();
      if mode == Idle { return SequenceError, 0, []; }
      if mode == Running {
        if action == DoRun {
          var progress;
          used, out, progress := HandleCompress(input, availOut);
          status := if progress then RunDone else ParamError;
          return;
        }
        Begin(if action == DoFlush then Flushing else Finishing, |input|);
      }
      if action != (if mode == Flushing then DoFlush else DoFinish) || availInExpect != |input| {
        return SequenceError, 0, [];
      }
      status, used, out := GoOn(input, availOut);
    }

    lemma StateShape()
      requires Ready()
      ensures stateOutPos <= |zbits| && (IsEmptyRL() <==> stateInCh == NO_CHAR)
    {
    }
  }
}
