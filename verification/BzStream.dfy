/**
 * Whole bzip2 streams: header, blocks with their check sums, trailer. What a finished compressor has given out is
 * decompressed to what it took.
 */
module BzStream {
  import opened Bytes
  import opened Bits
  import opened BitStream
  import opened HuffmanCodes
  import opened HuffmanCoding
  import opened RunLength
  import opened RunLengthEncoder
  import opened RunLengthDecoder
  import opened BlockCoding
  import opened BlockStream
  import opened BlockText

  const BLOCK_MAGIC: seq<Byte> := [0x31, 0x41, 0x59, 0x26, 0x53, 0x59]
  const END_MAGIC: seq<Byte> := [0x17, 0x72, 0x45, 0x38, 0x50, 0x90]

  function Header(level: nat): seq<Byte>
    requires 1 <= level <= 9
  {
    [0x42, 0x5a, 0x68, 0x30 + level]
  }

  /** The check sum of a text, and that of the sum so far with the next block's. */
  datatype Sums = Sums(block: seq<Byte> -> nat, both: (nat, nat) -> nat)

  ghost predicate Sound(sums: Sums) {
    && (forall s :: sums.block(s) < 0x1_0000_0000) && (forall a: nat, b: nat :: sums.both(a, b) < 0x1_0000_0000)
  }

  /** How a block is sent: its code, and the tables chosen for it. */
  datatype Sending = Sending(code: Code, lens: seq<seq<nat>>, selector: seq<Byte>)

  ghost predicate Sends(b: seq<Byte>, x: Sending) {
    Sendable(x.code, x.lens, x.selector) && exists fm, l :: IsCode(b, fm, l, x.code)
  }

  ghost predicate AllSend(h: seq<seq<Byte>>, xs: seq<Sending>) {
    |xs| == |h| && forall i :: 0 <= i < |h| && h[i] != [] ==> Sends(h[i], xs[i])
  }

  ghost function SumBits(v: nat): seq<bool> { BytesBits(BigEndian(v, 4)) }

  /** A block: magic, the check sum v, and its bits; nothing if it is empty. */
  ghost function Part(b: seq<Byte>, x: Sending, v: nat): seq<bool>
    requires b != [] ==> Sends(b, x)
  {
    if b == [] then [] else BytesBits(BLOCK_MAGIC) + (SumBits(v) + BlockBits(x.code, x.lens, x.selector))
  }

  /** The check sum of a block's text. */
  function TextSum(b: seq<Byte>, sums: Sums): nat { sums.block(Unpacked(b, 0)) }

  ghost function TextSums(h: seq<seq<Byte>>, sums: Sums): (vs: seq<nat>)
    ensures |vs| == |h|
  {
    seq(|h|, i requires 0 <= i < |h| => TextSum(h[i], sums))
  }

  /** The check sum of all blocks. */
  function Combined(h: seq<seq<Byte>>, sums: Sums): nat {
    if h == [] then 0 else
    var before, b := Combined(h[..|h| - 1], sums), h[|h| - 1];
    if b == [] then before else sums.both(before, sums.block(Unpacked(b, 0)))
  }

  /** The blocks from the i-th on, with the check sums vs. */
  ghost function Blocks(h: seq<seq<Byte>>, xs: seq<Sending>, vs: seq<nat>, i: nat): seq<bool>
    requires AllSend(h, xs) && |vs| == |h| && i <= |h|
    decreases |h| - i
  {
    if i == |h| then [] else Part(h[i], xs[i], vs[i]) + Blocks(h, xs, vs, i + 1)
  }

  ghost function Trailer(total: nat): seq<bool> {
    BytesBits(END_MAGIC) + SumBits(total)
  }

  /** The bits of a stream up to the last block sent. */
  ghost function SoFar(h: seq<seq<Byte>>, xs: seq<Sending>, sums: Sums, level: nat): seq<bool>
    requires AllSend(h, xs) && 1 <= level <= 9
  {
    if h == [] then [] else BytesBits(Header(level)) + Blocks(h, xs, TextSums(h, sums), 0)
  }

  /** All bits of a stream that states these check sums. */
  ghost function StreamWith(h: seq<seq<Byte>>, xs: seq<Sending>, vs: seq<nat>, total: nat, level: nat): seq<bool>
    requires AllSend(h, xs) && |vs| == |h| && 1 <= level <= 9
  {
    BytesBits(Header(level)) + (Blocks(h, xs, vs, 0) + Trailer(total))
  }

  /** All bits of a stream. */
  ghost function Stream(h: seq<seq<Byte>>, xs: seq<Sending>, sums: Sums, level: nat): seq<bool>
    requires AllSend(h, xs) && 1 <= level <= 9
  {
    StreamWith(h, xs, TextSums(h, sums), Combined(h, sums), level)
  }

  lemma {:induction false} BlocksSnoc(h: seq<seq<Byte>>, xs: seq<Sending>, vs: seq<nat>, b: seq<Byte>, x: Sending, v: nat, i: nat)
    requires AllSend(h, xs) && |vs| == |h| && i <= |h| && (b != [] ==> Sends(b, x))
    ensures AllSend(h + [b], xs + [x])
    ensures Blocks(h + [b], xs + [x], vs + [v], i) == Blocks(h, xs, vs, i) + Part(b, x, v)
    decreases |h| - i
  {
    hide Part, Sends;
    if i < |h| {
      BlocksSnoc(h, xs, vs, b, x, v, i + 1);
      Joins(Part(h[i], xs[i], vs[i]), Blocks(h, xs, vs, i + 1), Part(b, x, v));
    } else {
      assert Blocks(h + [b], xs + [x], vs + [v], i) == Part(b, x, v) + [];
    }
  }

  lemma TextSumsNext(h: seq<seq<Byte>>, b: seq<Byte>, sums: Sums)
    ensures TextSums(h + [b], sums) == TextSums(h, sums) + [sums.block(Unpacked(b, 0))]
  {
    hide Unpacked;
  }

  // ---------------------------------------------------------------- compressing

  lemma ByteFits(b: Byte)
    ensures b < Pow2(8)
  {
    Eights();
  }

  method PutBytes(w: BitWriter, s: seq<Byte>)
    requires w.Valid()
    modifies w
    ensures w.Valid() && w.Bits() == old(w.Bits()) + BytesBits(s)
  {
    hide BitWriter.Valid, BitWriter.Bits, BitsOf, Pow2;
    assert BytesBits([]) == [] && w.Bits() + [] == w.Bits();
    for i := 0 to |s|
      invariant w.Valid() && w.Bits() == old(w.Bits()) + BytesBits(s[..i])
    {
      ByteFits(s[i]);
      Eight();
      w.W(8, s[i]);
      assert s[..i + 1] == s[..i] + [s[i]];
      BytesSnoc(s[..i], s[i]);
      Joins(old(w.Bits()), BytesBits(s[..i]), BitsOf(s[i], 8));
    }
    assert s[..|s|] == s;
  }

  lemma Eight()
    ensures 8 <= 24
  {
  }

  /** The part of the compressor's state that lasts from block to block. */
  class BlockWriter {
    const level: nat
    const sums: Sums
    const w: BitWriter
    var blockNo: nat
    var combinedCRC: nat
    ghost var h: seq<seq<Byte>>
    ghost var xs: seq<Sending>

    ghost predicate Valid()
      reads this, w
    {
      && 1 <= level <= 9 && Sound(sums) && w.Valid() && AllSend(h, xs) && blockNo == |h| + 1
      && combinedCRC == Combined(h, sums) && w.Bits() == SoFar(h, xs, sums, level)
    }

    constructor (level: nat, sums: Sums)
      requires 1 <= level <= 9 && Sound(sums)
      ensures Valid() && h == [] && xs == [] && fresh(w) && this.level == level && this.sums == sums
    {
      this.level, this.sums, blockNo, combinedCRC := level, sums, 1, 0;
      h, xs := [], [];
      w := new BitWriter();
    }

    /**
     * One block of nblock bytes, none if nothing was taken since the last; the header before the first, the trailer
     * and the last bits after the last.
     */
    method CompressBlock(block: array<Byte>, nblock: nat, last: bool, choose: (seq<nat>, nat) -> Choice) returns (ghost pad: seq<bool>)
      requires Valid() && nblock <= block.Length && nblock <= 100000 * level && Chooses(choose)
      modifies this`blockNo, this`combinedCRC, this`h, this`xs, w, block
      ensures block[..nblock] == old(block[..nblock]) && h == old(h) + [old(block[..nblock])]
      ensures |xs| == |old(xs)| + 1 && AllSend(h, xs) && combinedCRC == Combined(h, sums) && blockNo == |h| + 1
      ensures !last ==> Valid()
      ensures last ==> BytesBits(w.out) == Stream(h, xs, sums, level) + pad && |pad| < 8
    {
      hide Chooses, BitWriter.Valid, BitWriter.Bits, BytesBits, Blocks, Part, Combined, AllSend, Sends, TextSums, Unpacked;
      ghost var b, x := block[..nblock], Sending(NO_CODE, [], []);
      ghost var h0, xs0 := h, xs;
      FirstBits(h, xs, sums, level);
      if nblock > 0 {
        combinedCRC := sums.both(combinedCRC, BlockSum(block, nblock));
      }
      if blockNo == 1 {
        PutBytes(w, Header(level));
      }
      ghost var vs, v := TextSums(h, sums), sums.block(Unpacked(b, 0));
      ghost var bits := BytesBits(Header(level)) + Blocks(h, xs, vs, 0);
      assert w.Bits() == bits;
      if nblock > 0 {
        x := SendWhole(block, nblock, choose, b);
      } else {
        NoPart(b, x, v, bits);
      }
      BlocksSnoc(h, xs, vs, b, x, v, 0);
      TextSumsNext(h, b, sums);
      CombinedNext(h, b, sums);
      Joins(BytesBits(Header(level)), Blocks(h, xs, vs, 0), Part(b, x, v));
      h, xs, blockNo := h + [b], xs + [x], blockNo + 1;
      pad := [];
      if last {
        pad := Close();
      }
    }

    /** The check sum of the text that the block stands for. */
    function BlockSum(block: array<Byte>, nblock: nat): nat
      requires nblock <= block.Length
      reads block
    {
      sums.block(Unpacked(block[..nblock], 0))
    }

    /** Magic, check sum and bits of a block. */
    method SendWhole(block: array<Byte>, nblock: nat, choose: (seq<nat>, nat) -> Choice, ghost b: seq<Byte>) returns (ghost x: Sending)
      requires 1 <= level <= 9 && Sound(sums) && w.Valid()
      requires 0 < nblock <= block.Length && nblock <= 100000 * level && Chooses(choose) && b == block[..nblock]
      modifies w, block
      ensures Sends(b, x) && w.Valid() && w.Bits() == old(w.Bits()) + Part(b, x, sums.block(Unpacked(b, 0))) && block[..nblock] == b
    {
      hide Chooses, IsCode, Suits, Sendable, BlockBits, BitWriter.Valid, BitWriter.Bits, BytesBits, UsedBelow, LensOk, Fits,
        TableFor, CodeOf, Sound;
      ghost var bits, fm, l;
      bits := w.Bits();
      var crc := BlockSum(block, nblock);
      PutBytes(w, BLOCK_MAGIC);
      PutBytes(w, BigEndian(crc, 4));
      var code;
      code, fm, l := BlockCoding.CompressBlock(block, nblock);
      CodeRange(b, fm, l, code);
      var nInUse, unseqToSeq := MakeMapsE(code.inUse);
      var choice := choose(code.syms, nInUse + 2);
      ChoiceSuits(choose, code.syms, nInUse + 2);
      SuitsFor(choice, nInUse + 2, |code.syms|);
      var lens, codes, tables := MakeTables(choice.freqs);
      CodeSends(b, fm, l, code, choice, lens);
      BlockStream.SendBlock(w, code, lens, codes, choice.selector);
      x := Sending(code, lens, choice.selector);
      Joins(bits, BytesBits(BLOCK_MAGIC), SumBits(crc));
      Joins(bits, BytesBits(BLOCK_MAGIC) + SumBits(crc), BlockBits(code, lens, choice.selector));
      Joins(BytesBits(BLOCK_MAGIC), SumBits(crc), BlockBits(code, lens, choice.selector));
    }

    /** The trailer, and the bits that fill the last byte. */
    method Close() returns (ghost pad: seq<bool>)
      requires 1 <= level <= 9 && w.Valid() && AllSend(h, xs) && h != [] && combinedCRC == Combined(h, sums)
      requires w.Bits() == SoFar(h, xs, sums, level)
      modifies w
      ensures BytesBits(w.out) == Stream(h, xs, sums, level) + pad && |pad| < 8
    {
      hide BitWriter.Valid, BitWriter.Bits, BytesBits, Blocks, Combined, AllSend, TextSums;
      ghost var bits, parts := BytesBits(Header(level)), Blocks(h, xs, TextSums(h, sums), 0);
      PutBytes(w, END_MAGIC);
      PutBytes(w, BigEndian(combinedCRC, 4));
      Joins(bits + parts, BytesBits(END_MAGIC), SumBits(combinedCRC));
      Joins(bits, parts, Trailer(combinedCRC));
      pad := w.Finish();
    }
  }

  lemma FirstBits(h: seq<seq<Byte>>, xs: seq<Sending>, sums: Sums, level: nat)
    requires AllSend(h, xs) && 1 <= level <= 9
    ensures h == [] ==> SoFar(h, xs, sums, level) == [] && Blocks(h, xs, TextSums(h, sums), 0) == []
    ensures h != [] ==> SoFar(h, xs, sums, level) == BytesBits(Header(level)) + Blocks(h, xs, TextSums(h, sums), 0)
  {
  }

  lemma NoPart(b: seq<Byte>, x: Sending, v: nat, bits: seq<bool>)
    requires b == []
    ensures Part(b, x, v) == [] && bits + Part(b, x, v) == bits
  {
  }

  lemma CombinedNext(h: seq<seq<Byte>>, b: seq<Byte>, sums: Sums)
    ensures Combined(h + [b], sums) ==
            if b == [] then Combined(h, sums) else sums.both(Combined(h, sums), sums.block(Unpacked(b, 0)))
  {
    assert (h + [b])[..|h|] == h;
  }

  lemma ChoiceSuits(choose: (seq<nat>, nat) -> Choice, syms: seq<nat>, alphaSize: nat)
    requires Chooses(choose) && 3 <= alphaSize <= MAX_ALPHA_SIZE && |syms| <= LARGEST_BLOCK + 1
    ensures Suits(choose(syms, alphaSize), alphaSize, |syms|)
  {
    hide Suits;
  }

  // ---------------------------------------------------------------- decompressing

  /** Bytes read one after the other. */
  method GetBytes(r: BitReader, n: nat, ghost s: seq<Byte>, ghost after: seq<bool>) returns (ok: bool, x: seq<Byte>)
    requires r.Valid() && |s| == n && r.Bits() == BytesBits(s) + after
    modifies r`next, r`bsBuff, r`bsLive
    ensures ok && x == s && r.Valid() && r.Bits() == after
  {
    hide BitReader.Valid, BitReader.Bits, BitsOf, BytesBits, Pow2;
    x, ok := [], true;
    assert s[0..] == s;
    for i := 0 to n
      invariant ok && x == s[..i] && r.Valid() && r.Bits() == BytesBits(s[i..]) + after
    {
      BytesFirst(s[i..]);
      assert s[i..][1..] == s[i + 1..];
      Joins(BitsOf(s[i], 8), BytesBits(s[i + 1..]), after);
      ByteFits(s[i]);
      var v: nat;
      ok, v := GetNumber(r, 8, s[i], BytesBits(s[i + 1..]) + after);
      x := x + [v];
    }
    NoBytes(after);
    assert s[n..] == [];
  }

  lemma NoBytes(after: seq<bool>)
    ensures BytesBits([]) + after == after
  {
  }

  method GetSum(r: BitReader, ghost v: nat, ghost after: seq<bool>) returns (ok: bool, x: nat)
    requires r.Valid() && v < 0x1_0000_0000 && r.Bits() == SumBits(v) + after
    modifies r`next, r`bsBuff, r`bsLive
    ensures ok && x == v && r.Valid() && r.Bits() == after
  {
    hide BitReader.Valid, BitReader.Bits, BytesBits;
    var s;
    FourBytes();
    ok, s := GetBytes(r, 4, BigEndian(v, 4), after);
    x := Num(s);
  }

  lemma FourBytes()
    ensures Pow256(4) == 0x1_0000_0000
  {
    assert Pow256(1) == 256 && Pow256(2) == 0x1_0000;
  }

  /** From the i-th block on, the first that is not empty. */
  lemma {:induction false} SkipEmpty(h: seq<seq<Byte>>, xs: seq<Sending>, vs: seq<nat>, sums: Sums, i: nat) returns (j: nat)
    requires AllSend(h, xs) && |vs| == |h| && i <= |h|
    ensures i <= j <= |h| && (j < |h| ==> h[j] != []) && Blocks(h, xs, vs, j) == Blocks(h, xs, vs, i)
    ensures forall k :: i <= k < j ==> h[k] == []
    ensures UnpackBlocks(h[..j]) == UnpackBlocks(h[..i]) && Combined(h[..j], sums) == Combined(h[..i], sums)
    decreases |h| - i
  {
    hide AllSend, Blocks, Combined, UnpackBlocks;
    j := i;
    if i < |h| && h[i] == [] {
      j := SkipEmpty(h, xs, vs, sums, i + 1);
      EmptySkipped(h, xs, vs, sums, i);
    }
  }

  lemma EmptySkipped(h: seq<seq<Byte>>, xs: seq<Sending>, vs: seq<nat>, sums: Sums, i: nat)
    requires AllSend(h, xs) && |vs| == |h| && i < |h| && h[i] == []
    ensures Blocks(h, xs, vs, i + 1) == Blocks(h, xs, vs, i)
    ensures UnpackBlocks(h[..i + 1]) == UnpackBlocks(h[..i]) && Combined(h[..i + 1], sums) == Combined(h[..i], sums)
  {
    hide Sends, Combined, UnpackBlocks;
    assert h[..i + 1] == h[..i] + [h[i]];
    CombinedNext(h[..i], h[i], sums);
    TextNext(h[..i], h[i]);
    NoText();
  }

  lemma TextNext(h: seq<seq<Byte>>, b: seq<Byte>)
    ensures UnpackBlocks(h + [b]) == UnpackBlocks(h) + Unpacked(b, 0)
  {
    assert (h + [b])[..|h|] == h;
  }

  /** The blocks of a stream fit its level and are complete. */
  ghost predicate Sized(h: seq<seq<Byte>>, level: nat) {
    forall i :: 0 <= i < |h| ==> |h[i]| <= 100000 * level && Complete(h[i], 0)
  }

  /** The stated check sums are those of the texts, and the last one that of all. */
  ghost predicate SumsRight(h: seq<seq<Byte>>, vs: seq<nat>, total: nat, sums: Sums)
    requires |vs| == |h|
  {
    SumsRightTo(h, vs, sums, |h|) && total == Combined(h, sums)
  }

  ghost predicate SumsRightTo(h: seq<seq<Byte>>, vs: seq<nat>, sums: Sums, n: nat)
    requires |vs| == |h| && n <= |h|
  {
    forall i :: 0 <= i < n && h[i] != [] ==> vs[i] == sums.block(Unpacked(h[i], 0))
  }

  ghost predicate Words(vs: seq<nat>) {
    forall i :: 0 <= i < |vs| ==> vs[i] < 0x1_0000_0000
  }

  /** One block after its magic: the check sum v, code, text; refused if the text has another sum. */
  method GetBlock(r: BitReader, level: nat, small: bool, rooms: nat -> nat, sums: Sums, ghost b: seq<Byte>, ghost x: Sending, ghost v: nat,
                  ghost after: seq<bool>)
    returns (ok: bool, out: seq<Byte>)
    requires r.Valid() && 1 <= level <= 9 && Sound(sums) && Roomy(rooms) && Sends(b, x) && 0 < |b| <= 100000 * level && Complete(b, 0)
    requires v < 0x1_0000_0000 && r.Bits() == SumBits(v) + (BlockBits(x.code, x.lens, x.selector) + after)
    modifies r`next, r`bsBuff, r`bsLive
    ensures (ok <==> v == sums.block(Unpacked(b, 0))) && (ok ==> out == Unpacked(b, 0) && r.Valid() && r.Bits() == after)
  {
    hide BitReader.Valid, BitReader.Bits, BytesBits, IsCode, Sendable, BlockBits, Unpacked, Complete, Roomy;
    ghost var fm, l :| IsCode(b, fm, l, x.code);
    var stored, got;
    ok, stored := GetSum(r, v, BlockBits(x.code, x.lens, x.selector) + after);
    CodeRange(b, fm, l, x.code);
    ok, got := ReceiveBlock(r, level, x.code, x.lens, x.selector, after);
    ok, out := ExpandCode(got, 100000 * level, small, rooms, b, fm, l);
    if !ok { return; }
    if sums.block(out) != stored { return false, out; }
  }

  /** What comes next: a block, or, if there is none, the first byte of the trailer. */
  method GetNext(r: BitReader, level: nat, small: bool, rooms: nat -> nat, sums: Sums,
                 ghost h: seq<seq<Byte>>, ghost xs: seq<Sending>, ghost vs: seq<nat>, ghost total: nat, ghost i: nat, ghost pad: seq<bool>)
    returns (ok: bool, more: bool, out: seq<Byte>)
    requires r.Valid() && 1 <= level <= 9 && Sound(sums) && Roomy(rooms) && AllSend(h, xs) && Sized(h, level) && |vs| == |h| && Words(vs)
    requires i <= |h| && (i < |h| ==> h[i] != []) && r.Bits() == Blocks(h, xs, vs, i) + (Trailer(total) + pad)
    modifies r`next, r`bsBuff, r`bsLive
    ensures (more <==> i < |h|) && (ok <==> i < |h| ==> vs[i] == sums.block(Unpacked(h[i], 0)))
    ensures ok && more ==> r.Valid() && out == Unpacked(h[i], 0) && r.Bits() == Blocks(h, xs, vs, i + 1) + (Trailer(total) + pad)
    ensures !more ==> r.Valid() && r.Bits() == BytesBits(END_MAGIC[1..]) + (SumBits(total) + pad)
  {
    hide BitReader.Valid, BitReader.Bits, BytesBits, Sound, Roomy, AllSend, Sized, Blocks, SumBits, Unpacked;
    out, more := [], true;
    ghost var end := Trailer(total) + pad;
    ghost var magic := if i == |h| then END_MAGIC else BLOCK_MAGIC;
    ghost var rest := if i == |h| then SumBits(total) + pad else AfterMagic(h, xs, vs, i, end);
    if i == |h| {
      AtEnd(h, xs, vs, total, pad);
    } else {
      AtBlock(h, xs, vs, i, end);
      BlockAt(h, xs, level, i);
    }
    var uc;
    ok, uc := GetBytes(r, 1, magic[..1], BytesBits(magic[1..]) + rest);
    if uc[0] == 0x17 { return ok, false, out; }
    if uc[0] != 0x31 { return false, true, out; }
    ok, uc := GetBytes(r, 5, magic[1..], rest);
    if uc != [0x41, 0x59, 0x26, 0x53, 0x59] { return false, true, out; }
    ok, out := GetBlock(r, level, small, rooms, sums, h[i], xs[i], vs[i], Blocks(h, xs, vs, i + 1) + end);
  }

  /**
   * All of a stream: it is accepted exactly if the check sums it states are those of the blocks' texts, and the last one
   * their combination; then its text is given out.
   */
  method Decompress(bytes: seq<Byte>, small: bool, rooms: nat -> nat, sums: Sums,
                    ghost h: seq<seq<Byte>>, ghost xs: seq<Sending>, ghost vs: seq<nat>, ghost total: nat, ghost level: nat, ghost pad: seq<bool>)
    returns (ok: bool, text: seq<Byte>)
    requires 1 <= level <= 9 && Sound(sums) && Roomy(rooms) && AllSend(h, xs) && Sized(h, level)
    requires |vs| == |h| && Words(vs) && total < 0x1_0000_0000 && BytesBits(bytes) == StreamWith(h, xs, vs, total, level) + pad
    ensures (ok <==> SumsRight(h, vs, total, sums)) && (ok ==> text == UnpackBlocks(h))
  {
    hide BitReader.Valid, BitReader.Bits, BytesBits, Sound, Roomy, AllSend, Sized, Blocks, Combined, UnpackBlocks, SumBits, Words, Unpacked;
    text := [];
    var r := new BitReader(bytes);
    var magic;
    ghost var end := Trailer(total) + pad;
    StreamParts(h, xs, vs, total, level, pad);
    ok, magic := GetBytes(r, 4, Header(level), Blocks(h, xs, vs, 0) + end);
    if magic[0] != 0x42 || magic[1] != 0x5a || magic[2] != 0x68 { return false, text; }
    if magic[3] < 0x31 || magic[3] > 0x39 { return false, text; }
    var blockSize100k: nat := magic[3] as int - 0x30;
    var calculated := 0;
    ghost var i := SkipEmpty(h, xs, vs, sums, 0);
    NothingYet(h, sums);
    var more := true;
    while more
      invariant i <= |h| && (i < |h| ==> h[i] != []) && r.Valid() && text == UnpackBlocks(h[..i]) && calculated == Combined(h[..i], sums)
      invariant SumsRightTo(h, vs, sums, i)
      invariant if more then r.Bits() == Blocks(h, xs, vs, i) + end
                else i == |h| && r.Bits() == BytesBits(END_MAGIC[1..]) + (SumBits(total) + pad)
      decreases if more then 1 else 0, |h| - i
    {
      var out;
      ok, more, out := GetNext(r, blockSize100k, small, rooms, sums, h, xs, vs, total, i, pad);
      if !ok { return; }
      if more {
        calculated := sums.both(calculated, sums.block(out));
        text := text + out;
        Onwards(h, sums, i);
        i := SkipEmpty(h, xs, vs, sums, i + 1);
      }
    }
    var tail;
    ok, tail := GetBytes(r, 5, END_MAGIC[1..], SumBits(total) + pad);
    if tail != [0x72, 0x45, 0x38, 0x50, 0x90] { return false, text; }
    var stored;
    ok, stored := GetSum(r, total, pad);
    assert h[..|h|] == h;
    if calculated != stored { return false, text; }
  }

  lemma StreamParts(h: seq<seq<Byte>>, xs: seq<Sending>, vs: seq<nat>, total: nat, level: nat, pad: seq<bool>)
    requires AllSend(h, xs) && |vs| == |h| && 1 <= level <= 9
    ensures StreamWith(h, xs, vs, total, level) + pad == BytesBits(Header(level)) + (Blocks(h, xs, vs, 0) + (Trailer(total) + pad))
  {
    hide BytesBits, Blocks, Trailer;
    Joins(BytesBits(Header(level)), Blocks(h, xs, vs, 0) + Trailer(total), pad);
    Joins(Blocks(h, xs, vs, 0), Trailer(total), pad);
  }

  lemma NothingYet(h: seq<seq<Byte>>, sums: Sums)
    ensures UnpackBlocks(h[..0]) == [] && Combined(h[..0], sums) == 0
  {
  }

  /** What follows the magic of block i. */
  ghost function AfterMagic(h: seq<seq<Byte>>, xs: seq<Sending>, vs: seq<nat>, i: nat, end: seq<bool>): seq<bool>
    requires AllSend(h, xs) && |vs| == |h| && i < |h| && h[i] != []
  {
    SumBits(vs[i]) + (BlockBits(xs[i].code, xs[i].lens, xs[i].selector) + (Blocks(h, xs, vs, i + 1) + end))
  }

  lemma FirstByte(s: seq<Byte>, rest: seq<bool>)
    requires s != []
    ensures BytesBits(s) + rest == BytesBits(s[..1]) + (BytesBits(s[1..]) + rest)
  {
    hide BytesBits;
    assert s == s[..1] + s[1..];
    BytesJoin(s[..1], s[1..]);
    Joins(BytesBits(s[..1]), BytesBits(s[1..]), rest);
  }

  lemma AtEnd(h: seq<seq<Byte>>, xs: seq<Sending>, vs: seq<nat>, total: nat, pad: seq<bool>)
    requires AllSend(h, xs) && |vs| == |h|
    ensures Blocks(h, xs, vs, |h|) + (Trailer(total) + pad) ==
            BytesBits(END_MAGIC[..1]) + (BytesBits(END_MAGIC[1..]) + (SumBits(total) + pad))
  {
    hide BytesBits, SumBits;
    Joins(BytesBits(END_MAGIC), SumBits(total), pad);
    FirstByte(END_MAGIC, SumBits(total) + pad);
    assert [] + (Trailer(total) + pad) == Trailer(total) + pad;
  }

  lemma AtBlock(h: seq<seq<Byte>>, xs: seq<Sending>, vs: seq<nat>, i: nat, end: seq<bool>)
    requires AllSend(h, xs) && |vs| == |h| && i < |h| && h[i] != []
    ensures Blocks(h, xs, vs, i) + end ==
            BytesBits(BLOCK_MAGIC[..1]) + (BytesBits(BLOCK_MAGIC[1..]) + AfterMagic(h, xs, vs, i, end))
  {
    hide BytesBits, SumBits, BlockBits, Sends;
    var x, rest := xs[i], Blocks(h, xs, vs, i + 1);
    assert Sends(h[i], x);
    OneBlockBits(x, SumBits(vs[i]), rest, end, h[i]);
    FirstByte(BLOCK_MAGIC, AfterMagic(h, xs, vs, i, end));
  }

  lemma OneBlockBits(x: Sending, sum: seq<bool>, rest: seq<bool>, end: seq<bool>, b: seq<Byte>)
    requires Sends(b, x)
    ensures BytesBits(BLOCK_MAGIC) + (sum + BlockBits(x.code, x.lens, x.selector)) + rest + end ==
            BytesBits(BLOCK_MAGIC) + (sum + (BlockBits(x.code, x.lens, x.selector) + (rest + end)))
  {
    hide BytesBits, BlockBits;
    var m, bits := BytesBits(BLOCK_MAGIC), BlockBits(x.code, x.lens, x.selector);
    Joins(m + (sum + bits), rest, end);
    Joins(m, sum + bits, rest + end);
    Joins(sum, bits, rest + end);
  }

  lemma BlockAt(h: seq<seq<Byte>>, xs: seq<Sending>, level: nat, i: nat)
    requires AllSend(h, xs) && Sized(h, level) && i < |h| && h[i] != []
    ensures |xs| == |h| && Sends(h[i], xs[i]) && 0 < |h[i]| <= 100000 * level && Complete(h[i], 0)
  {
    hide Sends, Complete;
  }

  lemma Onwards(h: seq<seq<Byte>>, sums: Sums, i: nat)
    requires i < |h| && h[i] != []
    ensures UnpackBlocks(h[..i + 1]) == UnpackBlocks(h[..i]) + Unpacked(h[i], 0)
    ensures Combined(h[..i + 1], sums) == sums.both(Combined(h[..i], sums), sums.block(Unpacked(h[i], 0)))
  {
    assert h[..i + 1] == h[..i] + [h[i]];
    CombinedNext(h[..i], h[i], sums);
    TextNext(h[..i], h[i]);
  }

  lemma CombinedSmall(h: seq<seq<Byte>>, sums: Sums)
    requires Sound(sums)
    ensures Combined(h, sums) < 0x1_0000_0000
  {
    if h != [] && h[|h| - 1] == [] {
      CombinedSmall(h[..|h| - 1], sums);
    }
  }

  // ---------------------------------------------------------------- from a text to a stream and back

  /** The bytes of a stream of the blocks `h`. */
  ghost predicate IsStream(bytes: seq<Byte>, h: seq<seq<Byte>>, sums: Sums, level: nat) {
    1 <= level <= 9 && exists xs, pad: seq<bool> :: StreamOf(bytes, h, xs, sums, level, pad)
  }

  ghost predicate StreamOf(bytes: seq<Byte>, h: seq<seq<Byte>>, xs: seq<Sending>, sums: Sums, level: nat, pad: seq<bool>)
    requires 1 <= level <= 9
  {
    AllSend(h, xs) && |pad| < 8 && BytesBits(bytes) == Stream(h, xs, sums, level) + pad
  }

  /** Any blocks that fit, written one after the other, are a stream of them. */
  method WriteAll(h: seq<seq<Byte>>, level: nat, sums: Sums, choose: (seq<nat>, nat) -> Choice) returns (bytes: seq<Byte>)
    requires 1 <= level <= 9 && Sound(sums) && Chooses(choose) && h != []
    requires forall i :: 0 <= i < |h| ==> |h[i]| <= 100000 * level
    ensures IsStream(bytes, h, sums, level)
  {
    hide Sound, Chooses, AllSend, Stream, BlockWriter.Valid;
    var e := new BlockWriter(level, sums);
    ghost var pad := [];
    for i := 0 to |h|
      invariant e.h == h[..i] && e.level == level && e.sums == sums && fresh(e) && fresh(e.w)
      invariant i < |h| ==> e.Valid()
      invariant i == |h| ==> AllSend(e.h, e.xs) && BytesBits(e.w.out) == Stream(e.h, e.xs, sums, level) + pad && |pad| < 8
    {
      var b := h[i];
      var block := new Byte[|b|](k requires 0 <= k < |b| => b[k]);
      assert block[..|b|] == b;
      pad := e.CompressBlock(block, |b|, i + 1 == |h|, choose);
      assert h[..i + 1] == h[..i] + [b];
    }
    assert h[..|h|] == h;
    bytes := e.w.out;
    assert StreamOf(bytes, h, e.xs, sums, level, pad);
  }

  lemma TrueSums(h: seq<seq<Byte>>, sums: Sums)
    requires Sound(sums)
    ensures Words(TextSums(h, sums)) && SumsRight(h, TextSums(h, sums), Combined(h, sums), sums)
  {
    hide Combined, Unpacked;
    var vs := TextSums(h, sums);
    forall i | 0 <= i < |h| ensures vs[i] == TextSum(h[i], sums) < 0x1_0000_0000 { }
  }

  /** Whatever blocks are closed, the code given out for them is a stream of them. */
  ghost predicate Faithful(coded: (seq<seq<Byte>>, bool) -> seq<Byte>, level: nat, sums: Sums) {
    forall h :: h != [] && Sized(h, level) ==> IsStream(Delivered(coded, h, true), h, sums, level)
  }

  lemma ClosedSized(c: Compressor)
    requires c.Valid()
    ensures Sized(c.history, c.blockSize100k) && 1 <= c.blockSize100k <= 9 && (c.ended ==> c.history != [])
  {
    hide Complete;
    forall i | 0 <= i < |c.history| ensures |c.history[i]| <= 100000 * c.blockSize100k && Complete(c.history[i], 0) {
      ClosedBlock(c, i);
    }
  }

  /**
   * The bytes that a compressor has given out, by the end of its stream, decompress to all bytes that it has taken, in
   * either layout, with any room for each call.
   */
  method Restored(c: Compressor, bytes: seq<Byte>, sums: Sums, small: bool, rooms: nat -> nat) returns (ok: bool, text: seq<Byte>)
    requires c.Valid() && c.ended && c.taken == UnpackBlocks(c.history)
    requires bytes == c.given == Delivered(c.coded, c.history, true)
    requires Faithful(c.coded, c.blockSize100k, sums) && Sound(sums) && Roomy(rooms)
    ensures ok && text == c.taken
  {
    hide Compressor.Valid, Sound, Roomy, Sized, StreamWith, AllSend, Delivered, UnpackBlocks, Words, SumsRight, TextSums, Combined;
    ClosedSized(c);
    var level := c.blockSize100k;
    assert IsStream(bytes, c.history, sums, level);
    ghost var xs, pad: seq<bool> :| StreamOf(bytes, c.history, xs, sums, level, pad);
    ghost var vs, total := TextSums(c.history, sums), Combined(c.history, sums);
    TrueSums(c.history, sums);
    CombinedSmall(c.history, sums);
    ok, text := Decompress(bytes, small, rooms, sums, c.history, xs, vs, total, level, pad);
  }
}
