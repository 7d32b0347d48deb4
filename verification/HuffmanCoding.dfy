/**
 * The symbols of a block as bits: several tables, one chosen for every fifty symbols, and the reader that takes
 * symbols off the bits until the end-of-block symbol.
 */
module HuffmanCoding {
  import opened Bits
  import opened BitStream
  import opened HuffmanCodes
  import opened HuffmanTables
  import opened Bytes
  import HuffmanLengths

  const GROUP_SIZE: nat := 50

  // ---------------------------------------------------------------- tables

  datatype DecodeTable = DecodeTable(minLen: nat, limit: seq<int>, base: seq<int>, perm: seq<nat>)

  ghost predicate TableFor(len: seq<nat>, t: DecodeTable) {
    LensOk(len) && Fits(len) && |t.limit| == |t.base| == |t.perm| == MAX_ALPHA_SIZE
    && exists maxLen: nat :: TablesOk(len, t.limit, t.base, t.perm, t.minLen, maxLen)
  }

  method Extremes(len: seq<nat>) returns (minLen: nat, maxLen: nat)
    requires LensOk(len)
    ensures 1 <= minLen <= maxLen <= LONGEST && forall i :: 0 <= i < |len| ==> minLen <= len[i] <= maxLen
  {
    minLen, maxLen := 32, 0;
    for i := 0 to |len|
      invariant forall k :: 0 <= k < i ==> minLen <= len[k] <= maxLen
      invariant if i == 0 then minLen == 32 && maxLen == 0 else 1 <= minLen <= maxLen <= LONGEST
    {
      if len[i] > maxLen { maxLen := len[i]; }
      if len[i] < minLen { minLen := len[i]; }
    }
  }

  method MakeTable(len: seq<nat>) returns (t: DecodeTable)
    requires LensOk(len) && Fits(len)
    ensures TableFor(len, t)
  {
    var minLen, maxLen := Extremes(len);
    var limit, base, perm := new int[MAX_ALPHA_SIZE], new int[MAX_ALPHA_SIZE], new nat[MAX_ALPHA_SIZE];
    CreateDecodeTables(limit, base, perm, len, minLen, maxLen);
    t := DecodeTable(minLen, limit[..], base[..], perm[..]);
  }

  method MakeCodes(len: seq<nat>) returns (code: seq<int>)
    requires LensOk(len)
    ensures |code| == |len| && forall i :: 0 <= i < |len| ==> code[i] == CodeOf(len, i)
  {
    var minLen, maxLen := Extremes(len);
    var a := new int[|len|];
    AssignCodes(a, len, minLen, maxLen);
    code := a[..];
  }

  // ---------------------------------------------------------------- writing

  /** Every symbol has a table that has a code word for it. */
  ghost predicate Codable(lens: seq<seq<nat>>, selector: seq<nat>, syms: seq<nat>) {
    forall i {:trigger HasWord(lens, selector, syms, i)} :: 0 <= i < |syms| ==> HasWord(lens, selector, syms, i)
  }

  predicate HasWord(lens: seq<seq<nat>>, selector: seq<nat>, syms: seq<nat>, i: nat)
    requires i < |syms|
  {
    i / 50 < |selector| && selector[i / 50] < |lens| && syms[i] < |lens[selector[i / 50]]|
  }

  function WordAt(lens: seq<seq<nat>>, selector: seq<nat>, syms: seq<nat>, i: nat): seq<bool>
    requires i < |syms| && HasWord(lens, selector, syms, i)
  {
    Word(lens[selector[i / 50]], syms[i])
  }

  /** The code words of the first n symbols. */
  ghost function Words(lens: seq<seq<nat>>, selector: seq<nat>, syms: seq<nat>, n: nat): seq<bool>
    requires Codable(lens, selector, syms) && n <= |syms|
  {
    if n == 0 then []
    else
      assert HasWord(lens, selector, syms, n - 1);
      Words(lens, selector, syms, n - 1) + WordAt(lens, selector, syms, n - 1)
  }

  /** Group after group the code words are written. */
  method WriteSymbols(w: BitWriter, lens: seq<seq<nat>>, codes: seq<seq<int>>, selector: seq<nat>, syms: seq<nat>)
    requires w.Valid() && forall t :: 0 <= t < |lens| ==> LensOk(lens[t]) && Fits(lens[t])
    requires Codable(lens, selector, syms) && |codes| == |lens|
    requires forall t :: 0 <= t < |lens| ==> |codes[t]| == |lens[t]|
    requires forall t, i :: 0 <= t < |lens| && 0 <= i < |lens[t]| ==> codes[t][i] == CodeOf(lens[t], i)
    modifies w
    ensures w.Valid() && w.Bits() == old(w.Bits()) + Words(lens, selector, syms, |syms|)
  {
    hide BitWriter.Valid, BitWriter.Bits, BitsOf, Pow2, Fits, LensOk, CodeOf, Words, WordAt, Codable;
    ghost var bits := w.Bits();
    FirstWords(lens, selector, syms);
    assert bits + [] == bits;
    var gs, selCtr := 0, 0;
    while gs < |syms|
      invariant 0 <= gs <= |syms| && (gs < |syms| ==> gs == GROUP_SIZE * selCtr)
      invariant w.Valid() && w.Bits() == bits + Words(lens, selector, syms, gs)
    {
      var ge := gs + GROUP_SIZE - 1;
      if ge >= |syms| { ge := |syms| - 1; }
      var i := gs;
      while i <= ge
        invariant gs <= i <= ge + 1 && w.Valid() && w.Bits() == bits + Words(lens, selector, syms, i)
      {
        GroupOf(i, selCtr, GROUP_SIZE * (selCtr + 1) - i);
        WordNext(lens, selector, syms, i, bits);
        w.W(lens[selector[selCtr]][syms[i]], codes[selector[selCtr]][syms[i]]);
        i := i + 1;
      }
      gs := ge + 1;
      selCtr := selCtr + 1;
    }
  }

  lemma WordNext(lens: seq<seq<nat>>, selector: seq<nat>, syms: seq<nat>, i: nat, bits: seq<bool>)
    requires Codable(lens, selector, syms) && i < |syms| && forall t :: 0 <= t < |lens| ==> LensOk(lens[t]) && Fits(lens[t])
    ensures HasWord(lens, selector, syms, i)
    ensures var len := lens[selector[i / GROUP_SIZE]];
            len[syms[i]] <= 24 && CodeOf(len, syms[i]) < Pow2(len[syms[i]])
            && bits + Words(lens, selector, syms, i + 1) == bits + Words(lens, selector, syms, i) + BitsOf(CodeOf(len, syms[i]), len[syms[i]])
  {
    hide LensOk, Fits, CodeOf, Word;
    assert HasWord(lens, selector, syms, i);
    WordShort(lens[selector[i / GROUP_SIZE]], syms[i]);
  }

  lemma WordShort(len: seq<nat>, i: nat)
    requires LensOk(len) && Fits(len) && i < |len|
    ensures len[i] <= 24 && CodeOf(len, i) < Pow2(len[i]) && Word(len, i) == BitsOf(CodeOf(len, i), len[i])
  {
    CodeFits(len, i);
  }

  // ---------------------------------------------------------------- reading

  /** One symbol, bit by bit. */
  method ReadSymbol(r: BitReader, t: DecodeTable) returns (found: Found)
    requires r.Valid() && |t.limit| == |t.base| == |t.perm| == MAX_ALPHA_SIZE && t.minLen <= LONGEST
    modifies r`next, r`bsBuff, r`bsLive
    ensures r.Valid() && found == DecodeSymbol(old(r.Bits()), 0, t.minLen, t.limit, t.base, t.perm)
    ensures found.Symbol? ==> found.next <= |old(r.Bits())| && r.Bits() == old(r.Bits())[found.next..]
  {
    hide BitReader.Valid, BitReader.Bits, ValueOf;
    ghost var bits := r.Bits();
    var zn: nat := t.minLen;
    var next: nat := zn;
    var ok;
    var zvec: nat;
    ok, zvec := r.Get(zn);
    if !ok { return NeedBits; }
    while true
      invariant r.Valid() && next <= |bits| && r.Bits() == bits[next..] && zn <= LONGEST + 1
      invariant Search(bits, next, zn, zvec, t.limit, t.base, t.perm) == DecodeSymbol(bits, 0, t.minLen, t.limit, t.base, t.perm)
      decreases LONGEST + 1 - zn
    {
      if zn > LONGEST { return Corrupt; }
      if zvec <= t.limit[zn] { break; }
      zn := zn + 1;
      var zj;
      ok, zj := r.Get(1);
      if !ok { return NeedBits; }
      OneBit(bits, next);
      zvec := 2 * zvec + zj;
      next := next + 1;
    }
    if zvec - t.base[zn] < 0 || zvec - t.base[zn] >= MAX_ALPHA_SIZE { return Corrupt; }
    found := Symbol(t.perm[zvec - t.base[zn]], next);
  }

  lemma OneBit(bits: seq<bool>, n: nat)
    requires n < |bits|
    ensures ValueOf(bits[n..][..1]) == Bit(bits[n]) && bits[n..][1..] == bits[n + 1..]
  {
    assert bits[n..][..1] == [bits[n]];
  }

  lemma WordRead(lens: seq<seq<nat>>, tables: seq<DecodeTable>, selector: seq<nat>, syms: seq<nat>, n: nat, after: seq<bool>)
    requires n < |syms| && HasWord(lens, selector, syms, n) && |tables| == |lens| && forall t :: 0 <= t < |lens| ==> TableFor(lens[t], tables[t])
    ensures var t := tables[selector[n / GROUP_SIZE]];
            var w := WordAt(lens, selector, syms, n);
            |t.limit| == |t.base| == |t.perm| == MAX_ALPHA_SIZE && t.minLen <= LONGEST
            && DecodeSymbol(w + after, 0, t.minLen, t.limit, t.base, t.perm) == Symbol(syms[n], |w|)
  {
    hide Fits, DecodeSymbol, Word;
    var k := selector[n / GROUP_SIZE];
    var t := tables[k];
    assert TableFor(lens[k], t);
    var maxLen: nat :| TablesOk(lens[k], t.limit, t.base, t.perm, t.minLen, maxLen);
    WordDecodes(lens[k], t.limit, t.base, t.perm, t.minLen, maxLen, [], syms[n], after);
    assert [] + Word(lens[k], syms[n]) + after == Word(lens[k], syms[n]) + after;
  }

  /** The words from the n-th on come after the words before. */
  lemma {:induction false} WordsFrom(lens: seq<seq<nat>>, selector: seq<nat>, syms: seq<nat>, n: nat) returns (rest: seq<bool>)
    requires Codable(lens, selector, syms) && n <= |syms|
    ensures Words(lens, selector, syms, |syms|) == Words(lens, selector, syms, n) + rest
    decreases |syms| - n
  {
    if n == |syms| {
      rest := [];
    } else {
      assert HasWord(lens, selector, syms, n);
      rest := WordsFrom(lens, selector, syms, n + 1);
      rest := WordAt(lens, selector, syms, n) + rest;
    }
  }

  /** Symbols are read up to the end of the block, each group of them with its own table. */
  method ReadSymbols(r: BitReader, tables: seq<DecodeTable>, selector: seq<nat>, eob: nat,
                     ghost lens: seq<seq<nat>>, ghost syms: seq<nat>, ghost after: seq<bool>)
    returns (ok: bool, read: seq<nat>)
    requires Codable(lens, selector, syms) && |tables| == |lens| && forall t :: 0 <= t < |lens| ==> TableFor(lens[t], tables[t])
    requires syms != [] && syms[|syms| - 1] == eob && forall i :: 0 <= i < |syms| - 1 ==> syms[i] != eob
    requires r.Valid() && r.Bits() == Words(lens, selector, syms, |syms|) + after
    modifies r`next, r`bsBuff, r`bsLive
    ensures ok && read == syms && r.Valid() && r.Bits() == after
  {
    hide Codable, TableFor, Words, WordAt, DecodeSymbol, BitReader.Valid, BitReader.Bits;
    read := [];
    ghost var bits := r.Bits();
    var groupNo, groupPos: nat := -1, 0;
    FirstWords(lens, selector, syms);
    while true
      invariant |read| < |syms| && read == syms[..|read|]
      invariant r.Valid() && bits == Words(lens, selector, syms, |read|) + r.Bits()
      invariant |read| + groupPos == GROUP_SIZE * (groupNo + 1) && groupPos < GROUP_SIZE && groupNo >= -1
      decreases |syms| - |read|
    {
      ghost var n := |read|;
      WordThere(lens, tables, selector, syms, n, after, r.Bits());
      if groupPos == 0 {
        groupNo := groupNo + 1;
        GroupOf(n, groupNo, GROUP_SIZE);
        if groupNo >= |selector| { return false, read; }
        groupPos := GROUP_SIZE;
      }
      groupPos := groupPos - 1;
      GroupOf(n, groupNo, groupPos + 1);
      var found := ReadSymbol(r, tables[selector[groupNo]]);
      read := read + [found.sym];
      if found.sym == eob {
        LastWords(lens, selector, syms, after, r.Bits());
        return true, read;
      }
    }
  }

  lemma LastWords(lens: seq<seq<nat>>, selector: seq<nat>, syms: seq<nat>, after: seq<bool>, rest: seq<bool>)
    requires Codable(lens, selector, syms) && Words(lens, selector, syms, |syms|) + after == Words(lens, selector, syms, |syms|) + rest
    ensures after == rest
  {
    var w := Words(lens, selector, syms, |syms|);
    assert (w + after)[|w|..] == after && (w + rest)[|w|..] == rest;
  }

  lemma GroupOf(n: nat, groupNo: int, groupPos: nat)
    requires n + groupPos == GROUP_SIZE * (groupNo + 1) && 1 <= groupPos <= GROUP_SIZE
    ensures groupNo == n / GROUP_SIZE
  {
  }

  lemma FirstWords(lens: seq<seq<nat>>, selector: seq<nat>, syms: seq<nat>)
    requires Codable(lens, selector, syms)
    ensures Words(lens, selector, syms, 0) == []
  {
  }

  /** The n-th word comes next when the words before it have been read. */
  lemma WordThere(lens: seq<seq<nat>>, tables: seq<DecodeTable>, selector: seq<nat>, syms: seq<nat>, n: nat, after: seq<bool>, bits: seq<bool>)
    requires Codable(lens, selector, syms) && n < |syms| && |tables| == |lens| && forall t :: 0 <= t < |lens| ==> TableFor(lens[t], tables[t])
    requires Words(lens, selector, syms, |syms|) + after == Words(lens, selector, syms, n) + bits
    ensures n / GROUP_SIZE < |selector| && selector[n / GROUP_SIZE] < |tables|
    ensures var t := tables[selector[n / GROUP_SIZE]];
      && |t.limit| == |t.base| == |t.perm| == MAX_ALPHA_SIZE && t.minLen <= LONGEST
      && var found := DecodeSymbol(bits, 0, t.minLen, t.limit, t.base, t.perm);
         && found.Symbol? && found.sym == syms[n] && found.next <= |bits|
         && Words(lens, selector, syms, n + 1) + bits[found.next..] == Words(lens, selector, syms, n) + bits
  {
    hide WordAt, TableFor, DecodeSymbol;
    assert HasWord(lens, selector, syms, n);
    var rest := WordsFrom(lens, selector, syms, n + 1);
    WordRead(lens, tables, selector, syms, n, rest + after);
    hide Words, Codable, HasWord;
    Regrouped(Words(lens, selector, syms, n), WordAt(lens, selector, syms, n), rest, after, bits);
  }

  lemma Regrouped(a: seq<bool>, w: seq<bool>, rest: seq<bool>, after: seq<bool>, bits: seq<bool>)
    requires a + w + rest + after == a + bits
    ensures bits == w + (rest + after) && bits[|w|..] == rest + after && a + w + bits[|w|..] == a + bits
  {
    assert (a + bits)[|a|..] == bits && (a + w + rest + after)[|a|..] == w + (rest + after);
  }

  // ---------------------------------------------------------------- from frequencies to bits and back

  /** Lengths of one table, from how often its symbols occur. */
  method LengthsFor(freq: seq<nat>) returns (len: seq<nat>)
    requires 2 <= |freq| <= MAX_ALPHA_SIZE && HuffmanLengths.FreqSum(freq) < 0x80_0000
    ensures |len| == |freq| && LensOk(len) && Fits(len)
  {
    hide Pow2, Kraft, Fits;
    var a := new nat[|freq|];
    HuffmanLengths.MakeCodeLengths(a, freq, 17);
    len := a[..];
    assert a[..|freq|] == len;
    KraftFull(len, LONGEST, 17);
    KraftFits(len);
  }

  /** Lengths, code words and decoding tables for some frequencies. */
  method MakeTables(freqs: seq<seq<nat>>) returns (lens: seq<seq<nat>>, codes: seq<seq<int>>, tables: seq<DecodeTable>)
    requires forall t :: 0 <= t < |freqs| ==> 2 <= |freqs[t]| <= MAX_ALPHA_SIZE && HuffmanLengths.FreqSum(freqs[t]) < 0x80_0000
    ensures |lens| == |codes| == |tables| == |freqs|
    ensures forall k :: 0 <= k < |lens| ==> |codes[k]| == |lens[k]| == |freqs[k]| && LensOk(lens[k]) && Fits(lens[k]) && TableFor(lens[k], tables[k])
    ensures forall k, i :: 0 <= k < |lens| && 0 <= i < |lens[k]| ==> codes[k][i] == CodeOf(lens[k], i)
  {
    hide LensOk, Fits, TableFor;
    lens, codes, tables := [], [], [];
    for t := 0 to |freqs|
      invariant |lens| == |codes| == |tables| == t
      invariant forall k :: 0 <= k < t ==> |codes[k]| == |lens[k]| == |freqs[k]| && LensOk(lens[k]) && Fits(lens[k]) && TableFor(lens[k], tables[k])
      invariant forall k, i :: 0 <= k < t && 0 <= i < |lens[k]| ==> codes[k][i] == CodeOf(lens[k], i)
    {
      var len := LengthsFor(freqs[t]);
      var code := MakeCodes(len);
      var table := MakeTable(len);
      lens, codes, tables := lens + [len], codes + [code], tables + [table];
    }
  }

  /**
   * For any frequencies of each table, any choice of tables and any symbols up to the end of a block: the words
   * written are read back as the symbols, and what follows them is left.
   */
  method ThereAndBack(freqs: seq<seq<nat>>, selector: seq<nat>, syms: seq<nat>, eob: nat) returns (ok: bool, read: seq<nat>, bytes: seq<Byte>)
    requires forall t :: 0 <= t < |freqs| ==> 2 <= |freqs[t]| <= MAX_ALPHA_SIZE && HuffmanLengths.FreqSum(freqs[t]) < 0x80_0000
    requires Codable(freqs, selector, syms)
    requires syms != [] && syms[|syms| - 1] == eob && forall i :: 0 <= i < |syms| - 1 ==> syms[i] != eob
    ensures ok && read == syms
  {
    hide LensOk, Fits, TableFor, Words, BitWriter.Valid, BitWriter.Bits, BitReader.Valid, BitReader.Bits, BytesBits;
    var lens, codes, tables := MakeTables(freqs);
    forall i | 0 <= i < |syms| ensures HasWord(lens, selector, syms, i) {
      assert HasWord(freqs, selector, syms, i);
    }
    var w := new BitWriter();
    WriteSymbols(w, lens, codes, selector, syms);
    ghost var pad := w.Finish();
    bytes := w.out;
    assert BytesBits(bytes) == Words(lens, selector, syms, |syms|) + pad;
    var r := new BitReader(bytes);
    ok, read := ReadSymbols(r, tables, selector, eob, lens, syms, pad);
  }
}
