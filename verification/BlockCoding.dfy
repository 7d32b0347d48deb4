/** A bzip2 block from its bytes to move-to-front symbols and back: sorting, last column, ranks, and their inverses together. */
module BlockCoding {
  import opened Bytes
  import opened Permutations
  import opened Rotations
  import opened Counting
  import FallbackSort
  import opened InverseBwt
  import opened MoveToFront
  import opened MtfEncoder
  import opened MtfStore
  import opened MtfDecoder

  const LARGEST_BLOCK: nat := 900000

  // ---------------------------------------------------------------- the bytes in use

  /** How many bytes below c are in use: the number c is known by. */
  function UsedBelow(inUse: seq<bool>, c: nat): (n: nat)
    requires c <= |inUse|
    ensures n <= c
  {
    if c == 0 then 0 else UsedBelow(inUse, c - 1) + if inUse[c - 1] then 1 else 0
  }

  lemma {:induction false} UsedGrows(inUse: seq<bool>, c: nat, d: nat)
    requires c < d <= |inUse| && inUse[c]
    ensures UsedBelow(inUse, c) < UsedBelow(inUse, d)
    decreases d
  {
    if c + 1 < d { UsedGrows(inUse, c, d - 1); }
  }

  method MakeMapsE(inUse: seq<bool>) returns (nInUse: nat, unseqToSeq: array<Byte>)
    requires |inUse| == 256
    ensures fresh(unseqToSeq) && unseqToSeq.Length == 256 && nInUse == UsedBelow(inUse, 256)
    ensures forall c :: 0 <= c < 256 && inUse[c] ==> unseqToSeq[c] == UsedBelow(inUse, c)
  {
    nInUse, unseqToSeq := 0, new Byte[256];
    for i := 0 to 256
      invariant nInUse == UsedBelow(inUse, i)
      invariant forall c :: 0 <= c < i && inUse[c] ==> unseqToSeq[c] == UsedBelow(inUse, c)
    {
      if inUse[i] {
        unseqToSeq[i] := nInUse;
        nInUse := nInUse + 1;
      }
    }
  }

  method MakeMapsD(inUse: seq<bool>) returns (nInUse: nat, seqToUnseq: array<Byte>)
    requires |inUse| == 256
    ensures fresh(seqToUnseq) && seqToUnseq.Length == 256 && nInUse == UsedBelow(inUse, 256)
    ensures forall c :: 0 <= c < 256 && inUse[c] ==> seqToUnseq[UsedBelow(inUse, c)] == c
  {
    nInUse, seqToUnseq := 0, new Byte[256];
    for i := 0 to 256
      invariant nInUse == UsedBelow(inUse, i)
      invariant forall c :: 0 <= c < i && inUse[c] ==> seqToUnseq[UsedBelow(inUse, c)] == c
    {
      if inUse[i] {
        forall c | 0 <= c < i && inUse[c] ensures UsedBelow(inUse, c) < nInUse { UsedGrows(inUse, c, i); }
        seqToUnseq[nInUse] := i;
        nInUse := nInUse + 1;
      }
    }
  }

  // ---------------------------------------------------------------- what is sent

  datatype Code = Code(origPtr: nat, inUse: seq<bool>, syms: seq<nat>)

  /** The last column, each byte by its number. */
  function Numbered(l: seq<Byte>, inUse: seq<bool>): (v: seq<Byte>)
    requires |inUse| == 256
    ensures |v| == |l| && forall i :: 0 <= i < |l| ==> v[i] == UsedBelow(inUse, l[i])
  {
    seq(|l|, i requires 0 <= i < |l| => UsedBelow(inUse, l[i]) as Byte)
  }

  ghost predicate AllUsed(l: seq<Byte>, inUse: seq<bool>) {
    |inUse| == 256 && forall i :: 0 <= i < |l| ==> inUse[l[i]]
  }

  lemma NumbersIn(l: seq<Byte>, inUse: seq<bool>)
    requires AllUsed(l, inUse) && l != []
    ensures 0 < UsedBelow(inUse, 256) && AllIn(Numbered(l, inUse), Identity(UsedBelow(inUse, 256)))
    ensures forall i :: 0 <= i < |l| ==> Numbered(l, inUse)[i] < UsedBelow(inUse, 256)
  {
    forall i | 0 <= i < |l| ensures Numbered(l, inUse)[i] < UsedBelow(inUse, 256) {
      UsedGrows(inUse, l[i], 256);
    }
    assert Numbered(l, inUse)[0] < UsedBelow(inUse, 256);
    AllInIdentity(Numbered(l, inUse), UsedBelow(inUse, 256));
  }

  /** The code stands for the block b, whose rotations in order are fm. */
  ghost predicate IsCode(b: seq<Byte>, fm: seq<int>, l: seq<Byte>, code: Code) {
    && Transformed(b, fm, l, code.origPtr) && AllUsed(l, code.inUse)
    && 0 < UsedBelow(code.inUse, 256) && AllIn(Numbered(l, code.inUse), Identity(UsedBelow(code.inUse, 256)))
    && code.syms == Encode(Numbered(l, code.inUse), Identity(UsedBelow(code.inUse, 256)), 0, UsedBelow(code.inUse, 256) + 1)
  }

  /** The end-of-block symbol, and only the last. */
  ghost predicate Closed(syms: seq<nat>, eob: nat) {
    syms != [] && syms[|syms| - 1] == eob && forall i :: 0 <= i < |syms| - 1 ==> syms[i] < eob
  }

  lemma {:induction false} EncodeCloses(v: seq<Byte>, l: seq<Byte>, z: nat, eob: nat)
    requires |l| > 0 && AllIn(v, l) && eob == |l| + 1
    ensures Closed(Encode(v, l, z, eob), eob)
    decreases |v|
  {
    DigitsSmall(z);
    hide RunDigits;
    if v != [] && v[0] == l[0] {
      EncodeCloses(v[1..], l, z + 1, eob);
    } else if v != [] {
      var k := IndexOf(l, v[0]);
      EncodeRanked(v, l, z, eob, k);
      EncodeCloses(v[1..], ToFront(l, k), 0, eob);
    }
  }

  lemma {:induction false} DigitsSmall(z: nat)
    ensures forall i :: 0 <= i < |RunDigits(z)| ==> RunDigits(z)[i] <= 1
  {
    if z > 0 { DigitsSmall((z - 1) / 2); }
  }

  // ---------------------------------------------------------------- encoding

  /** Which bytes occur. */
  method FindUsed(block: array<Byte>, nblock: nat) returns (inUse: seq<bool>)
    requires nblock <= block.Length
    ensures AllUsed(block[..nblock], inUse)
  {
    inUse := seq(256, _ => false);
    for i := 0 to nblock
      invariant |inUse| == 256 && forall k :: 0 <= k < i ==> inUse[block[k]]
    {
      inUse := inUse[block[i] as nat := true];
    }
  }

  /** The last column, read off the sorted rows. */
  method NumberColumn(block: array<Byte>, ptr: array<nat>, nblock: nat, unseqToSeq: array<Byte>, ghost inUse: seq<bool>) returns (column: array<Byte>)
    requires 0 < nblock == ptr.Length <= block.Length && InRange(ptr[..], nblock) && AllUsed(block[..nblock], inUse)
    requires unseqToSeq.Length == 256 && forall c :: 0 <= c < 256 && inUse[c] ==> unseqToSeq[c] == UsedBelow(inUse, c)
    ensures fresh(column) && column.Length == nblock && column[..] == Numbered(LastColumn(block[..nblock], ptr[..]), inUse)
    ensures AllUsed(LastColumn(block[..nblock], ptr[..]), inUse)
  {
    column := new Byte[nblock];
    ghost var b, l := block[..nblock], LastColumn(block[..nblock], ptr[..]);
    for i := 0 to nblock
      invariant forall k :: 0 <= k < i ==> column[k] == UsedBelow(inUse, l[k])
    {
      assert 0 <= ptr[..][i] < nblock;
      var j := if ptr[i] == 0 then nblock - 1 else ptr[i] - 1;
      assert j == Prev(ptr[i], nblock) && l[i] == b[j] && inUse[b[j]];
      column[i] := unseqToSeq[block[j]];
    }
    assert column[..] == Numbered(l, inUse);
  }

  lemma RowsIn(b: seq<Byte>, fm: seq<int>)
    requires SortedRows(b, fm)
    ensures |fm| == |b| && InRange(fm, |b|)
  {
  }

  method CompressBlock(block: array<Byte>, nblock: nat) returns (code: Code, ghost fm: seq<int>, ghost l: seq<Byte>)
    requires 0 < nblock <= block.Length && nblock <= LARGEST_BLOCK
    modifies block
    ensures block[..nblock] == old(block[..nblock]) && IsCode(block[..nblock], fm, l, code) && |code.syms| <= nblock + 1
  {
    hide SortedBy, Encode, AllIn, UsedBelow;
    ghost var b := block[..nblock];
    var inUse := FindUsed(block, nblock);
    var fmap, bhtab := new nat[nblock], new bool[(nblock + 64 + 31) / 32 * 32];
    FallbackSort.FallbackSort(fmap, block, bhtab, nblock);
    var origPtr := FallbackSort.FindOrigPtr(fmap, nblock, b);
    fm := fmap[..];
    RowsIn(b, fm);
    l := LastColumn(b, fm);
    var nInUse, unseqToSeq := MakeMapsE(inUse);
    var column := NumberColumn(block, fmap, nblock, unseqToSeq, inUse);
    NumbersIn(l, inUse);
    assert column[..nblock] == column[..];
    var mtfv, mtfFreq := new nat[nblock + 1], new nat[258];
    var nMTF := GenerateMtfValues(column, mtfv, mtfFreq, nblock, nInUse);
    code := Code(origPtr, inUse, mtfv[..nMTF]);
  }

  // ---------------------------------------------------------------- decoding

  /** Bytes found by their numbers are the bytes. */
  lemma NamedBack(l: seq<Byte>, inUse: seq<bool>, names: seq<Byte>)
    requires AllUsed(l, inUse) && |names| == 256 && forall c :: 0 <= c < 256 && inUse[c] ==> names[UsedBelow(inUse, c)] == c
    ensures Named(Numbered(l, inUse), names) == l
  {
  }

  lemma CodeDecodes(b: seq<Byte>, fm: seq<int>, l: seq<Byte>, code: Code, nblockMAX: nat)
    requires IsCode(b, fm, l, code) && |b| <= nblockMAX <= LARGEST_BLOCK
    ensures Decode(code.syms, 0, Identity(256), nblockMAX, UsedBelow(code.inUse, 256) + 1) == Some(Numbered(l, code.inUse))
    ensures Closed(code.syms, UsedBelow(code.inUse, 256) + 1)
  {
    hide Encode, Decode, SortedBy, UsedBelow, AllIn;
    var n, v := UsedBelow(code.inUse, 256), Numbered(l, code.inUse);
    assert Identity(n) <= Identity(256);
    DecodeEncode([], v, Identity(n), Identity(256), 0, nblockMAX, n + 1);
    assert [] + code.syms == code.syms;
    assert Copies(Identity(n)[0], 0) + v == v;
    EncodeCloses(v, Identity(n), 0, n + 1);
  }

  /** The bytes of the column in the SMALL layout, where the rest of a number has its own array. */
  method LowParts(tt: array<nat>, nblock: nat, ghost l: seq<Byte>) returns (store: SmallStore)
    requires nblock == |l| <= tt.Length && forall k :: 0 <= k < nblock ==> tt[k] == l[k]
    ensures fresh(store) && fresh(store.ll16) && fresh(store.ll4) && store.Valid() && store.ll16.Length == nblock
    ensures forall k :: 0 <= k < nblock ==> store.ll16[k] == l[k]
  {
    var ll16, ll4 := new nat[nblock], new nat[(1 + nblock) / 2](_ => 0);
    for i := 0 to nblock
      invariant forall k :: 0 <= k < i ==> ll16[k] == l[k]
      invariant forall k :: 0 <= k < ll4.Length ==> ll4[k] == 0
    {
      ll16[i] := tt[i];
    }
    store := new SmallStore(ll16, ll4);
    assert forall k :: 0 <= k < nblock ==> ll16[k] == l[k] < 0x10000;
  }

  method DecompressBlock(code: Code, nblockMAX: nat, small: bool, ghost b: seq<Byte>, ghost fm: seq<int>, ghost l: seq<Byte>)
    returns (ok: bool, out: seq<Byte>)
    requires IsCode(b, fm, l, code) && |b| <= nblockMAX <= LARGEST_BLOCK
    ensures ok && out == b
  {
    hide SortedBy, Encode, Decode, UsedBelow, Count, AllIn, LastColumn;
    CodeDecodes(b, fm, l, code, nblockMAX);
    var nInUse, seqToUnseq := MakeMapsD(code.inUse);
    NamedBack(l, code.inUse, seqToUnseq[..]);
    var tt, unzftab, cftab, cftabCopy := new nat[nblockMAX], new nat[256], new nat[257], new nat[257];
    var nblock;
    ok, nblock := DecodeValues(code.syms, seqToUnseq, tt, unzftab, nblockMAX, nInUse + 1);
    assert Written(tt[..], unzftab[..], l);
    if small {
      var store := LowParts(tt, nblock, l);
      out := DecodeSmall(store, unzftab, cftab, cftabCopy, nblock, code.origPtr, b, fm, l);
    } else {
      out := DecodeFast(tt, unzftab, cftab, nblock, code.origPtr, b, fm, l);
    }
  }

  /** Every block comes back, in either layout. */
  method ThereAndBack(block: array<Byte>, nblock: nat, nblockMAX: nat, small: bool) returns (ok: bool, out: seq<Byte>)
    requires 0 < nblock <= block.Length && nblock <= nblockMAX <= LARGEST_BLOCK
    modifies block
    ensures ok && out == old(block[..nblock])
  {
    hide IsCode;
    ghost var fm, l;
    var code;
    code, fm, l := CompressBlock(block, nblock);
    ok, out := DecompressBlock(code, nblockMAX, small, block[..nblock], fm, l);
  }
}
