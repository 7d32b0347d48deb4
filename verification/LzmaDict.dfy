/** The dictionary of the LZMA decoder: a cyclic buffer that holds the last bytes of the output. */
module LzmaDict {
  import opened Bytes
  import opened LzmaStream

  /** The place k bytes before pos. */
  function Before(pos: nat, k: nat, size: nat): int {
    if k <= pos then pos - k else pos - k + size
  }

  /** As many bytes of the output as fit are there, the last one before pos. */
  ghost predicate Keeps(dic: seq<Byte>, pos: nat, out: seq<Byte>) {
    pos <= |dic| && forall k {:trigger KeepsAt(dic, pos, out, k)} :: 1 <= k <= |out| && k <= |dic| ==> KeepsAt(dic, pos, out, k)
  }

  ghost predicate KeepsAt(dic: seq<Byte>, pos: nat, out: seq<Byte>, k: nat)
    requires 1 <= k <= |out| && k <= |dic| && pos <= |dic|
  {
    dic[Before(pos, k, |dic|)] == out[|out| - k]
  }

  lemma PlaceIn(dic: seq<Byte>, pos: nat, out: seq<Byte>)
    requires Keeps(dic, pos, out)
    ensures pos <= |dic|
  {
  }

  lemma ByteAt(dic: seq<Byte>, pos: nat, out: seq<Byte>, k: nat)
    requires Keeps(dic, pos, out) && 1 <= k <= |out| && k <= |dic|
    ensures 0 <= Before(pos, k, |dic|) < |dic| && dic[Before(pos, k, |dic|)] == out[|out| - k]
  {
    assert KeepsAt(dic, pos, out, k);
  }

  lemma PutByte(dic: seq<Byte>, pos: nat, out: seq<Byte>, x: Byte)
    requires Keeps(dic, pos, out) && pos < |dic|
    ensures Keeps(dic[pos := x], pos + 1, out + [x])
  {
    var dic2, pos2, out2 := dic[pos := x], pos + 1, out + [x];
    forall k: nat | 1 <= k <= |out2| && k <= |dic| ensures KeepsAt(dic2, pos2, out2, k) {
      if k > 1 { assert KeepsAt(dic, pos, out, k - 1); }
    }
  }

  /** A full buffer is one about to be filled again. */
  lemma WrapAround(dic: seq<Byte>, out: seq<Byte>)
    requires Keeps(dic, |dic|, out)
    ensures Keeps(dic, 0, out)
  {
    forall k: nat | 1 <= k <= |out| && k <= |dic| ensures KeepsAt(dic, 0, out, k) {
      assert KeepsAt(dic, |dic|, out, k);
    }
  }

  /** One byte at the distance rep is written again. */
  method RepeatByte(dic: array<Byte>, dicPos: nat, rep0: nat, ghost out: seq<Byte>) returns (ghost out2: seq<Byte>)
    requires Keeps(dic[..], dicPos, out) && dicPos < dic.Length && 1 <= rep0 <= |out| && rep0 <= dic.Length
    modifies dic
    ensures out2 == out + [out[|out| - rep0]] && Keeps(dic[..], dicPos + 1, out2)
  {
    hide Keeps;
    ByteAt(dic[..], dicPos, out, rep0);
    PutByte(dic[..], dicPos, out, out[|out| - rep0]);
    dic[dicPos] := dic[dicPos - rep0 + (if dicPos < rep0 then dic.Length else 0)];
    out2 := out + [out[|out| - rep0]];
  }

  /** n bytes from `pos` on go to dicPos, without passing the end of the buffer. */
  method CopyStretch(dic: array<Byte>, dicPos0: nat, pos: nat, rep0: nat, n: nat, ghost out0: seq<Byte>) returns (dicPos: nat, ghost out: seq<Byte>)
    requires Keeps(dic[..], dicPos0, out0) && dicPos0 + n <= dic.Length && 1 <= rep0 <= |out0| && rep0 <= dic.Length
    requires pos == Before(dicPos0, rep0, dic.Length) && pos + n <= dic.Length
    modifies dic
    ensures out == CopyOut(out0, rep0, n) && dicPos == dicPos0 + n && Keeps(dic[..], dicPos, out)
  {
    hide Keeps;
    var curLen, src := n, pos - dicPos0;
    dicPos, out := dicPos0, out0;
    while curLen != 0
      invariant 0 <= curLen <= n && dicPos == dicPos0 + (n - curLen) && Keeps(dic[..], dicPos, out)
      invariant rep0 <= |out| && CopyOut(out, rep0, curLen) == CopyOut(out0, rep0, n)
      decreases curLen
    {
      ByteAt(dic[..], dicPos, out, rep0);
      PutByte(dic[..], dicPos, out, out[|out| - rep0]);
      dic[dicPos] := dic[dicPos + src];
      out := out + [out[|out| - rep0]];
      dicPos := dicPos + 1;
      curLen := curLen - 1;
    }
  }

  /** n bytes from `pos` on go to dicPos; behind the end of the buffer its beginning is read. */
  method CopyAround(dic: array<Byte>, dicPos0: nat, pos0: nat, rep0: nat, n: nat, ghost out0: seq<Byte>) returns (dicPos: nat, ghost out: seq<Byte>)
    requires Keeps(dic[..], dicPos0, out0) && dicPos0 + n <= dic.Length && 1 <= rep0 <= |out0| && rep0 <= dic.Length
    requires pos0 == Before(dicPos0, rep0, dic.Length) < dic.Length
    modifies dic
    ensures out == CopyOut(out0, rep0, n) && dicPos == dicPos0 + n && Keeps(dic[..], dicPos, out)
  {
    hide Keeps;
    var curLen, pos := n, pos0;
    dicPos, out := dicPos0, out0;
    while curLen != 0
      invariant 0 <= curLen <= n && dicPos == dicPos0 + (n - curLen) && Keeps(dic[..], dicPos, out)
      invariant rep0 <= |out| && CopyOut(out, rep0, curLen) == CopyOut(out0, rep0, n)
      invariant pos == Before(dicPos, rep0, dic.Length)
      decreases curLen
    {
      ByteAt(dic[..], dicPos, out, rep0);
      PutByte(dic[..], dicPos, out, out[|out| - rep0]);
      dic[dicPos] := dic[pos];
      out := out + [out[|out| - rep0]];
      dicPos := dicPos + 1;
      pos := pos + 1;
      if pos == dic.Length { pos := 0; }
      curLen := curLen - 1;
    }
  }

  /** n bytes are copied from rep0 back. */
  method CopyMatch(dic: array<Byte>, dicPos0: nat, rep0: nat, n: nat, ghost out0: seq<Byte>) returns (dicPos: nat, ghost out: seq<Byte>)
    requires Keeps(dic[..], dicPos0, out0) && dicPos0 + n <= dic.Length && 1 <= rep0 <= |out0| && rep0 <= dic.Length && n >= 1
    modifies dic
    ensures out == CopyOut(out0, rep0, n) && dicPos == dicPos0 + n && Keeps(dic[..], dicPos, out)
  {
    hide Keeps;
    var pos := dicPos0 - rep0 + (if dicPos0 < rep0 then dic.Length else 0);
    if pos + n <= dic.Length {
      dicPos, out := CopyStretch(dic, dicPos0, pos, rep0, n, out0);
    } else {
      dicPos, out := CopyAround(dic, dicPos0, pos, rep0, n, out0);
    }
  }

  /** The unwritten rest of a match, byte by byte. */
  method CopyRest(dic: array<Byte>, dicPos0: nat, rep0: nat, n: nat, ghost out0: seq<Byte>) returns (dicPos: nat, ghost out: seq<Byte>)
    requires Keeps(dic[..], dicPos0, out0) && dicPos0 + n <= dic.Length && 1 <= rep0 <= |out0| && rep0 <= dic.Length
    modifies dic
    ensures out == CopyOut(out0, rep0, n) && dicPos == dicPos0 + n && Keeps(dic[..], dicPos, out)
  {
    hide Keeps;
    var len := n;
    dicPos, out := dicPos0, out0;
    while len != 0
      invariant 0 <= len <= n && dicPos == dicPos0 + (n - len) && Keeps(dic[..], dicPos, out)
      invariant rep0 <= |out| && CopyOut(out, rep0, len) == CopyOut(out0, rep0, n)
      decreases len
    {
      out := RepeatByte(dic, dicPos, rep0, out);
      dicPos := dicPos + 1;
      len := len - 1;
    }
  }
}
