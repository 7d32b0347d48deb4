/**
 * The x86 branch filter: targets of CALL and JMP become absolute or relative again; a mask of recent
 * opcodes that were left alone keeps both directions making the same choices.
 */
module X86Filter {
  import opened Bytes
  import opened BranchWords
  import opened Residues

  predicate Opcode(b: Byte) { b == 0xE8 || b == 0xE9 }

  /** Bit k of the mask stands for an opcode left alone k + 1 bytes back. */
  predicate Marked(w: nat, k: nat) {
    if k == 0 then w % 2 == 1 else if k == 1 then (w / 2) % 2 == 1 else (w / 4) % 2 == 1
  }

  predicate Allowed(w: nat) { w == 0 || w == 1 || w == 2 || w == 4 }

  /** Which following byte must be off the edges; none for the empty mask. */
  function CheckAt(w: nat): (j: nat)
    ensures j <= 3
  {
    if w == 0 then 0 else if w == 1 then 3 else if w < 4 then 2 else 1
  }

  /** kMaskToBitNumber. */
  function BitNumber(w: nat): (n: nat)
    ensures n <= 3
  {
    if w == 0 then 0 else if w == 1 then 1 else if w < 4 then 2 else 3
  }

  function Shift(w: nat): nat { (2 * w) % 8 }

  /** The mask one byte on, when byte b was left alone. */
  function NextMask(b: Byte, w: nat): (v: nat)
    ensures v < 8
  {
    Shift(w) + (if Opcode(b) then 1 else 0)
  }

  /** The four bytes after p as a branch word. */
  function WordAt(d: seq<Byte>, p: nat): (x: nat)
    requires p + 4 < |d|
    ensures x < WORDS
  {
    d[p + 1] + 256 * d[p + 2] as int + 65536 * d[p + 3] as int + (if d[p + 4] == 0 then 0 else 0x100_0000)
  }

  function PutWord(d: seq<Byte>, p: nat, y: nat): (e: seq<Byte>)
    requires p + 4 < |d|
    ensures |e| == |d|
    ensures forall i :: 0 <= i < |d| && (i <= p || i > p + 4) ==> e[i] == d[i]
  {
    d[p + 1 := y % 256][p + 2 := (y / 256) % 256][p + 3 := (y / 65536) % 256]
     [p + 4 := if (y / 0x100_0000) % 2 == 1 then 255 else 0]
  }

  lemma WordBytes(d: seq<Byte>, p: nat, j: nat)
    requires p + 4 < |d| && 1 <= j <= 3
    ensures ByteAt(WordAt(d, p), j) == d[p + j]
  {
    var t: nat := if d[p + 4] == 0 then 0 else 1;
    if j == 1 {
      ByteOf(d[p + 2] as int + 256 * d[p + 3] as int + 65536 * t, d[p + 1], 0, 1);
    } else if j == 2 {
      ByteOf(d[p + 3] as int + 256 * t, d[p + 2], d[p + 1], 2);
    } else {
      ByteOf(t, d[p + 3], d[p + 1] as int + 256 * d[p + 2] as int, 3);
    }
  }

  lemma WordPut(d: seq<Byte>, p: nat, y: nat)
    requires p + 4 < |d| && y < WORDS
    ensures WordAt(PutWord(d, p, y), p) == y && Edge(PutWord(d, p, y)[p + 4])
  {
    WordDigits(y);
    var t := PutWord(d, p, y);
    assert t[p + 1] == y % 256 && t[p + 2] == (y / 256) % 256 && t[p + 3] == (y / 65536) % 256;
  }

  lemma WordDigits(y: nat)
    requires y < WORDS
    ensures y % 256 + 256 * ((y / 256) % 256) + 65536 * ((y / 65536) % 256) + 16777216 * ((y / 16777216) % 2) == y
  {
    DigitStep(y, 1);
    DigitStep(y, 256);
    DigitStep(y, 65536);
  }

  lemma DigitStep(y: nat, p: nat)
    requires p == 1 || p == 256 || p == 65536
    ensures y / p == (y / p) % 256 + 256 * (y / (256 * p))
  {
    QuotientUnique(y, 256 * p, (y / p) / 256, p * ((y / p) % 256) + y % p);
  }

  lemma WordTop(d: seq<Byte>, p: nat)
    requires p + 4 < |d|
    ensures WordAt(d, p) / 0x100_0000 == if d[p + 4] == 0 then 0 else 1
  {
    var l := d[p + 1] + 256 * d[p + 2] as int + 65536 * d[p + 3] as int;
    QuotientUnique(WordAt(d, p), 0x100_0000, if d[p + 4] == 0 then 0 else 1, l);
  }

  lemma PutBack(d: seq<Byte>, e: seq<Byte>, p: nat)
    requires p + 4 < |d| == |e| && Edge(d[p + 4])
    requires forall i :: 0 <= i < |d| && (i <= p || i > p + 4) ==> e[i] == d[i]
    ensures PutWord(e, p, WordAt(d, p)) == d
  {
    hide WordAt;
    WordBytes(d, p, 1);
    WordBytes(d, p, 2);
    WordBytes(d, p, 3);
    WordTop(d, p);
    assert WordAt(d, p) / 1 == WordAt(d, p);
    var t := PutWord(e, p, WordAt(d, p));
    forall i | 0 <= i < |d| ensures t[i] == d[i] {
    }
  }

  /** Is the opcode at p converted, the mask being w? */
  predicate Takes(d: seq<Byte>, p: nat, w: nat)
    requires p + 4 < |d|
  {
    && Opcode(d[p]) && (w == 0 || (Allowed(w) && !Edge(d[p + CheckAt(w)]))) && Edge(d[p + 4])
  }

  datatype Pass = Pass(data: seq<Byte>, pos: nat, mask: nat)

  /** The filter from p on over the first `size` bytes, one byte or one branch at a time. */
  ghost function Filter(d: seq<Byte>, size: nat, p: nat, w: nat, ip: nat, encoding: bool): (r: Pass)
    requires size <= |d| && w < 8
    ensures |r.data| == |d| && r.mask < 8
    decreases size - p
  {
    if p + 4 >= size then Pass(d, p, w)
    else if Takes(d, p, w) then
      Filter(Branch(d, p, w, ip, encoding), size, p + 5, 0, ip, encoding)
    else
      Filter(d, size, p + 1, NextMask(d[p], w), ip, encoding)
  }

  /** The branch at p converted. */
  ghost function Branch(d: seq<Byte>, p: nat, w: nat, ip: nat, encoding: bool): (e: seq<Byte>)
    requires p + 4 < |d| && Takes(d, p, w)
    ensures |e| == |d|
  {
    if w > 0 then WordBytes(d, p, CheckAt(w)); PutWord(d, p, Converted(WordAt(d, p), ip + 5 + p, encoding, CheckAt(w)))
    else PutWord(d, p, Converted(WordAt(d, p), ip + 5 + p, encoding, 0))
  }

  lemma BranchIs(d: seq<Byte>, p: nat, w: nat, ip: nat, encoding: bool) returns (y: nat)
    requires p + 4 < |d| && Takes(d, p, w)
    ensures w > 0 ==> !Edge(ByteAt(WordAt(d, p), CheckAt(w)))
    ensures y == Converted(WordAt(d, p), ip + 5 + p, encoding, CheckAt(w)) && y < WORDS
    ensures Branch(d, p, w, ip, encoding) == PutWord(d, p, y) && Edge(PutWord(d, p, y)[p + 4])
    ensures w > 0 ==> !Edge(PutWord(d, p, y)[p + CheckAt(w)])
  {
    hide Converted;
    if w > 0 {
      WordBytes(d, p, CheckAt(w));
    }
    y := Converted(WordAt(d, p), ip + 5 + p, encoding, CheckAt(w));
    WordPut(d, p, y);
    if w > 0 {
      WordBytes(PutWord(d, p, y), p, CheckAt(w));
    }
  }

  // ---------------------------------------------------------------- what a later step leaves alone

  /** Nothing up to and including p changes, and what follows is all that matters. */
  lemma {:induction false} FilterKeeps(d: seq<Byte>, size: nat, p: nat, w: nat, ip: nat, encoding: bool, i: nat)
    requires size <= |d| && w < 8 && i <= p && i < |d|
    ensures Filter(d, size, p, w, ip, encoding).data[i] == d[i]
    decreases size - p
  {
    if p + 4 < size {
      if Takes(d, p, w) {
        var y := BranchIs(d, p, w, ip, encoding);
        FilterKeeps(Branch(d, p, w, ip, encoding), size, p + 5, 0, ip, encoding, i);
      } else {
        FilterKeeps(d, size, p + 1, NextMask(d[p], w), ip, encoding, i);
      }
    }
  }

  lemma FilterPass(d: seq<Byte>, size: nat, p: nat, w: nat, ip: nat, encoding: bool)
    requires size <= |d| && w < 8 && p + 4 < size && !Takes(d, p, w)
    ensures Filter(d, size, p, w, ip, encoding) == Filter(d, size, p + 1, NextMask(d[p], w), ip, encoding)
  {
  }

  lemma FilterTake(d: seq<Byte>, size: nat, p: nat, w: nat, ip: nat, encoding: bool)
    requires size <= |d| && w < 8 && p + 4 < size && Takes(d, p, w)
    ensures Filter(d, size, p, w, ip, encoding) == Filter(Branch(d, p, w, ip, encoding), size, p + 5, 0, ip, encoding)
  {
  }

  lemma FilterEnd(d: seq<Byte>, size: nat, p: nat, w: nat, ip: nat, encoding: bool)
    requires size <= |d| && w < 8 && p + 4 >= size
    ensures Filter(d, size, p, w, ip, encoding) == Pass(d, p, w)
  {
  }

  /** The last byte of an opcode left alone stays off the edges, whatever is converted after it. */
  lemma {:induction false} Protected(d: seq<Byte>, size: nat, r: nat, w: nat, ip: nat, encoding: bool, k: nat)
    requires size <= |d| && w < 8 && k <= 2 && Marked(w, k) && r + 3 - k < |d| && !Edge(d[r + 3 - k])
    ensures !Edge(Filter(d, size, r, w, ip, encoding).data[r + 3 - k])
    decreases 3 - k
  {
    hide Filter, Branch, Takes, Converted, PutWord, WordAt, Marked, NextMask;
    if r + 4 >= size {
      FilterEnd(d, size, r, w, ip, encoding);
    } else if Takes(d, r, w) {
      ProtectedTaken(d, size, r, w, ip, encoding, k);
    } else {
      FilterPass(d, size, r, w, ip, encoding);
      if k < 2 {
        MarkMoves(d[r], w, k);
        Protected(d, size, r + 1, NextMask(d[r], w), ip, encoding, k + 1);
      } else {
        FilterKeeps(d, size, r + 1, NextMask(d[r], w), ip, encoding, r + 1);
      }
    }
  }

  lemma ProtectedTaken(d: seq<Byte>, size: nat, r: nat, w: nat, ip: nat, encoding: bool, k: nat)
    requires size <= |d| && w < 8 && k <= 2 && Marked(w, k) && r + 4 < size && Takes(d, r, w)
    ensures !Edge(Filter(d, size, r, w, ip, encoding).data[r + 3 - k])
  {
    hide Filter, Branch, Converted, PutWord, WordAt;
    assert CheckAt(w) == 3 - k && w > 0 by { OnlyMark(w, k); }
    var y := BranchIs(d, r, w, ip, encoding);
    FilterTake(d, size, r, w, ip, encoding);
    FilterKeeps(Branch(d, r, w, ip, encoding), size, r + 5, 0, ip, encoding, r + CheckAt(w));
  }

  lemma OnlyMark(w: nat, k: nat)
    requires w < 8 && k <= 2 && Marked(w, k) && Allowed(w)
    ensures w > 0 && CheckAt(w) == 3 - k
  {
  }

  lemma MarkMoves(b: Byte, w: nat, k: nat)
    requires w < 8 && k < 2 && Marked(w, k)
    ensures Marked(NextMask(b, w), k + 1)
  {
  }

  /** With two opcodes marked nothing is converted, so the byte that decided a refusal stays. */
  lemma Pinned(d: seq<Byte>, size: nat, p: nat, w: nat, ip: nat, encoding: bool)
    requires size <= |d| && p + 4 < size && (w == 1 || w == 2 || w == 4) && Opcode(d[p])
    ensures Filter(d, size, p + 1, NextMask(d[p], w), ip, encoding).data[p + CheckAt(w)] == d[p + CheckAt(w)]
  {
    hide Filter, Branch, Takes;
    var v := NextMask(d[p], w);
    if w == 4 {
      FilterKeeps(d, size, p + 1, v, ip, encoding, p + 1);
    } else if w == 2 {
      NotTaken(d, size, p + 1, v, ip, encoding, p + 2);
    } else if p + 5 < size {
      assert v == 3;
      var u := NextMask(d[p + 1], v);
      assert !Allowed(u);
      Refused(d, p + 1, v);
      FilterPass(d, size, p + 1, v, ip, encoding);
      NotTaken(d, size, p + 2, u, ip, encoding, p + 3);
    } else {
      FilterEnd(d, size, p + 1, v, ip, encoding);
    }
  }

  lemma Refused(d: seq<Byte>, p: nat, w: nat)
    requires p + 4 < |d| && !Allowed(w)
    ensures !Takes(d, p, w)
  {
  }

  lemma NotTaken(d: seq<Byte>, size: nat, p: nat, w: nat, ip: nat, encoding: bool, i: nat)
    requires size <= |d| && w < 8 && !Allowed(w) && i <= p + 1 && i < |d|
    ensures Filter(d, size, p, w, ip, encoding).data[i] == d[i]
  {
    hide Filter, Branch, Takes;
    if p + 4 < size {
      Refused(d, p, w);
      FilterPass(d, size, p, w, ip, encoding);
      FilterKeeps(d, size, p + 1, NextMask(d[p], w), ip, encoding, i);
    } else {
      FilterEnd(d, size, p, w, ip, encoding);
    }
  }

  /** The filtered bytes lead the other direction to the same choice. */
  lemma SameChoice(d: seq<Byte>, size: nat, p: nat, w: nat, ip: nat, encoding: bool, e: seq<Byte>)
    requires size <= |d| && w < 8 && p + 4 < size && e == Filter(d, size, p, w, ip, encoding).data
    ensures e[p] == d[p] && Takes(e, p, w) == Takes(d, p, w)
  {
    hide Filter, Branch, Converted, PutWord, WordAt;
    FilterKeeps(d, size, p, w, ip, encoding, p);
    if Takes(d, p, w) {
      var y := BranchIs(d, p, w, ip, encoding);
      var t := Branch(d, p, w, ip, encoding);
      FilterTake(d, size, p, w, ip, encoding);
      FilterKeeps(t, size, p + 5, 0, ip, encoding, p + 4);
      FilterKeeps(t, size, p + 5, 0, ip, encoding, p + CheckAt(w));
    } else if Opcode(d[p]) && Allowed(w) {
      FilterPass(d, size, p, w, ip, encoding);
      if w != 0 { Pinned(d, size, p, w, ip, encoding); }
      if !Edge(d[p + 4]) {
        Protected(d, size, p + 1, NextMask(d[p], w), ip, encoding, 0);
      }
    }
  }

  // ---------------------------------------------------------------- the way back

  ghost predicate SameFrom(d: seq<Byte>, e: seq<Byte>, p: nat) {
    |d| == |e| && forall i :: p <= i < |d| ==> e[i] == d[i]
  }

  lemma BranchFrame(d: seq<Byte>, e: seq<Byte>, p: nat, w: nat, ip: nat, encoding: bool)
    requires p + 4 < |d| && SameFrom(d, e, p) && Takes(d, p, w)
    ensures Takes(e, p, w) && SameFrom(Branch(d, p, w, ip, encoding), Branch(e, p, w, ip, encoding), p)
  {
    hide Converted;
    var y := BranchIs(d, p, w, ip, encoding);
    var z := BranchIs(e, p, w, ip, encoding);
  }

  /** What stands before p matters neither way. */
  lemma {:induction false} FilterFrame(d: seq<Byte>, e: seq<Byte>, size: nat, p: nat, w: nat, ip: nat, encoding: bool)
    requires size <= |d| && w < 8 && SameFrom(d, e, p)
    ensures Filter(d, size, p, w, ip, encoding).pos == Filter(e, size, p, w, ip, encoding).pos
    ensures Filter(d, size, p, w, ip, encoding).mask == Filter(e, size, p, w, ip, encoding).mask
    ensures SameFrom(Filter(d, size, p, w, ip, encoding).data, Filter(e, size, p, w, ip, encoding).data, p)
    decreases size - p
  {
    hide Filter, Branch, Takes, NextMask;
    if p + 4 >= size {
      FilterEnd(d, size, p, w, ip, encoding);
      FilterEnd(e, size, p, w, ip, encoding);
    } else if Takes(d, p, w) {
      BranchFrame(d, e, p, w, ip, encoding);
      FilterTake(d, size, p, w, ip, encoding);
      FilterTake(e, size, p, w, ip, encoding);
      var t, u := Branch(d, p, w, ip, encoding), Branch(e, p, w, ip, encoding);
      FilterFrame(t, u, size, p + 5, 0, ip, encoding);
      var ft, fu := Filter(t, size, p + 5, 0, ip, encoding).data, Filter(u, size, p + 5, 0, ip, encoding).data;
      forall i | p <= i < |d| ensures fu[i] == ft[i] {
        if i < p + 5 {
          FilterKeeps(t, size, p + 5, 0, ip, encoding, i);
          FilterKeeps(u, size, p + 5, 0, ip, encoding, i);
        }
      }
    } else {
      TakesFrame(d, e, p, w);
      FilterPass(d, size, p, w, ip, encoding);
      FilterPass(e, size, p, w, ip, encoding);
      FilterFrame(d, e, size, p + 1, NextMask(d[p], w), ip, encoding);
      FilterKeeps(d, size, p + 1, NextMask(d[p], w), ip, encoding, p);
      FilterKeeps(e, size, p + 1, NextMask(d[p], w), ip, encoding, p);
    }
  }

  lemma TakesFrame(d: seq<Byte>, e: seq<Byte>, p: nat, w: nat)
    requires p + 4 < |d| && SameFrom(d, e, p)
    ensures Takes(e, p, w) == Takes(d, p, w)
  {
  }

  /** Filtering back restores every byte, and ends at the same place with the same mask. */
  lemma {:induction false} FilterBack(d: seq<Byte>, size: nat, p: nat, w: nat, ip: nat, encoding: bool)
    requires size <= |d| && w < 8
    ensures var e := Filter(d, size, p, w, ip, encoding);
            Filter(e.data, size, p, w, ip, !encoding) == Pass(d, e.pos, e.mask)
    decreases size - p
  {
    hide Filter, Branch, Takes, NextMask;
    if p + 4 >= size {
      FilterEnd(d, size, p, w, ip, encoding);
      FilterEnd(d, size, p, w, ip, !encoding);
    } else {
      var e := Filter(d, size, p, w, ip, encoding).data;
      SameChoice(d, size, p, w, ip, encoding, e);
      if Takes(d, p, w) {
        FilterTake(d, size, p, w, ip, encoding);
        FilterTake(e, size, p, w, ip, !encoding);
        var t := Branch(d, p, w, ip, encoding);
        FilterBack(t, size, p + 5, 0, ip, encoding);
        var u := Branch(e, p, w, ip, !encoding);
        assert Filter(u, size, p + 5, 0, ip, !encoding).data == d && SameFrom(e, u, p + 5) by {
          TakenBack(d, size, p, w, ip, encoding, e, u);
        }
        FilterFrame(e, u, size, p + 5, 0, ip, !encoding);
      } else {
        FilterPass(d, size, p, w, ip, encoding);
        FilterPass(e, size, p, w, ip, !encoding);
        FilterBack(d, size, p + 1, NextMask(d[p], w), ip, encoding);
      }
    }
  }

  /** A converted branch comes back, and so does all that follows it. */
  lemma TakenBack(d: seq<Byte>, size: nat, p: nat, w: nat, ip: nat, encoding: bool, e: seq<Byte>, u: seq<Byte>)
    requires size <= |d| && w < 8 && p + 4 < size && Takes(d, p, w)
    requires e == Filter(Branch(d, p, w, ip, encoding), size, p + 5, 0, ip, encoding).data
    requires Filter(e, size, p + 5, 0, ip, !encoding).data == Branch(d, p, w, ip, encoding)
    requires Takes(e, p, w) && u == Branch(e, p, w, ip, !encoding)
    ensures Filter(u, size, p + 5, 0, ip, !encoding).data == d && SameFrom(e, u, p + 5)
  {
    hide Filter, Branch, Converted;
    var t := Branch(d, p, w, ip, encoding);
    var y := BranchIs(d, p, w, ip, encoding);
    var x := BranchIs(e, p, w, ip, !encoding);
    forall i | 0 <= i < p + 5 ensures e[i] == t[i] {
      FilterKeeps(t, size, p + 5, 0, ip, encoding, i);
    }
    WordSame(e, t, p);
    WordPut(d, p, y);
    ConvertBack(WordAt(d, p), ip + 5 + p, encoding, CheckAt(w));
    assert x == WordAt(d, p);
    FilterFrame(e, u, size, p + 5, 0, ip, !encoding);
    var r := Filter(u, size, p + 5, 0, ip, !encoding).data;
    forall i | 0 <= i < p + 5 ensures r[i] == u[i] {
      FilterKeeps(u, size, p + 5, 0, ip, !encoding, i);
    }
    PutRestores(d, t, e, p, y);
  }

  lemma WordSame(e: seq<Byte>, t: seq<Byte>, p: nat)
    requires p + 4 < |e| == |t| && forall i :: p <= i < p + 5 ==> e[i] == t[i]
    ensures WordAt(e, p) == WordAt(t, p)
  {
  }

  /** Writing a word and then the one that stood there. */
  lemma PutRestores(d: seq<Byte>, t: seq<Byte>, e: seq<Byte>, p: nat, y: nat)
    requires p + 4 < |d| == |e| && t == PutWord(d, p, y) && Edge(d[p + 4])
    requires forall i :: 0 <= i < p + 5 ==> e[i] == t[i]
    ensures forall i :: 0 <= i < p + 5 ==> PutWord(e, p, WordAt(d, p))[i] == d[i]
    ensures forall i :: p + 5 <= i < |d| ==> t[i] == d[i]
  {
    hide WordAt;
    var f := e[..p + 5] + d[p + 5..];
    PutBack(d, f, p);
  }

  // ---------------------------------------------------------------- chunks

  /** Filtering a first part and then going on with the mask it left is filtering at once. */
  lemma {:induction false} FilterChunks(d: seq<Byte>, size1: nat, size2: nat, p: nat, w: nat, ip: nat, encoding: bool)
    requires size1 <= size2 <= |d| && w < 8
    ensures var f := Filter(d, size1, p, w, ip, encoding);
            Filter(f.data, size2, f.pos, f.mask, ip, encoding) == Filter(d, size2, p, w, ip, encoding)
    decreases size1 - p
  {
    hide Filter, Branch, Takes, NextMask;
    if p + 4 >= size1 {
      FilterEnd(d, size1, p, w, ip, encoding);
    } else if Takes(d, p, w) {
      FilterTake(d, size1, p, w, ip, encoding);
      FilterTake(d, size2, p, w, ip, encoding);
      FilterChunks(Branch(d, p, w, ip, encoding), size1, size2, p + 5, 0, ip, encoding);
    } else {
      FilterPass(d, size1, p, w, ip, encoding);
      FilterPass(d, size2, p, w, ip, encoding);
      FilterChunks(d, size1, size2, p + 1, NextMask(d[p], w), ip, encoding);
    }
  }

  /** A call on the rest of the buffer, its address moved on by k, does what one call does there. */
  lemma {:induction false} FilterOffset(d: seq<Byte>, k: nat, size: nat, p: nat, w: nat, ip: nat, encoding: bool)
    requires k <= size <= |d| && w < 8
    ensures var f, g := Filter(d, size, k + p, w, ip, encoding), Filter(d[k..], size - k, p, w, ip + k, encoding);
            g.pos == f.pos - k && g.mask == f.mask && g.data == f.data[k..]
    decreases size - p
  {
    hide Filter, Branch, Takes, NextMask;
    if k + p + 4 >= size {
      FilterEnd(d, size, k + p, w, ip, encoding);
      FilterEnd(d[k..], size - k, p, w, ip + k, encoding);
    } else {
      TakesOffset(d, k, p, w);
      if Takes(d, k + p, w) {
        BranchOffset(d, k, p, w, ip, encoding);
        FilterTake(d, size, k + p, w, ip, encoding);
        FilterTake(d[k..], size - k, p, w, ip + k, encoding);
        assert k + p + 5 == k + (p + 5);
        FilterOffset(Branch(d, k + p, w, ip, encoding), k, size, p + 5, 0, ip, encoding);
      } else {
        FilterPass(d, size, k + p, w, ip, encoding);
        FilterPass(d[k..], size - k, p, w, ip + k, encoding);
        assert k + p + 1 == k + (p + 1) && d[k..][p] == d[k + p];
        FilterOffset(d, k, size, p + 1, NextMask(d[k + p], w), ip, encoding);
      }
    }
  }

  lemma TakesOffset(d: seq<Byte>, k: nat, p: nat, w: nat)
    requires k + p + 4 < |d|
    ensures Takes(d[k..], p, w) == Takes(d, k + p, w)
  {
    assert d[k..][p + CheckAt(w)] == d[k + p + CheckAt(w)];
  }

  lemma BranchOffset(d: seq<Byte>, k: nat, p: nat, w: nat, ip: nat, encoding: bool)
    requires k + p + 4 < |d| && Takes(d, k + p, w) && Takes(d[k..], p, w)
    ensures Branch(d[k..], p, w, ip + k, encoding) == Branch(d, k + p, w, ip, encoding)[k..]
  {
    hide Converted, Takes, Branch, PutWord, WordAt;
    var y := BranchIs(d, k + p, w, ip, encoding);
    var z := BranchIs(d[k..], p, w, ip + k, encoding);
    WordOffset(d, k, p, y);
    assert ip + k + 5 + p == ip + 5 + (k + p);
  }

  lemma WordOffset(d: seq<Byte>, k: nat, p: nat, y: nat)
    requires k + p + 4 < |d|
    ensures WordAt(d[k..], p) == WordAt(d, k + p) && PutWord(d[k..], p, y) == PutWord(d, k + p, y)[k..]
  {
  }

  /** Two calls on successive parts of a buffer, the second with the state of the first, make one. */
  lemma TwoCalls(d: seq<Byte>, size1: nat, w: nat, ip: nat, encoding: bool) returns (f: Pass, g: Pass)
    requires size1 <= |d| && w < 8
    ensures f == Filter(d, size1, 0, w, ip, encoding) && f.pos <= |d|
    ensures g == Filter(f.data[f.pos..], |d| - f.pos, 0, f.mask, ip + f.pos, encoding)
    ensures Filter(d, |d|, 0, w, ip, encoding) == Pass(f.data[..f.pos] + g.data, f.pos + g.pos, g.mask)
  {
    hide Filter;
    f := Filter(d, size1, 0, w, ip, encoding);
    FilterBounds(d, size1, 0, w, ip, encoding);
    g := Filter(f.data[f.pos..], |d| - f.pos, 0, f.mask, ip + f.pos, encoding);
    FilterChunks(d, size1, |d|, 0, w, ip, encoding);
    FilterOffset(f.data, f.pos, |d|, 0, f.mask, ip, encoding);
    var h := Filter(f.data, |d|, f.pos, f.mask, ip, encoding);
    forall i | 0 <= i < f.pos ensures h.data[i] == f.data[i] {
      FilterKeeps(f.data, |d|, f.pos, f.mask, ip, encoding, i);
    }
    assert h.data == h.data[..f.pos] + h.data[f.pos..];
    assert h.data[..f.pos] == f.data[..f.pos];
  }

  lemma {:induction false} FilterBounds(d: seq<Byte>, size: nat, p: nat, w: nat, ip: nat, encoding: bool)
    requires size <= |d| && w < 8 && p <= size
    ensures p <= Filter(d, size, p, w, ip, encoding).pos <= size
    decreases size - p
  {
    hide Branch;
    if p + 4 < size {
      if Takes(d, p, w) {
        FilterBounds(Branch(d, p, w, ip, encoding), size, p + 5, 0, ip, encoding);
      } else {
        FilterBounds(d, size, p + 1, NextMask(d[p], w), ip, encoding);
      }
    }
  }

  // ---------------------------------------------------------------- the loop itself

  const B32: nat := 0x1_0000_0000

  /** The mask carried over d bytes of which none is an opcode. */
  function Carried(m: nat, d: int): nat {
    if d > 3 then 0 else if d == 3 then (4 * m) % 8 else if d == 2 then (2 * m) % 8 else m % 8
  }

  lemma CarriedOn(m: nat, d: int)
    requires m < 8 && d >= 1
    ensures Carried(m, d) < 8 && Carried(m, d + 1) == Shift(Carried(m, d))
  {
  }

  /** 32-bit addition and subtraction agree with the 25-bit ones. */
  lemma Turn32(x: nat, a: nat, encoding: bool)
    ensures (if encoding then (a % B32 + x) % B32 else (x - a % B32) % B32) % WORDS == Turn(x % WORDS, a, encoding)
  {
    var q := a / B32;
    assert a == q * B32 + a % B32;
    if encoding {
      ModFold(a % B32 + x, a + x % WORDS);
    } else {
      ModFold(x - a % B32, x % WORDS - a);
    }
  }

  lemma ModFold(u: int, v: int)
    requires (u - v) % WORDS == 0
    ensures (u % B32) % WORDS == v % WORDS
  {
  }

  lemma LowMod(q: nat, r: nat, j: nat)
    requires 1 <= j <= 3
    ensures (WORDS * q + r) % Low(j) == r % Low(j)
  {
    if j == 1 {
      QuotientUnique(WORDS * q + r, 256, 0x2_0000 * q + r / 256, r % 256);
    } else if j == 2 {
      QuotientUnique(WORDS * q + r, 65536, 0x200 * q + r / 65536, r % 65536);
    } else {
      QuotientUnique(WORDS * q + r, 16777216, 2 * q + r / 16777216, r % 16777216);
    }
  }

  lemma Flip32(x: nat, j: nat)
    requires 1 <= j <= 3
    ensures Flip(x, j) % WORDS == Flip(x % WORDS, j) && ByteAt(x, j) == ByteAt(x % WORDS, j)
  {
    hide ByteAt;
    var q, r := x / WORDS, x % WORDS;
    assert x == WORDS * q + r;
    LowMod(q, r, j);
    QuotientUnique(Flip(x, j), WORDS, q, Flip(r, j));
    var q2, c, l := ByteParts(r, j);
    var k := if j == 1 then 0x2_0000 else if j == 2 then 0x200 else 2;
    assert Low(j) * k == WORDS;
    assert Low(j) * (q2 + k * q) == Low(j) * q2 + WORDS * q;
    ByteOf(q2 + k * q, c, l, j);
  }

  /** One branch word, as the loop converts it in 32 bits. */
  method ConvertWord(src0: nat, at: nat, encoding: bool, prevMask: nat) returns (dest: nat)
    requires src0 < B32 && prevMask < 8 && Allowed(prevMask)
    requires prevMask != 0 ==> !Edge(ByteAt(src0 % WORDS, CheckAt(prevMask)))
    ensures dest < B32 && dest % WORDS == Converted(src0 % WORDS, at, encoding, CheckAt(prevMask))
  {
    hide ByteAt, Flip, Turn, Edge;
    var src: nat := src0;
    ghost var x := src0 % WORDS;
    ghost var j := CheckAt(prevMask);
    ghost var c: seq<int> := [];
    var a := at % B32;
    while true
      invariant src < B32 && |c| < WORDS
      invariant if c == [] then src == src0 else
        j > 0 && Chain(c, x, at, encoding, j) && Edge(ByteAt(c[|c| - 1], j)) && src % WORDS == Flip(c[|c| - 1], j)
      decreases WORDS - |c|
    {
      Turn32(src, at, encoding);
      if encoding {
        dest := (a + src) % B32;
      } else {
        dest := (src - a) % B32;
      }
      if prevMask == 0 { break; }
      NextChain(c, x, at, encoding, j, dest % WORDS);
      c := c + [dest % WORDS];
      Flip32(dest, j);
      var b := ByteAt(dest, 4 - BitNumber(prevMask));
      if !Edge(b) {
        ChainEnds(c, x, at, encoding, j);
        break;
      }
      ChainGrows(c, x, at, encoding, j);
      Flip32Bound(dest, j);
      src := Flip(dest, 4 - BitNumber(prevMask));
    }
  }

  lemma Flip32Bound(x: nat, j: nat)
    requires 1 <= j <= 3 && x < B32
    ensures Flip(x, j) < B32
  {
  }

  lemma NextChain(c: seq<int>, x: nat, a: int, encoding: bool, j: nat, y: nat)
    requires 1 <= j <= 3 && x < WORDS && !Edge(ByteAt(x, j))
    requires if c == [] then y == Turn(x, a, encoding) else
      Chain(c, x, a, encoding, j) && Edge(ByteAt(c[|c| - 1], j)) && y == Turn(Flip(c[|c| - 1], j), a, encoding)
    ensures Chain(c + [y], x, a, encoding, j)
  {
    hide ByteAt, Flip, Turn, Edge;
    if c != [] { ChainGrows(c, x, a, encoding, j); }
  }

  /** The 32-bit word read from memory and its low 25 bits. */
  lemma ReadWord(d: seq<Byte>, p: nat)
    requires p + 4 < |d| && Edge(d[p + 4])
    ensures (d[p + 1] + 256 * d[p + 2] as int + 65536 * d[p + 3] as int + 16777216 * d[p + 4] as int) % WORDS == WordAt(d, p)
  {
  }

  method WriteWord(data: array<Byte>, p: nat, dest: nat)
    requires p + 4 < data.Length && dest < B32
    modifies data
    ensures data[..] == PutWord(old(data[..]), p, dest % WORDS)
  {
    ghost var was: seq<Byte> := data[..];
    LowBytes(dest);
    data[p + 4] := if (dest / 16777216) % 2 == 1 then 255 else 0;
    data[p + 3] := (dest / 65536) % 256;
    data[p + 2] := (dest / 256) % 256;
    data[p + 1] := dest % 256;
    ghost var now: seq<Byte> := PutWord(was, p, dest % WORDS);
    assert data[..] == now;
  }

  lemma LowBytes(x: nat)
    ensures x % 256 == (x % WORDS) % 256 && (x / 256) % 256 == ((x % WORDS) / 256) % 256
    ensures (x / 65536) % 256 == ((x % WORDS) / 65536) % 256 && (x / 16777216) % 2 == ((x % WORDS) / 16777216) % 2
  {
    hide Flip;
    Flip32(x, 1);
    Flip32(x, 2);
    Flip32(x, 3);
    TopBit(x);
    assert x / 1 == x && (x % WORDS) / 1 == x % WORDS;
  }

  lemma TopBit(x: nat)
    ensures (x / 16777216) % 2 == ((x % WORDS) / 16777216) % 2
  {
    var q, r := x / WORDS, x % WORDS;
    assert x == WORDS * q + r;
    QuotientUnique(x, 16777216, 2 * q + r / 16777216, r % 16777216);
  }

  /** The branch at p, converted in place. */
  method ConvertBranch(data: array<Byte>, p: nat, ip: nat, encoding: bool, w: nat)
    requires p + 4 < data.Length && w < 8 && Takes(data[..], p, w)
    modifies data
    ensures data[..] == Branch(old(data[..]), p, w, ip, encoding)
  {
    hide Takes, Branch, Converted, PutWord, WordAt;
    ghost var d := data[..];
    TakesParts(d, p, w);
    ghost var y := BranchIs(d, p, w, ip, encoding);
    ReadWord(d, p);
    var src: nat := data[p + 1] + 256 * data[p + 2] as int + 65536 * data[p + 3] as int + 16777216 * data[p + 4] as int;
    var dest := ConvertWord(src, ip + 5 + p, encoding, w);
    WriteWord(data, p, dest);
  }

  lemma TakesParts(d: seq<Byte>, p: nat, w: nat)
    requires p + 4 < |d| && Takes(d, p, w)
    ensures Allowed(w) && Edge(d[p + 4])
  {
  }

  /**
   * One call over the whole buffer, given the address of its first byte and the mask of the call before;
   * bytes too close to the end wait for the next call.
   */
  method X86Convert(data: array<Byte>, ip: nat, state: nat, encoding: bool) returns (bufferPos: nat, newState: nat)
    modifies data
    ensures Filter(old(data[..]), data.Length, 0, state % 8, ip, encoding) == Pass(data[..], bufferPos, newState % 8)
  {
    hide Filter, Branch, Takes, Converted, Carried, NextMask;
    ghost var goal := Filter(data[..], data.Length, 0, state % 8, ip, encoding);
    var size := data.Length;
    var prevMask: nat := state % 8;
    if size < 5 {
      FilterEnd(data[..], size, 0, state % 8, ip, encoding);
      return 0, state;
    }
    bufferPos := 0;
    var prevPosT: int := -1;
    CarriedOne(prevMask);
    while true
      invariant -1 <= prevPosT < bufferPos <= size && prevMask < 8 && Carried(prevMask, bufferPos - prevPosT) < 8
      invariant goal == Filter(data[..], size, bufferPos, Carried(prevMask, bufferPos - prevPosT), ip, encoding)
      decreases size - bufferPos
    {
      var p := SkipOthers(data, bufferPos, prevPosT, prevMask, ip, encoding, goal);
      bufferPos := p;
      if p + 4 >= size {
        FilterEnd(data[..], size, p, Carried(prevMask, p - prevPosT), ip, encoding);
        break;
      }
      var dist := bufferPos - prevPosT;
      prevMask := Carried(prevMask, dist);
      Choices(data[..], p, prevMask);
      if prevMask != 0 {
        if !Allowed(prevMask) || Edge(data[p + (4 - BitNumber(prevMask))]) {
          FilterPass(data[..], size, p, prevMask, ip, encoding);
          prevPosT := bufferPos;
          prevMask := NextMask(data[p], prevMask);
          bufferPos := bufferPos + 1;
          CarriedOne(prevMask);
          continue;
        }
      }
      prevPosT := bufferPos;
      if Edge(data[p + 4]) {
        FilterTake(data[..], size, p, prevMask, ip, encoding);
        ConvertBranch(data, p, ip, encoding, prevMask);
        bufferPos := bufferPos + 5;
        CarriedFar(prevMask);
      } else {
        FilterPass(data[..], size, p, prevMask, ip, encoding);
        prevMask := NextMask(data[p], prevMask);
        bufferPos := bufferPos + 1;
        CarriedOne(prevMask);
      }
    }
    newState := Carried(prevMask, bufferPos - prevPosT);
  }

  lemma CarriedOne(m: nat)
    requires m < 8
    ensures Carried(m, 1) == m
  {
  }

  lemma CarriedFar(m: nat)
    ensures Carried(m, 5) == 0
  {
  }

  lemma Choices(d: seq<Byte>, p: nat, w: nat)
    requires p + 4 < |d| && w < 8 && Opcode(d[p])
    ensures w != 0 && (!Allowed(w) || Edge(d[p + (4 - BitNumber(w))])) ==> !Takes(d, p, w)
    ensures (w == 0 || (Allowed(w) && !Edge(d[p + (4 - BitNumber(w))]))) ==> Takes(d, p, w) == Edge(d[p + 4])
  {
  }

  /** Bytes that are no opcodes are passed over. */
  method SkipOthers(data: array<Byte>, bufferPos: nat, ghost prevPosT: int, ghost prevMask: nat, ghost ip: nat, ghost encoding: bool,
                    ghost goal: Pass) returns (p: nat)
    requires prevPosT < bufferPos <= data.Length && prevMask < 8 && Carried(prevMask, bufferPos - prevPosT) < 8
    requires goal == Filter(data[..], data.Length, bufferPos, Carried(prevMask, bufferPos - prevPosT), ip, encoding)
    ensures bufferPos <= p <= data.Length && Carried(prevMask, p - prevPosT) < 8
    ensures goal == Filter(data[..], data.Length, p, Carried(prevMask, p - prevPosT), ip, encoding)
    ensures p + 4 < data.Length ==> Opcode(data[p])
  {
    hide Filter, Carried;
    p := bufferPos;
    while p + 4 < data.Length
      invariant bufferPos <= p <= data.Length && Carried(prevMask, p - prevPosT) < 8
      invariant goal == Filter(data[..], data.Length, p, Carried(prevMask, p - prevPosT), ip, encoding)
    {
      if Opcode(data[p]) { break; }
      FilterPass(data[..], data.Length, p, Carried(prevMask, p - prevPosT), ip, encoding);
      CarriedOn(prevMask, p - prevPosT);
      p := p + 1;
    }
  }
}
