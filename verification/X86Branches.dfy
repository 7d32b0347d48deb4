/**
 * Which bytes the x86 filter changes, and to what: a CALL or JMP (E8 or E9) whose operand ends in 00 or FF has its
 * address added to or taken from the operand's low 25 bits; near other opcodes one byte of the operand guards it.
 */
module X86Branches {
  import opened Bytes
  import opened Residues
  import opened BranchWords
  import opened X86Filter

  /** The little-endian word after p. */
  function Operand(d: seq<Byte>, p: nat): (x: nat)
    requires p + 4 < |d|
  {
    d[p + 1] as int + 0x100 * (d[p + 2] as int) + 0x1_0000 * (d[p + 3] as int) + 0x100_0000 * (d[p + 4] as int)
  }

  /** d with the word x, its low 25 bits sign-extended, written little-endian after p. */
  function WithOperand(d: seq<Byte>, p: nat, x: nat): (e: seq<Byte>)
    requires p + 4 < |d|
    ensures |e| == |d|
  {
    d[..p + 1] + [x % 0x100, x / 0x100 % 0x100, x / 0x1_0000 % 0x100, if x % 0x200_0000 < 0x100_0000 then 0x00 else 0xFF] + d[p + 5..]
  }

  /** The 25 bits of a word moved by the address of the next instruction. */
  function Moved(x: int, ip: nat, p: nat, encoding: bool): nat {
    if encoding then (x + (ip + p + 5)) % 0x200_0000 else (x - (ip + p + 5)) % 0x200_0000
  }

  /** The byte of an operand that guards it, k bytes after the opcode. */
  function GuardOf(x: nat, k: nat): nat {
    if k == 1 then x % 0x100 else if k == 2 then x / 0x100 % 0x100 else x / 0x1_0000 % 0x100
  }

  /** The bits up to and including the guard turned over. */
  function TurnedOver(x: nat, k: nat): int {
    var p := if k == 1 then 0x100 else if k == 2 then 0x1_0000 else 0x100_0000;
    x - x % p + (p - 1 - x % p)
  }

  /** Operands moved one after the other until the guard is neither 00 nor FF. */
  ghost predicate Tries(c: seq<nat>, x: nat, ip: nat, p: nat, encoding: bool, k: nat) {
    && |c| > 0 && c[0] == Moved(x, ip, p, encoding)
    && (forall i, j :: 0 <= i < j < |c| && j == i + 1 ==> c[j] == Moved(TurnedOver(c[i], k), ip, p, encoding))
    && (forall i :: 0 <= i < |c| ==> (i < |c| - 1 <==> GuardOf(c[i], k) == 0x00 || GuardOf(c[i], k) == 0xFF))
  }

  /** The guard that goes with a mask of one recent opcode. */
  predicate Guards(w: nat, k: nat) { (w == 1 && k == 3) || (w == 2 && k == 2) || (w == 4 && k == 1) }

  lemma MovedIs(x: nat, y: nat, ip: nat, p: nat, encoding: bool)
    requires x % 0x200_0000 == y % 0x200_0000
    ensures Moved(x, ip, p, encoding) == Turn(y, ip + 5 + p, encoding)
  {
    var a: int := if encoding then ip + p + 5 else -(ip + p + 5);
    SameRest(x, y, a);
    assert Moved(x, ip, p, encoding) == (x + a) % WORDS && Turn(y, ip + 5 + p, encoding) == (y + a) % WORDS;
  }

  lemma SameRest(x: nat, y: nat, a: int)
    requires x % WORDS == y % WORDS
    ensures (x + a) % WORDS == (y + a) % WORDS
  {
    var q := x / WORDS - y / WORDS;
    assert x + a == WORDS * q + (y + a);
  }

  lemma OperandIs(d: seq<Byte>, p: nat)
    requires p + 4 < |d| && (d[p + 4] == 0x00 || d[p + 4] == 0xFF)
    ensures Operand(d, p) % 0x200_0000 == WordAt(d, p) == WordAt(d, p) % 0x200_0000
  {
    ReadWord(d, p);
  }

  lemma WithOperandIs(d: seq<Byte>, p: nat, y: nat)
    requires p + 4 < |d| && y < WORDS
    ensures WithOperand(d, p, y) == PutWord(d, p, y)
  {
    var e, f := WithOperand(d, p, y), PutWord(d, p, y);
    TopHalf(y);
    assert e[p + 1] == y % 256 && e[p + 2] == y / 256 % 256 && e[p + 3] == y / 65536 % 256;
    forall i | 0 <= i < |d| ensures e[i] == f[i] {
    }
  }

  lemma TopHalf(y: nat)
    requires y < WORDS
    ensures (y / 0x100_0000) % 2 == 1 <==> y % 0x200_0000 >= 0x100_0000
  {
  }

  /** Far from other opcodes a branch is moved by the address after it. */
  lemma BranchMoves(d: seq<Byte>, size: nat, p: nat, ip: nat, encoding: bool)
    requires size <= |d| && p + 4 < size && (d[p] == 0xE8 || d[p] == 0xE9) && (d[p + 4] == 0x00 || d[p + 4] == 0xFF)
    ensures Filter(d, size, p, 0, ip, encoding) ==
            Filter(WithOperand(d, p, Moved(Operand(d, p), ip, p, encoding)), size, p + 5, 0, ip, encoding)
  {
    hide Filter, WithOperand, Operand, PutWord, WordAt, Turn, Moved;
    FilterTake(d, size, p, 0, ip, encoding);
    OperandIs(d, p);
    MovedIs(Operand(d, p), WordAt(d, p), ip, p, encoding);
    WithOperandIs(d, p, Turn(WordAt(d, p), ip + 5 + p, encoding));
  }

  /** Close behind an opcode left alone it is moved, again and again, until its guard is neither 00 nor FF. */
  lemma GuardedMoves(d: seq<Byte>, size: nat, p: nat, w: nat, k: nat, ip: nat, encoding: bool) returns (c: seq<nat>)
    requires size <= |d| && p + 4 < size && (d[p] == 0xE8 || d[p] == 0xE9) && (d[p + 4] == 0x00 || d[p + 4] == 0xFF)
    requires Guards(w, k) && d[p + k] != 0x00 && d[p + k] != 0xFF
    ensures |c| > 0 && Tries(c, Operand(d, p), ip, p, encoding, k)
    ensures Filter(d, size, p, w, ip, encoding) == Filter(WithOperand(d, p, c[|c| - 1]), size, p + 5, 0, ip, encoding)
  {
    hide Filter, WithOperand, Operand, PutWord, WordAt, Turn, Moved, Tries, Settle, Chain, ByteAt;
    FilterTake(d, size, p, w, ip, encoding);
    OperandIs(d, p);
    WordBytes(d, p, k);
    c := Settled(WordAt(d, p), Operand(d, p), ip, p, encoding, k);
    WithOperandIs(d, p, c[|c| - 1]);
  }

  lemma Settled(x: nat, y: nat, ip: nat, p: nat, encoding: bool, k: nat) returns (c: seq<nat>)
    requires x < WORDS && 1 <= k <= 3 && !Edge(ByteAt(x, k)) && y % 0x200_0000 == x
    ensures |c| > 0 && Tries(c, y, ip, p, encoding, k) && c[|c| - 1] == Converted(x, ip + 5 + p, encoding, k)
  {
    hide ByteAt, Edge, Turn, Moved, Chain, Tries;
    var a := ip + 5 + p;
    MovedIs(y, x, ip, p, encoding);
    FirstTry(x, a, encoding, k);
    var r := Settle([Turn(x, a, encoding)], x, a, encoding, k);
    ChainNats(r, x, a, encoding, k);
    c := seq(|r|, i requires 0 <= i < |r| => r[i] as nat);
    ChainTries(c, r, x, y, ip, p, encoding, k);
  }

  lemma FirstTry(x: nat, a: nat, encoding: bool, k: nat)
    requires x < WORDS && 1 <= k <= 3 && !Edge(ByteAt(x, k))
    ensures Chain([Turn(x, a, encoding)], x, a, encoding, k)
  {
    hide ByteAt, Edge, Turn;
  }

  lemma ChainNats(r: seq<int>, x: nat, a: nat, encoding: bool, k: nat)
    requires Chain(r, x, a, encoding, k)
    ensures |r| >= 1 && forall i :: 0 <= i < |r| ==> 0 <= r[i] < WORDS
  {
    hide ByteAt, Edge, Turn, Flip;
  }

  lemma ChainTries(c: seq<nat>, r: seq<int>, x: nat, y: nat, ip: nat, p: nat, encoding: bool, k: nat)
    requires Chain(r, x, ip + 5 + p, encoding, k) && !Edge(ByteAt(r[|r| - 1], k))
    requires |c| == |r| && (forall i :: 0 <= i < |r| ==> c[i] == r[i] < WORDS)
    requires Moved(y, ip, p, encoding) == Turn(x, ip + 5 + p, encoding)
    ensures Tries(c, y, ip, p, encoding, k)
  {
    hide ByteAt, Flip, Turn, Moved, TurnedOver, GuardOf, Edge;
    forall i | 0 <= i < |c| ensures i < |c| - 1 <==> GuardOf(c[i], k) == 0x00 || GuardOf(c[i], k) == 0xFF {
      SameGuard(c[i], k);
      assert i < |c| - 1 <==> Edge(ByteAt(r[i], k));
    }
    forall i, j | 0 <= i < j < |c| && j == i + 1 ensures c[j] == Moved(TurnedOver(c[i], k), ip, p, encoding) {
      SameTurn(c[i], k, ip, p, encoding);
      assert r[j] == Turn(Flip(r[i], k), ip + 5 + p, encoding);
    }
  }

  lemma SameGuard(x: nat, k: nat)
    requires 1 <= k <= 3
    ensures Edge(ByteAt(x, k)) <==> GuardOf(x, k) == 0x00 || GuardOf(x, k) == 0xFF
  {
  }

  lemma SameTurn(x: nat, k: nat, ip: nat, p: nat, encoding: bool)
    requires 1 <= k <= 3
    ensures Moved(TurnedOver(x, k), ip, p, encoding) == Turn(Flip(x, k), ip + 5 + p, encoding)
  {
    assert TurnedOver(x, k) == Flip(x, k);
    MovedIs(Flip(x, k), Flip(x, k), ip, p, encoding);
  }

  /** What stands in the way of moving what is at p. */
  predicate LeftAlone(d: seq<Byte>, p: nat, w: nat)
    requires p + 4 < |d|
  {
    || (d[p] != 0xE8 && d[p] != 0xE9)
    || (d[p + 4] != 0x00 && d[p + 4] != 0xFF)
    || w == 3 || w >= 5
    || (w == 1 && (d[p + 3] == 0x00 || d[p + 3] == 0xFF))
    || (w == 2 && (d[p + 2] == 0x00 || d[p + 2] == 0xFF))
    || (w == 4 && (d[p + 1] == 0x00 || d[p + 1] == 0xFF))
  }

  /** Everything else is passed over; the mask remembers which of the last three bytes were opcodes. */
  lemma Passes(d: seq<Byte>, size: nat, p: nat, w: nat, ip: nat, encoding: bool)
    requires size <= |d| && p + 4 < size && w < 8 && LeftAlone(d, p, w)
    ensures Filter(d, size, p, w, ip, encoding) ==
            Filter(d, size, p + 1, w % 4 * 2 + (if d[p] == 0xE8 || d[p] == 0xE9 then 1 else 0), ip, encoding)
  {
    hide Filter;
    FilterPass(d, size, p, w, ip, encoding);
  }

  /** Data without opcodes stay as they are, and all but the last four bytes are done with. */
  lemma {:induction false} NothingToMove(d: seq<Byte>, size: nat, p: nat, w: nat, ip: nat, encoding: bool)
    requires size <= |d| && w < 8 && forall i :: p <= i && i + 4 < size ==> d[i] != 0xE8 && d[i] != 0xE9
    ensures Filter(d, size, p, w, ip, encoding).data == d
    ensures Filter(d, size, p, w, ip, encoding).pos == if p + 4 < size then size - 4 else p
    decreases size - p
  {
    hide Filter;
    if p + 4 < size {
      Passes(d, size, p, w, ip, encoding);
      NothingToMove(d, size, p + 1, w % 4 * 2, ip, encoding);
    } else {
      FilterEnd(d, size, p, w, ip, encoding);
    }
  }

  /** Every case is one of these. */
  lemma AllCases(d: seq<Byte>, size: nat, p: nat, w: nat)
    requires size <= |d| && w < 8 && p + 4 < size && !LeftAlone(d, p, w)
    ensures (d[p] == 0xE8 || d[p] == 0xE9) && (d[p + 4] == 0x00 || d[p + 4] == 0xFF)
    ensures w == 0 || exists k :: Guards(w, k) && d[p + k] != 0x00 && d[p + k] != 0xFF
  {
    if w == 1 { assert Guards(w, 3); } else if w == 2 { assert Guards(w, 2); } else if w == 4 { assert Guards(w, 1); }
  }
}
