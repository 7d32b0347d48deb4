/** The bytes of assembled code, and what a processor reads in them: branches arrive at the labels they aim at. */
module DasmCode {
  import opened Bytes
  import opened DasmActions
  import opened DasmLayout

  /** Where the code will stand, and the addresses of global labels, from number 10 on. */
  datatype World = World(base: int, globals: seq<int>)

  function Low(v: int): Byte { v % 256 }

  function Word2(v: int): seq<Byte> { [Low(v), Low(v / 256)] }

  function Word4(v: int): (s: seq<Byte>)
    ensures |s| == 4
  {
    [Low(v), Low(v / 0x100), Low(v / 0x1_0000), Low(v / 0x100_0000)]
  }

  function Signed8(b: Byte): int { if b < 128 then b else b - 256 }

  function Unsigned32(s: seq<Byte>): nat
    requires |s| == 4
  {
    s[0] as int + 0x100 * (s[1] as int) + 0x1_0000 * (s[2] as int) + 0x100_0000 * (s[3] as int)
  }

  function Signed32(s: seq<Byte>): int
    requires |s| == 4
  {
    if s[3] < 128 then Unsigned32(s) else Unsigned32(s) - 0x1_0000_0000
  }

  lemma Word4Is(v: int)
    ensures Unsigned32(Word4(v)) == v % 0x1_0000_0000
    ensures -0x8000_0000 <= v < 0x8000_0000 ==> Signed32(Word4(v)) == v
  {
    var a, b, c := v / 0x100, v / 0x1_0000, v / 0x100_0000;
    assert v == 0x100 * a + Low(v);
    assert b == a / 0x100 && a == 0x100 * b + Low(a);
    assert c == b / 0x100 && b == 0x100 * c + Low(b);
    assert v == 0x100_0000 * c + 0x1_0000 * Low(b) + 0x100 * Low(a) + Low(v);
    var d := c / 0x100;
    assert c == 0x100 * d + Low(c);
    assert v == 0x1_0000_0000 * d + Unsigned32(Word4(v));
  }

  function ImmBytes(a: Byte, v: int): (s: seq<Byte>)
    ensures |s| == ImmSize(a)
  {
    if a == IMM_W then Word2(v) else if a == IMM_D then Word4(v) else [Low(v)]
  }

  /**
   * An immediate is in range exactly if its bytes, read as the action says, give it back: 234 a signed byte, 235 an
   * unsigned byte, 236 two bytes; 237 takes any number, to 32 bits.
   */
  lemma ImmediateReads(a: Byte, v: int)
    ensures IsImm(a) <==> 234 <= a <= 237
    ensures a == 234 ==> |ImmBytes(a, v)| == 1 && (InRange(a, v) <==> Signed8(ImmBytes(a, v)[0]) == v)
    ensures a == 235 ==> |ImmBytes(a, v)| == 1 && (InRange(a, v) <==> ImmBytes(a, v)[0] as int == v)
    ensures a == 236 ==>
              |ImmBytes(a, v)| == 2 && (InRange(a, v) <==> ImmBytes(a, v)[0] as int + 0x100 * (ImmBytes(a, v)[1] as int) == v)
    ensures a == 237 ==> |ImmBytes(a, v)| == 4 && InRange(a, v) && Unsigned32(ImmBytes(a, v)) == v % 0x1_0000_0000
  {
    if a == 237 { Word4Is(v); }
    if a == 236 && 0 <= v < 0x1_0000 {
      assert v == 0x100 * (v / 0x100) + v % 0x100 && v / 0x100 < 0x100;
    }
  }

  /** Code with a branch put at its end: the opcode as it stands, or made short. */
  function Branched(out: seq<Byte>, s: nat, d: int): seq<Byte> {
    if s == 4 && |out| >= 2 then out[..|out| - 2] + [Low(out[|out| - 1] as int - 0x10), Low(d)]
    else if s == 3 && |out| >= 1 then out[..|out| - 1] + [0xeb, Low(d)]
    else out + Word4(d)
  }

  ghost predicate Ready(cs: seq<Cell>, aim: seq<int>, w: World) {
    && Aimed(cs, aim) && Branches(cs) && Masks(cs)
    && forall i :: 0 <= i < |cs| && (cs[i].kind.Rel? || cs[i].kind.Addr?) && aim[i] < 0 ==> -aim[i] < |w.globals|
  }

  /** From `end` to where the reference at i aims. */
  ghost function Gap(cs: seq<Cell>, aim: seq<int>, w: World, i: nat, end: int): int
    requires i < |cs| && cs[i].kind.Rel? && Ready(cs, aim, w)
  {
    if aim[i] < 0 then w.globals[-aim[i]] - (w.base + end) else Final(cs, aim, aim[i]) - end
  }

  /** The address a reference at i stands for. */
  ghost function Address(cs: seq<Cell>, aim: seq<int>, w: World, i: nat): int
    requires i < |cs| && cs[i].kind.Addr? && Ready(cs, aim, w)
  {
    if aim[i] < 0 then w.globals[-aim[i]] else Final(cs, aim, aim[i]) + w.base
  }

  function Fill(n: nat, b: Byte): (s: seq<Byte>)
    ensures |s| == n && forall k :: 0 <= k < n ==> s[k] == b
  {
    seq(n, _ => b)
  }

  /** An entry's own bytes, unless it is a branch, at offset `at`. */
  ghost function Own(cs: seq<Cell>, aim: seq<int>, w: World, i: nat, at: nat): seq<Byte>
    requires i < |cs| && !cs[i].kind.Rel? && Ready(cs, aim, w)
  {
    match cs[i].kind
    case Imm(a, v) => ImmBytes(a, v)
    case Space(n, b) => Fill(n, b)
    case Addr(_, _) => Word4(Address(cs, aim, w, i))
    case Align(m) => Fill(Pad(at, m + 1), 0x90)
    case _ => []
  }

  /** The code before entry i. */
  ghost function Upto(cs: seq<Cell>, aim: seq<int>, w: World, i: nat): seq<Byte>
    requires i <= |cs| && Ready(cs, aim, w)
    decreases i, 0
  {
    if i == 0 then [] else Done(cs, aim, w, i - 1) + cs[i - 1].tail
  }

  /** The code with the bytes of entry i, before the plain bytes that follow it. */
  ghost function Done(cs: seq<Cell>, aim: seq<int>, w: World, i: nat): seq<Byte>
    requires i < |cs| && Ready(cs, aim, w)
    decreases i, 1
  {
    var out := Upto(cs, aim, w, i);
    if cs[i].kind.Rel? then Branched(out, Shrink(cs, aim, i), Gap(cs, aim, w, i, Final(cs, aim, i + 1)))
    else out + Own(cs, aim, w, i, |out|)
  }

  lemma OpcodeAfter(done: seq<Byte>, tail: seq<Byte>, op: Byte)
    requires Opcode(tail, op)
    ensures Opcode(done + tail, op)
  {
  }

  lemma ShrinkIs(cs: seq<Cell>, aim: seq<int>, i: nat)
    requires i < |cs| && cs[i].kind.Rel? && Aimed(cs, aim)
    ensures Shrink(cs, aim, i) == 0 || (Shrink(cs, aim, i) == ShortBy(cs[i].kind.op) && aim[i] >= 0)
    ensures Shrink(cs, aim, i) == 0 || Shrink(cs, aim, i) == 3 || Shrink(cs, aim, i) == 4
  {
  }

  lemma OpcodeBefore(cs: seq<Cell>, aim: seq<int>, w: World, i: nat)
    requires i < |cs| && cs[i].kind.Rel? && Ready(cs, aim, w)
    ensures Opcode(Upto(cs, aim, w, i), cs[i].kind.op)
  {
    hide Opcode, Done, Saved, Shrink;
    assert i > 0 && Opcode(cs[i - 1].tail, cs[i].kind.op);
    OpcodeAfter(Done(cs, aim, w, i - 1), cs[i - 1].tail, cs[i].kind.op);
  }

  lemma BranchedSize(out: seq<Byte>, op: Byte, s: nat, d: int)
    requires Opcode(out, op) && (s == 0 || s == ShortBy(op))
    ensures |Branched(out, s, d)| == |out| + 4 - s
  {
  }

  /** The own bytes of an entry fill its place. */
  lemma OwnSize(cs: seq<Cell>, aim: seq<int>, w: World, i: nat)
    requires i < |cs| && !cs[i].kind.Rel? && Ready(cs, aim, w)
    ensures Final(cs, aim, i) >= 0
    ensures Final(cs, aim, i) + |Own(cs, aim, w, i, Final(cs, aim, i))| + |cs[i].tail| == Final(cs, aim, i + 1)
  {
    FinalFrom0(cs, aim, i);
    if cs[i].kind.Align? {
      Aligned(cs, aim, i);
    } else {
      Step(cs, aim, i);
      assert Saved(cs, aim, i + 1) == Saved(cs, aim, i);
    }
  }

  /** The code is as long as the layout says, before every entry. */
  lemma {:induction false} UptoSize(cs: seq<Cell>, aim: seq<int>, w: World, i: nat)
    requires i <= |cs| && Ready(cs, aim, w)
    ensures |Upto(cs, aim, w, i)| == Final(cs, aim, i)
    decreases i, 0
  {
    if i > 0 {
      DoneSize(cs, aim, w, i - 1);
    }
  }

  lemma DoneSize(cs: seq<Cell>, aim: seq<int>, w: World, i: nat)
    requires i < |cs| && Ready(cs, aim, w)
    ensures |Upto(cs, aim, w, i)| == Final(cs, aim, i)
    ensures |Done(cs, aim, w, i)| + |cs[i].tail| == Final(cs, aim, i + 1)
    decreases i, 1
  {
    UptoSize(cs, aim, w, i);
    if cs[i].kind.Rel? {
      OpcodeBefore(cs, aim, w, i);
      ShrinkIs(cs, aim, i);
      BranchedSize(Upto(cs, aim, w, i), cs[i].kind.op, Shrink(cs, aim, i), Gap(cs, aim, w, i, Final(cs, aim, i + 1)));
      RelSize(cs, aim, i);
    } else {
      OwnSize(cs, aim, w, i);
    }
  }

  lemma RelSize(cs: seq<Cell>, aim: seq<int>, i: nat)
    requires i < |cs| && cs[i].kind.Rel? && Aimed(cs, aim) && Branches(cs)
    ensures Final(cs, aim, i + 1) == Final(cs, aim, i) + 4 - Shrink(cs, aim, i) && cs[i].tail == []
  {
    assert Saved(cs, aim, i + 1) == Saved(cs, aim, i) - Shrink(cs, aim, i);
  }

  /** How many bytes before entry i it rewrites. */
  function Cut(cs: seq<Cell>, aim: seq<int>, i: nat): (n: nat)
    requires i <= |cs| && Aimed(cs, aim)
    ensures n <= 2
  {
    if i == |cs| || !cs[i].kind.Rel? || Shrink(cs, aim, i) == 0 then 0
    else if Shrink(cs, aim, i) == 4 then 2 else 1
  }

  lemma CutSmall(cs: seq<Cell>, aim: seq<int>, i: nat)
    requires i <= |cs| && Aimed(cs, aim) && Branches(cs)
    ensures Cut(cs, aim, i) > 0 ==> i > 0 && Cut(cs, aim, i) <= |cs[i - 1].tail|
  {
  }

  lemma CutFits(cs: seq<Cell>, aim: seq<int>, w: World, i: nat)
    requires i <= |cs| && Ready(cs, aim, w)
    ensures Cut(cs, aim, i) <= |Upto(cs, aim, w, i)|
  {
    CutSmall(cs, aim, i);
  }

  /** The code before entry i that no later entry touches. */
  ghost function Firm(cs: seq<Cell>, aim: seq<int>, w: World, i: nat): seq<Byte>
    requires i <= |cs| && Ready(cs, aim, w)
  {
    CutFits(cs, aim, w, i);
    var out := Upto(cs, aim, w, i);
    out[..|out| - Cut(cs, aim, i)]
  }

  lemma FirmDone(cs: seq<Cell>, aim: seq<int>, w: World, i: nat)
    requires i < |cs| && Ready(cs, aim, w)
    ensures Firm(cs, aim, w, i) <= Done(cs, aim, w, i) <= Firm(cs, aim, w, i + 1)
  {
    CutSmall(cs, aim, i);
    FirmIs(cs, aim, w, i);
  }

  lemma {:induction false} FirmStays(cs: seq<Cell>, aim: seq<int>, w: World, i: nat, j: nat)
    requires i <= j <= |cs| && Ready(cs, aim, w)
    ensures Firm(cs, aim, w, i) <= Firm(cs, aim, w, j)
  {
    hide Firm, Done, Upto, Ready;
    if i < j {
      FirmStays(cs, aim, w, i, j - 1);
      FirmDone(cs, aim, w, j - 1);
    }
  }

  ghost function Code(cs: seq<Cell>, aim: seq<int>, w: World): seq<Byte>
    requires Ready(cs, aim, w)
  {
    Upto(cs, aim, w, |cs|)
  }

  lemma DoneStays(cs: seq<Cell>, aim: seq<int>, w: World, i: nat)
    requires i < |cs| && Ready(cs, aim, w)
    ensures Done(cs, aim, w, i) <= Code(cs, aim, w)
  {
    FirmDone(cs, aim, w, i);
    FirmStays(cs, aim, w, i + 1, |cs|);
  }

  /** Immediates, addresses, space and padding stand in the code at the final offset of their entry. */
  lemma OwnStands(cs: seq<Cell>, aim: seq<int>, w: World, i: nat)
    requires i < |cs| && !cs[i].kind.Rel? && Ready(cs, aim, w)
    ensures var at := Final(cs, aim, i);
            at >= 0 && at + |Own(cs, aim, w, i, at)| <= |Code(cs, aim, w)| &&
            Code(cs, aim, w)[at..at + |Own(cs, aim, w, i, at)|] == Own(cs, aim, w, i, at)
  {
    var out := Upto(cs, aim, w, i);
    UptoSize(cs, aim, w, i);
    DoneStays(cs, aim, w, i);
    assert Done(cs, aim, w, i) == out + Own(cs, aim, w, i, |out|);
  }

  /** Plain bytes stand before the next entry, but for the opcode of a branch made short. */
  lemma TailStands(cs: seq<Cell>, aim: seq<int>, w: World, i: nat)
    requires i < |cs| && Ready(cs, aim, w)
    ensures var n := |cs[i].tail| - Cut(cs, aim, i + 1);
            var at := Final(cs, aim, i + 1) - |cs[i].tail|;
            n >= 0 && 0 <= at && at + n <= |Code(cs, aim, w)| && Code(cs, aim, w)[at..at + n] == cs[i].tail[..n]
  {
    hide Done, Upto, Final, Firm, Code, Cut;
    DoneSize(cs, aim, w, i);
    FirmIs(cs, aim, w, i);
    FirmStays(cs, aim, w, i + 1, |cs|);
    FirmAll(cs, aim, w);
    PartStands(Done(cs, aim, w, i), cs[i].tail[..|cs[i].tail| - Cut(cs, aim, i + 1)], Code(cs, aim, w));
  }

  lemma PartStands(a: seq<Byte>, b: seq<Byte>, code: seq<Byte>)
    requires a + b <= code
    ensures |a| + |b| <= |code| && code[|a|..|a| + |b|] == b
  {
    assert (a + b)[|a|..] == b;
  }

  lemma FirmIs(cs: seq<Cell>, aim: seq<int>, w: World, i: nat)
    requires i < |cs| && Ready(cs, aim, w)
    ensures Cut(cs, aim, i + 1) <= |cs[i].tail|
    ensures Firm(cs, aim, w, i + 1) == Done(cs, aim, w, i) + cs[i].tail[..|cs[i].tail| - Cut(cs, aim, i + 1)]
  {
    CutSmall(cs, aim, i + 1);
    assert Upto(cs, aim, w, i + 1) == Done(cs, aim, w, i) + cs[i].tail;
  }

  lemma FirmAll(cs: seq<Cell>, aim: seq<int>, w: World)
    requires Ready(cs, aim, w)
    ensures Firm(cs, aim, w, |cs|) == Code(cs, aim, w)
  {
  }

  /**
   * A processor that reads `code` finds, ending at `end`, the branch with opcode `op`, in its short or its long form,
   * and goes on at `dest`.
   */
  predicate JumpsTo(code: seq<Byte>, op: Byte, end: int, dest: int, short: bool) {
    if short then
      && 2 <= end <= |code| && code[end - 2] == (if op == 0xe9 then 0xeb else op - 0x10)
      && end + Signed8(code[end - 1]) == dest
    else
      && 5 <= end <= |code| && code[end - 5] == op && (0x80 <= op < 0x90 ==> end >= 6 && code[end - 6] == 0x0f)
      && end + Signed32(code[end - 4..end]) == dest
  }

  lemma BranchedJumps(out: seq<Byte>, op: Byte, s: nat, d: int)
    requires Opcode(out, op) && (s == 0 || s == ShortBy(op))
    requires if s == 0 then -0x8000_0000 <= d < 0x8000_0000 else -128 <= d < 128
    ensures var all := Branched(out, s, d); JumpsTo(all, op, |all|, |all| + d, s > 0)
  {
    var all := Branched(out, s, d);
    if s == 0 {
      Word4Is(d);
      assert all[|all| - 4..] == Word4(d);
      assert all[|all| - 4..|all|] == all[|all| - 4..];
    } else if s == 4 {
    } else {
      assert s == 3 && op == 0xe9;
    }
  }

  lemma DoneIs(cs: seq<Cell>, aim: seq<int>, w: World, i: nat)
    requires i < |cs| && cs[i].kind.Rel? && Ready(cs, aim, w)
    ensures var out, end := Upto(cs, aim, w, i), Final(cs, aim, i + 1);
            Opcode(out, cs[i].kind.op) && (Shrink(cs, aim, i) == 0 || Shrink(cs, aim, i) == ShortBy(cs[i].kind.op)) &&
            Done(cs, aim, w, i) == Branched(out, Shrink(cs, aim, i), Gap(cs, aim, w, i, end)) &&
            |Done(cs, aim, w, i)| == end && (aim[i] < 0 ==> Shrink(cs, aim, i) == 0)
  {
    hide Upto, Saved, Shrink, Branched, Gap, Opcode;
    OpcodeBefore(cs, aim, w, i);
    ShrinkIs(cs, aim, i);
    DoneSize(cs, aim, w, i);
    RelSize(cs, aim, i);
  }

  /** A jump is read in any code that begins with the code it ends. */
  lemma StillJumps(done: seq<Byte>, code: seq<Byte>, op: Byte, dest: int, short: bool)
    requires done <= code && JumpsTo(done, op, |done|, dest, short)
    ensures JumpsTo(code, op, |done|, dest, short)
  {
    if !short {
      assert done[|done| - 4..|done|] == code[|done| - 4..|done|];
    }
  }

  /** Long branches have room for any distance in the code. */
  lemma LongFits(cs: seq<Cell>, aim: seq<int>, i: nat, j: nat)
    requires i <= |cs| && j <= |cs| && Aimed(cs, aim) && Branches(cs) && Upper(cs, |cs|) < 0x8000_0000
    ensures -0x8000_0000 <= Final(cs, aim, i) - Final(cs, aim, j) < 0x8000_0000
  {
    hide Final, Upper, Aimed, Branches;
    Between(cs, aim, i, |cs|);
    Between(cs, aim, j, |cs|);
    FinalFrom0(cs, aim, i);
    FinalFrom0(cs, aim, j);
    FinalFrom0(cs, aim, |cs|);
  }

  lemma DoneJumps(cs: seq<Cell>, aim: seq<int>, w: World, i: nat)
    requires i < |cs| && cs[i].kind.Rel? && Ready(cs, aim, w) && aim[i] >= 0
    requires -0x8000_0000 <= Final(cs, aim, aim[i]) - Final(cs, aim, i + 1) < 0x8000_0000
    ensures |Done(cs, aim, w, i)| == Final(cs, aim, i + 1)
    ensures JumpsTo(Done(cs, aim, w, i), cs[i].kind.op, Final(cs, aim, i + 1), Final(cs, aim, aim[i]),
                    Shrink(cs, aim, i) > 0)
  {
    hide Done, Upto, Final, Shrink, Branched, JumpsTo, Upper, Opcode;
    var s := Shrink(cs, aim, i);
    DoneIs(cs, aim, w, i);
    if s > 0 {
      ShortFits(cs, aim, i);
    }
    BranchedJumps(Upto(cs, aim, w, i), cs[i].kind.op, s, Final(cs, aim, aim[i]) - Final(cs, aim, i + 1));
  }

  /** The reference at i arrives: read in the final code, the branch goes to the final offset of its label. */
  lemma Lands(cs: seq<Cell>, aim: seq<int>, w: World, i: nat)
    requires i < |cs| && cs[i].kind.Rel? && Ready(cs, aim, w) && aim[i] >= 0 && Upper(cs, |cs|) < 0x8000_0000
    ensures JumpsTo(Code(cs, aim, w), cs[i].kind.op, Final(cs, aim, i + 1), Final(cs, aim, aim[i]), Shrink(cs, aim, i) > 0)
  {
    hide Done, Upto, Final, Shrink, JumpsTo, Upper, Branches, Code;
    LongFits(cs, aim, aim[i], i + 1);
    DoneJumps(cs, aim, w, i);
    DoneStays(cs, aim, w, i);
    StillJumps(Done(cs, aim, w, i), Code(cs, aim, w), cs[i].kind.op, Final(cs, aim, aim[i]), Shrink(cs, aim, i) > 0);
  }

  lemma WrapSum(a: int, d: int)
    ensures (a + d % 0x1_0000_0000) % 0x1_0000_0000 == (a + d) % 0x1_0000_0000
  {
    var q := d / 0x1_0000_0000;
    assert d == 0x1_0000_0000 * q + d % 0x1_0000_0000;
  }

  /** A branch to a global of other code is long and arrives at its address, addresses having 32 bits. */
  lemma LandsOutside(cs: seq<Cell>, aim: seq<int>, w: World, i: nat)
    requires i < |cs| && cs[i].kind.Rel? && Ready(cs, aim, w) && aim[i] < 0
    ensures var end, code := Final(cs, aim, i + 1), Code(cs, aim, w);
            4 <= end <= |code| &&
            (w.base + end + Unsigned32(code[end - 4..end])) % 0x1_0000_0000 == w.globals[-aim[i]] % 0x1_0000_0000
  {
    hide Final, Upto, Done, Word4, Unsigned32, Branches, Masks, Code, Opcode, ShortBy;
    var end := Final(cs, aim, i + 1);
    var out, done, code := Upto(cs, aim, w, i), Done(cs, aim, w, i), Code(cs, aim, w);
    var d := w.globals[-aim[i]] - (w.base + end);
    DoneIs(cs, aim, w, i);
    Word4Is(d);
    DoneStays(cs, aim, w, i);
    assert code[end - 4..end] == done[end - 4..end] == Word4(d);
    WrapSum(w.base + end, d);
  }

  /** The addresses of globals once the labels before entry i have been passed. */
  ghost function Published(cs: seq<Cell>, aim: seq<int>, w: World, i: nat): (g: seq<int>)
    requires i <= |cs| && Aimed(cs, aim)
    ensures |g| == |w.globals|
  {
    if i == 0 then w.globals else
    var g := Published(cs, aim, w, i - 1);
    if Global(cs[i - 1].kind, |g|)
    then g[cs[i - 1].kind.slot.index := w.base + Final(cs, aim, i - 1)] else g
  }

  predicate Global(k: Kind, n: nat) { k.Label? && k.slot.Lg? && 10 <= k.slot.index < n }

  ghost predicate NoLabel(cs: seq<Cell>, from: nat, to: nat, slot: Slot)
    requires from <= to <= |cs|
  {
    forall j :: from <= j < to && cs[j].kind.Label? ==> cs[j].kind.slot != slot
  }

  /** Labels of other slots leave a global's address alone. */
  lemma {:induction false} PublishedKept(cs: seq<Cell>, aim: seq<int>, w: World, i: nat, j: nat, idx: nat)
    requires j <= i <= |cs| && Aimed(cs, aim) && idx < |w.globals| && NoLabel(cs, j, i, Lg(idx))
    ensures Published(cs, aim, w, i)[idx] == Published(cs, aim, w, j)[idx]
  {
    if j < i {
      PublishedKept(cs, aim, w, i - 1, j, idx);
    }
  }

  /** A global's address is that of its last label; one without label keeps its address. */
  lemma PublishedIs(cs: seq<Cell>, aim: seq<int>, w: World, j: nat, idx: nat)
    requires Aimed(cs, aim) && 10 <= idx < |w.globals|
    ensures NoLabel(cs, 0, |cs|, Lg(idx)) ==> Published(cs, aim, w, |cs|)[idx] == w.globals[idx]
    ensures j < |cs| && cs[j].kind.Label? && cs[j].kind.slot == Lg(idx) && NoLabel(cs, j + 1, |cs|, Lg(idx)) ==>
              Published(cs, aim, w, |cs|)[idx] == w.base + Final(cs, aim, j)
  {
    if NoLabel(cs, 0, |cs|, Lg(idx)) {
      PublishedKept(cs, aim, w, |cs|, 0, idx);
    }
    if j < |cs| && cs[j].kind.Label? && cs[j].kind.slot == Lg(idx) && NoLabel(cs, j + 1, |cs|, Lg(idx)) {
      PublishedKept(cs, aim, w, |cs|, j + 1, idx);
    }
  }

  /** The code with t of the plain bytes before entry g. */
  ghost function Partial(cs: seq<Cell>, aim: seq<int>, w: World, g: nat, t: nat): seq<Byte>
    requires 0 < g <= |cs| && t <= |cs[g - 1].tail| && Ready(cs, aim, w)
  {
    Done(cs, aim, w, g - 1) + cs[g - 1].tail[..t]
  }

  lemma PartialIs(cs: seq<Cell>, aim: seq<int>, w: World, g: nat, t: nat)
    requires 0 < g <= |cs| && t <= |cs[g - 1].tail| && Ready(cs, aim, w)
    ensures t == 0 ==> Partial(cs, aim, w, g, t) == Done(cs, aim, w, g - 1)
    ensures t == |cs[g - 1].tail| ==> Partial(cs, aim, w, g, t) == Upto(cs, aim, w, g)
    ensures t < |cs[g - 1].tail| ==> Partial(cs, aim, w, g, t + 1) == Partial(cs, aim, w, g, t) + [cs[g - 1].tail[t]]
    ensures t < |cs[g - 1].tail| ==> |Partial(cs, aim, w, g, t)| < Final(cs, aim, |cs|)
  {
    hide Done, Final, Upper, Saved, Ready;
    var tail := cs[g - 1].tail;
    assert tail[..0] == [] && tail[..|tail|] == tail;
    if t < |tail| {
      assert tail[..t + 1] == tail[..t] + [tail[t]];
      PartialFits(cs, aim, w, g);
    }
  }

  lemma PartialFits(cs: seq<Cell>, aim: seq<int>, w: World, g: nat)
    requires 0 < g <= |cs| && Ready(cs, aim, w)
    ensures Aimed(cs, aim) && |Done(cs, aim, w, g - 1)| + |cs[g - 1].tail| <= Final(cs, aim, |cs|)
  {
    hide Done, Upto, Final;
    DoneSize(cs, aim, w, g - 1);
    Between(cs, aim, g, |cs|);
  }

  /** There is room for every entry. */
  lemma Room(cs: seq<Cell>, aim: seq<int>, w: World, g: nat)
    requires g < |cs| && Ready(cs, aim, w)
    ensures |Upto(cs, aim, w, g)| == Final(cs, aim, g) && |Done(cs, aim, w, g)| <= Final(cs, aim, |cs|)
    ensures |Upto(cs, aim, w, g)| <= |Done(cs, aim, w, g)|
    ensures !cs[g].kind.Rel? ==>
              Done(cs, aim, w, g) == Upto(cs, aim, w, g) + Own(cs, aim, w, g, |Upto(cs, aim, w, g)|)
  {
    DoneSize(cs, aim, w, g);
    Between(cs, aim, g + 1, |cs|);
    if cs[g].kind.Rel? {
      RelSize(cs, aim, g);
      ShrinkIs(cs, aim, g);
    }
  }

  lemma PublishedNext(cs: seq<Cell>, aim: seq<int>, w: World, g: nat)
    requires g < |cs| && Aimed(cs, aim)
    ensures var p := Published(cs, aim, w, g);
            Published(cs, aim, w, g + 1) ==
            if Global(cs[g].kind, |p|) then p[cs[g].kind.slot.index := w.base + Final(cs, aim, g)] else p
  {
  }
}
