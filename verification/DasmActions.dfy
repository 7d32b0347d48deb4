/**
 * DynASM's action lists for x86: bytes to emit, immediates, branches, labels, alignment, sections. One call of
 * dasm_put stores, for an action string and its arguments, a run of buffer entries; `Read` says which.
 */
module DasmActions {
  import opened Bits
  import opened Bytes

  const DISP: Byte := 233
  const IMM_S: Byte := 234
  const IMM_B: Byte := 235
  const IMM_W: Byte := 236
  const IMM_D: Byte := 237
  const SPACE: Byte := 241
  const REL_LG: Byte := 244
  const REL_PC: Byte := 245
  const IMM_LG: Byte := 246
  const IMM_PC: Byte := 247
  const LABEL_LG: Byte := 248
  const LABEL_PC: Byte := 249
  const ALIGN: Byte := 250
  const ESC: Byte := 252
  const SECTION: Byte := 254
  const STOP: Byte := 255

  /** The longest buffer of a section: positions have 24 bits for the index. */
  const SECTION_SPAN: nat := 0x100_0000

  /** A local (0 to 9) or global label, or a PC label. */
  datatype Slot = Lg(index: nat) | Pc(number: int)

  /** One buffer entry (`named` for references by local or global label), and the plain bytes emitted between it and the next. */
  datatype Cell = Cell(kind: Kind, tail: seq<Byte>)

  datatype Kind =
    | Begin(start: nat)
    | Imm(action: Byte, value: int)
    | Space(count: nat, fill: Byte)
    | Rel(op: Byte, named: bool, event: nat)
    | Est
    | Addr(named: bool, event: nat)
    | Label(slot: Slot, event: nat)
    | Align(mask: nat)

  /** What happened to labels, in the order of the calls; `ahead` marks a reference to the next local label. */
  datatype Event = Def(slot: Slot, pos: int) | Ref(slot: Slot, pos: int, ahead: bool) | Reset

  /** The entries and events of the rest of an action string, and the section it changes to, if any. */
  datatype Plan = Plan(head: seq<Byte>, cells: seq<Cell>, events: seq<Event>, stop: Option<Byte>)

  predicate IsImm(a: Byte) { IMM_S <= a <= IMM_D }

  function ImmSize(a: Byte): nat { if a == IMM_W then 2 else if a == IMM_D then 4 else 1 }

  predicate InRange(a: Byte, n: int) {
    && (a == IMM_S ==> -128 <= n < 128)
    && (a == IMM_B ==> 0 <= n < 256)
    && (a == IMM_W ==> 0 <= n < 65536)
  }

  /** A mask is 2^n - 1, so that x & mask is x % (mask + 1). */
  predicate IsMask(m: int) { m == 0 || m == 1 || m == 3 || m == 7 || m == 15 || m == 31 || m == 63 || m == 127 || m == 255 }

  lemma Powers()
    ensures Pow2(0) == 1 && Pow2(1) == 2 && Pow2(2) == 4 && Pow2(3) == 8 && Pow2(4) == 16
    ensures Pow2(5) == 32 && Pow2(6) == 64 && Pow2(7) == 128 && Pow2(8) == 256
  {
    assert Pow2(4) == 16;
  }

  /** Masks are the powers of two up to 256, less one. */
  lemma MaskIs(m: nat)
    ensures IsMask(m) <==> exists n :: 0 <= n <= 8 && m + 1 == Pow2(n)
  {
    Powers();
    hide Pow2;
    if n :| 0 <= n <= 8 && m + 1 == Pow2(n) {
      assert n == 0 || n == 1 || n == 2 || n == 3 || n == 4 || n == 5 || n == 6 || n == 7 || n == 8;
    }
  }

  /** The bytes a branch that can be shortened saves. */
  function ShortBy(op: Byte): nat { if op == 0xe9 then 3 else if 0x80 <= op < 0x90 then 4 else 0 }

  /** The bytes before a branch's displacement are its opcode: e9, 0f 8x, or another. */
  predicate Opcode(run: seq<Byte>, op: Byte) {
    && |run| >= 1 && run[|run| - 1] == op
    && (0x80 <= op < 0x90 ==> |run| >= 2 && run[|run| - 2] == 0x0f)
  }

  /** The label a REL_LG or IMM_LG action names: above 246 a local label ahead. */
  function Named(n: Byte): Slot { if n <= 246 then Lg(n) else Lg(n - 246) }

  function Emit(b: Byte, rest: Option<Plan>): Option<Plan> {
    match rest
    case None => None
    case Some(r) => Some(r.(head := [b] + r.head))
  }

  /** Entries `ks`, the last of them with the bytes that follow, before the rest. */
  function Store(ks: seq<Kind>, es: seq<Event>, rest: Option<Plan>): Option<Plan>
    requires |ks| == 1 || |ks| == 2
  {
    match rest
    case None => None
    case Some(r) =>
      var last := Cell(ks[|ks| - 1], r.head);
      Some(Plan([], (if |ks| == 1 then [last] else [Cell(ks[0], []), last]) + r.cells, es + r.events, r.stop))
  }

  /**
   * The plan of the action string at `p`, when the bytes `run` have been emitted since the last entry, the arguments
   * `args` are left, the next entry goes to position `pos` and the next event is number `ev`; none if the string is
   * not one the preprocessor writes: unknown or missing actions, too few arguments, or a branch without opcode.
   */
  function Read(acts: seq<Byte>, p: nat, run: seq<Byte>, args: seq<int>, pos: int, ev: nat): (r: Option<Plan>)
    decreases |acts| - p
  {
    if p >= |acts| then None else
    var a := acts[p];
    var more := p + 1 < |acts|;
    var arg := |args| > 0;
    if a < 233 then Emit(a, Read(acts, p + 1, run + [a], args, pos, ev))
    else if a == 252 /* ESC */ then
      if more then Emit(acts[p + 1], Read(acts, p + 2, run + [acts[p + 1]], args, pos, ev)) else None
    else if IsImm(a) then
      if arg then Store([Imm(a, args[0])], [], Read(acts, p + 1, [], args[1..], pos + 1, ev)) else None
    else if a == 241 /* SPACE */ then
      if arg && more && args[0] >= 0
      then Store([Space(args[0], acts[p + 1])], [], Read(acts, p + 2, [], args[1..], pos + 1, ev)) else None
    else if a == 244 /* REL_LG */ then
      if more && p > 0 && Opcode(run, acts[p - 1])
      then Store([Rel(acts[p - 1], true, ev), Est], [Ref(Named(acts[p + 1]), pos, acts[p + 1] > 246)],
                 Read(acts, p + 2, [], args, pos + 2, ev + 1))
      else None
    else if a == 245 /* REL_PC */ then
      if arg && p > 0 && Opcode(run, acts[p - 1])
      then Store([Rel(acts[p - 1], false, ev), Est], [Ref(Pc(args[0]), pos, false)],
                 Read(acts, p + 1, [], args[1..], pos + 2, ev + 1))
      else None
    else if a == 246 /* IMM_LG */ then
      if more
      then Store([Addr(true, ev)], [Ref(Named(acts[p + 1]), pos, acts[p + 1] > 246)],
                 Read(acts, p + 2, [], args, pos + 1, ev + 1))
      else None
    else if a == 247 /* IMM_PC */ then
      if arg
      then Store([Addr(false, ev)], [Ref(Pc(args[0]), pos, false)], Read(acts, p + 1, [], args[1..], pos + 1, ev + 1))
      else None
    else if a == 248 /* LABEL_LG */ then
      if more
      then Store([Label(Lg(acts[p + 1]), ev)], [Def(Lg(acts[p + 1]), pos)],
                 Read(acts, p + 2, [], args, pos + 1, ev + 1))
      else None
    else if a == 249 /* LABEL_PC */ then
      if arg
      then Store([Label(Pc(args[0]), ev)], [Def(Pc(args[0]), pos)],
                 Read(acts, p + 1, [], args[1..], pos + 1, ev + 1))
      else None
    else if a == 250 /* ALIGN */ then
      if more && IsMask(acts[p + 1])
      then Store([Align(acts[p + 1])], [], Read(acts, p + 2, [], args, pos + 1, ev)) else None
    else if a == 254 /* SECTION */ then
      if more then Some(Plan([], [], [], Some(acts[p + 1]))) else None
    else if a == 255 /* STOP */ then Some(Plan([], [], [], None))
    else None
  }

  /** The action string at `p` goes on with the entries from `i` on, `t` bytes after entry i - 1 having been passed. */
  predicate Follows(acts: seq<Byte>, p: nat, cs: seq<Cell>, i: nat, t: nat)
    requires 1 <= i <= |cs| && t <= |cs[i - 1].tail|
    decreases |acts| - p
  {
    p < |acts| &&
    var a := acts[p];
    var tail := cs[i - 1].tail;
    if a < DISP then t < |tail| && tail[t] == a && Follows(acts, p + 1, cs, i, t + 1)
    else if a == ESC then
      p + 1 < |acts| && t < |tail| && tail[t] == acts[p + 1] && Follows(acts, p + 2, cs, i, t + 1)
    else if a == STOP || a == SECTION then t == |tail| && (i < |cs| ==> cs[i].kind.Begin?)
    else
      t == |tail| && i < |cs| &&
      var k := cs[i].kind;
      if IsImm(a) then k.Imm? && k.action == a && Follows(acts, p + 1, cs, i + 1, 0)
      else if a == SPACE then
        p + 1 < |acts| && k.Space? && k.fill == acts[p + 1] && Follows(acts, p + 2, cs, i + 1, 0)
      else if a == REL_LG || a == REL_PC then
        && p > 0 && k.Rel? && k.op == acts[p - 1] && k.named == (a == REL_LG) && i + 1 < |cs| && cs[i + 1].kind.Est?
        && Follows(acts, p + (if a == REL_LG then 2 else 1), cs, i + 2, 0)
      else if a == IMM_LG || a == IMM_PC then
        k.Addr? && k.named == (a == IMM_LG) && Follows(acts, p + (if a == IMM_LG then 2 else 1), cs, i + 1, 0)
      else if a == LABEL_LG then
        p + 1 < |acts| && k.Label? && k.slot == Lg(acts[p + 1]) && Follows(acts, p + 2, cs, i + 1, 0)
      else if a == LABEL_PC then
        k.Label? && k.slot.Pc? && Follows(acts, p + 1, cs, i + 1, 0)
      else
        && a == ALIGN && p + 1 < |acts| && k.Align? && k.mask == acts[p + 1]
        && Follows(acts, p + 2, cs, i + 1, 0)
  }

  /** Entries so far with a plan's bytes and entries after them. */
  function With(cs: seq<Cell>, r: Plan): (all: seq<Cell>)
    requires |cs| > 0
  {
    var n := |cs| - 1;
    cs[..n] + [cs[n].(tail := cs[n].tail + r.head)] + r.cells
  }

  lemma WithEmit(cs: seq<Cell>, b: Byte, r: Plan)
    requires |cs| > 0
    ensures var n := |cs| - 1;
            With(cs, r.(head := [b] + r.head)) == With(cs[n := cs[n].(tail := cs[n].tail + [b])], r)
  {
    var n := |cs| - 1;
    assert cs[n].tail + ([b] + r.head) == (cs[n].tail + [b]) + r.head;
  }

  lemma WithStore(cs: seq<Cell>, ks: seq<Kind>, es: seq<Event>, r: Plan)
    requires |cs| > 0 && (|ks| == 1 || |ks| == 2)
    ensures |ks| == 1 ==> With(cs, Store(ks, es, Some(r)).value) == With(cs + [Cell(ks[0], [])], r)
    ensures |ks| == 2 ==> With(cs, Store(ks, es, Some(r)).value) == With(cs + [Cell(ks[0], []), Cell(ks[1], [])], r)
  {
    var n := |cs| - 1;
    assert cs[n].tail + [] == cs[n].tail;
    assert cs[..n] + [cs[n]] == cs;
    assert [] + r.head == r.head;
  }

  /** A string's plan is what it goes on with. */
  lemma {:induction false} PlanFollows(acts: seq<Byte>, p: nat, run: seq<Byte>, args: seq<int>, pos: int, ev: nat,
                                       cs: seq<Cell>, all: seq<Cell>)
    requires Read(acts, p, run, args, pos, ev).Some? && |cs| > 0
    requires all == With(cs, Read(acts, p, run, args, pos, ev).value)
    ensures |cs| <= |all| && |cs[|cs| - 1].tail| <= |all[|cs| - 1].tail|
    ensures Follows(acts, p, all, |cs|, |cs[|cs| - 1].tail|)
    decreases |acts| - p, 1
  {
    var a := acts[p];
    var n := |cs| - 1;
    if a < DISP {
      var rest := Read(acts, p + 1, run + [a], args, pos, ev).value;
      WithEmit(cs, a, rest);
      PlanFollows(acts, p + 1, run + [a], args, pos, ev, cs[n := cs[n].(tail := cs[n].tail + [a])], all);
    } else if a == ESC {
      var b := acts[p + 1];
      var rest := Read(acts, p + 2, run + [b], args, pos, ev).value;
      WithEmit(cs, b, rest);
      PlanFollows(acts, p + 2, run + [b], args, pos, ev, cs[n := cs[n].(tail := cs[n].tail + [b])], all);
    } else if a == STOP || a == SECTION {
      assert cs[n].tail + [] == cs[n].tail;
      assert all == cs;
    } else if a == REL_LG || a == REL_PC {
      BranchFollows(acts, p, run, args, pos, ev, cs, all);
    } else if IsImm(a) || a == SPACE || a == ALIGN {
      ValueFollows(acts, p, run, args, pos, ev, cs, all);
    } else {
      LabelFollows(acts, p, run, args, pos, ev, cs, all);
    }
  }

  lemma BranchFollows(acts: seq<Byte>, p: nat, run: seq<Byte>, args: seq<int>, pos: int, ev: nat,
                      cs: seq<Cell>, all: seq<Cell>)
    requires Read(acts, p, run, args, pos, ev).Some? && |cs| > 0
    requires all == With(cs, Read(acts, p, run, args, pos, ev).value)
    requires acts[p] == REL_LG || acts[p] == REL_PC
    ensures |cs| <= |all| && |cs[|cs| - 1].tail| <= |all[|cs| - 1].tail|
    ensures Follows(acts, p, all, |cs|, |cs[|cs| - 1].tail|)
    decreases |acts| - p, 0
  {
    var r := Read(acts, p, run, args, pos, ev).value;
    var q := if acts[p] == REL_PC then p + 1 else p + 2;
    var left := if acts[p] == REL_PC then args[1..] else args;
    var rest := Read(acts, q, [], left, pos + 2, ev + 1).value;
    WithStore(cs, [r.cells[0].kind, Est], [r.events[0]], rest);
    PlanFollows(acts, q, [], left, pos + 2, ev + 1, cs + [Cell(r.cells[0].kind, []), Cell(Est, [])], all);
  }

  lemma ValueFollows(acts: seq<Byte>, p: nat, run: seq<Byte>, args: seq<int>, pos: int, ev: nat,
                     cs: seq<Cell>, all: seq<Cell>)
    requires Read(acts, p, run, args, pos, ev).Some? && |cs| > 0
    requires all == With(cs, Read(acts, p, run, args, pos, ev).value)
    requires IsImm(acts[p]) || acts[p] == SPACE || acts[p] == ALIGN
    ensures |cs| <= |all| && |cs[|cs| - 1].tail| <= |all[|cs| - 1].tail|
    ensures Follows(acts, p, all, |cs|, |cs[|cs| - 1].tail|)
    decreases |acts| - p, 0
  {
    var r := Read(acts, p, run, args, pos, ev).value;
    var q := if IsImm(acts[p]) then p + 1 else p + 2;
    var left := if acts[p] == ALIGN then args else args[1..];
    var rest := Read(acts, q, [], left, pos + 1, ev).value;
    WithStore(cs, [r.cells[0].kind], [], rest);
    PlanFollows(acts, q, [], left, pos + 1, ev, cs + [Cell(r.cells[0].kind, [])], all);
  }

  lemma LabelFollows(acts: seq<Byte>, p: nat, run: seq<Byte>, args: seq<int>, pos: int, ev: nat,
                     cs: seq<Cell>, all: seq<Cell>)
    requires Read(acts, p, run, args, pos, ev).Some? && |cs| > 0
    requires all == With(cs, Read(acts, p, run, args, pos, ev).value)
    requires acts[p] == IMM_LG || acts[p] == IMM_PC || acts[p] == LABEL_LG || acts[p] == LABEL_PC
    ensures |cs| <= |all| && |cs[|cs| - 1].tail| <= |all[|cs| - 1].tail|
    ensures Follows(acts, p, all, |cs|, |cs[|cs| - 1].tail|)
    decreases |acts| - p, 0
  {
    var r := Read(acts, p, run, args, pos, ev).value;
    var number := acts[p] == IMM_PC || acts[p] == LABEL_PC;
    var q := if number then p + 1 else p + 2;
    var left := if number then args[1..] else args;
    var rest := Read(acts, q, [], left, pos + 1, ev + 1).value;
    WithStore(cs, [r.cells[0].kind], [r.events[0]], rest);
    PlanFollows(acts, q, [], left, pos + 1, ev + 1, cs + [Cell(r.cells[0].kind, [])], all);
  }

  /** What entries follow is not changed by entries of later calls. */
  lemma {:induction false} StillFollows(acts: seq<Byte>, p: nat, cs: seq<Cell>, i: nat, t: nat, more: seq<Cell>)
    requires 1 <= i <= |cs| && t <= |cs[i - 1].tail| && Follows(acts, p, cs, i, t)
    requires |more| > 0 ==> more[0].kind.Begin?
    ensures Follows(acts, p, cs + more, i, t)
    decreases |acts| - p
  {
    var a := acts[p];
    if a < DISP {
      StillFollows(acts, p + 1, cs, i, t + 1, more);
    } else if a == ESC {
      StillFollows(acts, p + 2, cs, i, t + 1, more);
    } else if a == STOP || a == SECTION {
    } else if IsImm(a) || a == IMM_PC || a == LABEL_PC {
      StillFollows(acts, p + 1, cs, i + 1, 0, more);
    } else if a == REL_LG {
      StillFollows(acts, p + 2, cs, i + 2, 0, more);
    } else if a == REL_PC {
      StillFollows(acts, p + 1, cs, i + 2, 0, more);
    } else {
      StillFollows(acts, p + 2, cs, i + 1, 0, more);
    }
  }
}
