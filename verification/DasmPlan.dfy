/** An action string half stored: what is stored so far and the plan of the rest make the plan of the whole. */
module DasmPlan {
  import opened Bytes
  import opened DasmActions
  import opened DasmState

  /** A section's entries, all events, and the section to go to, after a whole action string. */
  datatype Outcome = Outcome(cells: seq<Cell>, events: seq<Event>, stop: Option<Byte>)

  /** With entries `cs` in section s and events `order`, the string at `p` with arguments `args` leads to `w`. */
  ghost predicate Leads(acts: seq<Byte>, p: nat, args: seq<int>, s: nat, cs: seq<Cell>, order: seq<Event>, w: Outcome) {
    |cs| > 0 &&
    var r := Read(acts, p, cs[|cs| - 1].tail, args, Pos(s, |cs|), |order|);
    r.Some? && With(cs, r.value) == w.cells && order + r.value.events == w.events && r.value.stop == w.stop
  }

  predicate Takes(a: Byte) { IsImm(a) || a == SPACE || a == REL_PC || a == IMM_PC || a == LABEL_PC }

  /** Actions followed by a byte of their own. */
  predicate Carries(a: Byte) {
    a == ESC || a == SPACE || a == REL_LG || a == IMM_LG || a == LABEL_LG || a == ALIGN || a == SECTION
  }

  lemma Needs(acts: seq<Byte>, p: nat, args: seq<int>, s: nat, cs: seq<Cell>, order: seq<Event>, w: Outcome)
    requires Leads(acts, p, args, s, cs, order, w)
    ensures p < |acts| && (Carries(acts[p]) ==> p + 1 < |acts|) && (Takes(acts[p]) ==> |args| > 0)
    ensures acts[p] == SPACE ==> args[0] >= 0
    ensures acts[p] == ALIGN ==> IsMask(acts[p + 1])
    ensures |cs| > 0 && (acts[p] == REL_LG || acts[p] == REL_PC ==> p > 0 && Opcode(cs[|cs| - 1].tail, acts[p - 1]))
    ensures acts[p] < DISP || acts[p] == STOP || Carries(acts[p]) || Takes(acts[p])
  {
    hide Opcode, IsMask;
  }

  /** What an action string goes on with, one action further. */
  lemma FollowsOn(acts: seq<Byte>, p: nat, cs: seq<Cell>, i: nat, t: nat)
    requires 1 <= i <= |cs| && t <= |cs[i - 1].tail| && Follows(acts, p, cs, i, t)
    ensures p < |acts| && (Carries(acts[p]) && acts[p] != SECTION && !Branching(acts[p]) && acts[p] != IMM_LG ==> p + 1 < |acts|)
    ensures var a := acts[p];
            var tail := cs[i - 1].tail;
            if a < DISP || a == ESC then
              t < |tail| && tail[t] == (if a < DISP then a else acts[p + 1]) &&
              Follows(acts, if a < DISP then p + 1 else p + 2, cs, i, t + 1)
            else if a == STOP || a == SECTION then t == |tail| && (i < |cs| ==> cs[i].kind.Begin?)
            else if Branching(a) then
              && t == |tail| && i + 1 < |cs| && p > 0 && cs[i].kind.Rel? && cs[i].kind.op == acts[p - 1]
              && cs[i + 1].kind.Est? && Follows(acts, if a == REL_LG then p + 2 else p + 1, cs, i + 2, 0)
            else
              t == |tail| && i < |cs| &&
              Follows(acts, if IsImm(a) || a == IMM_PC || a == LABEL_PC then p + 1 else p + 2, cs, i + 1, 0)
  {
  }

  function Tailed(cs: seq<Cell>, b: Byte): seq<Cell>
    requires |cs| > 0
  {
    cs[|cs| - 1 := cs[|cs| - 1].(tail := cs[|cs| - 1].tail + [b])]
  }

  lemma LeadsByte(acts: seq<Byte>, p: nat, args: seq<int>, s: nat, cs: seq<Cell>, order: seq<Event>, w: Outcome)
    requires Leads(acts, p, args, s, cs, order, w) && p < |acts| && (acts[p] < DISP || (acts[p] == ESC && p + 1 < |acts|))
    ensures var b := if acts[p] < DISP then acts[p] else acts[p + 1];
            Leads(acts, if acts[p] < DISP then p + 1 else p + 2, args, s, Tailed(cs, b), order, w)
  {
    var b := if acts[p] < DISP then acts[p] else acts[p + 1];
    var q := if acts[p] < DISP then p + 1 else p + 2;
    var n := |cs| - 1;
    WithEmit(cs, b, Read(acts, q, cs[n].tail + [b], args, Pos(s, |cs|), |order|).value);
  }

  /** The entry of an action that stores a number. */
  function ValueKind(acts: seq<Byte>, p: nat, n: int): Kind
    requires p < |acts| && (IsImm(acts[p]) || (p + 1 < |acts| && (acts[p] == ALIGN || (acts[p] == SPACE && n >= 0))))
  {
    if IsImm(acts[p]) then Imm(acts[p], n) else if acts[p] == SPACE then Space(n, acts[p + 1]) else Align(acts[p + 1])
  }

  lemma LeadsValue(acts: seq<Byte>, p: nat, args: seq<int>, s: nat, cs: seq<Cell>, order: seq<Event>, w: Outcome)
    requires Leads(acts, p, args, s, cs, order, w) && p < |acts|
    requires (IsImm(acts[p]) && |args| > 0) || (acts[p] == ALIGN && p + 1 < |acts|) ||
             (acts[p] == SPACE && p + 1 < |acts| && |args| > 0 && args[0] >= 0)
    ensures var a := acts[p];
            var k := ValueKind(acts, p, if a == ALIGN then 0 else args[0]);
            Leads(acts, if IsImm(a) then p + 1 else p + 2, if a == ALIGN then args else args[1..], s,
                  cs + [Cell(k, [])], order, w) &&
            |cs| < |w.cells| && w.cells[|cs|].kind == k
  {
    var a := acts[p];
    var k := ValueKind(acts, p, if a == ALIGN then 0 else args[0]);
    var q := if IsImm(a) then p + 1 else p + 2;
    var rest := Read(acts, q, [], if a == ALIGN then args else args[1..], Pos(s, |cs|) + 1, |order|).value;
    WithStore(cs, [k], [], rest);
    assert order + ([] + rest.events) == order + rest.events;
    assert Pos(s, |cs + [Cell(k, [])]|) == Pos(s, |cs|) + 1;
  }

  /** The slot and direction of a reference. */
  function RefSlot(acts: seq<Byte>, p: nat, n: int): Slot
    requires p < |acts| && (acts[p] == REL_LG || acts[p] == IMM_LG ==> p + 1 < |acts|)
  {
    if acts[p] == REL_LG || acts[p] == IMM_LG then Named(acts[p + 1]) else Pc(n)
  }

  predicate RefAhead(acts: seq<Byte>, p: nat)
    requires p < |acts| && (acts[p] == REL_LG || acts[p] == IMM_LG ==> p + 1 < |acts|)
  {
    (acts[p] == REL_LG || acts[p] == IMM_LG) && acts[p + 1] > 246
  }

  predicate Refers(a: Byte) { a == REL_LG || a == REL_PC || a == IMM_LG || a == IMM_PC }

  predicate Branching(a: Byte) { a == REL_LG || a == REL_PC }

  /**
   * Which label a reference names: for the actions 244 and 246 the byte n that follows is the label, global from 10 on,
   * up to 246, and local label n - 246 ahead above that; for 245 and 247 the argument is the PC label.
   */
  lemma ReferenceNames(acts: seq<Byte>, p: nat, n: int, k: nat)
    requires p < |acts| && (acts[p] == 244 || acts[p] == 246 ==> p + 1 < |acts|)
    ensures Refers(acts[p]) <==> 244 <= acts[p] <= 247
    ensures Branching(acts[p]) <==> acts[p] == 244 || acts[p] == 245
    ensures (acts[p] == 244 || acts[p] == 246) && k <= 246 ==>
              (RefSlot(acts, p, n) == Lg(k) && !RefAhead(acts, p) <==> acts[p + 1] == k)
    ensures (acts[p] == 244 || acts[p] == 246) && 1 <= k <= 9 ==>
              (RefSlot(acts, p, n) == Lg(k) && RefAhead(acts, p) <==> acts[p + 1] == 246 + k)
    ensures acts[p] == 245 || acts[p] == 247 ==> RefSlot(acts, p, n) == Pc(n) && !RefAhead(acts, p)
  {
  }

  function RefKind(acts: seq<Byte>, p: nat, e: nat): Kind
    requires p < |acts| && (Branching(acts[p]) ==> p > 0)
  {
    if Branching(acts[p]) then Rel(acts[p - 1], acts[p] == REL_LG, e) else Addr(acts[p] == IMM_LG, e)
  }

  function RefCells(k: Kind): seq<Cell> { if k.Rel? then [Cell(k, []), Cell(Est, [])] else [Cell(k, [])] }

  lemma LeadsRef(acts: seq<Byte>, p: nat, args: seq<int>, s: nat, cs: seq<Cell>, order: seq<Event>, w: Outcome)
    requires Leads(acts, p, args, s, cs, order, w) && p < |acts| && Refers(acts[p]) && (Branching(acts[p]) ==> p > 0)
    requires if acts[p] == REL_PC || acts[p] == IMM_PC then |args| > 0 else p + 1 < |acts|
    ensures var a := acts[p];
            var number := a == REL_PC || a == IMM_PC;
            var k := RefKind(acts, p, |order|);
            var e := Ref(RefSlot(acts, p, if number then args[0] else 0), Pos(s, |cs|), RefAhead(acts, p));
            Leads(acts, if number then p + 1 else p + 2, if number then args[1..] else args, s,
                  cs + RefCells(k), order + [e], w) &&
            |cs + RefCells(k)| <= |w.cells| && |order| < |w.events| && w.events[|order|] == e && order <= w.events
  {
    hide Opcode;
    var a := acts[p];
    var number := a == REL_PC || a == IMM_PC;
    var q := if number then p + 1 else p + 2;
    var left := if number then args[1..] else args;
    var k := RefKind(acts, p, |order|);
    var e := Ref(RefSlot(acts, p, if number then args[0] else 0), Pos(s, |cs|), RefAhead(acts, p));
    var n := if Branching(a) then 2 else 1;
    var rest := Read(acts, q, [], left, Pos(s, |cs|) + n, |order| + 1).value;
    WithStore(cs, if Branching(a) then [k, Est] else [k], [e], rest);
    assert order + ([e] + rest.events) == (order + [e]) + rest.events;
    assert Pos(s, |cs + RefCells(k)|) == Pos(s, |cs|) + n;
  }

  function DefSlot(acts: seq<Byte>, p: nat, n: int): Slot
    requires p < |acts| && (acts[p] == LABEL_LG ==> p + 1 < |acts|)
  {
    if acts[p] == LABEL_LG then Lg(acts[p + 1]) else Pc(n)
  }

  lemma LeadsDef(acts: seq<Byte>, p: nat, args: seq<int>, s: nat, cs: seq<Cell>, order: seq<Event>, w: Outcome)
    requires Leads(acts, p, args, s, cs, order, w) && p < |acts| && (acts[p] == LABEL_LG || acts[p] == LABEL_PC)
    requires if acts[p] == LABEL_PC then |args| > 0 else p + 1 < |acts|
    ensures var number := acts[p] == LABEL_PC;
            var slot := DefSlot(acts, p, if number then args[0] else 0);
            var e := Def(slot, Pos(s, |cs|));
            Leads(acts, if number then p + 1 else p + 2, if number then args[1..] else args, s,
                  cs + [Cell(Label(slot, |order|), [])], order + [e], w) &&
            |cs| < |w.cells| && |order| < |w.events| && w.events[|order|] == e
  {
    var number := acts[p] == LABEL_PC;
    var slot := DefSlot(acts, p, if number then args[0] else 0);
    var e := Def(slot, Pos(s, |cs|));
    var q := if number then p + 1 else p + 2;
    var rest := Read(acts, q, [], if number then args[1..] else args, Pos(s, |cs|) + 1, |order| + 1).value;
    WithStore(cs, [Label(slot, |order|)], [e], rest);
    assert order + ([e] + rest.events) == (order + [e]) + rest.events;
    assert Pos(s, |cs + [Cell(Label(slot, |order|), [])]|) == Pos(s, |cs|) + 1;
  }

  lemma LeadsStop(acts: seq<Byte>, p: nat, args: seq<int>, s: nat, cs: seq<Cell>, order: seq<Event>, w: Outcome)
    requires Leads(acts, p, args, s, cs, order, w) && p < |acts| && (acts[p] == STOP || acts[p] == SECTION)
    ensures cs == w.cells && order == w.events
    ensures if acts[p] == STOP then w.stop.None? else p + 1 < |acts| && w.stop == Some(acts[p + 1])
  {
    assert cs[|cs| - 1].tail + [] == cs[|cs| - 1].tail;
    assert cs[..|cs| - 1] + [cs[|cs| - 1]] == cs;
  }

  lemma LeadsFrom(acts: seq<Byte>, p: nat, args: seq<int>, s: nat, old_: seq<Cell>, order: seq<Event>)
    requires Read(acts, p, [], args, Pos(s, |old_| + 1), |order|).Some?
    ensures var r := Read(acts, p, [], args, Pos(s, |old_| + 1), |order|).value;
            Leads(acts, p, args, s, old_ + [Cell(Begin(p), [])], order,
                  Outcome(old_ + [Cell(Begin(p), r.head)] + r.cells, order + r.events, r.stop))
  {
    var r := Read(acts, p, [], args, Pos(s, |old_| + 1), |order|).value;
    assert [] + r.head == r.head;
    assert (old_ + [Cell(Begin(p), [])])[..|old_|] == old_;
  }

  /** A plan starts no other string. */
  lemma {:induction false} NoBegin(acts: seq<Byte>, p: nat, run: seq<Byte>, args: seq<int>, pos: int, ev: nat)
    requires Read(acts, p, run, args, pos, ev).Some?
    ensures var cs := Read(acts, p, run, args, pos, ev).value.cells;
            forall i :: 0 <= i < |cs| ==> !cs[i].kind.Begin?
    decreases |acts| - p
  {
    hide Opcode, IsMask;
    var a := acts[p];
    if a < DISP {
      NoBegin(acts, p + 1, run + [a], args, pos, ev);
    } else if a == ESC {
      NoBegin(acts, p + 2, run + [acts[p + 1]], args, pos, ev);
    } else if a == STOP || a == SECTION {
    } else {
      var q := if Carries(a) then p + 2 else p + 1;
      var left := if Takes(a) then args[1..] else args;
      NoBegin(acts, q, [], left, pos + (if Branching(a) then 2 else 1),
              if IsImm(a) || a == SPACE || a == ALIGN then ev else ev + 1);
    }
  }
}
