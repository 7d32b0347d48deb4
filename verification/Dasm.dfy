/** The DynASM encoding engine for x86: store, link, encode. */
module Dasm {
  import opened Bytes
  import opened DasmActions
  import opened DasmCode
  import opened DasmEmit
  import opened DasmLabels
  import opened DasmLayout
  import opened DasmLink
  import opened DasmPlan
  import opened DasmState
  import opened DasmStore

  datatype Status =
    | Fine
    | RangeI(at: nat) | RangeSec(at: nat) | RangeLg(at: nat) | RangePc(at: nat)
    | UndefL(index: nat) | UndefPc(number: nat) | MatchSec(section: nat) | Phase

  /** Every stored action string goes on with the entries after its start. */
  predicate Spelled(acts: seq<Byte>, cs: seq<Cell>) {
    && (|cs| > 0 ==> cs[0].kind.Begin?)
    && forall i :: 0 <= i < |cs| && cs[i].kind.Begin? ==> Follows(acts, cs[i].kind.start, cs, i + 1, 0)
  }

  /** A fault names its kind and the place of the action that it is found in, or of that action's label byte. */
  predicate Blames(acts: seq<Byte>, status: Status) {
    match status
    case RangeI(at) => at < |acts| && IsImm(acts[at])
    case RangeSec(at) => at < |acts| && acts[at] == SECTION
    case RangeLg(at) => 0 < at < |acts| && (acts[at - 1] == REL_LG || acts[at - 1] == IMM_LG || acts[at - 1] == LABEL_LG)
    case RangePc(at) => at < |acts| && (acts[at] == REL_PC || acts[at] == IMM_PC || acts[at] == LABEL_PC)
    case _ => false
  }

  /** What the checks let pass: immediates in range, labels in their tables and defined where they must be, sections. */
  ghost predicate Passes(w: Outcome, nlg: nat, npc: nat, nsec: nat) {
    && (forall i :: 0 <= i < |w.cells| && w.cells[i].kind.Imm? ==> InRange(w.cells[i].kind.action, w.cells[i].kind.value))
    && (forall t :: 0 <= t < |w.events| && !w.events[t].Reset? ==> Ranged(w.events[t].slot, nlg, npc))
    && (forall t :: 0 <= t < |w.events| && w.events[t].Ref? ==> Allowed(w.events, t))
    && (w.stop.Some? ==> w.stop.value < nsec)
  }

  lemma {:induction false} PrefixTable(order: seq<Event>, all: seq<Event>, slot: Slot, k: nat)
    requires k <= |order| && order <= all
    ensures Table(all, slot, k) == Table(order, slot, k)
  {
    if k > 0 {
      PrefixTable(order, all, slot, k - 1);
    }
  }

  /** A local label that is not where it should be is refused. */
  lemma Refused(order: seq<Event>, e: Event, w: Outcome, nlg: nat, npc: nat, nsec: nat)
    requires order <= w.events && |order| < |w.events| && w.events[|order|] == e && e.Ref?
    requires !Ranged(e.slot, nlg, npc) || (e.slot.Lg? && e.slot.index < 10 && !e.ahead && Table(order, e.slot, |order|) >= 0)
    ensures !Passes(w, nlg, npc, nsec)
  {
    PrefixTable(order, w.events, e.slot, |order|);
    if Ranged(e.slot, nlg, npc) {
      assert !Allowed(w.events, |order|);
    }
  }

  /** What has been stored has passed. */
  lemma Passed(bufs: seq<seq<int>>, log: seq<seq<Cell>>, order: seq<Event>, lg: seq<int>, pc: seq<int>, s: nat,
               w: Outcome, nsec: nat)
    requires Inv(bufs, log, order, lg, pc) && s < |log| && (w.stop.Some? ==> w.stop.value < nsec)
    requires w.cells == log[s] && w.events == order
    ensures Passes(w, |lg|, |pc|, nsec)
  {
  }

  /** Later strings of a section leave what earlier ones go on with, and go on with their own entries. */
  lemma SpelledMore(acts: seq<Byte>, cs: seq<Cell>, p: nat, args: seq<int>, s: nat, ev: nat)
    requires Spelled(acts, cs) && Read(acts, p, [], args, Pos(s, |cs| + 1), ev).Some?
    ensures var r := Read(acts, p, [], args, Pos(s, |cs| + 1), ev).value;
            Spelled(acts, cs + [Cell(Begin(p), r.head)] + r.cells)
  {
    hide Read, Follows, Pos;
    var r := Read(acts, p, [], args, Pos(s, |cs| + 1), ev).value;
    var more := [Cell(Begin(p), r.head)] + r.cells;
    var all := cs + more;
    assert all == cs + [Cell(Begin(p), r.head)] + r.cells;
    NoBegin(acts, p, [], args, Pos(s, |cs| + 1), ev);
    assert forall i :: |cs| < i < |all| ==> all[i] == r.cells[i - |cs| - 1];
    forall i | 0 <= i < |all| && all[i].kind.Begin? ensures Follows(acts, all[i].kind.start, all, i + 1, 0) {
      if i < |cs| {
        StillFollows(acts, cs[i].kind.start, cs, i + 1, 0, more);
      } else {
        var begun := cs + [Cell(Begin(p), [])];
        assert With(begun, r) == all by {
          assert begun[..|cs|] == cs && [] + r.head == r.head;
        }
        PlanFollows(acts, p, [], args, Pos(s, |cs| + 1), ev, begun, all);
      }
    }
  }

  class Assembler {
    const acts: seq<Byte>
    var lg: seq<int>
    var pc: seq<int>
    var bufs: seq<seq<int>>
    var ofs: seq<nat>
    var sec: nat
    var status: Status
    var codesize: int
    var globals: seq<int>
    ghost var log: seq<seq<Cell>>
    ghost var order: seq<Event>
    /** The positions or markers that references end with. */
    ghost var ends: seq<int>

    ghost predicate Stores()
      reads this`bufs, this`log, this`order, this`lg, this`pc
    {
      Inv(bufs, log, order, lg, pc)
    }

    ghost predicate Valid()
      reads this`bufs, this`log, this`order, this`lg, this`pc, this`ofs, this`sec
    {
      && Stores() && |ofs| == |log| && sec < |log| <= 128 && |lg| >= 10
      && (forall s :: 0 <= s < |log| ==> ofs[s] == Upper(log[s], |log[s]|) && Spelled(acts, log[s]))
    }

    /** Sections, label tables and an action list, as initialised and set up. */
    constructor (actions: seq<Byte>, nsec: nat, nlg: nat, npc: nat, gl: seq<int>)
      requires 1 <= nsec <= 128 && nlg >= 10 && |gl| == nlg
      ensures Valid() && status.Fine? && acts == actions && sec == 0
      ensures |log| == nsec && (forall s :: 0 <= s < nsec ==> log[s] == []) && order == []
      ensures |lg| == nlg && |pc| == npc && globals == gl
    {
      acts, sec, status := actions, 0, Fine;
      lg, pc, codesize := seq(nlg, _ => 0), seq(npc, _ => 0), 0;
      bufs, ofs := seq(nsec, _ => []), seq(nsec, _ => 0);
      globals, log, order, ends := gl, seq(nsec, _ => []), [], [];
    }

    /** More PC labels, none of them used. */
    method GrowPc(npc: nat)
      requires Valid()
      modifies this`pc
      ensures Valid() && |pc| == (if npc > old(|pc|) then npc else old(|pc|)) && old(pc) <= pc
    {
      hide Holds, Placed, Shaped, Happened, Upper, Spelled;
      if npc > |pc| {
        forall k | |pc| <= k < npc ensures Table(order, Pc(k), |order|) == 0 {
          Untouched(order, Pc(k), |order|);
        }
        pc := pc + seq(npc - |pc|, _ => 0);
      }
    }

    lemma {:induction false} Untouched(events: seq<Event>, slot: Slot, k: nat)
      requires k <= |events| && forall t :: 0 <= t < |events| && !events[t].Reset? ==> events[t].slot != slot
      ensures Table(events, slot, k) == 0
    {
      if k > 0 {
        Untouched(events, slot, k - 1);
      }
    }

    /** A chain is walked from its head, each reference on it given the value v. */
    method Collapse(ghost slot: Slot, head: int, v: int, ghost vals: seq<int>)
      requires |vals| == |order| && Holds(bufs, log, vals) && Placed(log, order) && Happened(order)
      requires AtLeast0(head) == AtLeast0(Table(order, slot, |order|))
      requires forall t :: 0 <= t < |order| && order[t].Ref? && order[t].slot == slot ==> vals[t] == Value(order, t)
      modifies this`bufs
      ensures Holds(bufs, log, Settled(order, vals, slot, 0, v))
    {
      hide Holds, Placed, Happened;
      var n := head;
      ghost var k: nat := |order|;
      assert Settled(order, vals, slot, k, v) == vals;
      while n > 0
        invariant k <= |order| && AtLeast0(n) == AtLeast0(Table(order, slot, k)) && (n > 0 ==> Next(order, slot, k) == 0)
        invariant Holds(bufs, log, Settled(order, vals, slot, k, v))
        decreases k
      {
        ghost var j := LastOpen(order, slot, k);
        WriteRef(bufs, log, order, Settled(order, vals, slot, k, v), j, v);
        var next := bufs[SecOf(n)][AtOf(n)];
        bufs := Write(bufs, n, v);
        SettleNext(order, vals, slot, k, j, v);
        n, k := next, j;
      }
      NoneOpen(order, slot, k);
      SettleNone(order, vals, slot, k, v);
    }

    /** A table entry. */
    function Entry(slot: Slot): int
      requires Ranged(slot, |lg|, |pc|)
      reads this`lg, this`pc
    {
      if slot.Lg? then lg[slot.index] else pc[slot.number]
    }

    method SetEntry(slot: Slot, v: int)
      requires Ranged(slot, |lg|, |pc|)
      modifies this`lg, this`pc
      ensures lg == (if slot.Lg? then old(lg)[slot.index := v] else old(lg))
      ensures pc == (if slot.Lg? then old(pc) else old(pc)[slot.number := v])
    {
      if slot.Lg? {
        lg := lg[slot.index := v];
      } else {
        pc := pc[slot.number := v];
      }
    }

    /** An entry that is a number of its own. */
    method PutValue(ghost k: Kind, v: int, ghost o: nat)
      requires Stores() && sec < |log| && |log[sec]| < SECTION_SPAN && o == Upper(log[sec], |log[sec]|)
      requires Plain(k) && !HasEvent(k) && v == EntryOf(k, o, [])
      modifies this`bufs, this`log
      ensures Stores() && |log| == old(|log|) && log == Added(old(log), sec, k)
      ensures Upper(log[sec], |log[sec]|) == o + Most(k)
    {
      hide Holds, Placed, Shaped, Happened, Tables, Upper;
      SizesOf(bufs, log, Values(order));
      InvAdded(bufs, log, order, lg, pc, sec, k, v);
      bufs := Pushed(bufs, sec, v);
      log := Added(log, sec, k);
    }

    /** A reference: the position of a label already there, or the next link of the chain at its table entry. */
    method PutRef(slot: Slot, ahead: bool, branch: bool, ghost k: Kind, o: nat)
      requires Stores() && sec < |log| && |log[sec]| > 0 && o == Upper(log[sec], |log[sec]|)
      requires |log[sec]| + (if k.Rel? then 1 else 0) < SECTION_SPAN
      requires (k.Rel? || k.Addr?) && k.named == slot.Lg? && k.event == |order| && branch == k.Rel?
      requires Ranged(slot, |lg|, |pc|) && May(order, Ref(slot, Pos(sec, |log[sec]|), ahead))
      requires k.Rel? ==> Opcode(log[sec][|log[sec]| - 1].tail, k.op)
      modifies this`bufs, this`log, this`order, this`lg, this`pc
      ensures Stores() && |log| == old(|log|) && log == Stored(old(log), sec, k)
      ensures order == old(order) + [Ref(slot, Pos(sec, old(|log[sec]|)), ahead)]
      ensures |lg| == old(|lg|) && |pc| == old(|pc|) && Upper(log[sec], |log[sec]|) == o + 4
    {
      hide Holds, Placed, Shaped, Happened, Tables, Upper, May, Opcode;
      SizesOf(bufs, log, Values(order));
      ghost var e := Ref(slot, Pos(sec, |log[sec]|), ahead);
      InvRef(bufs, log, order, lg, pc, sec, k, e);
      var pos: int := Pos(sec, |bufs[sec]|);
      var n := Entry(slot);
      if ahead && n < 0 {
        n := 0;
      }
      if n < 0 {
        assert lg == (if slot.Lg? then lg[slot.index := n] else lg) && pc == (if slot.Lg? then pc else pc[slot.number := n]);
        bufs := Pushed(bufs, sec, -n);
      } else {
        bufs := Pushed(bufs, sec, n);
        SetEntry(slot, pos);
      }
      if branch {
        bufs := Pushed(bufs, sec, o + 4);
      }
      log, order := Stored(log, sec, k), order + [e];
    }

    /** A label: its chain is collapsed, its table entry and its estimated offset are stored. */
    method PutLabel(slot: Slot, ghost k: Kind, o: nat)
      requires Stores() && sec < |log| && 0 < |log[sec]| < SECTION_SPAN && o == Upper(log[sec], |log[sec]|)
      requires Ranged(slot, |lg|, |pc|) && k == Label(slot, |order|)
      modifies this`bufs, this`log, this`order, this`lg, this`pc
      ensures Stores() && |log| == old(|log|) && log == Added(old(log), sec, k)
      ensures order == old(order) + [Def(slot, Pos(sec, old(|log[sec]|)))]
      ensures |lg| == old(|lg|) && |pc| == old(|pc|) && Upper(log[sec], |log[sec]|) == o
    {
      hide Holds, Placed, Shaped, Happened, Tables, Upper, Values, Settled;
      SizesOf(bufs, log, Values(order));
      ghost var e := Def(slot, Pos(sec, |log[sec]|));
      TablesMore(lg, pc, order, e);
      var pos: int := Pos(sec, |bufs[sec]|);
      Collapse(slot, Entry(slot), pos, Values(order));
      SizesOf(bufs, log, Settled(order, Values(order), slot, 0, pos));
      InvDef(bufs, log, order, lg, pc, sec, k, e);
      SetEntry(slot, -pos);
      bufs := Pushed(bufs, sec, o);
      log, order := Added(log, sec, k), order + [e];
    }

    /** What a whole action string would store. */
    ghost function Whole(start: nat, args: seq<int>): Outcome
      requires sec < |log| && Read(acts, start, [], args, Pos(sec, |log[sec]| + 1), |order|).Some?
      reads this`log, this`order, this`sec
    {
      var r := Read(acts, start, [], args, Pos(sec, |log[sec]| + 1), |order|).value;
      Outcome(log[sec] + [Cell(Begin(start), r.head)] + r.cells, order + r.events, r.stop)
    }

    ghost predicate Going(p: nat, args: seq<int>, o: nat, w: Outcome)
      reads this`bufs, this`log, this`order, this`lg, this`pc, this`sec
    {
      && Stores() && sec < |log| && o == Upper(log[sec], |log[sec]|)
      && Leads(acts, p, args, sec, log[sec], order, w)
    }

    /** An immediate, space or alignment; refused if out of range. */
    method DoValue(p: nat, args: seq<int>, o: nat, ghost w: Outcome) returns (ok: bool, q: nat, left: seq<int>, u: nat)
      requires Going(p, args, o, w) && |w.cells| <= SECTION_SPAN && p < |acts|
      requires IsImm(acts[p]) || acts[p] == SPACE || acts[p] == ALIGN
      modifies this`bufs, this`log, this`status
      ensures ok ==> Going(q, left, u, w) && p < q && log == old(log)[sec := log[sec]] && status == old(status)
      ensures !ok ==> Blames(acts, status) && !Passes(w, |lg|, |pc|, |log|) && |bufs| == |log| == old(|log|)
    {
      hide Inv, Leads, Upper, Plain, Passes;
      q, left, u := p, args, o;
      Needs(acts, p, args, sec, log[sec], order, w);
      LeadsValue(acts, p, args, sec, log[sec], order, w);
      var a := acts[p];
      if IsImm(a) {
        var n := args[0];
        if !InRange(a, n) {
          OutOfRange(w, |log[sec]|, |lg|, |pc|, |log|);
          Sizes();
          status := RangeI(p);
          return false, q, left, u;
        }
        PlainIs(Imm(a, n));
        PutValue(Imm(a, n), n, o);
        q, left, u := p + 1, args[1..], o + ImmSize(a);
      } else if a == SPACE {
        var n := args[0];
        PlainIs(Space(n, acts[p + 1]));
        PutValue(Space(n, acts[p + 1]), n, o);
        q, left, u := p + 2, args[1..], o + n;
      } else {
        PlainIs(Align(acts[p + 1]));
        PutValue(Align(acts[p + 1]), o + acts[p + 1] as int, o);
        q, u := p + 2, o + acts[p + 1] as int;
      }
      ok := true;
    }

    lemma PlainIs(k: Kind)
      requires (k.Imm? && InRange(k.action, k.value)) || k.Space? || (k.Align? && IsMask(k.mask))
      ensures Plain(k)
    {
    }

    lemma OutOfRange(w: Outcome, i: nat, nlg: nat, npc: nat, nsec: nat)
      requires i < |w.cells| && w.cells[i].kind.Imm? && !InRange(w.cells[i].kind.action, w.cells[i].kind.value)
      ensures !Passes(w, nlg, npc, nsec)
    {
    }

    lemma Sizes()
      requires Stores()
      ensures |bufs| == |log| && forall s :: 0 <= s < |log| ==> |bufs[s]| == |log[s]|
    {
      SizesOf(bufs, log, Values(order));
    }

    /** A reference; refused if its label is outside its table, or a local one is looked for behind and not there. */
    method DoRef(p: nat, args: seq<int>, o: nat, ghost w: Outcome) returns (ok: bool, q: nat, left: seq<int>, u: nat)
      requires Going(p, args, o, w) && |w.cells| <= SECTION_SPAN && p < |acts| && Refers(acts[p]) && |lg| >= 10
      modifies this`bufs, this`log, this`order, this`lg, this`pc, this`status
      ensures ok ==> Going(q, left, u, w) && p < q && log == old(log)[sec := log[sec]] && status == old(status)
      ensures ok ==> |lg| == old(|lg|) && |pc| == old(|pc|)
      ensures !ok ==> Blames(acts, status) && !Passes(w, old(|lg|), old(|pc|), old(|log|)) && |bufs| == |log| == old(|log|)
    {
      hide Inv, Leads, Upper, Passes, May, Opcode;
      q, left, u := p, args, o;
      Needs(acts, p, args, sec, log[sec], order, w);
      LeadsRef(acts, p, args, sec, log[sec], order, w);
      Sizes();
      var a := acts[p];
      ghost var k := RefKind(acts, p, |order|);
      var slot;
      if a == REL_PC || a == IMM_PC {
        slot, q, left := Pc(args[0]), p + 1, args[1..];
        if !(0 <= args[0] < |pc|) {
          Refused(order, Ref(slot, Pos(sec, |log[sec]|), RefAhead(acts, p)), w, |lg|, |pc|, |log|);
          status := RangePc(p);
          return false, q, left, u;
        }
      } else {
        var n := acts[p + 1];
        slot, q := Named(n), p + 2;
        if n <= 246 {
          if !(n >= 10 || lg[n] < 0) || n as int >= |lg| {
            TableIs(slot);
            Refused(order, Ref(slot, Pos(sec, |log[sec]|), RefAhead(acts, p)), w, |lg|, |pc|, |log|);
            status := RangeLg(p + 1);
            return false, q, left, u;
          }
        }
      }
      TableIs(slot);
      MayIs(Ref(slot, Pos(sec, |log[sec]|), RefAhead(acts, p)));
      PutRef(slot, RefAhead(acts, p), Branching(a), k, o);
      StoredIs(old(log), sec, k);
      u := o + 4;
      ok := true;
    }

    lemma StoredIs(logs: seq<seq<Cell>>, s: nat, k: Kind)
      requires s < |logs|
      ensures Stored(logs, s, k) == logs[s := logs[s] + RefCells(k)]
    {
      assert (logs[s] + [Cell(k, [])]) + [Cell(Est, [])] == logs[s] + [Cell(k, []), Cell(Est, [])];
    }

    lemma TableIs(slot: Slot)
      requires Stores() && |lg| >= 10
      ensures Ranged(slot, |lg|, |pc|) ==> Entry(slot) == Table(order, slot, |order|)
    {
    }

    lemma MayIs(e: Event)
      requires e.Ref? && (e.ahead ==> Local(e.slot))
      requires e.slot.Lg? && e.slot.index < 10 && !e.ahead ==> Table(order, e.slot, |order|) < 0
      ensures May(order, e)
    {
    }

    /** A label; refused outside its table. */
    method DoLabel(p: nat, args: seq<int>, o: nat, ghost w: Outcome) returns (ok: bool, q: nat, left: seq<int>)
      requires Going(p, args, o, w) && |w.cells| <= SECTION_SPAN && p < |acts| && (acts[p] == LABEL_LG || acts[p] == LABEL_PC)
      modifies this`bufs, this`log, this`order, this`lg, this`pc, this`status
      ensures ok ==> Going(q, left, o, w) && p < q && log == old(log)[sec := log[sec]] && status == old(status)
      ensures ok ==> |lg| == old(|lg|) && |pc| == old(|pc|)
      ensures !ok ==> Blames(acts, status) && !Passes(w, old(|lg|), old(|pc|), old(|log|)) && |bufs| == |log| == old(|log|)
    {
      hide Inv, Leads, Upper, Passes;
      q, left := p, args;
      Needs(acts, p, args, sec, log[sec], order, w);
      LeadsDef(acts, p, args, sec, log[sec], order, w);
      Sizes();
      var slot;
      if acts[p] == LABEL_PC {
        slot, q, left := Pc(args[0]), p + 1, args[1..];
        if !(0 <= args[0] < |pc|) {
          OutOfTable(w, |order|, |lg|, |pc|, |log|);
          status := RangePc(p);
          return false, q, left;
        }
      } else {
        slot, q := Lg(acts[p + 1]), p + 2;
        if acts[p + 1] as int >= |lg| {
          OutOfTable(w, |order|, |lg|, |pc|, |log|);
          status := RangeLg(p + 1);
          return false, q, left;
        }
      }
      PutLabel(slot, Label(slot, |order|), o);
      ok := true;
    }

    lemma OutOfTable(w: Outcome, t: nat, nlg: nat, npc: nat, nsec: nat)
      requires t < |w.events| && !w.events[t].Reset? && !Ranged(w.events[t].slot, nlg, npc)
      ensures !Passes(w, nlg, npc, nsec)
    {
    }

    /** Plain bytes take one byte of the estimate and no entry. */
    lemma GoingByte(p: nat, args: seq<int>, o: nat, w: Outcome)
      requires Going(p, args, o, w) && p < |acts| && (acts[p] < DISP || (acts[p] == ESC && p + 1 < |acts|))
      ensures |log[sec]| > 0
      ensures var b := if acts[p] < DISP then acts[p] else acts[p + 1];
              Inv(bufs, Longer(log, sec, b), order, lg, pc) &&
              Upper(Longer(log, sec, b)[sec], |log[sec]|) == o + 1 && |Longer(log, sec, b)[sec]| == |log[sec]| &&
              Leads(acts, if acts[p] < DISP then p + 1 else p + 2, args, sec, Longer(log, sec, b)[sec], order, w)
    {
      hide Inv, Upper;
      var b := if acts[p] < DISP then acts[p] else acts[p + 1];
      InvLonger(bufs, log, order, lg, pc, sec, b);
      LeadsByte(acts, p, args, sec, log[sec], order, w);
      assert Longer(log, sec, b)[sec] == Tailed(log[sec], b);
    }

    lemma TooFar(w: Outcome, nlg: nat, npc: nat, nsec: nat)
      requires w.stop.Some? && w.stop.value as int >= nsec
      ensures !Passes(w, nlg, npc, nsec)
    {
    }

    /**
     * An action string with its arguments. It is stored as planned, labels before or after their references, unless a
     * check fails; then nothing is said but that.
     */
    method Put(start: nat, args: seq<int>)
      requires Valid() && status.Fine? && Read(acts, start, [], args, Pos(sec, |log[sec]| + 1), |order|).Some?
      requires |Whole(start, args).cells| <= SECTION_SPAN
      modifies this
      ensures status.Fine? <==> Passes(old(Whole(start, args)), old(|lg|), old(|pc|), old(|log|))
      ensures !status.Fine? ==> Blames(acts, status)
      ensures status.Fine? ==> Valid() && |lg| == old(|lg|) && |pc| == old(|pc|)
      ensures status.Fine? ==> log == old(log)[old(sec) := old(Whole(start, args)).cells]
      ensures status.Fine? ==> order == old(Whole(start, args)).events
      ensures status.Fine? ==> sec == match old(Whole(start, args)).stop case Some(n) => n as nat case None => old(sec)
    {
      hide Inv, Leads, Upper, Passes, Spelled, Read;
      ghost var w := Whole(start, args);
      ghost var log0 := log;
      var s, o := sec, ofs[sec];
      Sizes();
      LeadsFrom(acts, start, args, sec, log[sec], order);
      SpelledMore(acts, log[sec], start, args, sec, |order|);
      var at := |bufs[s]|;
      PutValue(Begin(start), start, o);
      var p: nat, rest, more, ok := start, args, true, true;
      while more
        invariant |log| == |log0| && Going(p, rest, o, w) && log == log0[s := log[s]] && sec == s && status.Fine?
        invariant |lg| == old(|lg|) && |pc| == old(|pc|) && ofs == old(ofs)
        invariant !more ==> p < |acts| && (acts[p] == STOP || acts[p] == SECTION)
        decreases if more then 1 else 0, |acts| - p
      {
        Needs(acts, p, rest, sec, log[sec], order, w);
        var a := acts[p];
        if a < DISP || a == ESC {
          GoingByte(p, rest, o, w);
          log := Longer(log, sec, if a < DISP then a else acts[p + 1]);
          p, o := if a < DISP then p + 1 else p + 2, o + 1;
        } else if IsImm(a) || a == SPACE || a == ALIGN {
          ok, p, rest, o := DoValue(p, rest, o, w);
        } else if Refers(a) {
          ok, p, rest, o := DoRef(p, rest, o, w);
        } else if a == LABEL_LG || a == LABEL_PC {
          ok, p, rest := DoLabel(p, rest, o, w);
        } else {
          more := false;
        }
        if !ok {
          bufs := bufs[s := if at <= |bufs[s]| then bufs[s][..at] else bufs[s]];
          return;
        }
      }
      LeadsStop(acts, p, rest, s, log[s], order, w);
      Sizes();
      if acts[p] == SECTION {
        if acts[p + 1] as int >= |bufs| {
          TooFar(w, |lg|, |pc|, |log|);
          status := RangeSec(p);
          return;
        }
        sec := acts[p + 1];
      }
      Passed(bufs, log, order, lg, pc, s, w, |log|);
      ofs := ofs[s := o];
    }

    /** Between steps: no local label may be waited for, all are forgotten, and the section may be checked. */
    method CheckStep(section: int) returns (st: Status)
      requires status.Fine? ==> Valid()
      modifies this`lg, this`status, this`order
      ensures st == status && |lg| == old(|lg|)
      ensures status.Fine? <==>
                old(status).Fine? && (forall k :: 1 <= k <= 9 ==> old(lg[k]) <= 0) && (section < 0 || section == sec)
      ensures !old(status).Fine? ==> st == old(status)
      ensures old(status).Fine? && st.UndefL? ==> 1 <= st.index <= 9 && old(lg[st.index]) > 0
      ensures old(status).Fine? && st.UndefL? ==> forall k :: 1 <= k < st.index ==> old(lg[k]) <= 0
      ensures old(status).Fine? && !st.Fine? ==> st.UndefL? || st == MatchSec(sec)
      ensures old(status).Fine? && st == MatchSec(sec) ==> 0 <= section != sec
      ensures status.Fine? ==> Valid() && order == old(order) + [Reset] && forall k :: 1 <= k <= 9 ==> lg[k] == 0
    {
      hide Inv, Upper, Spelled;
      if !status.Fine? {
        return status;
      }
      ghost var lg0 := lg;
      var i := 1;
      while i <= 9
        invariant Inv(bufs, log, order, lg0, pc) && order == old(order) && status == old(status)
        invariant 1 <= i <= 10 && |lg| == |lg0| >= 10 && (forall k :: 1 <= k < i ==> lg0[k] <= 0)
        invariant forall k :: 0 <= k < |lg| ==> lg[k] == if 1 <= k < i then 0 else lg0[k]
      {
        if lg[i] > 0 {
          status := UndefL(i);
          return status;
        }
        lg := lg[i := 0];
        i := i + 1;
      }
      InvReset(bufs, log, order, lg0, pc, lg);
      order := order + [Reset];
      if section >= 0 && section != sec {
        status := MatchSec(sec);
      }
      return status;
    }

    ghost predicate LinkAt(s: nat, i: nat, o: int)
      reads this`bufs, this`log, this`order, this`ends, this`ofs, this`lg
    {
      && |ofs| == |log| && (forall r :: 0 <= r < |log| ==> ofs[r] == Upper(log[r], |log[r]|))
      && Placed(log, order) && Shaped(log) && Resolved(log, order, ends, |lg|)
      && Come(bufs, log, ends, s, i, o)
    }

    /** How far away the label at `v` is, as the second pass finds it. */
    method Distance(s: nat, i: nat, o: int, v: nat) returns (far: int)
      requires LinkAt(s, i, o) && i < |log[s]| && log[s][i].kind.Rel?
      requires Within(log, v) && log[SecOf(v)][AtOf(v)].kind.Label?
      ensures var cs, aim, g, l := Joined(log), Aims(log, ends), First(log, s) + i, Index(log, v);
              g < |cs| && l < |cs| && l != g &&
              far == if l > g then Upper(cs, l) - (Upper(cs, g) + 4)
                     else Upper(cs, l) + Saved(cs, aim, l) - Saved(cs, aim, g) - (Upper(cs, g) + 4)
    {
      hide Upper, Saved, Joined, Placed, Shaped, Resolved, LinkedTo, First, Aims;
      ghost var cs, aim := Joined(log), Aims(log, ends);
      BranchAt(bufs, log, ends, aim, s, i);
      LabelAt(bufs, log, order, ends, aim, s, i, v);
      PlaceOf(log, order, s, i);
      UpperJoined(log, s, i);
      far := bufs[SecOf(v)][AtOf(v)];
      if v > Pos(s, i) {
        AfterIs(s, i, v);
        var r := s;
        while r < SecOf(v)
          invariant s <= r <= SecOf(v) && |ofs| == |log| && First(log, r) <= |cs| && First(log, s) <= |cs|
          invariant far == Upper(log[SecOf(v)], AtOf(v)) + Upper(cs, First(log, r)) - Upper(cs, First(log, s))
        {
          UpperJoined(log, r, |log[r]|);
          FirstNext(log, r);
          far := far + ofs[r];
          r := r + 1;
        }
      } else {
        far := far - o;
      }
      far := far - bufs[s][i + 1];
    }

    lemma AfterIs(s: nat, i: nat, v: nat)
      requires v > Pos(s, i)
      ensures SecOf(v) >= s
    {
    }

    /** A branch: shortened if its label is near. */
    method LinkBranch(s: nat, i: nat, o: int, op: Byte) returns (u: int)
      requires LinkAt(s, i, o) && i < |log[s]| && log[s][i].kind.Rel? && log[s][i].kind.op == op
      modifies this`bufs
      ensures LinkAt(s, i + 2, u)
    {
      hide Upper, Saved, Joined, Placed, Shaped, Resolved, LinkedTo, First, Aims, FixedOf, ShortBy;
      ghost var cs, aim, g := Joined(log), Aims(log, ends), First(log, s) + i;
      BranchAt(bufs, log, ends, aim, s, i);
      AimIs(log, order, ends, |lg|, s, i);
      AimedAt(log, order, ends, |lg|);
      u := o;
      var shrink := ShortBy(op);
      if shrink > 0 {
        var v := bufs[s][i];
        if v < 0 {
          shrink := 0;
        } else {
          var far := Distance(s, i, o, v);
          if -128 - shrink <= far <= 127 {
            u := o - shrink;
          } else {
            shrink := 0;
          }
        }
      }
      assert shrink == Shrink(cs, aim, g);
      BranchLinked(bufs, log, ends, s, i, o, shrink);
      bufs := bufs[s := bufs[s][i + 1 := shrink]];
    }

    predicate Skipped(k: Kind) { k.Begin? || k.Imm? || k.Space? || k.Addr? }

    lemma LinkSkip(s: nat, i: nat, o: int)
      requires LinkAt(s, i, o) && i < |log[s]| && Skipped(log[s][i].kind)
      ensures LinkAt(s, i + 1, o)
      ensures |bufs| == |log| && |bufs[s]| == |log[s]|
      ensures log[s][i].kind.Begin? ==> bufs[s][i] == log[s][i].kind.start
    {
      hide Upper, Saved, Joined, Placed, Shaped, Resolved, First, Aims, LinkedTo, FixedOf, Aimed;
      LinkedAt(bufs, log, ends, Aims(log, ends), First(log, s) + i, s, i);
      LinkedSame(bufs, log, ends, Aims(log, ends), s, i);
      SavedNext(Joined(log), Aims(log, ends), First(log, s) + i);
    }

    /** A label's offset becomes final. */
    method LinkLabel(s: nat, i: nat, o: int)
      requires LinkAt(s, i, o) && i < |log[s]| && log[s][i].kind.Label?
      modifies this`bufs
      ensures LinkAt(s, i + 1, o)
    {
      hide Upper, Saved, Joined, Placed, Shaped, Resolved, First, Aims, LinkedTo, Aimed;
      ghost var cs, aim, g := Joined(log), Aims(log, ends), First(log, s) + i;
      LinkedAt(bufs, log, ends, aim, g, s, i);
      UpperJoined(log, s, i);
      SavedNext(cs, aim, g);
      LinkedNext(bufs, log, ends, aim, s, i, Final(cs, aim, g));
      bufs := bufs[s := bufs[s][i := bufs[s][i] + o]];
    }

    /** Alignment gives back what it does not need. */
    method LinkAlign(s: nat, i: nat, o: int, m: Byte) returns (u: int)
      requires LinkAt(s, i, o) && i < |log[s]| && log[s][i].kind == Align(m)
      ensures LinkAt(s, i + 1, u)
    {
      hide Upper, Saved, Joined, Placed, Shaped, Resolved, First, Aims, LinkedTo, Aimed, FixedOf;
      ghost var cs, aim, g := Joined(log), Aims(log, ends), First(log, s) + i;
      LinkedAt(bufs, log, ends, aim, g, s, i);
      UpperJoined(log, s, i);
      SavedNext(cs, aim, g);
      LinkedSame(bufs, log, ends, aim, s, i);
      u := o - (bufs[s][i] + o) % (m as int + 1);
    }

    ghost predicate AllSpelled()
      reads this`log
    {
      forall s :: 0 <= s < |log| ==> Spelled(acts, log[s])
    }

    /** One action string, from its start entry on. */
    method LinkString(s: nat, i: nat, o: int) returns (j: nat, u: int)
      requires LinkAt(s, i, o) && i < |log[s]| && log[s][i].kind.Begin? && AllSpelled()
      modifies this`bufs
      ensures LinkAt(s, j, u) && i < j && (j < |log[s]| ==> log[s][j].kind.Begin?)
    {
      hide Upper, Saved, Joined, Placed, Shaped, Resolved, First, Aims, LinkedTo;
      LinkSkip(s, i, o);
      assert Spelled(acts, log[s]);
      var p: nat := bufs[s][i];
      j, u := i + 1, o;
      ghost var t: nat := 0;
      while true
        invariant LinkAt(s, j, u) && i < j && t <= |log[s][j - 1].tail| && Follows(acts, p, log[s], j, t)
        decreases |acts| - p
      {
        hide LinkAt;
        var a := acts[p];
        if a < DISP {
          p, t := p + 1, t + 1;
        } else if a == ESC {
          p, t := p + 2, t + 1;
        } else if a == STOP || a == SECTION {
          break;
        } else if a == REL_LG || a == REL_PC {
          var op := acts[p - 1];
          u := LinkBranch(s, j, u, op);
          p, j, t := if a == REL_LG then p + 2 else p + 1, j + 2, 0;
        } else if a == LABEL_LG || a == LABEL_PC {
          LinkLabel(s, j, u);
          p, j, t := if a == LABEL_LG then p + 2 else p + 1, j + 1, 0;
        } else if a == ALIGN {
          u := LinkAlign(s, j, u, acts[p + 1]);
          p, j, t := p + 2, j + 1, 0;
        } else {
          LinkSkip(s, j, u);
          p, j, t := if a == SPACE || a == IMM_LG then p + 2 else p + 1, j + 1, 0;
        }
      }
    }

    /** All strings of a section. */
    method LinkSection(s: nat, o: int) returns (u: int)
      requires LinkAt(s, 0, o) && AllSpelled()
      modifies this`bufs
      ensures LinkAt(s, |log[s]|, u)
    {
      hide Upper, Saved, Joined, Placed, Shaped, Resolved, First, Aims, LinkedTo;
      var i := 0;
      u := o;
      BufsAs(s, i, u);
      assert Spelled(acts, log[s]);
      while i != |bufs[s]|
        invariant LinkAt(s, i, u) && i <= |log[s]| && (i < |log[s]| ==> log[s][i].kind.Begin?)
        invariant |bufs| == |log| && |bufs[s]| == |log[s]|
        decreases |log[s]| - i
      {
        i, u := LinkString(s, i, u);
        BufsAs(s, i, u);
      }
    }

    lemma BufsAs(s: nat, i: nat, o: int)
      requires LinkAt(s, i, o)
      ensures |bufs| == |log| && |bufs[s]| == |log[s]|
    {
    }

    /** What holds once everything is linked. */
    ghost predicate Linked()
      reads this`bufs, this`log, this`order, this`lg, this`pc, this`ends, this`codesize
    {
      var cs, aim := Joined(log), Aims(log, ends);
      && Placed(log, order) && Shaped(log) && Happened(order) && Resolved(log, order, ends, |lg|) && AllSpelled()
      && ends == Marked(order, |lg|) && Aimed(cs, aim) && Tables(lg, pc, order)
      && LinkedTo(bufs, log, ends, aim, |cs|) && codesize == Final(cs, aim, |cs|)
    }

    /** PC labels first, then markers for globals of other code, then all sections one after the other. */
    method Link() returns (st: Status)
      requires status.Fine? ==> Valid() && forall k :: 1 <= k <= 9 ==> lg[k] <= 0
      modifies this`bufs, this`codesize, this`ends
      ensures st.Fine? <==> status.Fine? && forall k :: 0 <= k < |pc| ==> pc[k] <= 0
      ensures st.Fine? ==> Linked()
      ensures !st.Fine? && !status.Fine? ==> st == status
      ensures !st.Fine? && status.Fine? ==> st.UndefPc? && st.number < |pc| && pc[st.number] > 0
    {
      hide Holds, Placed, Shaped, Happened, Tables, Upper, Saved, Joined, Resolved, First, Aims, LinkedTo, Spelled, Marked;
      if !status.Fine? {
        return status;
      }
      for n := 0 to |pc|
        invariant forall k :: 0 <= k < n ==> pc[k] <= 0
      {
        if pc[n] > 0 {
          return UndefPc(n);
        }
      }
      AllResolved(log, order, lg, pc);
      MarkGlobals();
      AimedAt(log, order, ends, |lg|);
      LinkedFrom0(bufs, log, ends, Aims(log, ends));
      SizesOf(bufs, log, ends);
      var s, o := 0, 0;
      StartsAt0(log, Aims(log, ends));
      while s < |bufs|
        invariant |bufs| == |log| && s <= |log| && ends == Marked(order, |lg|) && Aimed(Joined(log), Aims(log, ends))
        invariant LinkedTo(bufs, log, ends, Aims(log, ends), First(log, s))
        invariant First(log, s) <= |Joined(log)| && o == Final(Joined(log), Aims(log, ends), First(log, s))
      {
        var u := LinkSection(s, o);
        BufsAs(s, |log[s]|, u);
        FirstNext(log, s);
        UpperJoined(log, s, |log[s]|);
        o := u + ofs[s];
        s := s + 1;
      }
      FirstAll(log);
      codesize := o;
      return Fine;
    }

    lemma StartsAt0(logs: seq<seq<Cell>>, aim: seq<int>)
      requires Aimed(Joined(logs), aim)
      ensures First(logs, 0) == 0 && Final(Joined(logs), aim, 0) == 0
    {
    }

    lemma FirstAll(logs: seq<seq<Cell>>)
      ensures First(logs, |logs|) == |Joined(logs)|
    {
    }

    /** References to globals that have no label here are marked. */
    method MarkGlobals()
      requires Valid()
      modifies this`bufs, this`ends
      ensures Holds(bufs, log, ends) && ends == Marked(order, |lg|)
    {
      hide Holds, Placed, Shaped, Happened, Upper, Spelled, Marked, Settled;
      MarkedNone(order);
      ends := Marked(order, 10);
      var idx := 10;
      while idx < |lg|
        invariant 10 <= idx <= |lg| && ends == Marked(order, idx) && Holds(bufs, log, ends)
      {
        NotMarked(idx);
        Collapse(Lg(idx), lg[idx], -idx, ends);
        MarkedNext(order, idx);
        ends := Marked(order, idx + 1);
        idx := idx + 1;
      }
    }

    lemma NotMarked(n: nat)
      requires n >= 10
      ensures |Marked(order, n)| == |order|
      ensures forall t :: 0 <= t < |order| && order[t].Ref? && order[t].slot == Lg(n) ==>
                Marked(order, n)[t] == Value(order, t)
    {
    }

    /** The entries and aims that are encoded. */
    ghost function Cells(): seq<Cell>
      reads this`log
    {
      Joined(log)
    }

    ghost function Targets(): seq<int>
      reads this`log, this`ends
    {
      Aims(log, ends)
    }

    lemma IsReady(w: World)
      requires Linked() && |w.globals| == |lg|
      ensures Ready(Cells(), Targets(), w)
    {
      hide Placed, Shaped, Happened, Resolved, First, LinkedTo, Joined, Aims, Marked, Final, Branches, Masks, Spelled;
      ShapeJoined(log);
      AimedAt(log, order, ends, |lg|);
    }

    /** An entry of linked buffers. */
    lemma EntryIs(s: nat, i: nat)
      requires Linked() && s < |log| && i < |log[s]|
      ensures |bufs| == |log| && |bufs[s]| == |log[s]|
      ensures First(log, s) + i < |Cells()| && Cells()[First(log, s) + i] == log[s][i]
      ensures bufs[s][i] == FixedOf(Cells(), Targets(), First(log, s) + i, Upper(log[s], i), ends)
    {
      hide Placed, Shaped, Happened, Resolved, LinkedTo, Joined, Aims, Marked, Final, Upper, Spelled, First, FixedOf, Aimed;
      LinkedAt(bufs, log, ends, Aims(log, ends), |Joined(log)|, s, i);
    }

    /** What a reference and its label hold. */
    lemma ReferenceIs(s: nat, i: nat)
      requires Linked() && s < |log| && i < |log[s]| && (log[s][i].kind.Rel? || log[s][i].kind.Addr?)
      ensures |bufs| == |log| && |bufs[s]| == |log[s]| && First(log, s) + i < |Cells()| == |Targets()|
      ensures Cells()[First(log, s) + i] == log[s][i] && Aimed(Cells(), Targets())
      ensures var v, aim := bufs[s][i], Targets()[First(log, s) + i];
              if v < 0 then aim == v && log[s][i].kind.named && 10 <= -v < |lg|
              else Within(log, v) && SecOf(v) < |bufs| && AtOf(v) < |bufs[SecOf(v)]| && 0 <= aim < |Cells()|
                   && bufs[SecOf(v)][AtOf(v)] == Final(Cells(), Targets(), aim)
    {
      hide Placed, Shaped, Happened, Resolved, LinkedTo, Joined, Aims, Marked, Final, Upper, Spelled, First, Saved;
      EntryIs(s, i);
      AimIs(log, order, ends, |lg|, s, i);
      var v := ends[log[s][i].kind.event];
      if v >= 0 {
        EntryIs(SecOf(v), AtOf(v));
      }
    }

    /** A marked global keeps the address it was given. */
    lemma OutsideKept(w: World, s: nat, i: nat, g: nat)
      requires Linked() && |w.globals| == |lg| && s < |log| && i < |log[s]| && (log[s][i].kind.Rel? || log[s][i].kind.Addr?)
      requires |bufs| == |log| && |bufs[s]| == |log[s]| && g <= |Cells()|
      requires bufs[s][i] < 0 && 10 <= -bufs[s][i] < |lg|
      ensures Published(Cells(), Targets(), w, g)[-bufs[s][i]] == w.globals[-bufs[s][i]]
    {
      hide Shaped, LinkedTo, Joined, Aims, Final, Upper, Spelled, First, Published, Table, Value, Next, Placed, Happened;
      var e := log[s][i].kind.event;
      EntryIs(s, i);
      AimIs(log, order, ends, |lg|, s, i);
      var idx := -bufs[s][i];
      MarkedIsOpen(order, |lg|, e);
      forall j | 0 <= j < g && Cells()[j].kind.Label? ensures Cells()[j].kind.slot != Lg(idx) {
        LastFirst();
        var r, k := Whence(log, |log|, j);
        EntryIs(r, k);
        NoneDefined(log, order, e, r, k);
      }
      PublishedKept(Cells(), Targets(), w, g, 0, idx);
      Published0(w);
    }

    lemma LastFirst()
      ensures First(log, |log|) == |Cells()|
    {
    }

    lemma Published0(w: World)
      requires Aimed(Cells(), Targets())
      ensures Published(Cells(), Targets(), w, 0) == w.globals
    {
    }

    lemma MarkedIsOpen(events: seq<Event>, n: nat, t: nat)
      requires Happened(events) && t < |events| && events[t].Ref? && Marked(events, n)[t] < 0
      ensures Open(events, t) && !events[t].ahead && !Local(events[t].slot) && events[t].slot == Lg(-Marked(events, n)[t])
    {
      assert Marked(events, n)[t] == MarkedAt(events, n, t);
      assert Allowed(events, t);
      if !Open(events, t) {
        var _ := ValueMeans(events, t);
      }
    }

    /** The code of entries before g, and t of the plain bytes before it, stands in the buffer. */
    ghost predicate Writing(now: seq<Byte>, before: seq<Byte>, w: World, g: nat, t: nat, cp: nat)
      requires Ready(Cells(), Targets(), w)
      reads this`bufs, this`log, this`order, this`lg, this`pc, this`ends, this`codesize, this`globals
    {
      && Linked() && |now| >= codesize
      && 0 < g <= |Cells()| && t <= |Cells()[g - 1].tail|
      && Emitted(now, before, cp, Partial(Cells(), Targets(), w, g, t))
      && globals == Published(Cells(), Targets(), w, g)
    }

    /** A branch: long to a global of other code, else to the final offset of its label. */
    method EncodeBranch(buffer: array<Byte>, s: nat, i: nat, cp: nat, ghost w: World, base: int) returns (c: nat)
      requires Linked() && |w.globals| == |lg| && w.base == base && Ready(Cells(), Targets(), w)
      requires s < |log| && i < |log[s]| && log[s][i].kind.Rel? && buffer.Length >= codesize
      requires First(log, s) + i < |Cells()| && globals == Published(Cells(), Targets(), w, First(log, s) + i)
      requires Emitted(buffer[..], buffer[..], cp, Upto(Cells(), Targets(), w, First(log, s) + i))
      modifies buffer
      ensures Emitted(buffer[..], old(buffer[..]), c, Done(Cells(), Targets(), w, First(log, s) + i))
    {
      hide Linked, Ready, First, Upto, Done, Final, Branched, Published, Shrink, Shaped, LinkedTo, Aims, Joined;
      ghost var cs, aim, g := Cells(), Targets(), First(log, s) + i;
      ReferenceIs(s, i);
      LinkedParts();
      EndOfCode();
      BranchHolds(bufs, log, ends, s, i);
      DoneIs(cs, aim, w, g);
      ShrinkIs(cs, aim, g);
      Room(cs, aim, w, g);
      BranchedSize(Upto(cs, aim, w, g), cs[g].kind.op, Shrink(cs, aim, g), Gap(cs, aim, w, g, Final(cs, aim, g + 1)));
      var n := bufs[s][i];
      var shrink: nat := bufs[s][i + 1];
      if n < 0 {
        OutsideKept(w, s, i, g);
        c := EmitBranch(buffer, cp, 0, globals[-n] - (base + cp + 4));
      } else {
        c := EmitBranch(buffer, cp, shrink, bufs[SecOf(n)][AtOf(n)] - (cp + 4 - shrink));
      }
    }

    lemma LinkedParts()
      requires Linked()
      ensures Shaped(log) && LinkedTo(bufs, log, ends, Targets(), |Cells()|)
    {
    }

    /** The address of a label or of a global of other code. */
    method EncodeAddress(buffer: array<Byte>, s: nat, i: nat, cp: nat, ghost w: World, base: int) returns (c: nat)
      requires Linked() && |w.globals| == |lg| && w.base == base && Ready(Cells(), Targets(), w)
      requires s < |log| && i < |log[s]| && log[s][i].kind.Addr? && buffer.Length >= codesize
      requires First(log, s) + i < |Cells()| && globals == Published(Cells(), Targets(), w, First(log, s) + i)
      requires Emitted(buffer[..], buffer[..], cp, Upto(Cells(), Targets(), w, First(log, s) + i))
      modifies buffer
      ensures Emitted(buffer[..], old(buffer[..]), c, Done(Cells(), Targets(), w, First(log, s) + i))
    {
      hide Linked, Ready, First, Upto, Done, Final, Published;
      ghost var cs, aim, g := Cells(), Targets(), First(log, s) + i;
      ReferenceIs(s, i);
      Room(cs, aim, w, g);
      EndOfCode();
      var n := bufs[s][i];
      if n < 0 {
        OutsideKept(w, s, i, g);
        c := EmitWord4(buffer, cp, globals[-n]);
      } else {
        c := EmitWord4(buffer, cp, bufs[SecOf(n)][AtOf(n)] + base);
      }
    }

    lemma EndOfCode()
      requires Linked()
      ensures Aimed(Cells(), Targets()) && codesize == Final(Cells(), Targets(), |Cells()|)
    {
    }

    /** An immediate, space, or padding; `x` is the byte after the action. */
    method EncodeValue(buffer: array<Byte>, s: nat, i: nat, a: Byte, x: Byte, cp: nat, ghost w: World) returns (c: nat)
      requires Linked() && Ready(Cells(), Targets(), w) && s < |log| && i < |log[s]| && buffer.Length >= codesize
      requires var k := log[s][i].kind;
               if IsImm(a) then k.Imm? && k.action == a
               else if a == SPACE then k.Space? && k.fill == x else a == ALIGN && k.Align? && k.mask == x
      requires First(log, s) + i < |Cells()|
      requires Emitted(buffer[..], buffer[..], cp, Upto(Cells(), Targets(), w, First(log, s) + i))
      modifies buffer
      ensures Emitted(buffer[..], old(buffer[..]), c, Done(Cells(), Targets(), w, First(log, s) + i))
    {
      hide Linked, Ready, First, Upto, Done, Final, Published, Pad, Upper, Fill, Saved, Aimed;
      ghost var cs, aim, g := Cells(), Targets(), First(log, s) + i;
      EntryIs(s, i);
      Room(cs, aim, w, g);
      EndOfCode();
      var n := bufs[s][i];
      if IsImm(a) {
        c := EmitImm(buffer, cp, a, n);
      } else if a == SPACE {
        c := EmitSpace(buffer, cp, n, x);
      } else {
        c := EmitPad(buffer, cp, x);
      }
    }

    /** A label is made known if it is global. */
    method EncodeLabel(s: nat, i: nat, slot: Slot, ghost w: World, base: int)
      requires Linked() && Aimed(Cells(), Targets()) && s < |log| && i < |log[s]| && log[s][i].kind.Label?
      requires log[s][i].kind.slot == slot && w.base == base && |w.globals| == |lg|
      requires First(log, s) + i < |Cells()| && globals == Published(Cells(), Targets(), w, First(log, s) + i)
      modifies this`globals
      ensures globals == Published(Cells(), Targets(), w, First(log, s) + i + 1)
    {
      hide First, Final, Published, Upper, Saved, Aimed, LinkedTo, Shaped, Joined, Aims, Resolved, Happened, Marked;
      EntryIs(s, i);
      PublishedNext(Cells(), Targets(), w, First(log, s) + i);
      assert EventAt(log[s][i].kind, order, Pos(s, i));
      if slot.Lg? && slot.index >= 10 {
        globals := globals[slot.index := base + bufs[s][i]];
      }
    }

    /** With all plain bytes before it written, entry g is next. */
    lemma AtEntry(now: seq<Byte>, before: seq<Byte>, w: World, g: nat, cp: nat)
      requires 0 < g <= |Cells()| && Ready(Cells(), Targets(), w)
      requires Writing(now, before, w, g, |Cells()[g - 1].tail|, cp)
      ensures Emitted(now, now, cp, Upto(Cells(), Targets(), w, g)) && Emitted(now, before, cp, Upto(Cells(), Targets(), w, g))
    {
      hide Linked, Ready, Upto, Done, Final, Published, Partial;
      PartialIs(Cells(), Targets(), w, g, |Cells()[g - 1].tail|);
    }

    lemma NextWriting(now: seq<Byte>, mid: seq<Byte>, before: seq<Byte>, w: World, g: nat, cp: nat, c: nat)
      requires Linked() && Ready(Cells(), Targets(), w) && |now| >= codesize && g < |Cells()|
      requires Emitted(mid, before, cp, Upto(Cells(), Targets(), w, g))
      requires Emitted(now, mid, c, Done(Cells(), Targets(), w, g))
      requires globals == Published(Cells(), Targets(), w, g + 1)
      ensures Writing(now, before, w, g + 1, 0, c)
    {
      hide Linked, Ready, Upto, Done, Final, Published, Partial;
      Room(Cells(), Targets(), w, g);
      EmittedTwice(before, mid, now, cp, c, Upto(Cells(), Targets(), w, g), Done(Cells(), Targets(), w, g));
      PartialIs(Cells(), Targets(), w, g + 1, 0);
    }

    /** The estimate of a branch writes nothing. */
    lemma EstWritten(w: World, g: nat)
      requires Ready(Cells(), Targets(), w) && g + 1 < |Cells()|
      requires Cells()[g].kind.Rel? && Cells()[g].tail == [] && Cells()[g + 1].kind.Est?
      ensures Done(Cells(), Targets(), w, g + 1) == Done(Cells(), Targets(), w, g)
      ensures Published(Cells(), Targets(), w, g + 1) == Published(Cells(), Targets(), w, g)
      ensures Published(Cells(), Targets(), w, g + 2) == Published(Cells(), Targets(), w, g)
    {
      hide Branched, Shrink, Final;
      assert Upto(Cells(), Targets(), w, g + 1) == Done(Cells(), Targets(), w, g) + [];
      PublishedNext(Cells(), Targets(), w, g);
      PublishedNext(Cells(), Targets(), w, g + 1);
    }

    lemma BranchWritten(now: seq<Byte>, before: seq<Byte>, w: World, g: nat, c: nat)
      requires Ready(Cells(), Targets(), w) && g + 1 < |Cells()|
      requires Cells()[g].kind.Rel? && Cells()[g].tail == [] && Cells()[g + 1].kind.Est?
      requires Writing(now, before, w, g + 1, 0, c)
      ensures Writing(now, before, w, g + 2, 0, c)
    {
      hide Linked, Ready, Upto, Done, Final, Published;
      EstWritten(w, g);
    }

    lemma EntryAt(s: nat, i: nat)
      requires s < |log| && 0 < i <= |log[s]|
      ensures 0 < First(log, s) + i <= |Cells()| && Cells()[First(log, s) + i - 1] == log[s][i - 1]
      ensures i < |log[s]| ==> First(log, s) + i < |Cells()| && Cells()[First(log, s) + i] == log[s][i]
    {
      hide First, Joined;
      JoinedAt(log, s, i - 1);
      if i < |log[s]| {
        JoinedAt(log, s, i);
      }
    }

    /** A branch with its estimate. */
    method EncodeBranchAt(buffer: array<Byte>, s: nat, i: nat, cp: nat, ghost w: World, base: int, ghost before: seq<Byte>)
      returns (c: nat)
      requires Ready(Cells(), Targets(), w) && |w.globals| == |lg| && w.base == base && buffer.Length >= codesize
      requires s < |log| && 0 < i && i + 1 < |log[s]| && First(log, s) + i <= |Cells()|
      requires log[s][i].kind.Rel? && log[s][i + 1].kind.Est? && Cells()[First(log, s) + i - 1] == log[s][i - 1]
      requires Writing(buffer[..], before, w, First(log, s) + i, |log[s][i - 1].tail|, cp)
      modifies buffer
      ensures First(log, s) + i + 2 <= |Cells()| && Cells()[First(log, s) + i + 1] == log[s][i + 1]
      ensures Writing(buffer[..], before, w, First(log, s) + i + 2, 0, c)
    {
      hide Linked, Ready, First, Upto, Done, Final, Published, Partial, Emitted, Shaped, LinkedTo, Aims, Joined;
      ghost var mid, g := buffer[..], First(log, s) + i;
      AtEntry(mid, before, w, g, cp);
      EntryAt(s, i);
      EntryAt(s, i + 1);
      c := EncodeBranch(buffer, s, i, cp, w, base);
      LinkedParts();
      ShapeAt(s, i);
      EstWritten(w, g);
      NextWriting(buffer[..], mid, before, w, g, cp, c);
      BranchWritten(buffer[..], before, w, g, c);
    }

    lemma ShapeAt(s: nat, i: nat)
      requires Shaped(log) && s < |log| && i < |log[s]| && log[s][i].kind.Rel?
      ensures log[s][i].tail == []
    {
      assert Branches(log[s]);
    }

    /** Any other entry. */
    method EncodeEntryAt(buffer: array<Byte>, s: nat, i: nat, p: nat, cp: nat, ghost w: World, base: int,
                         ghost before: seq<Byte>)
      returns (c: nat)
      requires Ready(Cells(), Targets(), w) && |w.globals| == |lg| && w.base == base && buffer.Length >= codesize
      requires s < |log| && 0 < i < |log[s]| && First(log, s) + i < |Cells()| && Cells()[First(log, s) + i - 1] == log[s][i - 1]
      requires Writing(buffer[..], before, w, First(log, s) + i, |log[s][i - 1].tail|, cp)
      requires Follows(acts, p, log[s], i, |log[s][i - 1].tail|)
      requires acts[p] >= DISP && acts[p] != ESC && acts[p] != STOP && acts[p] != SECTION && !Branching(acts[p])
      modifies buffer, this`globals
      ensures Writing(buffer[..], before, w, First(log, s) + i + 1, 0, c)
    {
      hide Linked, Ready, First, Upto, Done, Final, Published, Partial, Emitted, Shaped, LinkedTo, Aims, Joined;
      ghost var mid, g := buffer[..], First(log, s) + i;
      ghost var k := log[s][i].kind;
      AtEntry(mid, before, w, g, cp);
      EntryAt(s, i);
      EndOfCode();
      c := cp;
      var a := acts[p];
      assert !k.Label? ==> Published(Cells(), Targets(), w, g + 1) == Published(Cells(), Targets(), w, g) by {
        PublishedNext(Cells(), Targets(), w, g);
      }
      if IsImm(a) {
        c := EncodeValue(buffer, s, i, a, 0, cp, w);
      } else if a == SPACE || a == ALIGN {
        c := EncodeValue(buffer, s, i, a, acts[p + 1], cp, w);
      } else if a == IMM_LG || a == IMM_PC {
        c := EncodeAddress(buffer, s, i, cp, w, base);
      } else {
        assert Done(Cells(), Targets(), w, g) == Upto(Cells(), Targets(), w, g) by {
          LabelWrites(w, g);
        }
        if a == LABEL_LG {
          EncodeLabel(s, i, Lg(acts[p + 1]), w, base);
        } else {
          PublishedNext(Cells(), Targets(), w, g);
        }
      }
      NextWriting(buffer[..], mid, before, w, g, cp, c);
    }

    lemma LabelWrites(w: World, g: nat)
      requires Ready(Cells(), Targets(), w) && g < |Cells()| && Cells()[g].kind.Label?
      ensures Done(Cells(), Targets(), w, g) == Upto(Cells(), Targets(), w, g)
    {
      assert Upto(Cells(), Targets(), w, g) + [] == Upto(Cells(), Targets(), w, g);
    }

    /** The code before entry i of section s stands in the buffer. */
    ghost predicate Standing(now: seq<Byte>, before: seq<Byte>, w: World, s: nat, i: nat, cp: nat)
      requires Ready(Cells(), Targets(), w)
      reads this`bufs, this`log, this`order, this`lg, this`pc, this`ends, this`codesize, this`globals
    {
      && Linked() && |now| >= codesize && s < |log| && i <= |log[s]| && First(log, s) + i <= |Cells()|
      && Emitted(now, before, cp, Upto(Cells(), Targets(), w, First(log, s) + i))
      && globals == Published(Cells(), Targets(), w, First(log, s) + i)
    }

    /** The start entry of a string writes nothing. */
    lemma Started(now: seq<Byte>, before: seq<Byte>, w: World, s: nat, i: nat, cp: nat)
      requires Ready(Cells(), Targets(), w) && Standing(now, before, w, s, i, cp)
      requires i < |log[s]| && log[s][i].kind.Begin?
      ensures First(log, s) + i + 1 <= |Cells()| && Cells()[First(log, s) + i] == log[s][i]
      ensures Writing(now, before, w, First(log, s) + i + 1, 0, cp)
      ensures |bufs| == |log| && |bufs[s]| == |log[s]| && bufs[s][i] == log[s][i].kind.start
    {
      hide Linked, First, Final, Upper, Saved, Joined, Aims, Aimed;
      var g := First(log, s) + i;
      EntryIs(s, i);
      PublishedNext(Cells(), Targets(), w, g);
      PartialIs(Cells(), Targets(), w, g + 1, 0);
      assert Upto(Cells(), Targets(), w, g) + [] == Upto(Cells(), Targets(), w, g);
    }

    /** One more plain byte. */
    method EncodePlain(buffer: array<Byte>, ghost g: nat, ghost t: nat, b: Byte, cp: nat, ghost w: World, ghost before: seq<Byte>)
      returns (c: nat)
      requires Ready(Cells(), Targets(), w) && buffer.Length >= codesize && 0 < g <= |Cells()|
      requires t < |Cells()[g - 1].tail| && Cells()[g - 1].tail[t] == b
      requires Writing(buffer[..], before, w, g, t, cp)
      modifies buffer
      ensures Writing(buffer[..], before, w, g, t + 1, c)
    {
      hide Linked, Ready, Upto, Done, Final, Published, Partial;
      ghost var mid := buffer[..];
      PartialIs(Cells(), Targets(), w, g, t);
      EndOfCode();
      c := EmitByte(buffer, cp, b);
      EmittedTwice(before, mid, buffer[..], cp, c, Partial(Cells(), Targets(), w, g, t),
                   Partial(Cells(), Targets(), w, g, t + 1));
    }

    /** One action string, from its start entry on. */
    method EncodeString(buffer: array<Byte>, s: nat, i: nat, cp: nat, ghost w: World, base: int, ghost before: seq<Byte>)
      returns (j: nat, c: nat)
      requires Ready(Cells(), Targets(), w) && |w.globals| == |lg| && w.base == base && buffer.Length >= codesize
      requires Standing(buffer[..], before, w, s, i, cp) && i < |log[s]| && log[s][i].kind.Begin? && AllSpelled()
      modifies buffer, this`globals
      ensures Standing(buffer[..], before, w, s, j, c) && i < j && (j < |log[s]| ==> log[s][j].kind.Begin?)
    {
      hide Linked, Ready, First, Upto, Done, Final, Published, Partial, Emitted, Shaped, LinkedTo, Aims, Joined, Opcode;
      Started(buffer[..], before, w, s, i, cp);
      assert Spelled(acts, log[s]);
      var p: nat := bufs[s][i];
      j, c := i + 1, cp;
      ghost var t: nat := 0;
      hide Follows, Writing, Spelled, Cells, Targets;
      FollowsOn(acts, p, log[s], j, t);
      while acts[p] != STOP && acts[p] != SECTION
        invariant i < j && Encoding(buffer[..], before, w, s, j, t, p, c) && p < |acts|
        decreases |acts| - p
      {
        p, j, t, c := EncodeAction(buffer, s, j, p, t, c, w, base, before);
        FollowsOn(acts, p, log[s], j, t);
      }
      FollowsOn(acts, p, log[s], j, t);
      AtEntry(buffer[..], before, w, First(log, s) + j, c);
    }

    /** In the middle of a string: the action at p is next, entry j is next, t plain bytes before it are written. */
    ghost predicate Encoding(now: seq<Byte>, before: seq<Byte>, w: World, s: nat, j: nat, t: nat, p: nat, cp: nat)
      requires Ready(Cells(), Targets(), w)
      reads this`bufs, this`log, this`order, this`lg, this`pc, this`ends, this`codesize, this`globals
    {
      && s < |log| && 0 < j <= |log[s]| && t <= |log[s][j - 1].tail| && Follows(acts, p, log[s], j, t)
      && First(log, s) + j <= |Cells()| && Cells()[First(log, s) + j - 1] == log[s][j - 1]
      && Writing(now, before, w, First(log, s) + j, t, cp)
    }

    /** One action. */
    method EncodeAction(buffer: array<Byte>, s: nat, j: nat, p: nat, ghost t: nat, cp: nat, ghost w: World, base: int,
                        ghost before: seq<Byte>)
      returns (q: nat, k: nat, ghost u: nat, c: nat)
      requires Ready(Cells(), Targets(), w) && |w.globals| == |lg| && w.base == base && buffer.Length >= codesize
      requires Encoding(buffer[..], before, w, s, j, t, p, cp) && p < |acts| && acts[p] != STOP && acts[p] != SECTION
      modifies buffer, this`globals
      ensures p < q && j <= k && Encoding(buffer[..], before, w, s, k, u, q, c)
    {
      hide Linked, Ready, First, Writing, Cells, Targets, Follows;
      var a := acts[p];
      EntryAt(s, j);
      FollowsOn(acts, p, log[s], j, t);
      if a < DISP || a == ESC {
        var b := if a < DISP then a else acts[p + 1];
        c := EncodePlain(buffer, First(log, s) + j, t, b, cp, w, before);
        q, k, u := if a < DISP then p + 1 else p + 2, j, t + 1;
      } else if a == REL_LG || a == REL_PC {
        c := EncodeBranchAt(buffer, s, j, cp, w, base, before);
        q, k, u := if a == REL_LG then p + 2 else p + 1, j + 2, 0;
      } else {
        c := EncodeEntryAt(buffer, s, j, p, cp, w, base, before);
        q, k, u := if IsImm(a) || a == IMM_PC || a == LABEL_PC then p + 1 else p + 2, j + 1, 0;
      }
    }

    /**
     * All sections: `codesize` bytes, those of the code, are written to the buffer, which will stand at address `base`,
     * and no others. There is never a phase error.
     */
    method Encode(buffer: array<Byte>, base: int) returns (st: Status)
      requires Linked() && |globals| == |lg| && buffer.Length >= codesize
      modifies buffer, this`globals
      ensures Ready(Cells(), Targets(), World(base, old(globals)))
      ensures st == Fine && 0 <= codesize
      ensures buffer[..codesize] == Code(Cells(), Targets(), World(base, old(globals)))
      ensures buffer[codesize..] == old(buffer[codesize..])
      ensures globals == Published(Cells(), Targets(), World(base, old(globals)), |Cells()|)
    {
      hide Linked, Ready, First, Upto, Done, Final, Published, Partial, Emitted, Shaped, LinkedTo, Aims, Joined;
      ghost var before, w := buffer[..], World(base, globals);
      IsReady(w);
      Whole0(w, before);
      EndOfCode();
      var s, cp := 0, 0;
      while s < |bufs|
        invariant |bufs| == |log| && s <= |log| && First(log, s) <= |Cells()| && Aimed(Cells(), Targets())
        invariant Emitted(buffer[..], before, cp, Upto(Cells(), Targets(), w, First(log, s)))
        invariant globals == Published(Cells(), Targets(), w, First(log, s))
      {
        var i := 0;
        BeginsAt0(s);
        while i < |bufs[s]|
          invariant s < |bufs| == |log| && |bufs[s]| == |log[s]|
          invariant Standing(buffer[..], before, w, s, i, cp) && (i < |log[s]| ==> log[s][i].kind.Begin?)
        {
          i, cp := EncodeString(buffer, s, i, cp, w, base, before);
        }
        FirstNext(log, s);
        s := s + 1;
      }
      FirstAll(log);
      WholeCode(buffer[..], before, w, cp);
      if codesize != cp {
        return Phase;
      }
      return Fine;
    }

    lemma Whole0(w: World, now: seq<Byte>)
      requires Linked() && Ready(Cells(), Targets(), w) && w.globals == globals
      ensures |bufs| == |log| && First(log, 0) == 0 && AllSpelled()
      ensures Emitted(now, now, 0, Upto(Cells(), Targets(), w, 0)) && globals == Published(Cells(), Targets(), w, 0)
    {
    }

    lemma BeginsAt0(s: nat)
      requires Linked() && s < |log|
      ensures |bufs| == |log| && |bufs[s]| == |log[s]| && (|log[s]| > 0 ==> log[s][0].kind.Begin?)
    {
      assert Spelled(acts, log[s]);
    }

    lemma WholeCode(now: seq<Byte>, before: seq<Byte>, w: World, cp: nat)
      requires Linked() && Ready(Cells(), Targets(), w)
      requires Emitted(now, before, cp, Upto(Cells(), Targets(), w, |Cells()|))
      ensures cp == codesize && now[..cp] == Code(Cells(), Targets(), w) && |now| == |before| && now[cp..] == before[cp..]
    {
      hide Placed, Shaped, Happened, Resolved, LinkedTo, Joined, Aims, Marked, Final, Upto, Spelled, Ready;
      UptoSize(Cells(), Targets(), w, |Cells()|);
      EndOfCode();
    }

    /** In the code, a branch arrives at the label its reference means in the order of the calls. */
    lemma Arrives(w: World, t: nat) returns (d: nat)
      requires Linked() && Ready(Cells(), Targets(), w) && Upper(Cells(), |Cells()|) < 0x8000_0000
      requires t < |order| && order[t].Ref? && !Open(order, t)
      requires Within(log, order[t].pos) && log[SecOf(order[t].pos)][AtOf(order[t].pos)].kind.Rel?
      ensures Means(order, t, d) && Within(log, order[d].pos)
      ensures var g, l := Index(log, order[t].pos), Index(log, order[d].pos);
              g < |Cells()| && l < |Cells()| && Cells()[l].kind.Label? && Cells()[l].kind.slot == order[t].slot &&
              Cells()[g] == log[SecOf(order[t].pos)][AtOf(order[t].pos)] &&
              JumpsTo(Code(Cells(), Targets(), w), Cells()[g].kind.op, Final(Cells(), Targets(), g + 1),
                      Final(Cells(), Targets(), l), Shrink(Cells(), Targets(), g) > 0)
    {
      hide Shaped, Resolved, LinkedTo, Joined, Aims, Marked, Final, Shrink, Code, JumpsTo, Upper, Spelled, First, Tables, Happened,
        Table, Next, Back, Value, Open, NoDef;
      var s, i := SecOf(order[t].pos), AtOf(order[t].pos);
      ReferredTo(t);
      EntryIs(s, i);
      AimIs(log, order, ends, |lg|, s, i);
      d := ValueMeans(order, t);
      EndsValue(order, |lg|, t);
      EntryIs(SecOf(order[d].pos), AtOf(order[d].pos));
      Lands(Cells(), Targets(), w, Index(log, order[t].pos));
    }

    lemma ReferredTo(t: nat)
      requires Placed(log, order) && t < |order| && order[t].Ref?
      ensures CellAt(log, order[t].pos, t)
    {
    }

    lemma EndsValue(events: seq<Event>, n: nat, t: nat)
      requires t < |events| && events[t].Ref? && !Open(events, t)
      ensures Marked(events, n)[t] == Value(events, t)
    {
      assert Marked(events, n)[t] == MarkedAt(events, n, t);
    }

    /** The offset of a PC label: final once linked, -1 if only referred to, -2 if not used or out of range. */
    method GetPcLabel(number: int) returns (r: int)
      requires Linked()
      ensures !(0 <= number < |pc|) || pc[number] == 0 ==> r == -2
      ensures 0 <= number < |pc| && pc[number] > 0 ==> r == -1
      ensures 0 <= number < |pc| && pc[number] < 0 ==>
                exists d :: 0 <= d < |order| && Defines(order[d], Pc(number)) && NoDef(order, d + 1, |order|, Pc(number)) &&
                  Within(log, order[d].pos) && Index(log, order[d].pos) < |Cells()| && Aimed(Cells(), Targets()) &&
                  r == Final(Cells(), Targets(), Index(log, order[d].pos))
    {
      hide Shaped, Resolved, LinkedTo, Joined, Aims, Marked, Final, Upper, Spelled, First, Aimed, Placed, Happened;
      if 0 <= number < |pc| {
        var pos := pc[number];
        if pos < 0 {
          ghost var d := LastDef(order, Pc(number), |order|);
          DefinedAt(d);
          EntryIs(SecOf(-pos), AtOf(-pos));
          return bufs[SecOf(-pos)][AtOf(-pos)];
        }
        if pos > 0 {
          return -1;
        }
      }
      return -2;
    }

    lemma DefinedAt(d: nat)
      requires Placed(log, order) && d < |order| && order[d].Def?
      ensures Within(log, order[d].pos) && log[SecOf(order[d].pos)][AtOf(order[d].pos)].kind.Label?
    {
      var pos := order[d].pos;
      assert CellAt(log, pos, d);
      assert EventAt(log[SecOf(pos)][AtOf(pos)].kind, order, Pos(SecOf(pos), AtOf(pos)));
    }

    /** A global label defined once is made known at its final address. */
    lemma GlobalKnown(w: World, d: nat, idx: nat)
      requires Linked() && Ready(Cells(), Targets(), w) && |w.globals| == |lg| && 10 <= idx < |lg|
      requires d < |order| && Defines(order[d], Lg(idx))
      requires NoDef(order, 0, d, Lg(idx)) && NoDef(order, d + 1, |order|, Lg(idx))
      ensures Within(log, order[d].pos) && Index(log, order[d].pos) < |Cells()|
      ensures Published(Cells(), Targets(), w, |Cells()|)[idx] == w.base + Final(Cells(), Targets(), Index(log, order[d].pos))
    {
      hide Shaped, Resolved, LinkedTo, Joined, Aims, Marked, Final, Upper, Spelled, First, Published, Happened, Tables;
      var pos := order[d].pos;
      DefinedAt(d);
      EntryIs(SecOf(pos), AtOf(pos));
      var g := Index(log, pos);
      LabelIs(d);
      forall j | 0 <= j < |Cells()| && j != g && Cells()[j].kind.Label? ensures Cells()[j].kind.slot != Lg(idx) {
        LastFirst();
        var r, k := Whence(log, |log|, j);
        EntryIs(r, k);
        if Cells()[j].kind.slot == Lg(idx) {
          OnlyLabel(r, k, d, idx);
        }
      }
      PublishedIs(Cells(), Targets(), w, g, idx);
    }

    lemma LabelIs(d: nat)
      requires Placed(log, order) && d < |order| && order[d].Def?
      ensures Within(log, order[d].pos) && log[SecOf(order[d].pos)][AtOf(order[d].pos)].kind == Label(order[d].slot, d)
    {
      var pos := order[d].pos;
      assert CellAt(log, pos, d);
      assert EventAt(log[SecOf(pos)][AtOf(pos)].kind, order, Pos(SecOf(pos), AtOf(pos)));
    }

    lemma OnlyLabel(r: nat, k: nat, d: nat, idx: nat)
      requires Placed(log, order) && r < |log| && k < |log[r]| && log[r][k].kind.Label? && log[r][k].kind.slot == Lg(idx)
      requires d < |order| && Defines(order[d], Lg(idx))
      requires NoDef(order, 0, d, Lg(idx)) && NoDef(order, d + 1, |order|, Lg(idx))
      ensures r == SecOf(order[d].pos) && k == AtOf(order[d].pos)
    {
      assert EventAt(log[r][k].kind, order, Pos(r, k));
      PlaceOf(log, order, r, k);
    }
  }
}
