/** DynASM's first pass: entries are stored, references linked into chains, and chains collapsed at their labels. */
module DasmStore {
  import opened Bytes
  import opened DasmActions
  import opened DasmLabels
  import opened DasmLayout
  import DasmLink
  import opened DasmState

  lemma ShapedLonger(log: seq<seq<Cell>>, s: nat, b: Byte)
    requires Shaped(log) && s < |log| && |log[s]| > 0
    ensures Shaped(Longer(log, s, b))
  {
    var now := Longer(log, s, b);
    var cs, n := log[s], |log[s]| - 1;
    assert Branches(cs) && Masks(cs);
    assert Branches(now[s]) by {
      forall i | 0 <= i < |now[s]| && now[s][i].kind.Rel?
        ensures 0 < i && i + 1 < |now[s]| && now[s][i].tail == [] && now[s][i + 1].kind.Est? &&
                Opcode(now[s][i - 1].tail, now[s][i].kind.op)
      {
        assert cs[i].kind.Rel? && i < n;
      }
    }
    assert Masks(now[s]) by {
      forall i | 0 <= i < |now[s]| && now[s][i].kind.Align? ensures IsMask(now[s][i].kind.mask) {
        assert cs[i].kind.Align?;
      }
    }
  }

  predicate Plain(k: Kind) {
    !k.Rel? && !k.Est? && (k.Imm? ==> InRange(k.action, k.value)) && (k.Align? ==> IsMask(k.mask))
  }

  lemma ShapedAdded(log: seq<seq<Cell>>, s: nat, k: Kind)
    requires Shaped(log) && s < |log| && Plain(k)
    ensures Shaped(Added(log, s, k))
  {
    hide InRange, IsMask, Opcode;
    var now: seq<seq<Cell>> := Added(log, s, k);
    var cs := log[s];
    assert Branches(cs) && Masks(cs);
    forall i | 0 <= i < |now[s]| && now[s][i].kind.Rel?
      ensures 0 < i && i + 1 < |now[s]| && now[s][i].tail == [] && now[s][i + 1].kind.Est? &&
              Opcode(now[s][i - 1].tail, now[s][i].kind.op)
    {
      assert cs[i].kind.Rel?;
    }
  }

  lemma ShapedBranch(log: seq<seq<Cell>>, s: nat, k: Kind)
    requires Shaped(log) && s < |log| && |log[s]| > 0 && k.Rel? && Opcode(log[s][|log[s]| - 1].tail, k.op)
    ensures Shaped(Added(Added(log, s, k), s, Est))
  {
    hide InRange, IsMask, Opcode;
    var now := Added(Added(log, s, k), s, Est);
    var cs := log[s];
    assert Branches(cs) && Masks(cs);
    assert now[s] == cs + [Cell(k, []), Cell(Est, [])];
    forall i | 0 <= i < |now[s]| && now[s][i].kind.Rel?
      ensures 0 < i && i + 1 < |now[s]| && now[s][i].tail == [] && now[s][i + 1].kind.Est? &&
              Opcode(now[s][i - 1].tail, now[s][i].kind.op)
    {
      if i < |cs| {
        assert cs[i].kind.Rel?;
      }
    }
  }

  lemma InvLonger(bufs: seq<seq<int>>, log: seq<seq<Cell>>, order: seq<Event>, lg: seq<int>, pc: seq<int>, s: nat, b: Byte)
    requires Inv(bufs, log, order, lg, pc) && s < |log| && |log[s]| > 0
    ensures Inv(bufs, Longer(log, s, b), order, lg, pc)
    ensures Upper(Longer(log, s, b)[s], |log[s]|) == Upper(log[s], |log[s]|) + 1
  {
    hide Holds, Placed, Shaped, Happened, Tables, Upper, Longer;
    HoldsLonger(bufs, log, Values(order), s, b);
    PlacedLonger(log, order, s, b);
    ShapedLonger(log, s, b);
  }

  lemma InvAdded(bufs: seq<seq<int>>, log: seq<seq<Cell>>, order: seq<Event>, lg: seq<int>, pc: seq<int>, s: nat,
                 k: Kind, v: int)
    requires Inv(bufs, log, order, lg, pc) && s < |log| && |log[s]| < SECTION_SPAN && s < |bufs|
    requires Plain(k) && !HasEvent(k) && v == EntryOf(k, Upper(log[s], |log[s]|), Values(order))
    ensures Inv(Pushed(bufs, s, v), Added(log, s, k), order, lg, pc)
    ensures Upper(Added(log, s, k)[s], |log[s]| + 1) == Upper(log[s], |log[s]|) + Most(k)
  {
    hide Holds, Placed, Shaped, Happened, Tables, Upper, Added, Pushed, EntryOf, Plain, Most;
    HoldsAdded(bufs, log, Values(order), s, k, v);
    PlacedAdded(log, order, s, k);
    ShapedAdded(log, s, k);
  }

  /** Entries of a reference: one, or two for a branch. */
  function Stored(log: seq<seq<Cell>>, s: nat, k: Kind): (now: seq<seq<Cell>>)
    requires s < |log|
    ensures |now| == |log|
  {
    if k.Rel? then Added(Added(log, s, k), s, Est) else Added(log, s, k)
  }

  ghost predicate May(order: seq<Event>, e: Event) {
    e.Ref? ==> (e.ahead ==> Local(e.slot)) &&
               (e.slot.Lg? && e.slot.index < 10 && !e.ahead ==> Table(order, e.slot, |order|) < 0)
  }

  lemma SizesOf(bufs: seq<seq<int>>, log: seq<seq<Cell>>, vals: seq<int>)
    requires Holds(bufs, log, vals)
    ensures |bufs| == |log| && forall s :: 0 <= s < |log| ==> |bufs[s]| == |log[s]|
  {
  }

  lemma InvRef(bufs: seq<seq<int>>, log: seq<seq<Cell>>, order: seq<Event>, lg: seq<int>, pc: seq<int>, s: nat,
               k: Kind, e: Event)
    requires Inv(bufs, log, order, lg, pc) && s < |log| && |log[s]| > 0 && s < |bufs|
    requires |log[s]| + (if k.Rel? then 1 else 0) < SECTION_SPAN
    requires e.Ref? && (k.Rel? || k.Addr?) && k.named == e.slot.Lg? && k.event == |order|
    requires e.pos == Pos(s, |log[s]|) && May(order, e)
    requires Ranged(e.slot, |lg|, |pc|) && (k.Rel? ==> Opcode(log[s][|log[s]| - 1].tail, k.op))
    ensures var v := if e.slot.Lg? then lg[e.slot.index] else pc[e.slot.number];
            var u := if v >= 0 || e.ahead then e.pos else v;
            var once := Pushed(bufs, s, Linked(v, e.ahead));
            var offset := Upper(log[s], |log[s]|) + 4;
            Inv(if k.Rel? then Pushed(once, s, offset) else once, Stored(log, s, k), order + [e],
                if e.slot.Lg? then lg[e.slot.index := u] else lg, if e.slot.Lg? then pc else pc[e.slot.number := u]) &&
            Upper(Stored(log, s, k)[s], |Stored(log, s, k)[s]|) == offset
  {
    hide Holds, Placed, Shaped, Happened, Tables, Upper, Values, Added, Pushed, Branches, Masks, Opcode, Linked;
    TablesMore(lg, pc, order, e);
    HappenedMore(order, e);
    ValuesRef(order, e);
    var v := Linked(Table(order, e.slot, |order|), e.ahead);
    HoldsMore(bufs, log, order, Values(order), v);
    HoldsAdded(bufs, log, Values(order) + [v], s, k, v);
    PlacedEvent(log, order, s, k, e);
    if k.Rel? {
      var now, once := Added(log, s, k), Pushed(bufs, s, v);
      SizesOf(once, now, Values(order + [e]));
      HoldsAdded(once, now, Values(order + [e]), s, Est, Upper(now[s], |now[s]|));
      PlacedAdded(now, order + [e], s, Est);
      ShapedBranch(log, s, k);
    } else {
      ShapedAdded(log, s, k);
    }
  }

  lemma InvDef(bufs: seq<seq<int>>, log: seq<seq<Cell>>, order: seq<Event>, lg: seq<int>, pc: seq<int>, s: nat,
               k: Kind, e: Event)
    requires Placed(log, order) && Shaped(log) && Happened(order) && Tables(lg, pc, order)
    requires s < |log| && |log[s]| < SECTION_SPAN && s < |bufs|
    requires k.Label? && k.event == |order| && e == Def(k.slot, Pos(s, |log[s]|)) && e.pos > 0
    requires Holds(bufs, log, Settled(order, Values(order), e.slot, 0, e.pos))
    requires Ranged(e.slot, |lg|, |pc|)
    ensures Inv(Pushed(bufs, s, Upper(log[s], |log[s]|)), Added(log, s, k), order + [e],
                if e.slot.Lg? then lg[e.slot.index := -e.pos] else lg, if e.slot.Lg? then pc else pc[e.slot.number := -e.pos])
    ensures Upper(Added(log, s, k)[s], |log[s]| + 1) == Upper(log[s], |log[s]|)
  {
    hide Holds, Placed, Shaped, Happened, Tables, Upper, Values, Added, Pushed, Branches, Masks, Settled;
    TablesMore(lg, pc, order, e);
    HappenedMore(order, e);
    ValuesDef(order, e);
    HoldsMore(bufs, log, order, Settled(order, Values(order), e.slot, 0, e.pos), 0);
    HoldsAdded(bufs, log, Values(order + [e]), s, k, Upper(log[s], |log[s]|));
    PlacedEvent(log, order, s, k, e);
    ShapedAdded(log, s, k);
  }

  lemma SettleNext(order: seq<Event>, vals: seq<int>, slot: Slot, k: nat, j: nat, v: int)
    requires |vals| == |order| && j < k <= |order| && order[j].Ref? && order[j].slot == slot && Open(order, j)
    requires forall t :: j < t < k && order[t].Ref? && order[t].slot == slot ==> !Open(order, t)
    ensures Settled(order, vals, slot, j, v) == Settled(order, vals, slot, k, v)[j := v]
  {
  }

  lemma SettleNone(order: seq<Event>, vals: seq<int>, slot: Slot, k: nat, v: int)
    requires |vals| == |order| && k <= |order|
    requires forall t :: 0 <= t < k && order[t].Ref? && order[t].slot == slot ==> !Open(order, t)
    ensures Settled(order, vals, slot, k, v) == Settled(order, vals, slot, 0, v)
  {
  }

  lemma ValuesReset(order: seq<Event>)
    requires Happened(order)
    ensures Values(order + [Reset]) == Values(order) + [0]
  {
    var now := order + [Reset];
    forall t | 0 <= t < |now| ensures Values(now)[t] == (Values(order) + [0])[t] {
      if t < |order| && order[t].Ref? {
        ValueKept(order, Reset, t);
      }
    }
  }

  lemma HappenedReset(order: seq<Event>)
    requires Happened(order) && forall k :: 1 <= k <= 9 ==> Table(order, Lg(k), |order|) <= 0
    ensures Happened(order + [Reset])
  {
    var now := order + [Reset];
    forall t, slot | 0 <= t < |now| && now[t].Reset? && Local(slot) ensures Table(now, slot, t) <= 0 {
      TableKept(order, Reset, slot, t);
      if t == |order| {
        assert slot == Lg(slot.index);
      }
    }
    forall t | 0 <= t < |now| && now[t].Ref? ensures Allowed(now, t) {
      TableKept(order, Reset, now[t].slot, t);
      assert Allowed(order, t);
    }
  }

  lemma PlacedReset(log: seq<seq<Cell>>, order: seq<Event>)
    requires Placed(log, order)
    ensures Placed(log, order + [Reset])
  {
    forall s, i | 0 <= s < |log| && 0 <= i < |log[s]| ensures EventAt(log[s][i].kind, order + [Reset], Pos(s, i)) {
      assert EventAt(log[s][i].kind, order, Pos(s, i));
    }
  }

  lemma TablesReset(lg: seq<int>, pc: seq<int>, order: seq<Event>, lg': seq<int>)
    requires Tables(lg, pc, order) && |lg'| == |lg|
    requires forall k :: 0 <= k < |lg| ==> lg'[k] == if 1 <= k <= 9 then 0 else lg[k]
    ensures Tables(lg', pc, order + [Reset])
  {
    forall slot: Slot ensures Table(order + [Reset], slot, |order|) == Table(order, slot, |order|) {
      TableKept(order, Reset, slot, |order|);
    }
  }

  /** Forgetting local labels that no reference waits for. */
  lemma InvReset(bufs: seq<seq<int>>, log: seq<seq<Cell>>, order: seq<Event>, lg: seq<int>, pc: seq<int>, lg': seq<int>)
    requires Inv(bufs, log, order, lg, pc) && |lg'| == |lg| >= 10 && forall k :: 1 <= k <= 9 ==> lg[k] <= 0
    requires forall k :: 0 <= k < |lg| ==> lg'[k] == if 1 <= k <= 9 then 0 else lg[k]
    ensures Inv(bufs, log, order + [Reset], lg', pc)
  {
    assert forall k :: 1 <= k <= 9 ==> Table(order, Lg(k), |order|) <= 0 by {
      forall k | 1 <= k <= 9 ensures Table(order, Lg(k), |order|) <= 0 {
        assert lg[k] == Table(order, Lg(k), |order|);
      }
    }
    hide Holds, Placed, Shaped, Happened, Tables, Values;
    ValuesReset(order);
    HappenedReset(order);
    PlacedReset(log, order);
    TablesReset(lg, pc, order, lg');
    HoldsMore(bufs, log, order, Values(order), 0);
  }

  /** Values when linking begins: globals up to number `n` that still have no label are marked. */
  ghost function Marked(order: seq<Event>, n: nat): (vals: seq<int>)
    ensures |vals| == |order|
    ensures forall t :: 0 <= t < |order| && order[t].Ref? ==> vals[t] == MarkedAt(order, n, t)
  {
    seq(|order|, t requires 0 <= t < |order| => if order[t].Ref? then MarkedAt(order, n, t) else 0)
  }

  ghost function MarkedAt(order: seq<Event>, n: nat, t: nat): int
    requires t < |order| && order[t].Ref?
  {
    if Open(order, t) && order[t].slot.Lg? && 10 <= order[t].slot.index < n then -(order[t].slot.index as int)
    else Value(order, t)
  }

  lemma MarkedNone(order: seq<Event>)
    ensures Marked(order, 10) == Values(order)
  {
    assert forall t :: 0 <= t < |order| ==> Marked(order, 10)[t] == Values(order)[t];
  }

  lemma MarkedNext(order: seq<Event>, n: nat)
    requires n >= 10
    ensures Marked(order, n + 1) == Settled(order, Marked(order, n), Lg(n), 0, -(n as int))
  {
    var vals := Settled(order, Marked(order, n), Lg(n), 0, -(n as int));
    forall t | 0 <= t < |order| ensures Marked(order, n + 1)[t] == vals[t] {
      if order[t].Ref? && Open(order, t) && order[t].slot == Lg(n) {
        assert MarkedAt(order, n + 1, t) == -(n as int);
      }
    }
  }

  lemma {:induction false} NeverOpen0(order: seq<Event>, k: nat)
    requires Happened(order) && k <= |order|
    ensures Table(order, Lg(0), k) <= 0
  {
    if k > 0 {
      NeverOpen0(order, k - 1);
      if order[k - 1].Ref? {
        assert Allowed(order, k - 1);
      }
    }
  }

  /** With no local or PC label awaited, every value is the position of a label or a marker. */
  lemma AllResolved(log: seq<seq<Cell>>, order: seq<Event>, lg: seq<int>, pc: seq<int>)
    requires Placed(log, order) && Happened(order) && Tables(lg, pc, order) && |lg| >= 10
    requires (forall k :: 1 <= k <= 9 ==> lg[k] <= 0) && forall k :: 0 <= k < |pc| ==> pc[k] <= 0
    ensures DasmLink.Resolved(log, order, Marked(order, |lg|), |lg|)
  {
    var vals := Marked(order, |lg|);
    forall t | 0 <= t < |order| && order[t].Ref? ensures DasmLink.Settles(log, order[t].slot, vals[t], |lg|) {
      assert vals[t] == MarkedAt(order, |lg|, t);
      SettledAt(log, order, lg, pc, t);
    }
  }

  lemma SettledAt(log: seq<seq<Cell>>, order: seq<Event>, lg: seq<int>, pc: seq<int>, t: nat)
    requires Placed(log, order) && Happened(order) && Tables(lg, pc, order) && |lg| >= 10
    requires (forall k :: 1 <= k <= 9 ==> lg[k] <= 0) && forall k :: 0 <= k < |pc| ==> pc[k] <= 0
    requires t < |order| && order[t].Ref?
    ensures DasmLink.Settles(log, order[t].slot, MarkedAt(order, |lg|, t), |lg|)
  {
    hide Table, Next, Value, Back;
    var slot := order[t].slot;
    assert Ranged(slot, |lg|, |pc|);
    if Open(order, t) {
      if slot.Pc? {
        assert pc[slot.number] == Table(order, slot, |order|);
        NoneOpen(order, slot, |order|);
      } else if slot.index < 10 {
        NeverOpen0(order, |order|);
        assert lg[slot.index] == Table(order, slot, |order|);
        NoneOpen(order, slot, |order|);
      }
      assert slot.Lg? && slot.index >= 10;
    } else {
      var d := ValueMeans(order, t);
      var pos := order[d].pos;
      assert CellAt(log, pos, d);
      assert EventAt(log[SecOf(pos)][AtOf(pos)].kind, order, Pos(SecOf(pos), AtOf(pos)));
    }
  }

  /** A global that a reference still waits for has no label anywhere. */
  lemma NoneDefined(log: seq<seq<Cell>>, order: seq<Event>, t: nat, s: nat, i: nat)
    requires Placed(log, order) && Happened(order) && t < |order| && Open(order, t) && !order[t].ahead
    requires !Local(order[t].slot) && s < |log| && i < |log[s]| && log[s][i].kind.Label?
    ensures log[s][i].kind.slot != order[t].slot
  {
    var slot := order[t].slot;
    var d := log[s][i].kind.event;
    assert EventAt(log[s][i].kind, order, Pos(s, i));
    if log[s][i].kind.slot == slot {
      if d < t {
        Remembered(order, slot, d, t);
      } else {
        NextThere(order, slot, t + 1, d);
      }
    }
  }
}
