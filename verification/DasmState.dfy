/**
 * What DynASM's buffers hold while code is being stored: one number per entry, references holding the position of
 * their label or the next reference of a chain.
 */
module DasmState {
  import opened Bytes
  import opened DasmActions
  import opened DasmLabels
  import opened DasmLayout

  /** A position: 8 bits of section, 24 bits of index. */
  function Pos(s: nat, i: nat): nat { s * SECTION_SPAN + i }

  function SecOf(pos: nat): nat { pos / SECTION_SPAN }

  function AtOf(pos: nat): nat { pos % SECTION_SPAN }

  lemma PosParts(s: nat, i: nat)
    requires i < SECTION_SPAN
    ensures SecOf(Pos(s, i)) == s && AtOf(Pos(s, i)) == i
  {
  }

  predicate HasEvent(k: Kind) { k.Rel? || k.Addr? || k.Label? }

  function EventOf(k: Kind): nat
    requires HasEvent(k)
  {
    k.event
  }

  function ValueAt(vals: seq<int>, e: nat): int { if e < |vals| then vals[e] else 0 }

  /** The number of an entry whose estimated offset is `upper`; offsets are those within the section. */
  function EntryOf(k: Kind, upper: nat, vals: seq<int>): int {
    match k
    case Begin(start) => start
    case Imm(_, v) => v
    case Space(n, _) => n
    case Rel(_, _, e) => ValueAt(vals, e)
    case Est => upper
    case Addr(_, e) => ValueAt(vals, e)
    case Label(_, _) => upper
    case Align(m) => upper + m
  }

  ghost predicate Holds(bufs: seq<seq<int>>, log: seq<seq<Cell>>, vals: seq<int>) {
    && |bufs| == |log|
    && (forall s :: 0 <= s < |log| ==> |bufs[s]| == |log[s]|)
    && (forall s, i :: 0 <= s < |log| && 0 <= i < |log[s]| ==>
          bufs[s][i] == EntryOf(log[s][i].kind, Upper(log[s], i), vals))
  }

  predicate EventAt(k: Kind, order: seq<Event>, pos: nat) {
    match k
    case Rel(_, named, e) => e < |order| && order[e].Ref? && order[e].pos == pos && order[e].slot.Lg? == named
    case Addr(named, e) => e < |order| && order[e].Ref? && order[e].pos == pos && order[e].slot.Lg? == named
    case Label(slot, e) => e < |order| && order[e] == Def(slot, pos)
    case _ => true
  }

  predicate CellAt(log: seq<seq<Cell>>, pos: int, t: nat) {
    && pos >= 0 && SecOf(pos) < |log| && AtOf(pos) < |log[SecOf(pos)]|
    && HasEvent(log[SecOf(pos)][AtOf(pos)].kind) && EventOf(log[SecOf(pos)][AtOf(pos)].kind) == t
  }

  /** Entries with events and events with entries belong together one to one. */
  ghost predicate Placed(log: seq<seq<Cell>>, order: seq<Event>) {
    && (forall s :: 0 <= s < |log| ==> |log[s]| <= SECTION_SPAN)
    && (forall s, i :: 0 <= s < |log| && 0 <= i < |log[s]| ==> EventAt(log[s][i].kind, order, Pos(s, i)))
    && (forall t :: 0 <= t < |order| && !order[t].Reset? ==> CellAt(log, order[t].pos, t))
  }

  ghost predicate Shaped(log: seq<seq<Cell>>) {
    forall s :: 0 <= s < |log| ==>
      && Branches(log[s]) && Masks(log[s])
      && (forall i :: 0 <= i < |log[s]| && log[s][i].kind.Imm? ==> InRange(log[s][i].kind.action, log[s][i].kind.value))
  }

  ghost function Values(order: seq<Event>): (vals: seq<int>)
    ensures |vals| == |order|
    ensures forall t :: 0 <= t < |order| && order[t].Ref? ==> vals[t] == Value(order, t)
  {
    seq(|order|, t requires 0 <= t < |order| => if order[t].Ref? then Value(order, t) else 0)
  }

  predicate Ranged(slot: Slot, nlg: nat, npc: nat) {
    match slot
    case Lg(i) => i < nlg
    case Pc(i) => 0 <= i < npc
  }

  ghost predicate Tables(lg: seq<int>, pc: seq<int>, order: seq<Event>) {
    && (forall k :: 0 <= k < |lg| ==> lg[k] == Table(order, Lg(k), |order|))
    && (forall k :: 0 <= k < |pc| ==> pc[k] == Table(order, Pc(k), |order|))
    && (forall t :: 0 <= t < |order| && !order[t].Reset? ==> Ranged(order[t].slot, |lg|, |pc|))
  }

  ghost predicate Inv(bufs: seq<seq<int>>, log: seq<seq<Cell>>, order: seq<Event>, lg: seq<int>, pc: seq<int>) {
    && Holds(bufs, log, Values(order)) && Placed(log, order) && Shaped(log)
    && Happened(order) && Tables(lg, pc, order)
  }

  function Write(bufs: seq<seq<int>>, pos: nat, v: int): seq<seq<int>>
    requires SecOf(pos) < |bufs| && AtOf(pos) < |bufs[SecOf(pos)]|
  {
    bufs[SecOf(pos) := bufs[SecOf(pos)][AtOf(pos) := v]]
  }

  /** Writing through a reference's position changes that reference only. */
  lemma WriteRef(bufs: seq<seq<int>>, log: seq<seq<Cell>>, order: seq<Event>, vals: seq<int>, j: nat, v: int)
    requires Holds(bufs, log, vals) && Placed(log, order) && j < |order| == |vals| && order[j].Ref?
    ensures CellAt(log, order[j].pos, j) && SecOf(order[j].pos) < |bufs| && AtOf(order[j].pos) < |bufs[SecOf(order[j].pos)]|
    ensures bufs[SecOf(order[j].pos)][AtOf(order[j].pos)] == vals[j]
    ensures Holds(Write(bufs, order[j].pos, v), log, vals[j := v])
  {
    hide Upper;
    var pos := order[j].pos;
    assert CellAt(log, pos, j);
    var k := log[SecOf(pos)][AtOf(pos)].kind;
    assert EventAt(k, order, Pos(SecOf(pos), AtOf(pos)));
    var now := Write(bufs, pos, v);
    forall s, i | 0 <= s < |log| && 0 <= i < |log[s]|
      ensures now[s][i] == EntryOf(log[s][i].kind, Upper(log[s], i), vals[j := v])
    {
      assert EventAt(log[s][i].kind, order, Pos(s, i));
      if HasEvent(log[s][i].kind) && EventOf(log[s][i].kind) == j {
        PosParts(s, i);
      }
    }
  }

  lemma {:induction false} UpperKept(cs: seq<Cell>, more: seq<Cell>, i: nat)
    requires i <= |cs| <= |more| && more[..i] == cs[..i]
    ensures Upper(more, i) == Upper(cs, i)
  {
    if i > 0 {
      assert more[i - 1] == more[..i][i - 1] == cs[..i][i - 1] == cs[i - 1];
      assert more[..i - 1] == more[..i][..i - 1] == cs[..i][..i - 1] == cs[..i - 1];
      UpperKept(cs, more, i - 1);
    }
  }

  /** The log with one more entry in section s. */
  function Added(log: seq<seq<Cell>>, s: nat, k: Kind): (now: seq<seq<Cell>>)
    requires s < |log|
    ensures |now| == |log| && |now[s]| == |log[s]| + 1
  {
    log[s := log[s] + [Cell(k, [])]]
  }

  function Pushed(bufs: seq<seq<int>>, s: nat, v: int): (now: seq<seq<int>>)
    requires s < |bufs|
    ensures |now| == |bufs|
  {
    bufs[s := bufs[s] + [v]]
  }

  lemma UpperLast(cs: seq<Cell>)
    requires |cs| > 0
    ensures var n := |cs| - 1; Upper(cs, |cs|) == Upper(cs, n) + Most(cs[n].kind) + |cs[n].tail|
  {
  }

  lemma UpperAdded(cs: seq<Cell>, k: Kind)
    ensures Upper(cs + [Cell(k, [])], |cs| + 1) == Upper(cs, |cs|) + Most(k)
    ensures forall i :: 0 <= i <= |cs| ==> Upper(cs + [Cell(k, [])], i) == Upper(cs, i)
  {
    hide Upper, Most;
    var more := cs + [Cell(k, [])];
    UpperLast(more);
    forall i | 0 <= i <= |cs| ensures Upper(more, i) == Upper(cs, i) {
      assert more[..i] == cs[..i];
      UpperKept(cs, more, i);
    }
  }

  lemma HoldsAdded(bufs: seq<seq<int>>, log: seq<seq<Cell>>, vals: seq<int>, s: nat, k: Kind, v: int)
    requires Holds(bufs, log, vals) && s < |log| && v == EntryOf(k, Upper(log[s], |log[s]|), vals)
    ensures Holds(Pushed(bufs, s, v), Added(log, s, k), vals)
    ensures Upper(Added(log, s, k)[s], |log[s]| + 1) == Upper(log[s], |log[s]|) + Most(k)
  {
    hide Upper, EntryOf;
    UpperAdded(log[s], k);
  }

  /** The log with one more plain byte at the end of section s. */
  function Longer(log: seq<seq<Cell>>, s: nat, b: Byte): seq<seq<Cell>>
    requires s < |log| && |log[s]| > 0
  {
    var n := |log[s]| - 1;
    log[s := log[s][n := log[s][n].(tail := log[s][n].tail + [b])]]
  }

  lemma UpperLonger(cs: seq<Cell>, b: Byte)
    requires |cs| > 0
    ensures var n := |cs| - 1;
            var more := cs[n := cs[n].(tail := cs[n].tail + [b])];
            Upper(more, |cs|) == Upper(cs, |cs|) + 1 && forall i :: 0 <= i < |cs| ==> Upper(more, i) == Upper(cs, i)
  {
    hide Upper, Most;
    var n := |cs| - 1;
    var more := cs[n := cs[n].(tail := cs[n].tail + [b])];
    UpperLast(cs);
    UpperLast(more);
    forall i | 0 <= i < |cs| ensures Upper(more, i) == Upper(cs, i) {
      assert more[..i] == cs[..i];
      UpperKept(cs, more, i);
    }
  }

  lemma HoldsLonger(bufs: seq<seq<int>>, log: seq<seq<Cell>>, vals: seq<int>, s: nat, b: Byte)
    requires Holds(bufs, log, vals) && s < |log| && |log[s]| > 0
    ensures Holds(bufs, Longer(log, s, b), vals)
    ensures Upper(Longer(log, s, b)[s], |log[s]|) == Upper(log[s], |log[s]|) + 1
  {
    hide Upper, EntryOf;
    UpperLonger(log[s], b);
  }

  /** Entries refer to known events only, so later events do not matter to them. */
  lemma HoldsMore(bufs: seq<seq<int>>, log: seq<seq<Cell>>, order: seq<Event>, vals: seq<int>, x: int)
    requires Holds(bufs, log, vals) && Placed(log, order) && |vals| == |order|
    ensures Holds(bufs, log, vals + [x])
  {
    hide Upper;
    forall s, i | 0 <= s < |log| && 0 <= i < |log[s]|
      ensures bufs[s][i] == EntryOf(log[s][i].kind, Upper(log[s], i), vals + [x])
    {
      assert EventAt(log[s][i].kind, order, Pos(s, i));
    }
  }

  lemma PlacedAdded(log: seq<seq<Cell>>, order: seq<Event>, s: nat, k: Kind)
    requires Placed(log, order) && s < |log| && |log[s]| < SECTION_SPAN && !HasEvent(k)
    ensures Placed(Added(log, s, k), order)
  {
    var now := Added(log, s, k);
    forall t | 0 <= t < |order| && !order[t].Reset? ensures CellAt(now, order[t].pos, t) {
      assert CellAt(log, order[t].pos, t);
    }
    forall r, i | 0 <= r < |now| && 0 <= i < |now[r]| ensures EventAt(now[r][i].kind, order, Pos(r, i)) {
      if i < |log[r]| {
        assert EventAt(log[r][i].kind, order, Pos(r, i));
      }
    }
  }

  lemma PlacedEvent(log: seq<seq<Cell>>, order: seq<Event>, s: nat, k: Kind, e: Event)
    requires Placed(log, order) && s < |log| && |log[s]| < SECTION_SPAN
    requires HasEvent(k) && EventOf(k) == |order| && !e.Reset? && e.pos == Pos(s, |log[s]|)
    requires if k.Label? then e == Def(k.slot, e.pos) else e.Ref? && k.named == e.slot.Lg?
    ensures Placed(Added(log, s, k), order + [e])
  {
    var now := Added(log, s, k);
    PosParts(s, |log[s]|);
    forall t | 0 <= t < |order + [e]| && !(order + [e])[t].Reset? ensures CellAt(now, (order + [e])[t].pos, t) {
      if t < |order| {
        assert CellAt(log, order[t].pos, t);
      }
    }
    forall r, i | 0 <= r < |now| && 0 <= i < |now[r]| ensures EventAt(now[r][i].kind, order + [e], Pos(r, i)) {
      if i < |log[r]| {
        assert EventAt(log[r][i].kind, order, Pos(r, i));
      }
    }
  }

  lemma PlacedLonger(log: seq<seq<Cell>>, order: seq<Event>, s: nat, b: Byte)
    requires Placed(log, order) && s < |log| && |log[s]| > 0
    ensures Placed(Longer(log, s, b), order)
  {
    var now := Longer(log, s, b);
    forall t | 0 <= t < |order| && !order[t].Reset? ensures CellAt(now, order[t].pos, t) {
      assert CellAt(log, order[t].pos, t);
    }
    forall r, i | 0 <= r < |now| && 0 <= i < |now[r]| ensures EventAt(now[r][i].kind, order, Pos(r, i)) {
      assert EventAt(log[r][i].kind, order, Pos(r, i));
    }
  }

  /** What a new reference stores. */
  function Linked(v: int, ahead: bool): int { if v < 0 && !ahead then -v else AtLeast0(v) }

  lemma ValuesRef(order: seq<Event>, e: Event)
    requires Happened(order) && e.Ref?
    ensures Values(order + [e]) == Values(order) + [Linked(Table(order, e.slot, |order|), e.ahead)]
  {
    var now := order + [e];
    forall t | 0 <= t < |order| && order[t].Ref? ensures Value(now, t) == Value(order, t) {
      ValueKept(order, e, t);
    }
    TableKept(order, e, e.slot, |order|);
    assert Next(now, e.slot, |now|) == 0;
    forall t | 0 <= t < |now| ensures Values(now)[t] == (Values(order) + [Linked(Table(order, e.slot, |order|), e.ahead)])[t] {
    }
  }

  /** Values with those of waiting references to `slot`, from event k on, replaced. */
  ghost function Settled(order: seq<Event>, vals: seq<int>, slot: Slot, k: nat, v: int): (now: seq<int>)
    requires |vals| == |order|
    ensures |now| == |order|
    ensures forall t :: 0 <= t < |order| ==>
              now[t] == if t >= k && order[t].Ref? && order[t].slot == slot && Open(order, t) then v else vals[t]
  {
    seq(|order|, t requires 0 <= t < |order| =>
      if t >= k && order[t].Ref? && order[t].slot == slot && Open(order, t) then v else vals[t])
  }

  lemma ValuesDef(order: seq<Event>, e: Event)
    requires Happened(order) && e.Def? && e.pos > 0
    ensures Values(order + [e]) == Settled(order, Values(order), e.slot, 0, e.pos) + [0]
  {
    var now := order + [e];
    var then_ := Settled(order, Values(order), e.slot, 0, e.pos) + [0];
    forall t | 0 <= t < |now| ensures Values(now)[t] == then_[t] {
      if t < |order| {
        if order[t].Ref? {
          ValueKept(order, e, t);
        }
      }
    }
  }

  lemma HappenedMore(order: seq<Event>, e: Event)
    requires Happened(order) && !e.Reset? && e.pos > 0
    requires e.Ref? ==> (e.ahead ==> Local(e.slot)) &&
                        (e.slot.Lg? && e.slot.index < 10 && !e.ahead ==> Table(order, e.slot, |order|) < 0)
    ensures Happened(order + [e])
  {
    var now := order + [e];
    forall t, slot | 0 <= t < |now| && now[t].Reset? && Local(slot) ensures Table(now, slot, t) <= 0 {
      TableKept(order, e, slot, t);
    }
    forall t | 0 <= t < |now| && now[t].Ref? ensures Allowed(now, t) {
      TableKept(order, e, now[t].slot, t);
      if t < |order| {
        assert Allowed(order, t);
      }
    }
  }

  lemma TablesMore(lg: seq<int>, pc: seq<int>, order: seq<Event>, e: Event)
    requires Tables(lg, pc, order) && !e.Reset? && Ranged(e.slot, |lg|, |pc|)
    ensures var v := Table(order + [e], e.slot, |order| + 1);
            if e.slot.Lg? then Tables(lg[e.slot.index := v], pc, order + [e])
            else Tables(lg, pc[e.slot.number := v], order + [e])
    ensures var v := Table(order, e.slot, |order|);
            v == (if e.slot.Lg? then lg[e.slot.index] else pc[e.slot.number]) &&
            Table(order + [e], e.slot, |order| + 1) ==
              if e.Def? then -e.pos else if v >= 0 || e.ahead then e.pos else v
  {
    var now := order + [e];
    forall slot: Slot ensures Table(now, slot, |order|) == Table(order, slot, |order|) {
      TableKept(order, e, slot, |order|);
    }
  }
}
