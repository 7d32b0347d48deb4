/**
 * Label tables of DynASM as functions of what happened: a table entry is 0, the position of the last reference of
 * a chain that waits for its label, or minus the position of the label.
 */
module DasmLabels {
  import opened DasmActions

  /** The local labels that a step check forgets. */
  predicate Local(slot: Slot) { slot.Lg? && 1 <= slot.index <= 9 }

  predicate Defines(e: Event, slot: Slot) { e.Def? && e.slot == slot }

  /** The table entry of `slot` after the first k events. */
  function Table(order: seq<Event>, slot: Slot, k: nat): int
    requires k <= |order|
  {
    if k == 0 then 0 else
    var v := Table(order, slot, k - 1);
    match order[k - 1]
    case Reset => if Local(slot) then 0 else v
    case Def(s, pos) => if s == slot then -pos else v
    case Ref(s, pos, ahead) => if s == slot && (v >= 0 || ahead) then pos else v
  }

  /** The position of the first label of `slot` from event k on, or 0. */
  function Next(order: seq<Event>, slot: Slot, k: nat): int
    requires k <= |order|
    decreases |order| - k
  {
    if k == |order| then 0 else if Defines(order[k], slot) then order[k].pos else Next(order, slot, k + 1)
  }

  /** The reference finds its label already there. */
  predicate Back(order: seq<Event>, t: nat)
    requires t < |order| && order[t].Ref?
  {
    !order[t].ahead && Table(order, order[t].slot, t) < 0
  }

  /** The reference waits for its label. */
  predicate Open(order: seq<Event>, t: nat)
    requires t < |order|
  {
    order[t].Ref? && !Back(order, t) && Next(order, order[t].slot, t + 1) == 0
  }

  function AtLeast0(v: int): nat { if v < 0 then 0 else v }

  /** What stands in a reference's buffer entry: the position of its label, or the next of its chain. */
  function Value(order: seq<Event>, t: nat): int
    requires t < |order| && order[t].Ref?
  {
    if Back(order, t) then -Table(order, order[t].slot, t)
    else if Next(order, order[t].slot, t + 1) != 0 then Next(order, order[t].slot, t + 1)
    else AtLeast0(Table(order, order[t].slot, t))
  }

  ghost predicate Happened(order: seq<Event>) {
    && (forall t :: 0 <= t < |order| && !order[t].Reset? ==> order[t].pos > 0)
    && (forall t, slot :: 0 <= t < |order| && order[t].Reset? && Local(slot) ==> Table(order, slot, t) <= 0)
    && (forall t :: 0 <= t < |order| && order[t].Ref? ==> Allowed(order, t))
  }

  /** Only local labels are looked for ahead, and a local label looked for behind is there. */
  predicate Allowed(order: seq<Event>, t: nat)
    requires t < |order| && order[t].Ref?
  {
    var e := order[t];
    (e.ahead ==> Local(e.slot)) && (e.slot.Lg? && e.slot.index < 10 && !e.ahead ==> Table(order, e.slot, t) < 0)
  }

  lemma {:induction false} TableKept(order: seq<Event>, e: Event, slot: Slot, k: nat)
    requires k <= |order|
    ensures Table(order + [e], slot, k) == Table(order, slot, k)
  {
    if k > 0 {
      TableKept(order, e, slot, k - 1);
    }
  }

  lemma {:induction false} NextKept(order: seq<Event>, e: Event, slot: Slot, k: nat)
    requires k <= |order| && Happened(order)
    ensures var n := Next(order, slot, k);
            Next(order + [e], slot, k) == if n != 0 then n else if Defines(e, slot) then e.pos else 0
    decreases |order| - k
  {
    if k < |order| {
      NextKept(order, e, slot, k + 1);
    }
  }

  /** An event changes a reference's entry only by being the label it waits for. */
  lemma ValueKept(order: seq<Event>, e: Event, t: nat)
    requires t < |order| && order[t].Ref? && Happened(order)
    ensures Back(order + [e], t) == Back(order, t)
    ensures Value(order + [e], t) ==
            if Open(order, t) && Defines(e, order[t].slot) && e.pos != 0 then e.pos else Value(order, t)
  {
    TableKept(order, e, order[t].slot, t);
    NextKept(order, e, order[t].slot, t + 1);
  }

  /** The head of a chain waits, and nothing that waits came later. */
  lemma {:induction false} LastOpen(order: seq<Event>, slot: Slot, k: nat) returns (j: nat)
    requires k <= |order| && Happened(order)
    requires Table(order, slot, k) > 0 && Next(order, slot, k) == 0
    ensures j < k && order[j].Ref? && order[j].slot == slot && order[j].pos == Table(order, slot, k) && Open(order, j)
    ensures Value(order, j) == AtLeast0(Table(order, slot, j)) && Next(order, slot, j) == 0
    ensures forall t :: j < t < k && order[t].Ref? && order[t].slot == slot ==> !Open(order, t)
  {
    var e := order[k - 1];
    assert Next(order, slot, k - 1) == if Defines(e, slot) then e.pos else 0;
    if e.Ref? && e.slot == slot && (Table(order, slot, k - 1) >= 0 || e.ahead) {
      j := k - 1;
    } else {
      j := LastOpen(order, slot, k - 1);
    }
  }

  /** Where a chain ends nothing earlier waits. */
  lemma {:induction false} NoneOpen(order: seq<Event>, slot: Slot, k: nat)
    requires k <= |order| && Happened(order) && Table(order, slot, k) <= 0
    ensures forall t :: 0 <= t < k && order[t].Ref? && order[t].slot == slot ==> !Open(order, t)
  {
    if k > 0 {
      var e := order[k - 1];
      if Defines(e, slot) {
        forall t | 0 <= t < k && order[t].Ref? && order[t].slot == slot ensures !Open(order, t) {
          NextThere(order, slot, t + 1, k - 1);
        }
      } else {
        NoneOpen(order, slot, k - 1);
      }
    }
  }

  lemma {:induction false} NextThere(order: seq<Event>, slot: Slot, k: nat, d: nat)
    requires k <= d < |order| && Defines(order[d], slot) && Happened(order)
    ensures Next(order, slot, k) > 0
    decreases d - k
  {
    if k < d {
      NextThere(order, slot, k + 1, d);
    }
  }

  ghost predicate NoDef(order: seq<Event>, from: nat, to: nat, slot: Slot)
    requires to <= |order|
  {
    forall t :: from <= t < to ==> !Defines(order[t], slot)
  }

  /**
   * The label a reference means: looking behind, the last one before it; looking ahead, or with none before,
   * the first one after it.
   */
  ghost predicate Means(order: seq<Event>, t: nat, d: nat)
    requires t < |order| && order[t].Ref?
  {
    && d < |order| && Defines(order[d], order[t].slot)
    && (d < t ==> !order[t].ahead && NoDef(order, d + 1, t, order[t].slot))
    && (t < d ==> NoDef(order, t + 1, d, order[t].slot) && (order[t].ahead || NoDef(order, 0, t, order[t].slot)))
  }

  lemma {:induction false} LastDef(order: seq<Event>, slot: Slot, k: nat) returns (d: nat)
    requires k <= |order| && Happened(order) && Table(order, slot, k) < 0
    ensures d < k && Defines(order[d], slot) && order[d].pos == -Table(order, slot, k) && NoDef(order, d + 1, k, slot)
  {
    if Defines(order[k - 1], slot) {
      d := k - 1;
    } else {
      d := LastDef(order, slot, k - 1);
    }
  }

  lemma {:induction false} FirstDef(order: seq<Event>, slot: Slot, k: nat) returns (d: nat)
    requires k <= |order| && Happened(order) && Next(order, slot, k) != 0
    ensures k <= d < |order| && Defines(order[d], slot) && order[d].pos == Next(order, slot, k) && NoDef(order, k, d, slot)
    decreases |order| - k
  {
    if Defines(order[k], slot) {
      d := k;
    } else {
      d := FirstDef(order, slot, k + 1);
    }
  }

  /** Labels that are never looked for ahead, nor forgotten, stay in the table once they are there. */
  lemma {:induction false} Remembered(order: seq<Event>, slot: Slot, d: nat, k: nat)
    requires d < k <= |order| && Happened(order) && Defines(order[d], slot) && !Local(slot)
    ensures Table(order, slot, k) < 0
  {
    if d < k - 1 {
      Remembered(order, slot, d, k - 1);
    }
  }

  /** A reference that does not wait has the position of the label it means. */
  lemma ValueMeans(order: seq<Event>, t: nat) returns (d: nat)
    requires t < |order| && order[t].Ref? && Happened(order) && !Open(order, t)
    ensures Means(order, t, d) && Value(order, t) == order[d].pos
  {
    var slot := order[t].slot;
    if Back(order, t) {
      d := LastDef(order, slot, t);
    } else {
      d := FirstDef(order, slot, t + 1);
      if !order[t].ahead {
        forall b | 0 <= b < t ensures !Defines(order[b], slot) {
          if Defines(order[b], slot) {
            assert Allowed(order, t);
            Remembered(order, slot, b, t);
          }
        }
      }
    }
  }
}
