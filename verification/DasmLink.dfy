/** DynASM's second pass on values: sections put one after the other, references aimed, entries fixed one by one. */
module DasmLink {
  import opened DasmActions
  import opened DasmLayout
  import opened DasmState

  /** The entries of the first s sections, and of all. */
  function JoinedTo(log: seq<seq<Cell>>, s: nat): seq<Cell>
    requires s <= |log|
  {
    if s == 0 then [] else JoinedTo(log, s - 1) + log[s - 1]
  }

  function Joined(log: seq<seq<Cell>>): seq<Cell> { JoinedTo(log, |log|) }

  /** Where section s begins. */
  function First(log: seq<seq<Cell>>, s: nat): nat
    requires s <= |log|
  {
    |JoinedTo(log, s)|
  }

  lemma {:induction false} JoinedGrows(log: seq<seq<Cell>>, s: nat, r: nat)
    requires s <= r <= |log|
    ensures JoinedTo(log, s) <= JoinedTo(log, r)
  {
    if s < r {
      JoinedGrows(log, s, r - 1);
    }
  }

  lemma JoinedAt(log: seq<seq<Cell>>, s: nat, i: nat)
    requires s < |log| && i < |log[s]|
    ensures First(log, s) + i < First(log, s + 1) <= |Joined(log)| && Joined(log)[First(log, s) + i] == log[s][i]
  {
    JoinedGrows(log, s + 1, |log|);
    assert JoinedTo(log, s + 1)[First(log, s) + i] == log[s][i];
  }

  lemma FirstNext(log: seq<seq<Cell>>, s: nat)
    requires s < |log|
    ensures First(log, s + 1) == First(log, s) + |log[s]| <= |Joined(log)|
  {
    JoinedGrows(log, s + 1, |log|);
  }

  lemma {:induction false} Whence(log: seq<seq<Cell>>, r: nat, g: nat) returns (s: nat, i: nat)
    requires r <= |log| && g < First(log, r)
    ensures s < r && i < |log[s]| && g == First(log, s) + i
  {
    if g < First(log, r - 1) {
      s, i := Whence(log, r - 1, g);
    } else {
      s, i := r - 1, g - First(log, r - 1);
    }
  }

  lemma {:induction false} UpperJoined(log: seq<seq<Cell>>, s: nat, i: nat)
    requires s < |log| && i <= |log[s]|
    ensures First(log, s) + i <= |Joined(log)|
    ensures Upper(Joined(log), First(log, s) + i) == Upper(Joined(log), First(log, s)) + Upper(log[s], i)
  {
    FirstNext(log, s);
    if i > 0 {
      UpperJoined(log, s, i - 1);
      JoinedAt(log, s, i - 1);
    }
  }

  /** The index of a position among the entries of all sections. */
  function Index(log: seq<seq<Cell>>, pos: nat): nat
    requires SecOf(pos) < |log|
  {
    First(log, SecOf(pos)) + AtOf(pos)
  }

  predicate Within(log: seq<seq<Cell>>, pos: int) {
    pos >= 0 && SecOf(pos) < |log| && AtOf(pos) < |log[SecOf(pos)]|
  }

  /** Positions and indices have the same order. */
  lemma IndexOrder(log: seq<seq<Cell>>, p: nat, q: nat)
    requires Within(log, p) && Within(log, q) && p < q
    ensures Index(log, p) < Index(log, q)
  {
    var s, r := SecOf(p), SecOf(q);
    assert p == Pos(s, AtOf(p)) && q == Pos(r, AtOf(q));
    if s < r {
      JoinedAt(log, s, AtOf(p));
      JoinedGrows(log, s + 1, r);
    } else {
      assert s == r;
    }
  }

  /** Every reference has the position of a label, or minus the number of a global without one. */
  ghost predicate Resolved(log: seq<seq<Cell>>, order: seq<Event>, vals: seq<int>, nlg: nat) {
    && |vals| == |order|
    && forall t :: 0 <= t < |order| && order[t].Ref? ==> Settles(log, order[t].slot, vals[t], nlg)
  }

  predicate Settles(log: seq<seq<Cell>>, slot: Slot, v: int, nlg: nat) {
    if v < 0 then slot == Lg(-v) && 10 <= -v < nlg
    else Within(log, v) && log[SecOf(v)][AtOf(v)].kind.Label? && log[SecOf(v)][AtOf(v)].kind.slot == slot
  }

  function AimOf(log: seq<seq<Cell>>, v: int): int { if v >= 0 && SecOf(v) < |log| then Index(log, v) else v }

  function Aims(log: seq<seq<Cell>>, vals: seq<int>): (aim: seq<int>)
    ensures |aim| == |Joined(log)|
    ensures forall g :: 0 <= g < |aim| && (Joined(log)[g].kind.Rel? || Joined(log)[g].kind.Addr?) ==>
              aim[g] == AimOf(log, ValueAt(vals, Joined(log)[g].kind.event))
  {
    var cs := Joined(log);
    seq(|cs|, g requires 0 <= g < |cs| =>
      if cs[g].kind.Rel? || cs[g].kind.Addr? then AimOf(log, ValueAt(vals, cs[g].kind.event)) else 0)
  }

  lemma ShapeJoined(log: seq<seq<Cell>>)
    requires Shaped(log)
    ensures Branches(Joined(log)) && Masks(Joined(log))
  {
    hide Opcode, IsMask, JoinedTo;
    var cs := Joined(log);
    forall g | 0 <= g < |cs| && cs[g].kind.Rel?
      ensures 0 < g && g + 1 < |cs| && cs[g].tail == [] && cs[g + 1].kind.Est? && Opcode(cs[g - 1].tail, cs[g].kind.op)
    {
      var s, i := Whence(log, |log|, g);
      JoinedAt(log, s, i);
      assert Branches(log[s]) && log[s][i].kind.Rel?;
      JoinedAt(log, s, i - 1);
      JoinedAt(log, s, i + 1);
    }
    forall g | 0 <= g < |cs| && cs[g].kind.Align? ensures IsMask(cs[g].kind.mask) {
      var s, i := Whence(log, |log|, g);
      JoinedAt(log, s, i);
      assert Masks(log[s]) && log[s][i].kind.Align?;
    }
  }

  /** The aim of a stored reference. */
  lemma AimIs(log: seq<seq<Cell>>, order: seq<Event>, vals: seq<int>, nlg: nat, s: nat, i: nat)
    requires Placed(log, order) && Resolved(log, order, vals, nlg)
    requires s < |log| && i < |log[s]| && (log[s][i].kind.Rel? || log[s][i].kind.Addr?)
    ensures var k := log[s][i].kind;
            var g := First(log, s) + i;
            k.event < |order| == |vals| && order[k.event].Ref? && order[k.event].pos == Pos(s, i) && g < |Joined(log)| &&
            Settles(log, order[k.event].slot, vals[k.event], nlg) && k.named == order[k.event].slot.Lg? &&
            Aims(log, vals)[g] == if vals[k.event] < 0 then vals[k.event] else Index(log, vals[k.event])
  {
    JoinedAt(log, s, i);
    assert EventAt(log[s][i].kind, order, Pos(s, i));
  }

  lemma AimedAt(log: seq<seq<Cell>>, order: seq<Event>, vals: seq<int>, nlg: nat)
    requires Placed(log, order) && Resolved(log, order, vals, nlg)
    ensures Aimed(Joined(log), Aims(log, vals))
    ensures var cs, aim := Joined(log), Aims(log, vals);
            forall g :: 0 <= g < |cs| && (cs[g].kind.Rel? || cs[g].kind.Addr?) && aim[g] < 0 ==>
              cs[g].kind.named && 10 <= -aim[g] < nlg
  {
    hide JoinedTo, Placed, Resolved, Aims;
    var cs, aim := Joined(log), Aims(log, vals);
    forall g | 0 <= g < |cs| && (cs[g].kind.Rel? || cs[g].kind.Addr?)
      ensures if aim[g] >= 0 then aim[g] < |cs| && cs[aim[g]].kind.Label? else cs[g].kind.named && 10 <= -aim[g] < nlg
    {
      var s, i := Whence(log, |log|, g);
      JoinedAt(log, s, i);
      AimIs(log, order, vals, nlg, s, i);
      var v := vals[log[s][i].kind.event];
      if v >= 0 {
        JoinedAt(log, SecOf(v), AtOf(v));
      }
    }
  }

  /** The number of entry f once it is linked. */
  ghost function FixedOf(cs: seq<Cell>, aim: seq<int>, f: nat, upper: nat, vals: seq<int>): int
    requires f < |cs| && Aimed(cs, aim)
  {
    if cs[f].kind.Label? then Final(cs, aim, f)
    else if cs[f].kind.Est? && f > 0 && cs[f - 1].kind.Rel? then Shrink(cs, aim, f - 1)
    else EntryOf(cs[f].kind, upper, vals)
  }

  /** Buffers whose entries before index g are linked. */
  ghost predicate LinkedTo(bufs: seq<seq<int>>, log: seq<seq<Cell>>, vals: seq<int>, aim: seq<int>, g: nat) {
    && |bufs| == |log| && Aimed(Joined(log), aim)
    && (forall s :: 0 <= s < |log| ==> |bufs[s]| == |log[s]|)
    && (forall s, i :: 0 <= s < |log| && 0 <= i < |log[s]| ==> EntryLinked(bufs[s][i], log, vals, aim, g, s, i))
  }

  ghost predicate EntryLinked(v: int, log: seq<seq<Cell>>, vals: seq<int>, aim: seq<int>, g: nat, s: nat, i: nat)
    requires s < |log| && i < |log[s]| && Aimed(Joined(log), aim)
  {
    First(log, s) + i < |Joined(log)| &&
    v == if First(log, s) + i < g then FixedOf(Joined(log), aim, First(log, s) + i, Upper(log[s], i), vals)
         else EntryOf(log[s][i].kind, Upper(log[s], i), vals)
  }

  lemma LinkedFrom0(bufs: seq<seq<int>>, log: seq<seq<Cell>>, vals: seq<int>, aim: seq<int>)
    requires Holds(bufs, log, vals) && Aimed(Joined(log), aim)
    ensures LinkedTo(bufs, log, vals, aim, 0)
  {
    hide Upper, JoinedTo, Aimed;
    forall s, i | 0 <= s < |log| && 0 <= i < |log[s]| ensures EntryLinked(bufs[s][i], log, vals, aim, 0, s, i) {
      JoinedAt(log, s, i);
    }
  }

  lemma SameIndex(log: seq<seq<Cell>>, s: nat, i: nat, r: nat, j: nat)
    requires s < |log| && i < |log[s]| && r < |log| && j < |log[r]| && First(log, s) + i == First(log, r) + j
    ensures s == r && i == j
  {
    if s < r {
      JoinedAt(log, s, i);
      JoinedGrows(log, s + 1, r);
    } else if r < s {
      JoinedAt(log, r, j);
      JoinedGrows(log, r + 1, s);
    }
  }

  /** Linking entry i of section s, its number becoming `v`. */
  lemma LinkedNext(bufs: seq<seq<int>>, log: seq<seq<Cell>>, vals: seq<int>, aim: seq<int>, s: nat, i: nat, v: int)
    requires s < |log| && i < |log[s]| && LinkedTo(bufs, log, vals, aim, First(log, s) + i)
    requires First(log, s) + i < |Joined(log)| && s < |bufs| && i < |bufs[s]|
    requires v == FixedOf(Joined(log), aim, First(log, s) + i, Upper(log[s], i), vals)
    ensures LinkedTo(bufs[s := bufs[s][i := v]], log, vals, aim, First(log, s) + i + 1)
  {
    hide Upper, JoinedTo, Aimed, FixedOf, EntryOf, Joined;
    var now := bufs[s := bufs[s][i := v]];
    var g := First(log, s) + i;
    forall r, j | 0 <= r < |log| && 0 <= j < |log[r]| ensures EntryLinked(now[r][j], log, vals, aim, g + 1, r, j) {
      assert EntryLinked(bufs[r][j], log, vals, aim, g, r, j);
      if First(log, r) + j == g {
        SameIndex(log, s, i, r, j);
      }
    }
  }

  /** Entries that linking leaves as they are. */
  lemma LinkedSame(bufs: seq<seq<int>>, log: seq<seq<Cell>>, vals: seq<int>, aim: seq<int>, s: nat, i: nat)
    requires s < |log| && i < |log[s]| && LinkedTo(bufs, log, vals, aim, First(log, s) + i)
    requires !log[s][i].kind.Label? && (log[s][i].kind.Est? ==> i > 0 && !log[s][i - 1].kind.Rel?)
    ensures LinkedTo(bufs, log, vals, aim, First(log, s) + i + 1)
  {
    hide Upper, JoinedTo, Aimed, EntryOf, Joined;
    JoinedAt(log, s, i);
    if i > 0 {
      JoinedAt(log, s, i - 1);
    }
    assert EntryLinked(bufs[s][i], log, vals, aim, First(log, s) + i, s, i);
    LinkedNext(bufs, log, vals, aim, s, i, bufs[s][i]);
    assert bufs[s][i := bufs[s][i]] == bufs[s];
    assert bufs[s := bufs[s]] == bufs;
  }

  lemma SavedNext(cs: seq<Cell>, aim: seq<int>, g: nat)
    requires g < |cs| && Aimed(cs, aim)
    ensures cs[g].kind.Rel? ==> Saved(cs, aim, g + 1) == Saved(cs, aim, g) - Shrink(cs, aim, g)
    ensures cs[g].kind.Align? ==>
              Saved(cs, aim, g + 1) ==
              Saved(cs, aim, g) - (Upper(cs, g) + cs[g].kind.mask + Saved(cs, aim, g)) % (cs[g].kind.mask + 1)
    ensures !cs[g].kind.Rel? && !cs[g].kind.Align? ==> Saved(cs, aim, g + 1) == Saved(cs, aim, g)
  {
  }

  lemma LinkedAt(bufs: seq<seq<int>>, log: seq<seq<Cell>>, vals: seq<int>, aim: seq<int>, g: nat, s: nat, i: nat)
    requires LinkedTo(bufs, log, vals, aim, g) && s < |log| && i < |log[s]|
    ensures |bufs| == |log| && |bufs[s]| == |log[s]| && Aimed(Joined(log), aim)
    ensures First(log, s) + i < |Joined(log)| && Joined(log)[First(log, s) + i] == log[s][i]
    ensures bufs[s][i] ==
            if First(log, s) + i < g then FixedOf(Joined(log), aim, First(log, s) + i, Upper(log[s], i), vals)
            else EntryOf(log[s][i].kind, Upper(log[s], i), vals)
  {
    hide Joined, FixedOf, EntryOf, Upper, Aimed;
    assert EntryLinked(bufs[s][i], log, vals, aim, g, s, i);
    JoinedAt(log, s, i);
  }

  /** A branch about to be linked: its reference and its estimate. */
  lemma BranchAt(bufs: seq<seq<int>>, log: seq<seq<Cell>>, vals: seq<int>, aim: seq<int>, s: nat, i: nat)
    requires Shaped(log) && s < |log| && i < |log[s]| && log[s][i].kind.Rel?
    requires LinkedTo(bufs, log, vals, aim, First(log, s) + i)
    ensures i + 1 < |log[s]| == |bufs[s]| && log[s][i + 1].kind.Est? && |bufs| == |log|
    ensures First(log, s) + i + 1 < |Joined(log)| && Joined(log)[First(log, s) + i] == log[s][i]
    ensures Joined(log)[First(log, s) + i + 1] == log[s][i + 1]
    ensures bufs[s][i] == ValueAt(vals, log[s][i].kind.event) && bufs[s][i + 1] == Upper(log[s], i) + 4
  {
    hide Joined, FixedOf, Upper, Aimed, LinkedTo, Masks, Opcode, First;
    assert Branches(log[s]);
    LinkedAt(bufs, log, vals, aim, First(log, s) + i, s, i);
    LinkedAt(bufs, log, vals, aim, First(log, s) + i, s, i + 1);
    UpperBranch(log[s], i);
  }

  /** A label as linking finds it, when it has come to entry i of section s. */
  lemma LabelAt(bufs: seq<seq<int>>, log: seq<seq<Cell>>, order: seq<Event>, vals: seq<int>, aim: seq<int>,
                s: nat, i: nat, v: nat)
    requires Placed(log, order) && s < |log| && i < |log[s]| && !log[s][i].kind.Label?
    requires Within(log, v) && log[SecOf(v)][AtOf(v)].kind.Label?
    requires LinkedTo(bufs, log, vals, aim, First(log, s) + i)
    ensures Index(log, v) < |Joined(log)| && Joined(log)[Index(log, v)] == log[SecOf(v)][AtOf(v)]
    ensures Index(log, v) != First(log, s) + i && (v > Pos(s, i) <==> Index(log, v) > First(log, s) + i)
    ensures Upper(Joined(log), Index(log, v)) ==
            Upper(Joined(log), First(log, SecOf(v))) + Upper(log[SecOf(v)], AtOf(v))
    ensures |bufs| == |log| && |bufs[SecOf(v)]| == |log[SecOf(v)]| && Aimed(Joined(log), aim)
    ensures bufs[SecOf(v)][AtOf(v)] ==
            if Index(log, v) > First(log, s) + i then Upper(log[SecOf(v)], AtOf(v))
            else Final(Joined(log), aim, Index(log, v))
  {
    hide Joined, Upper, Aimed, LinkedTo, First, Placed, Final;
    var r, j := SecOf(v), AtOf(v);
    LinkedAt(bufs, log, vals, aim, First(log, s) + i, r, j);
    JoinedAt(log, r, j);
    JoinedAt(log, s, i);
    UpperJoined(log, r, j);
    PlaceOf(log, order, s, i);
    PlaceOf(log, order, r, j);
    assert v == Pos(r, j);
    if v < Pos(s, i) {
      IndexOrder(log, v, Pos(s, i));
    } else if v > Pos(s, i) {
      IndexOrder(log, Pos(s, i), v);
    }
  }

  lemma UpperBranch(cs: seq<Cell>, i: nat)
    requires i + 1 < |cs| && cs[i].kind.Rel? && cs[i].tail == []
    ensures Upper(cs, i + 1) == Upper(cs, i) + 4
  {
  }

  lemma PlaceOf(log: seq<seq<Cell>>, order: seq<Event>, s: nat, i: nat)
    requires Placed(log, order) && s < |log| && i < |log[s]|
    ensures SecOf(Pos(s, i)) == s && AtOf(Pos(s, i)) == i && Within(log, Pos(s, i))
  {
    assert |log[s]| <= SECTION_SPAN;
    PosParts(s, i);
  }

  /** Linking has come to entry i of section s, and `o` is what final offsets exceed those in the section by. */
  ghost predicate Come(bufs: seq<seq<int>>, log: seq<seq<Cell>>, vals: seq<int>, s: nat, i: nat, o: int) {
    && s < |log| && i <= |log[s]| && First(log, s) + i <= |Joined(log)|
    && LinkedTo(bufs, log, vals, Aims(log, vals), First(log, s) + i)
    && o == Upper(Joined(log), First(log, s)) + Saved(Joined(log), Aims(log, vals), First(log, s) + i)
  }

  /** A branch and its estimate linked. */
  lemma BranchLinked(bufs: seq<seq<int>>, log: seq<seq<Cell>>, vals: seq<int>, s: nat, i: nat, o: int, shrink: nat)
    requires Shaped(log) && Come(bufs, log, vals, s, i, o) && i < |log[s]| && log[s][i].kind.Rel?
    requires First(log, s) + i < |Joined(log)| && Joined(log)[First(log, s) + i] == log[s][i]
    requires shrink == Shrink(Joined(log), Aims(log, vals), First(log, s) + i)
    requires s < |bufs| && i + 1 < |bufs[s]|
    ensures Come(bufs[s := bufs[s][i + 1 := shrink]], log, vals, s, i + 2, o - shrink)
  {
    hide Upper, Saved, Joined, Shaped, First, Aims, Shrink, LinkedTo, Aimed;
    var cs, aim, g := Joined(log), Aims(log, vals), First(log, s) + i;
    LinkedAt(bufs, log, vals, aim, g, s, i);
    BranchAt(bufs, log, vals, aim, s, i);
    BranchFixed(cs, aim, g, Upper(log[s], i + 1), vals);
    LinkedSame(bufs, log, vals, aim, s, i);
    LinkedNext(bufs, log, vals, aim, s, i + 1, shrink);
    SavedNext(cs, aim, g);
    SavedNext(cs, aim, g + 1);
  }

  lemma BranchFixed(cs: seq<Cell>, aim: seq<int>, g: nat, upper: nat, vals: seq<int>)
    requires g + 1 < |cs| && Aimed(cs, aim) && cs[g].kind.Rel? && cs[g + 1].kind.Est?
    ensures FixedOf(cs, aim, g + 1, upper, vals) == Shrink(cs, aim, g)
  {
  }

  /** A linked branch: what it saves stands after its reference. */
  lemma BranchHolds(bufs: seq<seq<int>>, log: seq<seq<Cell>>, vals: seq<int>, s: nat, i: nat)
    requires Shaped(log) && LinkedTo(bufs, log, vals, Aims(log, vals), |Joined(log)|)
    requires s < |log| && i < |log[s]| && log[s][i].kind.Rel?
    requires Aimed(Joined(log), Aims(log, vals)) && First(log, s) + i < |Joined(log)| && Joined(log)[First(log, s) + i] == log[s][i]
    ensures i + 1 < |log[s]| && |bufs| == |log| && |bufs[s]| == |log[s]| && log[s][i].tail == []
    ensures First(log, s) + i + 1 < |Joined(log)| && Joined(log)[First(log, s) + i + 1] == log[s][i + 1]
    ensures log[s][i + 1].kind.Est?
    ensures bufs[s][i + 1] == Shrink(Joined(log), Aims(log, vals), First(log, s) + i)
  {
    hide Joined, Aims, Shrink, LinkedTo, Aimed, First, Upper, FixedOf, Opcode, Masks;
    assert Branches(log[s]);
    LinkedAt(bufs, log, vals, Aims(log, vals), |Joined(log)|, s, i);
    LinkedAt(bufs, log, vals, Aims(log, vals), |Joined(log)|, s, i + 1);
    BranchFixed(Joined(log), Aims(log, vals), First(log, s) + i, Upper(log[s], i + 1), vals);
  }
}
