/**
 * One walk of the match finder: down a tree of older positions, tearing it into what is smaller and what
 * is greater than the current position, which becomes its root.
 */
module MatchWalk {
  import opened Bytes
  import opened MatchTree

  /**
   * The walk under way: the pointer array, the position to look at next, and for each side the last
   * position put there (the current one if none) with the length of its match.
   */
  datatype Walker = Walker(son: seq<int>, m: int, a: int, b: int, lenA: nat, lenB: nat)

  function Own(w: Walker, s: nat): int { if s == 0 then w.a else w.b }
  function Len(w: Walker, s: nat): nat { if s == 0 then w.lenA else w.lenB }
  function Min(x: nat, y: nat): nat { if x < y then x else y }

  /** The open pointer of side s: the child of the current position, or the inner child of the last one put there. */
  function Ptr(f: Frame, pos: int, o: int, s: nat): (k: int)
    requires f.size >= 1 && s <= 1
    ensures 0 <= k < 2 * f.size
  {
    if o == pos then 2 * Slot(f, pos) + s else 2 * Slot(f, o) + (1 - s)
  }

  /** The array with both open pointers closed. */
  function Closed(f: Frame, pos: int, w: Walker): (r: seq<int>)
    requires FrameOk(f, w.son)
    ensures |r| == |w.son|
  {
    w.son[Ptr(f, pos, w.a, 0) := 0][Ptr(f, pos, w.b, 1) := 0]
  }

  /** u before v on side 0, after it on side 1. */
  ghost predicate Side(f: Frame, s: nat, u: int, v: int) {
    if s == 0 then LeAt(f, u, v) else LeAt(f, v, u)
  }

  /** The first difference of o and pos, after len equal bytes, puts o on side s. */
  ghost predicate Parted(f: Frame, s: nat, o: int, pos: int, len: nat) {
    && f.base <= o && f.base <= pos && len < f.lenLimit
    && o - f.base + f.lenLimit <= |f.data| && pos - f.base + f.lenLimit <= |f.data|
    && Same(f.data, o - f.base, pos - f.base, len)
    && (if s == 0 then f.data[o - f.base + len] < f.data[pos - f.base + len]
        else f.data[o - f.base + len] > f.data[pos - f.base + len])
  }

  lemma PartedSide(f: Frame, s: nat, o: int, pos: int, len: nat)
    requires Parted(f, s, o, pos, len) && s <= 1
    ensures Side(f, s, o, pos)
  {
    hide Le, Same;
    SameTurned(f.data, o - f.base, pos - f.base, len);
    if s == 0 {
      LeAtDifference(f.data, o - f.base, pos - f.base, f.lenLimit, len);
    } else {
      LeAtDifference(f.data, pos - f.base, o - f.base, f.lenLimit, len);
    }
  }

  /** A position parted to one side is not on the other. */
  lemma PartedOnly(f: Frame, s: nat, o: int, pos: int, len: nat)
    requires Parted(f, s, o, pos, len) && s <= 1
    ensures !Side(f, 1 - s, o, pos)
  {
    if s == 0 {
      NotLe(f.data, pos - f.base, o - f.base, f.lenLimit, len);
    } else {
      NotLe(f.data, o - f.base, pos - f.base, f.lenLimit, len);
    }
  }

  lemma {:induction false} NotLe(data: seq<Byte>, i: nat, j: nat, len: nat, n: nat)
    requires i + len <= |data| && j + len <= |data| && n < len && Same(data, i, j, n) && data[i + n] > data[j + n]
    ensures !Le(data, i, j, len)
    decreases n
  {
    if n > 0 {
      SameNext(data, i, j, n);
      NotLe(data, i + 1, j + 1, len - 1, n - 1);
    }
  }

  lemma SideTrans(f: Frame, s: nat, u: int, v: int, w: int)
    requires s <= 1 && Side(f, s, u, v) && Side(f, s, v, w)
    ensures Side(f, s, u, w)
  {
    if s == 0 {
      LeTrans(f.data, u - f.base, v - f.base, w - f.base, f.lenLimit);
    } else {
      LeTrans(f.data, w - f.base, v - f.base, u - f.base, f.lenLimit);
    }
  }

  lemma SortedSide(f: Frame, son: seq<int>, nodes: set<int>, u: int, v: int, s: nat)
    requires FrameOk(f, son) && Sorted(f, son, nodes) && u in nodes && f.low < u && s <= 1 && v in ChildBelow(f, son, nodes, u, s)
    ensures Side(f, s, v, u)
  {
  }

  // ---------------------------------------------------------------- what the walk keeps

  ghost predicate Rooted(f: Frame, son: seq<int>, nodes: set<int>, pos: int) {
    && FrameOk(f, son) && pos == f.low + f.size && f.low >= 0 && pos !in nodes
    && Placed(f, nodes, pos) && Linked(f, son, nodes) && Sorted(f, son, nodes)
  }

  /** The last position of side s, the pointer it left open, and the tree of side s so far. */
  ghost predicate SideOk(f: Frame, was: seq<int>, now: seq<int>, nodes: set<int>, pos: int, w: Walker, s: nat)
    requires FrameOk(f, was) && FrameOk(f, now) && s <= 1
  {
    var o := Own(w, s);
    && (o == pos ==> Len(w, s) == 0)
    && (o != pos ==> o in nodes && f.low < o < pos && Parted(f, s, o, pos, Len(w, s)))
    && (o != pos && w.m > f.low ==> w.m in ChildBelow(f, was, nodes, o, 1 - s))
    && Child(f, now, pos, s) < pos
    && (Child(f, now, pos, s) > f.low ==> Child(f, now, pos, s) in nodes)
    && (forall v :: v in Below(f, now, nodes, Child(f, now, pos, s)) ==> Side(f, s, v, pos))
  }

  ghost predicate WalkOk(f: Frame, was: seq<int>, nodes: set<int>, pos: int, w: Walker) {
    && Rooted(f, was, nodes, pos) && FrameOk(f, w.son) && w.m < pos && (w.m > f.low ==> w.m in nodes)
    && Refines(f, was, Closed(f, pos, w), nodes)
    && (forall u, side :: u in nodes && f.low < u <= w.m && 0 <= side <= 1 ==> Child(f, w.son, u, side) == Child(f, was, u, side))
    && SideOk(f, was, Closed(f, pos, w), nodes, pos, w, 0) && SideOk(f, was, Closed(f, pos, w), nodes, pos, w, 1)
  }

  lemma WalkStart(f: Frame, son: seq<int>, nodes: set<int>, pos: int, m: int)
    requires Rooted(f, son, nodes, pos) && m < pos && (m > f.low ==> m in nodes)
    ensures WalkOk(f, son, nodes, pos, Walker(son, m, pos, pos, 0, 0))
  {
    var w := Walker(son, m, pos, pos, 0, 0);
    forall u, side | u in nodes && f.low < u && 0 <= side <= 1
      ensures Child(f, Closed(f, pos, w), u, side) == Child(f, son, u, side)
    {
      SlotApart(f, u, pos);
    }
    forall u, side | u in nodes && f.low < u && 0 <= side <= 1
      ensures Child(f, son, u, side) <= f.low || Child(f, son, u, side) in ChildBelow(f, son, nodes, u, side)
    {
      if Child(f, son, u, side) > f.low { ChildInBelow(f, son, nodes, Child(f, son, u, side), 0); }
    }
  }

  lemma BetweenParted(f: Frame, a: int, b: int, m: int, pos: int, lenA: nat, lenB: nat)
    requires Parted(f, 0, a, pos, lenA) && Parted(f, 1, b, pos, lenB) && LeAt(f, a, m) && LeAt(f, m, b)
    ensures Same(f.data, m - f.base, pos - f.base, Min(lenA, lenB))
  {
    hide Le, Same;
    var n := Min(lenA, lenB);
    var i, j, k, c := a - f.base, b - f.base, m - f.base, pos - f.base;
    SameLess(f.data, i, c, lenA, n);
    SameLess(f.data, j, c, lenB, n);
    SameVia(f.data, i, j, c, n);
    Between(f.data, i, k, j, f.lenLimit, n);
    SameVia(f.data, c, k, i, n);
  }

  /** Everything in the tree that is left agrees with the current position as far as both sides do. */
  lemma LeftAgrees(f: Frame, was: seq<int>, nodes: set<int>, pos: int, w: Walker)
    requires WalkOk(f, was, nodes, pos, w) && w.m > f.low
    ensures f.base <= w.m && pos - f.base + f.lenLimit <= |f.data|
    ensures Same(f.data, w.m - f.base, pos - f.base, Min(w.lenA, w.lenB)) && Min(w.lenA, w.lenB) <= f.lenLimit
  {
    hide Refines, Linked, Sorted, Parted, LeAt, Below, ChildBelow, Closed, Ptr;
    if w.a != pos && w.b != pos {
      SortedSide(f, was, nodes, w.a, w.m, 1);
      SortedSide(f, was, nodes, w.b, w.m, 0);
      BetweenParted(f, w.a, w.b, w.m, pos, w.lenA, w.lenB);
      PartedLen(f, 0, w.a, pos, w.lenA);
    } else {
      assert Min(w.lenA, w.lenB) == 0;
    }
  }

  lemma PartedLen(f: Frame, s: nat, o: int, pos: int, len: nat)
    requires Parted(f, s, o, pos, len)
    ensures len < f.lenLimit
  {
  }

  // ---------------------------------------------------------------- one step

  /** Position m goes to side s; its inner child comes next. */
  function Put(f: Frame, pos: int, w: Walker, s: nat, len: nat): Walker
    requires FrameOk(f, w.son) && s <= 1
  {
    var son := w.son[Ptr(f, pos, Own(w, s), s) := w.m];
    Walker(son, Child(f, son, w.m, 1 - s),
           if s == 0 then w.m else w.a, if s == 0 then w.b else w.m,
           if s == 0 then len else w.lenA, if s == 0 then w.lenB else len)
  }

  /** Nothing is added to a tree by a pointer that is closed. */
  lemma {:induction false} CutBelow(f: Frame, son: seq<int>, nodes: set<int>, k: nat, q: int)
    requires FrameOk(f, son) && k < |son| && f.low >= 0
    ensures Below(f, son[k := 0], nodes, q) <= Below(f, son, nodes, q)
    ensures q > f.low && q in nodes ==> forall side :: 0 <= side <= 1 ==>
      ChildBelow(f, son[k := 0], nodes, q, side) <= ChildBelow(f, son, nodes, q, side)
    decreases if q > f.low then q - f.low else 0
  {
    if q > f.low && q in nodes {
      forall side | 0 <= side <= 1 ensures ChildBelow(f, son[k := 0], nodes, q, side) <= ChildBelow(f, son, nodes, q, side) {
        var c := Child(f, son, q, side);
        if c < q { CutBelow(f, son, nodes, k, c); }
      }
    }
  }

  /** A closed pointer of o that is set to an older position adds that position's tree, and only to trees with o in them. */
  lemma {:induction false} LinkBelow(f: Frame, son: seq<int>, tau: seq<int>, nodes: set<int>, o: int, side: nat, m: int, q: int)
    requires FrameOk(f, son) && side <= 1 && f.low >= 0 && m < o && f.low < o
    requires Child(f, son, o, side) <= f.low && tau == son[2 * Slot(f, o) + side := m]
    requires q <= f.low + f.size && o <= f.low + f.size
    ensures Below(f, tau, nodes, q) <= Below(f, son, nodes, q) + Below(f, son, nodes, m)
    ensures o !in Below(f, son, nodes, q) ==> Below(f, tau, nodes, q) <= Below(f, son, nodes, q)
    decreases if q > f.low then q - f.low else 0
  {
    if q > f.low && q in nodes {
      forall t: nat | t <= 1
        ensures ChildBelow(f, tau, nodes, q, t) <= ChildBelow(f, son, nodes, q, t) + Below(f, son, nodes, m)
        ensures o !in Below(f, son, nodes, q) ==> ChildBelow(f, tau, nodes, q, t) <= ChildBelow(f, son, nodes, q, t)
      {
        if q != o { SlotApart(f, q, o); }
        if q == o && t == side {
          if m > f.low { LinkedSame(f, son, tau, nodes, o, side, m, m); }
        } else {
          var c := Child(f, son, q, t);
          assert Child(f, tau, q, t) == c;
          if c < q {
            LinkBelow(f, son, tau, nodes, o, side, m, c);
          }
        }
      }
    }
  }

  /** Trees of positions older than o know nothing of its pointers. */
  lemma LinkedSame(f: Frame, son: seq<int>, tau: seq<int>, nodes: set<int>, o: int, side: nat, m: int, q: int)
    requires FrameOk(f, son) && side <= 1 && tau == son[2 * Slot(f, o) + side := m] && q < o && f.low < o <= f.low + f.size
    ensures Below(f, tau, nodes, q) == Below(f, son, nodes, q)
  {
    forall u, t | u in nodes && f.low < u <= q && 0 <= t <= 1 ensures Child(f, tau, u, t) == Child(f, son, u, t) {
      SlotApart(f, u, o);
    }
    BelowSame(f, son, tau, nodes, q);
  }

  /** The pointer that m will leave open closed too. */
  function Cut(f: Frame, pos: int, w: Walker, s: nat): (r: seq<int>)
    requires FrameOk(f, w.son) && s <= 1
    ensures |r| == |w.son|
  {
    Closed(f, pos, w)[2 * Slot(f, w.m) + (1 - s) := 0]
  }

  /** The owners of the open pointers are different positions, and m is neither. */
  lemma OwnersApart(f: Frame, was: seq<int>, nodes: set<int>, pos: int, w: Walker)
    requires WalkOk(f, was, nodes, pos, w)
    ensures Ptr(f, pos, w.a, 0) != Ptr(f, pos, w.b, 1)
    ensures f.low < w.a <= pos && f.low < w.b <= pos && (w.a == w.b ==> w.a == pos)
    ensures w.m > f.low ==> w.m < w.a && w.m < w.b
  {
    hide Refines, Sorted, Linked, Closed;
    if w.a == w.b && w.a != pos {
      PartedOnly(f, 0, w.a, pos, w.lenA);
      PartedSide(f, 1, w.a, pos, w.lenB);
    }
    hide Parted;
    if w.a != w.b { SlotApart(f, w.a, w.b); }
  }

  lemma Updates(son: seq<int>, p: int, q: int, k: int, m: int)
    requires 0 <= p < |son| && 0 <= q < |son| && 0 <= k < |son| && p != q && p != k
    ensures son[p := m][k := 0][q := 0] == son[p := 0][q := 0][k := 0][p := m]
    ensures son[p := m][q := 0][k := 0] == son[p := 0][q := 0][k := 0][p := m]
    ensures son[q := 0][p := 0] == son[p := 0][q := 0] && son[p := 0][q := 0][k := 0][p] == 0
  {
  }

  lemma PtrApart(f: Frame, pos: int, w: Walker, s: nat)
    requires f.size >= 1 && s <= 1 && Slot(f, w.m) != Slot(f, w.a) && Slot(f, w.m) != Slot(f, w.b)
    ensures Ptr(f, pos, Own(w, s), s) != 2 * Slot(f, w.m) + (1 - s) && Ptr(f, pos, Own(w, s), s) != 2 * Slot(f, w.m) + s
  {
    hide Slot;
  }

  /** Putting m on side s, seen with the open pointers closed. */
  lemma PutArray(f: Frame, was: seq<int>, nodes: set<int>, pos: int, w: Walker, s: nat, len: nat)
    requires WalkOk(f, was, nodes, pos, w) && s <= 1 && w.m > f.low
    ensures Closed(f, pos, Put(f, pos, w, s, len)) == Cut(f, pos, w, s)[Ptr(f, pos, Own(w, s), s) := w.m]
    ensures Slot(f, w.m) != Slot(f, Own(w, s)) && Cut(f, pos, w, s)[Ptr(f, pos, Own(w, s), s)] == 0
    ensures Child(f, Cut(f, pos, w, s), w.m, 1 - s) == 0
    ensures Put(f, pos, w, s, len).m == Child(f, was, w.m, 1 - s)
  {
    hide Slot, Ptr, WalkOk;
    OwnersApart(f, was, nodes, pos, w);
    WalkSizes(f, was, nodes, pos, w, 1 - s);
    SlotApart(f, w.m, w.a);
    SlotApart(f, w.m, w.b);
    PtrApart(f, pos, w, s);
    Updates(w.son, Ptr(f, pos, Own(w, s), s), Ptr(f, pos, Own(w, 1 - s), 1 - s), 2 * Slot(f, w.m) + (1 - s), w.m);
    MOpen(f, pos, w);
  }

  lemma WalkSizes(f: Frame, was: seq<int>, nodes: set<int>, pos: int, w: Walker, side: nat)
    requires WalkOk(f, was, nodes, pos, w) && side <= 1
    ensures FrameOk(f, w.son) && FrameOk(f, was) && f.low >= 0 && pos == f.low + f.size && w.m < pos && pos !in nodes
    ensures w.m > f.low ==> w.m in nodes && Child(f, w.son, w.m, side) == Child(f, was, w.m, side)
  {
    hide Refines, SideOk, Sorted, Linked;
  }

  lemma MOpen(f: Frame, pos: int, w: Walker)
    requires f.size >= 1
    ensures Ptr(f, pos, w.m, 0) == (if w.m == pos then 2 * Slot(f, pos) else 2 * Slot(f, w.m) + 1)
    ensures Ptr(f, pos, w.m, 1) == (if w.m == pos then 2 * Slot(f, pos) + 1 else 2 * Slot(f, w.m))
  {
  }

  lemma CutRefines(f: Frame, was: seq<int>, nodes: set<int>, pos: int, w: Walker, s: nat)
    requires WalkOk(f, was, nodes, pos, w) && s <= 1
    ensures Refines(f, was, Cut(f, pos, w, s), nodes)
  {
    hide SideOk, Sorted, Linked;
  }

  lemma PutRefines(f: Frame, was: seq<int>, nodes: set<int>, pos: int, w: Walker, s: nat, now: seq<int>)
    requires WalkOk(f, was, nodes, pos, w) && s <= 1 && w.m > f.low
    requires now == Cut(f, pos, w, s)[Ptr(f, pos, Own(w, s), s) := w.m]
    ensures Refines(f, was, now, nodes)
  {
    hide WalkOk, Cut, ChildBelow;
    WalkSizes(f, was, nodes, pos, w, 0);
    CutRefines(f, was, nodes, pos, w, s);
    OwnersApart(f, was, nodes, pos, w);
    PlacedBelow(f, was, nodes, pos, w);
    if Own(w, s) != pos { MInside(f, was, nodes, pos, w, s); }
    OneRefines(f, was, Cut(f, pos, w, s), now, nodes, pos, Own(w, s), s, w.m);
  }

  lemma PlacedBelow(f: Frame, was: seq<int>, nodes: set<int>, pos: int, w: Walker)
    requires WalkOk(f, was, nodes, pos, w)
    ensures forall u :: u in nodes && f.low < u ==> u < pos
  {
  }

  lemma MInside(f: Frame, was: seq<int>, nodes: set<int>, pos: int, w: Walker, s: nat)
    requires WalkOk(f, was, nodes, pos, w) && s <= 1 && Own(w, s) != pos && w.m > f.low
    ensures w.m in ChildBelow(f, was, nodes, Own(w, s), 1 - s) && Own(w, s) in nodes
  {
  }

  /** One pointer of pos or of a node is set to what was below it. */
  lemma OneRefines(f: Frame, was: seq<int>, cut: seq<int>, now: seq<int>, nodes: set<int>, pos: int, o: int, s: nat, m: int)
    requires FrameOk(f, was) && FrameOk(f, cut) && Refines(f, was, cut, nodes) && s <= 1 && pos == f.low + f.size
    requires f.low < o <= pos && now == cut[Ptr(f, pos, o, s) := m] && pos !in nodes
    requires forall u :: u in nodes && f.low < u ==> u < pos
    requires o != pos && m > f.low ==> m in ChildBelow(f, was, nodes, o, 1 - s)
    ensures Refines(f, was, now, nodes)
  {
    hide ChildBelow;
    forall u, side | u in nodes && f.low < u && 0 <= side <= 1
      ensures Child(f, now, u, side) <= f.low || Child(f, now, u, side) in ChildBelow(f, was, nodes, u, side)
    {
      if u != o { SlotApart(f, u, o); }
      if !(u == o && side == 1 - s) {
        assert Child(f, now, u, side) == Child(f, cut, u, side);
      }
    }
  }

  /** All positions of a tree stand on side s of pos. */
  ghost predicate AllSide(f: Frame, son: seq<int>, nodes: set<int>, q: int, s: nat, pos: int)
    requires FrameOk(f, son)
  {
    forall v :: v in Below(f, son, nodes, q) ==> Side(f, s, v, pos)
  }

  lemma SideHas(f: Frame, was: seq<int>, nodes: set<int>, pos: int, w: Walker, s: nat)
    requires WalkOk(f, was, nodes, pos, w) && s <= 1
    ensures SideOk(f, was, Closed(f, pos, w), nodes, pos, w, s)
    ensures AllSide(f, Closed(f, pos, w), nodes, Child(f, Closed(f, pos, w), pos, s), s, pos)
  {
    hide Refines, Sorted, Linked;
  }

  /** Closing a pointer takes nothing to the wrong side. */
  lemma CutSide(f: Frame, was: seq<int>, nodes: set<int>, pos: int, w: Walker, s: nat, t: nat)
    requires WalkOk(f, was, nodes, pos, w) && s <= 1 && t <= 1 && w.m > f.low
    ensures Child(f, Cut(f, pos, w, s), pos, t) == Child(f, Closed(f, pos, w), pos, t)
    ensures AllSide(f, Cut(f, pos, w, s), nodes, Child(f, Cut(f, pos, w, s), pos, t), t, pos)
  {
    hide WalkOk, Side, Closed;
    WalkSizes(f, was, nodes, pos, w, 0);
    SideHas(f, was, nodes, pos, w, t);
    SlotApart(f, w.m, pos);
    CutBelow(f, Closed(f, pos, w), nodes, 2 * Slot(f, w.m) + (1 - s), Child(f, Closed(f, pos, w), pos, t));
  }

  /** The tree of m with its inner child cut off stands on side s. */
  lemma PutSelf(f: Frame, was: seq<int>, nodes: set<int>, pos: int, w: Walker, s: nat, len: nat)
    requires WalkOk(f, was, nodes, pos, w) && s <= 1 && w.m > f.low && Parted(f, s, w.m, pos, len)
    requires Child(f, Cut(f, pos, w, s), w.m, 1 - s) == 0
    ensures AllSide(f, Cut(f, pos, w, s), nodes, w.m, s, pos)
  {
    hide WalkOk, Parted, Cut, Closed, Refines, Linked, Side, Sorted, Below, ChildBelow, Placed;
    WalkSizes(f, was, nodes, pos, w, s);
    var cut := Cut(f, pos, w, s);
    CutRefines(f, was, nodes, pos, w, s);
    WalkRooted(f, was, nodes, pos, w);
    RefinesBelow(f, was, cut, nodes, w.m);
    PartedSide(f, s, w.m, pos, len);
    OneSide(f, cut, nodes, w.m, s);
    forall v | v in Below(f, cut, nodes, w.m) ensures Side(f, s, v, pos) {
      if v != w.m {
        SortedSide(f, was, nodes, w.m, v, s);
        SideTrans(f, s, v, w.m, pos);
      }
    }
  }

  lemma WalkRooted(f: Frame, was: seq<int>, nodes: set<int>, pos: int, w: Walker)
    requires WalkOk(f, was, nodes, pos, w)
    ensures Rooted(f, was, nodes, pos)
  {
  }

  lemma OneSide(f: Frame, son: seq<int>, nodes: set<int>, q: int, s: nat)
    requires FrameOk(f, son) && s <= 1 && q in nodes && q > f.low && Child(f, son, q, 1 - s) <= f.low
    ensures Below(f, son, nodes, q) == {q} + ChildBelow(f, son, nodes, q, s)
  {
  }

  /** Linking m's tree to side s keeps each side where it belongs. */
  lemma PutSides(f: Frame, was: seq<int>, nodes: set<int>, pos: int, w: Walker, s: nat, len: nat, now: seq<int>)
    requires WalkOk(f, was, nodes, pos, w) && s <= 1 && w.m > f.low && Parted(f, s, w.m, pos, len)
    requires now == Cut(f, pos, w, s)[Ptr(f, pos, Own(w, s), s) := w.m]
    requires Cut(f, pos, w, s)[Ptr(f, pos, Own(w, s), s)] == 0 && Child(f, Cut(f, pos, w, s), w.m, 1 - s) == 0
    ensures FrameOk(f, now)
    ensures Child(f, now, pos, s) == (if Own(w, s) == pos then w.m else Child(f, Closed(f, pos, w), pos, s))
    ensures Child(f, now, pos, 1 - s) == Child(f, Closed(f, pos, w), pos, 1 - s)
    ensures AllSide(f, now, nodes, Child(f, now, pos, s), s, pos)
    ensures AllSide(f, now, nodes, Child(f, now, pos, 1 - s), 1 - s, pos)
  {
    hide WalkOk, Parted, Cut, Closed, Side, Below, ChildBelow, SideOk, AllSide, Child;
    WalkSizes(f, was, nodes, pos, w, s);
    var cut, o := Cut(f, pos, w, s), Own(w, s);
    OwnersApart(f, was, nodes, pos, w);
    CutSide(f, was, nodes, pos, w, s, s);
    CutSide(f, was, nodes, pos, w, s, 1 - s);
    PutSelf(f, was, nodes, pos, w, s, len);
    RootsOld(f, was, nodes, pos, w, s);
    RootsOld(f, was, nodes, pos, w, 1 - s);
    OpenChild(f, cut, pos, o, s);
    if o == pos {
      OpenAtPos(f, cut, now, nodes, pos, s, w.m);
    } else {
      OwnerOut(f, was, nodes, pos, w, s, cut);
      OpenAtNode(f, cut, now, nodes, pos, s, o, w.m);
    }
  }

  lemma OpenChild(f: Frame, son: seq<int>, pos: int, o: int, s: nat)
    requires FrameOk(f, son) && s <= 1
    ensures Ptr(f, pos, o, s) == (if o == pos then 2 * Slot(f, pos) + s else 2 * Slot(f, o) + (1 - s))
    ensures o != pos ==> Child(f, son, o, 1 - s) == son[Ptr(f, pos, o, s)]
  {
  }

  lemma RootsOld(f: Frame, was: seq<int>, nodes: set<int>, pos: int, w: Walker, s: nat)
    requires WalkOk(f, was, nodes, pos, w) && s <= 1
    ensures Child(f, Closed(f, pos, w), pos, s) < pos
  {
    hide Refines, Sorted, Linked, Parted, Side;
  }

  /** A pointer of pos itself is set: no tree has pos in it. */
  lemma OpenAtPos(f: Frame, cut: seq<int>, now: seq<int>, nodes: set<int>, pos: int, s: nat, m: int)
    requires FrameOk(f, cut) && s <= 1 && pos == f.low + f.size && pos !in nodes && m < pos
    requires now == cut[2 * Slot(f, pos) + s := m]
    requires AllSide(f, cut, nodes, m, s, pos) && AllSide(f, cut, nodes, Child(f, cut, pos, 1 - s), 1 - s, pos)
    requires Child(f, cut, pos, 1 - s) < pos
    ensures Child(f, now, pos, s) == m && Child(f, now, pos, 1 - s) == Child(f, cut, pos, 1 - s)
    ensures AllSide(f, now, nodes, m, s, pos) && AllSide(f, now, nodes, Child(f, now, pos, 1 - s), 1 - s, pos)
  {
    hide Side;
    LinkedSame(f, cut, now, nodes, pos, s, m, m);
    LinkedSame(f, cut, now, nodes, pos, s, m, Child(f, cut, pos, 1 - s));
  }

  /** The inner pointer of a node o of side s is set. */
  lemma OpenAtNode(f: Frame, cut: seq<int>, now: seq<int>, nodes: set<int>, pos: int, s: nat, o: int, m: int)
    requires FrameOk(f, cut) && s <= 1 && pos == f.low + f.size && f.low >= 0 && f.low < o < pos && m < o
    requires now == cut[2 * Slot(f, o) + (1 - s) := m] && Child(f, cut, o, 1 - s) <= f.low
    requires AllSide(f, cut, nodes, m, s, pos) && AllSide(f, cut, nodes, Child(f, cut, pos, s), s, pos)
    requires AllSide(f, cut, nodes, Child(f, cut, pos, 1 - s), 1 - s, pos) && Child(f, cut, pos, s) < pos && Child(f, cut, pos, 1 - s) < pos
    requires o !in Below(f, cut, nodes, Child(f, cut, pos, 1 - s))
    ensures Child(f, now, pos, s) == Child(f, cut, pos, s) && Child(f, now, pos, 1 - s) == Child(f, cut, pos, 1 - s)
    ensures AllSide(f, now, nodes, Child(f, now, pos, s), s, pos) && AllSide(f, now, nodes, Child(f, now, pos, 1 - s), 1 - s, pos)
  {
    hide Side;
    SlotApart(f, o, pos);
    LinkBelow(f, cut, now, nodes, o, 1 - s, m, Child(f, cut, pos, s));
    LinkBelow(f, cut, now, nodes, o, 1 - s, m, Child(f, cut, pos, 1 - s));
  }

  /** The owner of side s is not in the tree of the other side. */
  lemma OwnerOut(f: Frame, was: seq<int>, nodes: set<int>, pos: int, w: Walker, s: nat, son: seq<int>)
    requires WalkOk(f, was, nodes, pos, w) && s <= 1 && Own(w, s) != pos && FrameOk(f, son)
    requires AllSide(f, son, nodes, Child(f, son, pos, 1 - s), 1 - s, pos)
    ensures Own(w, s) !in Below(f, son, nodes, Child(f, son, pos, 1 - s))
  {
    SideHas(f, was, nodes, pos, w, s);
    PartedOnly(f, s, Own(w, s), pos, Len(w, s));
    hide Side, Parted;
  }

  /** The next position is inside what was inside m. */
  lemma NextInside(f: Frame, was: seq<int>, nodes: set<int>, pos: int, w: Walker, s: nat, t: nat)
    requires WalkOk(f, was, nodes, pos, w) && s <= 1 && t <= 1 && w.m > f.low
    ensures Child(f, was, w.m, 1 - s) < w.m
    ensures Child(f, was, w.m, 1 - s) > f.low ==>
      Child(f, was, w.m, 1 - s) in nodes && Child(f, was, w.m, 1 - s) in ChildBelow(f, was, nodes, w.m, 1 - s)
    ensures Child(f, was, w.m, 1 - s) > f.low && Own(w, t) != pos ==>
      Child(f, was, w.m, 1 - s) in ChildBelow(f, was, nodes, Own(w, t), 1 - t)
  {
    hide Refines, Sorted, Parted, Side, Closed;
    var n := Child(f, was, w.m, 1 - s);
    if n > f.low {
      ChildInBelow(f, was, nodes, n, 0);
      if Own(w, t) != pos {
        BelowTrans(f, was, nodes, Child(f, was, Own(w, t), 1 - t), w.m);
      }
    }
  }

  lemma PutFrame(f: Frame, was: seq<int>, nodes: set<int>, pos: int, w: Walker, s: nat, len: nat)
    requires WalkOk(f, was, nodes, pos, w) && s <= 1 && w.m > f.low
    ensures var w2 := Put(f, pos, w, s, len);
            forall u, side :: u in nodes && f.low < u <= w2.m && 0 <= side <= 1 ==> Child(f, w2.son, u, side) == Child(f, was, u, side)
  {
    hide Refines, Sorted, SideOk, Linked, Closed, Cut;
    PutArray(f, was, nodes, pos, w, s, len);
    NextInside(f, was, nodes, pos, w, s, s);
    OwnersApart(f, was, nodes, pos, w);
    var w2 := Put(f, pos, w, s, len);
    forall u, side | u in nodes && f.low < u <= w2.m && 0 <= side <= 1
      ensures Child(f, w2.son, u, side) == Child(f, was, u, side)
    {
      SlotApart(f, u, Own(w, s));
    }
  }

  /** A step keeps everything. */
  lemma PutOk(f: Frame, was: seq<int>, nodes: set<int>, pos: int, w: Walker, s: nat, len: nat)
    requires WalkOk(f, was, nodes, pos, w) && s <= 1 && w.m > f.low && Parted(f, s, w.m, pos, len)
    ensures WalkOk(f, was, nodes, pos, Put(f, pos, w, s, len))
  {
    PutParts(f, was, nodes, pos, w, s, len);
    PutFrame(f, was, nodes, pos, w, s, len);
    WalkRooted(f, was, nodes, pos, w);
    WalkSizes(f, was, nodes, pos, w, s);
    NextInside(f, was, nodes, pos, w, s, s);
    NextInside(f, was, nodes, pos, w, s, 1 - s);
    hide Rooted, Refines, SideOk, Closed, Parted;
  }

  lemma PutParts(f: Frame, was: seq<int>, nodes: set<int>, pos: int, w: Walker, s: nat, len: nat)
    requires WalkOk(f, was, nodes, pos, w) && s <= 1 && w.m > f.low && Parted(f, s, w.m, pos, len)
    ensures var w2 := Put(f, pos, w, s, len);
            Refines(f, was, Closed(f, pos, w2), nodes) && w2.m == Child(f, was, w.m, 1 - s)
            && SideOk(f, was, Closed(f, pos, w2), nodes, pos, w2, 0) && SideOk(f, was, Closed(f, pos, w2), nodes, pos, w2, 1)
  {
    hide WalkOk, Refines, Parted, Side, Closed, Cut, Below, ChildBelow, SideOk, Ptr, Slot;
    WalkSizes(f, was, nodes, pos, w, s);
    PutArray(f, was, nodes, pos, w, s, len);
    var w2 := Put(f, pos, w, s, len);
    var now := Closed(f, pos, w2);
    PutRefines(f, was, nodes, pos, w, s, now);
    PutSides(f, was, nodes, pos, w, s, len, now);
    NextInside(f, was, nodes, pos, w, s, s);
    NextInside(f, was, nodes, pos, w, s, 1 - s);
    NewSide(f, was, nodes, pos, w, s, len, w2, now);
    OldSide(f, was, nodes, pos, w, s, len, w2, now);
  }

  lemma NewSide(f: Frame, was: seq<int>, nodes: set<int>, pos: int, w: Walker, s: nat, len: nat, w2: Walker, now: seq<int>)
    requires WalkOk(f, was, nodes, pos, w) && s <= 1 && w.m > f.low && Parted(f, s, w.m, pos, len) && FrameOk(f, now)
    requires Own(w2, s) == w.m && Len(w2, s) == len && w2.m == Child(f, was, w.m, 1 - s)
    requires Child(f, now, pos, s) == (if Own(w, s) == pos then w.m else Child(f, Closed(f, pos, w), pos, s))
    requires AllSide(f, now, nodes, Child(f, now, pos, s), s, pos)
    requires w2.m > f.low ==> w2.m in ChildBelow(f, was, nodes, w.m, 1 - s)
    ensures SideOk(f, was, now, nodes, pos, w2, s)
  {
    hide Refines, Sorted, Linked, Parted, Side, Closed, Below, ChildBelow;
  }

  lemma OldSide(f: Frame, was: seq<int>, nodes: set<int>, pos: int, w: Walker, s: nat, len: nat, w2: Walker, now: seq<int>)
    requires WalkOk(f, was, nodes, pos, w) && s <= 1 && w.m > f.low && FrameOk(f, now)
    requires Own(w2, 1 - s) == Own(w, 1 - s) && Len(w2, 1 - s) == Len(w, 1 - s)
    requires Child(f, now, pos, 1 - s) == Child(f, Closed(f, pos, w), pos, 1 - s)
    requires AllSide(f, now, nodes, Child(f, now, pos, 1 - s), 1 - s, pos)
    requires w2.m > f.low && Own(w, 1 - s) != pos ==> w2.m in ChildBelow(f, was, nodes, Own(w, 1 - s), s)
    ensures SideOk(f, was, now, nodes, pos, w2, 1 - s)
  {
    hide Refines, Sorted, Linked, Parted, Side, Closed, Below, ChildBelow;
  }

  // ---------------------------------------------------------------- the end of a walk

  /** The array after the walk: old trees have only lost positions, and pos has the two halves below it. */
  ghost predicate Torn(f: Frame, was: seq<int>, now: seq<int>, nodes: set<int>, pos: int)
    requires FrameOk(f, was) && FrameOk(f, now)
  {
    && Refines(f, was, now, nodes)
    && (forall t :: 0 <= t <= 1 ==> Child(f, now, pos, t) < pos && (Child(f, now, pos, t) > f.low ==> Child(f, now, pos, t) in nodes))
    && AllSide(f, now, nodes, Child(f, now, pos, 0), 0, pos) && AllSide(f, now, nodes, Child(f, now, pos, 1), 1, pos)
  }

  lemma EndClosed(f: Frame, was: seq<int>, nodes: set<int>, pos: int, w: Walker)
    requires WalkOk(f, was, nodes, pos, w)
    ensures Torn(f, was, Closed(f, pos, w), nodes, pos)
  {
    hide Refines, Sorted, Linked, Parted, Side, Closed, Below, ChildBelow;
  }

  /** m equals pos as far as strings are compared: its two children take its place. */
  function Replaced(f: Frame, pos: int, w: Walker): (r: seq<int>)
    requires FrameOk(f, w.son)
    ensures |r| == |w.son|
  {
    w.son[Ptr(f, pos, w.a, 0) := Child(f, w.son, w.m, 0)][Ptr(f, pos, w.b, 1) := Child(f, w.son, w.m, 1)]
  }

  lemma EqualSide(f: Frame, was: seq<int>, nodes: set<int>, pos: int, w: Walker, t: nat, son: seq<int>)
    requires WalkOk(f, was, nodes, pos, w) && t <= 1 && w.m > f.low && FrameOk(f, son)
    requires f.base <= w.m && f.base <= pos && Same(f.data, w.m - f.base, pos - f.base, f.lenLimit)
    requires Below(f, son, nodes, Child(f, was, w.m, t)) <= Below(f, was, nodes, Child(f, was, w.m, t))
    ensures AllSide(f, son, nodes, Child(f, was, w.m, t), t, pos)
  {
    hide Side, Refines, SideOk, Closed;
    SameTurned(f.data, w.m - f.base, pos - f.base, f.lenLimit);
    EqualsBoth(f, w.m, pos);
    forall v | v in Below(f, son, nodes, Child(f, was, w.m, t)) ensures Side(f, t, v, pos) {
      SortedSide(f, was, nodes, w.m, v, t);
      SideTrans(f, t, v, w.m, pos);
    }
  }

  lemma EqualsBoth(f: Frame, m: int, pos: int)
    requires f.base <= m && f.base <= pos && Same(f.data, m - f.base, pos - f.base, f.lenLimit)
    ensures Side(f, 0, m, pos) && Side(f, 1, m, pos)
  {
    SameTurned(f.data, m - f.base, pos - f.base, f.lenLimit);
    LeAtDifference(f.data, m - f.base, pos - f.base, f.lenLimit, f.lenLimit);
    LeAtDifference(f.data, pos - f.base, m - f.base, f.lenLimit, f.lenLimit);
  }

  /** The child of m on side t goes where side t is open. */
  lemma LinkChild(f: Frame, was: seq<int>, nodes: set<int>, pos: int, w: Walker, t: nat, son: seq<int>, now: seq<int>)
    requires WalkOk(f, was, nodes, pos, w) && t <= 1 && w.m > f.low && FrameOk(f, son)
    requires Refines(f, was, son, nodes) && Child(f, son, pos, t) < pos && Child(f, son, pos, 1 - t) < pos
    requires AllSide(f, son, nodes, Child(f, son, pos, 0), 0, pos) && AllSide(f, son, nodes, Child(f, son, pos, 1), 1, pos)
    requires AllSide(f, son, nodes, Child(f, was, w.m, t), t, pos)
    requires son[Ptr(f, pos, Own(w, t), t)] <= f.low
    requires now == son[Ptr(f, pos, Own(w, t), t) := Child(f, was, w.m, t)]
    ensures FrameOk(f, now) && Refines(f, was, now, nodes)
    ensures Child(f, now, pos, 1 - t) == Child(f, son, pos, 1 - t)
    ensures Child(f, now, pos, t) == Child(f, son, pos, t) || Child(f, now, pos, t) == Child(f, was, w.m, t)
    ensures AllSide(f, now, nodes, Child(f, now, pos, 0), 0, pos) && AllSide(f, now, nodes, Child(f, now, pos, 1), 1, pos)
  {
    hide WalkOk, Parted, Side, Below, ChildBelow, SideOk, Refines, AllSide, Child, Ptr;
    WalkSizes(f, was, nodes, pos, w, 0);
    var o, x := Own(w, t), Child(f, was, w.m, t);
    OwnersApart(f, was, nodes, pos, w);
    PlacedBelow(f, was, nodes, pos, w);
    ChildOfM(f, was, nodes, pos, w, t);
    OneRefines(f, was, son, now, nodes, pos, o, t, x);
    OpenChild(f, son, pos, o, t);
    if o == pos {
      OpenAtPos(f, son, now, nodes, pos, t, x);
    } else {
      OwnerOut(f, was, nodes, pos, w, t, son);
      OpenAtNode(f, son, now, nodes, pos, t, o, x);
    }
  }

  lemma ChildOfM(f: Frame, was: seq<int>, nodes: set<int>, pos: int, w: Walker, t: nat)
    requires WalkOk(f, was, nodes, pos, w) && t <= 1 && w.m > f.low
    ensures Child(f, was, w.m, t) < w.m && (Child(f, was, w.m, t) > f.low ==> Child(f, was, w.m, t) in nodes)
    ensures Own(w, t) != pos && Child(f, was, w.m, t) > f.low ==>
      Child(f, was, w.m, t) in ChildBelow(f, was, nodes, Own(w, t), 1 - t)
  {
    NextInside(f, was, nodes, pos, w, 1 - t, t);
  }

  lemma EndReplaced(f: Frame, was: seq<int>, nodes: set<int>, pos: int, w: Walker)
    requires WalkOk(f, was, nodes, pos, w) && w.m > f.low
    requires f.base <= w.m && f.base <= pos && Same(f.data, w.m - f.base, pos - f.base, f.lenLimit)
    ensures Torn(f, was, Replaced(f, pos, w), nodes, pos)
  {
    hide WalkOk, Parted, Side, Below, ChildBelow, SideOk, Refines, AllSide, Same;
    WalkSizes(f, was, nodes, pos, w, 0);
    WalkSizes(f, was, nodes, pos, w, 1);
    EndClosed(f, was, nodes, pos, w);
    OwnersApart(f, was, nodes, pos, w);
    ChildOfM(f, was, nodes, pos, w, 0);
    ChildOfM(f, was, nodes, pos, w, 1);
    var closed := Closed(f, pos, w);
    var x0, x1 := Child(f, was, w.m, 0), Child(f, was, w.m, 1);
    var half := closed[Ptr(f, pos, w.a, 0) := x0];
    RefinesBelow(f, was, closed, nodes, x0);
    EqualSide(f, was, nodes, pos, w, 0, closed);
    LinkChild(f, was, nodes, pos, w, 0, closed, half);
    RefinesBelow(f, was, half, nodes, x1);
    EqualSide(f, was, nodes, pos, w, 1, half);
    LinkChild(f, was, nodes, pos, w, 1, half, half[Ptr(f, pos, w.b, 1) := x1]);
    assert half[Ptr(f, pos, w.b, 1) := x1] == Replaced(f, pos, w);
  }
}
