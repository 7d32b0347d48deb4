/**
 * The match finder's walk as the code runs it, what it reports, the trees it leaves, and the shift of all
 * stored positions before they overflow.
 */
module MatchFinder {
  import opened Bytes
  import opened Residues
  import opened MatchTree
  import opened MatchWalk

  /** A match of so many bytes, `back + 1` positions before the current one. */
  datatype Match = Match(len: nat, back: nat)

  /** How far the strings at i and j agree, given that they do for len bytes. */
  function Extend(data: seq<Byte>, i: nat, j: nat, len: nat, limit: nat): (r: nat)
    requires len <= limit && i + limit <= |data| && j + limit <= |data|
    ensures len <= r <= limit
    decreases limit - len
  {
    if len < limit && data[i + len] == data[j + len] then Extend(data, i, j, len + 1, limit) else len
  }

  lemma {:induction false} ExtendSame(data: seq<Byte>, i: nat, j: nat, len: nat, limit: nat)
    requires len <= limit && i + limit <= |data| && j + limit <= |data| && Same(data, i, j, len)
    ensures Same(data, i, j, Extend(data, i, j, len, limit))
    ensures Extend(data, i, j, len, limit) < limit ==>
      data[i + Extend(data, i, j, len, limit)] != data[j + Extend(data, i, j, len, limit)]
    decreases limit - len
  {
    if len < limit && data[i + len] == data[j + len] {
      SameMore(data, i, j, len);
      ExtendSame(data, i, j, len + 1, limit);
    }
  }

  /** Stored positions are out of the window, or have their bytes and come before pos. */
  ghost predicate Entries(f: Frame, son: seq<int>, pos: int) {
    && FrameOk(f, son) && pos == f.low + f.size && f.low >= 0 && f.base <= pos && pos - f.base + f.lenLimit <= |f.data|
    && forall i :: 0 <= i < |son| ==> son[i] <= f.low || f.base <= son[i] < pos
  }

  ghost predicate Usable(f: Frame, pos: int, w: Walker) {
    Entries(f, w.son, pos) && (w.m <= f.low || f.base <= w.m < pos) && w.lenA <= f.lenLimit && w.lenB <= f.lenLimit
  }

  /** The length of the match with m. */
  ghost function Length(f: Frame, pos: int, w: Walker): (n: nat)
    requires Usable(f, pos, w) && w.m > f.low
    ensures n <= f.lenLimit
  {
    Extend(f.data, w.m - f.base, pos - f.base, Min(w.lenA, w.lenB), f.lenLimit)
  }

  /** The side of pos that m goes to. */
  ghost function SideOf(f: Frame, pos: int, w: Walker): (s: nat)
    requires Usable(f, pos, w) && w.m > f.low && Length(f, pos, w) < f.lenLimit
    ensures s <= 1
  {
    if f.data[w.m - f.base + Length(f, pos, w)] < f.data[pos - f.base + Length(f, pos, w)] then 0 else 1
  }

  function Noted(ds: seq<Match>, maxLen: nat, len: nat, back: nat): seq<Match> {
    if maxLen < len then ds + [Match(len, back)] else ds
  }

  function Longer(x: nat, y: nat): nat { if x < y then y else x }

  lemma PutUsable(f: Frame, pos: int, w: Walker, s: nat, len: nat)
    requires Usable(f, pos, w) && w.m > f.low && s <= 1 && len <= f.lenLimit
    ensures Usable(f, pos, Put(f, pos, w, s, len))
  {
  }

  /** The whole walk: the array it leaves and the matches it reports. */
  ghost function Walk(f: Frame, pos: int, w: Walker, cut: nat, maxLen: nat, ds: seq<Match>): (r: (seq<int>, seq<Match>))
    requires Usable(f, pos, w)
    ensures |r.0| == |w.son|
    decreases cut
  {
    if cut == 0 || w.m <= f.low then (Closed(f, pos, w), ds)
    else
      var len := Length(f, pos, w);
      var ds2 := Noted(ds, maxLen, len, pos - w.m - 1);
      if len == f.lenLimit then (Replaced(f, pos, w), ds2)
      else
        var s := SideOf(f, pos, w);
        PutUsable(f, pos, w, s, len);
        Walk(f, pos, Put(f, pos, w, s, len), cut - 1, Longer(maxLen, len), ds2)
  }

  // ---------------------------------------------------------------- what is reported and what is left

  /** The bytes that far back are the same for that length, and the distance is inside the window. */
  ghost predicate TrueMatch(f: Frame, pos: int, d: Match) {
    && f.base <= pos - d.back - 1 && d.len <= f.lenLimit && d.back + 1 < f.size
    && Same(f.data, pos - f.base - d.back - 1, pos - f.base, d.len)
  }

  /** True matches from index `from` on, each longer than the one before, the first longer than `least`. */
  ghost predicate TrueMatches(f: Frame, pos: int, ds: seq<Match>, from: nat, least: nat) {
    && from <= |ds|
    && (forall i :: from <= i < |ds| ==> TrueMatch(f, pos, ds[i]))
    && (forall i :: from <= i < |ds| ==> Rises(ds, from, least, i))
  }

  /** Match i is longer than the one before it. */
  ghost predicate Rises(ds: seq<Match>, from: nat, least: nat, i: nat)
    requires i < |ds|
  {
    LastLen(ds[..i], from, least) < ds[i].len
  }

  function LastLen(ds: seq<Match>, from: nat, least: nat): nat {
    if |ds| <= from then least else ds[|ds| - 1].len
  }

  lemma NotedTrue(f: Frame, pos: int, ds: seq<Match>, from: nat, least: nat, len: nat, m: int)
    requires TrueMatches(f, pos, ds, from, least) && f.base <= m < pos && pos - m < f.size && len <= f.lenLimit
    requires Same(f.data, m - f.base, pos - f.base, len)
    ensures TrueMatches(f, pos, Noted(ds, LastLen(ds, from, least), len, pos - m - 1), from, least)
    ensures Longer(LastLen(ds, from, least), len) == LastLen(Noted(ds, LastLen(ds, from, least), len, pos - m - 1), from, least)
  {
    hide Same;
    assert pos - f.base - (pos - m - 1) - 1 == m - f.base;
    assert TrueMatch(f, pos, Match(len, pos - m - 1));
    hide TrueMatch;
    var last := LastLen(ds, from, least);
    var es := Noted(ds, last, len, pos - m - 1);
    forall i | from <= i < |es| ensures Rises(es, from, least, i) {
      if i < |ds| {
        assert Rises(ds, from, least, i) && es[..i] == ds[..i] && es[i] == ds[i];
      } else {
        assert es[..i] == ds;
      }
    }
  }

  /** One step: the match is true, and the position goes where its first difference says. */
  lemma StepFacts(f: Frame, was: seq<int>, nodes: set<int>, pos: int, w: Walker)
    requires WalkOk(f, was, nodes, pos, w) && Usable(f, pos, w) && w.m > f.low
    ensures Same(f.data, w.m - f.base, pos - f.base, Length(f, pos, w))
    ensures Length(f, pos, w) < f.lenLimit ==> Parted(f, SideOf(f, pos, w), w.m, pos, Length(f, pos, w))
  {
    hide WalkOk, Same, Entries;
    LeftAgrees(f, was, nodes, pos, w);
    UsableSizes(f, pos, w);
    ExtendSame(f.data, w.m - f.base, pos - f.base, Min(w.lenA, w.lenB), f.lenLimit);
  }

  lemma UsableSizes(f: Frame, pos: int, w: Walker)
    requires Usable(f, pos, w) && w.m > f.low
    ensures FrameOk(f, w.son) && f.base <= w.m < pos && f.base <= pos && pos - f.base + f.lenLimit <= |f.data| && pos - w.m < f.size
  {
  }

  /** Every reported match is true and longer than the last, and the trees stay search trees. */
  lemma {:induction false} WalkFinds(f: Frame, was: seq<int>, nodes: set<int>, pos: int, w: Walker, cut: nat, maxLen: nat,
                                     ds: seq<Match>, from: nat, least: nat)
    requires WalkOk(f, was, nodes, pos, w) && Usable(f, pos, w)
    requires TrueMatches(f, pos, ds, from, least) && maxLen == LastLen(ds, from, least)
    ensures Torn(f, was, Walk(f, pos, w, cut, maxLen, ds).0, nodes, pos)
    ensures TrueMatches(f, pos, Walk(f, pos, w, cut, maxLen, ds).1, from, least)
    decreases cut
  {
    hide WalkOk, Torn, TrueMatches, Length, SideOf, Closed, Replaced, Put, Same, Parted, Noted, LastLen, Entries;
    if cut == 0 || w.m <= f.low {
      EndClosed(f, was, nodes, pos, w);
    } else {
      var len := Length(f, pos, w);
      StepFacts(f, was, nodes, pos, w);
      UsableSizes(f, pos, w);
      NotedTrue(f, pos, ds, from, least, len, w.m);
      if len == f.lenLimit {
        EndReplaced(f, was, nodes, pos, w);
      } else {
        var s := SideOf(f, pos, w);
        PutUsable(f, pos, w, s, len);
        PutOk(f, was, nodes, pos, w, s, len);
        WalkFinds(f, was, nodes, pos, Put(f, pos, w, s, len), cut - 1, Longer(maxLen, len),
                  Noted(ds, maxLen, len, pos - w.m - 1), from, least);
      }
    }
  }

  /** The frame one position on, with no more bytes to compare than before. */
  function Onward(f: Frame, lenLimit: nat): Frame {
    f.(low := f.low + 1, lenLimit := lenLimit)
  }

  /** Moving on, trees lose what leaves the window, and the new position is nobody's descendant yet. */
  lemma {:induction false} OnwardBelow(f: Frame, son: seq<int>, nodes: set<int>, pos: int, n: nat, q: int)
    requires FrameOk(f, son) && q < pos
    ensures Below(Onward(f, n), son, nodes + {pos}, q) <= Below(f, son, nodes, q)
    ensures q > f.low + 1 && q in nodes ==> forall t :: 0 <= t <= 1 ==>
      ChildBelow(Onward(f, n), son, nodes + {pos}, q, t) <= ChildBelow(f, son, nodes, q, t)
    decreases if q > f.low then q - f.low else 0
  {
    if q > f.low + 1 && q in nodes {
      forall t | 0 <= t <= 1 ensures ChildBelow(Onward(f, n), son, nodes + {pos}, q, t) <= ChildBelow(f, son, nodes, q, t) {
        var c := Child(f, son, q, t);
        assert Child(Onward(f, n), son, q, t) == c;
        if c < q { OnwardBelow(f, son, nodes, pos, n, c); }
      }
    }
  }

  /** With the current position as a root, the trees are search trees for the next one. */
  lemma TornRooted(f: Frame, was: seq<int>, now: seq<int>, nodes: set<int>, pos: int, n: nat)
    requires Rooted(f, was, nodes, pos) && FrameOk(f, now) && Torn(f, was, now, nodes, pos)
    requires n <= f.lenLimit && f.base <= pos && pos + 1 - f.base + n <= |f.data|
    ensures Rooted(Onward(f, n), now, nodes + {pos}, pos + 1)
  {
    var g, ns := Onward(f, n), nodes + {pos};
    OnwardLinked(f, was, now, nodes, pos, n);
    assert Sorted(g, now, ns) by {
      hide Linked, Refines, AllSide, Torn, Rooted, Placed, Below, ChildBelow;
      forall u, v | u in ns && g.low < u
        ensures v in ChildBelow(g, now, ns, u, 0) ==> LeAt(g, v, u)
        ensures v in ChildBelow(g, now, ns, u, 1) ==> LeAt(g, u, v)
      {
        if v in ChildBelow(g, now, ns, u, 0) { OnwardSide(f, was, now, nodes, pos, n, u, v, 0); }
        if v in ChildBelow(g, now, ns, u, 1) { OnwardSide(f, was, now, nodes, pos, n, u, v, 1); }
      }
    }
    hide Linked, Sorted, Refines, AllSide;
  }

  /** A child of now was below the same node, or is gone. */
  lemma ChildKept(f: Frame, was: seq<int>, now: seq<int>, nodes: set<int>, u: int, t: nat)
    requires FrameOk(f, was) && FrameOk(f, now) && Refines(f, was, now, nodes) && u in nodes && f.low < u && t <= 1
    ensures Child(f, now, u, t) < u && (Child(f, now, u, t) > f.low ==> Child(f, now, u, t) in nodes)
  {
    assert Child(f, now, u, t) <= f.low || Child(f, now, u, t) in ChildBelow(f, was, nodes, u, t);
  }

  lemma RootChild(f: Frame, was: seq<int>, now: seq<int>, nodes: set<int>, pos: int, t: nat)
    requires FrameOk(f, was) && FrameOk(f, now) && Torn(f, was, now, nodes, pos) && t <= 1
    ensures Child(f, now, pos, t) < pos && (Child(f, now, pos, t) > f.low ==> Child(f, now, pos, t) in nodes)
    ensures Refines(f, was, now, nodes)
  {
    hide Refines, AllSide, Child;
  }

  lemma OnwardChild(f: Frame, son: seq<int>, u: int, t: nat, n: nat)
    requires FrameOk(f, son) && t <= 1
    ensures Child(Onward(f, n), son, u, t) == Child(f, son, u, t)
  {
  }

  lemma OnwardLinked(f: Frame, was: seq<int>, now: seq<int>, nodes: set<int>, pos: int, n: nat)
    requires Rooted(f, was, nodes, pos) && FrameOk(f, now) && Torn(f, was, now, nodes, pos)
    ensures Linked(Onward(f, n), now, nodes + {pos})
  {
    hide Sorted, AllSide, Refines, Torn, Rooted, Child, Below, ChildBelow;
    var g, ns := Onward(f, n), nodes + {pos};
    FrameOfRoot(f, was, nodes, pos);
    forall u, t | u in ns && g.low < u && 0 <= t <= 1
      ensures Child(g, now, u, t) < u && (Child(g, now, u, t) > g.low ==> Child(g, now, u, t) in ns)
    {
      OnwardChild(f, now, u, t, n);
      RootChild(f, was, now, nodes, pos, t);
      if u != pos { ChildKept(f, was, now, nodes, u, t); }
    }
  }

  lemma FrameOfRoot(f: Frame, was: seq<int>, nodes: set<int>, pos: int)
    requires Rooted(f, was, nodes, pos)
    ensures FrameOk(f, was)
  {
  }

  lemma OnwardSide(f: Frame, was: seq<int>, now: seq<int>, nodes: set<int>, pos: int, n: nat, u: int, v: int, t: nat)
    requires Rooted(f, was, nodes, pos) && FrameOk(f, now) && Torn(f, was, now, nodes, pos) && t <= 1
    requires n <= f.lenLimit && f.base <= pos && pos + 1 - f.base + n <= |f.data|
    requires u in nodes + {pos} && f.low + 1 < u && v in ChildBelow(Onward(f, n), now, nodes + {pos}, u, t)
    ensures Side(Onward(f, n), t, v, u)
  {
    hide Linked, Placed;
    if u == pos {
      OnwardBelow(f, now, nodes, pos, n, Child(f, now, pos, t));
      assert Child(Onward(f, n), now, pos, t) == Child(f, now, pos, t);
    } else {
      BeforePos(f, was, nodes, pos, u);
      OnwardBelow(f, now, nodes, pos, n, u);
      RefinesBelow(f, was, now, nodes, u);
      SortedSide(f, was, nodes, u, v, t);
    }
    hide Refines, Sorted, AllSide, Below, ChildBelow;
    SideShorter(f, n, t, v, u);
  }

  lemma BeforePos(f: Frame, son: seq<int>, nodes: set<int>, pos: int, u: int)
    requires Rooted(f, son, nodes, pos) && u in nodes && f.low < u
    ensures u < pos
  {
  }

  lemma SideShorter(f: Frame, n: nat, t: nat, v: int, u: int)
    requires Side(f, t, v, u) && n <= f.lenLimit
    ensures Side(Onward(f, n), t, v, u)
  {
    if t == 0 {
      LeShorter(f.data, v - f.base, u - f.base, f.lenLimit, n);
    } else {
      LeShorter(f.data, u - f.base, v - f.base, f.lenLimit, n);
    }
  }

  // ---------------------------------------------------------------- shifting all positions

  function Reduced(v: int, sub: nat): int { if v <= sub then 0 else v - sub }

  function Normalized(son: seq<int>, sub: nat): (r: seq<int>)
    ensures |r| == |son| && forall i :: 0 <= i < |son| ==> r[i] == Reduced(son[i], sub)
  {
    seq(|son|, i requires 0 <= i < |son| => Reduced(son[i], sub))
  }

  /** The same window under positions that are less by sub. */
  function Shifted(f: Frame, sub: nat): Frame {
    f.(low := f.low - sub, base := f.base - sub, shift := f.shift + sub)
  }

  function ShiftedWalker(w: Walker, sub: nat): Walker {
    Walker(Normalized(w.son, sub), Reduced(w.m, sub), w.a - sub, w.b - sub, w.lenA, w.lenB)
  }

  method Normalize3(subValue: nat, items: array<int>)
    modifies items
    ensures items[..] == Normalized(old(items[..]), subValue)
  {
    var i := 0;
    while i < items.Length
      invariant 0 <= i <= items.Length
      invariant forall k :: 0 <= k < i ==> items[k] == Reduced(old(items[k]), subValue)
      invariant forall k :: i <= k < items.Length ==> items[k] == old(items[k])
    {
      var value := items[i];
      if value <= subValue {
        value := 0;
      } else {
        value := value - subValue;
      }
      items[i] := value;
      i := i + 1;
    }
  }

  lemma ShiftSlots(f: Frame, sub: nat, pos: int, q: int)
    requires f.size >= 1
    ensures Slot(Shifted(f, sub), q - sub) == Slot(f, q)
    ensures forall s :: 0 <= s <= 1 ==> Ptr(Shifted(f, sub), pos - sub, q - sub, s) == Ptr(f, pos, q, s)
  {
  }

  lemma ShiftUsable(f: Frame, pos: int, w: Walker, sub: nat)
    requires Usable(f, pos, w) && sub <= f.low
    ensures Usable(Shifted(f, sub), pos - sub, ShiftedWalker(w, sub))
  {
  }

  lemma ShiftUpdate(son: seq<int>, sub: nat, p: int, v: int)
    requires 0 <= p < |son|
    ensures Normalized(son, sub)[p := Reduced(v, sub)] == Normalized(son[p := v], sub)
  {
  }

  lemma ShiftEnds(f: Frame, pos: int, w: Walker, sub: nat)
    requires Usable(f, pos, w) && sub <= f.low
    ensures Closed(Shifted(f, sub), pos - sub, ShiftedWalker(w, sub)) == Normalized(Closed(f, pos, w), sub)
    ensures w.m > f.low ==> Replaced(Shifted(f, sub), pos - sub, ShiftedWalker(w, sub)) == Normalized(Replaced(f, pos, w), sub)
  {
    ShiftSlots(f, sub, pos, w.a);
    ShiftSlots(f, sub, pos, w.b);
    ShiftSlots(f, sub, pos, w.m);
    hide Slot, Ptr;
    var p, q := Ptr(f, pos, w.a, 0), Ptr(f, pos, w.b, 1);
    ShiftUpdate(w.son, sub, p, 0);
    ShiftUpdate(w.son[p := 0], sub, q, 0);
    if w.m > f.low {
      var x, y := Child(f, w.son, w.m, 0), Child(f, w.son, w.m, 1);
      ShiftUpdate(w.son, sub, p, x);
      ShiftUpdate(w.son[p := x], sub, q, y);
    }
  }

  lemma ShiftPut(f: Frame, pos: int, w: Walker, sub: nat, s: nat, len: nat)
    requires Usable(f, pos, w) && sub <= f.low < w.m && s <= 1
    ensures Put(Shifted(f, sub), pos - sub, ShiftedWalker(w, sub), s, len) == ShiftedWalker(Put(f, pos, w, s, len), sub)
  {
    ShiftSlots(f, sub, pos, Own(w, s));
    ShiftSlots(f, sub, pos, w.m);
    hide Slot, Ptr;
    ShiftUpdate(w.son, sub, Ptr(f, pos, Own(w, s), s), w.m);
  }

  /** After the shift a walk reports the same and leaves the same array, shifted. */
  lemma {:induction false} WalkShifted(f: Frame, pos: int, w: Walker, sub: nat, cut: nat, maxLen: nat, ds: seq<Match>)
    requires Usable(f, pos, w) && sub <= f.low
    requires Usable(Shifted(f, sub), pos - sub, ShiftedWalker(w, sub))
    ensures Walk(Shifted(f, sub), pos - sub, ShiftedWalker(w, sub), cut, maxLen, ds).1 == Walk(f, pos, w, cut, maxLen, ds).1
    ensures Walk(Shifted(f, sub), pos - sub, ShiftedWalker(w, sub), cut, maxLen, ds).0
         == Normalized(Walk(f, pos, w, cut, maxLen, ds).0, sub)
    decreases cut
  {
    hide Closed, Replaced, Put, Normalized, Noted;
    ShiftEnds(f, pos, w, sub);
    if cut > 0 && w.m > f.low {
      var len := Length(f, pos, w);
      if len < f.lenLimit {
        var s := SideOf(f, pos, w);
        PutUsable(f, pos, w, s, len);
        ShiftPut(f, pos, w, sub, s, len);
        ShiftUsable(f, pos, Put(f, pos, w, s, len), sub);
        WalkShifted(f, pos, Put(f, pos, w, s, len), sub, cut - 1, Longer(maxLen, len), Noted(ds, maxLen, len, pos - w.m - 1));
      }
    }
  }

  // ---------------------------------------------------------------- the loops

  /** The pair of a position that is `delta` back from the current one, as the code finds it. */
  lemma PairSlot(f: Frame, pos: int, m: int, cpos: int)
    requires f.size >= 1 && cpos == Slot(f, pos) && 0 < pos - m < f.size
    ensures cpos - (pos - m) + (if pos - m > cpos then f.size else 0) == Slot(f, m)
  {
    var q := (pos + f.shift) / f.size;
    assert pos + f.shift == q * f.size + cpos;
    if pos - m > cpos {
      assert (q - 1) * f.size == q * f.size - f.size;
      ModIs(m + f.shift, f.size, q - 1, cpos - (pos - m) + f.size);
    } else {
      ModIs(m + f.shift, f.size, q, cpos - (pos - m));
    }
  }

  /** How far the bytes agree from `len0` on; not at all if the first differ. */
  method Compare(data: seq<Byte>, pb: nat, cur: nat, len0: nat, lenLimit: nat) returns (len: nat)
    requires len0 < lenLimit && pb + lenLimit <= |data| && cur + lenLimit <= |data|
    ensures len == Extend(data, pb, cur, len0, lenLimit)
  {
    len := len0;
    if data[pb + len] == data[cur + len] {
      len := len + 1;
      while len != lenLimit
        invariant len0 < len <= lenLimit
        invariant Extend(data, pb, cur, len, lenLimit) == Extend(data, pb, cur, len0, lenLimit)
        decreases lenLimit - len
      {
        if data[pb + len] != data[cur + len] { break; }
        len := len + 1;
      }
    }
  }

  /** The variables of the loop are those of the walk. */
  ghost predicate Running(f: Frame, pos: int, w: Walker, ptr0: int, ptr1: int, len0: nat, len1: nat) {
    && Usable(f, pos, w) && w.m < pos && w.lenA == len1 < f.lenLimit && w.lenB == len0 < f.lenLimit
    && ptr1 == Ptr(f, pos, w.a, 0) && ptr0 == Ptr(f, pos, w.b, 1)
  }

  lemma RunningStart(f: Frame, nodes: set<int>, son: seq<int>, m: int, pos: int)
    requires Rooted(f, son, nodes, pos) && Entries(f, son, pos) && m < pos && (m > f.low ==> m in nodes) && f.lenLimit > 0
    ensures Usable(f, pos, Walker(son, m, pos, pos, 0, 0)) && WalkOk(f, son, nodes, pos, Walker(son, m, pos, pos, 0, 0))
    ensures Running(f, pos, Walker(son, m, pos, pos, 0, 0), 2 * Slot(f, pos) + 1, 2 * Slot(f, pos), 0, 0)
  {
    hide Sorted, Linked;
    WalkStart(f, son, nodes, pos, m);
    hide WalkOk, Slot;
  }

  /** What the loop's tests and accesses need. */
  lemma RunningSizes(f: Frame, pos: int, w: Walker, ptr0: int, ptr1: int, len0: nat, len1: nat)
    requires Running(f, pos, w, ptr0, ptr1, len0, len1)
    ensures f.size >= 1 && |w.son| == 2 * f.size && w.m < pos
    ensures pos - w.m >= f.size <==> w.m <= f.low
    ensures w.m > f.low ==> Min(len0, len1) < f.lenLimit && f.base <= w.m && pos - f.base + f.lenLimit <= |f.data|
    ensures w.m > f.low ==> Length(f, pos, w) == Extend(f.data, w.m - f.base, pos - f.base, Min(len0, len1), f.lenLimit)
    ensures w.m > f.low && Length(f, pos, w) < f.lenLimit ==>
      (SideOf(f, pos, w) == 0 <==> f.data[w.m - f.base + Length(f, pos, w)] < f.data[pos - f.base + Length(f, pos, w)])
  {
    hide Slot, Ptr;
  }

  /** Closing both pointers, or giving them the children of m, one after the other. */
  lemma RunningEnds(f: Frame, was: seq<int>, nodes: set<int>, pos: int, w: Walker, ptr0: int, ptr1: int, len0: nat, len1: nat, pair: int)
    requires Running(f, pos, w, ptr0, ptr1, len0, len1) && WalkOk(f, was, nodes, pos, w)
    ensures 0 <= ptr0 < |w.son| && 0 <= ptr1 < |w.son|
    ensures w.son[ptr1 := 0][ptr0 := 0] == Closed(f, pos, w)
    ensures w.m > f.low && pair == 2 * Slot(f, w.m) ==> 0 <= pair < |w.son| - 1
    ensures w.m > f.low && pair == 2 * Slot(f, w.m) ==>
      w.son[ptr1 := w.son[pair]][ptr0 := w.son[ptr1 := w.son[pair]][pair + 1]] == Replaced(f, pos, w)
  {
    hide WalkOk;
    OwnersApart(f, was, nodes, pos, w);
    if w.m > f.low {
      SlotApart(f, w.m, w.a);
      PtrApart2(f, pos, w);
    }
    hide Slot, Ptr, Entries;
    assert FrameOk(f, w.son) by { UsableFrame(f, pos, w); }
  }

  lemma UsableFrame(f: Frame, pos: int, w: Walker)
    requires Usable(f, pos, w)
    ensures FrameOk(f, w.son)
  {
  }

  lemma PtrApart2(f: Frame, pos: int, w: Walker)
    requires f.size >= 1 && Slot(f, w.m) != Slot(f, w.a)
    ensures Ptr(f, pos, w.a, 0) != 2 * Slot(f, w.m) + 1
  {
    hide Slot;
  }

  /** Going on, on either side. */
  lemma RunningStep(f: Frame, pos: int, w: Walker, ptr0: int, ptr1: int, len0: nat, len1: nat, pair: int, len: nat, s: nat)
    requires Running(f, pos, w, ptr0, ptr1, len0, len1) && w.m > f.low && pair == 2 * Slot(f, w.m) && len < f.lenLimit && s <= 1
    ensures FrameOk(f, w.son) && 0 <= ptr0 < |w.son| && 0 <= ptr1 < |w.son| && 0 <= pair < |w.son| - 1
    ensures s == 0 ==> Put(f, pos, w, 0, len).son == w.son[ptr1 := w.m]
    ensures s == 0 ==> Put(f, pos, w, 0, len).m == w.son[ptr1 := w.m][pair + 1]
    ensures s == 0 ==> Running(f, pos, Put(f, pos, w, 0, len), ptr0, pair + 1, len0, len)
    ensures s == 1 ==> Put(f, pos, w, 1, len).son == w.son[ptr0 := w.m]
    ensures s == 1 ==> Put(f, pos, w, 1, len).m == w.son[ptr0 := w.m][pair]
    ensures s == 1 ==> Running(f, pos, Put(f, pos, w, 1, len), pair, ptr1, len, len1)
  {
    PutUsable(f, pos, w, s, len);
    UsableFrame(f, pos, w);
    UsableSizes(f, pos, w);
    PutBelow(f, pos, w, s, len);
    MOpen(f, pos, w);
    hide Slot, Ptr, Entries;
  }

  lemma PutBelow(f: Frame, pos: int, w: Walker, s: nat, len: nat)
    requires Usable(f, pos, w) && w.m > f.low && s <= 1
    ensures Put(f, pos, w, s, len).m < pos
  {
    hide Slot, Ptr;
  }

  /** The walk down the tree; `cur` is where the current position's bytes are. */
  method GetMatchesSpec1(lenLimit: nat, curMatch0: int, pos: int, data: seq<Byte>, cur: nat, son: array<int>, cyclicBufferPos: nat,
                         cyclicBufferSize: nat, cutValue0: nat, distances0: seq<Match>, maxLen0: nat, ghost f: Frame,
                         ghost nodes: set<int>)
    returns (distances: seq<Match>)
    requires f.data == data && f.size == cyclicBufferSize && f.lenLimit == lenLimit && cur == pos - f.base
    requires Rooted(f, son[..], nodes, pos) && Entries(f, son[..], pos)
    requires curMatch0 < pos && (curMatch0 > f.low ==> curMatch0 in nodes)
    requires cyclicBufferPos == Slot(f, pos) && maxLen0 < lenLimit
    modifies son
    ensures FrameOk(f, old(son[..])) && FrameOk(f, son[..]) && Torn(f, old(son[..]), son[..], nodes, pos)
    ensures TrueMatches(f, pos, distances, |distances0|, maxLen0)
    ensures Usable(f, pos, Walker(old(son[..]), curMatch0, pos, pos, 0, 0))
    ensures (son[..], distances) == Walk(f, pos, Walker(old(son[..]), curMatch0, pos, pos, 0, 0), cutValue0, maxLen0, distances0)
  {
    hide Walk, Slot, Entries, Usable, Running, WalkOk, Rooted, Torn, Closed, Replaced, Put, Ptr, Length, SideOf, Extend, Same, Parted, TrueMatches;
    ghost var was: seq<int> := son[..];
    RunningStart(f, nodes, was, curMatch0, pos);
    var ptr0, ptr1 := 2 * cyclicBufferPos + 1, 2 * cyclicBufferPos;
    var len0: nat, len1: nat, curMatch, cutValue: nat, maxLen: nat := 0, 0, curMatch0, cutValue0, maxLen0;
    distances := distances0;
    ghost var w := Walker(was, curMatch, pos, pos, 0, 0);
    ghost var goal := Walk(f, pos, w, cutValue, maxLen, distances);
    WalkReports(f, was, nodes, pos, curMatch, cutValue, maxLen, distances);
    while true
      invariant w.son == son[..] && w.m == curMatch && Running(f, pos, w, ptr0, ptr1, len0, len1) && WalkOk(f, was, nodes, pos, w)
      invariant maxLen < lenLimit && Usable(f, pos, w)
      invariant goal == Walk(f, pos, w, cutValue, maxLen, distances)
      decreases cutValue
    {
      var delta := pos - curMatch;
      WalkUnfolds(f, pos, w, cutValue, maxLen, distances);
      RunningSizes(f, pos, w, ptr0, ptr1, len0, len1);
      RunningEnds(f, was, nodes, pos, w, ptr0, ptr1, len0, len1, 2 * Slot(f, curMatch));
      if cutValue == 0 || delta >= cyclicBufferSize {
        son[ptr1] := 0;
        son[ptr0] := 0;
        return;
      }
      cutValue := cutValue - 1;
      PairSlot(f, pos, curMatch, cyclicBufferPos);
      var pair := 2 * (cyclicBufferPos - delta + (if delta > cyclicBufferPos then cyclicBufferSize else 0));
      var len := Compare(data, cur - delta, cur, if len0 < len1 then len0 else len1, lenLimit);
      if maxLen < len {
        maxLen := len;
        distances := distances + [Match(len, delta - 1)];
        if len == lenLimit {
          son[ptr1] := son[pair];
          son[ptr0] := son[pair + 1];
          return;
        }
      }
      ghost var s := SideOf(f, pos, w);
      StepFacts(f, was, nodes, pos, w);
      PutOk(f, was, nodes, pos, w, s, len);
      RunningStep(f, pos, w, ptr0, ptr1, len0, len1, pair, len, s);
      w := Put(f, pos, w, s, len);
      if data[cur - delta + len] < data[cur + len] {
        son[ptr1] := curMatch;
        ptr1 := pair + 1;
        curMatch := son[ptr1];
        len1 := len;
      } else {
        son[ptr0] := curMatch;
        ptr0 := pair;
        curMatch := son[ptr0];
        len0 := len;
      }
    }
  }

  /** The same walk for a position whose matches are not wanted. */
  method SkipMatchesSpec(lenLimit: nat, curMatch0: int, pos: int, data: seq<Byte>, cur: nat, son: array<int>, cyclicBufferPos: nat,
                         cyclicBufferSize: nat, cutValue0: nat, ghost f: Frame, ghost nodes: set<int>)
    requires f.data == data && f.size == cyclicBufferSize && f.lenLimit == lenLimit && cur == pos - f.base && lenLimit > 0
    requires Rooted(f, son[..], nodes, pos) && Entries(f, son[..], pos)
    requires curMatch0 < pos && (curMatch0 > f.low ==> curMatch0 in nodes)
    requires cyclicBufferPos == Slot(f, pos)
    modifies son
    ensures FrameOk(f, old(son[..])) && FrameOk(f, son[..]) && Torn(f, old(son[..]), son[..], nodes, pos)
    ensures Usable(f, pos, Walker(old(son[..]), curMatch0, pos, pos, 0, 0))
    ensures son[..] == Walk(f, pos, Walker(old(son[..]), curMatch0, pos, pos, 0, 0), cutValue0, 0, []).0
  {
    hide Walk, Slot, Entries, Usable, Running, WalkOk, Rooted, Torn, Closed, Replaced, Put, Ptr, Length, SideOf, Extend, Same, Parted, TrueMatches;
    ghost var was: seq<int> := son[..];
    RunningStart(f, nodes, was, curMatch0, pos);
    var ptr0, ptr1 := 2 * cyclicBufferPos + 1, 2 * cyclicBufferPos;
    var len0: nat, len1: nat, curMatch, cutValue: nat := 0, 0, curMatch0, cutValue0;
    ghost var w, ds: seq<Match>, maxLen: nat := Walker(was, curMatch, pos, pos, 0, 0), [], 0;
    ghost var goal := Walk(f, pos, w, cutValue, maxLen, ds);
    WalkReports(f, was, nodes, pos, curMatch, cutValue, maxLen, ds);
    while true
      invariant w.son == son[..] && w.m == curMatch && Running(f, pos, w, ptr0, ptr1, len0, len1) && WalkOk(f, was, nodes, pos, w)
      invariant Usable(f, pos, w)
      invariant goal == Walk(f, pos, w, cutValue, maxLen, ds)
      decreases cutValue
    {
      var delta := pos - curMatch;
      WalkUnfolds(f, pos, w, cutValue, maxLen, ds);
      RunningSizes(f, pos, w, ptr0, ptr1, len0, len1);
      RunningEnds(f, was, nodes, pos, w, ptr0, ptr1, len0, len1, 2 * Slot(f, curMatch));
      if cutValue == 0 || delta >= cyclicBufferSize {
        son[ptr1] := 0;
        son[ptr0] := 0;
        return;
      }
      cutValue := cutValue - 1;
      PairSlot(f, pos, curMatch, cyclicBufferPos);
      var pair := 2 * (cyclicBufferPos - delta + (if delta > cyclicBufferPos then cyclicBufferSize else 0));
      var len := Compare(data, cur - delta, cur, if len0 < len1 then len0 else len1, lenLimit);
      if len == lenLimit {
        son[ptr1] := son[pair];
        son[ptr0] := son[pair + 1];
        return;
      }
      ds, maxLen := Noted(ds, maxLen, len, delta - 1), Longer(maxLen, len);
      ghost var s := SideOf(f, pos, w);
      StepFacts(f, was, nodes, pos, w);
      PutOk(f, was, nodes, pos, w, s, len);
      RunningStep(f, pos, w, ptr0, ptr1, len0, len1, pair, len, s);
      w := Put(f, pos, w, s, len);
      if data[cur - delta + len] < data[cur + len] {
        son[ptr1] := curMatch;
        ptr1 := pair + 1;
        curMatch := son[ptr1];
        len1 := len;
      } else {
        son[ptr0] := curMatch;
        ptr0 := pair;
        curMatch := son[ptr0];
        len0 := len;
      }
    }
  }

  /** What is reported depends on the length to beat; what is left does not. */
  lemma {:induction false} WalkLeaves(f: Frame, pos: int, w: Walker, cut: nat, maxLen: nat, ds: seq<Match>, maxLen2: nat, ds2: seq<Match>)
    requires Usable(f, pos, w)
    ensures Walk(f, pos, w, cut, maxLen, ds).0 == Walk(f, pos, w, cut, maxLen2, ds2).0
    decreases cut
  {
    hide Closed, Replaced, Put, Noted, Entries;
    if cut > 0 && w.m > f.low {
      var len := Length(f, pos, w);
      if len < f.lenLimit {
        var s := SideOf(f, pos, w);
        UsableSizes(f, pos, w);
        PutUsable(f, pos, w, s, len);
        WalkLeaves(f, pos, Put(f, pos, w, s, len), cut - 1, Longer(maxLen, len), Noted(ds, maxLen, len, pos - w.m - 1),
                   Longer(maxLen2, len), Noted(ds2, maxLen2, len, pos - w.m - 1));
      }
    }
  }

  lemma WalkReports(f: Frame, son: seq<int>, nodes: set<int>, pos: int, m: int, cut: nat, maxLen: nat, ds: seq<Match>)
    requires Rooted(f, son, nodes, pos) && Entries(f, son, pos) && m < pos && (m > f.low ==> m in nodes) && f.lenLimit > 0
    ensures FrameOk(f, son) && Usable(f, pos, Walker(son, m, pos, pos, 0, 0))
    ensures Torn(f, son, Walk(f, pos, Walker(son, m, pos, pos, 0, 0), cut, maxLen, ds).0, nodes, pos)
    ensures TrueMatches(f, pos, Walk(f, pos, Walker(son, m, pos, pos, 0, 0), cut, maxLen, ds).1, |ds|, maxLen)
  {
    RunningStart(f, nodes, son, m, pos);
    hide Rooted, Entries, WalkOk, Torn, Walk, TrueMatch;
    WalkFinds(f, son, nodes, pos, Walker(son, m, pos, pos, 0, 0), cut, maxLen, ds, |ds|, maxLen);
  }

  lemma WalkUnfolds(f: Frame, pos: int, w: Walker, cut: nat, maxLen: nat, ds: seq<Match>)
    requires Usable(f, pos, w)
    ensures FrameOk(f, w.son)
    ensures cut == 0 || w.m <= f.low ==> Walk(f, pos, w, cut, maxLen, ds) == (Closed(f, pos, w), ds)
    ensures cut > 0 && w.m > f.low && Length(f, pos, w) == f.lenLimit ==>
      Walk(f, pos, w, cut, maxLen, ds) == (Replaced(f, pos, w), Noted(ds, maxLen, f.lenLimit, pos - w.m - 1))
    ensures cut > 0 && w.m > f.low && Length(f, pos, w) < f.lenLimit ==>
      Usable(f, pos, Put(f, pos, w, SideOf(f, pos, w), Length(f, pos, w))) &&
      Walk(f, pos, w, cut, maxLen, ds)
      == Walk(f, pos, Put(f, pos, w, SideOf(f, pos, w), Length(f, pos, w)), cut - 1, Longer(maxLen, Length(f, pos, w)),
              Noted(ds, maxLen, Length(f, pos, w), pos - w.m - 1))
  {
    hide Closed, Replaced, Noted, Length, SideOf, Put, Ptr, Slot;
    if cut > 0 && w.m > f.low && Length(f, pos, w) < f.lenLimit {
      PutUsable(f, pos, w, SideOf(f, pos, w), Length(f, pos, w));
    }
  }
}
