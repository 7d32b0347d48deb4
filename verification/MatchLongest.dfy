/** What the walk of the match finder does not miss: unless it is cut short, its last report is as long as any match in the tree. */
module MatchLongest {
  import opened Bytes
  import opened MatchTree
  import opened MatchWalk
  import opened MatchFinder

  /** The walk comes to its end before its steps run out. */
  ghost predicate Ends(f: Frame, pos: int, w: Walker, cut: nat)
    requires Usable(f, pos, w)
    decreases cut
  {
    w.m <= f.low || (cut > 0 && (Length(f, pos, w) == f.lenLimit || EndsAfter(f, pos, w, cut)))
  }

  ghost predicate EndsAfter(f: Frame, pos: int, w: Walker, cut: nat)
    requires Usable(f, pos, w) && w.m > f.low && cut > 0 && Length(f, pos, w) < f.lenLimit
    decreases cut, 0
  {
    PutUsable(f, pos, w, SideOf(f, pos, w), Length(f, pos, w));
    Ends(f, pos, Put(f, pos, w, SideOf(f, pos, w), Length(f, pos, w)), cut - 1)
  }

  /** The bytes at v and at pos agree for n bytes, within what is compared. */
  ghost predicate Agree(f: Frame, pos: int, v: int, n: nat) {
    f.base <= v && f.base <= pos && n <= f.lenLimit && Same(f.data, v - f.base, pos - f.base, n)
  }

  lemma SameUpTo(data: seq<Byte>, i: nat, j: nat, n: nat, len: nat)
    requires Same(data, i, j, n) && i + len < |data| && j + len < |data| && data[i + len] != data[j + len]
    ensures n <= len
  {
  }

  /** m itself agrees no longer than the walk finds. */
  lemma NodeCounts(f: Frame, was: seq<int>, nodes: set<int>, pos: int, w: Walker, n: nat)
    requires WalkOk(f, was, nodes, pos, w) && Usable(f, pos, w) && w.m > f.low && Agree(f, pos, w.m, n)
    ensures n <= Length(f, pos, w)
  {
    hide WalkOk, Same, Entries, Length;
    UsableSizes(f, pos, w);
    LengthIs(f, was, nodes, pos, w);
    var len := Length(f, pos, w);
    if len < f.lenLimit {
      SameUpTo(f.data, w.m - f.base, pos - f.base, n, len);
    }
  }

  lemma LengthIs(f: Frame, was: seq<int>, nodes: set<int>, pos: int, w: Walker)
    requires WalkOk(f, was, nodes, pos, w) && Usable(f, pos, w) && w.m > f.low
    ensures f.base <= w.m < pos && f.base <= pos && pos - f.base + f.lenLimit <= |f.data|
    ensures var len := Length(f, pos, w);
      len < f.lenLimit ==> f.data[w.m - f.base + len] != f.data[pos - f.base + len]
  {
    hide WalkOk, Same, Entries;
    UsableSizes(f, pos, w);
    LeftAgrees(f, was, nodes, pos, w);
    ExtendSame(f.data, w.m - f.base, pos - f.base, Min(w.lenA, w.lenB), f.lenLimit);
  }

  /** What is on the side of m that the walk leaves agrees no longer than m: m lies between it and pos. */
  lemma SideCounts(f: Frame, was: seq<int>, nodes: set<int>, pos: int, w: Walker, v: int, n: nat)
    requires WalkOk(f, was, nodes, pos, w) && Usable(f, pos, w) && w.m > f.low && Length(f, pos, w) < f.lenLimit
    requires FrameOk(f, was) && v in ChildBelow(f, was, nodes, w.m, SideOf(f, pos, w)) && Agree(f, pos, v, n)
    ensures n <= Length(f, pos, w)
  {
    var s := SideOf(f, pos, w);
    StepFacts(f, was, nodes, pos, w);
    WalkTree(f, was, nodes, pos, w);
    PartedSide(f, s, w.m, pos, Length(f, pos, w));
    SortedSide(f, was, nodes, w.m, v, s);
    Nearer(f, s, v, w.m, pos, n);
    NodeCounts(f, was, nodes, pos, w, n);
  }

  lemma WalkTree(f: Frame, was: seq<int>, nodes: set<int>, pos: int, w: Walker)
    requires WalkOk(f, was, nodes, pos, w)
    ensures FrameOk(f, was) && Sorted(f, was, nodes) && (w.m > f.low ==> w.m in nodes)
  {
    hide Refines, SideOk, Sorted, Linked, Placed;
  }

  lemma Nearer(f: Frame, s: nat, v: int, m: int, pos: int, n: nat)
    requires s <= 1 && Side(f, s, v, m) && Side(f, s, m, pos) && Agree(f, pos, v, n)
    ensures Agree(f, pos, m, n)
  {
    var i, k, j := v - f.base, m - f.base, pos - f.base;
    if s == 0 {
      Between(f.data, i, k, j, f.lenLimit, n);
      SameVia(f.data, k, j, i, n);
    } else {
      SameTurned(f.data, i, j, n);
      Between(f.data, j, k, i, f.lenLimit, n);
      SameTurned(f.data, j, k, n);
    }
  }

  /** The length to beat only grows. */
  lemma {:induction false} WalkGrows(f: Frame, pos: int, w: Walker, cut: nat, maxLen: nat, ds: seq<Match>, from: nat, least: nat)
    requires Usable(f, pos, w) && from <= |ds| && maxLen == LastLen(ds, from, least)
    ensures from <= |Walk(f, pos, w, cut, maxLen, ds).1| && maxLen <= LastLen(Walk(f, pos, w, cut, maxLen, ds).1, from, least)
    decreases cut
  {
    hide Usable, Closed, Replaced, Put, Length, SideOf;
    if cut > 0 && w.m > f.low {
      var len := Length(f, pos, w);
      if len < f.lenLimit {
        var s := SideOf(f, pos, w);
        UsableSizes(f, pos, w);
        PutUsable(f, pos, w, s, len);
        WalkGrows(f, pos, Put(f, pos, w, s, len), cut - 1, Longer(maxLen, len), Noted(ds, maxLen, len, pos - w.m - 1), from, least);
      }
    }
  }

  /** A position of the tree is m, on the side that the walk leaves, or on the side where it goes on. */
  lemma WhereBelow(f: Frame, was: seq<int>, nodes: set<int>, pos: int, w: Walker, v: int, s: nat, len: nat)
    requires WalkOk(f, was, nodes, pos, w) && FrameOk(f, was) && v in Below(f, was, nodes, w.m) && s <= 1 && w.m > f.low
    ensures FrameOk(f, w.son)
    ensures v == w.m || v in ChildBelow(f, was, nodes, w.m, s) || v in Below(f, was, nodes, Put(f, pos, w, s, len).m)
  {
    hide Refines, SideOk, Sorted, Linked, Placed;
    WalkSizes(f, was, nodes, pos, w, 1 - s);
    PutArray(f, was, nodes, pos, w, s, len);
  }

  /** One step of the walk leaves the longest match either found or still in the tree. */
  lemma {:induction false} WalkLongest(f: Frame, was: seq<int>, nodes: set<int>, pos: int, w: Walker, cut: nat, maxLen: nat,
                                       ds: seq<Match>, from: nat, least: nat, v: int, n: nat)
    requires WalkOk(f, was, nodes, pos, w) && Usable(f, pos, w) && Ends(f, pos, w, cut)
    requires from <= |ds| && maxLen == LastLen(ds, from, least)
    requires FrameOk(f, was) && v in Below(f, was, nodes, w.m) && Agree(f, pos, v, n)
    ensures n <= LastLen(Walk(f, pos, w, cut, maxLen, ds).1, from, least)
    decreases cut
  {
    hide WalkOk, Usable, Closed, Replaced, Put, Length, SideOf, Below, ChildBelow, Agree;
    assert w.m > f.low by { InTree(f, was, nodes, w.m, v); }
    UsableSizes(f, pos, w);
    var len := Length(f, pos, w);
    var ds2 := Noted(ds, maxLen, len, pos - w.m - 1);
    AgreeLimit(f, pos, v, n);
    if len < f.lenLimit {
      var s := SideOf(f, pos, w);
      PutUsable(f, pos, w, s, len);
      WhereBelow(f, was, nodes, pos, w, v, s, len);
      var w2 := Put(f, pos, w, s, len);
      WalkGrows(f, pos, w2, cut - 1, Longer(maxLen, len), ds2, from, least);
      if v == w.m {
        NodeCounts(f, was, nodes, pos, w, n);
      } else if v in ChildBelow(f, was, nodes, w.m, s) {
        SideCounts(f, was, nodes, pos, w, v, n);
      } else {
        StepFacts(f, was, nodes, pos, w);
        PutOk(f, was, nodes, pos, w, s, len);
        WalkLongest(f, was, nodes, pos, w2, cut - 1, Longer(maxLen, len), ds2, from, least, v, n);
      }
    }
  }

  lemma InTree(f: Frame, was: seq<int>, nodes: set<int>, q: int, v: int)
    requires FrameOk(f, was) && v in Below(f, was, nodes, q)
    ensures q > f.low
  {
  }

  lemma AgreeLimit(f: Frame, pos: int, v: int, n: nat)
    requires Agree(f, pos, v, n)
    ensures n <= f.lenLimit
  {
  }

  /**
   * From the top: unless the walk is cut short, no position of the tree agrees longer with the current one, up to the
   * limit, than the last match reported, or, if there is none, than the length to beat.
   */
  lemma NoneLonger(f: Frame, son: seq<int>, nodes: set<int>, pos: int, m: int, cut: nat, maxLen: nat, v: int, n: nat)
    requires Rooted(f, son, nodes, pos) && Entries(f, son, pos) && m < pos && (m > f.low ==> m in nodes) && f.lenLimit > 0
    requires Usable(f, pos, Walker(son, m, pos, pos, 0, 0)) && Ends(f, pos, Walker(son, m, pos, pos, 0, 0), cut)
    requires v in Below(f, son, nodes, m) && Agree(f, pos, v, n)
    ensures n <= LastLen(Walk(f, pos, Walker(son, m, pos, pos, 0, 0), cut, maxLen, []).1, 0, maxLen)
  {
    RunningStart(f, nodes, son, m, pos);
    hide Rooted, Entries, WalkOk, Walk, Ends, Agree, Below;
    WalkLongest(f, son, nodes, pos, Walker(son, m, pos, pos, 0, 0), cut, maxLen, [], 0, maxLen, v, n);
  }
}
