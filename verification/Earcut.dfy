/**
 * Ear slicing: when three neighbours of a polygon ring form an ear, with and without the z-order index,
 * and the loop that cuts ears off.
 */
module Earcut {
  import opened Permutations
  import opened Doubles
  import opened EarcutNodes
  import opened EarcutOrder
  import opened EarcutSort

  // ---------------------------------------------------------------- geometry

  /** Twice the signed area, as computed: every difference and product is rounded. */
  function Area(p: Node, q: Node, r: Node): real {
    Cross(Sub(q.y, p.y), Sub(r.x, q.x), Sub(q.x, p.x), Sub(r.y, q.y))
  }

  predicate PointInTriangle(a: Node, b: Node, c: Node, p: Node) {
    && Cross(Sub(c.x, p.x), Sub(a.y, p.y), Sub(a.x, p.x), Sub(c.y, p.y)) >= 0.0
    && Cross(Sub(a.x, p.x), Sub(b.y, p.y), Sub(b.x, p.x), Sub(a.y, p.y)) >= 0.0
    && Cross(Sub(b.x, p.x), Sub(c.y, p.y), Sub(c.x, p.x), Sub(b.y, p.y)) >= 0.0
  }

  /** Coordinates for which all this is exact: multiples of 2^k by integers of 25 bits. */
  predicate Whole(p: Node, k: int) {
    Small(p.x, k) && Small(p.y, k)
  }

  predicate AllWhole(r: seq<Node>, k: int) {
    forall p :: p in r ==> Whole(p, k)
  }

  /** All coordinates are on one such grid. */
  ghost predicate OneGrid(r: seq<Node>) {
    exists k: int :: AllWhole(r, k)
  }

  lemma SubGrid(r: seq<Node>, t: seq<Node>)
    requires OneGrid(r) && forall p :: p in t ==> p in r
    ensures OneGrid(t)
  {
    hide Whole;
    var k: int :| AllWhole(r, k);
    assert AllWhole(t, k);
  }

  lemma CrossIs(a: real, b: real, c: real, d: real, e: real, f: real, g: real, h: real, k: int)
    requires Small(a, k) && Small(b, k) && Small(c, k) && Small(d, k) && Small(e, k) && Small(f, k) && Small(g, k) && Small(h, k)
    ensures Cross(Sub(a, b), Sub(c, d), Sub(e, f), Sub(g, h)) == (a - b) * (c - d) - (e - f) * (g - h)
  {
    hide Cross, Sub, Small, Grid;
    var s := SubExact(a, b, k);
    var t := SubExact(c, d, k);
    var u := SubExact(e, f, k);
    var v := SubExact(g, h, k);
    CrossExact(s, t, u, v, k);
  }

  function Min3(a: real, b: real, c: real): real {
    if a < b then (if a < c then a else c) else (if b < c then b else c)
  }

  function Max3(a: real, b: real, c: real): real {
    if a > b then (if a > c then a else c) else (if b > c then b else c)
  }

  /** Weights that balance around 0 have it between the least and the greatest. */
  lemma Balanced(u: real, v: real, w: real, a: real, b: real, c: real)
    requires u >= 0.0 && v >= 0.0 && w >= 0.0 && u + v + w > 0.0 && w * a + u * b + v * c == 0.0
    ensures Min3(a, b, c) <= 0.0 <= Max3(a, b, c)
  {
    if Min3(a, b, c) > 0.0 {
      Positive(u, v, w, a, b, c);
    } else if Max3(a, b, c) < 0.0 {
      Positive(u, v, w, -a, -b, -c);
    }
  }

  lemma Positive(u: real, v: real, w: real, a: real, b: real, c: real)
    requires u >= 0.0 && v >= 0.0 && w >= 0.0 && u + v + w > 0.0 && a > 0.0 && b > 0.0 && c > 0.0
    ensures w * a + u * b + v * c > 0.0
  {
    var m := Min3(a, b, c);
    Weighted(w, a, m);
    Weighted(u, b, m);
    Weighted(v, c, m);
    assert w * m + u * m + v * m == (u + v + w) * m;
    PositiveProduct(u + v + w, m);
  }

  lemma Weighted(w: real, a: real, m: real)
    requires w >= 0.0 && a >= m
    ensures w * a >= w * m
  {
    Scales(m, a, w);
  }

  lemma PositiveProduct(s: real, t: real)
    requires s > 0.0 && t > 0.0
    ensures s * t > 0.0
  {
  }

  /** Each coordinate of p is balanced by the signed areas it spans with the sides, which add up to the whole. */
  lemma Balance(a1: real, a2: real, b1: real, b2: real, c1: real, c2: real)
    ensures (b1 * c2 - c1 * b2) * a1 + (c1 * a2 - a1 * c2) * b1 + (a1 * b2 - b1 * a2) * c1 == 0.0
    ensures (b1 * c2 - c1 * b2) * a2 + (c1 * a2 - a1 * c2) * b2 + (a1 * b2 - b1 * a2) * c2 == 0.0
    ensures (c1 * a2 - a1 * c2) + (a1 * b2 - b1 * a2) + (b1 * c2 - c1 * b2) == -((b2 - a2) * (c1 - b1) - (b1 - a1) * (c2 - b2))
  {
  }

  /** A point of a triangle is in its box. */
  lemma InBox(a: Node, b: Node, c: Node, p: Node, k: int)
    requires Whole(a, k) && Whole(b, k) && Whole(c, k) && Whole(p, k) && Area(a, b, c) < 0.0 && PointInTriangle(a, b, c, p)
    ensures Min3(a.x, b.x, c.x) <= p.x <= Max3(a.x, b.x, c.x)
    ensures Min3(a.y, b.y, c.y) <= p.y <= Max3(a.y, b.y, c.y)
  {
    hide Cross, Sub, Small;
    CrossIs(b.y, a.y, c.x, b.x, b.x, a.x, c.y, b.y, k);
    CrossIs(c.x, p.x, a.y, p.y, a.x, p.x, c.y, p.y, k);
    CrossIs(a.x, p.x, b.y, p.y, b.x, p.x, a.y, p.y, k);
    CrossIs(b.x, p.x, c.y, p.y, c.x, p.x, b.y, p.y, k);
    BoxExact(a, b, c, p);
  }

  lemma BoxExact(a: Node, b: Node, c: Node, p: Node)
    requires (b.y - a.y) * (c.x - b.x) - (b.x - a.x) * (c.y - b.y) < 0.0
    requires (c.x - p.x) * (a.y - p.y) - (a.x - p.x) * (c.y - p.y) >= 0.0
    requires (a.x - p.x) * (b.y - p.y) - (b.x - p.x) * (a.y - p.y) >= 0.0
    requires (b.x - p.x) * (c.y - p.y) - (c.x - p.x) * (b.y - p.y) >= 0.0
    ensures Min3(a.x, b.x, c.x) <= p.x <= Max3(a.x, b.x, c.x)
    ensures Min3(a.y, b.y, c.y) <= p.y <= Max3(a.y, b.y, c.y)
  {
    var a1, a2, b1, b2, c1, c2 := a.x - p.x, a.y - p.y, b.x - p.x, b.y - p.y, c.x - p.x, c.y - p.y;
    var u, v, w := c1 * a2 - a1 * c2, a1 * b2 - b1 * a2, b1 * c2 - c1 * b2;
    Balance(a1, a2, b1, b2, c1, c2);
    assert b2 - a2 == b.y - a.y && c1 - b1 == c.x - b.x && b1 - a1 == b.x - a.x && c2 - b2 == c.y - b.y;
    assert u + v + w == -((b.y - a.y) * (c.x - b.x) - (b.x - a.x) * (c.y - b.y));
    Balanced(u, v, w, a1, b1, c1);
    Balanced(u, v, w, a2, b2, c2);
  }

  // ---------------------------------------------------------------- ears

  /** p keeps the triangle from being an ear: a reflex or straight vertex inside it. */
  ghost predicate Blocking(a: Node, b: Node, c: Node, p: Node)
    reads p
  {
    PointInTriangle(a, b, c, p) && p.prev != null && p.next != null && Area(p.prev, p, p.next) >= 0.0
  }

  /** The first node of the ring is the tip of an ear. */
  ghost predicate IsEarTip(r: seq<Node>)
    requires |r| >= 3
    reads r
  {
    && Area(r[|r| - 1], r[0], r[1]) < 0.0
    && forall p :: p in r && p != r[|r| - 1] && p != r[0] && p != r[1] ==> !Blocking(r[|r| - 1], r[0], r[1], p)
  }

  method IsEar(ear: Node, ghost r: seq<Node>) returns (b: bool)
    requires Ring(r) && |r| >= 3 && r[0] == ear
    ensures b == IsEarTip(r)
  {
    hide Area, PointInTriangle;
    assert RingAt(r, 0) && RingAt(r, 1);
    var a, c := ear.prev, ear.next;
    if Area(a, ear, c) >= 0.0 { return false; }
    var p := ear.next.next;
    ghost var k := 2;
    while p != ear.prev
      invariant 2 <= k <= |r| - 1 && p == r[k]
      invariant forall i :: 2 <= i < k ==> !Blocking(a, ear, c, r[i])
      decreases |r| - k
    {
      assert RingAt(r, k);
      assert r[k - 1].next == p by { assert RingAt(r, k - 1); }
      if PointInTriangle(a, ear, c, p) && Area(p.prev, p, p.next) >= 0.0 {
        assert Blocking(a, ear, c, p) && p in r && p != r[|r| - 1] && p != r[0] && p != r[1];
        return false;
      }
      p := p.next;
      k := k + 1;
    }
    forall q | q in r && q != r[|r| - 1] && q != r[0] && q != r[1] ensures !Blocking(a, ear, c, q) {
      var i :| 0 <= i < |r| && r[i] == q;
    }
    return true;
  }

  // ---------------------------------------------------------------- with the index

  /** The box all points are in: its corner and the inverse of its longer side. */
  datatype Box = Box(minX: real, minY: real, invSize: real)

  predicate InsideBox(p: Node, box: Box) {
    Inside(p.x, box.minX, box.invSize) && Inside(p.y, box.minY, box.invSize)
  }

  /** p is in the box, and its order is known. */
  ghost predicate Coded(p: Node, box: Box)
    reads p`z
  {
    InsideBox(p, box) && p.z == ZOrder(p.x, p.y, box.minX, box.minY, box.invSize)
  }

  /** The ring's nodes are listed in z-order. */
  ghost predicate Indexed(r: seq<Node>, s: seq<Node>, box: Box)
    reads r, s
  {
    && ZList(s) && Sorted(s) && SameNodes(r, s)
    && forall p :: p in r ==> Coded(p, box)
  }

  /** The nodes between places i and j of the list, but for place e, do not block the ear. */
  ghost predicate Clear(a: Node, b: Node, c: Node, s: seq<Node>, i: int, j: int, e: int)
    reads s
  {
    forall k :: i < k < j && 0 <= k < |s| && k != e ==> s[k] == a || s[k] == c || !Blocking(a, b, c, s[k])
  }

  /** Points of the triangle have an order between those of its box's corners. */
  lemma OrderInBox(a: Node, b: Node, c: Node, p: Node, box: Box, k: int)
    requires InsideBox(a, box) && InsideBox(b, box) && InsideBox(c, box) && InsideBox(p, box)
    requires Whole(a, k) && Whole(b, k) && Whole(c, k) && Whole(p, k) && Area(a, b, c) < 0.0 && PointInTriangle(a, b, c, p)
    ensures Inside(Min3(a.x, b.x, c.x), box.minX, box.invSize) && Inside(Min3(a.y, b.y, c.y), box.minY, box.invSize)
    ensures Inside(Max3(a.x, b.x, c.x), box.minX, box.invSize) && Inside(Max3(a.y, b.y, c.y), box.minY, box.invSize)
    ensures ZOrder(Min3(a.x, b.x, c.x), Min3(a.y, b.y, c.y), box.minX, box.minY, box.invSize)
         <= ZOrder(p.x, p.y, box.minX, box.minY, box.invSize)
         <= ZOrder(Max3(a.x, b.x, c.x), Max3(a.y, b.y, c.y), box.minX, box.minY, box.invSize)
  {
    InBox(a, b, c, p, k);
    hide ZOrder, PointInTriangle, Area, Inside;
    ZOrderRises(Min3(a.x, b.x, c.x), Min3(a.y, b.y, c.y), p.x, p.y, box.minX, box.minY, box.invSize);
    ZOrderRises(p.x, p.y, Max3(a.x, b.x, c.x), Max3(a.y, b.y, c.y), box.minX, box.minY, box.invSize);
  }

  /** The orders of the corners of the triangle's box. */
  ghost function Range(a: Node, b: Node, c: Node, box: Box): (nat, nat) {
    if CornersIn(a, b, c, box) then
      (ZOrder(Min3(a.x, b.x, c.x), Min3(a.y, b.y, c.y), box.minX, box.minY, box.invSize),
       ZOrder(Max3(a.x, b.x, c.x), Max3(a.y, b.y, c.y), box.minX, box.minY, box.invSize))
    else (0, 0)
  }

  /** p's order is one that points of the box may have. */
  ghost predicate Near(a: Node, b: Node, c: Node, p: Node, box: Box)
    reads p`z
  {
    Range(a, b, c, box).0 <= p.z <= Range(a, b, c, box).1
  }

  /** The first node is the tip of an ear as far as the index shows. */
  ghost predicate IsEarWithin(r: seq<Node>, box: Box)
    requires |r| >= 3
    reads r
  {
    && Area(r[|r| - 1], r[0], r[1]) < 0.0
    && forall p :: p in r && p != r[|r| - 1] && p != r[0] && p != r[1] && Near(r[|r| - 1], r[0], r[1], p, box) ==> !Blocking(r[|r| - 1], r[0], r[1], p)
  }

  /** Where the arithmetic is exact the index hides nothing. */
  lemma SameTip(r: seq<Node>, box: Box)
    requires |r| >= 3 && OneGrid(r) && forall p :: p in r ==> Coded(p, box)
    ensures IsEarWithin(r, box) == IsEarTip(r)
  {
    hide ZOrder, Inside, PointInTriangle, Area, Whole;
    var k: int :| AllWhole(r, k);
    var a, b, c := r[|r| - 1], r[0], r[1];
    assert a in r && b in r && c in r;
    if IsEarWithin(r, box) {
      forall p | p in r && p != a && p != b && p != c ensures !Blocking(a, b, c, p) {
        if PointInTriangle(a, b, c, p) { OrderInBox(a, b, c, p, box, k); }
      }
    }
  }

  /** Ring, list, and the ear's place in both. */
  ghost predicate Scene(r: seq<Node>, s: seq<Node>, box: Box, e: nat)
    reads r, s
  {
    Ring(r) && |r| >= 3 && Indexed(r, s, box) && e < |s| && s[e] == r[0]
  }

  method IsEarHashed(ear: Node, box: Box, ghost r: seq<Node>, ghost s: seq<Node>) returns (b: bool)
    requires Ring(r) && |r| >= 3 && r[0] == ear && Indexed(r, s, box)
    ensures b == IsEarWithin(r, box)
  {
    hide ZOrder, Inside, PointInTriangle, Area, Indexed, IsEarWithin, Blocking, Clear, Ring, Scene;
    RingNext(r);
    var a, c := ear.prev, ear.next;
    if Area(a, ear, c) >= 0.0 {
      EarArea(r, box);
      return false;
    }
    ghost var e := EarPlace(r, s, box);
    CornersInside(r, s, box);
    EarNear(r, s, box, e);
    var minZ := ZOrder(Min3(a.x, ear.x, c.x), Min3(a.y, ear.y, c.y), box.minX, box.minY, box.invSize);
    var maxZ := ZOrder(Max3(a.x, ear.x, c.x), Max3(a.y, ear.y, c.y), box.minX, box.minY, box.invSize);
    ListAt(r, s, box, e, e);
    var p, n := ear.prevZ, ear.nextZ;
    ghost var i, j := e - 1, e + 1;
    var blocked;
    while p != null && p.z >= minZ && n != null && n.z <= maxZ
      invariant -1 <= i < e < j <= |s| && p == NodeAt(s, i) && n == NodeAt(s, j) && Clear(a, ear, c, s, i, j, e)
      decreases i + (|s| - j)
    {
      blocked := Blocks(a, ear, c, p, r, s, box, e, i, minZ, maxZ);
      if blocked { return false; }
      p := p.prevZ;
      blocked := Blocks(a, ear, c, n, r, s, box, e, j, minZ, maxZ);
      if blocked { return false; }
      n := n.nextZ;
      ClearMore(a, ear, c, s, i, j, e);
      i, j := i - 1, j + 1;
    }
    while p != null && p.z >= minZ
      invariant -1 <= i < e && p == NodeAt(s, i) && Clear(a, ear, c, s, i, j, e)
      decreases i
    {
      blocked := Blocks(a, ear, c, p, r, s, box, e, i, minZ, maxZ);
      if blocked { return false; }
      p := p.prevZ;
      ClearDown(a, ear, c, s, i, j, e);
      i := i - 1;
    }
    while n != null && n.z <= maxZ
      invariant e < j <= |s| && n == NodeAt(s, j) && Clear(a, ear, c, s, i, j, e)
      decreases |s| - j
    {
      blocked := Blocks(a, ear, c, n, r, s, box, e, j, minZ, maxZ);
      if blocked { return false; }
      n := n.nextZ;
      ClearUp(a, ear, c, s, i, j, e);
      j := j + 1;
    }
    AllClear(r, s, box, e, i, j, minZ, maxZ);
    return true;
  }

  /** The test of one node met in the list. */
  method Blocks(a: Node, ear: Node, c: Node, p: Node, ghost r: seq<Node>, ghost s: seq<Node>, ghost box: Box, ghost e: nat, ghost k: int,
                ghost minZ: nat, ghost maxZ: nat)
    returns (b: bool)
    requires Scene(r, s, box, e) && a == NodeAt(r, |r| - 1) && ear == NodeAt(r, 0) && c == NodeAt(r, 1)
    requires 0 <= k < |s| && p == s[k] && k != e && (minZ, maxZ) == Range(a, ear, c, box) && minZ <= ear.z <= maxZ
    requires if k < e then minZ <= p.z else p.z <= maxZ
    ensures b ==> |r| >= 3 && !IsEarWithin(r, box)
    ensures !b ==> p == a || p == c || !Blocking(a, ear, c, p)
    ensures p.prevZ == NodeAt(s, k - 1) && p.nextZ == NodeAt(s, k + 1)
  {
    hide Scene, Range, IsEarWithin, Near, Coded, PointInTriangle, Area;
    ListAt(r, s, box, e, k);
    InRing(r, s, box, e, k);
    RingNextIn(r, s, box, e);
    b := p != ear.prev && p != ear.next && PointInTriangle(a, ear, c, p) && Area(p.prev, p, p.next) >= 0.0;
    if b { IsBlocked(r, s, box, e, k, minZ, maxZ); }
  }

  /** A listed node is in the ring, and only one is the ear. */
  lemma InRing(r: seq<Node>, s: seq<Node>, box: Box, e: nat, k: nat)
    requires Scene(r, s, box, e) && k < |s| && k != e
    ensures s[k] in r && |r| >= 3 && s[k] != r[0] && s[k].prev != null && s[k].next != null
  {
    hide Sorted, Coded;
    SameMembers(r, s);
    assert s[k] in r;
    var i: nat :| i < |r| && r[i] == s[k];
    assert RingAt(r, i);
  }

  lemma RingNextIn(r: seq<Node>, s: seq<Node>, box: Box, e: nat)
    requires Scene(r, s, box, e)
    ensures |r| >= 3 && r[0].prev == r[|r| - 1] && r[0].next == r[1]
  {
    hide Indexed;
    RingNext(r);
  }

  /** A node of the list that blocks, with an order in the range, is seen. */
  lemma IsBlocked(r: seq<Node>, s: seq<Node>, box: Box, e: nat, k: nat, minZ: nat, maxZ: nat)
    requires Scene(r, s, box, e) && |r| >= 3 && k < |s| && k != e && s[k] in r && s[k] != r[0] && s[k] != r[|r| - 1] && s[k] != r[1]
    requires Blocking(r[|r| - 1], r[0], r[1], s[k]) && (minZ, maxZ) == Range(r[|r| - 1], r[0], r[1], box) && minZ <= r[0].z <= maxZ
    requires if k < e then minZ <= s[k].z else s[k].z <= maxZ
    ensures !IsEarWithin(r, box)
  {
    hide Range, Blocking, Area, Coded, Ring, ZList, Distinct;
    InOrder(s, k, e, e);
    assert Near(r[|r| - 1], r[0], r[1], s[k], box);
  }

  lemma ClearMore(a: Node, b: Node, c: Node, s: seq<Node>, i: int, j: int, e: int)
    requires Clear(a, b, c, s, i, j, e) && 0 <= i < |s| && 0 <= j < |s|
    requires s[i] == a || s[i] == c || !Blocking(a, b, c, s[i])
    requires s[j] == a || s[j] == c || !Blocking(a, b, c, s[j])
    ensures Clear(a, b, c, s, i - 1, j + 1, e)
  {
  }

  lemma ClearDown(a: Node, b: Node, c: Node, s: seq<Node>, i: int, j: int, e: int)
    requires Clear(a, b, c, s, i, j, e) && 0 <= i < |s| && (s[i] == a || s[i] == c || !Blocking(a, b, c, s[i]))
    ensures Clear(a, b, c, s, i - 1, j, e)
  {
  }

  lemma ClearUp(a: Node, b: Node, c: Node, s: seq<Node>, i: int, j: int, e: int)
    requires Clear(a, b, c, s, i, j, e) && 0 <= j < |s| && (s[j] == a || s[j] == c || !Blocking(a, b, c, s[j]))
    ensures Clear(a, b, c, s, i, j + 1, e)
  {
  }

  lemma EarPlace(r: seq<Node>, s: seq<Node>, box: Box) returns (e: nat)
    requires Ring(r) && |r| >= 3 && Indexed(r, s, box)
    ensures Scene(r, s, box, e) && e < |s| && s[e] == r[0] && Clear(r[|r| - 1], r[0], r[1], s, e - 1, e + 1, e)
  {
    SameMembers(r, s);
    assert r[0] in r;
    e :| 0 <= e < |s| && s[e] == r[0];
  }

  lemma RingNext(r: seq<Node>)
    requires Ring(r) && |r| >= 3
    ensures r[0].prev == r[|r| - 1] && r[0].next == r[1]
  {
    assert RingAt(r, 0);
  }

  lemma EarArea(r: seq<Node>, box: Box)
    requires |r| >= 3 && Area(r[|r| - 1], r[0], r[1]) >= 0.0
    ensures !IsEarWithin(r, box)
  {
  }

  lemma ListAt(r: seq<Node>, s: seq<Node>, box: Box, e: nat, k: nat)
    requires Scene(r, s, box, e) && k < |s|
    ensures s[k].prevZ == NodeAt(s, k - 1) && s[k].nextZ == NodeAt(s, k + 1)
  {
    assert ZListAt(s, k);
  }

  ghost predicate CornersIn(a: Node, b: Node, c: Node, box: Box) {
    && InsideBox(a, box) && InsideBox(b, box) && InsideBox(c, box)
    && Inside(Min3(a.x, b.x, c.x), box.minX, box.invSize) && Inside(Min3(a.y, b.y, c.y), box.minY, box.invSize)
    && Inside(Max3(a.x, b.x, c.x), box.minX, box.invSize) && Inside(Max3(a.y, b.y, c.y), box.minY, box.invSize)
  }

  lemma CornersInside(r: seq<Node>, s: seq<Node>, box: Box)
    requires Indexed(r, s, box) && |r| >= 3
    ensures CornersIn(r[|r| - 1], r[0], r[1], box)
  {
    hide ZOrder, ZList, Sorted, Inside;
    assert r[|r| - 1] in r && r[0] in r && r[1] in r;
  }

  /** The ear's own order is in the range. */
  lemma EarNear(r: seq<Node>, s: seq<Node>, box: Box, e: nat)
    requires Scene(r, s, box, e) && |r| >= 3
    ensures Near(r[|r| - 1], r[0], r[1], r[0], box)
  {
    hide ZOrder, Inside, Ring, Indexed;
    CornersInside(r, s, box);
    HeadCoded(r, s, box);
    BetweenCorners(r[|r| - 1], r[0], r[1], box);
  }

  lemma HeadCoded(r: seq<Node>, s: seq<Node>, box: Box)
    requires Indexed(r, s, box) && |r| >= 1
    ensures Coded(r[0], box)
  {
    hide ZOrder, Inside, ZList, Sorted;
    assert r[0] in r;
  }

  /** The tip of a triangle has an order between those of the corners of the triangle's box. */
  lemma BetweenCorners(a: Node, b: Node, c: Node, box: Box)
    requires CornersIn(a, b, c, box) && Coded(b, box)
    ensures Near(a, b, c, b, box)
  {
    hide ZOrder, Inside;
    ZOrderRises(Min3(a.x, b.x, c.x), Min3(a.y, b.y, c.y), b.x, b.y, box.minX, box.minY, box.invSize);
    ZOrderRises(b.x, b.y, Max3(a.x, b.x, c.x), Max3(a.y, b.y, c.y), box.minX, box.minY, box.invSize);
  }

  /** What lies outside the range of orders is not looked at. */
  lemma AllClear(r: seq<Node>, s: seq<Node>, box: Box, e: nat, i: int, j: int, minZ: nat, maxZ: nat)
    requires Scene(r, s, box, e) && |r| >= 3 && -1 <= i < e < j <= |s|
    requires Area(r[|r| - 1], r[0], r[1]) < 0.0 && Clear(r[|r| - 1], r[0], r[1], s, i, j, e)
    requires (i >= 0 ==> s[i].z < minZ) && (j < |s| ==> s[j].z > maxZ) && CornersIn(r[|r| - 1], r[0], r[1], box)
    requires (minZ, maxZ) == Range(r[|r| - 1], r[0], r[1], box)
    ensures IsEarWithin(r, box)
  {
    hide ZOrder, Inside, PointInTriangle, Area, ZList, Distinct, Ring, Range, CornersIn;
    var a, b, c := r[|r| - 1], r[0], r[1];
    SameMembers(r, s);
    forall p | p in r && p != a && p != b && p != c && Near(a, b, c, p, box) ensures !Blocking(a, b, c, p) {
      var k :| 0 <= k < |s| && s[k] == p;
      InOrder(s, k, i, j);
    }
  }

  lemma InOrder(s: seq<Node>, k: nat, i: int, j: int)
    requires Sorted(s) && k < |s|
    ensures k <= i < |s| ==> s[k].z <= s[i].z
    ensures 0 <= j <= k ==> s[j].z <= s[k].z
  {
  }

  // ---------------------------------------------------------------- the ring and the list change together

  /** A list without its k-th node. */
  function Without(s: seq<Node>, k: nat): (t: seq<Node>)
    requires k < |s|
    ensures |t| == |s| - 1
  {
    s[..k] + s[k + 1..]
  }

  /** The ring as seen from its second node. */
  function Turn(r: seq<Node>): (t: seq<Node>)
    requires r != []
    ensures |t| == |r|
  {
    r[1..] + [r[0]]
  }

  lemma TurnRing(r: seq<Node>)
    requires Ring(r)
    ensures Ring(Turn(r)) && SameNodes(r, Turn(r))
  {
    var t := Turn(r);
    forall k: nat | k < |t| ensures RingAt(t, k) {
      var i := Succ(k, |r|);
      assert t[k] == r[i];
      assert RingAt(r, i);
    }
    forall j, k | 0 <= j < k < |t| ensures t[j] != t[k] {
      assert t[j] == r[Succ(j, |r|)] && t[k] == r[Succ(k, |r|)];
    }
    assert r == [r[0]] + r[1..];
  }

  lemma WithoutCounts(s: seq<Node>, k: nat)
    requires k < |s|
    ensures multiset(s) == multiset(Without(s, k)) + multiset{s[k]}
  {
    assert s == s[..k] + [s[k]] + s[k + 1..];
  }

  lemma WithoutDistinct(s: seq<Node>, k: nat)
    requires Distinct(s) && k < |s|
    ensures Distinct(Without(s, k)) && s[k] !in Without(s, k)
  {
    var t := Without(s, k);
    forall i | 0 <= i < |t| ensures t[i] == s[if i < k then i else i + 1] { }
  }

  /** The first node leaves the ring. */
  method LeaveRing(p: Node, ghost r: seq<Node>)
    requires Ring(r) && |r| >= 2 && r[0] == p
    modifies r`prev, r`next
    ensures Ring(r[1..]) && p.prev == old(p.prev) && p.next == old(p.next)
  {
    assert RingAt(r, 0) && RingAt(r, |r| - 1) && RingAt(r, 1);
    p.next.prev := p.prev;
    p.prev.next := p.next;
    forall k: nat | k < |r| - 1 ensures RingAt(r[1..], k) {
      assert old(RingAt(r, k + 1));
    }
  }

  /** Node m leaves the list; a node in no list has nothing to leave. */
  method LeaveList(p: Node, ghost s: seq<Node>, ghost m: nat)
    requires if s == [] then p.prevZ == null && p.nextZ == null else ZList(s) && m < |s| && s[m] == p
    modifies s`prevZ, s`nextZ
    ensures s != [] ==> m < |s| && ZList(Without(s, m))
  {
    if s != [] {
      assert ZListAt(s, m);
      WithoutDistinct(s, m);
    }
    if p.prevZ != null { p.prevZ.nextZ := p.nextZ; }
    if p.nextZ != null { p.nextZ.prevZ := p.prevZ; }
    if s != [] {
      ghost var t := Without(s, m);
      forall k: nat | k < |t| ensures ZListAt(t, k) {
        ghost var i := if k < m then k else k + 1;
        assert t[k] == s[i] && (k > 0 ==> t[k - 1] == s[if k - 1 < m then k - 1 else k]);
        assert k + 1 < |t| ==> t[k + 1] == s[if k + 1 < m then k + 1 else k + 2];
        assert old(ZListAt(s, i));
      }
    }
  }

  /** A node leaves the ring and, if it is there, the list. */
  method RemoveNode(p: Node, ghost r: seq<Node>, ghost s: seq<Node>, ghost m: nat)
    requires Ring(r) && |r| >= 2 && r[0] == p
    requires if s == [] then p.prevZ == null && p.nextZ == null else ZList(s) && SameNodes(r, s) && m < |s| && s[m] == p
    modifies r`prev, r`next, s`prevZ, s`nextZ
    ensures Ring(r[1..])
    ensures s != [] ==> m < |s| && ZList(Without(s, m)) && SameNodes(r[1..], Without(s, m))
  {
    hide Ring, ZList, SameNodes;
    LeaveRing(p, r);
    LeaveList(p, s, m);
    if s != [] { StillSame(r, s, m); }
  }

  lemma StillSame(r: seq<Node>, s: seq<Node>, m: nat)
    requires SameNodes(r, s) && m < |s| && r != [] && s[m] == r[0]
    ensures SameNodes(r[1..], Without(s, m))
  {
    WithoutCounts(s, m);
    WithoutCounts(r, 0);
    assert Without(r, 0) == r[1..];
    assert multiset(r[1..]) == multiset(r) - multiset{r[0]} && multiset(Without(s, m)) == multiset(s) - multiset{s[m]};
  }

  lemma WithoutIndexed(r: seq<Node>, s: seq<Node>, box: Box, m: nat)
    requires r != [] && Sorted(s) && m < |s| && ZList(Without(s, m)) && SameNodes(r[1..], Without(s, m))
    requires forall p :: p in r ==> Coded(p, box)
    ensures Indexed(r[1..], Without(s, m), box)
  {
    hide Coded, ZList, SameNodes;
    var t := Without(s, m);
    forall i, j | 0 <= i < j < |t| ensures t[i].z <= t[j].z {
      assert t[i] == s[if i < m then i else i + 1] && t[j] == s[if j < m then j else j + 1];
    }
  }

  // ---------------------------------------------------------------- building the index

  /** Orders are computed where they are missing, and the list is made a copy of the ring. */
  method CodeRing(start: Node, box: Box, ghost r: seq<Node>)
    requires Ring(r) && r[0] == start && forall p :: p in r ==> InsideBox(p, box)
    requires forall p :: p in r ==> p.z == UNSET || Coded(p, box)
    modifies r`z, r`prevZ, r`nextZ
    ensures forall i :: 0 <= i < |r| ==> Coded(r[i], box)
    ensures forall i :: 0 <= i < |r| ==> r[i].prevZ == r[i].prev && r[i].nextZ == r[i].next
  {
    hide ZOrder, Inside, RingAt;
    var p := start;
    ghost var k := 0;
    while true
      invariant 0 <= k < |r| && p == r[k]
      invariant forall i :: 0 <= i < k ==> Coded(r[i], box)
      invariant forall i :: 0 <= i < k ==> r[i].prevZ == r[i].prev && r[i].nextZ == r[i].next
      invariant forall i :: k <= i < |r| ==> r[i].z == old(r[i].z)
      decreases |r| - k
    {
      RingStep(r, k);
      assert r[k] in r;
      if p.z == UNSET { p.z := ZOrder(p.x, p.y, box.minX, box.minY, box.invSize); }
      p.prevZ := p.prev;
      p.nextZ := p.next;
      p := p.next;
      if p == start { break; }
      k := k + 1;
    }
  }

  lemma RingStep(r: seq<Node>, k: nat)
    requires Ring(r) && k < |r|
    ensures r[k].next == (if k + 1 == |r| then r[0] else r[k + 1]) && r[k].prev == (if k == 0 then r[|r| - 1] else r[k - 1])
    ensures k + 1 < |r| ==> r[k + 1] != r[0]
  {
    assert RingAt(r, k);
  }

  /** The nodes of the ring are given their orders and listed by them. */
  method IndexCurve(start: Node, box: Box, ghost r: seq<Node>) returns (ghost s: seq<Node>)
    requires Ring(r) && r[0] == start && forall p :: p in r ==> InsideBox(p, box)
    requires forall p :: p in r ==> p.z == UNSET || Coded(p, box)
    modifies r`z, r`prevZ, r`nextZ
    ensures Ring(r) && Indexed(r, s, box)
  {
    hide Coded, RingAt;
    CodeRing(start, box, r);
    var p := start;
    RingStep(r, 0);
    p.prevZ.nextZ := null;
    p.prevZ := null;
    forall i: nat | i < |r| ensures RestAt(r, i) { RingStep(r, i); }
    forall q | q in r ensures Coded(q, box) {
      var i :| 0 <= i < |r| && r[i] == q;
    }
    var list;
    list, s := SortLinked(p, r);
  }

  // ---------------------------------------------------------------- slicing

  /** Node k of the ring blocks the ear at its first node. */
  predicate BlockedBy(r: seq<Node>, k: nat)
    requires 2 <= k < |r| - 1
  {
    PointInTriangle(r[|r| - 1], r[0], r[1], r[k]) && Area(r[k - 1], r[k], r[k + 1]) >= 0.0
  }

  /** The first node is the tip of an ear, by the points alone. */
  predicate Tip(r: seq<Node>)
    requires |r| >= 3
  {
    Area(r[|r| - 1], r[0], r[1]) < 0.0 && forall k :: 2 <= k < |r| - 1 ==> !BlockedBy(r, k)
  }

  lemma TipIs(r: seq<Node>)
    requires Ring(r) && |r| >= 3
    ensures IsEarTip(r) == Tip(r)
  {
    hide PointInTriangle, Area;
    forall k | 2 <= k < |r| - 1 ensures BlockedBy(r, k) == Blocking(r[|r| - 1], r[0], r[1], r[k]) && r[k] in r {
      RingStep(r, k);
    }
    if Tip(r) {
      forall p | p in r && p != r[|r| - 1] && p != r[0] && p != r[1] ensures !Blocking(r[|r| - 1], r[0], r[1], p) {
        var k :| 0 <= k < |r| && r[k] == p;
      }
    }
    if IsEarTip(r) {
      forall k | 2 <= k < |r| - 1 ensures !BlockedBy(r, k) {
        assert r[k] != r[|r| - 1] && r[k] != r[0] && r[k] != r[1];
      }
    }
  }

  /** The slices cut off, and the ring that is left, when `left` nodes may still be tried in a row. */
  function Slices(r: seq<Node>, left: nat): (res: (seq<int>, seq<Node>))
    requires r != [] && left >= 1
    ensures res.1 != []
    decreases |r|, left
  {
    if |r| <= 2 then ([], r)
    else if Tip(r) then
      var rest := Slices(Turn(r[1..]), |r| - 1);
      ([r[|r| - 1].i, r[0].i, r[1].i] + rest.0, rest.1)
    else if left == 1 then ([], Turn(r))
    else Slices(Turn(r), left - 1)
  }

  /** What the loop has of the ring: the list is in step with it if there is an index, and untouched otherwise. */
  ghost predicate Listing(r: seq<Node>, s: seq<Node>, box: Box)
    reads r, s
  {
    if box.invSize != 0.0 then Indexed(r, s, box) && s != [] && OneGrid(r)
    else s == [] && forall p :: p in r ==> p.prevZ == null && p.nextZ == null
  }

  /** One ear's test, one way or the other. */
  method IsTip(ear: Node, box: Box, ghost r: seq<Node>, ghost s: seq<Node>) returns (b: bool)
    requires Ring(r) && |r| >= 3 && r[0] == ear && Listing(r, s, box)
    ensures b == Tip(r)
  {
    TipIs(r);
    hide Ring, IsEarTip, Tip, Coded, OneGrid, ZList, Sorted, IsEarWithin;
    if box.invSize != 0.0 {
      SameTip(r, box);
      b := IsEarHashed(ear, box, r, s);
    } else {
      b := IsEar(ear, r);
    }
  }

  /** The tip of an ear leaves ring and list. */
  method CutOff(ear: Node, ghost box: Box, ghost r: seq<Node>, ghost s: seq<Node>) returns (ghost s2: seq<Node>)
    requires Ring(r) && |r| >= 3 && r[0] == ear && Listing(r, s, box)
    modifies r`prev, r`next, r`prevZ, r`nextZ
    ensures Ring(r[1..]) && Listing(r[1..], s2, box)
  {
    hide Ring, ZList, SameNodes, Coded, Sorted, OneGrid;
    ghost var m := 0;
    if box.invSize != 0.0 { SubGrid(r, r[1..]); }
    if s != [] {
      SameMembers(r, s);
      assert ear in r;
      m :| 0 <= m < |s| && s[m] == ear;
    }
    assert forall k :: 0 <= k < |s| ==> s[k] in r;
    RemoveNode(ear, r, s, m);
    s2 := [];
    if s != [] {
      s2 := Without(s, m);
      WithoutIndexed(r, s, box, m);
      StillSome(r[1..], s2);
    }
  }

  lemma StillSome(r: seq<Node>, s: seq<Node>)
    requires SameNodes(r, s) && r != []
    ensures s != []
  {
    SameMembers(r, s);
  }

  lemma TurnListing(r: seq<Node>, s: seq<Node>, box: Box)
    requires Ring(r) && Listing(r, s, box)
    ensures Ring(Turn(r)) && Listing(Turn(r), s, box)
  {
    hide ZList, Sorted, Coded, OneGrid;
    TurnRing(r);
    SameMembers(r, Turn(r));
    if box.invSize != 0.0 { SubGrid(r, Turn(r)); }
  }

  /** The node at which the search for an ear gives up. */
  function StopAt(r: seq<Node>, left: nat): Node
    requires 1 <= left <= |r|
  {
    if left == |r| then r[0] else r[left]
  }

  lemma RingSides(r: seq<Node>)
    requires Ring(r)
    ensures |r| >= 1 && r[0].next == r[if |r| == 1 then 0 else 1] && r[0].prev == r[|r| - 1]
    ensures r[0].prev != r[0].next <==> |r| >= 3
  {
    RingStep(r, 0);
  }

  lemma SlicesStep(r: seq<Node>, left: nat)
    requires |r| >= 3 && left >= 1
    ensures Tip(r) ==>
      Slices(r, left) == ([r[|r| - 1].i, r[0].i, r[1].i] + Slices(Turn(r[1..]), |r| - 1).0, Slices(Turn(r[1..]), |r| - 1).1)
    ensures !Tip(r) && left == 1 ==> Slices(r, left) == ([], Turn(r))
    ensures !Tip(r) && left > 1 ==> Slices(r, left) == Slices(Turn(r), left - 1)
  {
    hide Tip;
  }

  lemma Appended(a: seq<int>, b: seq<int>, c: seq<int>)
    ensures (a + b) + c == a + (b + c) && [] + c == c && a + [] == a
  {
  }

  lemma SlicesEnd(r: seq<Node>, left: nat)
    requires 1 <= |r| <= 2 && left >= 1
    ensures Slices(r, left) == ([], r)
  {
  }

  lemma TurnStops(r: seq<Node>, left: nat)
    requires Ring(r) && |r| >= 2 && 1 <= left <= |r|
    ensures Turn(r)[0] == StopAt(r, left) <==> left == 1
    ensures left > 1 ==> StopAt(Turn(r), left - 1) == StopAt(r, left)
  {
  }

  /**
   * Ears are cut off until two nodes are left or a whole round has found none.  With an index coordinates are
   * multiples of one power of two by integers of 25 bits, and it makes no difference: see EarcutRounding for what may
   * happen to others.
   */
  method SliceEars(ear0: Node, box: Box, ghost r0: seq<Node>, ghost s0: seq<Node>)
    returns (triangles: seq<int>, ear: Node, ghost r: seq<Node>, ghost s: seq<Node>)
    requires Ring(r0) && r0[0] == ear0 && Listing(r0, s0, box)
    modifies r0`prev, r0`next, r0`prevZ, r0`nextZ
    ensures (triangles, r) == Slices(r0, |r0|) && ear == NodeAt(r, 0)
    ensures Ring(r) && Listing(r, s, box)
  {
    hide Ring, Listing, Slices, Tip, Distinct;
    ear, triangles, r, s := ear0, [], r0, s0;
    var stop := ear;
    ghost var left := |r0|;
    RingSides(r);
    Appended([], [], Slices(r, left).0);
    while ear.prev != ear.next
      invariant Ring(r) && Listing(r, s, box) && |r| >= 1 && ear == r[0] && 1 <= left <= |r| && stop == StopAt(r, left)
      invariant forall p :: p in r ==> p in r0
      invariant Slices(r0, |r0|) == (triangles + Slices(r, left).0, Slices(r, left).1)
      invariant ear.prev != ear.next <==> |r| >= 3
      decreases |r|, left
    {
      SlicesStep(r, left);
      RingSides(r);
      var prev, next := ear.prev, ear.next;
      var tip := IsTip(ear, box, r, s);
      if tip {
        Appended(triangles, [prev.i, ear.i, next.i], Slices(Turn(r[1..]), |r| - 1).0);
        triangles := triangles + [prev.i, ear.i, next.i];
        ghost var was := r;
        assert forall k :: 0 <= k < |r| ==> r[k] in r0;
        s := CutOff(ear, box, r, s);
        TurnListing(r[1..], s, box);
        r := Turn(r[1..]);
        left := |r|;
        RingSides(was[1..]);
        RingSides(r);
        ear := next.next;
        stop := next.next;
        continue;
      }
      TurnListing(r, s, box);
      TurnStops(r, left);
      r := Turn(r);
      RingSides(r);
      ear := next;
      left := left - 1;
      if ear == stop {
        Appended(triangles, [], []);
        return;
      }
    }
    SlicesEnd(r, left);
    Appended(triangles, [], []);
  }

  /** The first pass over a ring that has not been sliced before: the index is built if there is a box to scale by. */
  method FirstPass(start: Node, box: Box, ghost r0: seq<Node>) returns (triangles: seq<int>, ear: Node, ghost r: seq<Node>)
    requires Ring(r0) && r0[0] == start && forall p :: p in r0 ==> p.z == UNSET && p.prevZ == null && p.nextZ == null
    requires box.invSize != 0.0 ==> OneGrid(r0) && forall p :: p in r0 ==> InsideBox(p, box)
    modifies r0
    ensures (triangles, r) == Slices(r0, |r0|) && ear == NodeAt(r, 0) && Ring(r)
  {
    hide InsideBox, Slices, Coded, ZList, Sorted;
    ghost var s: seq<Node> := [];
    if box.invSize != 0.0 {
      s := IndexCurve(start, box, r0);
      StillSome(r0, s);
    }
    triangles, ear, r, s := SliceEars(start, box, r0, s);
  }
}
