/** What the triangle test and the area say: points that are mixed of the corners, and the turn at a vertex. */
module EarcutTriangle {
  import opened Doubles
  import opened EarcutNodes
  import opened Earcut

  /** p is a mixture of the corners: the border and the corners themselves are included. */
  ghost predicate Mixed(a: Node, b: Node, c: Node, p: Node, u: real, v: real, w: real) {
    && u >= 0.0 && v >= 0.0 && w >= 0.0 && u + v + w == 1.0
    && p.x == u * a.x + v * b.x + w * c.x && p.y == u * a.y + v * b.y + w * c.y
  }

  /** The three products of the test, seen from p, and twice the area. */
  lemma Products(a: Node, b: Node, c: Node, p: Node, k: int)
    requires Whole(a, k) && Whole(b, k) && Whole(c, k) && Whole(p, k)
    ensures PointInTriangle(a, b, c, p) <==>
      && (c.x - p.x) * (a.y - p.y) - (a.x - p.x) * (c.y - p.y) >= 0.0
      && (a.x - p.x) * (b.y - p.y) - (b.x - p.x) * (a.y - p.y) >= 0.0
      && (b.x - p.x) * (c.y - p.y) - (c.x - p.x) * (b.y - p.y) >= 0.0
  {
    hide Cross, Sub, Small;
    CrossIs(c.x, p.x, a.y, p.y, a.x, p.x, c.y, p.y, k);
    CrossIs(a.x, p.x, b.y, p.y, b.x, p.x, a.y, p.y, k);
    CrossIs(b.x, p.x, c.y, p.y, c.x, p.x, b.y, p.y, k);
  }

  /** The area is negative exactly where a, b, c turn to the left. */
  lemma AreaTurns(a: Node, b: Node, c: Node, k: int)
    requires Whole(a, k) && Whole(b, k) && Whole(c, k)
    ensures Area(a, b, c) == (b.y - a.y) * (c.x - a.x) - (b.x - a.x) * (c.y - a.y)
  {
    hide Cross, Sub, Small;
    CrossIs(b.y, a.y, c.x, b.x, b.x, a.x, c.y, b.y, k);
    FromFirst(b.x - a.x, b.y - a.y, c.x - b.x, c.y - b.y);
    assert c.x - a.x == (b.x - a.x) + (c.x - b.x) && c.y - a.y == (b.y - a.y) + (c.y - b.y);
  }

  lemma FromFirst(s: real, t: real, u: real, v: real)
    ensures t * u - s * v == t * (s + u) - s * (t + v)
  {
    assert t * (s + u) == t * s + t * u && s * (t + v) == s * t + s * v;
  }

  /** The parts of the area, seen from the mixture, are those of the corners. */
  lemma Parts(a1: real, a2: real, b1: real, b2: real, c1: real, c2: real, u: real, v: real, w: real)
    requires u + v + w == 1.0 && u * a1 + v * b1 + w * c1 == 0.0 && u * a2 + v * b2 + w * c2 == 0.0
    ensures c1 * a2 - a1 * c2 == v * ((b1 * c2 - c1 * b2) + (c1 * a2 - a1 * c2) + (a1 * b2 - b1 * a2))
  {
    var e1, e2, e3 := b1 * c2 - c1 * b2, c1 * a2 - a1 * c2, a1 * b2 - b1 * a2;
    var s, t := v * b1, v * b2;
    assert s == -(u * a1) - w * c1 && t == -(u * a2) - w * c2;
    Swept(v, b1, b2, c1, c2);
    Swept(v, a1, a2, b1, b2);
    assert v * e1 == s * c2 - c1 * t;
    assert v * e3 == a1 * t - s * a2;
    Replaced(u, w, a1, a2, c1, c2);
    assert s * c2 - c1 * t == u * e2;
    assert a1 * t - s * a2 == w * e2;
    Split(u, v, w, e2);
  }

  lemma Swept(v: real, x: real, y: real, s: real, t: real)
    ensures v * (x * t - s * y) == (v * x) * t - s * (v * y)
    ensures v * (x * t - s * y) == x * (v * t) - (v * s) * y
  {
    assert v * (x * t) == (v * x) * t && v * (s * y) == s * (v * y);
    assert v * (x * t) == x * (v * t) && v * (s * y) == (v * s) * y;
    assert v * (x * t - s * y) == v * (x * t) - v * (s * y);
  }

  lemma Replaced(u: real, w: real, a1: real, a2: real, c1: real, c2: real)
    ensures (-(u * a1) - w * c1) * c2 - c1 * (-(u * a2) - w * c2) == u * (c1 * a2 - a1 * c2)
    ensures a1 * (-(u * a2) - w * c2) - (-(u * a1) - w * c1) * a2 == w * (c1 * a2 - a1 * c2)
  {
  }

  lemma Split(u: real, v: real, w: real, e: real)
    requires u + v + w == 1.0
    ensures u * e + v * e + w * e == e
  {
    assert (u + v + w) * e == u * e + v * e + w * e;
  }

  /** Seen from p, the corners of a mixture balance. */
  lemma FromWithin(u: real, v: real, w: real, a: real, b: real, c: real, p: real)
    requires u + v + w == 1.0
    ensures u * (a - p) + v * (b - p) + w * (c - p) == u * a + v * b + w * c - p
  {
    Split(u, v, w, p);
    assert u * (a - p) == u * a - u * p && v * (b - p) == v * b - v * p && w * (c - p) == w * c - w * p;
  }

  lemma Nonnegative(v: real, d: real)
    requires v >= 0.0 && d > 0.0
    ensures v * d >= 0.0
  {
  }

  /** In exact numbers: the three products are not negative exactly for the mixtures. */
  lemma MixedPasses(a: Node, b: Node, c: Node, p: Node, u: real, v: real, w: real)
    requires Mixed(a, b, c, p, u, v, w) && (b.y - a.y) * (c.x - a.x) - (b.x - a.x) * (c.y - a.y) < 0.0
    ensures (c.x - p.x) * (a.y - p.y) - (a.x - p.x) * (c.y - p.y) >= 0.0
    ensures (a.x - p.x) * (b.y - p.y) - (b.x - p.x) * (a.y - p.y) >= 0.0
    ensures (b.x - p.x) * (c.y - p.y) - (c.x - p.x) * (b.y - p.y) >= 0.0
  {
    var a1, a2, b1, b2, c1, c2 := a.x - p.x, a.y - p.y, b.x - p.x, b.y - p.y, c.x - p.x, c.y - p.y;
    FromWithin(u, v, w, a.x, b.x, c.x, p.x);
    FromWithin(u, v, w, a.y, b.y, c.y, p.y);
    var d := Whole2(a, b, c, p);
    Parts(a1, a2, b1, b2, c1, c2, u, v, w);
    Parts(b1, b2, c1, c2, a1, a2, v, w, u);
    Parts(c1, c2, a1, a2, b1, b2, w, u, v);
    Nonnegative(u, d);
    Nonnegative(v, d);
    Nonnegative(w, d);
  }

  /** The products add up to twice the area. */
  lemma Whole2(a: Node, b: Node, c: Node, p: Node) returns (d: real)
    requires (b.y - a.y) * (c.x - a.x) - (b.x - a.x) * (c.y - a.y) < 0.0
    ensures d > 0.0
    ensures d == ((b.x - p.x) * (c.y - p.y) - (c.x - p.x) * (b.y - p.y)) + ((c.x - p.x) * (a.y - p.y) - (a.x - p.x) * (c.y - p.y))
               + ((a.x - p.x) * (b.y - p.y) - (b.x - p.x) * (a.y - p.y))
  {
    var a1, a2, b1, b2, c1, c2 := a.x - p.x, a.y - p.y, b.x - p.x, b.y - p.y, c.x - p.x, c.y - p.y;
    Balance(a1, a2, b1, b2, c1, c2);
    d := (b1 * c2 - c1 * b2) + (c1 * a2 - a1 * c2) + (a1 * b2 - b1 * a2);
    FromFirst(b.x - a.x, b.y - a.y, c.x - b.x, c.y - b.y);
    assert b2 - a2 == b.y - a.y && c1 - b1 == c.x - b.x && b1 - a1 == b.x - a.x && c2 - b2 == c.y - b.y;
    assert c.x - a.x == (b.x - a.x) + (c.x - b.x) && c.y - a.y == (b.y - a.y) + (c.y - b.y);
  }

  /** A point that passes is mixed in proportion to the areas opposite the corners. */
  lemma PassesMixed(a: Node, b: Node, c: Node, p: Node) returns (u: real, v: real, w: real)
    requires (b.y - a.y) * (c.x - a.x) - (b.x - a.x) * (c.y - a.y) < 0.0
    requires (c.x - p.x) * (a.y - p.y) - (a.x - p.x) * (c.y - p.y) >= 0.0
    requires (a.x - p.x) * (b.y - p.y) - (b.x - p.x) * (a.y - p.y) >= 0.0
    requires (b.x - p.x) * (c.y - p.y) - (c.x - p.x) * (b.y - p.y) >= 0.0
    ensures Mixed(a, b, c, p, u, v, w)
  {
    hide Times;
    var a1, a2, b1, b2, c1, c2 := a.x - p.x, a.y - p.y, b.x - p.x, b.y - p.y, c.x - p.x, c.y - p.y;
    var e1, e2, e3 := b1 * c2 - c1 * b2, c1 * a2 - a1 * c2, a1 * b2 - b1 * a2;
    var d := Whole2(a, b, c, p);
    Balance(a1, a2, b1, b2, c1, c2);
    u := Share(e1, d);
    v := Share(e2, d);
    w := Share(e3, d);
    Shares(d, u, v, w, a1, b1, c1);
    Shares(d, u, v, w, a2, b2, c2);
    FromWithin(u, v, w, a.x, b.x, c.x, p.x);
    FromWithin(u, v, w, a.y, b.y, c.y, p.y);
  }

  /** A product, to be kept as it is. */
  ghost function Times(x: real, y: real): real { x * y }

  lemma Shares(d: real, u: real, v: real, w: real, a: real, b: real, c: real)
    requires d > 0.0 && Times(d, u) + Times(d, v) + Times(d, w) == d
    requires Times(d, u) * a + Times(d, v) * b + Times(d, w) * c == 0.0
    ensures u + v + w == 1.0 && u * a + v * b + w * c == 0.0
  {
    hide Times;
    Total(d, u, v, w);
    OneShare(d, u + v + w);
    Onward(d, u, a);
    Onward(d, v, b);
    Onward(d, w, c);
    Total(d, u * a, v * b, w * c);
    NoShare(d, u * a + v * b + w * c);
  }

  lemma Total(d: real, u: real, v: real, w: real)
    ensures Times(d, u + v + w) == Times(d, u) + Times(d, v) + Times(d, w)
  {
  }

  lemma Onward(d: real, u: real, a: real)
    ensures Times(d, u * a) == Times(d, u) * a
  {
  }

  lemma Share(e: real, d: real) returns (u: real)
    requires e >= 0.0 && d > 0.0
    ensures u >= 0.0 && Times(d, u) == e
  {
    u := e / d;
  }

  lemma OneShare(d: real, s: real)
    requires d > 0.0 && Times(d, s) == d
    ensures s == 1.0
  {
    assert d * (s - 1.0) == 0.0;
  }

  lemma NoShare(d: real, s: real)
    requires d > 0.0 && Times(d, s) == 0.0
    ensures s == 0.0
  {
  }

  /** The triangle test holds for exactly the mixtures of the corners, border included. */
  lemma InsideIsMixed(a: Node, b: Node, c: Node, p: Node, k: int)
    requires Whole(a, k) && Whole(b, k) && Whole(c, k) && Whole(p, k) && Area(a, b, c) < 0.0
    ensures PointInTriangle(a, b, c, p) <==> exists u, v, w: real :: Mixed(a, b, c, p, u, v, w)
  {
    hide PointInTriangle, Area, Mixed, Whole;
    Products(a, b, c, p, k);
    AreaTurns(a, b, c, k);
    if PointInTriangle(a, b, c, p) {
      var u, v, w := PassesMixed(a, b, c, p);
    }
    if u, v, w: real :| Mixed(a, b, c, p, u, v, w) {
      MixedPasses(a, b, c, p, u, v, w);
    }
  }

  // ---------------------------------------------------------------- ears

  /** The way from p over q to s turns left. */
  ghost predicate LeftTurn(p: Node, q: Node, s: Node) {
    (q.x - p.x) * (s.y - p.y) - (q.y - p.y) * (s.x - p.x) > 0.0
  }

  ghost predicate Inside(a: Node, b: Node, c: Node, p: Node) {
    exists u, v, w: real :: Mixed(a, b, c, p, u, v, w)
  }

  lemma TurnIs(p: Node, q: Node, s: Node, k: int)
    requires Whole(p, k) && Whole(q, k) && Whole(s, k)
    ensures LeftTurn(p, q, s) <==> Area(p, q, s) < 0.0
  {
    hide Area, Whole;
    AreaTurns(p, q, s, k);
  }

  lemma InsideIs(a: Node, b: Node, c: Node, p: Node, k: int)
    requires Whole(a, k) && Whole(b, k) && Whole(c, k) && Whole(p, k) && Area(a, b, c) < 0.0
    ensures PointInTriangle(a, b, c, p) <==> Inside(a, b, c, p)
  {
    hide PointInTriangle, Area, Mixed, Whole;
    InsideIsMixed(a, b, c, p, k);
  }

  lemma BlockingIs(r: seq<Node>, i: nat, k: int)
    requires Ring(r) && |r| >= 3 && AllWhole(r, k) && 2 <= i < |r| - 1 && Area(r[|r| - 1], r[0], r[1]) < 0.0
    ensures Blocking(r[|r| - 1], r[0], r[1], r[i]) <==>
      Inside(r[|r| - 1], r[0], r[1], r[i]) && !LeftTurn(r[i - 1], r[i], r[i + 1])
  {
    hide Area, PointInTriangle, Whole, LeftTurn, Inside, Ring;
    RingSides2(r, i);
    InsideIs(r[|r| - 1], r[0], r[1], r[i], k);
    TurnIs(r[i - 1], r[i], r[i + 1], k);
  }

  /**
   * The first vertex of a ring is an ear exactly if it turns left and every other vertex within the triangle with its
   * neighbours, border included, turns left as well.
   */
  lemma EarMeans(r: seq<Node>, k: int)
    requires Ring(r) && |r| >= 3 && AllWhole(r, k)
    ensures IsEarTip(r) <==>
      && LeftTurn(r[|r| - 1], r[0], r[1])
      && forall i :: 2 <= i < |r| - 1 && Inside(r[|r| - 1], r[0], r[1], r[i]) ==> LeftTurn(r[i - 1], r[i], r[i + 1])
  {
    hide Area, Whole, LeftTurn, Inside, Ring, Blocking;
    TurnIs(r[|r| - 1], r[0], r[1], k);
    Others(r);
    if LeftTurn(r[|r| - 1], r[0], r[1]) {
      if IsEarTip(r) {
        forall i | 2 <= i < |r| - 1 && Inside(r[|r| - 1], r[0], r[1], r[i]) ensures LeftTurn(r[i - 1], r[i], r[i + 1]) {
          BlockingIs(r, i, k);
        }
      } else {
        var p :| p in r && p != r[|r| - 1] && p != r[0] && p != r[1] && Blocking(r[|r| - 1], r[0], r[1], p);
        var i :| 2 <= i < |r| - 1 && p == r[i];
        BlockingIs(r, i, k);
      }
    }
  }

  lemma RingSides2(r: seq<Node>, i: nat)
    requires Ring(r) && 1 <= i < |r| - 1
    ensures r[i].prev == r[i - 1] && r[i].next == r[i + 1]
  {
    assert RingAt(r, i);
  }

  /** The vertices that are not of the triangle are those from the third to the one before the last. */
  lemma Others(r: seq<Node>)
    requires Ring(r) && |r| >= 3
    ensures forall p :: p in r && p != r[|r| - 1] && p != r[0] && p != r[1] ==> exists i :: 2 <= i < |r| - 1 && p == r[i]
    ensures forall i :: 2 <= i < |r| - 1 ==> r[i] in r && r[i] != r[|r| - 1] && r[i] != r[0] && r[i] != r[1]
  {
    forall p | p in r && p != r[|r| - 1] && p != r[0] && p != r[1] ensures exists i :: 2 <= i < |r| - 1 && p == r[i] {
      var i :| 0 <= i < |r| && r[i] == p;
      assert i != 0 && i != 1 && i != |r| - 1;
    }
  }
}
