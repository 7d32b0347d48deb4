/** What rounding does to the z-order index: the box of a drawing, and an ear that only the index takes for one. */
module EarcutRounding {
  import opened Doubles
  import opened EarcutOrder
  import opened EarcutNodes
  import opened Earcut

  // ---------------------------------------------------------------- the box

  /** With the box found for them, multiples of one power of two by integers of 25 bits are inside. */
  lemma StepsFew(v: real, min: real, size: real, k: int)
    requires Small(v, k) && Small(min, k) && 0.0 <= v - min <= size && size > 0.0
    ensures Inside(v, min, Rounded(1.0 / size))
  {
    hide Rounded, Small, Grid;
    var inv := Rounded(1.0 / size);
    RoundedClose(1.0 / size);
    var d := SubExact(v, min, k);
    MulSteps(d, k);
    NotMany(Mul(Sub(v, min), 32767.0), v - min, size, inv);
    AtMost(Mul(Sub(v, min), 32767.0) * inv);
    StepsAre(v, min, inv);
  }

  lemma MulSteps(d: int, k: int)
    requires -67108864 < d < 67108864
    ensures Mul(Grid(d, k), 32767.0) == Grid(d, k) * 32767.0
  {
    hide Rounded;
    GridStays(32767 * d, k);
    GridSteps(d, k);
  }

  lemma GridSteps(d: int, k: int)
    ensures Grid(d, k) * 32767.0 == Grid(32767 * d, k)
  {
    hide Power;
    assert (32767 * d) as real == 32767.0 * d as real;
  }

  lemma AtMost(x: real)
    requires x <= 32767.5
    ensures Rounded(x) < 32768.0
  {
    hide Rounded;
    if x > 0.0 {
      RoundedClose(x);
    } else {
      NoneStays();
      RoundedRises(x, 0.0);
    }
  }

  lemma StepsAre(v: real, min: real, invSize: real)
    ensures Steps(v, min, invSize) == Rounded(Mul(Sub(v, min), 32767.0) * invSize)
  {
    hide Rounded, Sub;
    MulIs(Mul(Sub(v, min), 32767.0), invSize);
  }

  lemma MulIs(m: real, n: real)
    ensures Mul(m, n) == Rounded(m * n)
  {
    hide Rounded;
  }

  /** The inverse is too great by at most one part in 2^53. */
  lemma NotMany(y: real, d: real, size: real, inv: real)
    requires y == d * 32767.0 && 0.0 <= d <= size && size > 0.0 && inv > 0.0 && (inv - 1.0 / size) * 9007199254740992.0 <= 1.0 / size
    ensures y * inv <= 32767.5
  {
    var u := 1.0 / size;
    assert u * size == 1.0;
    Scales(d, size, inv);
    Scales((inv - u) * 9007199254740992.0, u, size);
    Distributes(inv, u, size);
    assert (inv - u) * 9007199254740992.0 * size == (inv - u) * size * 9007199254740992.0;
    assert y * inv == d * inv * 32767.0;
  }

  ghost predicate Least(m: real, s: seq<real>) { m in s && forall i :: 0 <= i < |s| ==> m <= s[i] }

  ghost predicate Greatest(m: real, s: seq<real>) { m in s && forall i :: 0 <= i < |s| ==> s[i] <= m }

  /** The inverse of the longer side, 0 if there is none. */
  function Inverse(sizeX: real, sizeY: real): real {
    var size := if sizeX > sizeY then sizeX else sizeY;
    if size != 0.0 then Rounded(Quotient(size)) else 0.0
  }

  /** The box of some points: its least corner, and the inverse of its longer side. */
  ghost predicate BoxFor(box: Box, xs: seq<real>, ys: seq<real>, maxX: real, maxY: real) {
    && Least(box.minX, xs) && Least(box.minY, ys) && Greatest(maxX, xs) && Greatest(maxY, ys)
    && box.invSize == Inverse(Sub(maxX, box.minX), Sub(maxY, box.minY))
  }

  predicate SmallPoints(xs: seq<real>, ys: seq<real>, k: int)
    requires |xs| == |ys|
  {
    forall i :: 0 <= i < |xs| ==> Small(xs[i], k) && Small(ys[i], k)
  }

  method FindBox(xs: seq<real>, ys: seq<real>) returns (box: Box)
    requires |xs| == |ys| > 0
    ensures exists maxX, maxY :: BoxFor(box, xs, ys, maxX, maxY)
    ensures forall k: int :: SmallPoints(xs, ys, k) && box.invSize != 0.0 ==>
      forall i :: 0 <= i < |xs| ==> Inside(xs[i], box.minX, box.invSize) && Inside(ys[i], box.minY, box.invSize)
  {
    hide Sub, Inside, Rounded, SmallPoints;
    var minX, maxX, minY, maxY := xs[0], xs[0], ys[0], ys[0];
    var k := 1;
    while k < |xs|
      invariant 1 <= k <= |xs|
      invariant minX in xs && maxX in xs && minY in ys && maxY in ys
      invariant forall i :: 0 <= i < k ==> minX <= xs[i] <= maxX && minY <= ys[i] <= maxY
    {
      if xs[k] < minX { minX := xs[k]; }
      if ys[k] < minY { minY := ys[k]; }
      if xs[k] > maxX { maxX := xs[k]; }
      if ys[k] > maxY { maxY := ys[k]; }
      k := k + 1;
    }
    var sizeX, sizeY := Sub(maxX, minX), Sub(maxY, minY);
    var size := if sizeX > sizeY then sizeX else sizeY;
    box := Box(minX, minY, if size != 0.0 then Rounded(Quotient(size)) else 0.0);
    assert BoxFor(box, xs, ys, maxX, maxY);
    forall e: int | SmallPoints(xs, ys, e) && box.invSize != 0.0
      ensures forall i :: 0 <= i < |xs| ==> Inside(xs[i], box.minX, box.invSize) && Inside(ys[i], box.minY, box.invSize)
    {
      AllInside(box, xs, ys, maxX, maxY, e);
    }
  }

  function Quotient(size: real): real
    requires size != 0.0
  {
    1.0 / size
  }

  /** All points of a drawing are in the box found for it. */
  lemma AllInside(box: Box, xs: seq<real>, ys: seq<real>, maxX: real, maxY: real, k: int)
    requires |xs| == |ys| && SmallPoints(xs, ys, k) && BoxFor(box, xs, ys, maxX, maxY) && box.invSize != 0.0
    ensures forall i :: 0 <= i < |xs| ==> Inside(xs[i], box.minX, box.invSize) && Inside(ys[i], box.minY, box.invSize)
  {
    hide Sub, Inside, Rounded, Small;
    var dx := SubExact(maxX, box.minX, k);
    var dy := SubExact(maxY, box.minY, k);
    var sizeX, sizeY := Sub(maxX, box.minX), Sub(maxY, box.minY);
    var size := if sizeX > sizeY then sizeX else sizeY;
    forall i | 0 <= i < |xs|
      ensures Inside(xs[i], box.minX, box.invSize) && Inside(ys[i], box.minY, box.invSize)
    {
      StepsFew(xs[i], box.minX, size, k);
      StepsFew(ys[i], box.minY, size, k);
    }
  }

  // ---------------------------------------------------------------- an ear for the index only

  lemma Powers()
    ensures Power(13) == 8192.0 && Power(33) == 8589934592.0 && Power(-33) == 1.0 / 8589934592.0
  {
    hide Power;
    SmallPowers();
    PowerAdd(4, 4);
    PowerAdd(4, 1);
    PowerAdd(8, 5);
    PowerAdd(8, 8);
    PowerAdd(16, 16);
    PowerAdd(32, 1);
    PowerAdd(-33, 33);
    PowerZero();
    OneOver(Power(-33));
  }

  lemma SmallPowers()
    ensures Power(1) == 2.0 && Power(4) == 16.0
  {
  }

  lemma OneOver(p: real)
    requires p * 8589934592.0 == 1.0
    ensures p == 1.0 / 8589934592.0
  {
  }

  lemma Diff(x: int, y: int)
    requires -9007199254740992 < x - y < 9007199254740992
    ensures Sub(x as real, y as real) == (x - y) as real
  {
    WholeStays(x - y);
  }

  /** Products of the size that is met here. */
  predicate Far(s: int, t: int, m: int) {
    4503599627370496 * 8192 <= s * t < 9007199254740992 * 8192 && -8192 < 2 * (s * t - m * 8192) < 8192
  }

  lemma MulFar(s: int, t: int, m: int)
    requires Far(s, t, m)
    ensures Mul(s as real, t as real) == (8192 * m) as real
    ensures Mul(s as real, (-t) as real) == -((8192 * m) as real)
  {
    hide Rounded;
    Powers();
    MulRounds(s, t, 13, 8192, m);
    MulOpposite(s as real, t as real);
    assert (-t) as real == -(t as real);
  }

  lemma MulOpposite(x: real, y: real)
    ensures Mul(x, -y) == -Mul(x, y)
  {
    var z, w := x * y, x * -y;
    assert w == -z;
    Opposite(z);
  }

  lemma CrossFar(s: int, t: int, m: int, u: int, v: int, n: int)
    requires Far(s, t, m) && Far(u, v, n) && -1000 < m - n < 1000
    ensures Cross(s as real, t as real, u as real, v as real) == (8192 * (m - n)) as real
    ensures Cross(s as real, (-t) as real, u as real, (-v) as real) == (8192 * (n - m)) as real
  {
    hide Mul, Far;
    MulFar(s, t, m);
    MulFar(u, v, n);
    WholeStays(8192 * (m - n));
    WholeStays(8192 * (n - m));
  }

  /** Four points on nearly one line, p far behind the others. */
  ghost predicate Thin(a: Node, b: Node, c: Node, p: Node) {
    && a.x == 0.0 && a.y == 0.0 && b.x == 488845.0 && b.y == 456781.0
    && c.x == 1446944.0 && c.y == 1352037.0 && p.x == 6608075580.0 && p.y == 6174643029.0
  }

  lemma ThinArea(a: Node, b: Node, c: Node, p: Node)
    requires Thin(a, b, c, p)
    ensures Area(a, b, c) == -1.0
  {
    hide Sub, Mul, Cross;
    Diff(456781, 0);
    Diff(1446944, 488845);
    Diff(488845, 0);
    Diff(1352037, 456781);
    assert Cross(456781.0, 958099.0, 488845.0, 895256.0) == -1.0 by {
      CrossExact(456781, 958099, 488845, 895256, 0);
      OnesAre();
    }
  }

  lemma OnesAre()
    ensures Grid(456781, 0) == 456781.0 && Grid(958099, 0) == 958099.0 && Grid(488845, 0) == 488845.0 && Grid(895256, 0) == 895256.0
  {
    PowerZero();
  }

  lemma ThinInside(a: Node, b: Node, c: Node, p: Node)
    requires Thin(a, b, c, p)
    ensures PointInTriangle(a, b, c, p)
  {
    hide Sub, Mul, Cross;
    Diff(1446944, 6608075580);
    Diff(0, 6174643029);
    Diff(0, 6608075580);
    Diff(1352037, 6174643029);
    Diff(456781, 6174643029);
    Diff(488845, 6608075580);
    CrossFar(-6606628636, -6174643029, 4979684259334617, -6608075580, -6173290992, 4979684259334616);
    CrossFar(-6608075580, -6174186248, 4980406417453689, -6607586735, -6174643029, 4980406417453689);
    CrossFar(-6607586735, -6173290992, 4979315877689721, -6606628636, -6174186248, 4979315877689721);
  }

  /** The rest of a drawing: it begins at the far corner of the box and stays in the box's right half. */
  ghost predicate Wide(more: seq<Node>) {
    && |more| > 0 && more[0].x == 8589934592.0 && more[0].y == 0.0
    && forall q :: q in more ==> 4294967296.0 <= q.x <= 8589934592.0 && 0.0 <= q.y <= 8589934592.0
  }

  lemma CrossTurns(s: real, t: real, u: real, v: real)
    requires s >= 0.0 && t >= 0.0 && u >= 0.0 && v <= 0.0
    ensures Cross(s, t, u, v) >= 0.0
  {
    NoneStays();
    hide Rounded;
    Scales(0.0, s, t);
    Scales(v, 0.0, u);
    RoundedRises(0.0, s * t);
    RoundedRises(u * v, 0.0);
    RoundedRises(0.0, Mul(s, t) - Mul(u, v));
  }

  /** p is a reflex vertex of such a drawing. */
  lemma ThinReflex(a: Node, b: Node, c: Node, p: Node, e: Node)
    requires Thin(a, b, c, p) && e.x == 8589934592.0 && e.y == 0.0
    ensures Area(c, p, e) >= 0.0
  {
    hide Sub, Cross;
    Diff(6174643029, 1352037);
    Diff(8589934592, 6608075580);
    Diff(6608075580, 1446944);
    Diff(0, 6174643029);
    CrossTurns(6173290992.0, 1981859012.0, 6606628636.0, -6174643029.0);
  }

  /** A coordinate counted in steps of a box that is 2^33 wide. */
  lemma StepsWide(v: int)
    requires 0 <= v <= 0x2_0000_0000
    ensures Steps(v as real, 0.0, Power(-33)) == (32767 * v) as real / 8589934592.0
  {
    hide Rounded, Power;
    Powers();
    Diff(v, 0);
    assert Mul(v as real, 32767.0) == (32767 * v) as real by { WholeStays(32767 * v); }
    assert Mul((32767 * v) as real, Power(-33)) == (32767 * v) as real * Power(-33) by {
      GridStays(32767 * v, -33);
      assert Grid(32767 * v, -33) == (32767 * v) as real * Power(-33);
    }
  }

  lemma InWide(v: real)
    requires 0.0 <= v <= 8589934592.0
    ensures Inside(v, 0.0, Power(-33))
  {
    hide Steps, Power;
    StepsWide(8589934592);
    InsideBetween(v, 8589934592.0, 0.0, Power(-33));
  }

  lemma {:induction false} SpacedLarge(n: nat)
    ensures Spaced(n) >= n
  {
    if n > 0 { SpacedLarge(n / 2); }
  }

  lemma SpacedFive()
    ensures Spaced(5) == 17
  {
    assert Spaced(1) == 1 && Spaced(2) == 4;
  }

  /** What stands in the right half, or at p, has an order beyond those of the triangle's box. */
  lemma ThinOrder(a: Node, b: Node, c: Node, p: Node, q: Node, box: Box)
    requires Thin(a, b, c, p) && box == Box(0.0, 0.0, Power(-33)) && Coded(q, box)
    requires 4294967296.0 <= q.x <= 8589934592.0 && 0.0 <= q.y <= 8589934592.0
    ensures !Near(a, b, c, q, box)
  {
    hide Steps, ZOrder, Power, Spaced;
    ThinCorners(a, b, c, p, box);
    StepsWide(1446944);
    StepsWide(1352037);
    StepsWide(4294967296);
    StepsWide(0);
    InWide(4294967296.0);
    InWide(0.0);
    InWide(q.x);
    InWide(q.y);
    assert Scaled(c.x, 0.0, Power(-33)) == 5 && Scaled(c.y, 0.0, Power(-33)) == 5;
    assert Scaled(4294967296.0, 0.0, Power(-33)) == 16383;
    ZOrderIs(c.x, c.y, 0.0, 0.0, Power(-33));
    ZOrderIs(4294967296.0, 0.0, 0.0, 0.0, Power(-33));
    SpacedFive();
    SpacedLarge(16383);
    ZOrderRises(4294967296.0, 0.0, q.x, q.y, 0.0, 0.0, Power(-33));
  }

  lemma ThinCorners(a: Node, b: Node, c: Node, p: Node, box: Box)
    requires Thin(a, b, c, p) && box == Box(0.0, 0.0, Power(-33))
    ensures InsideBox(a, box) && InsideBox(b, box) && InsideBox(c, box)
    ensures Max3(a.x, b.x, c.x) == c.x && Max3(a.y, b.y, c.y) == c.y && Min3(a.x, b.x, c.x) == a.x && Min3(a.y, b.y, c.y) == a.y
  {
    hide Power, Inside;
    InWide(a.x);
    InWide(b.x);
    InWide(b.y);
    InWide(c.x);
    InWide(c.y);
  }

  lemma ThinBlocks(a: Node, b: Node, c: Node, p: Node, more: seq<Node>)
    requires Thin(a, b, c, p) && Wide(more) && Ring([b, c, p] + more + [a])
    ensures Blocking(a, b, c, p) && p != a && p != b && p != c
  {
    hide Area, PointInTriangle;
    var r := [b, c, p] + more + [a];
    ThinInside(a, b, c, p);
    ThinReflex(a, b, c, p, more[0]);
    assert RingAt(r, 2) && r[3] == more[0] && r[|r| - 1] == a;
    assert r[0] != r[2] && r[1] != r[2] && r[|r| - 1] != r[2];
  }

  ghost function Xs(r: seq<Node>): seq<real> { seq(|r|, i requires 0 <= i < |r| => r[i].x) }

  ghost function Ys(r: seq<Node>): seq<real> { seq(|r|, i requires 0 <= i < |r| => r[i].y) }

  /** The box found for such a drawing. */
  lemma ThinBox(a: Node, b: Node, c: Node, p: Node, more: seq<Node>, box: Box, maxX: real, maxY: real)
    requires Thin(a, b, c, p) && Wide(more)
    requires var r := [b, c, p] + more + [a]; BoxFor(box, Xs(r), Ys(r), maxX, maxY)
    ensures box == Box(0.0, 0.0, Power(-33))
  {
    hide Power, Sub, Rounded, Inverse;
    var r := [b, c, p] + more + [a];
    assert r[|r| - 1] == a && r[3] == more[0];
    assert Xs(r)[|r| - 1] == 0.0 && Ys(r)[|r| - 1] == 0.0 && Xs(r)[3] == 8589934592.0;
    assert forall i :: 0 <= i < |r| ==> 0.0 <= r[i].x <= 8589934592.0 && 0.0 <= r[i].y <= 8589934592.0 by {
      forall i | 0 <= i < |r| ensures 0.0 <= r[i].x <= 8589934592.0 && 0.0 <= r[i].y <= 8589934592.0 {
        if 3 <= i < |r| - 1 { assert r[i] == more[i - 3] && r[i] in more; }
      }
    }
    assert box.minX == 0.0 && box.minY == 0.0 && maxX == 8589934592.0 && 0.0 <= maxY <= 8589934592.0;
    WideInverse(maxY);
  }

  lemma WideInverse(maxY: real)
    requires 0.0 <= maxY <= 8589934592.0
    ensures Inverse(Sub(8589934592.0, 0.0), Sub(maxY, 0.0)) == Power(-33)
  {
    hide Power, Rounded, Sub;
    Powers();
    Diff(8589934592, 0);
    SubRises(maxY, 8589934592.0, 0.0);
    GridStays(1, -33);
    OneGridIs();
  }

  lemma OneGridIs()
    ensures Grid(1, -33) == Power(-33)
  {
    hide Power;
  }

  /**
   * With coordinates of more bits the two tests may differ, in drawings of any number of points from five on and with
   * the box found for them: p is taken for a point of the triangle, but not looked at by its order.
   */
  lemma IndexHides(a: Node, b: Node, c: Node, p: Node, more: seq<Node>, box: Box, maxX: real, maxY: real)
    requires Thin(a, b, c, p) && Wide(more) && Ring([b, c, p] + more + [a])
    requires var r := [b, c, p] + more + [a]; BoxFor(box, Xs(r), Ys(r), maxX, maxY)
    requires forall q :: q in [b, c, p] + more + [a] ==> Coded(q, box)
    ensures IsEarWithin([b, c, p] + more + [a], box) && !IsEarTip([b, c, p] + more + [a])
  {
    hide Power, Thin, Coded, Ring, Near, Blocking, Area, BoxFor;
    var r := [b, c, p] + more + [a];
    ThinBox(a, b, c, p, more, box, maxX, maxY);
    assert r[0] == b && r[1] == c && r[2] == p && r[|r| - 1] == a && p in r;
    ThinArea(a, b, c, p);
    ThinBlocks(a, b, c, p, more);
    ThinPlace(a, b, c, p);
    forall q | q in r && q != a && q != b && q != c ensures !Near(a, b, c, q, box) {
      assert q == p || q in more;
      ThinOrder(a, b, c, p, q, box);
    }
  }

  lemma ThinPlace(a: Node, b: Node, c: Node, p: Node)
    requires Thin(a, b, c, p)
    ensures 4294967296.0 <= p.x <= 8589934592.0 && 0.0 <= p.y <= 8589934592.0
  {
  }
}
