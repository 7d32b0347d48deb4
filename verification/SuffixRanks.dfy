/**
 * What a round of prefix doubling keeps: `js` lists all suffixes, `v` gives each the last position of
 * its group, groups stand in suffix order, and suffixes of one group agree on their first h bytes.
 */
module SuffixRanks {
  import opened Bytes
  import opened Permutations
  import opened SuffixOrder

  ghost predicate Shape(s: seq<Byte>, js: seq<int>, v: seq<int>) {
    && |js| == |v| == |s| + 1 && IsPerm(js, |s| + 1)
    && (forall p :: 0 <= p < |js| ==> p <= v[js[p]] <= |s|)
    && (forall p, q :: 0 <= p < q < |js| ==> v[js[p]] <= v[js[q]])
    && (forall p, e :: 0 <= p < |js| && 0 <= e < |js| && e == v[js[p]] ==> v[js[e]] == e)
  }

  ghost predicate Ordered(s: seq<Byte>, js: seq<int>, v: seq<int>)
    requires Shape(s, js, v)
  {
    forall p, q :: 0 <= p < |js| && 0 <= q < |js| && v[js[p]] < v[js[q]] ==> Less(s, js[p], js[q])
  }

  ghost predicate Alike(s: seq<Byte>, js: seq<int>, v: seq<int>, h: nat)
    requires Shape(s, js, v)
  {
    forall p, q :: 0 <= p < |js| && 0 <= q < |js| && p != q && v[js[p]] == v[js[q]] ==> Agree(s, js[p], js[q], h)
  }

  ghost predicate Ranked(s: seq<Byte>, js: seq<int>, v: seq<int>, h: nat) {
    Shape(s, js, v) && Ordered(s, js, v) && Alike(s, js, v, h)
  }

  /** Positions a..e make up one group; everything before is ranked below a. */
  ghost predicate Open(js: seq<int>, v: seq<int>, a: int, e: int) {
    && 0 <= a <= e + 1 <= |js| && |js| == |v| && InRange(js, |js|)
    && (forall m :: a <= m <= e ==> v[js[m]] == e)
    && (forall m :: 0 <= m < a ==> v[js[m]] < a)
  }

  /** Suffixes of [a, b) come before those of [b, c). */
  ghost predicate Before(s: seq<Byte>, js: seq<int>, a: int, b: int, c: int) {
    && 0 <= a <= b <= c <= |js| && |js| == |s| + 1 && InRange(js, |js|)
    && forall m, k :: a <= m < b && b <= k < c ==> Less(s, js[m], js[k])
  }

  /** Suffixes of [a, b) agree on their first h bytes. */
  ghost predicate Same(s: seq<Byte>, js: seq<int>, a: int, b: int, h: nat) {
    && 0 <= a <= b <= |js|
    && forall m, k :: a <= m < b && a <= k < b && m != k ==> Agree(s, js[m], js[k], h)
  }

  ghost predicate Room(s: seq<Byte>, js: seq<int>, a: int, b: int, h: nat) {
    && 0 <= a <= b <= |js| == |s| + 1
    && forall m :: a <= m < b ==> 0 <= js[m] && js[m] + h <= |s|
  }

  /** The part [a, b) of the group that ends at e is still to be split. */
  ghost predicate Splitting(s: seq<Byte>, js: seq<int>, v: seq<int>, h: nat, a: int, b: int, e: int) {
    Ranked(s, js, v, h) && Open(js, v, a, e) && Room(s, js, a, b, h) && b <= e + 1 && Before(s, js, a, b, e + 1)
  }

  /** Whatever shares a group with a position of [a, b) agrees with it on k bytes. */
  ghost predicate Done(s: seq<Byte>, js: seq<int>, v: seq<int>, a: int, b: int, k: nat) {
    && 0 <= a <= b <= |js| == |v| && InRange(js, |js|)
    && forall p, q :: a <= p < b && 0 <= q < |js| && p != q && v[js[p]] == v[js[q]] ==> Agree(s, js[p], js[q], k)
  }

  ghost function Swapped(js: seq<int>, i: int, j: int): (r: seq<int>)
    requires 0 <= i < |js| && 0 <= j < |js|
    ensures |r| == |js|
  {
    js[i := js[j]][j := js[i]]
  }

  lemma SwapPerm(js: seq<int>, n: nat, i: int, j: int)
    requires IsPerm(js, n) && 0 <= i < n && 0 <= j < n
    ensures IsPerm(Swapped(js, i, j), n)
  {
  }

  /** Where the entry at m stood before the swap. */
  ghost function Back(i: int, j: int, m: int): int {
    if m == i then j else if m == j then i else m
  }

  lemma SwapAt(js: seq<int>, i: int, j: int)
    requires 0 <= i < |js| && 0 <= j < |js|
    ensures forall m :: 0 <= m < |js| ==> Swapped(js, i, j)[m] == js[Back(i, j, m)]
  {
  }

  lemma SwapShape(s: seq<Byte>, js: seq<int>, v: seq<int>, i: int, j: int)
    requires Shape(s, js, v) && 0 <= i < |js| && 0 <= j < |js| && v[js[i]] == v[js[j]]
    ensures Shape(s, Swapped(js, i, j), v)
    ensures forall p :: 0 <= p < |js| ==> v[Swapped(js, i, j)[p]] == v[js[p]]
  {
    SwapPerm(js, |js|, i, j);
    hide IsPerm;
    var t := Swapped(js, i, j);
    assert forall p :: 0 <= p < |js| ==> v[t[p]] == v[js[p]];
    hide Swapped;
  }

  lemma SwapOrdered(s: seq<Byte>, js: seq<int>, v: seq<int>, i: int, j: int)
    requires Shape(s, js, v) && 0 <= i < |js| && 0 <= j < |js| && Shape(s, Swapped(js, i, j), v) && Ordered(s, js, v)
    ensures Ordered(s, Swapped(js, i, j), v)
  {
    SwapAt(js, i, j);
    var t := Swapped(js, i, j);
    hide Swapped;
    forall p, q | 0 <= p < |t| && 0 <= q < |t| && v[t[p]] < v[t[q]] ensures Less(s, t[p], t[q]) {
      var p2, q2 := Back(i, j, p), Back(i, j, q);
      assert t[p] == js[p2] && t[q] == js[q2];
    }
  }

  lemma SwapAlike(s: seq<Byte>, js: seq<int>, v: seq<int>, h: nat, i: int, j: int)
    requires Shape(s, js, v) && 0 <= i < |js| && 0 <= j < |js| && Shape(s, Swapped(js, i, j), v) && Alike(s, js, v, h)
    ensures Alike(s, Swapped(js, i, j), v, h)
  {
    SwapAt(js, i, j);
    var t := Swapped(js, i, j);
    hide Swapped, Agree;
    forall p, q | 0 <= p < |t| && 0 <= q < |t| && p != q && v[t[p]] == v[t[q]] ensures Agree(s, t[p], t[q], h) {
      var p2, q2 := Back(i, j, p), Back(i, j, q);
      assert t[p] == js[p2] && t[q] == js[q2];
    }
  }

  lemma SwapRest(s: seq<Byte>, js: seq<int>, h: nat, a: int, b: int, e: int, i: int, j: int)
    requires Room(s, js, a, b, h) && Before(s, js, a, b, e) && a <= i < b && a <= j < b
    ensures Room(s, Swapped(js, i, j), a, b, h) && Before(s, Swapped(js, i, j), a, b, e)
  {
    SwapAt(js, i, j);
    var t := Swapped(js, i, j);
    hide Swapped;
    forall m | a <= m < b ensures 0 <= t[m] && t[m] + h <= |s| {
      var m2 := Back(i, j, m);
      assert t[m] == js[m2];
    }
    forall m, k | a <= m < b && b <= k < e ensures Less(s, t[m], t[k]) {
      var m2 := Back(i, j, m);
      assert t[m] == js[m2] && t[k] == js[k];
    }
  }

  lemma SwapSplitting(s: seq<Byte>, js: seq<int>, v: seq<int>, h: nat, a: int, b: int, e: int, i: int, j: int)
    requires Splitting(s, js, v, h, a, b, e) && a <= i < b && a <= j < b
    ensures Splitting(s, Swapped(js, i, j), v, h, a, b, e)
    ensures forall p :: 0 <= p < |js| ==> v[Swapped(js, i, j)[p]] == v[js[p]]
  {
    hide Ordered, Alike, Room, Before, IsPerm;
    SwapShape(s, js, v, i, j);
    SwapOrdered(s, js, v, i, j);
    SwapAlike(s, js, v, h, i, j);
    SwapRest(s, js, h, a, b, e + 1, i, j);
    hide Shape;
    SwapOpen(js, v, a, e, i, j);
  }

  lemma SwapOpen(js: seq<int>, v: seq<int>, a: int, e: int, i: int, j: int)
    requires Open(js, v, a, e) && 0 <= i < |js| && 0 <= j < |js|
    requires forall p :: 0 <= p < |js| ==> 0 <= Swapped(js, i, j)[p] < |v| && v[Swapped(js, i, j)[p]] == v[js[p]]
    ensures Open(Swapped(js, i, j), v, a, e)
  {
    hide Swapped;
  }

  /** Suffixes that agree so far compare as the ranks of what follows. */
  lemma KeyOrders(s: seq<Byte>, js: seq<int>, v: seq<int>, h: nat, x: int, y: int)
    requires Ranked(s, js, v, h) && Agree(s, x, y, h) && x != y
    ensures v[x + h] < v[y + h] ==> Less(s, x, y)
    ensures v[x + h] == v[y + h] ==> Agree(s, x, y, 2 * h)
  {
    var p := PermOnto(js, |js|, x + h);
    var q := PermOnto(js, |js|, y + h);
    AgreeShift(s, x, y, h);
    if v[x + h] == v[y + h] {
      AgreeMore(s, x, y, h, h);
    }
  }

  /** Keys that separate [a, c) from [c, b) put the former's suffixes first. */
  lemma KeysSplit(s: seq<Byte>, js: seq<int>, v: seq<int>, h: nat, a: int, c: int, b: int, e: int)
    requires Splitting(s, js, v, h, a, b, e) && a <= c <= b
    requires forall m, k :: a <= m < c && c <= k < b ==> v[js[m] + h] < v[js[k] + h]
    ensures Before(s, js, a, c, e + 1)
  {
    forall m, k | a <= m < c && c <= k < e + 1 ensures Less(s, js[m], js[k]) {
      if k < b {
        GroupAgrees(s, js, v, h, a, e, m, k);
        KeyOrders(s, js, v, h, js[m], js[k]);
      }
    }
  }

  lemma GroupAgrees(s: seq<Byte>, js: seq<int>, v: seq<int>, h: nat, a: int, e: int, m: int, k: int)
    requires Ranked(s, js, v, h) && Open(js, v, a, e) && a <= m <= e && a <= k <= e && m != k
    ensures Agree(s, js[m], js[k], h) && js[m] != js[k]
  {
  }

  /** Equal keys double the agreement. */
  lemma KeysSame(s: seq<Byte>, js: seq<int>, v: seq<int>, h: nat, a: int, b: int, e: int, c: int, d: int, x: int)
    requires Splitting(s, js, v, h, a, b, e) && a <= c <= d <= b
    requires forall m :: c <= m < d ==> v[js[m] + h] == x
    ensures Same(s, js, c, d, 2 * h)
  {
    forall m, k | c <= m < d && c <= k < d && m != k ensures Agree(s, js[m], js[k], 2 * h) {
      GroupAgrees(s, js, v, h, a, e, m, k);
      KeyOrders(s, js, v, h, js[m], js[k]);
    }
  }

  // ---------------------------------------------------------------- giving a part its own rank

  /** u gives positions a..g the rank g and leaves the others their rank in v. */
  ghost predicate Stamped(js: seq<int>, v: seq<int>, u: seq<int>, a: int, g: int) {
    && |u| == |v| == |js| && InRange(js, |js|)
    && (forall m :: 0 <= m < |js| && a <= m <= g ==> u[js[m]] == g)
    && (forall m :: 0 <= m < |js| && !(a <= m <= g) ==> u[js[m]] == v[js[m]])
  }

  lemma StampShape(s: seq<Byte>, js: seq<int>, v: seq<int>, u: seq<int>, a: int, g: int, e: int)
    requires Shape(s, js, v) && Open(js, v, a, e) && a <= g <= e && Stamped(js, v, u, a, g)
    ensures Shape(s, js, u) && Open(js, u, g + 1, e)
  {
    hide IsPerm;
  }

  lemma StampRanked(s: seq<Byte>, js: seq<int>, v: seq<int>, u: seq<int>, h: nat, a: int, g: int, e: int)
    requires Ranked(s, js, v, h) && Open(js, v, a, e) && a <= g <= e && Stamped(js, v, u, a, g)
    requires Before(s, js, a, g + 1, e + 1)
    ensures Ranked(s, js, u, h) && Open(js, u, g + 1, e)
  {
    StampShape(s, js, v, u, a, g, e);
    hide IsPerm, Agree;
    forall p, q | 0 <= p < |js| && 0 <= q < |js| && u[js[p]] < u[js[q]] ensures Less(s, js[p], js[q]) {
      StampOrder(s, js, v, u, a, g, e, p, q);
    }
    forall p, q | 0 <= p < |js| && 0 <= q < |js| && p != q && u[js[p]] == u[js[q]] ensures Agree(s, js[p], js[q], h) {
      StampEqual(s, js, v, u, a, g, e, p, q);
    }
  }

  lemma StampOrder(s: seq<Byte>, js: seq<int>, v: seq<int>, u: seq<int>, a: int, g: int, e: int, p: int, q: int)
    requires Shape(s, js, v) && Open(js, v, a, e) && a <= g <= e && Stamped(js, v, u, a, g)
    requires 0 <= p < |js| && 0 <= q < |js| && u[js[p]] < u[js[q]]
    ensures v[js[p]] < v[js[q]] || (a <= p <= g < q <= e)
  {
    hide IsPerm;
    assert q >= p ==> v[js[p]] <= v[js[q]];
  }

  lemma StampEqual(s: seq<Byte>, js: seq<int>, v: seq<int>, u: seq<int>, a: int, g: int, e: int, p: int, q: int)
    requires Shape(s, js, v) && Open(js, v, a, e) && a <= g <= e && Stamped(js, v, u, a, g)
    requires 0 <= p < |js| && 0 <= q < |js| && u[js[p]] == u[js[q]]
    ensures v[js[p]] == v[js[q]] && (a <= p <= g <==> a <= q <= g)
  {
    hide IsPerm;
  }

  lemma StampDone(s: seq<Byte>, js: seq<int>, v: seq<int>, u: seq<int>, a: int, g: int, e: int, k: nat)
    requires Shape(s, js, v) && Open(js, v, a, e) && a <= g <= e && Stamped(js, v, u, a, g)
    requires Same(s, js, a, g + 1, k)
    ensures Done(s, js, u, a, g + 1, k)
  {
    forall p, q | a <= p < g + 1 && 0 <= q < |js| && p != q && u[js[p]] == u[js[q]] ensures Agree(s, js[p], js[q], k) {
      StampEqual(s, js, v, u, a, g, e, p, q);
    }
  }

  lemma StampSplitting(s: seq<Byte>, js: seq<int>, v: seq<int>, u: seq<int>, h: nat, a: int, g: int, b: int, e: int)
    requires Splitting(s, js, v, h, a, b, e) && a <= g < b && Stamped(js, v, u, a, g)
    requires Before(s, js, a, g + 1, e + 1)
    ensures Splitting(s, js, u, h, g + 1, b, e)
  {
    StampRanked(s, js, v, u, h, a, g, e);
    hide Ranked;
  }

  // ---------------------------------------------------------------- what changes elsewhere

  /** From (js, v) to (t, u) only positions a..b-1 have changed their suffix or their rank. */
  ghost predicate Outside(js: seq<int>, v: seq<int>, t: seq<int>, u: seq<int>, a: int, b: int) {
    && |js| == |v| == |t| == |u| && InRange(js, |js|) && InRange(t, |t|)
    && (forall m :: 0 <= m < |js| && !(a <= m < b) ==> t[m] == js[m] && u[js[m]] == v[js[m]])
  }

  lemma DoneKept(s: seq<Byte>, js: seq<int>, v: seq<int>, t: seq<int>, u: seq<int>, a: int, b: int, c: int, d: int, k: nat)
    requires Done(s, js, v, a, b, k) && Outside(js, v, t, u, c, d) && b <= c
    requires forall m :: 0 <= m < b ==> v[js[m]] < b
    requires forall m :: 0 <= m < |t| ==> u[t[m]] >= m
    ensures Done(s, t, u, a, b, k)
  {
    hide Agree;
    forall p, q | a <= p < b && 0 <= q < |t| && p != q && u[t[p]] == u[t[q]] ensures Agree(s, t[p], t[q], k) {
      assert t[p] == js[p] && u[js[p]] == v[js[p]] < b;
      assert q < b;
      assert t[q] == js[q];
    }
  }

  lemma DoneJoin(s: seq<Byte>, js: seq<int>, v: seq<int>, a: int, b: int, c: int, k: nat)
    requires Done(s, js, v, a, b, k) && Done(s, js, v, b, c, k)
    ensures Done(s, js, v, a, c, k)
  {
  }

  /** The first part split off, the rest of the group is as before. */
  lemma SplittingRest(s: seq<Byte>, js: seq<int>, v: seq<int>, t: seq<int>, u: seq<int>, h: nat, a: int, c: int, b: int, e: int)
    requires Splitting(s, js, v, h, a, b, e) && a <= c <= b && Outside(js, v, t, u, a, c)
    requires Ranked(s, t, u, h) && Open(t, u, c, e)
    ensures Splitting(s, t, u, h, c, b, e)
  {
    hide Ranked, Open;
  }

  lemma SplittingFirst(s: seq<Byte>, js: seq<int>, v: seq<int>, h: nat, a: int, c: int, b: int, e: int)
    requires Splitting(s, js, v, h, a, b, e) && a <= c <= b && Before(s, js, a, c, e + 1)
    ensures Splitting(s, js, v, h, a, c, e)
  {
    hide Ranked, Open;
  }
}
