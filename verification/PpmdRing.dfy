/** The doubly linked ring of free blocks that gluing builds in the PPMd heap. */
module PpmdRing {
  import opened Permutations
  import opened PpmdTables
  import opened PpmdHeap

  /** Node k of the ring; the head, which stands after the heap, comes before the first and after the last. */
  function At(l: seq<nat>, end: nat, k: int): nat {
    if 0 <= k < |l| then l[k] else end
  }

  ghost predicate RingAt(mem: seq<Cell>, l: seq<nat>, end: nat, k: int) {
    && At(l, end, k) < |mem| && At(l, end, k + 1) < |mem|
    && mem[At(l, end, k)].next == At(l, end, k + 1) && mem[At(l, end, k + 1)].prev == At(l, end, k)
  }

  /** The links from node `from` on hold; from -1 on they are the whole ring's. */
  ghost predicate Ring(mem: seq<Cell>, l: seq<nat>, end: nat, from: int) {
    && end < |mem| && Distinct(l) && end !in l && (forall x :: x in l ==> x < |mem|)
    && forall k {:trigger RingAt(mem, l, end, k)} :: from <= k < |l| ==> RingAt(mem, l, end, k)
  }

  /** Nodes have stamp 0 and their size. */
  ghost predicate Nodes(mem: seq<Cell>, b: Book) {
    && Shape(b) && |mem| == b.end + 1
    && forall x :: x in b.lists[RING] ==> x < b.end && Stamp(mem[x]) == 0 && NU(mem[x]) == b.len[x] && b.len[x] < 65536
  }

  // ---------------------------------------------------------------- building

  /** Node x in front of node n, with its size noted. */
  function Pushed(mem: seq<Cell>, x: nat, n: nat, nu: nat): seq<Cell>
    requires x < |mem| && n < |mem|
  {
    mem[x := Marked(mem[x].(next := n), 0, nu)][n := mem[n].(prev := x)]
  }

  lemma PushRing(mem: seq<Cell>, l: seq<nat>, end: nat, x: nat, nu: nat)
    requires Ring(mem, l, end, 0) && x < |mem| && x !in l && x != end && At(l, end, 0) < |mem|
    ensures Ring(Pushed(mem, x, At(l, end, 0), nu), [x] + l, end, 0)
  {
    var n := At(l, end, 0);
    var mem2, m := Pushed(mem, x, n, nu), [x] + l;
    DistinctMore(x, l);
    forall k | 0 <= k < |m| ensures RingAt(mem2, m, end, k) {
      assert At(m, end, k) == (if k == 0 then x else At(l, end, k - 1)) && At(m, end, k + 1) == At(l, end, k);
      if k > 0 {
        assert RingAt(mem, l, end, k - 1);
        FirstOnly(l, end, k);
      }
    }
  }

  lemma FirstOnly(l: seq<nat>, end: nat, k: int)
    requires Distinct(l) && end !in l && 0 < k <= |l|
    ensures At(l, end, k) != At(l, end, 0) && At(l, end, k - 1) != end
  {
  }

  /** Blocks and lists when the first block of list i, x, goes to the ring. */
  function ToRing(b: Book, i: nat): Book
    requires Shape(b) && i < INDEXES && b.lists[i] != [] && b.lists[i][0] < b.end
  {
    Give(Take(b, i, 0), b.lists[i][0], RING)
  }

  lemma ToRingGood(b: Book, i: nat)
    requires Good(b) && i < INDEXES && b.lists[i] != []
    ensures b.lists[i][0] < b.end && Good(ToRing(b, i))
    ensures forall t :: UsedLen(ToRing(b, i), t) == UsedLen(b, t)
    ensures ToRing(b, i).lists == b.lists[i := b.lists[i][1..]][RING := [b.lists[i][0]] + b.lists[RING]]
    ensures b.lists[i][0] !in b.lists[RING] && b.len[b.lists[i][0]] == Units(i)
  {
    var x := b.lists[i][0];
    TakeGood(b, i, 0);
    GiveGood(Take(b, i, 0), x, RING);
    assert b.lists[i][..0] + b.lists[i][0 + 1..] == b.lists[i][1..];
    if x in b.lists[RING] {
      var j :| 0 <= j < |b.lists[RING]| && b.lists[RING][j] == x;
      OneHome(b, i, 0, RING, j);
    }
  }

  lemma ToRingMemory(mem: seq<Cell>, free: seq<nat>, b: Book, i: nat, n: nat)
    requires Good(b) && Chains(mem, free, b) && Nodes(mem, b) && i < INDEXES && b.lists[i] != []
    requires 0 < free[i] < b.end && Ring(mem, b.lists[RING], b.end, 0) && n == At(b.lists[RING], b.end, 0)
    ensures b.lists[i][0] == free[i] && n < |mem|
    ensures Ring(Pushed(mem, free[i], n, Units(i)), ToRing(b, i).lists[RING], b.end, 0)
    ensures Chains(Pushed(mem, free[i], n, Units(i)), free[i := mem[free[i]].word], ToRing(b, i))
    ensures Nodes(Pushed(mem, free[i], n, Units(i)), ToRing(b, i))
  {
    hide Units, Tiled, Listed, Chain, Ring, Marked;
    ToRingGood(b, i);
    ChainsTake(mem, free, b, i);
    TakeGood(b, i, 0);
    var x := free[i];
    assert Ring(Pushed(mem, x, n, Units(i)), [x] + b.lists[RING], b.end, 0) by { RingPlaces(mem, b); PushRing(mem, b.lists[RING], b.end, x, Units(i)); }
    RingPlaces(mem, b);
    PushedChains(mem, free[i := mem[x].word], Take(b, i, 0), x, n, Units(i), b);
    PushedNodes(mem, b, x, n, i);
  }

  lemma RingPlaces(mem: seq<Cell>, b: Book)
    requires Shape(b) && Ring(mem, b.lists[RING], b.end, 0)
    ensures At(b.lists[RING], b.end, 0) < |mem|
    ensures b.lists[RING] != [] ==> At(b.lists[RING], b.end, 0) in b.lists[RING]
  {
    var l := b.lists[RING];
    if l != [] {
      assert At(l, b.end, 0) == l[0] && l[0] in l;
    }
  }

  /** The words of x and n are not part of any list. */
  lemma PushedChains(mem: seq<Cell>, free: seq<nat>, c: Book, x: nat, n: nat, nu: nat, b: Book)
    requires Chains(mem, free, c) && Good(c) && Shape(b) && x < b.end == c.end && UsedLen(c, x) > 0 && |mem| == c.end + 1 && n <= c.end && n != x
    ensures Chains(Pushed(mem, x, n, nu), free, Give(c, x, RING))
  {
    hide Chain, Tiled, Units;
    ChainsKept(mem, x, Marked(mem[x].(next := n), 0, nu), free, c);
    var mem1 := mem[x := Marked(mem[x].(next := n), 0, nu)];
    ChainsKept(mem1, n, mem1[n].(prev := x), free, c);
    assert mem1[n := mem1[n].(prev := x)] == Pushed(mem, x, n, nu);
    forall j | 0 <= j < INDEXES ensures Chain(Pushed(mem, x, n, nu), free[j], Give(c, x, RING).lists[j]) {
      assert Chain(Pushed(mem, x, n, nu), free[j], c.lists[j]);
    }
  }

  lemma PushedNodes(mem: seq<Cell>, b: Book, x: nat, n: nat, i: nat)
    requires Good(b) && Nodes(mem, b) && i < INDEXES && b.lists[i] != [] && b.lists[i][0] == x < b.end && n <= b.end && n != x
    ensures Nodes(Pushed(mem, x, n, Units(i)), ToRing(b, i))
  {
    hide Good, Marked;
    ToRingGood(b, i);
    Largest();
    hide Units;
    MarkedIs(mem[x].(next := n), 0, Units(i));
    forall y | y in ToRing(b, i).lists[RING]
      ensures y < b.end && Stamp(Pushed(mem, x, n, Units(i))[y]) == 0 && NU(Pushed(mem, x, n, Units(i))[y]) == b.len[y] && b.len[y] < 65536
    {
      if y != x { assert y in b.lists[RING]; }
    }
  }

  /** The head closes the ring. */
  lemma CloseRing(mem: seq<Cell>, l: seq<nat>, end: nat, mem2: seq<Cell>)
    requires Ring(mem, l, end, 0) && |mem2| == |mem| && At(l, end, 0) < |mem|
    requires mem2[end].next == At(l, end, 0) && mem2[At(l, end, 0)].prev == end
    requires forall y :: 0 <= y < |mem| ==> (y == end || mem2[y].next == mem[y].next) && (y == At(l, end, 0) || mem2[y].prev == mem[y].prev)
    ensures Ring(mem2, l, end, -1)
  {
    forall k | -1 <= k < |l| ensures RingAt(mem2, l, end, k) {
      if k >= 0 {
        assert RingAt(mem, l, end, k);
        FirstOnly(l, end, k + 1);
      }
    }
  }

  // ---------------------------------------------------------------- unlinking

  function Unlinked(mem: seq<Cell>, m: nat): seq<Cell>
    requires m < |mem| && mem[m].prev < |mem| && mem[m].next < |mem|
  {
    var p, q := mem[m].prev, mem[m].next;
    var mem1 := mem[p := mem[p].(next := q)];
    mem1[q := mem1[q].(prev := p)]
  }

  lemma UnlinkRing(mem: seq<Cell>, l: seq<nat>, end: nat, j: nat)
    requires Ring(mem, l, end, -1) && j < |l| && l[j] < |mem|
    ensures mem[l[j]].prev == At(l, end, j - 1) < |mem| && mem[l[j]].next == At(l, end, j + 1) < |mem|
    ensures Ring(Unlinked(mem, l[j]), l[..j] + l[j + 1..], end, -1)
  {
    assert RingAt(mem, l, end, j - 1) && RingAt(mem, l, end, j);
    var m := l[..j] + l[j + 1..];
    DistinctLess(l, j);
    var mem2 := Unlinked(mem, l[j]);
    forall k | -1 <= k < |m| ensures RingAt(mem2, m, end, k) {
      var i := if k < j then k else k + 1;
      assert At(m, end, k) == At(l, end, i);
      assert At(m, end, k + 1) == At(l, end, if k + 1 < j then k + 1 else k + 2);
      assert RingAt(mem, l, end, i);
      Others(l, end, j, i);
    }
    forall x | x in m ensures x < |mem2| && x != end { assert x in l; }
  }

  /** Only node j - 1 is before node j, and only j + 1 behind it. */
  lemma Others(l: seq<nat>, end: nat, j: nat, i: int)
    requires Distinct(l) && end !in l && j < |l| && -1 <= i < |l| && i != j
    ensures i != j - 1 ==> At(l, end, i) != At(l, end, j - 1)
    ensures At(l, end, i + 1) == At(l, end, j + 1) ==> i + 1 == j + 1
  {
    assert 0 <= i < |l| ==> At(l, end, i) == l[i];
    assert 0 <= i + 1 < |l| ==> At(l, end, i + 1) == l[i + 1];
    assert 0 <= j - 1 ==> At(l, end, j - 1) == l[j - 1];
    assert j + 1 < |l| ==> At(l, end, j + 1) == l[j + 1];
  }
}
