/** What gluing free blocks of the PPMd heap keeps: one block swallows the free one behind it, or is cut up again. */
module PpmdGlue {
  import opened Permutations
  import opened PpmdTables
  import opened PpmdHeap
  import opened PpmdRing

  /** Whatever is not a free block begins with a stamp that is not 0. */
  ghost predicate Stamped(mem: seq<Cell>, b: Book) {
    && |mem| == b.end + 1
    && forall u :: 0 <= u < |mem| && UsedLen(b, u) > 0 ==> Stamp(mem[u]) != 0
  }

  ghost predicate Fenced(mem: seq<Cell>, b: Book) {
    Stamped(mem, b) && Stamp(mem[b.end]) != 0 && (b.lo < b.hi <= b.end ==> Stamp(mem[b.lo]) != 0)
  }

  /** All free blocks are in the ring. */
  ghost predicate OnlyRing(b: Book) {
    |b.lists| == RING + 1 && forall i :: 0 <= i < INDEXES ==> b.lists[i] == []
  }

  /** The cells of users' blocks are as they were. */
  ghost predicate Kept(b: Book, was: seq<Cell>, mem: seq<Cell>) {
    && |was| == |mem| == b.end + 1
    && forall s, u :: 0 <= s <= u < s + UsedLen(b, s) && u <= b.end ==> mem[u] == was[u]
  }

  lemma KeptWrite(b: Book, was: seq<Cell>, mem: seq<Cell>, x: nat, c: Cell)
    requires Good(b) && Kept(b, was, mem) && x <= b.end
    requires x == b.end || b.lo <= x < b.hi || (b.len[x] > 0 && UsedLen(b, x) == 0)
    ensures Kept(b, was, mem[x := c])
  {
    forall s, u | 0 <= s <= u < s + UsedLen(b, s) && u <= b.end ensures mem[x := c][u] == was[u] {
      if u == x {
        BlockPlace(b, s);
        if x < b.end && b.len[x] > 0 { Apart(b, s, x, x); }
      }
    }
  }

  /** Cells that changed inside a block that is no longer a user's. */
  lemma KeptRange(b: Book, was: seq<Cell>, mem: seq<Cell>, mem2: seq<Cell>, x: nat, k: nat)
    requires Good(b) && Kept(b, was, mem) && x < b.end && 0 < k == b.len[x] && UsedLen(b, x) == 0 && |mem2| == |mem|
    requires forall u :: 0 <= u < |mem| && !(x <= u < x + k) ==> mem2[u] == mem[u]
    ensures Kept(b, was, mem2)
  {
    forall s, u | 0 <= s <= u < s + UsedLen(b, s) && u <= b.end ensures mem2[u] == was[u] {
      if x <= u < x + k {
        BlockPlace(b, s);
        Apart(b, s, x, u);
      }
    }
  }

  lemma KeptSame(b: Book, c: Book, was: seq<Cell>, mem: seq<Cell>)
    requires Kept(b, was, mem) && c.end == b.end && forall t :: UsedLen(c, t) == UsedLen(b, t)
    ensures Kept(c, was, mem)
  {
  }

  /** Behind a node comes a free block exactly if the stamp there is 0. */
  lemma NextBlock(mem: seq<Cell>, b: Book, n: nat)
    requires Good(b) && Nodes(mem, b) && Fenced(mem, b) && OnlyRing(b) && n in b.lists[RING]
    ensures n < b.end && b.len[n] > 0 && b.home[n] == RING && n + b.len[n] < |mem|
    ensures Stamp(mem[n + b.len[n]]) == 0 ==> n + b.len[n] in b.lists[RING]
  {
    assert EntryOk(b, RING, n);
    BlockPlace(b, n);
    var e := n + b.len[n];
    if e < b.end && b.len[e] > 0 {
      HasHome(b, e);
    }
  }

  /** Node k of the ring swallows node j, which stands behind it in the heap. */
  function Absorb(b: Book, k: nat, j: nat): Book
    requires Shape(b) && k < |b.lists[RING]| && j < |b.lists[RING]|
    requires b.lists[RING][k] < b.end && b.lists[RING][j] < b.end
  {
    var n, m, l := b.lists[RING][k], b.lists[RING][j], b.lists[RING];
    b.(len := b.len[n := b.len[n] + b.len[m]][m := 0], lists := b.lists[RING := l[..j] + l[j + 1..]])
  }

  lemma AbsorbGood(b: Book, k: nat, j: nat)
    requires Good(b) && k < |b.lists[RING]| && j < |b.lists[RING]| && b.lists[RING][k] < b.end
    requires b.lists[RING][j] == b.lists[RING][k] + b.len[b.lists[RING][k]]
    ensures b.lists[RING][j] < b.end && Good(Absorb(b, k, j))
    ensures forall t :: UsedLen(Absorb(b, k, j), t) == UsedLen(b, t)
  {
    var n, m, l := b.lists[RING][k], b.lists[RING][j], b.lists[RING];
    assert n in l && m in l;
    assert EntryOk(b, RING, n) && EntryOk(b, RING, m);
    var c := Absorb(b, k, j);
    JoinTiled(b, n);
    HomesFree(Join(b, n), c);
    hide Tiled, Units;
    assert Distinct(l);
    DistinctLess(l, j);
    forall i, x | 0 <= i <= RING && x in c.lists[i] ensures EntryOk(c, i, x) {
      assert x in b.lists[i] && EntryOk(b, i, x);
    }
    forall u | 0 <= u < c.end && c.len[u] > 0 ensures HomeOk(c, u) { assert HomeOk(b, u); }
    forall i | 0 <= i <= RING ensures Distinct(c.lists[i]) { assert Distinct(b.lists[i]); }
  }

  /** The memory then: j unlinked, k with the sum of the sizes. */
  function Absorbed(mem: seq<Cell>, n: nat, m: nat, nu: nat): seq<Cell>
    requires n < |mem| && m < |mem| && mem[m].prev < |mem| && mem[m].next < |mem|
  {
    var mem1 := Unlinked(mem, m);
    mem1[n := Marked(mem1[n], Stamp(mem1[n]), nu)]
  }

  lemma AbsorbMemory(mem: seq<Cell>, b: Book, k: nat, j: nat, nu: nat)
    requires Good(b) && Nodes(mem, b) && Fenced(mem, b) && Ring(mem, b.lists[RING], b.end, -1)
    requires k < |b.lists[RING]| && j < |b.lists[RING]| && b.lists[RING][k] < b.end
    requires b.lists[RING][j] == b.lists[RING][k] + b.len[b.lists[RING][k]] < b.end && nu < 65536
    requires nu == b.len[b.lists[RING][k]] + b.len[b.lists[RING][j]]
    ensures var m := b.lists[RING][j]; mem[m].prev < |mem| && mem[m].next < |mem|
    ensures var mem2 := Absorbed(mem, b.lists[RING][k], b.lists[RING][j], nu);
            Ring(mem2, Absorb(b, k, j).lists[RING], b.end, -1) && Nodes(mem2, Absorb(b, k, j)) && Fenced(mem2, Absorb(b, k, j))
  {
    var n, m, l := b.lists[RING][k], b.lists[RING][j], b.lists[RING];
    assert n in l && m in l;
    assert EntryOk(b, RING, n) && EntryOk(b, RING, m);
    UnlinkRing(mem, l, b.end, j);
    AbsorbGood(b, k, j);
    AbsorbWords(mem, n, m, nu);
    hide Good, Absorbed, Unlinked, Stamp, NU;
    RingWords(Unlinked(mem, m), Absorbed(mem, n, m, nu), l[..j] + l[j + 1..], b.end, -1);
    AbsorbNodes(mem, Absorbed(mem, n, m, nu), b, k, j);
  }

  lemma AbsorbWords(mem: seq<Cell>, n: nat, m: nat, nu: nat)
    requires n < |mem| && m < |mem| && mem[m].prev < |mem| && mem[m].next < |mem| && Stamp(mem[n]) == 0
    ensures var mem2 := Absorbed(mem, n, m, nu);
            |mem2| == |mem| && (forall u :: 0 <= u < |mem| ==> mem2[u].next == Unlinked(mem, m)[u].next && mem2[u].prev == Unlinked(mem, m)[u].prev)
    ensures var mem2 := Absorbed(mem, n, m, nu);
            forall u :: 0 <= u < |mem| ==> (Stamp(mem2[u]) == Stamp(mem[u]) && NU(mem2[u]) == if u == n then nu else NU(mem[u]))
  {
    hide Marked;
    var c := Unlinked(mem, m)[n];
    MarkedIs(c, Stamp(c), nu);
    MarkedLinks(c, Stamp(c), nu);
    forall u | 0 <= u < |mem| ensures Unlinked(mem, m)[u].word == mem[u].word { }
  }

  lemma AbsorbNodes(mem: seq<Cell>, mem2: seq<Cell>, b: Book, k: nat, j: nat)
    requires Good(b) && Nodes(mem, b) && Fenced(mem, b) && |mem2| == |mem|
    requires k < |b.lists[RING]| && j < |b.lists[RING]| && b.lists[RING][k] < b.end
    requires b.lists[RING][j] == b.lists[RING][k] + b.len[b.lists[RING][k]] < b.end
    requires b.len[b.lists[RING][k]] + b.len[b.lists[RING][j]] < 65536
    requires var nu := b.len[b.lists[RING][k]] + b.len[b.lists[RING][j]]; var n := b.lists[RING][k];
             forall u :: 0 <= u < |mem| ==> (Stamp(mem2[u]) == Stamp(mem[u]) && NU(mem2[u]) == if u == n then nu else NU(mem[u]))
    ensures Nodes(mem2, Absorb(b, k, j)) && Fenced(mem2, Absorb(b, k, j))
  {
    AbsorbGood(b, k, j);
    hide Tiled, Listed, Stamp, NU;
    var n, m, l := b.lists[RING][k], b.lists[RING][j], b.lists[RING];
    assert Distinct(l) by { RingDistinct(b); }
    DistinctLess(l, j);
    assert n in l && m in l;
    var c := Absorb(b, k, j);
    forall x | x in c.lists[RING] ensures x < c.end && Stamp(mem2[x]) == 0 && NU(mem2[x]) == c.len[x] && c.len[x] < 65536 {
      assert x in l && x != m;
    }
  }

  lemma RingDistinct(b: Book)
    requires Good(b)
    ensures Distinct(b.lists[RING])
  {
  }

  lemma MarkedLinks(c: Cell, stamp: nat, nu: nat)
    ensures Marked(c, stamp, nu).next == c.next && Marked(c, stamp, nu).prev == c.prev
  {
  }

  /** The ring is links only. */
  lemma RingWords(mem: seq<Cell>, mem2: seq<Cell>, l: seq<nat>, end: nat, from: int)
    requires Ring(mem, l, end, from) && |mem2| == |mem| && from >= -1
    requires forall u :: 0 <= u < |mem| ==> mem2[u].next == mem[u].next && mem2[u].prev == mem[u].prev
    ensures Ring(mem2, l, end, from)
  {
    forall k | from <= k < |l| ensures RingAt(mem2, l, end, k) { assert RingAt(mem, l, end, k); }
  }

  lemma AbsorbKept(b: Book, was: seq<Cell>, mem: seq<Cell>, k: nat, j: nat, nu: nat)
    requires Good(b) && Kept(b, was, mem) && Ring(mem, b.lists[RING], b.end, -1)
    requires k < |b.lists[RING]| && j < |b.lists[RING]| && b.lists[RING][k] < b.end && b.lists[RING][j] < b.end
    ensures var m := b.lists[RING][j]; mem[m].prev < |mem| && mem[m].next < |mem|
    ensures Kept(b, was, Absorbed(mem, b.lists[RING][k], b.lists[RING][j], nu))
  {
    var n, m, l := b.lists[RING][k], b.lists[RING][j], b.lists[RING];
    UnlinkRing(mem, l, b.end, j);
    var p, q := mem[m].prev, mem[m].next;
    RingFree(b, j - 1);
    RingFree(b, j + 1);
    RingFree(b, k);
    hide Good, Kept, Ring;
    KeptWrite(b, was, mem, p, mem[p].(next := q));
    var mem1 := mem[p := mem[p].(next := q)];
    KeptWrite(b, was, mem1, q, mem1[q].(prev := p));
    var mem2 := mem1[q := mem1[q].(prev := p)];
    KeptWrite(b, was, mem2, n, Marked(mem2[n], Stamp(mem2[n]), nu));
  }

  lemma RingFree(b: Book, k: int)
    requires Good(b)
    ensures var x := At(b.lists[RING], b.end, k); x <= b.end && (x < b.end ==> b.len[x] > 0 && UsedLen(b, x) == 0)
  {
    hide Tiled;
    if 0 <= k < |b.lists[RING]| {
      assert b.lists[RING][k] in b.lists[RING];
      assert EntryOk(b, RING, b.lists[RING][k]);
    }
  }

  // ---------------------------------------------------------------- the three passes

  ghost predicate Linked(was: seq<Cell>, mem: seq<Cell>, free: seq<nat>, b: Book) {
    Good(b) && Chains(mem, free, b) && Nodes(mem, b) && Kept(b, was, mem)
  }

  /** Free lists are being emptied into a ring that is open at n. */
  ghost predicate Collecting(was: seq<Cell>, mem: seq<Cell>, free: seq<nat>, b: Book, n: nat) {
    Linked(was, mem, free, b) && Ring(mem, b.lists[RING], b.end, 0) && n == At(b.lists[RING], b.end, 0)
  }

  lemma CollectStep(was: seq<Cell>, mem: seq<Cell>, free: seq<nat>, b: Book, n: nat, i: nat)
    requires Collecting(was, mem, free, b, n) && i < INDEXES && b.lists[i] != []
    ensures free[i] < b.end && n <= b.end && n != free[i] && |mem| == b.end + 1 && |free| == INDEXES && Shape(b) && b.lists[i][0] == free[i]
    ensures Collecting(was, Pushed(mem, free[i], n, Units(i)), free[i := mem[free[i]].word], ToRing(b, i), free[i])
    ensures forall t :: UsedLen(ToRing(b, i), t) == UsedLen(b, t)
    ensures ToRing(b, i).lists == b.lists[i := b.lists[i][1..]][RING := [b.lists[i][0]] + b.lists[RING]]
  {
    hide Units, Tiled, Listed, Chain, Ring, Marked, Nodes, Kept, ToRing, Pushed;
    ChainHead(mem, free, b, i);
    ToRingGood(b, i);
    NodesSize(mem, b);
    RingStart(b, n);
    ToRingMemory(mem, free, b, i, n);
    var x := free[i];
    PlaceOf(b, i);
    KeptPushed(was, mem, b, x, n, Units(i));
    ToRingEnd(b, i);
    KeptSame(b, ToRing(b, i), was, Pushed(mem, x, n, Units(i)));
  }

  lemma NodesSize(mem: seq<Cell>, b: Book)
    requires Nodes(mem, b)
    ensures |mem| == b.end + 1
  {
  }

  lemma ToRingEnd(b: Book, i: nat)
    requires Shape(b) && i < INDEXES && b.lists[i] != [] && b.lists[i][0] < b.end
    ensures var c := ToRing(b, i); c.end == b.end && c.start == b.start && c.lo == b.lo && c.hi == b.hi
  {
  }

  lemma RingStart(b: Book, n: nat)
    requires Good(b) && n == At(b.lists[RING], b.end, 0)
    ensures n <= b.end && (n < b.end ==> n in b.lists[RING] && b.len[n] > 0 && UsedLen(b, n) == 0)
  {
    RingFree(b, 0);
  }

  lemma PlaceOf(b: Book, i: nat)
    requires Good(b) && i <= RING && b.lists[i] != []
    ensures 0 < b.lists[i][0] < b.end && b.len[b.lists[i][0]] > 0 && UsedLen(b, b.lists[i][0]) == 0
  {
    hide Tiled;
    assert b.lists[i][0] in b.lists[i];
    assert EntryOk(b, i, b.lists[i][0]);
  }

  lemma KeptPushed(was: seq<Cell>, mem: seq<Cell>, b: Book, x: nat, n: nat, nu: nat)
    requires Good(b) && Kept(b, was, mem) && x < b.end && b.len[x] > 0 && UsedLen(b, x) == 0 && n != x && |mem| == b.end + 1
    requires n <= b.end && (n < b.end ==> b.len[n] > 0 && UsedLen(b, n) == 0)
    ensures Kept(b, was, Pushed(mem, x, n, nu))
  {
    hide Good, Kept, Marked, UsedLen;
    var c := Marked(mem[x].(next := n), 0, nu);
    KeptWrite(b, was, mem, x, c);
    KeptWrite(b, was, mem[x := c], n, mem[n].(prev := x));
  }

  /** The ring is closed and fenced off: what is not free has a stamp. */
  ghost predicate Joining(was: seq<Cell>, mem: seq<Cell>, free: seq<nat>, b: Book) {
    Linked(was, mem, free, b) && OnlyRing(b) && Fenced(mem, b) && Ring(mem, b.lists[RING], b.end, -1)
  }

  /** Head, first node and gap get what they need. */
  function Closing(mem: seq<Cell>, b: Book, n: nat): (r: seq<Cell>)
    requires |mem| == b.end + 1 && n <= b.end && b.lo <= b.end
    ensures |r| == |mem|
  {
    var mem1 := mem[b.end := Marked(mem[b.end], 1, NU(mem[b.end])).(next := n)];
    var mem2 := mem1[n := mem1[n].(prev := b.end)];
    if b.lo != b.hi then mem2[b.lo := Marked(mem2[b.lo], 1, NU(mem2[b.lo]))] else mem2
  }

  lemma CloseAll(was: seq<Cell>, mem: seq<Cell>, free: seq<nat>, b: Book, n: nat)
    requires Collecting(was, mem, free, b, n) && OnlyRing(b) && Stamped(was, b)
    ensures |mem| == b.end + 1 && n <= b.end && b.lo <= b.hi <= b.end
    ensures Joining(was, Closing(mem, b, n), free, b)
  {
    hide Chain, Marked, Listed;
    RingStart(b, n);
    var mem1 := mem[b.end := Marked(mem[b.end], 1, NU(mem[b.end])).(next := n)];
    var mem2 := mem1[n := mem1[n].(prev := b.end)];
    MarkedIs(mem[b.end], 1, NU(mem[b.end]));
    MarkedIs(mem2[b.lo], 1, NU(mem2[b.lo]));
    MarkedLinks(mem[b.end], 1, NU(mem[b.end]));
    MarkedLinks(mem2[b.lo], 1, NU(mem2[b.lo]));
    CloseRing(mem, b.lists[RING], b.end, Closing(mem, b, n));
    CloseKept(was, mem, b, n);
    CloseFence(was, Closing(mem, b, n), b);
    CloseNodes(mem, b, n);
    EmptyChains(mem, free, b, Closing(mem, b, n), b);
  }

  lemma CloseKept(was: seq<Cell>, mem: seq<Cell>, b: Book, n: nat)
    requires Good(b) && Kept(b, was, mem) && |mem| == b.end + 1 && n <= b.end && (n < b.end ==> b.len[n] > 0 && UsedLen(b, n) == 0)
    ensures Kept(b, was, Closing(mem, b, n))
  {
    assert b.lo <= b.hi <= b.end;
    hide Good, Kept, Marked, UsedLen;
    var c := Marked(mem[b.end], 1, NU(mem[b.end])).(next := n);
    KeptWrite(b, was, mem, b.end, c);
    var mem1 := mem[b.end := c];
    KeptWrite(b, was, mem1, n, mem1[n].(prev := b.end));
    var mem2 := mem1[n := mem1[n].(prev := b.end)];
    if b.lo != b.hi { KeptWrite(b, was, mem2, b.lo, Marked(mem2[b.lo], 1, NU(mem2[b.lo]))); }
  }

  lemma CloseFence(was: seq<Cell>, mem: seq<Cell>, b: Book)
    requires Good(b) && Kept(b, was, mem) && Stamped(was, b) && |mem| == b.end + 1
    requires Stamp(mem[b.end]) != 0 && (b.lo < b.hi ==> Stamp(mem[b.lo]) != 0)
    ensures Fenced(mem, b)
  {
    hide Good, Stamp;
    forall u | 0 <= u < |mem| && UsedLen(b, u) > 0 ensures Stamp(mem[u]) != 0 {
      assert mem[u] == was[u];
    }
  }

  lemma CloseNodes(mem: seq<Cell>, b: Book, n: nat)
    requires Good(b) && Nodes(mem, b) && n <= b.end
    ensures b.lo <= b.hi <= b.end && |mem| == b.end + 1 && Nodes(Closing(mem, b, n), b)
  {
    hide Marked, Stamp, NU;
    forall x | x in b.lists[RING] ensures x < b.end && Closing(mem, b, n)[x].word == mem[x].word {
      assert EntryOk(b, RING, x);
      assert b.lo < b.hi ==> x != b.lo;
    }
    forall x | x in b.lists[RING] ensures Stamp(Closing(mem, b, n)[x]) == Stamp(mem[x]) && NU(Closing(mem, b, n)[x]) == NU(mem[x]) {
      SameWord(mem[x], Closing(mem, b, n)[x]);
    }
  }

  lemma SameWord(c: Cell, d: Cell)
    requires c.word == d.word
    ensures Stamp(c) == Stamp(d) && NU(c) == NU(d)
  {
  }

  lemma JoinStep(was: seq<Cell>, mem: seq<Cell>, free: seq<nat>, b: Book, k: nat, j: nat, nu: nat)
    requires Joining(was, mem, free, b) && k < |b.lists[RING]| && j < |b.lists[RING]| && b.lists[RING][k] < b.end
    requires b.lists[RING][j] == b.lists[RING][k] + b.len[b.lists[RING][k]] < b.end && nu < 65536
    requires nu == b.len[b.lists[RING][k]] + b.len[b.lists[RING][j]]
    ensures var m := b.lists[RING][j]; m < |mem| && mem[m].prev < |mem| && mem[m].next < |mem|
    ensures Joining(was, Absorbed(mem, b.lists[RING][k], b.lists[RING][j], nu), free, Absorb(b, k, j))
    ensures forall t :: UsedLen(Absorb(b, k, j), t) == UsedLen(b, t)
  {
    hide Tiled, Listed, Nodes, Fenced, Kept, Ring, Absorbed;
    NodesSize(mem, b);
    AbsorbGood(b, k, j);
    AbsorbMemory(mem, b, k, j, nu);
    AbsorbKept(b, was, mem, k, j, nu);
    KeptSame(b, Absorb(b, k, j), was, Absorbed(mem, b.lists[RING][k], b.lists[RING][j], nu));
    EmptyChains(mem, free, b, Absorbed(mem, b.lists[RING][k], b.lists[RING][j], nu), Absorb(b, k, j));
  }

  lemma EmptyChains(mem: seq<Cell>, free: seq<nat>, b: Book, mem2: seq<Cell>, c: Book)
    requires Chains(mem, free, b) && OnlyRing(b) && OnlyRing(c)
    ensures Chains(mem2, free, c)
  {
    forall i | 0 <= i < INDEXES ensures Chain(mem2, free[i], c.lists[i]) {
      assert Chain(mem, free[i], b.lists[i]);
    }
  }

  /** The rest of the ring when its first node is taken out. */
  lemma FillTake(was: seq<Cell>, mem: seq<Cell>, free: seq<nat>, b: Book, n: nat)
    requires Collecting(was, mem, free, b, n) && n != b.end
    ensures |b.lists[RING]| > 0 && n == b.lists[RING][0] < b.end && Good(Take(b, RING, 0)) && |mem| == b.end + 1
    ensures Chains(mem, free, Take(b, RING, 0)) && UsedLen(b, n) == 0 && NU(mem[n]) == UsedLen(Take(b, RING, 0), n) == b.len[n] > 0
    ensures mem[n].next == At(b.lists[RING][1..], b.end, 0)
    ensures Take(b, RING, 0).lists[RING] == b.lists[RING][1..]
    ensures forall t :: UsedLen(Take(b, RING, 0), t) == if t == n then b.len[n] else UsedLen(b, t)
    ensures Elsewhere(b.(lists := b.lists[RING := b.lists[RING][1..]]), Take(b, RING, 0), n, 0)
  {
    hide Tiled, Listed, Kept, Units;
    PlaceOf(b, RING);
    TakeGood(b, RING, 0);
    assert RingAt(mem, b.lists[RING], b.end, 0);
    assert b.lists[RING][..0] + b.lists[RING][0 + 1..] == b.lists[RING][1..];
    forall i | 0 <= i < INDEXES ensures Chain(mem, free[i], Take(b, RING, 0).lists[i]) { }
    assert n in b.lists[RING];
  }

  /** The rest of the account is as it was. */
  ghost predicate Elsewhere(b: Book, c: Book, node: nat, nu: nat) {
    && Shape(b) && Shape(c) && c.end == b.end && c.start == b.start && c.lo == b.lo && c.hi == b.hi
    && c.lists[RING] == b.lists[RING]
    && forall u :: 0 <= u < b.end && !(node <= u < node + nu) ==> c.len[u] == b.len[u]
  }

  /** So is the memory, apart from words of the block. */
  ghost predicate Outside(was: seq<Cell>, mem: seq<Cell>, node: nat, nu: nat) {
    && |was| == |mem|
    && (forall u :: 0 <= u < |mem| ==> mem[u].next == was[u].next && mem[u].prev == was[u].prev)
    && forall u :: 0 <= u < |mem| && !(node <= u < node + nu) ==> mem[u] == was[u]
  }

  /** And when its block has gone to the free lists. */
  lemma FillStep(was: seq<Cell>, mem: seq<Cell>, free: seq<nat>, b: Book, n: nat, mem2: seq<Cell>, free2: seq<nat>, c: Book)
    requires Collecting(was, mem, free, b, n) && n != b.end && n < b.end && b.lists[RING] != []
    requires Good(c) && Chains(mem2, free2, c) && Outside(mem, mem2, n, b.len[n])
    requires Elsewhere(b.(lists := b.lists[RING := b.lists[RING][1..]]), c, n, b.len[n])
    requires forall t :: UsedLen(c, t) == UsedLen(b, t)
    ensures Collecting(was, mem2, free2, c, At(b.lists[RING][1..], b.end, 0))
  {
    var l := b.lists[RING];
    FillTake(was, mem, free, b, n);
    hide Tiled, Listed, UsedLen;
    assert Ring(mem2, l[1..], b.end, 0) by {
      RingTail(mem, l, b.end);
      RingWords(mem, mem2, l[1..], b.end, 0);
    }
    KeptRange(b, was, mem, mem2, n, b.len[n]);
    KeptSame(b, c, was, mem2);
    hide Kept, Ring;
    forall x | x in c.lists[RING] ensures x < c.end && Stamp(mem2[x]) == 0 && NU(mem2[x]) == c.len[x] && c.len[x] < 65536 {
      RingApart(b, x);
    }
  }

  lemma RingTail(mem: seq<Cell>, l: seq<nat>, end: nat)
    requires Ring(mem, l, end, 0) && l != []
    ensures Ring(mem, l[1..], end, 0)
  {
    var m := l[1..];
    forall j, k | 0 <= j < k < |m| ensures m[j] != m[k] { assert l[j + 1] != l[k + 1]; }
    forall x | x in m ensures x in l { }
    forall k | 0 <= k < |m| ensures RingAt(mem, m, end, k) {
      assert RingAt(mem, l, end, k + 1);
      assert At(m, end, k) == At(l, end, k + 1) && At(m, end, k + 1) == At(l, end, k + 2);
    }
  }

  /** The first node's block has no other node in it. */
  lemma RingApart(b: Book, x: nat)
    requires Good(b) && b.lists[RING] != [] && x in b.lists[RING][1..]
    ensures x in b.lists[RING] && x < b.end && !(b.lists[RING][0] <= x < b.lists[RING][0] + b.len[b.lists[RING][0]])
  {
    var l := b.lists[RING];
    var j :| 0 <= j < |l[1..]| && l[1..][j] == x;
    assert x == l[j + 1] && Distinct(l);
    assert l[0] in l && x in l;
    assert EntryOk(b, RING, x) && EntryOk(b, RING, l[0]);
    hide Listed;
    assert BlockOk(b, l[0]);
  }

  /** What the block behind node k is. */
  lemma JoinLook(was: seq<Cell>, mem: seq<Cell>, free: seq<nat>, b: Book, k: nat) returns (j: nat)
    requires Joining(was, mem, free, b) && k < |b.lists[RING]|
    ensures var n := b.lists[RING][k]; n < b.end && |mem| == b.end + 1 && NU(mem[n]) == b.len[n] > 0 && n + NU(mem[n]) < |mem| && Stamp(mem[n]) == 0
    ensures var n := b.lists[RING][k]; Stamp(mem[n + b.len[n]]) == 0 ==>
      j < |b.lists[RING]| && j != k && b.lists[RING][j] == n + b.len[n] < b.end && NU(mem[n + b.len[n]]) == b.len[n + b.len[n]]
  {
    hide Ring, Kept, Stamp, NU, Chains;
    j := 0;
    var n := b.lists[RING][k];
    assert n in b.lists[RING];
    NextBlock(mem, b, n);
    hide Good;
    if Stamp(mem[n + b.len[n]]) == 0 {
      j :| 0 <= j < |b.lists[RING]| && b.lists[RING][j] == n + b.len[n];
    }
  }

  lemma JoinNext(was: seq<Cell>, mem: seq<Cell>, free: seq<nat>, b: Book, k: int)
    requires Joining(was, mem, free, b) && -1 <= k < |b.lists[RING]|
    ensures At(b.lists[RING], b.end, k) < |mem| && mem[At(b.lists[RING], b.end, k)].next == At(b.lists[RING], b.end, k + 1)
    ensures At(b.lists[RING], b.end, k + 1) == b.end <==> k + 1 == |b.lists[RING]|
  {
    assert RingAt(mem, b.lists[RING], b.end, k);
    hide Chains, Nodes, Kept;
  }

  // ---------------------------------------------------------------- how far neighbours are joined

  /** Block n of the ring can grow no more: what is behind it is not free, or the two together are too large for 16 bits. */
  ghost predicate Glued(b: Book, n: nat)
    requires Shape(b) && n < b.end
  {
    var e := n + b.len[n];
    e < b.end && e in b.lists[RING] ==> b.len[n] + b.len[e] >= 0x1_0000
  }

  ghost predicate GluedTo(b: Book, k: nat)
    requires Shape(b)
  {
    k <= |b.lists[RING]| && forall i :: 0 <= i < k ==> b.lists[RING][i] < b.end && Glued(b, b.lists[RING][i])
  }

  /** Joining two more blocks leaves the blocks done as they are. */
  lemma AbsorbGlued(b: Book, k: nat, j: nat)
    requires Shape(b) && Distinct(b.lists[RING]) && k < |b.lists[RING]| && j < |b.lists[RING]| && j != k
    requires b.lists[RING][k] < b.end && b.lists[RING][j] == b.lists[RING][k] + b.len[b.lists[RING][k]] < b.end
    requires GluedTo(b, k)
    ensures Shape(Absorb(b, k, j)) && GluedTo(Absorb(b, k, j), if j < k then k - 1 else k)
  {
    hide Distinct;
    var c, l := Absorb(b, k, j), b.lists[RING];
    DistinctLess(l, j);
    forall i | 0 <= i < if j < k then k - 1 else k ensures c.lists[RING][i] < c.end && Glued(c, c.lists[RING][i]) {
      var i0 := if i < j then i else i + 1;
      assert c.lists[RING][i] == l[i0] && Glued(b, l[i0]);
    }
  }

  lemma GluedOne(was: seq<Cell>, mem: seq<Cell>, free: seq<nat>, b: Book, k: nat)
    requires Joining(was, mem, free, b) && GluedTo(b, k) && k < |b.lists[RING]|
    requires var n := b.lists[RING][k];
      && n < b.end && n + b.len[n] < |mem|
      && (Stamp(mem[n + b.len[n]]) != 0 || b.len[n] + NU(mem[n + b.len[n]]) >= 0x1_0000)
    ensures GluedTo(b, k + 1)
  {
    hide Ring, Kept, Chains, Stamp, NU, Tiled, Listed;
  }

  lemma JoiningDistinct(was: seq<Cell>, mem: seq<Cell>, free: seq<nat>, b: Book)
    requires Joining(was, mem, free, b)
    ensures Shape(b) && Distinct(b.lists[RING])
  {
    hide Ring, Kept, Chains, Nodes, Tiled;
  }

  /** All free blocks are in the ring, and none can grow any more. */
  ghost predicate AllGlued(b: Book) {
    Good(b) && OnlyRing(b) && GluedTo(b, |b.lists[RING]|)
  }

  /** At most 128 units in one block, if there is a list for them, or else in one of the next smaller class and the rest. */
  ghost predicate OneOrTwo(len: seq<nat>, p: nat, nu: nat) {
    p + nu <= |len| && nu > 0 &&
    ((len[p] == nu && exists i :: 0 <= i < 38 && Units(i) == nu)
     || exists i :: 0 <= i < 37 && Units(i) < nu < Units(i + 1) && len[p] == Units(i) && len[p + Units(i)] == nu - Units(i))
  }

  /** Blocks of 128 units as long as there are more, and the rest. */
  ghost predicate Pieces(len: seq<nat>, p: nat, nu: nat)
    decreases nu
  {
    p + nu <= |len| && nu > 0 &&
    if nu > 128 then len[p] == 128 && Pieces(len, p + 128, nu - 128) else OneOrTwo(len, p, nu)
  }

  lemma {:induction false} PiecesFrame(len: seq<nat>, len2: seq<nat>, p: nat, nu: nat)
    requires Pieces(len, p, nu) && |len2| == |len| && forall u :: p <= u < p + nu ==> len2[u] == len[u]
    ensures Pieces(len2, p, nu)
    decreases nu
  {
    hide Units;
    if nu > 128 { PiecesFrame(len, len2, p + 128, nu - 128); }
  }

  /** Blocks of 128 units, before what is in pieces. */
  lemma {:induction false} PiecesBefore(len: seq<nat>, p: nat, c: nat, nu: nat)
    requires Pieces(len, p + 128 * c, nu) && forall i :: 0 <= i < c ==> len[p + 128 * i] == 128
    ensures Pieces(len, p, nu + 128 * c)
    decreases c
  {
    if c > 0 {
      forall i | 0 <= i < c - 1 ensures len[p + 128 + 128 * i] == 128 { assert len[p + 128 * (i + 1)] == 128; }
      PiecesBefore(len, p + 128, c - 1, nu);
      assert len[p + 128 * 0] == 128;
    }
  }

  /** Of the blocks of the ring of b the first t are in pieces, and the others as they were. */
  ghost predicate Scattered(b: Book, c: Book, t: nat) {
    && Shape(b) && Shape(c) && c.end == b.end && t <= |b.lists[RING]| && c.lists[RING] == b.lists[RING][t..]
    && (forall i :: 0 <= i < t ==> b.lists[RING][i] < b.end && Pieces(c.len, b.lists[RING][i], b.len[b.lists[RING][i]]))
    && forall i :: t <= i < |b.lists[RING]| ==> b.lists[RING][i] < b.end && c.len[b.lists[RING][i]] == b.len[b.lists[RING][i]]
  }

  lemma ScatteredNext(b: Book, c: Book, d: Book, t: nat)
    requires Good(b) && Scattered(b, c, t) && t < |b.lists[RING]| && b.lists[RING][t] < b.end && Shape(d)
    requires var n, nu := b.lists[RING][t], b.len[b.lists[RING][t]];
      && Elsewhere(c.(lists := c.lists[RING := c.lists[RING][1..]]), d, n, nu) && Pieces(d.len, n, nu)
    ensures Scattered(b, d, t + 1)
  {
    hide Pieces;
    var l := b.lists[RING];
    var n, nu := l[t], b.len[l[t]];
    assert l[t..][1..] == l[t + 1..];
    forall i | 0 <= i < |l| && i != t ensures l[i] < b.end && (l[i] + b.len[l[i]] <= n || n + nu <= l[i]) {
      RingBlocks(b, i, t);
    }
    forall i | 0 <= i < t ensures Pieces(d.len, l[i], b.len[l[i]]) {
      PieceRange(c.len, l[i], b.len[l[i]], b, i);
      PiecesFrame(c.len, d.len, l[i], b.len[l[i]]);
    }
  }

  lemma PieceRange(len: seq<nat>, p: nat, nu: nat, b: Book, i: nat)
    requires Good(b) && i < |b.lists[RING]| && b.lists[RING][i] == p < b.end && nu == b.len[p]
    ensures p + nu <= b.end && nu > 0
  {
    assert p in b.lists[RING] && EntryOk(b, RING, p);
    BlockPlace(b, p);
  }

  /** Two blocks of the ring do not overlap. */
  lemma RingBlocks(b: Book, i: nat, j: nat)
    requires Good(b) && i < |b.lists[RING]| && j < |b.lists[RING]| && i != j
    ensures var x, y := b.lists[RING][i], b.lists[RING][j];
      x < b.end && y < b.end && b.len[x] > 0 && (x + b.len[x] <= y || y + b.len[y] <= x)
  {
    var x, y := b.lists[RING][i], b.lists[RING][j];
    assert x in b.lists[RING] && y in b.lists[RING];
    assert EntryOk(b, RING, x) && EntryOk(b, RING, y) && Distinct(b.lists[RING]);
    hide Listed;
    if x <= y < x + b.len[x] { Apart(b, x, y, y); }
    if y <= x < y + b.len[y] { Apart(b, x, y, x); }
  }

  /** Joined, the ring is only to be read forwards. */
  lemma JoinDone(was: seq<Cell>, mem: seq<Cell>, free: seq<nat>, b: Book)
    requires Joining(was, mem, free, b)
    ensures |mem| == b.end + 1 && Collecting(was, mem, free, b, mem[b.end].next)
  {
    assert RingAt(mem, b.lists[RING], b.end, -1);
    hide Chains, Nodes, Kept;
  }
}
