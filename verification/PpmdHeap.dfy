/**
 * The heap of the PPMd suballocator as an account of its units: which blocks there are, who has them,
 * and how the free ones are chained through their own first words.
 */
module PpmdHeap {
  import opened Permutations
  import opened PpmdTables

  /** A unit of 12 bytes: a word that holds a stamp and a unit count, or a link; and two more links. */
  datatype Cell = Cell(word: nat, next: nat, prev: nat)

  function Stamp(c: Cell): nat { c.word % 65536 }
  function NU(c: Cell): nat { c.word / 65536 }
  function Marked(c: Cell, stamp: nat, nu: nat): Cell { c.(word := nu * 65536 + stamp) }

  lemma MarkedIs(c: Cell, stamp: nat, nu: nat)
    requires stamp < 65536
    ensures Stamp(Marked(c, stamp, nu)) == stamp && NU(Marked(c, stamp, nu)) == nu
  {
  }

  /** Homes of blocks: one of the 38 free lists, the ring that gluing builds, or a user. */
  const RING: nat := 38
  const USED: nat := 39

  /**
   * Units are numbered from 1; `end` is the first after the heap. Blocks stand in [start, lo) and [hi, end):
   * len[u] is the size of the block that begins with unit u, 0 if none does, and home[u] tells who has it.
   */
  datatype Book = Book(end: nat, start: nat, lo: nat, hi: nat, len: seq<nat>, home: seq<nat>, lists: seq<seq<nat>>)

  predicate Shape(b: Book) {
    && |b.len| == |b.home| == b.end + 1 && |b.lists| == RING + 1
    && 1 <= b.start <= b.lo <= b.hi <= b.end
  }

  /** Where a block may end. */
  predicate Border(b: Book, e: nat)
    requires Shape(b) && e <= b.end
  {
    b.len[e] > 0 || e == b.end || e == b.lo < b.hi
  }

  ghost predicate BlockOk(b: Book, u: nat)
    requires Shape(b) && u < b.end
  {
    && b.start <= u && u + b.len[u] <= b.end && (u < b.lo < b.hi ==> u + b.len[u] <= b.lo)
    && Border(b, u + b.len[u]) && forall v :: u < v < u + b.len[u] ==> b.len[v] == 0
  }

  /** The blocks tile the heap up to the gap [lo, hi); once that is used up a block may lie across the place where it was. */
  ghost predicate Tiled(b: Book)
    requires Shape(b)
  {
    && Border(b, b.start) && (b.lo < b.hi ==> Border(b, b.hi)) && b.len[b.end] == 0
    && (forall u :: 0 <= u < b.start || b.lo <= u < b.hi ==> b.len[u] == 0)
    && (forall u {:trigger BlockOk(b, u)} :: 0 <= u < b.end && b.len[u] > 0 ==> BlockOk(b, u))
  }

  ghost predicate EntryOk(b: Book, i: nat, x: nat)
    requires Shape(b)
  {
    0 < x < b.end && b.len[x] > 0 && b.home[x] == i && (i < INDEXES ==> b.len[x] == Units(i))
  }

  ghost predicate HomeOk(b: Book, u: nat)
    requires Shape(b) && u < b.end
  {
    b.home[u] == USED || (b.home[u] <= RING && u in b.lists[b.home[u]])
  }

  /** Each block is a user's, or in one list, once, and has the size of that list. */
  ghost predicate Listed(b: Book)
    requires Shape(b)
  {
    && (forall i, x {:trigger EntryOk(b, i, x)} :: 0 <= i <= RING && x in b.lists[i] ==> EntryOk(b, i, x))
    && (forall i :: 0 <= i <= RING ==> Distinct(b.lists[i]))
    && (forall u {:trigger HomeOk(b, u)} :: 0 <= u < b.end && b.len[u] > 0 ==> HomeOk(b, u))
  }

  ghost predicate Good(b: Book) {
    Shape(b) && Tiled(b) && Listed(b)
  }

  /** The size of the user's block that begins at u, 0 if none does. */
  function UsedLen(b: Book, u: nat): nat {
    if u < |b.len| == |b.home| && b.home[u] == USED then b.len[u] else 0
  }

  // ---------------------------------------------------------------- every unit is accounted for

  /** The block that holds unit u: the last to begin at or before it. */
  ghost function Holder(b: Book, u: nat): (s: nat)
    requires Shape(b) && u <= b.end
    ensures s <= u && (s > 0 ==> b.len[s] > 0) && forall v :: s < v <= u ==> b.len[v] == 0
  {
    if u == 0 || b.len[u] > 0 then u else Holder(b, u - 1)
  }

  /** No unit is lost: each is in the gap or inside a block. */
  lemma {:induction false} NoneLost(b: Book, u: nat)
    requires Good(b) && b.start <= u < b.end && !(b.lo <= u < b.hi)
    ensures b.start <= Holder(b, u) && Holder(b, u) <= u < Holder(b, u) + b.len[Holder(b, u)]
    ensures HomeOk(b, Holder(b, u))
    decreases u
  {
    hide Listed;
    if b.len[u] == 0 {
      assert u != b.start && (b.lo < b.hi ==> u != b.hi);
      NoneLost(b, u - 1);
      var s := Holder(b, u - 1);
      assert BlockOk(b, s);
    }
    HasHome(b, Holder(b, u));
  }

  lemma HasHome(b: Book, s: nat)
    requires Good(b) && s < b.end && b.len[s] > 0
    ensures HomeOk(b, s)
  {
  }

  /** None is in two blocks. */
  lemma Apart(b: Book, s: nat, t: nat, u: nat)
    requires Good(b) && s < b.end && t < b.end && b.len[s] > 0 && b.len[t] > 0
    requires s <= u < s + b.len[s] && t <= u < t + b.len[t]
    ensures s == t
  {
    hide Listed;
    assert BlockOk(b, s) && BlockOk(b, t);
  }

  /** None of a block is in the gap, or outside the heap. */
  lemma BlockPlace(b: Book, s: nat)
    requires Good(b) && s < b.end && b.len[s] > 0
    ensures b.start <= s && s + b.len[s] <= b.end && (b.lo < b.hi ==> s + b.len[s] <= b.lo || b.hi <= s)
    ensures s + b.len[s] < b.end ==> b.len[s + b.len[s]] > 0 || s + b.len[s] == b.lo < b.hi
  {
    hide Listed;
    assert BlockOk(b, s);
    assert b.lo < b.hi ==> s < b.lo || b.hi <= s;
  }

  /** A block is in one list only, and there once. */
  lemma OneHome(b: Book, i: nat, j: nat, i2: nat, j2: nat)
    requires Good(b) && i <= RING && i2 <= RING && j < |b.lists[i]| && j2 < |b.lists[i2]| && b.lists[i][j] == b.lists[i2][j2]
    ensures i == i2 && j == j2
  {
    hide Tiled;
    assert b.lists[i][j] in b.lists[i] && b.lists[i2][j2] in b.lists[i2];
    assert EntryOk(b, i, b.lists[i][j]) && EntryOk(b, i2, b.lists[i2][j2]);
    assert Distinct(b.lists[i]);
  }

  // ---------------------------------------------------------------- moving blocks between homes

  /** A user's block goes to the front of a list. */
  function Give(b: Book, s: nat, i: nat): Book
    requires Shape(b) && s < b.end && i <= RING
  {
    b.(home := b.home[s := i], lists := b.lists[i := [s] + b.lists[i]])
  }

  /** Block k of a list becomes a user's. */
  function Take(b: Book, i: nat, k: nat): Book
    requires Shape(b) && i <= RING && k < |b.lists[i]| && b.lists[i][k] < b.end
  {
    b.(home := b.home[b.lists[i][k] := USED], lists := b.lists[i := b.lists[i][..k] + b.lists[i][k + 1..]])
  }

  lemma GiveGood(b: Book, s: nat, i: nat)
    requires Good(b) && s < b.end && UsedLen(b, s) > 0 && i <= RING && (i < INDEXES ==> b.len[s] == Units(i))
    ensures Good(Give(b, s, i))
    ensures forall t :: UsedLen(Give(b, s, i), t) == if t == s then 0 else UsedLen(b, t)
  {
    hide Units;
    var c := Give(b, s, i);
    assert Tiled(c) by { HomesFree(b, c); }
    hide Tiled;
    StartPlace(b, s);
    forall x | x in b.lists[i] ensures x != s { assert EntryOk(b, i, x); }
    forall j, x | 0 <= j <= RING && x in c.lists[j] ensures EntryOk(c, j, x) {
      if x != s || j != i { assert x in b.lists[j] && EntryOk(b, j, x); }
    }
    forall j | 0 <= j <= RING ensures Distinct(c.lists[j]) {
      assert Distinct(b.lists[j]);
      if j == i { DistinctMore(s, b.lists[i]); }
    }
    forall u | 0 <= u < c.end && c.len[u] > 0 ensures HomeOk(c, u) {
      assert HomeOk(b, u);
    }
  }

  lemma DistinctMore(s: nat, l: seq<nat>)
    requires Distinct(l) && s !in l
    ensures Distinct([s] + l)
  {
    var m := [s] + l;
    forall j, k | 0 <= j < k < |m| ensures m[j] != m[k] {
      assert m[k] == l[k - 1];
      if j > 0 { assert m[j] == l[j - 1]; }
    }
  }

  lemma DistinctLess(l: seq<nat>, k: nat)
    requires Distinct(l) && k < |l|
    ensures Distinct(l[..k] + l[k + 1..]) && l[k] !in l[..k] + l[k + 1..]
    ensures forall x :: x in l <==> x == l[k] || x in l[..k] + l[k + 1..]
  {
    var m := l[..k] + l[k + 1..];
    forall i | 0 <= i < |m| ensures m[i] == l[if i < k then i else i + 1] { }
    forall x | x in l ensures x == l[k] || x in m {
      var i :| 0 <= i < |l| && l[i] == x;
      if i < k { assert m[i] == x; } else if i > k { assert m[i - 1] == x; }
    }
  }

  lemma StartPlace(b: Book, s: nat)
    requires Shape(b) && Tiled(b) && s < b.end && b.len[s] > 0
    ensures 0 < s && b.start <= s
  {
  }

  lemma HomesFree(b: Book, c: Book)
    requires Shape(b) && Shape(c) && c == b.(home := c.home, lists := c.lists) && Tiled(b)
    ensures Tiled(c)
  {
    forall u | 0 <= u < c.end && c.len[u] > 0 ensures BlockOk(c, u) { assert BlockOk(b, u); }
  }

  lemma TakeGood(b: Book, i: nat, k: nat)
    requires Good(b) && i <= RING && k < |b.lists[i]|
    ensures b.lists[i][k] < b.end && Good(Take(b, i, k))
    ensures UsedLen(b, b.lists[i][k]) == 0 && b.len[b.lists[i][k]] > 0 && (i < INDEXES ==> b.len[b.lists[i][k]] == Units(i))
    ensures forall t :: UsedLen(Take(b, i, k), t) == if t == b.lists[i][k] then b.len[b.lists[i][k]] else UsedLen(b, t)
  {
    hide Units;
    var s := b.lists[i][k];
    assert s in b.lists[i] && EntryOk(b, i, s);
    var c := Take(b, i, k);
    assert Tiled(c) by { HomesFree(b, c); }
    hide Tiled;
    assert Distinct(b.lists[i]);
    DistinctLess(b.lists[i], k);
    forall j, x | 0 <= j <= RING && x in c.lists[j] ensures EntryOk(c, j, x) {
      assert x in b.lists[j] && EntryOk(b, j, x);
    }
    forall j | 0 <= j <= RING ensures Distinct(c.lists[j]) {
      assert Distinct(b.lists[j]);
    }
    forall u | 0 <= u < c.end && c.len[u] > 0 ensures HomeOk(c, u) {
      assert HomeOk(b, u);
    }
  }

  // ---------------------------------------------------------------- cutting and joining

  /** A user's block becomes two. */
  function Cut(b: Book, s: nat, k: nat): Book
    requires Shape(b) && s < b.end && 0 < k < b.len[s] && s + k < b.end
  {
    b.(len := b.len[s := k][s + k := b.len[s] - k], home := b.home[s + k := USED])
  }

  lemma CutGood(b: Book, s: nat, k: nat)
    requires Good(b) && s < b.end && UsedLen(b, s) > 0 && 0 < k < b.len[s]
    ensures s + k < b.end && Good(Cut(b, s, k)) && b.len[s + k] == 0 && UsedLen(b, s + k) == 0
    ensures forall t :: UsedLen(Cut(b, s, k), t) == if t == s then k else if t == s + k then b.len[s] - k else UsedLen(b, t)
  {
    CutTiled(b, s, k);
    hide Units, Tiled;
    CutListed(b, s, k);
    hide Listed;
  }

  lemma CutTiled(b: Book, s: nat, k: nat)
    requires Shape(b) && Tiled(b) && s < b.end && 0 < k < b.len[s]
    ensures s + k < b.end && b.len[s + k] == 0 && Tiled(Cut(b, s, k))
  {
    assert BlockOk(b, s);
    var c := Cut(b, s, k);
    forall u | 0 <= u < c.end && c.len[u] > 0 ensures BlockOk(c, u) {
      if u != s + k { CutBlock(b, s, k, u); }
    }
  }

  lemma CutBlock(b: Book, s: nat, k: nat, u: nat)
    requires Shape(b) && s < b.end && 0 < k < b.len[s] && s + k < b.end && BlockOk(b, s) && b.len[s + k] == 0
    requires u < b.end && u != s + k && b.len[u] > 0 && BlockOk(b, u)
    ensures BlockOk(Cut(b, s, k), u)
  {
    if u != s { assert s <= u ==> s + b.len[s] <= u; assert u <= s ==> u + b.len[u] <= s; }
  }

  lemma CutListed(b: Book, s: nat, k: nat)
    requires Shape(b) && Listed(b) && s < b.end && UsedLen(b, s) > 0 && 0 < k < b.len[s] && s + k < b.end && b.len[s + k] == 0
    ensures Listed(Cut(b, s, k))
  {
    hide Units, Distinct;
    var c := Cut(b, s, k);
    assert c.lists == b.lists;
    forall j, x | 0 <= j <= RING && x in c.lists[j] ensures EntryOk(c, j, x) {
      assert EntryOk(b, j, x);
    }
    forall u | 0 <= u < c.end && c.len[u] > 0 ensures HomeOk(c, u) {
      if u != s + k { assert HomeOk(b, u); }
    }
    forall j | 0 <= j <= RING ensures Distinct(c.lists[j]) { assert Distinct(b.lists[j]); }
  }

  /** A user's block swallows the user's block that follows it. */
  function Join(b: Book, s: nat): Book
    requires Shape(b) && s < b.end && s + b.len[s] < b.end
  {
    b.(len := b.len[s := b.len[s] + b.len[s + b.len[s]]][s + b.len[s] := 0])
  }

  lemma JoinTiled(b: Book, s: nat)
    requires Shape(b) && Tiled(b) && s < b.end && b.len[s] > 0 && s + b.len[s] < b.end && b.len[s + b.len[s]] > 0
    ensures Tiled(Join(b, s))
  {
    hide BlockOk, Border;
    var m := s + b.len[s];
    assert BlockOk(b, s) && BlockOk(b, m);
    var c := Join(b, s);
    JoinBorders(b, s, m);
    JoinInside(b, s, m);
    JoinSelf(b, s, m);
    forall u | 0 <= u < c.end && c.len[u] > 0 ensures BlockOk(c, u) {
      assert BlockOk(b, u);
      if u != s { JoinBlock(b, s, m, u); }
    }
  }

  lemma JoinBorders(b: Book, s: nat, m: nat)
    requires Shape(b) && Tiled(b) && s < b.end && b.len[s] > 0 && m == s + b.len[s] && m < b.end && b.len[m] > 0
    requires BlockOk(b, s) && BlockOk(b, m)
    ensures Border(Join(b, s), b.start) && (b.lo < b.hi ==> Border(Join(b, s), b.hi))
  {
    assert b.lo < b.hi ==> m != b.hi;
  }

  lemma JoinInside(b: Book, s: nat, m: nat)
    requires Shape(b) && s < b.end && b.len[s] > 0 && m == s + b.len[s] && m < b.end && b.len[m] > 0 && BlockOk(b, s)
    ensures b.start <= s && m <= b.end
  {
  }

  lemma JoinSelf(b: Book, s: nat, m: nat)
    requires Shape(b) && s < b.end && b.len[s] > 0 && m == s + b.len[s] && m < b.end && b.len[m] > 0 && BlockOk(b, s) && BlockOk(b, m)
    requires b.lo <= m < b.hi ==> b.len[m] == 0
    ensures BlockOk(Join(b, s), s)
  {
  }

  lemma JoinBlock(b: Book, s: nat, m: nat, u: nat)
    requires Shape(b) && s < b.end && b.len[s] > 0 && m == s + b.len[s] && m < b.end && b.len[m] > 0 && BlockOk(b, s) && BlockOk(b, m)
    requires u < b.end && u != s && u != m && b.len[u] > 0 && BlockOk(b, u)
    ensures BlockOk(Join(b, s), u)
  {
    assert s <= u ==> m <= u;
    assert m <= u ==> m + b.len[m] <= u;
    assert u <= s ==> u + b.len[u] <= s;
  }

  // ---------------------------------------------------------------- new blocks

  /** k units from the low end of the gap. */
  function FromLow(b: Book, k: nat): Book
    requires Shape(b) && 0 < k && b.lo + k <= b.hi
  {
    b.(lo := b.lo + k, len := b.len[b.lo := k], home := b.home[b.lo := USED])
  }

  /** A unit from its high end. */
  function FromHigh(b: Book): Book
    requires Shape(b) && b.lo < b.hi
  {
    b.(hi := b.hi - 1, len := b.len[b.hi - 1 := 1], home := b.home[b.hi - 1 := USED])
  }

  /** k units from below the heap, where the text is. */
  function FromBelow(b: Book, k: nat): Book
    requires Shape(b) && 0 < k < b.start
  {
    b.(start := b.start - k, len := b.len[b.start - k := k], home := b.home[b.start - k := USED])
  }

  ghost predicate NewBlock(b: Book, c: Book, s: nat, k: nat) {
    && Shape(b) && Shape(c) && 0 < s < b.end && k > 0 && c.lists == b.lists && c.end == b.end && b.len[s] == 0
    && c.len == b.len[s := k] && c.home == b.home[s := USED]
  }

  lemma NewListed(b: Book, c: Book, s: nat, k: nat)
    requires NewBlock(b, c, s, k) && Listed(b)
    ensures Listed(c)
    ensures forall t :: UsedLen(c, t) == if t == s then k else UsedLen(b, t)
  {
    hide Units, Distinct;
    forall j, x | 0 <= j <= RING && x in c.lists[j] ensures EntryOk(c, j, x) {
      assert EntryOk(b, j, x);
    }
    forall u | 0 <= u < c.end && c.len[u] > 0 ensures HomeOk(c, u) {
      if u != s { assert HomeOk(b, u); }
    }
    forall j | 0 <= j <= RING ensures Distinct(c.lists[j]) { assert Distinct(b.lists[j]); }
  }

  lemma FromLowGood(b: Book, k: nat)
    requires Good(b) && 0 < k && b.lo + k <= b.hi
    ensures Good(FromLow(b, k)) && UsedLen(b, b.lo) == 0 && b.len[b.lo] == 0
    ensures forall t :: UsedLen(FromLow(b, k), t) == if t == b.lo then k else UsedLen(b, t)
  {
    var c := FromLow(b, k);
    NewListed(b, c, b.lo, k);
    hide Listed;
    forall u | 0 <= u < c.end && c.len[u] > 0 ensures BlockOk(c, u) {
      if u != b.lo { assert BlockOk(b, u); }
    }
  }

  lemma FromHighGood(b: Book)
    requires Good(b) && b.lo < b.hi
    ensures Good(FromHigh(b)) && UsedLen(b, b.hi - 1) == 0 && b.len[b.hi - 1] == 0
    ensures forall t :: UsedLen(FromHigh(b), t) == if t == b.hi - 1 then 1 else UsedLen(b, t)
  {
    var c := FromHigh(b);
    NewListed(b, c, b.hi - 1, 1);
    hide Listed;
    forall u | 0 <= u < c.end && c.len[u] > 0 ensures BlockOk(c, u) {
      if u != b.hi - 1 { assert BlockOk(b, u); }
    }
  }

  lemma FromBelowGood(b: Book, k: nat)
    requires Good(b) && 0 < k < b.start
    ensures Good(FromBelow(b, k)) && UsedLen(b, b.start - k) == 0 && b.len[b.start - k] == 0
    ensures forall t :: UsedLen(FromBelow(b, k), t) == if t == b.start - k then k else UsedLen(b, t)
  {
    var c := FromBelow(b, k);
    NewListed(b, c, b.start - k, k);
    hide Listed;
    forall u | 0 <= u < c.end && c.len[u] > 0 ensures BlockOk(c, u) {
      if u != b.start - k { assert BlockOk(b, u); }
    }
  }

  // ---------------------------------------------------------------- lists in memory

  /** From head on, the first words of the blocks of l link them in order; 0 ends the list. */
  ghost predicate Chain(mem: seq<Cell>, head: nat, l: seq<nat>)
    decreases |l|
  {
    if l == [] then head == 0
    else head == l[0] && 0 < head < |mem| && Chain(mem, mem[head].word, l[1..])
  }

  ghost predicate Chains(mem: seq<Cell>, free: seq<nat>, b: Book) {
    && |free| == INDEXES && |b.lists| == RING + 1
    && forall i :: 0 <= i < INDEXES ==> Chain(mem, free[i], b.lists[i])
  }

  lemma {:induction false} ChainFrame(mem: seq<Cell>, mem2: seq<Cell>, head: nat, l: seq<nat>)
    requires Chain(mem, head, l) && |mem| == |mem2| && forall x :: x in l && x < |mem| ==> mem2[x].word == mem[x].word
    ensures Chain(mem2, head, l)
    decreases |l|
  {
    if l != [] { ChainFrame(mem, mem2, mem[head].word, l[1..]); }
  }

  /** Writing to a place that is in no list changes no list. */
  lemma ChainsKept(mem: seq<Cell>, x: nat, c: Cell, free: seq<nat>, b: Book)
    requires Chains(mem, free, b) && Shape(b) && Listed(b) && x < |mem|
    requires x >= b.end || b.len[x] == 0 || b.home[x] >= RING || c.word == mem[x].word
    ensures Chains(mem[x := c], free, b)
  {
    hide Distinct, HomeOk, Units;
    forall i | 0 <= i < INDEXES ensures Chain(mem[x := c], free[i], b.lists[i]) {
      if x in b.lists[i] { assert EntryOk(b, i, x); }
      ChainFrame(mem, mem[x := c], free[i], b.lists[i]);
    }
  }

  lemma ChainsGive(mem: seq<Cell>, free: seq<nat>, b: Book, s: nat, i: nat)
    requires Good(b) && Chains(mem, free, b) && s < b.end && UsedLen(b, s) > 0 && i < INDEXES && |mem| == b.end + 1
    ensures Chains(mem[s := mem[s].(word := free[i])], free[i := s], Give(b, s, i))
  {
    assert 0 < s by { hide Listed; assert BlockOk(b, s); }
    hide Tiled, Chain;
    ChainsKept(mem, s, mem[s].(word := free[i]), free, b);
    hide Listed;
    var mem2, c := mem[s := mem[s].(word := free[i])], Give(b, s, i);
    forall j | 0 <= j < INDEXES ensures Chain(mem2, free[i := s][j], c.lists[j]) {
      assert Chain(mem2, free[j], b.lists[j]);
      if j == i { ChainMore(mem2, s, b.lists[i]); }
    }
  }

  lemma ChainMore(mem: seq<Cell>, s: nat, l: seq<nat>)
    requires 0 < s < |mem| && Chain(mem, mem[s].word, l)
    ensures Chain(mem, s, [s] + l)
  {
    assert ([s] + l)[1..] == l;
  }

  /** What a list's head says. */
  lemma ChainHead(mem: seq<Cell>, free: seq<nat>, b: Book, i: nat)
    requires Chains(mem, free, b) && i < INDEXES
    ensures free[i] == 0 <==> b.lists[i] == []
    ensures free[i] != 0 ==> free[i] == b.lists[i][0] && free[i] < |mem|
  {
    assert Chain(mem, free[i], b.lists[i]);
  }

  lemma ChainsTake(mem: seq<Cell>, free: seq<nat>, b: Book, i: nat)
    requires Good(b) && Chains(mem, free, b) && i < INDEXES && b.lists[i] != []
    ensures b.lists[i][0] == free[i] < b.end && free[i] < |mem|
    ensures Chains(mem, free[i := mem[free[i]].word], Take(b, i, 0))
  {
    TakeGood(b, i, 0);
    hide Good;
    assert Chain(mem, free[i], b.lists[i]);
    var c := Take(b, i, 0);
    forall j | 0 <= j < INDEXES ensures Chain(mem, free[i := mem[free[i]].word][j], c.lists[j]) {
      assert Chain(mem, free[j], b.lists[j]);
      if j == i { assert b.lists[i][..0] + b.lists[i][0 + 1..] == b.lists[i][1..]; }
    }
  }
}
