/**
 * The suballocator of the PPMd7 model: blocks of 1 to 128 units from free lists, from both ends of a gap,
 * by splitting larger blocks, by gluing free neighbours, and from below where the text leaves room.
 */
module PpmdAllocator {
  import opened Permutations
  import opened PpmdTables
  import opened PpmdHeap
  import opened PpmdRing
  import opened PpmdGlue

  class Allocator {
    const size: nat
    const mem: array<Cell>
    const freeList: array<nat>
    const units2Indx: array<nat>
    const indx2Units: array<nat>
    var loUnit: nat
    var hiUnit: nat
    var unitsStart: nat
    var text: nat
    var glueCount: nat
    ghost var book: Book

    ghost predicate Tables()
      reads units2Indx, indx2Units
    {
      && indx2Units.Length == INDEXES && units2Indx.Length == LARGEST
      && (forall i :: 0 <= i < INDEXES ==> indx2Units[i] == Units(i))
      && (forall nu :: 0 <= nu < LARGEST ==> units2Indx[nu] == Index(nu + 1))
    }

    ghost predicate Arrays() {
      && mem.Length == size / 12 + 2 && freeList.Length == INDEXES
      && freeList != units2Indx && freeList != indx2Units
    }

    /** The fields and the memory are those of the book. */
    ghost predicate State()
      reads this`book, this`loUnit, this`hiUnit, this`unitsStart, mem, freeList, units2Indx, indx2Units
    {
      && Tables() && Arrays() && book.end == size / 12 + 1
      && Good(book) && Chains(mem[..], freeList[..], book)
      && loUnit == book.lo && hiUnit == book.hi && unitsStart == book.start
    }

    /** How many bytes of the memory are before unit u. */
    function Offset(u: nat): int { size - 12 * (size / 12 + 1 - u) }

    ghost predicate Valid()
      reads this`book, this`loUnit, this`hiUnit, this`unitsStart, this`text, mem, freeList, units2Indx, indx2Units
    {
      State() && book.lists[RING] == [] && text <= Offset(unitsStart)
    }

    constructor (n: nat)
      ensures Arrays() && Tables() && size == n
      ensures fresh(mem) && fresh(freeList) && fresh(units2Indx) && fresh(indx2Units)
    {
      size := n;
      mem := new Cell[n / 12 + 2](_ => Cell(0, 0, 0));
      freeList := new nat[INDEXES];
      units2Indx := new nat[LARGEST];
      indx2Units := new nat[INDEXES];
      loUnit, hiUnit, unitsStart, text, glueCount := 0, 0, 0, 0, 0;
      book := Book(0, 0, 0, 0, [], [], []);
      new;
      Construct(units2Indx, indx2Units);
    }

    method ClearLists()
      requires freeList.Length == INDEXES
      modifies freeList
      ensures forall j :: 0 <= j < INDEXES ==> freeList[j] == 0
    {
      var i := 0;
      while i < INDEXES
        invariant 0 <= i <= INDEXES && forall j :: 0 <= j < i ==> freeList[j] == 0
      {
        freeList[i] := 0;
        i := i + 1;
      }
    }

    /** The heap as a model starts with it: a context at the top, the statistics of 256 symbols at the bottom. */
    method RestartModel() returns (context: nat, stats: nat)
      requires Arrays() && Tables() && size >= 2048
      modifies freeList, this`book, this`loUnit, this`hiUnit, this`unitsStart, this`text, this`glueCount
      ensures Valid() && glueCount == 0 && text == 0 && context != stats
      ensures forall t :: UsedLen(book, t) == if t == context then 1 else if t == stats then LARGEST else 0
      ensures stats == unitsStart && context == hiUnit && loUnit == stats + LARGEST <= hiUnit
      ensures hiUnit == size / 12 && unitsStart == FirstUnit(size)
    {
      hide Good, Chain, UsedLen, Index, Units, Chains, FirstUnit;
      ClearLists();
      RestartSizes(size);
      FirstUnitIs(size);
      text := 0;
      hiUnit := size / 12 + 1;
      unitsStart := hiUnit - size / 8 / 12 * 7;
      loUnit := unitsStart;
      glueCount := 0;
      ghost var b := Bare(hiUnit, loUnit);
      BareGood(hiUnit, loUnit, mem[..], freeList[..]);
      hiUnit := hiUnit - 1;
      context := hiUnit;
      FromHighGood(b);
      HighChains(mem[..], freeList[..], b);
      stats := loUnit;
      loUnit := loUnit + LARGEST;
      FromLowGood(FromHigh(b), LARGEST);
      LowChains(mem[..], freeList[..], FromHigh(b), LARGEST);
      book := FromLow(FromHigh(b), LARGEST);
    }

    // ---------------------------------------------------------------- lists

    method InsertNode(node: nat, indx: nat)
      requires State() && indx < INDEXES && node < book.end && UsedLen(book, node) == Units(indx)
      modifies mem, freeList, this`book
      ensures State() && book == Give(old(book), node, indx) && (old(Valid()) ==> Valid())
      ensures forall t :: UsedLen(book, t) == if t == node then 0 else UsedLen(old(book), t)
      ensures forall u :: 0 <= u < mem.Length && u != node ==> mem[u] == old(mem[u])
      ensures mem[node].next == old(mem[node].next) && mem[node].prev == old(mem[node].prev)
    {
      hide Good, Chains, Give, UsedLen, Index;
      ghost var m: seq<Cell>, free: seq<nat>, b := mem[..], freeList[..], book;
      Used(b, node);
      GiveGood(b, node, indx);
      ChainsGive(m, free, b, node, indx);
      GiveKeeps(b, node, indx);
      mem[node] := mem[node].(word := freeList[indx]);
      freeList[indx] := node;
      book := Give(b, node, indx);
    }

    method RemoveNode(indx: nat) returns (node: nat)
      requires State() && indx < INDEXES && freeList[indx] != 0
      modifies freeList, this`book
      ensures State() && 0 < node < book.end && UsedLen(old(book), node) == 0 && node == old(freeList[indx])
      ensures node < |old(book).len| && old(book).len[node] == Units(indx) && SameBounds(old(book), book)
      ensures book.lists[RING] == old(book.lists[RING])
      ensures forall t :: UsedLen(book, t) == if t == node then Units(indx) else UsedLen(old(book), t)
    {
      hide Good, Chains, Take, Index;
      ghost var m: seq<Cell>, free: seq<nat>, b := mem[..], freeList[..], book;
      ChainHead(m, free, b, indx);
      ChainsTake(m, free, b, indx);
      TakeGood(b, indx, 0);
      TakeKeeps(b, indx);
      node := freeList[indx];
      freeList[indx] := mem[node].word;
      book := Take(b, indx, 0);
    }

    /** The rest of a block behind its first k units goes to a free list. */
    method InsertRest(node: nat, nu: nat, k: nat, indx: nat)
      requires State() && node < book.end && UsedLen(book, node) == nu && 0 < k < nu && indx < INDEXES && Units(indx) == nu - k
      modifies mem, freeList, this`book
      ensures State() && Elsewhere(old(book), book, node, nu) && node < book.end && 0 < k < book.end
      ensures forall t :: UsedLen(book, t) == if t == node then k else UsedLen(old(book), t)
      ensures node + k < |old(book).len| && book.len == old(book).len[node := k][node + k := nu - k]
      ensures Outside(old(mem[..]), mem[..], node + k, nu - k)
    {
      hide Good, Chains, UsedLen, Index, Units;
      ghost var b := book;
      Used(b, node);
      CutGood(b, node, k);
      CutKeeps(b, node, k);
      CutChains(mem[..], freeList[..], b, node, k);
      book := Cut(b, node, k);
      InsertNode(node + k, indx);
      GiveElsewhere(Cut(b, node, k), node + k, indx);
    }

    /** A block of nu units goes to the free lists, in one piece or two. */
    method InsertUnits(node: nat, nu: nat)
      requires State() && 1 <= nu <= LARGEST && node < book.end && UsedLen(book, node) == nu
      modifies mem, freeList, this`book
      ensures State() && Elsewhere(old(book), book, node, nu)
      ensures forall t :: UsedLen(book, t) == if t == node then 0 else UsedLen(old(book), t)
      ensures Outside(old(mem[..]), mem[..], node, nu) && OneOrTwo(book.len, node, nu)
    {
      hide Good, Chains, UsedLen, Index, Units, Elsewhere, Give, OneOrTwo;
      ghost var b0: Book, m0: seq<Cell> := book, mem[..];
      var i := units2Indx[nu - 1];
      ElsewhereSelf(b0, m0, node, nu);
      Fits(b0, node, nu);
      if indx2Units[i] != nu {
        TwoPieces(nu);
        i := i - 1;
        var k := indx2Units[i];
        InsertRest(node, nu, k, nu - k - 1);
      }
      ghost var b: Book := book;
      InsertNode(node, i);
      GiveElsewhere(b, node, i);
      ElsewhereOn(b0, b, book, node, nu);
      InOneOrTwo(b0.len, book.len, node, nu);
    }

    /** A user's block is cut; what is behind its new end goes to the free lists. */
    method SplitBlock(ptr: nat, oldIndx: nat, newIndx: nat)
      requires State() && newIndx < oldIndx < INDEXES && ptr < book.end && UsedLen(book, ptr) == Units(oldIndx)
      modifies mem, freeList, this`book
      ensures State() && book.lists[RING] == old(book.lists[RING])
      ensures forall t :: UsedLen(book, t) == if t == ptr then Units(newIndx) else UsedLen(old(book), t)
      ensures Units(newIndx) < Units(oldIndx)
      ensures Outside(old(mem[..]), mem[..], ptr + Units(newIndx), Units(oldIndx) - Units(newIndx))
      ensures OneOrTwo(book.len, ptr + Units(newIndx), Units(oldIndx) - Units(newIndx))
    {
      hide Good, Chains, UsedLen, Index, Units;
      UnitsRise(newIndx, oldIndx);
      Largest();
      var nu := indx2Units[oldIndx] - indx2Units[newIndx];
      ghost var b, k: nat := book, Units(newIndx);
      Used(b, ptr);
      CutGood(b, ptr, k);
      CutKeeps(b, ptr, k);
      CutChains(mem[..], freeList[..], b, ptr, k);
      book := Cut(b, ptr, k);
      InsertUnits(ptr + indx2Units[newIndx], nu);
    }

    // ---------------------------------------------------------------- gluing

    /** One block goes from list i to the ring, in front of node n; `next` is the list's next. */
    method CollectNode(i: nat, n: nat, node: nat, ghost was: seq<Cell>) returns (next: nat)
      requires i < INDEXES && Arrays() && freeList[i] == 0 && node != 0 && Tables()
      requires Collecting(was, mem[..], freeList[..][i := node], book, n)
      modifies mem, this`book
      ensures Collecting(was, mem[..], freeList[..][i := next], book, node)
      ensures forall t :: UsedLen(book, t) == UsedLen(old(book), t)
      ensures |old(book).lists| == RING + 1 && |old(book).lists[i]| > 0
      ensures book.lists == old(book).lists[i := old(book).lists[i][1..]][RING := [node] + old(book).lists[RING]]
      ensures SameBounds(old(book), book)
    {
      hide Collecting, UsedLen, Index, Units, Marked, ToRing;
      ghost var m: seq<Cell>, free: seq<nat>, b := mem[..], freeList[..][i := node], book;
      CollectHead(was, m, free, b, n, i);
      CollectStep(was, m, free, b, n, i);
      ToRingEnd(b, i);
      mem[node] := mem[node].(next := n);
      mem[n] := mem[n].(prev := node);
      next := mem[node].word;
      mem[node] := Marked(mem[node], 0, indx2Units[i]);
      book := ToRing(b, i);
      PushedIs(m, node, n, Units(i), mem[..]);
      assert freeList[..][i := next] == free[i := m[node].word];
    }

    /** List i is emptied into the ring. */
    method CollectList(i: nat, n0: nat, ghost was: seq<Cell>) returns (n: nat)
      requires i < INDEXES && Arrays() && Tables() && Collecting(was, mem[..], freeList[..], book, n0)
      modifies mem, freeList, this`book
      ensures Collecting(was, mem[..], freeList[..], book, n) && SameBounds(old(book), book)
      ensures |old(book).lists| == |book.lists| == RING + 1 && book.lists[i] == []
      ensures forall j :: 0 <= j < i ==> book.lists[j] == old(book).lists[j]
      ensures forall t :: UsedLen(book, t) == UsedLen(old(book), t)
    {
      hide Collecting, UsedLen, Index, Units, Chains, Good;
      ghost var free: seq<nat>, b0 := freeList[..], book;
      CollectHead(was, mem[..], free, b0, n0, i);
      n := n0;
      var next := freeList[i];
      freeList[i] := 0;
      assert freeList[..][i := next] == free;
      while next != 0
        invariant Collecting(was, mem[..], freeList[..][i := next], book, n) && freeList[i] == 0 && SameBounds(b0, book)
        invariant |book.lists| == RING + 1 && forall j :: 0 <= j < i ==> book.lists[j] == b0.lists[j]
        invariant forall t :: UsedLen(book, t) == UsedLen(b0, t)
        decreases |book.lists[i]|
      {
        var node := next;
        next := CollectNode(i, n, node, was);
        n := node;
      }
      CollectHead(was, mem[..], freeList[..][i := next], book, n, i);
      assert freeList[..][i := next] == freeList[..];
    }

    /** All free lists are emptied into a ring; what is not free gets a stamp. */
    method Collect()
      requires State() && book.lists[RING] == [] && Stamped(mem[..], book)
      modifies mem, freeList, this`book
      ensures Joining(old(mem[..]), mem[..], freeList[..], book)
      ensures forall t :: UsedLen(book, t) == UsedLen(old(book), t)
      ensures SameBounds(old(book), book)
    {
      hide Collecting, UsedLen, Index, Units, Chains, Good;
      ghost var was: seq<Cell>, b0 := mem[..], book;
      CollectStart(was, freeList[..], b0);
      var n: nat, i: nat := size / 12 + 1, 0;
      while i < INDEXES
        invariant 0 <= i <= INDEXES && SameBounds(b0, book)
        invariant Collecting(was, mem[..], freeList[..], book, n)
        invariant |book.lists| == RING + 1 && forall j :: 0 <= j < i ==> book.lists[j] == []
        invariant forall t :: UsedLen(book, t) == UsedLen(b0, t)
      {
        n := CollectList(i, n, was);
        i := i + 1;
      }
      CloseAll(was, mem[..], freeList[..], book, n);
      ghost var m: seq<Cell> := mem[..];
      mem[size / 12 + 1] := Marked(mem[size / 12 + 1], 1, NU(mem[size / 12 + 1]));
      mem[size / 12 + 1] := mem[size / 12 + 1].(next := n);
      mem[n] := mem[n].(prev := size / 12 + 1);
      if loUnit != hiUnit {
        mem[loUnit] := Marked(mem[loUnit], 1, NU(mem[loUnit]));
      }
      assert mem[..] == Closing(m, book, n);
    }

    /** Node n, the k-th of the ring, swallows what is free behind it. */
    method JoinNode(n: nat, ghost k: nat, ghost was: seq<Cell>) returns (next: nat, ghost k2: nat)
      requires Arrays() && Joining(was, mem[..], freeList[..], book) && k < |book.lists[RING]| && book.lists[RING][k] == n
      requires GluedTo(book, k)
      modifies mem, this`book
      ensures Joining(was, mem[..], freeList[..], book) && SameBounds(old(book), book)
      ensures k2 < |book.lists[RING]| && next == At(book.lists[RING], book.end, k2 + 1)
      ensures |book.lists[RING]| - k2 <= |old(book).lists[RING]| - k && GluedTo(book, k2 + 1)
      ensures forall t :: UsedLen(book, t) == UsedLen(old(book), t)
    {
      hide Joining, UsedLen, Absorb, Absorbed, Stamp, NU, Marked, Unlinked, GluedTo;
      ghost var b0: Book := book;
      k2 := k;
      ghost var j := JoinLook(was, mem[..], freeList[..], book, k2);
      JoiningShape(was, mem[..], freeList[..], book);
      var nu := NU(mem[n]);
      while true
        invariant Joining(was, mem[..], freeList[..], book) && SameBounds(b0, book) && Shape(book)
        invariant k2 < |book.lists[RING]| && book.lists[RING][k2] == n && |book.lists[RING]| - k2 <= |b0.lists[RING]| - k
        invariant n < mem.Length && nu == NU(mem[n]) && GluedTo(book, k2)
        invariant forall t :: UsedLen(book, t) == UsedLen(b0, t)
        decreases |book.lists[RING]|
      {
        j := JoinLook(was, mem[..], freeList[..], book, k2);
        var node2 := n + nu;
        nu := nu + NU(mem[node2]);
        if Stamp(mem[node2]) != 0 || nu >= 0x10000 { break; }
        ghost var m: seq<Cell>, b := mem[..], book;
        JoinStep(was, m, freeList[..], b, k2, j, nu);
        AbsorbList(b, k2, j);
        JoiningDistinct(was, m, freeList[..], b);
        AbsorbGlued(b, k2, j);
        var before, after := mem[node2].prev, mem[node2].next;
        mem[before] := mem[before].(next := after);
        mem[after] := mem[after].(prev := before);
        MarkedNU(mem[n], nu);
        mem[n] := Marked(mem[n], Stamp(mem[n]), nu);
        AbsorbedIs(m, n, node2, nu, mem[..]);
        book := Absorb(b, k2, j);
        k2 := if j < k2 then k2 - 1 else k2;
        JoiningShape(was, mem[..], freeList[..], book);
      }
      GluedOne(was, mem[..], freeList[..], book, k2);
      JoinNext(was, mem[..], freeList[..], book, k2);
      next := mem[n].next;
    }

    /** All free neighbours are joined, as far as their sizes fit into 16 bits. */
    method JoinAll(ghost was: seq<Cell>)
      requires Arrays() && size / 12 + 1 == book.end && Joining(was, mem[..], freeList[..], book)
      modifies mem, this`book
      ensures Joining(was, mem[..], freeList[..], book) && SameBounds(old(book), book) && AllGlued(book)
      ensures forall t :: UsedLen(book, t) == UsedLen(old(book), t)
    {
      hide Joining, UsedLen, GluedTo, AllGlued;
      ghost var b0: Book := book;
      JoiningShape(was, mem[..], freeList[..], book);
      NoneGlued(book);
      JoinNext(was, mem[..], freeList[..], book, -1);
      var n := mem[size / 12 + 1].next;
      ghost var k: nat := 0;
      while n != size / 12 + 1
        invariant Joining(was, mem[..], freeList[..], book) && SameBounds(b0, book) && |book.lists| == RING + 1
        invariant Shape(book) && GluedTo(book, k)
        invariant k <= |book.lists[RING]| && n == At(book.lists[RING], book.end, k)
        invariant n == book.end <==> k == |book.lists[RING]|
        invariant forall t :: UsedLen(book, t) == UsedLen(b0, t)
        decreases |book.lists[RING]| - k
      {
        ghost var k2;
        n, k2 := JoinNode(n, k, was);
        JoiningShape(was, mem[..], freeList[..], book);
        JoinNext(was, mem[..], freeList[..], book, k2);
        k := k2 + 1;
      }
      GluedAll(was, mem[..], freeList[..], book);
    }

    /** The first LARGEST units of a block go to their list. */
    method InsertLargest(node: nat, nu: nat)
      requires State() && node < book.end && UsedLen(book, node) == nu > LARGEST
      modifies mem, freeList, this`book
      ensures State() && Elsewhere(old(book), book, node, nu) && node + LARGEST < book.end && UsedLen(old(book), node + LARGEST) == 0
      ensures forall t :: UsedLen(book, t) == if t == node then 0 else if t == node + LARGEST then nu - LARGEST else UsedLen(old(book), t)
      ensures Outside(old(mem[..]), mem[..], node, LARGEST)
      ensures node + LARGEST < |old(book).len| && book.len == old(book).len[node := LARGEST][node + LARGEST := nu - LARGEST]
    {
      hide Good, Chains, UsedLen, Index, Units;
      Largest();
      ghost var b := book;
      Used(b, node);
      CutGood(b, node, LARGEST);
      CutKeeps(b, node, LARGEST);
      CutChains(mem[..], freeList[..], b, node, LARGEST);
      book := Cut(b, node, LARGEST);
      InsertNode(node, INDEXES - 1);
      GiveElsewhere(Cut(b, node, LARGEST), node, INDEXES - 1);
    }

    /** A block of any size goes to the free lists. */
    method Scatter(node0: nat, nu0: nat)
      requires State() && nu0 >= 1 && node0 < book.end && UsedLen(book, node0) == nu0
      modifies mem, freeList, this`book
      ensures State() && Elsewhere(old(book), book, node0, nu0)
      ensures forall t :: UsedLen(book, t) == if t == node0 then 0 else UsedLen(old(book), t)
      ensures Outside(old(mem[..]), mem[..], node0, nu0) && Pieces(book.len, node0, nu0)
    {
      hide Good, Chains, UsedLen, Index, Units, Elsewhere, OneOrTwo, Pieces;
      var nu, node := nu0, node0;
      ghost var c: nat := 0;
      GoodShape(book);
      ghost var b0: Book, m0: seq<Cell> := book, mem[..];
      ElsewhereSelf(b0, m0, node0, nu0);
      while nu > LARGEST
        invariant State() && 1 <= nu <= nu0 && node + nu == node0 + nu0 && node < book.end && UsedLen(book, node) == nu
        invariant forall t :: t != node ==> UsedLen(book, t) == if t == node0 then 0 else UsedLen(b0, t)
        invariant node != node0 ==> UsedLen(b0, node) == 0
        invariant Elsewhere(b0, book, node0, nu0) && Outside(m0, mem[..], node0, nu0)
        invariant Shape(book) && node == node0 + 128 * c && forall i :: 0 <= i < c ==> book.len[node0 + 128 * i] == 128
        decreases nu
      {
        ghost var b: Book := book;
        Fits(b, node, nu);
        InsertLargest(node, nu);
        GoodShape(book);
        ElsewhereWithin(b0, b, book, node0, nu0, node, nu);
        LargestNext(b.len, book.len, node0, c, nu);
        nu := nu - LARGEST;
        node := node + LARGEST;
        c := c + 1;
      }
      ghost var b: Book := book;
      InsertUnits(node, nu);
      ElsewhereWithin(b0, b, book, node0, nu0, node, nu);
      PiecesEnd(b, book, node0, c, nu);
    }

    /** The ring's blocks go to the free lists. */
    method Fill(ghost was: seq<Cell>)
      requires Arrays() && Tables() && size / 12 + 1 == book.end
      requires book.lo == loUnit && book.hi == hiUnit && book.start == unitsStart
      requires Collecting(was, mem[..], freeList[..], book, mem[size / 12 + 1].next)
      modifies mem, freeList, this`book
      ensures State() && book.lists[RING] == [] && Kept(book, was, mem[..])
      ensures forall t :: UsedLen(book, t) == UsedLen(old(book), t)
      ensures Shape(old(book)) && Scattered(old(book), book, |old(book).lists[RING]|)
    {
      hide Collecting, UsedLen, Good, Chains, Kept, Ring, Outside, Elsewhere, Take, Index, Units, Scattered, Pieces;
      ghost var b0: Book := book;
      var n := mem[size / 12 + 1].next;
      FillShape(was, mem[..], freeList[..], book, n);
      ghost var t: nat := 0;
      ScatteredNone(b0);
      while n != size / 12 + 1
        invariant State() && Collecting(was, mem[..], freeList[..], book, n) && Shape(book)
        invariant t <= |b0.lists[RING]| && Scattered(b0, book, t)
        invariant forall t :: UsedLen(book, t) == UsedLen(b0, t)
        decreases |book.lists[RING]|
      {
        ghost var b: Book, m: seq<Cell>, free: seq<nat> := book, mem[..], freeList[..];
        FillTake(was, m, free, b, n);
        var next := mem[n].next;
        book := Take(b, RING, 0);
        TakeBounds(b);
        ghost var c: Book := book;
        Scatter(n, NU(mem[n]));
        FillBounds(b, c, book, n, b.len[n]);
        FillStep(was, m, free, b, n, mem[..], freeList[..], book);
        ScatteredOn(b0, b, book, t, n);
        t := t + 1;
        FillShape(was, mem[..], freeList[..], book, next);
        n := next;
      }
      FillEnd(was, mem[..], freeList[..], book, n);
      ScatteredAll(b0, book, t);
    }

    /**
     * Free neighbours become one block each, as large as they can, and are handed out to the lists again in pieces:
     * users notice nothing.
     */
    method GlueFreeBlocks() returns (ghost joined: Book)
      requires State() && book.lists[RING] == [] && Stamped(mem[..], book)
      modifies mem, freeList, this`book, this`glueCount
      ensures State() && book.lists[RING] == [] && glueCount == 255
      ensures forall t :: UsedLen(book, t) == UsedLen(old(book), t)
      ensures Kept(book, old(mem[..]), mem[..])
      ensures AllGlued(joined) && SameBounds(old(book), joined) && forall t :: UsedLen(joined, t) == UsedLen(old(book), t)
      ensures Scattered(joined, book, |joined.lists[RING]|)
    {
      hide Joining, Collecting, UsedLen, Good, Chains, Kept, Ring, Index, Units, AllGlued, Scattered;
      ghost var was: seq<Cell> := mem[..];
      glueCount := 255;
      Collect();
      JoinAll(was);
      JoinDone(was, mem[..], freeList[..], book);
      joined := book;
      Fill(was);
    }

    // ---------------------------------------------------------------- allocation

    /** No list has a block of class i or larger, and the text leaves no room for one. */
    ghost predicate Exhausted(i: nat)
      reads this`book, this`text, this`unitsStart
    {
      && |book.lists| == RING + 1 && (forall j :: i <= j < INDEXES ==> book.lists[j] == [])
      && Offset(unitsStart) - text <= 12 * Units(i)
    }

    /** A block from below the heap, if the text leaves more than that. */
    method TakeFromText(indx: nat) returns (p: nat)
      requires Valid() && indx < INDEXES && forall j :: indx <= j < INDEXES ==> |book.lists| > j && book.lists[j] == []
      modifies this`book, this`unitsStart
      ensures Valid() && Granted(old(book), book, p, Units(indx))
      ensures p == 0 ==> book == old(book) && Exhausted(indx)
      ensures p != 0 ==> p == unitsStart == old(unitsStart) - Units(indx) && Offset(old(unitsStart)) - text > 12 * Units(indx)
    {
      hide UsedLen, Good, Chains, Index, Units;
      GoodShape(book);
      var k := indx2Units[indx];
      if Offset(unitsStart) - text > 12 * k {
        BelowFits(size, unitsStart, k);
        FromBelowGood(book, k);
        BelowChains(mem[..], freeList[..], book, k);
        unitsStart := unitsStart - k;
        book := FromBelow(book, k);
        p := unitsStart;
      } else {
        p := 0;
      }
    }

    /** A block is split off a larger one, once in a while after gluing, or taken from below; 0 if there is none. */
    method AllocUnitsRare(indx: nat) returns (p: nat, ghost joined: Book)
      requires Valid() && Stamped(mem[..], book) && indx < INDEXES && freeList[indx] == 0
      modifies mem, freeList, this`book, this`glueCount, this`unitsStart
      ensures Valid() && Granted(old(book), book, p, Units(indx)) && Kept(old(book), old(mem[..]), mem[..])
      ensures p == 0 ==> Exhausted(indx)
      ensures old(glueCount) > 0 ==> FirstLarger(old(freeList[..]), indx, p)
      ensures old(glueCount) > 0 ==> glueCount == old(glueCount) - (if NoneLarger(old(freeList[..]), indx) then 1 else 0)
      ensures old(glueCount) == 0 ==> AllGlued(joined) && forall t :: UsedLen(joined, t) == UsedLen(old(book), t)
      ensures old(glueCount) == 0 && p == 0 ==> Scattered(joined, book, |joined.lists[RING]|)
      ensures unitsStart == old(unitsStart) || Offset(old(unitsStart)) - text > 12 * Units(indx)
    {
      hide UsedLen, Good, Chains, Kept, Stamped, Outside, Index, Units, AllGlued, Scattered, FirstLarger, NoneLarger;
      ghost var b0: Book, was: seq<Cell> := book, mem[..];
      KeptSelf(book, mem[..]);
      joined := book;
      if glueCount == 0 {
        joined := GlueFreeBlocks();
        KeptSame(book, b0, was, mem[..]);
        if freeList[indx] != 0 {
          p := RemoveNode(indx);
          return;
        }
      }
      ghost var b: Book, f: seq<nat> := book, freeList[..];
      GoodShape(b);
      ChainHead(mem[..], freeList[..], book, indx);
      var i := indx;
      while true
        invariant indx <= i < INDEXES && book == b && Valid() && Kept(b0, was, mem[..]) && glueCount > 0 && (old(glueCount) > 0 ==> glueCount == old(glueCount))
        invariant freeList[..] == f && forall j :: indx <= j <= i ==> book.lists[j] == [] && f[j] == 0
        invariant forall t :: UsedLen(book, t) == UsedLen(b0, t)
        decreases INDEXES - i
      {
        i := i + 1;
        if i == INDEXES {
          glueCount := glueCount - 1;
          p := TakeFromText(indx);
          NoLargerIs(f, indx, p);
          return;
        }
        ChainHead(mem[..], freeList[..], book, i);
        if freeList[i] != 0 { break; }
      }
      ghost var m: seq<Cell> := mem[..];
      LargerIs(f, indx, i);
      p := RemoveNode(i);
      SplitBlock(p, i, indx);
      OutsideMore(m, mem[..], p, Units(i), Units(indx));
      KeptHere(b, b0, was, m, mem[..], p, Units(i));
    }

    /** A block of class indx for a user, or 0. */
    method AllocUnits(indx: nat) returns (p: nat)
      requires Valid() && Stamped(mem[..], book) && indx < INDEXES
      modifies mem, freeList, this`book, this`glueCount, this`unitsStart, this`loUnit
      ensures Valid() && Granted(old(book), book, p, Units(indx)) && Kept(old(book), old(mem[..]), mem[..])
      ensures p == 0 ==> Exhausted(indx) && hiUnit - loUnit < Units(indx)
      ensures old(freeList[indx]) != 0 ==> p == old(freeList[indx])
      ensures old(freeList[indx]) == 0 && Units(indx) <= old(hiUnit - loUnit) ==> p == old(loUnit)
      ensures unitsStart == old(unitsStart) || Offset(old(unitsStart)) - text > 12 * Units(indx)
    {
      hide UsedLen, Good, Chains, Kept, Stamped, Index, Units;
      KeptSelf(book, mem[..]);
      if freeList[indx] != 0 {
        p := RemoveNode(indx);
        return;
      }
      var k := indx2Units[indx];
      GoodShape(book);
      if k <= hiUnit - loUnit {
        FromLowGood(book, k);
        LowChains(mem[..], freeList[..], book, k);
        p := loUnit;
        book := FromLow(book, k);
        loUnit := loUnit + k;
        return;
      }
      ghost var joined;
      p, joined := AllocUnitsRare(indx);
    }

    /** A context, of one unit, for a user, or 0. */
    method AllocContext() returns (p: nat)
      requires Valid() && Stamped(mem[..], book)
      modifies mem, freeList, this`book, this`glueCount, this`unitsStart, this`hiUnit
      ensures Valid() && Granted(old(book), book, p, 1) && Kept(old(book), old(mem[..]), mem[..])
      ensures p == 0 ==> Exhausted(0) && hiUnit == loUnit
      ensures old(hiUnit != loUnit) ==> p == old(hiUnit) - 1
      ensures old(hiUnit == loUnit && freeList[0] != 0) ==> p == old(freeList[0])
      ensures unitsStart == old(unitsStart) || Offset(old(unitsStart)) - text > 12
    {
      OneUnit();
      hide UsedLen, Good, Chains, Kept, Stamped, Index, Units;
      KeptSelf(book, mem[..]);
      GoodShape(book);
      if hiUnit != loUnit {
        FromHighGood(book);
        HighChains(mem[..], freeList[..], book);
        book := FromHigh(book);
        hiUnit := hiUnit - 1;
        p := hiUnit;
      } else if freeList[0] != 0 {
        p := RemoveNode(0);
      } else {
        ghost var joined;
        p, joined := AllocUnitsRare(0);
      }
    }

    /** num cells from src to dst. */
    method Copy(dst: nat, src: nat, num: nat)
      requires num >= 1 && dst + num <= mem.Length && src + num <= mem.Length && (dst + num <= src || src + num <= dst)
      modifies mem
      ensures mem[dst..dst + num] == old(mem[src..src + num])
      ensures forall u :: 0 <= u < mem.Length && !(dst <= u < dst + num) ==> mem[u] == old(mem[u])
    {
      var n := 0;
      while n < num
        invariant 0 <= n <= num
        invariant forall u :: dst <= u < dst + n ==> mem[u] == old(mem[src + (u - dst)])
        invariant forall u :: 0 <= u < mem.Length && !(dst <= u < dst + n) ==> mem[u] == old(mem[u])
      {
        mem[dst + n] := mem[src + n];
        n := n + 1;
      }
    }

    /** The first units of a user's block move to a free block; the old block goes to its list. */
    method ShrinkMove(oldPtr: nat, newNU: nat, i0: nat, i1: nat) returns (p: nat)
      requires Valid() && i1 < i0 < INDEXES && UsedLen(book, oldPtr) == Units(i0) && 1 <= newNU <= Units(i1) < Units(i0) && freeList[i1] != 0
      modifies mem, freeList, this`book
      ensures Valid() && UsedLen(old(book), p) == 0 && oldPtr + newNU <= mem.Length && p + newNU <= mem.Length && p == old(freeList[i1])
      ensures forall t :: UsedLen(book, t) == if t == p then Units(i1) else if t == oldPtr then 0 else UsedLen(old(book), t)
      ensures mem[p..p + newNU] == old(mem[oldPtr..oldPtr + newNU])
      ensures KeptBut(old(book), old(mem[..]), mem[..], oldPtr)
    {
      hide UsedLen, Good, Chains, KeptBut, Outside, Index, Units;
      ghost var b0: Book, was: seq<Cell> := book, mem[..];
      Used(book, oldPtr);
      p := RemoveNode(i1);
      ghost var m: seq<Cell> := mem[..];
      BlocksApart(book, oldPtr, p);
      Copy(p, oldPtr, newNU);
      ChainsRange(m, mem[..], freeList[..], book, p);
      CopyKept(b0, book, was, mem[..], oldPtr, p);
      ghost var m2: seq<Cell> := mem[..];
      InsertNode(oldPtr, i0);
      InsertKept(b0, was, m2, mem[..], oldPtr, Units(i0));
      SameStretch(m2, mem[..], p, newNU, oldPtr);
    }

    lemma SameStretch(m: seq<Cell>, m2: seq<Cell>, p: nat, n: nat, q: nat)
      requires |m| == |m2| && p + n <= |m| && !(p <= q < p + n) && forall u :: 0 <= u < |m| && u != q ==> m2[u] == m[u]
      ensures m2[p..p + n] == m[p..p + n]
    {
      assert forall u :: p <= u < p + n ==> m2[u] == m[u];
    }

    /** A user's block shrinks, in place or to a free block of the smaller class. */
    method ShrinkUnits(oldPtr: nat, oldNU: nat, newNU: nat) returns (p: nat)
      requires Valid() && 1 <= newNU <= oldNU <= LARGEST && UsedLen(book, oldPtr) == Units(Index(oldNU))
      modifies mem, freeList, this`book
      ensures Valid() && (p == oldPtr || UsedLen(old(book), p) == 0)
      ensures p == if Index(newNU) == Index(oldNU) || old(freeList[Index(newNU)]) == 0 then oldPtr else old(freeList[Index(newNU)])
      ensures forall t :: UsedLen(book, t) == if t == p then Units(Index(newNU)) else if t == oldPtr then 0 else UsedLen(old(book), t)
      ensures oldPtr + newNU <= mem.Length && p + newNU <= mem.Length
      ensures mem[p..p + newNU] == old(mem[oldPtr..oldPtr + newNU])
      ensures KeptBut(old(book), old(mem[..]), mem[..], oldPtr)
    {
      hide UsedLen, Good, Chains, KeptBut, Outside, Index, Units;
      var i0, i1 := units2Indx[oldNU - 1], units2Indx[newNU - 1];
      IndexRises(newNU, oldNU);
      ghost var b0: Book, was: seq<Cell> := book, mem[..];
      Used(book, oldPtr);
      if i0 == i1 {
        KeptButSelf(b0, was, oldPtr);
        p := oldPtr;
        return;
      }
      if freeList[i1] != 0 {
        p := ShrinkMove(oldPtr, newNU, i0, i1);
        return;
      }
      SplitBlock(oldPtr, i0, i1);
      p := oldPtr;
      ShrinkKept(b0, was, mem[..], oldPtr, Units(i1));
      OutsideFirst(was, mem[..], oldPtr, Units(i0), Units(i1), newNU);
    }
  }

  // ---------------------------------------------------------------- what the methods use

  ghost predicate SameBounds(b: Book, c: Book) {
    c.end == b.end && c.start == b.start && c.lo == b.lo && c.hi == b.hi
  }

  lemma JoiningShape(was: seq<Cell>, mem: seq<Cell>, free: seq<nat>, b: Book)
    requires Joining(was, mem, free, b)
    ensures |b.lists| == RING + 1 && Shape(b)
  {
  }

  lemma MarkedNU(c: Cell, nu: nat)
    ensures NU(Marked(c, Stamp(c), nu)) == nu
  {
    MarkedIs(c, Stamp(c), nu);
  }

  lemma AbsorbList(b: Book, k: nat, j: nat)
    requires Shape(b) && k < |b.lists[RING]| && j < |b.lists[RING]| && j != k
    requires b.lists[RING][k] < b.end && b.lists[RING][j] < b.end
    ensures var l := b.lists[RING]; Absorb(b, k, j).lists == b.lists[RING := l[..j] + l[j + 1..]] && SameBounds(b, Absorb(b, k, j))
    ensures Absorb(b, k, j).lists[RING][if j < k then k - 1 else k] == b.lists[RING][k]
  {
  }

  lemma AbsorbedIs(m: seq<Cell>, n: nat, x: nat, nu: nat, m2: seq<Cell>)
    requires n < |m| && x < |m| && m[x].prev < |m| && m[x].next < |m|
    requires var p, q := m[x].prev, m[x].next;
             var m1 := m[p := m[p].(next := q)];
             var m3 := m1[q := m1[q].(prev := p)]; m2 == m3[n := Marked(m3[n], Stamp(m3[n]), nu)]
    ensures m2 == Absorbed(m, n, x, nu)
  {
  }

  lemma CollectHead(was: seq<Cell>, mem: seq<Cell>, free: seq<nat>, b: Book, n: nat, i: nat)
    requires Collecting(was, mem, free, b, n) && i < INDEXES
    ensures |free| == INDEXES && |b.lists| == RING + 1 && (free[i] == 0 <==> b.lists[i] == [])
    ensures free[i] != 0 ==> b.lists[i][0] == free[i]
  {
    ChainHead(mem, free, b, i);
  }

  lemma CollectStart(mem: seq<Cell>, free: seq<nat>, b: Book)
    requires Good(b) && Chains(mem, free, b) && |mem| == b.end + 1 && b.lists[RING] == []
    ensures Collecting(mem, mem, free, b, b.end) && |b.lists| == RING + 1
  {
    hide Chain, Tiled, Listed;
  }

  lemma PushedIs(m: seq<Cell>, x: nat, n: nat, nu: nat, m2: seq<Cell>)
    requires x < |m| && n < |m| && x != n && |m2| == |m|
    requires m2[x] == Marked(m[x].(next := n), 0, nu) && m2[n] == m[n].(prev := x)
    requires forall u :: 0 <= u < |m| && u != x && u != n ==> m2[u] == m[u]
    ensures m2 == Pushed(m, x, n, nu)
  {
  }

  lemma Used(b: Book, s: nat)
    requires Good(b) && UsedLen(b, s) > 0
    ensures s < b.end && b.len[s] == UsedLen(b, s) && |b.len| == b.end + 1 && s + b.len[s] <= b.end && Shape(b)
  {
    hide Listed;
    if s < b.end { BlockPlace(b, s); }
  }

  lemma GiveKeeps(b: Book, s: nat, i: nat)
    requires Good(b) && s < b.end && i < INDEXES
    ensures SameBounds(b, Give(b, s, i)) && |Give(b, s, i).lists| == |b.lists| == RING + 1 && Give(b, s, i).lists[RING] == b.lists[RING]
  {
  }

  lemma GiveElsewhere(b: Book, s: nat, i: nat)
    requires Good(b) && s < b.end && i < INDEXES
    ensures Elsewhere(b, Give(b, s, i), s, 0) && Give(b, s, i).len == b.len
  {
  }

  lemma TakeKeeps(b: Book, i: nat)
    requires Good(b) && i < INDEXES && b.lists[i] != [] && b.lists[i][0] < b.end
    ensures Shape(b)
    ensures var c := Take(b, i, 0); c.end == b.end && c.lo == b.lo && c.hi == b.hi && c.start == b.start
    ensures Take(b, i, 0).lists[RING] == b.lists[RING] && 0 < b.lists[i][0]
  {
    hide Tiled;
    assert b.lists[i][0] in b.lists[i];
    assert EntryOk(b, i, b.lists[i][0]);
  }

  lemma ElsewhereSelf(b: Book, mem: seq<Cell>, node: nat, nu: nat)
    requires Good(b)
    ensures Elsewhere(b, b, node, nu) && Outside(mem, mem, node, nu)
  {
  }

  lemma ElsewhereOn(a: Book, b: Book, c: Book, node: nat, nu: nat)
    requires Elsewhere(a, b, node, nu) && Elsewhere(b, c, node, 0)
    ensures Elsewhere(a, c, node, nu)
  {
  }

  lemma ElsewhereWithin(a: Book, b: Book, c: Book, node: nat, nu: nat, x: nat, k: nat)
    requires Elsewhere(a, b, node, nu) && Elsewhere(b, c, x, k) && node <= x && x + k <= node + nu
    ensures Elsewhere(a, c, node, nu)
  {
  }

  lemma Fits(b: Book, node: nat, nu: nat)
    requires Good(b) && UsedLen(b, node) == nu > 0
    ensures node + nu <= b.end && |b.len| == b.end + 1 && b.len[node] == nu
  {
    Used(b, node);
  }

  /** What InsertUnits does to the sizes. */
  lemma InOneOrTwo(len: seq<nat>, len2: seq<nat>, node: nat, nu: nat)
    requires 1 <= nu <= LARGEST && node + nu <= |len| && len[node] == nu
    requires if Units(Index(nu)) == nu then len2 == len
             else Index(nu) > 0 && Units(Index(nu) - 1) < nu && len2 == len[node := Units(Index(nu) - 1)][node + Units(Index(nu) - 1) := nu - Units(Index(nu) - 1)]
    ensures OneOrTwo(len2, node, nu)
  {
    hide Units, Index;
  }

  lemma LargestNext(len: seq<nat>, len2: seq<nat>, p: nat, c: nat, nu: nat)
    requires nu > 128 && p + 128 * c + nu <= |len| && len2 == len[p + 128 * c := 128][p + 128 * c + 128 := nu - 128]
    requires forall i :: 0 <= i < c ==> len[p + 128 * i] == 128
    ensures forall i :: 0 <= i < c + 1 ==> len2[p + 128 * i] == 128
  {
  }

  lemma PiecesEnd(b: Book, d: Book, p: nat, c: nat, nu: nat)
    requires Elsewhere(b, d, p + 128 * c, nu) && OneOrTwo(d.len, p + 128 * c, nu) && 1 <= nu <= 128 && p + 128 * c < b.end
    requires forall i :: 0 <= i < c ==> p + 128 * i < |b.len| && b.len[p + 128 * i] == 128
    ensures Pieces(d.len, p, nu + 128 * c)
  {
    assert Pieces(d.len, p + 128 * c, nu);
    hide OneOrTwo, Pieces;
    PiecesBefore(d.len, p, c, nu);
  }

  lemma NoneGlued(b: Book)
    requires Shape(b)
    ensures GluedTo(b, 0)
  {
  }

  lemma GluedAll(was: seq<Cell>, mem: seq<Cell>, free: seq<nat>, b: Book)
    requires Joining(was, mem, free, b) && Shape(b) && GluedTo(b, |b.lists[RING]|)
    ensures AllGlued(b)
  {
    hide Good, GluedTo;
  }

  lemma ScatteredNone(b: Book)
    requires Good(b)
    ensures Shape(b) && Scattered(b, b, 0)
  {
    hide Tiled;
    assert b.lists[RING][0..] == b.lists[RING];
    forall i | 0 <= i < |b.lists[RING]| ensures b.lists[RING][i] < b.end { assert EntryOk(b, RING, b.lists[RING][i]); }
  }

  lemma ScatteredOn(b: Book, c: Book, d: Book, t: nat, n: nat)
    requires Good(b) && Scattered(b, c, t) && Good(d) && c.lists[RING] != [] && n == c.lists[RING][0] && n < c.end
    requires Elsewhere(c.(lists := c.lists[RING := c.lists[RING][1..]]), d, n, c.len[n]) && Pieces(d.len, n, c.len[n])
    ensures t < |b.lists[RING]| && Scattered(b, d, t + 1)
  {
    hide Good, Pieces, Elsewhere;
    assert b.lists[RING][t] == n;
    GoodShape(d);
    ScatteredNext(b, c, d, t);
  }

  lemma ScatteredAll(b: Book, c: Book, t: nat)
    requires Shape(b) && t <= |b.lists[RING]| && Scattered(b, c, t) && c.lists[RING] == []
    ensures t == |b.lists[RING]|
  {
    hide Pieces;
  }

  lemma FillShape(was: seq<Cell>, mem: seq<Cell>, free: seq<nat>, b: Book, n: nat)
    requires Collecting(was, mem, free, b, n)
    ensures |mem| == b.end + 1 && Good(b) && Chains(mem, free, b) && Shape(b)
  {
  }

  lemma FillEnd(was: seq<Cell>, mem: seq<Cell>, free: seq<nat>, b: Book, n: nat)
    requires Collecting(was, mem, free, b, n) && n == b.end
    ensures Kept(b, was, mem) && |b.lists| == RING + 1 && b.lists[RING] == []
  {
    RingStart(b, n);
    if b.lists[RING] != [] { PlaceOf(b, RING); }
  }

  lemma TakeBounds(b: Book)
    requires Good(b) && b.lists[RING] != [] && b.lists[RING][0] < b.end
    ensures SameBounds(b, Take(b, RING, 0)) && |Take(b, RING, 0).lists| == RING + 1
  {
  }

  lemma FillBounds(b: Book, c: Book, d: Book, n: nat, nu: nat)
    requires |b.lists| == RING + 1 && b.lists[RING] != []
    requires Elsewhere(b.(lists := b.lists[RING := b.lists[RING][1..]]), c, n, 0) && Elsewhere(c, d, n, nu)
    ensures Elsewhere(b.(lists := b.lists[RING := b.lists[RING][1..]]), d, n, nu) && SameBounds(c, d)
    ensures |d.lists| == RING + 1 && d.lists[RING] == b.lists[RING][1..]
  {
  }

  /** If a list above indx has a block, p is the first of the least such. */
  ghost predicate FirstLarger(free: seq<nat>, indx: nat, p: nat) {
    forall j :: indx < j < |free| && free[j] != 0 && (forall i :: indx < i < j ==> free[i] == 0) ==> p == free[j]
  }

  ghost predicate NoneLarger(free: seq<nat>, indx: nat) {
    forall j :: indx < j < |free| ==> free[j] == 0
  }

  lemma NoLargerIs(free: seq<nat>, indx: nat, p: nat)
    requires |free| == INDEXES && forall j :: indx < j < INDEXES ==> free[j] == 0
    ensures NoneLarger(free, indx) && FirstLarger(free, indx, p)
  {
  }

  lemma LargerIs(free: seq<nat>, indx: nat, i: nat)
    requires indx < i < |free| && free[i] != 0 && forall j :: indx < j < i ==> free[j] == 0
    ensures !NoneLarger(free, indx) && FirstLarger(free, indx, free[i])
  {
  }

  /** A block of k units at p more in users' hands, or nothing if p is 0. */
  ghost predicate Granted(b: Book, c: Book, p: nat, k: nat) {
    if p == 0 then forall t :: UsedLen(c, t) == UsedLen(b, t)
    else UsedLen(b, p) == 0 && forall t :: UsedLen(c, t) == if t == p then k else UsedLen(b, t)
  }

  lemma KeptSelf(b: Book, mem: seq<Cell>)
    requires |mem| == b.end + 1
    ensures Kept(b, mem, mem)
  {
  }

  lemma GoodShape(b: Book)
    requires Good(b)
    ensures Shape(b)
  {
  }

  lemma BelowFits(size: nat, start: nat, k: nat)
    requires size - 12 * (size / 12 + 1 - start) > 12 * k
    ensures k < start
  {
  }

  lemma BelowChains(mem: seq<Cell>, free: seq<nat>, b: Book, k: nat)
    requires Chains(mem, free, b) && Shape(b) && 0 < k < b.start
    ensures Chains(mem, free, FromBelow(b, k))
  {
  }

  lemma OutsideMore(was: seq<Cell>, mem: seq<Cell>, p: nat, n: nat, k: nat)
    requires k < n && Outside(was, mem, p + k, n - k)
    ensures Outside(was, mem, p, n)
  {
  }

  lemma KeptHere(b: Book, b0: Book, was: seq<Cell>, mem: seq<Cell>, mem2: seq<Cell>, p: nat, n: nat)
    requires Good(b) && Kept(b0, was, mem) && Outside(mem, mem2, p, n) && b.end == b0.end
    requires p < b.end && |b.len| == b.end + 1 && b.len[p] == n > 0 && UsedLen(b, p) == 0 && forall t :: UsedLen(b, t) == UsedLen(b0, t)
    ensures Kept(b0, was, mem2)
  {
    hide Good, UsedLen;
    KeptSame(b0, b, was, mem);
    KeptRange(b, was, mem, mem2, p, n);
    KeptSame(b, b0, was, mem2);
  }

  /** The cells of all users' blocks but one are as they were. */
  ghost predicate KeptBut(b: Book, was: seq<Cell>, mem: seq<Cell>, x: nat) {
    && |was| == |mem| == b.end + 1
    && forall s, u :: s != x && 0 <= s <= u < s + UsedLen(b, s) && u <= b.end ==> mem[u] == was[u]
  }

  lemma KeptButSelf(b: Book, mem: seq<Cell>, x: nat)
    requires |mem| == b.end + 1
    ensures KeptBut(b, mem, mem, x)
  {
  }

  lemma OneUnit()
    ensures Units(0) == 1
  {
  }

  lemma IndexRises(n: nat, m: nat)
    requires 1 <= n <= m <= LARGEST
    ensures Index(n) <= Index(m) && n <= Units(Index(n)) && (Index(n) < Index(m) ==> Units(Index(n)) < Units(Index(m)))
  {
    hide Index, Units;
    if Index(m) < Index(n) {
      if Index(m) < Index(n) - 1 { UnitsRise(Index(m), Index(n) - 1); }
    } else if Index(n) < Index(m) {
      UnitsRise(Index(n), Index(m));
    }
  }

  lemma LowChains(mem: seq<Cell>, free: seq<nat>, b: Book, k: nat)
    requires Chains(mem, free, b) && Shape(b) && 0 < k && b.lo + k <= b.hi
    ensures Chains(mem, free, FromLow(b, k))
  {
  }

  lemma HighChains(mem: seq<Cell>, free: seq<nat>, b: Book)
    requires Chains(mem, free, b) && Shape(b) && b.lo < b.hi
    ensures Chains(mem, free, FromHigh(b))
  {
  }

  lemma BlocksApart(b: Book, s: nat, t: nat)
    requires Good(b) && UsedLen(b, s) > 0 && UsedLen(b, t) > 0 && s != t
    ensures s + UsedLen(b, s) <= t || t + UsedLen(b, t) <= s
    ensures s + UsedLen(b, s) <= b.end && t + UsedLen(b, t) <= b.end
  {
    Used(b, s);
    Used(b, t);
    hide Listed;
    if s < t < s + b.len[s] { Apart(b, s, t, t); }
    if t < s < t + b.len[t] { Apart(b, s, t, s); }
  }

  /** Cells of a user's block are in no list. */
  lemma ChainsRange(mem: seq<Cell>, mem2: seq<Cell>, free: seq<nat>, b: Book, p: nat)
    requires Good(b) && Chains(mem, free, b) && UsedLen(b, p) > 0 && |mem2| == |mem|
    requires forall u :: 0 <= u < |mem| && !(p <= u < p + UsedLen(b, p)) ==> mem2[u] == mem[u]
    ensures Chains(mem2, free, b)
  {
    hide Tiled, Distinct, HomeOk, Units, Chain;
    forall i | 0 <= i < INDEXES ensures Chain(mem2, free[i], b.lists[i]) {
      assert Chain(mem, free[i], b.lists[i]);
      forall x | x in b.lists[i] && x < |mem| ensures mem2[x].word == mem[x].word {
        assert EntryOk(b, i, x);
        NotInside(b, p, x);
      }
      ChainFrame(mem, mem2, free[i], b.lists[i]);
    }
  }

  lemma NotInside(b: Book, p: nat, x: nat)
    requires Good(b) && UsedLen(b, p) > 0 && x < b.end && b.len[x] > 0 && b.home[x] != USED
    ensures !(p <= x < p + UsedLen(b, p))
  {
    Used(b, p);
    if p <= x < p + b.len[p] { Apart(b, p, x, x); }
  }

  lemma CopyKept(b0: Book, b: Book, was: seq<Cell>, mem: seq<Cell>, x: nat, p: nat)
    requires Good(b) && |was| == |mem| == b.end + 1 && b.end == b0.end && UsedLen(b0, p) == 0 && UsedLen(b, p) > 0
    requires forall t :: t != p ==> UsedLen(b, t) == UsedLen(b0, t)
    requires forall u :: 0 <= u < |mem| && !(p <= u < p + UsedLen(b, p)) ==> mem[u] == was[u]
    ensures KeptBut(b0, was, mem, x)
  {
    hide Good, UsedLen;
    forall s, u | s != x && 0 <= s <= u < s + UsedLen(b0, s) && u <= b.end ensures mem[u] == was[u] {
      assert s != p;
      BlocksApart(b, s, p);
    }
  }

  lemma InsertKept(b0: Book, was: seq<Cell>, mem: seq<Cell>, mem2: seq<Cell>, x: nat, n: nat)
    requires Good(b0) && KeptBut(b0, was, mem, x) && UsedLen(b0, x) == n > 0 && |mem2| == |mem|
    requires forall u :: 0 <= u < |mem| && u != x ==> mem2[u] == mem[u]
    ensures KeptBut(b0, was, mem2, x)
  {
    hide Good, UsedLen;
    forall s, u | s != x && 0 <= s <= u < s + UsedLen(b0, s) && u <= b0.end ensures mem2[u] == was[u] {
      BlocksApart(b0, s, x);
    }
  }

  lemma ShrinkKept(b0: Book, was: seq<Cell>, mem: seq<Cell>, x: nat, k: nat)
    requires Good(b0) && |was| == |mem| == b0.end + 1 && 0 < k < UsedLen(b0, x) && Outside(was, mem, x + k, UsedLen(b0, x) - k)
    ensures KeptBut(b0, was, mem, x)
  {
    hide Good, UsedLen;
    forall s, u | s != x && 0 <= s <= u < s + UsedLen(b0, s) && u <= b0.end ensures mem[u] == was[u] {
      BlocksApart(b0, s, x);
    }
  }

  lemma OutsideFirst(was: seq<Cell>, mem: seq<Cell>, p: nat, n: nat, k: nat, nu: nat)
    requires nu <= k < n && Outside(was, mem, p + k, n - k) && p + n <= |mem|
    ensures mem[p..p + nu] == was[p..p + nu]
  {
  }

  /** A heap that is all gap. */
  function Bare(end: nat, start: nat): Book {
    Book(end, start, start, end, seq(end + 1, _ => 0), seq(end + 1, _ => USED), seq(RING + 1, _ => []))
  }

  lemma BareGood(end: nat, start: nat, mem: seq<Cell>, free: seq<nat>)
    requires 1 <= start < end && |free| == INDEXES && forall j :: 0 <= j < INDEXES ==> free[j] == 0
    ensures Good(Bare(end, start)) && Chains(mem, free, Bare(end, start)) && Shape(Bare(end, start))
    ensures forall t :: UsedLen(Bare(end, start), t) == 0
  {
  }

  /** Seven eighths of the memory are units, the rest is for the text. */
  function FirstUnit(size: nat): int { size / 12 + 1 - 7 * (size / 96) }

  lemma FirstUnitIs(size: nat)
    ensures size / 12 + 1 - size / 8 / 12 * 7 == FirstUnit(size)
  {
  }

  lemma RestartSizes(size: nat)
    requires size >= 2048
    ensures LARGEST + 1 <= size / 8 / 12 * 7 <= size / 12
    ensures 0 <= size - 12 * (size / 8 / 12 * 7)
  {
  }

  lemma CutKeeps(b: Book, s: nat, k: nat)
    requires Good(b) && s < b.end && 0 < k < b.len[s] && s + k < b.end
    ensures Elsewhere(b, Cut(b, s, k), s, b.len[s])
  {
  }

  lemma CutChains(mem: seq<Cell>, free: seq<nat>, b: Book, s: nat, k: nat)
    requires Chains(mem, free, b) && Shape(b) && s < b.end && 0 < k < b.len[s] && s + k < b.end
    ensures Chains(mem, free, Cut(b, s, k))
  {
  }
}
