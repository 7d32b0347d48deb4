/**
 * The heap of tree nodes, kept in heap[1..nHeap] with a sentinel at index 0, and its two loops that
 * move a hole up or down until the displaced entry fits.
 */
module HuffmanHeap {

  ghost predicate IsParent(p: int, c: int) {
    1 <= p && (c == 2 * p || c == 2 * p + 1)
  }

  /** Entries are nodes, and the sentinel weighs nothing. */
  ghost predicate Entries(g: seq<nat>, w: seq<nat>, n: nat) {
    && n < |g| && |w| >= 1 && g[0] == 0 && w[0] == 0
    && forall i :: 0 <= i <= n ==> g[i] < |w|
  }

  /** A heap: no entry weighs less than its parent. */
  ghost predicate HeapOk(g: seq<nat>, w: seq<nat>, n: nat) {
    && Entries(g, w, n)
    && forall p, c :: IsParent(p, c) && c <= n ==> w[g[p]] <= w[g[c]]
  }

  /** A heap but for entry z, which may weigh less than its ancestors. */
  ghost predicate Rising(g: seq<nat>, w: seq<nat>, n: nat, z: nat) {
    && Entries(g, w, n) && 1 <= z <= n
    && (forall p, c :: IsParent(p, c) && c <= n && c != z ==> w[g[p]] <= w[g[c]])
    && (forall p, c :: IsParent(p, z) && IsParent(z, c) && c <= n ==> w[g[p]] <= w[g[c]])
  }

  /** A heap but for entry z, which may weigh more than its descendants. */
  ghost predicate Sinking(g: seq<nat>, w: seq<nat>, n: nat, z: nat) {
    && Entries(g, w, n) && 1 <= z
    && (forall p, c :: IsParent(p, c) && c <= n && p != z ==> w[g[p]] <= w[g[c]])
    && (forall p, c :: IsParent(p, z) && IsParent(z, c) && c <= n ==> w[g[p]] <= w[g[c]])
  }

  ghost function Members(g: seq<nat>, n: nat): multiset<nat>
    requires n < |g|
  {
    multiset(g[1..n + 1])
  }

  ghost function Swapped(g: seq<nat>, i: nat, j: nat): seq<nat>
    requires i < |g| && j < |g|
  {
    g[i := g[j]][j := g[i]]
  }

  lemma SwapMembers(g: seq<nat>, n: nat, i: nat, j: nat)
    requires n < |g| && 1 <= i <= n && 1 <= j <= n
    ensures Members(Swapped(g, i, j), n) == Members(g, n)
  {
    var s, t := g[1..n + 1], Swapped(g, i, j)[1..n + 1];
    assert t == s[i - 1 := s[j - 1]][j - 1 := s[i - 1]];
  }

  lemma RiseStep(g: seq<nat>, w: seq<nat>, n: nat, z: nat, p: nat)
    requires Rising(g, w, n, z) && p == z / 2 && w[g[z]] < w[g[p]]
    ensures p >= 1 && Rising(Swapped(g, z, p), w, n, p) && Members(Swapped(g, z, p), n) == Members(g, n)
  {
    assert z != 1;
    assert IsParent(p, z);
    SwapMembers(g, n, z, p);
    var t := Swapped(g, z, p);
    forall q, c | IsParent(q, c) && c <= n && c != p ensures w[t[q]] <= w[t[c]] {
    }
  }

  lemma RiseDone(g: seq<nat>, w: seq<nat>, n: nat, z: nat, p: nat)
    requires Rising(g, w, n, z) && p == z / 2 && w[g[p]] <= w[g[z]]
    ensures HeapOk(g, w, n)
  {
  }

  lemma SinkStep(g: seq<nat>, w: seq<nat>, n: nat, z: nat, y: nat)
    requires Sinking(g, w, n, z) && z <= n && IsParent(z, y) && y <= n && w[g[y]] <= w[g[z]]
    requires forall c :: IsParent(z, c) && c <= n ==> w[g[y]] <= w[g[c]]
    ensures Entries(Swapped(g, z, y), w, n) && Sinking(Swapped(g, z, y), w, n, y) && Members(Swapped(g, z, y), n) == Members(g, n)
  {
    SwapMembers(g, n, z, y);
    var t := Swapped(g, z, y);
    forall q, c | IsParent(q, c) && c <= n && q != y ensures w[t[q]] <= w[t[c]] {
    }
  }

  lemma SinkDone(g: seq<nat>, w: seq<nat>, n: nat, z: nat)
    requires Sinking(g, w, n, z)
    requires forall c :: IsParent(z, c) && c <= n ==> w[g[z]] <= w[g[c]]
    ensures HeapOk(g, w, n)
  {
  }

  /** The top entry is the lightest. */
  lemma {:induction false} TopLightest(g: seq<nat>, w: seq<nat>, n: nat, i: nat)
    requires HeapOk(g, w, n) && 1 <= i <= n
    ensures w[g[1]] <= w[g[i]]
  {
    if i > 1 {
      TopLightest(g, w, n, i / 2);
      assert IsParent(i / 2, i);
    }
  }

  lemma RisingEntries(g: seq<nat>, w: seq<nat>, n: nat, z: nat)
    requires Rising(g, w, n, z)
    ensures Entries(g, w, n) && 1 <= z <= n
  {
  }

  method Upheap(heap: array<nat>, weight: array<nat>, ghost n: nat, z: nat)
    requires heap != weight && Rising(heap[..], weight[..], n, z)
    modifies heap
    ensures HeapOk(heap[..], weight[..], n)
    ensures Members(heap[..], n) == old(Members(heap[..], n))
  {
    hide HeapOk, Rising, Members;
    var zz := z;
    ghost var w: seq<nat> := weight[..];
    RisingEntries(heap[..], w, n, z);
    var tmp := heap[zz];
    ghost var g: seq<nat> := heap[..];
    assert heap[zz / 2] == g[zz / 2];
    while weight[tmp] < weight[heap[zz / 2]]
      invariant weight[..] == w
      invariant 1 <= zz <= n && Entries(g, w, n)
      invariant g == heap[..][zz := tmp] && g[zz] == tmp
      invariant heap[zz / 2] == g[zz / 2] < weight.Length
      invariant Rising(g, w, n, zz)
      invariant Members(g, n) == old(Members(heap[..], n))
      decreases zz
    {
      RiseStep(g, w, n, zz, zz / 2);
      heap[zz] := heap[zz / 2];
      g := Swapped(g, zz, zz / 2);
      zz := zz / 2;
      RisingEntries(g, w, n, zz);
      assert heap[zz / 2] == g[zz / 2];
    }
    heap[zz] := tmp;
    assert heap[..] == g;
    RiseDone(g, w, n, zz, zz / 2);
  }

  lemma SinkingEntries(g: seq<nat>, w: seq<nat>, n: nat, z: nat)
    requires Sinking(g, w, n, z)
    ensures Entries(g, w, n) && 1 <= z
  {
  }

  lemma NoKids(z: nat, n: nat)
    requires 2 * z > n
    ensures forall c :: IsParent(z, c) ==> c > n
  {
  }

  lemma LighterKid(g: seq<nat>, w: seq<nat>, n: nat, z: nat, y: nat)
    requires Entries(g, w, n) && 1 <= z && 2 * z <= n && (y == 2 * z || y == 2 * z + 1) && y <= n
    requires y == 2 * z ==> 2 * z == n || w[g[2 * z]] <= w[g[2 * z + 1]]
    requires y == 2 * z + 1 ==> w[g[2 * z + 1]] <= w[g[2 * z]]
    ensures IsParent(z, y) && forall c :: IsParent(z, c) && c <= n ==> w[g[y]] <= w[g[c]]
  {
  }

  method Downheap(heap: array<nat>, weight: array<nat>, nHeap: nat, z: nat)
    requires heap != weight && Sinking(heap[..], weight[..], nHeap, z) && z < heap.Length
    requires heap[z] < weight.Length
    modifies heap
    ensures HeapOk(heap[..], weight[..], nHeap)
    ensures z <= nHeap ==> Members(heap[..], nHeap) == old(Members(heap[..], nHeap))
  {
    hide HeapOk, Sinking, Members;
    var zz := z;
    ghost var w: seq<nat> := weight[..];
    SinkingEntries(heap[..], w, nHeap, z);
    var tmp := heap[zz];
    ghost var g: seq<nat> := heap[..];
    while true
      invariant weight[..] == w
      invariant 1 <= zz < heap.Length && Entries(g, w, nHeap)
      invariant g == heap[..][zz := tmp] && g[zz] == tmp
      invariant Sinking(g, w, nHeap, zz)
      invariant Members(g, nHeap) == old(Members(heap[..], nHeap))
      decreases heap.Length - zz
    {
      var yy := 2 * zz;
      if yy > nHeap {
        NoKids(zz, nHeap);
        break;
      }
      assert heap[yy] == g[yy] && (yy < nHeap ==> heap[yy + 1] == g[yy + 1]);
      if yy < nHeap && weight[heap[yy + 1]] < weight[heap[yy]] {
        yy := yy + 1;
      }
      LighterKid(g, w, nHeap, zz, yy);
      if weight[tmp] < weight[heap[yy]] {
        break;
      }
      SinkStep(g, w, nHeap, zz, yy);
      heap[zz] := heap[yy];
      g := Swapped(g, zz, yy);
      zz := yy;
    }
    heap[zz] := tmp;
    assert heap[..] == g;
    SinkDone(g, w, nHeap, zz);
  }
}
