/**
 * Building code lengths: repeatedly join the two lightest trees; when a code comes out too long,
 * flatten the frequencies and start over.
 */
module HuffmanLengths {
  import opened Bits
  import opened HuffmanHeap
  import opened HuffmanForest
  import opened HuffmanOptimal
  import HuffmanCodes

  const MAX_ALPHA_SIZE: nat := 258

  // ---------------------------------------------------------------- heap operations on sets of roots

  ghost predicate HeapOf(g: seq<nat>, w: seq<nat>, n: nat, roots: set<nat>) {
    HeapOk(g, w, n) && Members(g, n) == multiset(roots)
  }

  lemma PushRises(g: seq<nat>, w: seq<nat>, n: nat, roots: set<nat>, x: nat)
    requires HeapOf(g, w, n, roots) && n + 1 < |g| && x < |w| && x !in roots
    ensures Rising(g[n + 1 := x], w, n + 1, n + 1)
    ensures Members(g[n + 1 := x], n + 1) == multiset(roots + {x})
  {
    var h := g[n + 1 := x];
    assert h[1..n + 2] == g[1..n + 1] + [x];
    assert multiset(roots + {x}) == multiset(roots) + multiset{x};
  }

  method Push(heap: array<nat>, weight: array<nat>, n: nat, ghost roots: set<nat>, x: nat)
    requires heap != weight && HeapOf(heap[..], weight[..], n, roots) && n + 1 < heap.Length
    requires x < weight.Length && x !in roots
    modifies heap
    ensures HeapOf(heap[..], weight[..], n + 1, roots + {x})
  {
    hide HeapOk, Rising, Members;
    PushRises(heap[..], weight[..], n, roots, x);
    heap[n + 1] := x;
    assert heap[..] == old(heap[..])[n + 1 := x];
    Upheap(heap, weight, n + 1, n + 1);
  }

  lemma InRoots(g: seq<nat>, w: seq<nat>, n: nat, roots: set<nat>, i: nat)
    requires HeapOf(g, w, n, roots) && 1 <= i <= n
    ensures g[i] in roots
  {
    assert g[i] == g[1..n + 1][i - 1] && g[i] in Members(g, n);
  }

  lemma PopSinks(g: seq<nat>, w: seq<nat>, n: nat)
    requires HeapOk(g, w, n) && n >= 1
    ensures Sinking(g[1 := g[n]], w, n - 1, 1) && g[n] < |w|
  {
  }

  lemma PopMembers(g: seq<nat>, n: nat)
    requires 1 <= n < |g|
    ensures Members(g, n) == multiset{g[1]} + Members(g[1 := g[n]], n - 1)
  {
    if n >= 2 {
      assert g[1..n + 1] == [g[1]] + g[2..n] + [g[n]];
      assert g[1 := g[n]][1..n] == [g[n]] + g[2..n];
    } else {
      assert g[1..n + 1] == [g[1]] && g[1 := g[n]][1..n] == [];
    }
  }

  lemma RemoveRoot(ms: multiset<nat>, roots: set<nat>, x: nat)
    requires multiset{x} + ms == multiset(roots) && x in roots
    ensures ms == multiset(roots - {x})
  {
    forall y ensures ms[y] == multiset(roots - {x})[y] {
      assert (multiset{x} + ms)[y] == multiset{x}[y] + ms[y];
      assert multiset(roots)[y] == multiset{x}[y] + multiset(roots - {x})[y];
    }
  }

  lemma LightestRoot(g: seq<nat>, w: seq<nat>, n: nat, roots: set<nat>)
    requires HeapOf(g, w, n, roots) && n >= 1
    ensures forall z :: z in roots ==> z < |w| && w[g[1]] <= w[z]
  {
    forall z | z in roots ensures z < |w| && w[g[1]] <= w[z] {
      assert z in Members(g, n);
      var i :| 0 <= i < n && g[1..n + 1][i] == z;
      TopLightest(g, w, n, i + 1);
    }
  }

  method Pop(heap: array<nat>, weight: array<nat>, n: nat, ghost roots: set<nat>) returns (x: nat)
    requires heap != weight && HeapOf(heap[..], weight[..], n, roots) && n >= 1
    modifies heap
    ensures x in roots && x < weight.Length
    ensures forall z :: z in roots ==> z < weight.Length && weight[x] <= weight[z]
    ensures HeapOf(heap[..], weight[..], n - 1, roots - {x})
  {
    hide Sinking, Members;
    LightestRoot(heap[..], weight[..], n, roots);
    PopSinks(heap[..], weight[..], n);
    PopMembers(heap[..], n);
    InRoots(heap[..], weight[..], n, roots, 1);
    RemoveRoot(Members(heap[..][1 := heap[n]], n - 1), roots, heap[1]);
    x := heap[1];
    heap[1] := heap[n];
    assert heap[..] == old(heap[..])[1 := old(heap[n])];
    Downheap(heap, weight, n - 1, 1);
    if n == 1 {
      EmptyHeap(old(heap[..])[1 := old(heap[n])]);
      EmptyHeap(heap[..]);
    }
  }

  lemma EmptyHeap(g: seq<nat>)
    requires |g| >= 1
    ensures Members(g, 0) == multiset{}
  {
  }

  // ---------------------------------------------------------------- one tree

  /** Leaves 1..a carry positive frequencies and height 0. */
  ghost predicate Leaves(w: seq<nat>, a: nat) {
    && a < |w| && w[0] == 0
    && forall i :: 1 <= i <= a ==> Height(w[i]) == 0 && Freq(w[i]) >= 1
  }

  ghost function LeafSum(w: seq<nat>, a: nat): nat
    requires a < |w|
  {
    if a == 0 then 0 else LeafSum(w, a - 1) + Freq(w[a])
  }

  ghost predicate Grown(par: seq<int>, w: seq<nat>, a: nat, m: nat, roots: set<nat>, ka: seq<nat>, kb: seq<nat>, total: nat) {
    && Forest(par, w, a, m, roots, ka, kb) && Heavy(w, roots)
    && RootSum(par, w, m) == total < 0x80_0000
  }

  ghost function UpTo(i: nat): (s: set<nat>)
    ensures forall k :: k in s <==> 1 <= k <= i
  {
    if i == 0 then {} else UpTo(i - 1) + {i}
  }

  lemma {:induction false} LeafSumIsRootSum(par: seq<int>, w: seq<nat>, a: nat)
    requires a < |w| && a < |par| && forall k :: 1 <= k <= a ==> par[k] == -1
    ensures RootSum(par, w, a) == LeafSum(w, a)
  {
    if a > 0 { LeafSumIsRootSum(par, w, a - 1); }
  }

  lemma StartGrown(par: seq<int>, w: seq<nat>, a: nat, k: seq<nat>)
    requires Leaves(w, a) && LeafSum(w, a) < 0x80_0000 && |par| == |w| == |k|
    requires forall i :: 1 <= i <= a ==> par[i] == -1
    ensures Grown(par, w, a, a, UpTo(a), k, k, LeafSum(w, a))
  {
    LeafSumIsRootSum(par, w, a);
    assert Fib(0) == Fib(1) == 1;
  }

  lemma RootLow(par: seq<int>, w: seq<nat>, a: nat, m: nat, roots: set<nat>, ka: seq<nat>, kb: seq<nat>, total: nat, x: nat)
    requires Grown(par, w, a, m, roots, ka, kb, total) && x in roots
    ensures 1 <= x <= m < |w| && Height(w[x]) < 46 && Freq(w[x]) <= total && Fib(Height(w[x]) + 1) <= total
  {
    hide Fib, Height, Freq, RootSum;
    RootBelowSum(par, w, m, x);
    HeightBound(Height(w[x]), total);
  }

  lemma JoinGrown(par: seq<int>, w: seq<nat>, a: nat, m: nat, roots: set<nat>, ka: seq<nat>, kb: seq<nat>, total: nat, x: nat, y: nat)
    requires Grown(par, w, a, m, roots, ka, kb, total) && x in roots && y in roots && x != y && m + 1 < |par|
    requires forall z :: z in roots ==> z < |w| && w[x] <= w[z]
    requires forall z :: z in roots && z != x ==> w[y] <= w[z]
    ensures x < |w| && Height(w[x]) < 255 && y < |w| && Height(w[y]) < 255 && Freq(w[x]) + Freq(w[y]) <= total
    ensures AddWeights(w[x], w[y]) < 0x8000_0000
    ensures 1 <= x <= m && 1 <= y <= m && m + 1 !in roots && |ka| == |kb| == |par| == |w|
    ensures Grown(Parents(par, x, y, m + 1), w[m + 1 := AddWeights(w[x], w[y])], a, m + 1,
                  roots - {x} - {y} + {m + 1}, ka[m + 1 := x], kb[m + 1 := y], total)
  {
    RootLow(par, w, a, m, roots, ka, kb, total, x);
    RootLow(par, w, a, m, roots, ka, kb, total, y);
    assert par[x] == -1 && par[y] == -1 && m + 1 !in roots;
    JoinForest(par, w, a, m, roots, ka, kb, x, y);
    JoinHeavy(w, roots, m, x, y);
    JoinSum(par, w, m, x, y);
    assert roots - {x} - {y} == roots - {x, y};
    JoinedFits(par, w, a, m, roots, ka, kb, total, x, y);
  }

  lemma JoinStaysBest(par: seq<int>, w: seq<nat>, a: nat, m: nat, roots: set<nat>, ka: seq<nat>, kb: seq<nat>, total: nat,
                      x: nat, y: nat, freq: seq<nat>)
    requires Grown(par, w, a, m, roots, ka, kb, total) && x in roots && y in roots && x != y && m + 1 < |par|
    requires forall z :: z in roots ==> z < |w| && w[x] <= w[z]
    requires forall z :: z in roots && z != x ==> w[y] <= w[z]
    requires Best(par, w, a, m, freq) && Sums(w, a, m, ka, kb)
    requires x < |w| && Height(w[x]) < 255 && y < |w| && Height(w[y]) < 255
    ensures Best(Parents(par, x, y, m + 1), w[m + 1 := AddWeights(w[x], w[y])], a, m + 1, freq)
    ensures |ka| == |kb| == |w| && Sums(w[m + 1 := AddWeights(w[x], w[y])], a, m + 1, ka[m + 1 := x], kb[m + 1 := y])
  {
    hide Height, Freq, Best, Heavy, RootSum, AddWeights;
    forall k | 1 <= k <= m && par[k] == -1 ensures Freq(w[x]) <= Freq(w[k]) && (k != x ==> Freq(w[y]) <= Freq(w[k])) {
      FreqMono(w[x], w[k]);
      if k != x { FreqMono(w[y], w[k]); }
    }
    JoinBest(par, w, a, m, freq, x, y, AddWeights(w[x], w[y]));
  }

  lemma StartSums(w: seq<nat>, a: nat, k: seq<nat>)
    requires a < |w| == |k|
    ensures Sums(w, a, a, k, k)
  {
  }

  lemma JoinedFits(par: seq<int>, w: seq<nat>, a: nat, m: nat, roots: set<nat>, ka: seq<nat>, kb: seq<nat>, total: nat, x: nat, y: nat)
    requires Grown(par, w, a, m, roots, ka, kb, total) && x in roots && y in roots && x != y
    ensures 1 <= x <= m && 1 <= y <= m && Freq(w[x]) + Freq(w[y]) <= total
  {
    hide Freq;
    DropRoot(par, w, m, x, 0);
    RootBelowSum(par[x := 0], w, m, y);
  }

  lemma HeapKept(g: seq<nat>, w: seq<nat>, n: nat, roots: set<nat>, m: nat, v: nat)
    requires HeapOf(g, w, n, roots) && 1 <= m < |w| && m !in roots
    ensures HeapOf(g, w[m := v], n, roots)
  {
    forall i | 0 <= i <= n ensures g[i] != m {
      if i > 0 { InRoots(g, w, n, roots, i); }
    }
  }

  lemma EmptyHeapOf(g: seq<nat>, w: seq<nat>)
    requires |g| >= 1 && |w| >= 1 && g[0] == 0 && w[0] == 0
    ensures HeapOf(g, w, 0, UpTo(0))
  {
  }

  method PlantLeaves(heap: array<nat>, weight: array<nat>, parent: array<int>, a: nat)
    requires heap != weight && a < parent.Length == weight.Length && a + 1 < heap.Length && Leaves(weight[..], a)
    modifies heap, parent
    ensures HeapOf(heap[..], weight[..], a, UpTo(a))
    ensures forall k :: 1 <= k <= a ==> parent[k] == -1
  {
    hide HeapOf, UpTo, Height, Freq;
    heap[0] := 0;
    EmptyHeapOf(heap[..], weight[..]);
    parent[0] := -2;
    var i := 1;
    while i <= a
      invariant 1 <= i <= a + 1
      invariant HeapOf(heap[..], weight[..], i - 1, UpTo(i - 1))
      invariant forall k :: 1 <= k < i ==> parent[k] == -1
    {
      parent[i] := -1;
      Push(heap, weight, i - 1, UpTo(i - 1), i);
      assert UpTo(i - 1) + {i} == UpTo(i);
      i := i + 1;
    }
  }

  /** Joining a heavier pair each time, until one root holds all leaves. */
  method GrowTree(heap: array<nat>, weight: array<nat>, parent: array<int>, a: nat)
      returns (nNodes: nat, ghost ka: seq<nat>, ghost kb: seq<nat>)
    requires heap != weight && 2 <= a <= MAX_ALPHA_SIZE
    requires heap.Length == MAX_ALPHA_SIZE + 2 && parent.Length == weight.Length == 2 * MAX_ALPHA_SIZE
    requires Leaves(weight[..], a) && LeafSum(weight[..], a) < 0x80_0000
    modifies heap, weight, parent
    ensures a < nNodes < 2 * MAX_ALPHA_SIZE
    ensures Grown(parent[..], weight[..], a, nNodes, {nNodes}, ka, kb, LeafSum(old(weight[..]), a))
    ensures Best(parent[..], weight[..], a, nNodes, Leafs(old(weight[..]), a)) && Sums(weight[..], a, nNodes, ka, kb)
    ensures forall i :: 0 <= i <= a ==> weight[i] == old(weight[i])
  {
    hide HeapOf, UpTo, Height, Freq, Leaves, LeafSum, Grown, AddWeights, Best, Sums, Leafs;
    PlantLeaves(heap, weight, parent, a);
    var nHeap := a;
    nNodes := a;
    ghost var total := LeafSum(weight[..], a);
    ghost var roots := UpTo(a);
    ka, kb := weight[..], weight[..];
    StartGrown(parent[..], weight[..], a, ka);
    ghost var freq := Leafs(weight[..], a);
    StartBest(parent[..], weight[..], a);
    StartSums(weight[..], a, ka);
    while nHeap > 1
      invariant nHeap >= 1 && nHeap + nNodes == 2 * a && nNodes >= a
      invariant HeapOf(heap[..], weight[..], nHeap, roots)
      invariant Grown(parent[..], weight[..], a, nNodes, roots, ka, kb, total)
      invariant Best(parent[..], weight[..], a, nNodes, freq) && Sums(weight[..], a, nNodes, ka, kb)
      invariant nNodes > a ==> nNodes in roots
      invariant forall i :: 0 <= i <= a ==> weight[i] == old(weight[i])
      decreases nHeap
    {
      var n1 := Pop(heap, weight, nHeap, roots);
      var n2 := Pop(heap, weight, nHeap - 1, roots - {n1});
      JoinGrown(parent[..], weight[..], a, nNodes, roots, ka, kb, total, n1, n2);
      JoinStaysBest(parent[..], weight[..], a, nNodes, roots, ka, kb, total, n1, n2, freq);
      ghost var par, w := parent[..], weight[..];
      nHeap := nHeap - 2;
      nNodes := nNodes + 1;
      assert nNodes !in roots;
      HeapKept(heap[..], w, nHeap, roots - {n1} - {n2}, nNodes, AddWeights(w[n1], w[n2]));
      parent[n1] := nNodes;
      parent[n2] := nNodes;
      weight[nNodes] := AddWeights(weight[n1], weight[n2]);
      parent[nNodes] := -1;
      assert parent[..] == Parents(par, n1, n2, nNodes);
      assert weight[..] == w[nNodes := AddWeights(w[n1], w[n2])];
      nHeap := nHeap + 1;
      Push(heap, weight, nHeap - 1, roots - {n1} - {n2}, nNodes);
      roots := roots - {n1} - {n2} + {nNodes};
      ka, kb := ka[nNodes := n1], kb[nNodes := n2];
    }
    OneRoot(heap[..], weight[..], roots, nNodes);
  }

  lemma OneRoot(g: seq<nat>, w: seq<nat>, roots: set<nat>, x: nat)
    requires HeapOf(g, w, 1, roots) && x in roots
    ensures roots == {x}
  {
    assert g[1..2] == [g[1]];
    forall z | z in roots ensures z == x {
      assert z in multiset(roots) && x in multiset(roots);
    }
  }

  // ---------------------------------------------------------------- reading off the lengths

  ghost predicate DepthsRead(len: seq<nat>, par: seq<int>, m: nat, n: nat) {
    && n <= |len| && n <= m && Upward(par, m)
    && forall i :: 0 <= i < n ==> len[i] == Depth(par, m, i + 1)
  }

  method MeasureDepths(len: array<nat>, parent: array<int>, a: nat, maxLen: nat, ghost m: nat) returns (tooLong: bool)
    requires Upward(parent[..], m) && a <= m && a <= len.Length
    modifies len
    ensures DepthsRead(len[..], parent[..], m, a)
    ensures tooLong <==> exists i :: 0 <= i < a && len[..][i] > maxLen
  {
    ghost var par := parent[..];
    tooLong := false;
    var i := 1;
    while i <= a
      invariant 1 <= i <= a + 1 && parent[..] == par
      invariant DepthsRead(len[..], par, m, i - 1)
      invariant tooLong ==> exists k :: 0 <= k < i - 1 && len[..][k] > maxLen
      invariant !tooLong ==> forall k :: 0 <= k < i - 1 ==> len[..][k] <= maxLen
    {
      var j: nat, k: nat := 0, i;
      while parent[k] >= 0
        invariant 1 <= k <= m && parent[..] == par
        invariant j + Depth(par, m, k) == Depth(par, m, i)
        decreases m - k
      {
        k := parent[k];
        j := j + 1;
      }
      ghost var was: seq<nat> := len[..];
      len[i - 1] := j;
      assert len[..] == was[i - 1 := j];
      assert forall k :: 0 <= k < i - 1 ==> len[..][k] == was[k];
      if j > maxLen {
        assert len[..][i - 1] > maxLen;
        tooLong := true;
      }
      i := i + 1;
    }
  }

  lemma {:induction false} KraftIsFrontier(len: seq<nat>, par: seq<int>, m: nat, b: nat, a: nat, k: nat)
    requires DepthsRead(len, par, m, a) && k <= a
    requires forall i :: 1 <= i <= a ==> par[i] == -1 || par[i] > a
    ensures HuffmanCodes.Kraft(len[..k], b) == Frontier(par, m, b, a, k)
  {
    if k > 0 {
      assert len[..k][..k - 1] == len[..k - 1];
      KraftIsFrontier(len, par, m, b, a, k - 1);
    }
  }

  /** The depths of a whole tree: positive, at most its height, with Kraft sum exactly one. */
  lemma TreeLengths(len: seq<nat>, par: seq<int>, w: seq<nat>, a: nat, m: nat, ka: seq<nat>, kb: seq<nat>, total: nat)
    requires Grown(par, w, a, m, {m}, ka, kb, total) && 1 <= a < m && DepthsRead(len, par, m, a)
    ensures forall i :: 0 <= i < a ==> 1 <= len[i] <= Height(w[m])
    ensures HuffmanCodes.Kraft(len[..a], Height(w[m])) == Pow2(Height(w[m]))
    ensures Height(w[m]) < 46 && (total <= 516 ==> Height(w[m]) <= 12)
  {
    hide Height, Fib, Freq;
    RootLow(par, w, a, m, {m}, ka, kb, total, m);
    HeightBound(Height(w[m]), total);
    FrontierWhole(par, w, a, m, ka, kb, Height(w[m]), a);
    KraftIsFrontier(len, par, m, Height(w[m]), a, a);
    forall i | 0 <= i < a ensures 1 <= len[i] <= Height(w[m]) {
      DepthBelowHeight(par, w, a, m, ka, kb, i + 1);
    }
  }

  /** And they cost as little as any lengths can. */
  lemma TreeBest(len: seq<nat>, par: seq<int>, w: seq<nat>, a: nat, m: nat, ka: seq<nat>, kb: seq<nat>, total: nat, freq: seq<nat>)
    requires Grown(par, w, a, m, {m}, ka, kb, total) && 1 <= a < m && DepthsRead(len, par, m, a)
    requires Best(par, w, a, m, freq) && Sums(w, a, m, ka, kb) && freq == Leafs(w, a)
    ensures Optimal(freq, len[..a])
  {
    hide Height, Freq, Best, Sums, Heavy, RootSum, Optimal, Leafs;
    TreeOptimal(par, w, a, m, ka, kb, freq, len[..a]);
  }

  /** A code word longer than maxLen comes only of a total that reaches a Fibonacci number. */
  lemma LongIsHeavy(len: seq<nat>, par: seq<int>, w: seq<nat>, a: nat, m: nat, ka: seq<nat>, kb: seq<nat>, total: nat, k: nat, maxLen: nat)
    requires Grown(par, w, a, m, {m}, ka, kb, total) && 1 <= a < m && DepthsRead(len, par, m, a) && k < a && len[k] > maxLen
    ensures total >= Fib(maxLen + 2)
  {
    hide Fib, Height, Freq, Heavy, RootSum;
    TreeLengths(len, par, w, a, m, ka, kb, total);
    RootLow(par, w, a, m, {m}, ka, kb, total, m);
    FibMono(maxLen + 2, Height(w[m]) + 1);
  }

  lemma ForestUpward(par: seq<int>, w: seq<nat>, a: nat, m: nat, roots: set<nat>, ka: seq<nat>, kb: seq<nat>)
    requires Forest(par, w, a, m, roots, ka, kb)
    ensures Upward(par, m)
  {
  }

  // ---------------------------------------------------------------- flattening the frequencies

  function Flatter(w: nat): nat {
    256 * (1 + Freq(w) / 2)
  }

  lemma {:induction false} FlatterSum(w: seq<nat>, v: seq<nat>, a: nat)
    requires Leaves(w, a) && |v| == |w| && forall i :: 1 <= i <= a ==> v[i] == Flatter(w[i])
    ensures LeafSum(v, a) <= LeafSum(w, a)
    ensures (exists i :: 1 <= i <= a && Freq(w[i]) >= 3) ==> LeafSum(v, a) < LeafSum(w, a)
    ensures (forall i :: 1 <= i <= a ==> Freq(w[i]) <= 2) ==> LeafSum(w, a) <= 2 * a
  {
    if a > 0 {
      FlatterSum(w, v, a - 1);
      FlatterOne(w[a]);
    }
  }

  lemma FlatterOne(w: nat)
    requires Freq(w) >= 1
    ensures Height(Flatter(w)) == 0 && 1 <= Freq(Flatter(w)) <= Freq(w)
    ensures Freq(w) >= 3 ==> Freq(Flatter(w)) < Freq(w)
  {
    assert Freq(Flatter(w)) == 1 + Freq(w) / 2;
  }

  lemma {:induction false} LeavesSame(w: seq<nat>, v: seq<nat>, a: nat)
    requires Leaves(w, a) && |v| == |w| && forall i :: 0 <= i <= a ==> v[i] == w[i]
    ensures Leaves(v, a) && LeafSum(v, a) == LeafSum(w, a)
  {
    if a > 0 { LeavesSame(w, v, a - 1); }
  }

  method Flatten(weight: array<nat>, a: nat)
    requires Leaves(weight[..], a)
    modifies weight
    ensures Leaves(weight[..], a) && weight[0] == old(weight[0])
    ensures forall i :: 1 <= i <= a ==> weight[i] == Flatter(old(weight[i]))
  {
    hide Height, Freq, Flatter;
    var i := 1;
    while i <= a
      invariant 1 <= i <= a + 1 && weight[0] == 0
      invariant forall k :: 1 <= k < i ==> weight[k] == Flatter(old(weight[k]))
      invariant forall k :: 1 <= k < i ==> Height(weight[k]) == 0 && Freq(weight[k]) >= 1
      invariant forall k :: i <= k <= a ==> weight[k] == old(weight[k])
    {
      FlatterOne(weight[i]);
      weight[i] := Flatter(weight[i]);
      i := i + 1;
    }
  }

  // ---------------------------------------------------------------- the whole builder

  /** Frequencies as the builder first sees them: nothing has frequency zero. */
  function FreqSum(freq: seq<nat>): nat {
    if freq == [] then 0 else FreqSum(freq[..|freq| - 1]) + Max(1, freq[|freq| - 1])
  }

  lemma {:induction false} FirstWeights(freq: seq<nat>, w: seq<nat>, k: nat)
    requires k <= |freq| < |w| && forall i :: 0 <= i < k ==> w[i + 1] == 256 * Max(1, freq[i])
    ensures LeafSum(w, k) == FreqSum(freq[..k])
  {
    if k > 0 {
      FirstWeights(freq, w, k - 1);
      assert freq[..k][..k - 1] == freq[..k - 1];
    }
  }

  /** The frequencies flattened k times. */
  function Flattened(freq: seq<nat>, k: nat): (f: seq<nat>)
    ensures |f| == |freq|
  {
    if k == 0 then seq(|freq|, i requires 0 <= i < |freq| => Max(1, freq[i]))
    else
      var g := Flattened(freq, k - 1);
      seq(|freq|, i requires 0 <= i < |freq| => 1 + g[i] / 2)
  }

  function Sum(f: seq<nat>): nat {
    if f == [] then 0 else Sum(f[..|f| - 1]) + f[|f| - 1]
  }

  lemma {:induction false} LeafSumIsSum(w: seq<nat>, a: nat)
    requires a < |w|
    ensures LeafSum(w, a) == Sum(Leafs(w, a))
  {
    hide Freq;
    if a > 0 {
      assert Leafs(w, a)[..a - 1] == Leafs(w, a - 1);
      LeafSumIsSum(w, a - 1);
    }
  }

  lemma FlattenedNext(w: seq<nat>, v: seq<nat>, a: nat, freq: seq<nat>, k: nat)
    requires |freq| == a < |w| == |v| && Leafs(w, a) == Flattened(freq, k) && forall i :: 1 <= i <= a ==> v[i] == Flatter(w[i])
    ensures Leafs(v, a) == Flattened(freq, k + 1)
  {
    forall i | 0 <= i < a ensures Leafs(v, a)[i] == Flattened(freq, k + 1)[i] {
      assert Leafs(w, a)[i] == Freq(w[i + 1]);
      assert v[i + 1] == 256 * (1 + Freq(w[i + 1]) / 2);
    }
  }

  lemma LeafsSame(w: seq<nat>, v: seq<nat>, a: nat)
    requires a < |w| && |v| == |w| && forall i :: 0 <= i <= a ==> v[i] == w[i]
    ensures Leafs(v, a) == Leafs(w, a)
  {
  }

  /** A code longer than 12 comes only of a frequency above 2, which flattening lowers. */
  lemma TooLongShrinks(w: seq<nat>, v: seq<nat>, a: nat, len: seq<nat>, par: seq<int>, u: seq<nat>, m: nat,
                       ka: seq<nat>, kb: seq<nat>, k: nat)
    requires Leaves(w, a) && 1 <= a <= MAX_ALPHA_SIZE && |v| == |w| && forall i :: 1 <= i <= a ==> v[i] == Flatter(w[i])
    requires Grown(par, u, a, m, {m}, ka, kb, LeafSum(w, a)) && a < m && DepthsRead(len, par, m, a)
    requires k < a && len[k] > 12
    ensures LeafSum(v, a) < LeafSum(w, a)
  {
    hide Freq, Height;
    TreeLengths(len, par, u, a, m, ka, kb, LeafSum(w, a));
    FlatterSum(w, v, a);
  }

  method SetWeights(weight: array<nat>, freq: seq<nat>)
    requires |freq| < weight.Length
    modifies weight
    ensures Leaves(weight[..], |freq|) && LeafSum(weight[..], |freq|) == FreqSum(freq)
    ensures Leafs(weight[..], |freq|) == Flattened(freq, 0)
  {
    var i := 0;
    weight[0] := 0;
    while i < |freq|
      invariant i <= |freq| && weight[0] == 0
      invariant forall k :: 0 <= k < i ==> weight[k + 1] == 256 * Max(1, freq[k])
    {
      weight[i + 1] := 256 * (if freq[i] == 0 then 1 else freq[i]);
      i := i + 1;
    }
    FirstWeights(freq, weight[..], |freq|);
    assert freq[..|freq|] == freq;
    forall k | 1 <= k <= |freq| ensures Height(weight[k]) == 0 && Freq(weight[k]) >= 1 {
      assert weight[(k - 1) + 1] == 256 * Max(1, freq[k - 1]);
    }
  }

  /** Each time before the k-th flattening the sum was so great that a code word could be too long. */
  ghost predicate HadToFlatten(freq: seq<nat>, k: nat, maxLen: nat) {
    forall j :: 0 <= j < k ==> Sum(Flattened(freq, j)) >= Fib(maxLen + 2)
  }

  /** The lengths cost least for the frequencies as flattened k times. */
  ghost predicate Chosen(freq: seq<nat>, len: seq<nat>, maxLen: nat, k: nat) {
    HadToFlatten(freq, k, maxLen) && Optimal(Flattened(freq, k), len)
  }

  /**
   * Code lengths for any table of frequencies: each between 1 and maxLen, with Kraft sum exactly one. No code costs less
   * for the frequencies, of which none counts as zero, if these are too few for a code word longer than maxLen; else for
   * those frequencies flattened some times.
   */
  method MakeCodeLengths(len: array<nat>, freq: seq<nat>, maxLen: nat)
    requires 2 <= |freq| <= MAX_ALPHA_SIZE && |freq| <= len.Length && FreqSum(freq) < 0x80_0000
    requires maxLen >= 12
    modifies len
    ensures forall i :: 0 <= i < |freq| ==> 1 <= len[i] <= maxLen
    ensures HuffmanCodes.Kraft(len[..|freq|], maxLen) == Pow2(maxLen)
    ensures exists k :: Chosen(freq, len[..|freq|], maxLen, k)
    ensures FreqSum(freq) < Fib(maxLen + 2) ==> Optimal(Flattened(freq, 0), len[..|freq|])
  {
    hide Height, Freq, Leaves, LeafSum, Grown, DepthsRead, Upward, Best, Sums, Leafs, Flattened, Fib, HadToFlatten, Optimal;
    var a := |freq|;
    var heap := new nat[MAX_ALPHA_SIZE + 2];
    var weight := new nat[2 * MAX_ALPHA_SIZE];
    var parent := new int[2 * MAX_ALPHA_SIZE];
    SetWeights(weight, freq);
    ghost var times := 0;
    NotFlattened(freq, maxLen);
    while true
      invariant Leaves(weight[..], a) && LeafSum(weight[..], a) < 0x80_0000
      invariant Leafs(weight[..], a) == Flattened(freq, times) && HadToFlatten(freq, times, maxLen)
      invariant times == 0 ==> LeafSum(weight[..], a) == FreqSum(freq)
      invariant FreqSum(freq) < Fib(maxLen + 2) ==> times == 0
      decreases LeafSum(weight[..], a)
    {
      ghost var w: seq<nat> := weight[..];
      var m, ka, kb := GrowTree(heap, weight, parent, a);
      ghost var u: seq<nat> := weight[..];
      LeavesSame(w, u, a);
      LeafsSame(w, u, a);
      GrownUpward(parent[..], u, a, m, {m}, ka, kb, LeafSum(w, a));
      var tooLong := MeasureDepths(len, parent, a, maxLen, m);
      TreeLengths(len[..], parent[..], u, a, m, ka, kb, LeafSum(w, a));
      if !tooLong {
        HuffmanCodes.KraftFull(len[..a], maxLen, Height(u[m]));
        TreeBest(len[..], parent[..], u, a, m, ka, kb, LeafSum(w, a), Flattened(freq, times));
        assert Chosen(freq, len[..a], maxLen, times);
        break;
      }
      ghost var k :| 0 <= k < a && len[k] > maxLen;
      LongIsHeavy(len[..], parent[..], u, a, m, ka, kb, LeafSum(w, a), k, maxLen);
      LeafSumIsSum(w, a);
      OnceMore(freq, times, maxLen);
      Flatten(weight, a);
      TooLongShrinks(u, weight[..], a, len[..], parent[..], u, m, ka, kb, k);
      FlattenedNext(u, weight[..], a, freq, times);
      times := times + 1;
    }
  }

  lemma NotFlattened(freq: seq<nat>, maxLen: nat)
    ensures HadToFlatten(freq, 0, maxLen)
  {
  }

  lemma OnceMore(freq: seq<nat>, k: nat, maxLen: nat)
    requires HadToFlatten(freq, k, maxLen) && Sum(Flattened(freq, k)) >= Fib(maxLen + 2)
    ensures HadToFlatten(freq, k + 1, maxLen)
  {
  }

  lemma GrownUpward(par: seq<int>, w: seq<nat>, a: nat, m: nat, roots: set<nat>, ka: seq<nat>, kb: seq<nat>, total: nat)
    requires Grown(par, w, a, m, roots, ka, kb, total)
    ensures Upward(par, m) && m < |w|
  {
    ForestUpward(par, w, a, m, roots, ka, kb);
  }
}
