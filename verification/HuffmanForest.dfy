/**
 * The growing forest of the code-length builder: parents, the height kept in each weight's low byte,
 * the Fibonacci bound on heights, and the Kraft sum of the finished tree.
 */
module HuffmanForest {
  import opened Bits

  /** A weight word is a frequency times 256 plus a height. */
  function Freq(w: nat): nat { w / 256 }
  function Height(w: nat): nat { w % 256 }
  function Max(x: nat, y: nat): nat { if x < y then y else x }

  /** The sum of two weight words, as long as the height leaves the frequency bits alone. */
  function AddWeights(x: nat, y: nat): (z: nat)
    requires Height(x) < 255 && Height(y) < 255
    ensures Freq(z) == Freq(x) + Freq(y) && Height(z) == 1 + Max(Height(x), Height(y))
  {
    256 * (Freq(x) + Freq(y)) + (1 + Max(Height(x), Height(y)))
  }

  function Fib(n: nat): (f: nat)
    ensures f >= 1
  {
    if n <= 1 then 1 else Fib(n - 1) + Fib(n - 2)
  }

  lemma {:induction false} FibMono(m: nat, n: nat)
    requires m <= n
    ensures Fib(m) <= Fib(n)
    decreases n
  {
    if m < n { FibMono(m, n - 1); }
  }

  lemma {:induction false} FibDoubles(k: nat)
    ensures Fib(2 * k) >= Pow2(k)
  {
    if k > 0 {
      FibDoubles(k - 1);
      assert Fib(2 * k) == Fib(2 * k - 1) + Fib(2 * k - 2);
      FibMono(2 * k - 2, 2 * k - 1);
    }
  }

  lemma FibStep(n: nat)
    ensures Fib(n + 2) == Fib(n + 1) + Fib(n) && Fib(0) == Fib(1) == 1
  {
  }

  lemma FourteenthFib()
    ensures Fib(14) == 610
  {
    hide Fib;
    assert Fib(4) == 5 && Fib(5) == 8 by { FibStep(0); FibStep(1); FibStep(2); FibStep(3); }
    assert Fib(8) == 34 && Fib(9) == 55 by { FibStep(4); FibStep(5); FibStep(6); FibStep(7); }
    assert Fib(12) == 233 && Fib(13) == 377 by { FibStep(8); FibStep(9); FibStep(10); FibStep(11); }
    FibStep(12);
  }

  /** A tree lighter than 2^23 has height below 46, and one of weight at most 516 height at most 12. */
  lemma HeightBound(h: nat, total: nat)
    requires Fib(h + 1) <= total
    ensures total < 0x80_0000 ==> h < 46
    ensures total <= 516 ==> h <= 12
  {
    hide Fib, Pow2;
    if h >= 46 {
      FibDoubles(23);
      FibMono(46, h + 1);
      Pow2Of23();
    }
    if h > 12 {
      FourteenthFib();
      FibMono(14, h + 1);
    }
  }

  lemma Pow2Of23()
    ensures Pow2(23) == 0x80_0000
  {
    assert Pow2(10) == 1024;
    Pow2Add(10, 10);
    Pow2Add(20, 3);
  }

  // ---------------------------------------------------------------- shape

  /** Parents 1..m of a forest over leaves 1..a; each inner node p has exactly the kids ka[p] and kb[p]. */
  ghost predicate Forest(par: seq<int>, w: seq<nat>, a: nat, m: nat, roots: set<nat>, ka: seq<nat>, kb: seq<nat>) {
    && |par| == |w| == |ka| == |kb| && a <= m < |par|
    && (forall k :: k in roots ==> 1 <= k <= m)
    && (forall k :: 1 <= k <= m ==> (k in roots <==> par[k] == -1))
    && (forall k :: 1 <= k <= m && par[k] != -1 ==> a < par[k] <= m && k < par[k])
    && (forall k :: 1 <= k <= m && par[k] != -1 ==> Height(w[par[k]]) > Height(w[k]))
    && (forall p :: a < p <= m ==> 1 <= ka[p] < p && 1 <= kb[p] < p && ka[p] != kb[p])
    && (forall p :: a < p <= m ==> par[ka[p]] == p && par[kb[p]] == p)
    && (forall k :: 1 <= k <= m && par[k] != -1 ==> k == ka[par[k]] || k == kb[par[k]])
  }

  ghost function Parents(par: seq<int>, x: nat, y: nat, p: nat): seq<int>
    requires x < |par| && y < |par| && p < |par|
  {
    par[x := p][y := p][p := -1]
  }

  lemma JoinForest(par: seq<int>, w: seq<nat>, a: nat, m: nat, roots: set<nat>, ka: seq<nat>, kb: seq<nat>, x: nat, y: nat)
    requires Forest(par, w, a, m, roots, ka, kb) && x in roots && y in roots && x != y && m + 1 < |par|
    requires Height(w[x]) < 255 && Height(w[y]) < 255
    ensures Forest(Parents(par, x, y, m + 1), w[m + 1 := AddWeights(w[x], w[y])], a, m + 1,
                   roots - {x, y} + {m + 1}, ka[m + 1 := x], kb[m + 1 := y])
  {
    hide Height;
  }

  // ---------------------------------------------------------------- weight

  ghost function RootSum(par: seq<int>, w: seq<nat>, m: nat): nat
    requires m < |par| && m < |w|
  {
    if m == 0 then 0 else RootSum(par, w, m - 1) + (if par[m] == -1 then Freq(w[m]) else 0)
  }

  lemma {:induction false} RootBelowSum(par: seq<int>, w: seq<nat>, m: nat, k: nat)
    requires 1 <= k <= m < |par| && m < |w| && par[k] == -1
    ensures Freq(w[k]) <= RootSum(par, w, m)
  {
    if k < m { RootBelowSum(par, w, m - 1, k); }
  }

  lemma {:induction false} DropRoot(par: seq<int>, w: seq<nat>, m: nat, x: nat, p: int)
    requires 1 <= x < |par| && m < |par| && m < |w| && par[x] == -1 && p != -1
    ensures RootSum(par[x := p], w, m) == RootSum(par, w, m) - (if x <= m then Freq(w[x]) else 0)
  {
    if m > 0 { DropRoot(par, w, m - 1, x, p); }
  }

  lemma {:induction false} SumSame(par: seq<int>, w: seq<nat>, par2: seq<int>, w2: seq<nat>, m: nat)
    requires m < |par| && m < |w| && |par2| == |par| && |w2| == |w|
    requires forall k :: 1 <= k <= m ==> par2[k] == par[k] && w2[k] == w[k]
    ensures RootSum(par2, w2, m) == RootSum(par, w, m)
  {
    if m > 0 { SumSame(par, w, par2, w2, m - 1); }
  }

  lemma JoinSum(par: seq<int>, w: seq<nat>, m: nat, x: nat, y: nat)
    requires 1 <= x <= m && 1 <= y <= m && x != y && m + 1 < |par| == |w| && par[x] == -1 && par[y] == -1
    requires Height(w[x]) < 255 && Height(w[y]) < 255
    ensures RootSum(Parents(par, x, y, m + 1), w[m + 1 := AddWeights(w[x], w[y])], m + 1) == RootSum(par, w, m)
  {
    DropRoot(par, w, m, x, m + 1);
    DropRoot(par[x := m + 1], w, m, y, m + 1);
    SumSame(par[x := m + 1][y := m + 1], w, Parents(par, x, y, m + 1), w[m + 1 := AddWeights(w[x], w[y])], m);
  }

  /** Every root is heavy for its own height, and almost as heavy as any other root's height asks. */
  ghost predicate Heavy(w: seq<nat>, roots: set<nat>) {
    && (forall x :: x in roots ==> x < |w| && Freq(w[x]) >= Fib(Height(w[x]) + 1))
    && (forall x, y :: x in roots && y in roots ==> Freq(w[y]) >= Fib(Height(w[x])))
  }

  lemma JoinHeavy(w: seq<nat>, roots: set<nat>, m: nat, x: nat, y: nat)
    requires Heavy(w, roots) && x in roots && y in roots && m + 1 < |w| && m + 1 !in roots
    requires Height(w[x]) < 255 && Height(w[y]) < 255
    requires forall z :: z in roots ==> w[x] <= w[z]
    requires forall z :: z in roots && z != x ==> w[y] <= w[z]
    ensures Heavy(w[m + 1 := AddWeights(w[x], w[y])], roots - {x, y} + {m + 1})
  {
    hide Fib, Height, Freq, AddWeights;
    var v, t := w[m + 1 := AddWeights(w[x], w[y])], roots - {x, y} + {m + 1};
    var h := Max(Height(w[x]), Height(w[y]));
    FibStep(h);
    FibMono(h + 1, h + 2);
    assert v[m + 1] == AddWeights(w[x], w[y]);
    forall z | z in t && z != m + 1 ensures v[z] == w[z] && Freq(w[z]) >= Fib(h + 1) {
      FreqMono(w[x], w[z]);
      FreqMono(w[y], w[z]);
    }
  }

  lemma FreqMono(x: nat, y: nat)
    requires x <= y
    ensures Freq(x) <= Freq(y)
  {
  }

  // ---------------------------------------------------------------- depths and the Kraft sum

  ghost predicate Upward(par: seq<int>, m: nat) {
    m < |par| && forall k :: 1 <= k <= m && par[k] != -1 ==> k < par[k] <= m
  }

  /** Steps from node k up to its root. */
  ghost function Depth(par: seq<int>, m: nat, k: nat): nat
    requires Upward(par, m) && 1 <= k <= m
    decreases m - k
  {
    if par[k] == -1 then 0 else 1 + Depth(par, m, par[k])
  }

  lemma {:induction false} DepthBelowHeight(par: seq<int>, w: seq<nat>, a: nat, m: nat, ka: seq<nat>, kb: seq<nat>, k: nat)
    requires Forest(par, w, a, m, {m}, ka, kb) && 1 <= k <= m && Upward(par, m)
    ensures Depth(par, m, k) + Height(w[k]) <= Height(w[m])
    decreases m - k
  {
    hide Height;
    if par[k] != -1 {
      DepthBelowHeight(par, w, a, m, ka, kb, par[k]);
    }
  }

  /** The share of one node: Pow2(b) at the root, half as much one step down. */
  ghost function Share(par: seq<int>, m: nat, b: nat, k: nat): nat
    requires Upward(par, m) && 1 <= k <= m
  {
    if Depth(par, m, k) <= b then Pow2(b - Depth(par, m, k)) else 0
  }

  /** The shares of those of the nodes 1..k that hang from a node above t, or from nothing. */
  ghost function Frontier(par: seq<int>, m: nat, b: nat, t: nat, k: nat): nat
    requires Upward(par, m) && k <= m
    decreases k
  {
    if k == 0 then 0
    else Frontier(par, m, b, t, k - 1) + (if par[k] == -1 || par[k] > t then Share(par, m, b, k) else 0)
  }

  lemma {:induction false} FrontierOpens(par: seq<int>, m: nat, b: nat, t: nat, k: nat, x: nat, y: nat)
    requires Upward(par, m) && k < t <= m && 1 <= x < t && 1 <= y < t && x != y
    requires par[x] == t && par[y] == t && (forall j :: 1 <= j <= m && par[j] == t ==> j == x || j == y)
    ensures Frontier(par, m, b, t - 1, k) == Frontier(par, m, b, t, k)
         + (if x <= k then Share(par, m, b, x) else 0) + (if y <= k then Share(par, m, b, y) else 0)
    decreases k
  {
    hide Share, Upward;
    if k > 0 { FrontierOpens(par, m, b, t, k - 1, x, y); }
  }

  lemma {:induction false} FrontierTop(par: seq<int>, m: nat, b: nat, k: nat)
    requires Upward(par, m) && k < m && (forall j :: 1 <= j < m ==> par[j] != -1)
    ensures Frontier(par, m, b, m, k) == 0
    decreases k
  {
    if k > 0 { FrontierTop(par, m, b, k - 1); }
  }

  /** Opening a node gives its share to its two kids, so the frontier always holds the whole. */
  lemma {:induction false} FrontierWhole(par: seq<int>, w: seq<nat>, a: nat, m: nat, ka: seq<nat>, kb: seq<nat>, b: nat, t: nat)
    requires Forest(par, w, a, m, {m}, ka, kb) && Upward(par, m) && 1 <= a <= t <= m && Height(w[m]) <= b
    ensures Frontier(par, m, b, t, t) == Pow2(b)
    decreases m - t
  {
    hide Height, Forest, Upward;
    if t == m {
      FrontierRoot(par, w, a, m, ka, kb, b);
    } else {
      FrontierWhole(par, w, a, m, ka, kb, b, t + 1);
      KidsOf(par, w, a, m, ka, kb, t + 1);
      FrontierOpens(par, m, b, t + 1, t, ka[t + 1], kb[t + 1]);
      KidShare(par, w, a, m, ka, kb, b, ka[t + 1]);
      KidShare(par, w, a, m, ka, kb, b, kb[t + 1]);
    }
  }

  lemma FrontierRoot(par: seq<int>, w: seq<nat>, a: nat, m: nat, ka: seq<nat>, kb: seq<nat>, b: nat)
    requires Forest(par, w, a, m, {m}, ka, kb) && Upward(par, m) && 1 <= m
    ensures Frontier(par, m, b, m, m) == Pow2(b)
  {
    assert forall j :: 1 <= j < m ==> par[j] != -1;
    assert par[m] == -1;
    FrontierTop(par, m, b, m - 1);
  }

  lemma KidsOf(par: seq<int>, w: seq<nat>, a: nat, m: nat, ka: seq<nat>, kb: seq<nat>, t: nat)
    requires Forest(par, w, a, m, {m}, ka, kb) && a < t <= m
    ensures |par| == |w| == |ka| == |kb| && m < |par|
    ensures 1 <= ka[t] < t && 1 <= kb[t] < t && ka[t] != kb[t] && par[ka[t]] == t && par[kb[t]] == t
    ensures forall j :: 1 <= j <= m && par[j] == t ==> j == ka[t] || j == kb[t]
    ensures par[t] == -1 || par[t] > t
  {
    hide Height;
  }

  lemma KidShare(par: seq<int>, w: seq<nat>, a: nat, m: nat, ka: seq<nat>, kb: seq<nat>, b: nat, k: nat)
    requires Forest(par, w, a, m, {m}, ka, kb) && Upward(par, m) && 1 <= k <= m && Height(w[m]) <= b && par[k] != -1
    ensures 2 * Share(par, m, b, k) == Share(par, m, b, par[k])
  {
    DepthBelowHeight(par, w, a, m, ka, kb, k);
    hide Height, Forest;
  }
}
