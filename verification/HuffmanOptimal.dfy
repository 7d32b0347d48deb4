/**
 * Why joining the two lightest trees is best: whatever lengths the leaves are given, as long as code words of those
 * lengths exist, they cost at least the weight of all trees joined; and that is what the finished tree costs.
 */
module HuffmanOptimal {
  import opened Bits
  import opened Residues
  import HuffmanCodes
  import opened HuffmanForest

  /** What a text with these frequencies costs in bits. */
  function Cost(freq: seq<nat>, len: seq<nat>): nat
    requires |freq| == |len|
  {
    if freq == [] then 0 else Cost(freq[..|freq| - 1], len[..|len| - 1]) + freq[|freq| - 1] * len[|len| - 1]
  }

  /** Lengths of at most b bits that code words exist for. */
  ghost predicate Codable(len: seq<nat>, b: nat) {
    (forall i :: 0 <= i < |len| ==> len[i] <= b) && HuffmanCodes.Kraft(len, b) <= Pow2(b)
  }

  /** No lengths that code words exist for, however long, cost less. */
  ghost predicate Optimal(freq: seq<nat>, len: seq<nat>) {
    |freq| == |len| && forall l: seq<nat>, b: nat :: |l| == |freq| && Codable(l, b) ==> Cost(freq, len) <= Cost(freq, l)
  }

  // ---------------------------------------------------------------- sums over roots

  ghost function Total(par: seq<int>, f: seq<nat>, m: nat): nat
    requires m < |par| && m < |f|
  {
    if m == 0 then 0 else Total(par, f, m - 1) + (if par[m] == -1 then f[m] else 0)
  }

  lemma {:induction false} TotalSet(par: seq<int>, f: seq<nat>, m: nat, x: nat, v: nat)
    requires m < |par| && m < |f| && 1 <= x <= m && par[x] == -1
    ensures Total(par, f, m) >= f[x] && Total(par, f[x := v], m) == Total(par, f, m) - f[x] + v
  {
    if x < m { TotalSet(par, f, m - 1, x, v); } else { TotalSame(par, f, par, f[x := v], m - 1); }
  }

  lemma {:induction false} TotalSame(par: seq<int>, f: seq<nat>, par2: seq<int>, f2: seq<nat>, m: nat)
    requires m < |par| && m < |f| && m < |par2| && m < |f2|
    requires forall k :: 1 <= k <= m ==> par2[k] == par[k] && f2[k] == f[k]
    ensures Total(par2, f2, m) == Total(par, f, m)
  {
    if m > 0 { TotalSame(par, f, par2, f2, m - 1); }
  }

  lemma {:induction false} TotalDrop(par: seq<int>, f: seq<nat>, m: nat, x: nat, p: int)
    requires m < |par| && m < |f| && 1 <= x <= m && par[x] == -1 && p != -1
    ensures Total(par[x := p], f, m) == Total(par, f, m) - f[x]
  {
    if x < m { TotalDrop(par, f, m - 1, x, p); } else { TotalSame(par, f, par[x := p], f, m - 1); }
  }

  lemma {:induction false} TotalMultiple(par: seq<int>, f: seq<nat>, m: nat, d: nat)
    requires m < |par| && m < |f| && d >= 1 && forall k :: 1 <= k <= m && par[k] == -1 ==> f[k] % d == 0
    ensures Total(par, f, m) % d == 0
  {
    if m > 0 {
      TotalMultiple(par, f, m - 1, d);
      if par[m] == -1 { MultipleSum(Total(par, f, m - 1), f[m], d); }
    }
  }

  lemma MultipleSum(a: nat, b: nat, d: nat)
    requires d >= 1 && a % d == 0 && b % d == 0
    ensures (a + b) % d == 0
  {
    var p, q := a / d, b / d;
    assert a == p * d && b == q * d;
    assert a + b == (p + q) * d;
    QuotientUnique(a + b, d, p + q, 0);
  }

  /** What the roots cost with these lengths, and their shares of 2^b. */
  ghost function Products(w: seq<nat>, l: seq<nat>): (f: seq<nat>)
    requires |w| == |l|
    ensures |f| == |w|
  {
    seq(|w|, k requires 0 <= k < |w| => Freq(w[k]) * l[k])
  }

  ghost function Parts(l: seq<nat>, b: nat): (f: seq<nat>)
    ensures |f| == |l|
  {
    seq(|l|, k requires 0 <= k < |l| => Part(l[k], b))
  }

  ghost function Part(n: nat, b: nat): nat { if n <= b then Pow2(b - n) else 0 }

  /** Lengths of the roots that code words exist for. */
  ghost predicate Assigned(par: seq<int>, l: seq<nat>, m: nat, b: nat) {
    && m < |par| == |l| && (forall k :: 1 <= k <= m && par[k] == -1 ==> l[k] <= b)
    && Total(par, Parts(l, b), m) <= Pow2(b)
  }

  lemma SetProducts(w: seq<nat>, l: seq<nat>, x: nat, v: nat)
    requires |w| == |l| && x < |l|
    ensures Products(w, l[x := v]) == Products(w, l)[x := Freq(w[x]) * v]
  {
    hide Freq;
  }

  lemma SetParts(l: seq<nat>, b: nat, x: nat, v: nat)
    requires x < |l|
    ensures Parts(l[x := v], b) == Parts(l, b)[x := Part(v, b)]
  {
    hide Part;
  }

  // ---------------------------------------------------------------- lengths, rearranged

  /** The root with the longest length, but for one. */
  lemma {:induction false} LongestRoot(par: seq<int>, l: seq<nat>, m: nat, skip: nat, other: nat) returns (u: nat)
    requires m < |par| == |l| && 1 <= other <= m && par[other] == -1 && other != skip
    ensures 1 <= u <= m && par[u] == -1 && u != skip
    ensures forall k :: 1 <= k <= m && par[k] == -1 && k != skip ==> l[k] <= l[u]
  {
    u := other;
    var i := 1;
    while i <= m
      invariant 1 <= i <= m + 1 && 1 <= u <= m && par[u] == -1 && u != skip
      invariant forall k :: 1 <= k < i && par[k] == -1 && k != skip ==> l[k] <= l[u]
    {
      if par[i] == -1 && i != skip && l[i] > l[u] { u := i; }
      i := i + 1;
    }
  }

  /** Exchanging a light root's shorter length for a heavier one's longer length costs nothing. */
  lemma Exchange(par: seq<int>, w: seq<nat>, l: seq<nat>, m: nat, b: nat, x: nat, u: nat)
    requires Assigned(par, l, m, b) && |w| == |l| && 1 <= x <= m && 1 <= u <= m && par[x] == -1 && par[u] == -1
    requires Freq(w[x]) <= Freq(w[u]) && l[x] <= l[u]
    ensures Assigned(par, l[x := l[u]][u := l[x]], m, b)
    ensures Total(par, Products(w, l[x := l[u]][u := l[x]]), m) <= Total(par, Products(w, l), m)
  {
    hide Freq, Part, Products, Parts, Total;
    if x == u {
      assert l[x := l[u]][u := l[x]] == l;
    } else {
      var l1 := l[x := l[u]];
      SetParts(l, b, x, l[u]);
      SetParts(l1, b, u, l[x]);
      TotalSet(par, Parts(l, b), m, x, Part(l[u], b));
      TotalSet(par, Parts(l1, b), m, u, Part(l[x], b));
      PartAt(l, b, x);
      PartAt(l1, b, u);
      SetProducts(w, l, x, l[u]);
      SetProducts(w, l1, u, l[x]);
      TotalSet(par, Products(w, l), m, x, Freq(w[x]) * l[u]);
      TotalSet(par, Products(w, l1), m, u, Freq(w[u]) * l[x]);
      ProductAt(w, l, x);
      ProductAt(w, l1, u);
      Rearranged(Freq(w[x]), Freq(w[u]), l[x], l[u]);
    }
  }

  lemma PartAt(l: seq<nat>, b: nat, x: nat)
    requires x < |l|
    ensures Parts(l, b)[x] == Part(l[x], b)
  {
  }

  lemma ProductAt(w: seq<nat>, l: seq<nat>, x: nat)
    requires |w| == |l| && x < |l|
    ensures Products(w, l)[x] == Freq(w[x]) * l[x]
  {
  }

  lemma Rearranged(f: nat, g: nat, s: nat, t: nat)
    requires f <= g && s <= t
    ensures f * t + g * s <= f * s + g * t
  {
    var d, e := g - f, t - s;
    assert f * t == f * s + f * e && g * t == g * s + g * e && g * e == f * e + d * e;
  }

  /** If one root's code is longer than all others, it can be cut down to the next longest. */
  lemma Shorten(par: seq<int>, w: seq<nat>, l: seq<nat>, m: nat, b: nat, x: nat, y: nat)
    requires Assigned(par, l, m, b) && |w| == |l| && 1 <= x <= m && 1 <= y <= m && par[x] == -1 && par[y] == -1 && x != y
    requires l[y] <= l[x] && forall k :: 1 <= k <= m && par[k] == -1 && k != x ==> l[k] <= l[y]
    ensures Assigned(par, l[x := l[y]], m, b)
    ensures Total(par, Products(w, l[x := l[y]]), m) <= Total(par, Products(w, l), m)
  {
    hide Freq, Part, Products, Parts, Total;
    var s := l[y];
    if s == l[x] {
      assert l[x := s] == l;
    } else {
      var d := Part(s, b);
      SetParts(l, b, x, s);
      TotalSet(par, Parts(l, b), m, x, d);
      PartAt(l, b, x);
      TotalDrop(par, Parts(l, b), m, x, 0);
      var rest := Total(par[x := 0], Parts(l, b), m);
      PartDivides(0, s, b);
      forall k | 1 <= k <= m && par[x := 0][k] == -1 ensures Parts(l, b)[k] % d == 0 {
        PartAt(l, b, k);
        PartDivides(l[k], s, b);
      }
      PartOne(l[x], b);
      TotalMultiple(par[x := 0], Parts(l, b), m, d);
      NextMultiple(rest, Pow2(b), d);
      SetProducts(w, l, x, s);
      TotalSet(par, Products(w, l), m, x, Freq(w[x]) * s);
      ProductAt(w, l, x);
      MulLe(s, l[x], Freq(w[x]));
      assert s * Freq(w[x]) == Freq(w[x]) * s && l[x] * Freq(w[x]) == Freq(w[x]) * l[x];
    }
  }

  lemma PartOne(n: nat, b: nat)
    requires n <= b
    ensures Part(n, b) >= 1 && Part(0, b) == Pow2(b)
  {
  }

  lemma PartDivides(n: nat, s: nat, b: nat)
    requires n <= s <= b
    ensures Part(s, b) >= 1 && Part(n, b) % Part(s, b) == 0 && Part(0, b) == Pow2(b)
  {
    Pow2Add(s - n, b - s);
    QuotientUnique(Pow2(b - n), Pow2(b - s), Pow2(s - n), 0);
  }

  lemma NextMultiple(t: nat, p: nat, d: nat)
    requires d >= 1 && t % d == 0 && p % d == 0 && t < p
    ensures t + d <= p
  {
    var q, r := t / d, p / d;
    assert t == q * d && p == r * d;
    MulLe(r, q, d);
    MulLe(q + 1, r, d);
    assert (q + 1) * d == q * d + d;
  }

  /** Joining two roots of one length, which is not 0, gives their parent one bit less. */
  lemma Merge(par: seq<int>, w: seq<nat>, l: seq<nat>, m: nat, b: nat, x: nat, y: nat, v: nat)
    requires Assigned(par, l, m, b) && |w| == |l| && m + 1 < |par| && x != y
    requires 1 <= x <= m && 1 <= y <= m && par[x] == -1 && par[y] == -1 && l[x] == l[y]
    requires Freq(v) == Freq(w[x]) + Freq(w[y])
    ensures l[x] >= 1
    ensures Assigned(Parents(par, x, y, m + 1), l[m + 1 := l[x] - 1], m + 1, b)
    ensures Total(Parents(par, x, y, m + 1), Products(w[m + 1 := v], l[m + 1 := l[x] - 1]), m + 1) + Freq(v)
         == Total(par, Products(w, l), m)
  {
    hide Freq, Part, Products, Parts, Total;
    var s, d := l[x], Part(l[x], b);
    var par2 := Parents(par, x, y, m + 1);
    JoinTotal(par, Parts(l, b), m, x, y, 0);
    PartAt(l, b, x);
    PartAt(l, b, y);
    PartDivides(0, s, b);
    PartUp(s, b);
    var l2 := l[m + 1 := s - 1];
    SetParts(l, b, m + 1, s - 1);
    JoinTotal(par, Parts(l, b), m, x, y, Part(s - 1, b));
    SetProducts(w, l, m + 1, s - 1);
    ProductsNext(w, l2, m + 1, v);
    ProductAt(w, l, x);
    ProductAt(w, l, y);
    assert Products(w, l2) == Products(w, l)[m + 1 := Freq(w[m + 1]) * (s - 1)];
    JoinTotal(par, Products(w, l), m, x, y, Freq(v) * (s - 1));
    assert Products(w[m + 1 := v], l2) == Products(w, l)[m + 1 := Freq(v) * (s - 1)];
    Spread(Freq(w[x]), Freq(w[y]), s);
  }

  lemma Spread(f: nat, g: nat, s: nat)
    requires s >= 1
    ensures f * s + g * s == (f + g) * (s - 1) + (f + g)
  {
    assert (f + g) * s == f * s + g * s && (f + g) * s == (f + g) * (s - 1) + (f + g);
  }

  lemma ProductsNext(w: seq<nat>, l: seq<nat>, p: nat, v: nat)
    requires |w| == |l| && p < |l|
    ensures Products(w[p := v], l) == Products(w, l)[p := Freq(v) * l[p]]
  {
    hide Freq;
  }

  /** Two roots of length 0 would fill the whole twice. */
  lemma PartUp(s: nat, b: nat)
    requires s <= b
    ensures s == 0 ==> Part(s, b) == Pow2(b)
    ensures s >= 1 ==> Part(s - 1, b) == 2 * Part(s, b)
  {
  }

  lemma JoinTotal(par: seq<int>, f: seq<nat>, m: nat, x: nat, y: nat, v: nat)
    requires m + 1 < |par| == |f| && 1 <= x <= m && 1 <= y <= m && x != y && par[x] == -1 && par[y] == -1
    ensures f[x] + f[y] <= Total(par, f, m)
    ensures Total(Parents(par, x, y, m + 1), f[m + 1 := v], m + 1) == Total(par, f, m) - f[x] - f[y] + v
  {
    TotalDrop(par, f, m, x, m + 1);
    TotalSet(par[x := m + 1], f, m, y, 0);
    TotalDrop(par[x := m + 1], f, m, y, m + 1);
    TotalSame(par[x := m + 1][y := m + 1], f, Parents(par, x, y, m + 1), f[m + 1 := v], m);
  }

  // ---------------------------------------------------------------- the forest so far is best

  /** The weight of all trees joined so far. */
  ghost function Joined(w: seq<nat>, a: nat, m: nat): nat
    requires m < |w|
  {
    if m <= a then 0 else Joined(w, a, m - 1) + Freq(w[m])
  }

  lemma {:induction false} JoinedSame(w: seq<nat>, a: nat, m: nat, p: nat, v: nat)
    requires m < p < |w|
    ensures Joined(w[p := v], a, m) == Joined(w, a, m)
  {
    if m > a { JoinedSame(w, a, m - 1, p, v); }
  }

  /** For these leaf lengths the roots can be given lengths that cost no more than what is left. */
  ghost predicate Beaten(par: seq<int>, w: seq<nat>, a: nat, m: nat, cost: nat, b: nat)
    requires m < |par| == |w|
  {
    exists l: seq<nat> :: Assigned(par, l, m, b) && Total(par, Products(w, l), m) + Joined(w, a, m) <= cost
  }

  /** The frequencies of the leaves. */
  ghost function Leafs(w: seq<nat>, a: nat): (f: seq<nat>)
    requires a < |w|
    ensures |f| == a
  {
    seq(a, i requires 0 <= i < a => Freq(w[i + 1]))
  }

  ghost predicate Best(par: seq<int>, w: seq<nat>, a: nat, m: nat, freq: seq<nat>) {
    && a <= m < |par| == |w| && |freq| == a
    && forall l: seq<nat>, b: nat :: |l| == a && Codable(l, b) ==> Beaten(par, w, a, m, Cost(freq, l), b)
  }

  lemma {:induction false} StartTotal(par: seq<int>, w: seq<nat>, a: nat, k: nat, l: seq<nat>, n: seq<nat>, b: nat)
    requires k <= a < |par| == |w| == |n| && |l| == a && (forall i :: 1 <= i <= a ==> par[i] == -1 && n[i] == l[i - 1])
    ensures Total(par, Products(w, n), k) == Cost(Leafs(w, a)[..k], l[..k])
    ensures Total(par, Parts(n, b), k) == HuffmanCodes.Kraft(l[..k], b)
  {
    hide Freq, Pow2;
    if k > 0 {
      StartTotal(par, w, a, k - 1, l, n, b);
      assert l[..k][..k - 1] == l[..k - 1] && Leafs(w, a)[..k][..k - 1] == Leafs(w, a)[..k - 1];
      ProductAt(w, n, k);
      PartAt(n, b, k);
    }
  }

  /** Before anything is joined. */
  lemma StartBest(par: seq<int>, w: seq<nat>, a: nat)
    requires a < |par| == |w| && forall i :: 1 <= i <= a ==> par[i] == -1
    ensures Best(par, w, a, a, Leafs(w, a))
  {
    hide Freq, Cost, Products, Parts, Total;
    forall l: seq<nat>, b: nat | |l| == a && Codable(l, b) ensures Beaten(par, w, a, a, Cost(Leafs(w, a), l), b) {
      var n := seq(|w|, i requires 0 <= i < |w| => if 1 <= i <= a then l[i - 1] else 0);
      StartTotal(par, w, a, a, l, n, b);
      assert l[..a] == l && Leafs(w, a)[..a] == Leafs(w, a);
      assert Assigned(par, n, a, b);
    }
  }

  /** Joining the two lightest roots keeps the forest best. */
  lemma JoinBest(par: seq<int>, w: seq<nat>, a: nat, m: nat, freq: seq<nat>, x: nat, y: nat, v: nat)
    requires Best(par, w, a, m, freq) && m + 1 < |par| && x != y && 1 <= x <= m && 1 <= y <= m && par[x] == -1 && par[y] == -1
    requires Freq(v) == Freq(w[x]) + Freq(w[y])
    requires forall k :: 1 <= k <= m && par[k] == -1 ==> Freq(w[x]) <= Freq(w[k])
    requires forall k :: 1 <= k <= m && par[k] == -1 && k != x ==> Freq(w[y]) <= Freq(w[k])
    ensures Best(Parents(par, x, y, m + 1), w[m + 1 := v], a, m + 1, freq)
  {
    hide Freq, Cost, Products, Parts, Total, Assigned, Codable, Beaten;
    forall l: seq<nat>, b: nat | |l| == a && Codable(l, b)
      ensures Beaten(Parents(par, x, y, m + 1), w[m + 1 := v], a, m + 1, Cost(freq, l), b)
    {
      JoinBeaten(par, w, a, m, Cost(freq, l), b, x, y, v);
    }
  }

  lemma JoinBeaten(par: seq<int>, w: seq<nat>, a: nat, m: nat, cost: nat, b: nat, x: nat, y: nat, v: nat)
    requires a <= m && m + 1 < |par| == |w| && Beaten(par, w, a, m, cost, b)
    requires x != y && 1 <= x <= m && 1 <= y <= m && par[x] == -1 && par[y] == -1
    requires Freq(v) == Freq(w[x]) + Freq(w[y])
    requires forall k :: 1 <= k <= m && par[k] == -1 ==> Freq(w[x]) <= Freq(w[k])
    requires forall k :: 1 <= k <= m && par[k] == -1 && k != x ==> Freq(w[y]) <= Freq(w[k])
    ensures Beaten(Parents(par, x, y, m + 1), w[m + 1 := v], a, m + 1, cost, b)
  {
    hide Freq, Products, Parts, Total;
    var l: seq<nat> :| Assigned(par, l, m, b) && Total(par, Products(w, l), m) + Joined(w, a, m) <= cost;
    AssignedSize(par, l, m, b);
    var u := LongestRoot(par, l, m, 0, x);
    Exchange(par, w, l, m, b, x, u);
    var l1 := l[x := l[u]][u := l[x]];
    var t := LongestRoot(par, l1, m, x, y);
    Exchange(par, w, l1, m, b, y, t);
    var l2 := l1[y := l1[t]][t := l1[y]];
    assert forall k :: 1 <= k <= m && par[k] == -1 && k != x ==> l2[k] <= l2[y];
    assert l2[x] == l[u] && l2[y] <= l2[x];
    Shorten(par, w, l2, m, b, x, y);
    var l3 := l2[x := l2[y]];
    Merge(par, w, l3, m, b, x, y, v);
    JoinedSame(w, a, m, m + 1, v);
    assert Joined(w[m + 1 := v], a, m + 1) == Joined(w, a, m) + Freq(v);
  }

  lemma AssignedSize(par: seq<int>, l: seq<nat>, m: nat, b: nat)
    requires Assigned(par, l, m, b)
    ensures m < |par| == |l|
  {
  }

  // ---------------------------------------------------------------- what the finished tree costs

  /** Every inner node weighs what its kids weigh. */
  ghost predicate Sums(w: seq<nat>, a: nat, m: nat, ka: seq<nat>, kb: seq<nat>) {
    && m < |w| == |ka| == |kb|
    && forall p :: a < p <= m ==> ka[p] < p && kb[p] < p && Freq(w[p]) == Freq(w[ka[p]]) + Freq(w[kb[p]])
  }

  /** The cost of those of the nodes 1..k that hang from a node above t, or from nothing. */
  ghost function Hanging(par: seq<int>, w: seq<nat>, m: nat, t: nat, k: nat): nat
    requires Upward(par, m) && k <= m < |w|
    decreases k
  {
    if k == 0 then 0
    else Hanging(par, w, m, t, k - 1) + (if par[k] == -1 || par[k] > t then Freq(w[k]) * Depth(par, m, k) else 0)
  }

  lemma {:induction false} HangingOpens(par: seq<int>, w: seq<nat>, m: nat, t: nat, k: nat, x: nat, y: nat)
    requires Upward(par, m) && k < t <= m < |w| && 1 <= x < t && 1 <= y < t && x != y
    requires par[x] == t && par[y] == t && (forall j :: 1 <= j <= m && par[j] == t ==> j == x || j == y)
    ensures Hanging(par, w, m, t - 1, k) == Hanging(par, w, m, t, k)
      + (if x <= k then Freq(w[x]) * Depth(par, m, x) else 0) + (if y <= k then Freq(w[y]) * Depth(par, m, y) else 0)
    decreases k
  {
    hide Freq, Upward, Depth;
    if k > 0 { HangingOpens(par, w, m, t, k - 1, x, y); }
  }

  lemma {:induction false} HangingTop(par: seq<int>, w: seq<nat>, m: nat, k: nat)
    requires Upward(par, m) && k < m < |w| && forall j :: 1 <= j < m ==> par[j] != -1
    ensures Hanging(par, w, m, m, k) == 0
    decreases k
  {
    hide Freq, Depth;
    if k > 0 { HangingTop(par, w, m, k - 1); }
  }

  /** Opening a node costs its weight, as its kids are one bit deeper. */
  lemma {:induction false} HangingWhole(par: seq<int>, w: seq<nat>, a: nat, m: nat, ka: seq<nat>, kb: seq<nat>, t: nat)
    requires Forest(par, w, a, m, {m}, ka, kb) && Upward(par, m) && Sums(w, a, m, ka, kb) && 1 <= a <= t <= m
    ensures Hanging(par, w, m, t, t) + Joined(w, a, t) == Joined(w, a, m)
    decreases m - t
  {
    hide Height, Freq, Forest, Upward, Sums, Depth;
    if t == m {
      HangingRoot(par, w, a, m, ka, kb);
    } else {
      HangingWhole(par, w, a, m, ka, kb, t + 1);
      KidsOf(par, w, a, m, ka, kb, t + 1);
      var x, y := ka[t + 1], kb[t + 1];
      HangingOpens(par, w, m, t + 1, t, x, y);
      KidDepth(par, m, x);
      KidDepth(par, m, y);
      KidsWeigh(w, a, m, ka, kb, t + 1);
      Deeper(Freq(w[x]), Freq(w[y]), Depth(par, m, t + 1));
    }
  }

  lemma KidsWeigh(w: seq<nat>, a: nat, m: nat, ka: seq<nat>, kb: seq<nat>, p: nat)
    requires Sums(w, a, m, ka, kb) && a < p <= m
    ensures ka[p] < p && kb[p] < p && Freq(w[p]) == Freq(w[ka[p]]) + Freq(w[kb[p]])
  {
  }

  lemma Deeper(f: nat, g: nat, n: nat)
    ensures f * (n + 1) + g * (n + 1) == (f + g) * n + (f + g)
  {
  }

  lemma KidDepth(par: seq<int>, m: nat, k: nat)
    requires Upward(par, m) && 1 <= k <= m && par[k] != -1
    ensures k < par[k] <= m && Depth(par, m, k) == 1 + Depth(par, m, par[k])
  {
  }

  lemma HangingRoot(par: seq<int>, w: seq<nat>, a: nat, m: nat, ka: seq<nat>, kb: seq<nat>)
    requires Forest(par, w, a, m, {m}, ka, kb) && Upward(par, m) && 1 <= m
    ensures Hanging(par, w, m, m, m) == 0
  {
    hide Freq, Height;
    assert forall j :: 1 <= j < m ==> par[j] != -1;
    assert par[m] == -1;
    HangingTop(par, w, m, m - 1);
  }

  lemma {:induction false} LeavesHang(par: seq<int>, w: seq<nat>, m: nat, a: nat, len: seq<nat>, k: nat)
    requires Upward(par, m) && k <= a <= m < |w| && |len| == a
    requires forall i :: 1 <= i <= a ==> par[i] == -1 || par[i] > a
    requires forall i :: 0 <= i < a ==> len[i] == Depth(par, m, i + 1)
    ensures Hanging(par, w, m, a, k) == Cost(Leafs(w, a)[..k], len[..k])
  {
    hide Freq, Depth;
    if k > 0 {
      LeavesHang(par, w, m, a, len, k - 1);
      assert len[..k][..k - 1] == len[..k - 1] && Leafs(w, a)[..k][..k - 1] == Leafs(w, a)[..k - 1];
    }
  }

  /** The depths of a finished tree cost what was joined, and nothing costs less. */
  lemma TreeOptimal(par: seq<int>, w: seq<nat>, a: nat, m: nat, ka: seq<nat>, kb: seq<nat>, freq: seq<nat>, len: seq<nat>)
    requires Forest(par, w, a, m, {m}, ka, kb) && Upward(par, m) && Sums(w, a, m, ka, kb) && Best(par, w, a, m, freq)
    requires 1 <= a < m && freq == Leafs(w, a) && |len| == a && forall i :: 0 <= i < a ==> len[i] == Depth(par, m, i + 1)
    ensures Optimal(freq, len)
  {
    hide Freq, Depth, Sums, Cost, Codable, Products, Parts, Total, Assigned;
    HangingWhole(par, w, a, m, ka, kb, a);
    LeafParents(par, w, a, m, ka, kb);
    LeavesHang(par, w, m, a, len, a);
    assert len[..a] == len && freq[..a] == freq;
    forall l: seq<nat>, b: nat | |l| == a && Codable(l, b) ensures Cost(freq, len) <= Cost(freq, l) {
      assert Beaten(par, w, a, m, Cost(freq, l), b);
    }
  }

  lemma LeafParents(par: seq<int>, w: seq<nat>, a: nat, m: nat, ka: seq<nat>, kb: seq<nat>)
    requires Forest(par, w, a, m, {m}, ka, kb)
    ensures forall i :: 1 <= i <= a ==> par[i] == -1 || par[i] > a
  {
    hide Height;
  }

  // ---------------------------------------------------------------- what is optimal

  lemma {:induction false} CostSet(freq: seq<nat>, len: seq<nat>, i: nat, v: nat)
    requires |freq| == |len| && i < |len|
    ensures Cost(freq, len[i := v]) == Cost(freq, len) - freq[i] * len[i] + freq[i] * v
  {
    var n := |len| - 1;
    if i < n {
      assert len[i := v][..n] == len[..n][i := v];
      CostSet(freq[..n], len[..n], i, v);
    } else {
      assert len[i := v][..n] == len[..n];
    }
  }

  lemma {:induction false} KraftSet(len: seq<nat>, b: nat, i: nat, v: nat)
    requires i < |len| && len[i] <= b && v <= b
    ensures HuffmanCodes.Kraft(len[i := v], b) == HuffmanCodes.Kraft(len, b) - Pow2(b - len[i]) + Pow2(b - v)
  {
    var n := |len| - 1;
    if i < n {
      assert len[i := v][..n] == len[..n][i := v];
      KraftSet(len[..n], b, i, v);
    } else {
      assert len[i := v][..n] == len[..n];
    }
  }

  /** In an optimal code what is more frequent is never longer. */
  lemma FrequentShorter(freq: seq<nat>, len: seq<nat>, b: nat, i: nat, j: nat)
    requires Optimal(freq, len) && Codable(len, b) && i < |len| && j < |len| && freq[i] > freq[j]
    ensures len[i] <= len[j]
  {
    hide HuffmanCodes.Kraft, Cost;
    if len[i] > len[j] {
      var l1 := len[i := len[j]];
      var l2 := l1[j := len[i]];
      CostSet(freq, len, i, len[j]);
      CostSet(freq, l1, j, len[i]);
      KraftSet(len, b, i, len[j]);
      KraftSet(l1, b, j, len[i]);
      assert Codable(l2, b);
      Gains(freq[i], freq[j], len[i], len[j]);
    }
  }

  lemma Gains(f: nat, g: nat, s: nat, t: nat)
    requires f > g && s > t
    ensures f * t + g * s < f * s + g * t
  {
    var d, e := f - g, s - t;
    assert f * s == f * t + f * e && g * s == g * t + g * e && f * e == g * e + d * e;
    assert d * e >= 1;
  }
}
