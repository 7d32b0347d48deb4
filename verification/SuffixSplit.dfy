/** Splitting one group of suffixes by what follows their first h bytes. */
module SuffixSplit {
  import opened Bytes
  import opened Permutations
  import opened SuffixOrder
  import opened SuffixRanks
  import opened SuffixRuns
  import opened SuffixPartition

  // ---------------------------------------------------------------- handing out a rank

  ghost predicate StampedTo(js: seq<int>, v: seq<int>, u: seq<int>, a: int, c: int, g: int) {
    && |u| == |v| == |js| && InRange(js, |js|)
    && (forall m :: 0 <= m < |js| && a <= m < c ==> u[js[m]] == g)
    && (forall m :: 0 <= m < |js| && !(a <= m < c) ==> u[js[m]] == v[js[m]])
  }

  lemma StampOne(js: seq<int>, v: seq<int>, u: seq<int>, a: int, c: int, g: int)
    requires StampedTo(js, v, u, a, c, g) && IsPerm(js, |js|) && 0 <= a <= c < |js|
    ensures StampedTo(js, v, u[js[c] := g], a, c + 1, g)
  {
  }

  lemma StampAll(js: seq<int>, v: seq<int>, u: seq<int>, a: int, g: int)
    requires StampedTo(js, v, u, a, g + 1, g)
    ensures Stamped(js, v, u, a, g)
  {
  }

  lemma StampNone(js: seq<int>, v: seq<int>, a: int, g: int)
    requires |js| == |v| && InRange(js, |js|)
    ensures StampedTo(js, v, v, a, a, g)
  {
  }

  lemma ProgressPerm(s: seq<Byte>, was: State, now: State, h: nat, a: int, c: int, b: int, e: int)
    requires Progress(s, was, now, h, a, c, b, e)
    ensures IsPerm(now.js, |now.js|) && InRange(now.js, |now.js|)
  {
  }

  method Stamp(ix: array<int>, v: array<int>, k: nat, j: nat,
               ghost s: seq<Byte>, ghost was: State, ghost js: seq<int>, ghost h: nat, ghost a: int, ghost b: int, ghost e: int)
    requires ix != v && j >= 1 && k + j <= b
    requires Progress(s, was, State(js, v[..], ix[..]), h, a, k, b, e)
    requires Same(s, js, k, k + j, 2 * h) && Before(s, js, k, k + j, e + 1)
    modifies ix, v
    ensures Progress(s, was, State(js, v[..], ix[..]), h, a, k + j, b, e)
  {
    hide Progress, Same, Before, StampedTo, Stamped, IsPerm;
    ghost var now := State(js, v[..], ix[..]);
    ghost var g := k + j - 1;
    ProgressReads(s, was, now, h, a, k, b, e);
    ProgressPerm(s, was, now, h, a, k, b, e);
    StampNone(js, v[..], k, g);
    var i := 0;
    while i < j
      invariant 0 <= i <= j && ix[..] == now.ix && v.Length == |js|
      invariant StampedTo(js, now.v, v[..], k, k + i, g)
    {
      StampOne(js, now.v, v[..], k, k + i, g);
      assert ix[k + i] == now.ix[k + i] == js[k + i];
      v[ix[k + i]] := k + j - 1;
      i := i + 1;
    }
    StampAll(js, now.v, v[..], k, g);
    if j == 1 {
      ix[k] := -1;
    }
    ProgressStamp(s, was, now, v[..], ix[..], h, a, k, g, b, e);
  }

  // ---------------------------------------------------------------- short groups

  method SwapEntries(ix: array<int>, i: nat, j: nat)
    requires i < ix.Length && j < ix.Length
    modifies ix
    ensures ix[..] == Swapped(old(ix[..]), i, j)
  {
    var tmp := ix[i];
    ix[i] := ix[j];
    ix[j] := tmp;
  }

  /** j least keys, all x, stand at k; the others seen so far, up to k + i, are greater. */
  ghost predicate Least(js: seq<int>, v: seq<int>, h: nat, k: int, j: int, i: int, x: int) {
    && 0 <= k && 0 <= j <= i && k + i <= |js|
    && (forall m :: k <= m < k + i ==> 0 <= js[m] && js[m] + h < |v|)
    && (forall m :: k <= m < k + j ==> v[js[m] + h] == x)
    && (forall m :: k + j <= m < k + i ==> v[js[m] + h] > x)
  }

  lemma LeastLower(js: seq<int>, v: seq<int>, h: nat, k: int, j: int, i: int, x: int, y: int)
    requires Least(js, v, h, k, j, i, x) && y < x
    ensures Least(js, v, h, k, 0, i, y)
  {
  }

  lemma LeastEqual(js: seq<int>, v: seq<int>, h: nat, k: int, j: int, i: int, x: int)
    requires Least(js, v, h, k, j, i, x) && k + i < |js| && 0 <= js[k + i] && js[k + i] + h < |v| && v[js[k + i] + h] == x
    ensures Least(Swapped(js, k + j, k + i), v, h, k, j + 1, i + 1, x)
  {
  }

  lemma LeastGreater(js: seq<int>, v: seq<int>, h: nat, k: int, j: int, i: int, x: int)
    requires Least(js, v, h, k, j, i, x) && k + i < |js| && 0 <= js[k + i] && js[k + i] + h < |v| && v[js[k + i] + h] > x
    ensures Least(js, v, h, k, j, i + 1, x)
  {
  }

  /** The suffixes with the least key move to the front of [k, b). */
  method SelectLeast(ix: array<int>, v: array<int>, k: nat, b: nat, h: nat,
                     ghost s: seq<Byte>, ghost was: State, ghost js: seq<int>, ghost a: int, ghost e: int)
    returns (j: nat, ghost t: seq<int>, ghost x: int)
    requires ix != v && k < b && Progress(s, was, State(js, v[..], ix[..]), h, a, k, b, e)
    modifies ix
    ensures Progress(s, was, State(t, v[..], ix[..]), h, a, k, b, e)
    ensures 1 <= j <= b - k && Least(t, v[..], h, k, j, b - k, x)
  {
    hide Progress, Least;
    t := js;
    ghost var u := v[..];
    ProgressReads(s, was, State(t, u, ix[..]), h, a, k, b, e);
    j := 1;
    var y := v[ix[k] + h];
    OneLeast(t, u, h, k);
    var i := 1;
    while k + i < b
      invariant 1 <= i && k + i <= b <= ix.Length == v.Length && 1 <= j <= i && v[..] == u
      invariant Progress(s, was, State(t, u, ix[..]), h, a, k, b, e)
      invariant Least(t, u, h, k, j, i, y)
      decreases b - i
    {
      ProgressReads(s, was, State(t, u, ix[..]), h, a, k, b, e);
      assert ix[..][k + i] == t[k + i];
      if v[ix[k + i] + h] < y {
        LeastLower(t, u, h, k, j, i, y, u[t[k + i] + h]);
        y := v[ix[k + i] + h];
        j := 0;
      }
      if v[ix[k + i] + h] == y {
        LeastEqual(t, u, h, k, j, i, y);
        ProgressSwap(s, was, State(t, u, ix[..]), h, a, k, b, e, k + j, k + i);
        t := Swapped(t, k + j, k + i);
        SwapEntries(ix, k + j, k + i);
        j := j + 1;
      } else {
        LeastGreater(t, u, h, k, j, i, y);
      }
      i := i + 1;
    }
    x := y;
  }

  lemma OneLeast(js: seq<int>, v: seq<int>, h: nat, k: nat)
    requires k < |js| && 0 <= js[k] && js[k] + h < |v|
    ensures Least(js, v, h, k, 1, 1, v[js[k] + h])
  {
  }

  lemma LeastBlock(s: seq<Byte>, was: State, now: State, h: nat, a: int, k: int, b: int, e: int, j: int, x: int)
    requires Progress(s, was, now, h, a, k, b, e) && 1 <= j <= b - k && Least(now.js, now.v, h, k, j, b - k, x)
    ensures Same(s, now.js, k, k + j, 2 * h) && Before(s, now.js, k, k + j, e + 1)
  {
    hide Runs, Done;
    KeysSame(s, now.js, now.v, h, k, b, e, k, k + j, x);
    KeysSplit(s, now.js, now.v, h, k, k + j, b, e);
  }

  method SplitShort(ix: array<int>, v: array<int>, start: nat, len: nat, h: nat,
                    ghost s: seq<Byte>, ghost js: seq<int>, ghost e: int)
    returns (ghost t: seq<int>)
    requires ix != v && Progress(s, State(js, v[..], ix[..]), State(js, v[..], ix[..]), h, start, start, start + len, e)
    modifies ix, v
    ensures Progress(s, State(js, old(v[..]), old(ix[..])), State(t, v[..], ix[..]), h, start, start + len, start + len, e)
  {
    hide Progress, Least, Same, Before;
    ghost var was, b := State(js, v[..], ix[..]), start + len;
    t := js;
    var k := start;
    while k < start + len
      invariant start <= k <= start + len
      invariant Progress(s, was, State(t, v[..], ix[..]), h, start, k, b, e)
    {
      var j;
      ghost var x;
      j, t, x := SelectLeast(ix, v, k, start + len, h, s, was, t, start, e);
      LeastBlock(s, was, State(t, v[..], ix[..]), h, start, k, b, e, j, x);
      Stamp(ix, v, k, j, s, was, t, h, start, b, e);
      k := k + j;
    }
  }

  // ---------------------------------------------------------------- long groups

  ghost predicate KeysAre(ks: seq<int>, js: seq<int>, v: seq<int>, h: nat, a: int, b: int) {
    && 0 <= a <= b <= |js| && |ks| == b - a
    && forall m :: a <= m < b ==> 0 <= js[m] && js[m] + h < |v| && ks[m - a] == v[js[m] + h]
  }

  lemma KeysSwap(ks: seq<int>, js: seq<int>, v: seq<int>, h: nat, a: int, b: int, i: int, j: int)
    requires KeysAre(ks, js, v, h, a, b) && a <= i < b && a <= j < b
    ensures KeysAre(SwapKeys(ks, i - a, j - a), Swapped(js, i, j), v, h, a, b)
  {
  }

  lemma KeyAt(ks: seq<int>, js: seq<int>, v: seq<int>, h: nat, a: int, b: int, m: int)
    requires KeysAre(ks, js, v, h, a, b) && a <= m < b
    ensures 0 <= js[m] && js[m] + h < |v| && 0 <= m - a < |ks| && ks[m - a] == v[js[m] + h]
  {
  }

  lemma MakeKeys(s: seq<Byte>, was: State, now: State, h: nat, a: int, c: int, b: int, e: int) returns (ks: seq<int>)
    requires Progress(s, was, now, h, a, c, b, e)
    ensures KeysAre(ks, now.js, now.v, h, c, b)
  {
    ProgressReads(s, was, now, h, a, c, b, e);
    ks := seq(b - c, t requires 0 <= t < b - c => now.v[now.js[c + t] + h]);
  }

  /** How many keys lie below the pivot and how many equal it. */
  method CountSides(ix: array<int>, v: array<int>, start: nat, len: nat, h: nat, x: int, ghost ks: seq<int>)
    returns (below: nat, equal: nat)
    requires start + len <= ix.Length && KeysAre(ks, ix[..], v[..], h, start, start + len)
    ensures below == Tally(ks, x, -1) && equal == Tally(ks, x, 0)
  {
    hide KeysAre, Tally;
    KeysLength(ks, ix[..], v[..], h, start, start + len);
    below, equal := 0, 0;
    var i := start;
    EmptyTally(ks[..0], x);
    while i < start + len
      invariant start <= i <= start + len && |ks| == len
      invariant below == Tally(ks[..i - start], x, -1) && equal == Tally(ks[..i - start], x, 0)
    {
      KeyAt(ks, ix[..], v[..], h, start, start + len, i);
      TallyNext(ks, x, -1, i - start);
      TallyNext(ks, x, 0, i - start);
      if v[ix[i] + h] < x { below := below + 1; }
      if v[ix[i] + h] == x { equal := equal + 1; }
      i := i + 1;
    }
    assert ks[..|ks|] == ks;
  }

  lemma EmptyTally(ks: seq<int>, x: int)
    requires ks == []
    ensures Tally(ks, x, -1) == 0 && Tally(ks, x, 0) == 0
  {
  }

  lemma KeysLength(ks: seq<int>, js: seq<int>, v: seq<int>, h: nat, a: int, b: int)
    requires KeysAre(ks, js, v, h, a, b)
    ensures 0 <= a <= b <= |js| && |ks| == b - a
  {
  }

  /** The part [a, b) and its keys, with the three-way partition so far. */
  ghost predicate Parting(s: seq<Byte>, was: State, now: State, h: nat, a: int, b: int, e: int,
                          ks: seq<int>, x: int, i: nat, jj: nat, j: nat, kk: nat, k: nat) {
    && Progress(s, was, now, h, a, a, b, e) && KeysAre(ks, now.js, now.v, h, a, b)
    && Parted(ks, x, i, jj, j, kk, k)
  }

  lemma PartingReads(s: seq<Byte>, was: State, now: State, h: nat, a: int, b: int, e: int,
                     ks: seq<int>, x: int, i: nat, jj: nat, j: nat, kk: nat, k: nat)
    requires Parting(s, was, now, h, a, b, e, ks, x, i, jj, j, kk, k)
    ensures 0 <= a <= b <= |now.ix| == |now.js| == |now.v| && |ks| == b - a
    ensures i <= jj && jj + j <= kk && kk + k <= |ks|
    ensures forall m :: a <= m < b ==>
      now.ix[m] == now.js[m] && 0 <= now.js[m] && now.js[m] + h < |now.v| && ks[m - a] == now.v[now.js[m] + h]
  {
    hide Parted;
    ProgressReads(s, was, now, h, a, a, b, e);
    hide Progress;
    assert i <= jj && jj + j <= kk && kk + k <= |ks| by { PartedBounds(ks, x, i, jj, j, kk, k); }
  }

  lemma PartedBounds(ks: seq<int>, x: int, i: nat, jj: nat, j: nat, kk: nat, k: nat)
    requires Parted(ks, x, i, jj, j, kk, k)
    ensures i <= jj && jj + j <= kk && kk + k <= |ks|
  {
  }

  lemma PartingSwap(s: seq<Byte>, was: State, now: State, h: nat, a: int, b: int, e: int, ks: seq<int>, p: nat, q: nat)
    requires Progress(s, was, now, h, a, a, b, e) && KeysAre(ks, now.js, now.v, h, a, b) && p < |ks| && q < |ks|
    ensures a + p < |now.js| && a + q < |now.js| && |now.ix| == |now.js| && a >= 0
    ensures Progress(s, was, SwapState(now, a + p, a + q), h, a, a, b, e)
    ensures KeysAre(SwapKeys(ks, p, q), Swapped(now.js, a + p, a + q), now.v, h, a, b)
  {
    hide Progress, KeysAre, Swapped, SwapKeys;
    ProgressReads(s, was, now, h, a, a, b, e);
    KeysLength(ks, now.js, now.v, h, a, b);
    ProgressSwap(s, was, now, h, a, a, b, e, a + p, a + q);
    KeysSwap(ks, now.js, now.v, h, a, b, a + p, a + q);
  }

  lemma PartBelow(s: seq<Byte>, was: State, now: State, h: nat, a: int, b: int, e: int,
                  ks: seq<int>, x: int, i: nat, jj: nat, j: nat, kk: nat, k: nat)
    requires Parting(s, was, now, h, a, b, e, ks, x, i, jj, j, kk, k) && i < jj && ks[i] < x
    ensures Parting(s, was, now, h, a, b, e, ks, x, i + 1, jj, j, kk, k)
  {
    hide Progress, KeysAre, Tally;
  }

  lemma PartEqual(s: seq<Byte>, was: State, now: State, h: nat, a: int, b: int, e: int,
                  ks: seq<int>, x: int, i: nat, jj: nat, j: nat, kk: nat, k: nat)
    requires Parting(s, was, now, h, a, b, e, ks, x, i, jj, j, kk, k) && i < jj && ks[i] == x
    ensures jj + j < kk && a >= 0 && a + kk <= b <= |now.js| && |now.ix| == |now.js|
    ensures Parting(s, was, SwapState(now, a + i, a + jj + j), h, a, b, e,
                    SwapKeys(ks, i, jj + j), x, i, jj, j + 1, kk, k)
  {
    hide Progress, KeysAre, Parted, SwapKeys, Swapped;
    PartingReads(s, was, now, h, a, b, e, ks, x, i, jj, j, kk, k);
    MoveEqual(ks, x, i, jj, j, kk, k);
    PartingSwap(s, was, now, h, a, b, e, ks, i, jj + j);
    assert a + (jj + j) == a + jj + j;
  }

  lemma PartGreater(s: seq<Byte>, was: State, now: State, h: nat, a: int, b: int, e: int,
                    ks: seq<int>, x: int, i: nat, jj: nat, j: nat, kk: nat, k: nat, p: nat)
    requires Parting(s, was, now, h, a, b, e, ks, x, i, jj, j, kk, k) && p < kk && ks[p] > x
    requires if p < jj then p == i else p == jj + j && i == jj
    ensures kk + k < |ks| && a >= 0 && a + |ks| == b <= |now.js| && |now.ix| == |now.js|
    ensures Parting(s, was, SwapState(now, a + p, a + kk + k), h, a, b, e,
                    SwapKeys(ks, p, kk + k), x, i, jj, j, kk, k + 1)
  {
    hide Progress, KeysAre, Parted, SwapKeys, Swapped;
    PartingReads(s, was, now, h, a, b, e, ks, x, i, jj, j, kk, k);
    MoveGreater(ks, x, i, jj, j, kk, k, p);
    PartingSwap(s, was, now, h, a, b, e, ks, p, kk + k);
    assert a + (kk + k) == a + kk + k;
  }

  /** The first loop: the lower part fills up with keys below the pivot. */
  method FillLower(ix: array<int>, v: array<int>, start: nat, h: nat, x: int, jj: nat, kk: nat,
                   ghost s: seq<Byte>, ghost was: State, ghost js: seq<int>, ghost b: int, ghost e: int, ghost ks: seq<int>)
    returns (j: nat, k: nat, ghost t: seq<int>, ghost ls: seq<int>)
    requires ix != v && start <= jj <= kk
    requires Parting(s, was, State(js, v[..], ix[..]), h, start, b, e, ks, x, 0, jj - start, 0, kk - start, 0)
    modifies ix
    ensures Parting(s, was, State(t, v[..], ix[..]), h, start, b, e, ls, x, jj - start, jj - start, j, kk - start, k)
  {
    hide Parting, SwapKeys;
    ghost var u := v[..];
    t, ls := js, ks;
    var i := start;
    j, k := 0, 0;
    while i < jj
      invariant start <= i <= jj && v[..] == u
      invariant Parting(s, was, State(t, u, ix[..]), h, start, b, e, ls, x, i - start, jj - start, j, kk - start, k)
      decreases jj - i + kk - jj - j + b - kk - k
    {
      PartingReads(s, was, State(t, u, ix[..]), h, start, b, e, ls, x, i - start, jj - start, j, kk - start, k);
      assert ix[..][i] == t[i] && ls[i - start] == u[t[i] + h];
      if v[ix[i] + h] < x {
        PartBelow(s, was, State(t, u, ix[..]), h, start, b, e, ls, x, i - start, jj - start, j, kk - start, k);
        i := i + 1;
      } else if v[ix[i] + h] == x {
        PartEqual(s, was, State(t, u, ix[..]), h, start, b, e, ls, x, i - start, jj - start, j, kk - start, k);
        t, ls := Swapped(t, i, jj + j), SwapKeys(ls, i - start, jj - start + j);
        SwapEntries(ix, i, jj + j);
        j := j + 1;
      } else {
        PartGreater(s, was, State(t, u, ix[..]), h, start, b, e, ls, x, i - start, jj - start, j, kk - start, k, i - start);
        t, ls := Swapped(t, i, kk + k), SwapKeys(ls, i - start, kk - start + k);
        SwapEntries(ix, i, kk + k);
        k := k + 1;
      }
    }
  }

  /** The second loop: the middle part fills up with keys equal to the pivot. */
  method FillMiddle(ix: array<int>, v: array<int>, start: nat, h: nat, x: int, jj: nat, kk: nat, j0: nat, k0: nat,
                    ghost s: seq<Byte>, ghost was: State, ghost js: seq<int>, ghost b: int, ghost e: int, ghost ks: seq<int>)
    returns (ghost k: nat, ghost t: seq<int>, ghost ls: seq<int>)
    requires ix != v && start <= jj <= kk
    requires Parting(s, was, State(js, v[..], ix[..]), h, start, b, e, ks, x, jj - start, jj - start, j0, kk - start, k0)
    modifies ix
    ensures Parting(s, was, State(t, v[..], ix[..]), h, start, b, e, ls, x, jj - start, jj - start, kk - jj, kk - start, k)
  {
    hide Parting, SwapKeys;
    ghost var u := v[..];
    t, ls := js, ks;
    var j, l := j0, k0;
    PartingReads(s, was, State(t, u, ix[..]), h, start, b, e, ls, x, jj - start, jj - start, j, kk - start, l);
    while jj + j < kk
      invariant 0 <= j && 0 <= l && jj + j <= kk && v[..] == u
      invariant Parting(s, was, State(t, u, ix[..]), h, start, b, e, ls, x, jj - start, jj - start, j, kk - start, l)
      decreases kk - jj - j + b - kk - l
    {
      PartingReads(s, was, State(t, u, ix[..]), h, start, b, e, ls, x, jj - start, jj - start, j, kk - start, l);
      assert ix[..][jj + j] == t[jj + j] && ls[jj + j - start] == u[t[jj + j] + h];
      if v[ix[jj + j] + h] == x {
        PartMiddle(s, was, State(t, u, ix[..]), h, start, b, e, ls, x, jj - start, j, kk - start, l);
        j := j + 1;
      } else {
        NotBelow(s, was, State(t, u, ix[..]), h, start, b, e, ls, x, jj - start, j, kk - start, l);
        PartGreater(s, was, State(t, u, ix[..]), h, start, b, e, ls, x, jj - start, jj - start, j, kk - start, l, jj - start + j);
        t, ls := Swapped(t, jj + j, kk + l), SwapKeys(ls, jj - start + j, kk - start + l);
        SwapEntries(ix, jj + j, kk + l);
        l := l + 1;
      }
    }
    k := l;
  }

  lemma PartMiddle(s: seq<Byte>, was: State, now: State, h: nat, a: int, b: int, e: int,
                   ks: seq<int>, x: int, jj: nat, j: nat, kk: nat, k: nat)
    requires Parting(s, was, now, h, a, b, e, ks, x, jj, jj, j, kk, k) && jj + j < kk && ks[jj + j] == x
    ensures Parting(s, was, now, h, a, b, e, ks, x, jj, jj, j + 1, kk, k)
  {
    hide Progress, KeysAre, Tally;
  }

  lemma NotBelow(s: seq<Byte>, was: State, now: State, h: nat, a: int, b: int, e: int,
                 ks: seq<int>, x: int, jj: nat, j: nat, kk: nat, k: nat)
    requires Parting(s, was, now, h, a, b, e, ks, x, jj, jj, j, kk, k) && jj + j < kk
    ensures ks[jj + j] >= x
  {
    hide Progress, KeysAre;
    NoneBelow(ks, x, jj, j, kk, k, jj + j);
  }

  /** A finished partition: below the pivot, equal to it, above it. */
  ghost predicate ThreeParts(js: seq<int>, v: seq<int>, h: nat, a: int, jj: int, kk: int, b: int, x: int) {
    && 0 <= a <= jj <= kk <= b <= |js|
    && (forall m :: a <= m < b ==> 0 <= js[m] && js[m] + h < |v|)
    && (forall m :: a <= m < jj ==> v[js[m] + h] < x)
    && (forall m :: jj <= m < kk ==> v[js[m] + h] == x)
    && (forall m :: kk <= m < b ==> v[js[m] + h] > x)
  }

  lemma PartingEnds(s: seq<Byte>, was: State, now: State, h: nat, a: int, b: int, e: int,
                    ks: seq<int>, x: int, jj: nat, kk: nat, k: nat)
    requires jj <= kk && Parting(s, was, now, h, a, b, e, ks, x, jj, jj, kk - jj, kk, k)
    ensures Progress(s, was, now, h, a, a, b, e) && ThreeParts(now.js, now.v, h, a, a + jj, a + kk, b, x)
  {
    PartingReads(s, was, now, h, a, b, e, ks, x, jj, jj, kk - jj, kk, k);
    hide Progress, KeysAre, Tally;
    forall m | a + kk <= m < b ensures now.v[now.js[m] + h] > x {
      RestAbove(ks, x, jj, kk, k, m - a);
    }
  }

  method Partition(ix: array<int>, v: array<int>, start: nat, len: nat, h: nat,
                   ghost s: seq<Byte>, ghost was: State, ghost js: seq<int>, ghost e: int)
    returns (jj: nat, kk: nat, ghost t: seq<int>, ghost x: int)
    requires ix != v && len >= 1 && Progress(s, was, State(js, v[..], ix[..]), h, start, start, start + len, e)
    modifies ix
    ensures Progress(s, was, State(t, v[..], ix[..]), h, start, start, start + len, e)
    ensures start <= jj < kk <= start + len && ThreeParts(t, v[..], h, start, jj, kk, start + len, x)
  {
    hide Parting, Parted, Progress, KeysAre, ThreeParts, Tally;
    ghost var b := start + len;
    ghost var now := State(js, v[..], ix[..]);
    ProgressReads(s, was, now, h, start, start, b, e);
    ghost var ks := MakeKeys(s, was, now, h, start, start, b, e);
    var mid := start + len / 2;
    KeyAt(ks, js, v[..], h, start, b, mid);
    assert ix[..][mid] == js[mid];
    var y := v[ix[mid] + h];
    x := y;
    IndexKeys(ks, now, h, start, b);
    var below, equal := CountSides(ix, v, start, len, h, y, ks);
    jj := below + start;
    kk := equal + jj;
    KeysLength(ks, js, v[..], h, start, b);
    StartParting(ks, y, mid - start, below, equal);
    assert Parting(s, was, now, h, start, b, e, ks, y, 0, jj - start, 0, kk - start, 0) by {
      ShowParting(s, was, now, h, start, b, e, ks, y, 0, jj - start, 0, kk - start, 0);
    }
    var j, k;
    ghost var ls;
    j, k, t, ls := FillLower(ix, v, start, h, y, jj, kk, s, was, js, b, e, ks);
    ghost var k2, ls2;
    k2, t, ls2 := FillMiddle(ix, v, start, h, y, jj, kk, j, k, s, was, t, b, e, ls);
    PartingReads(s, was, State(t, v[..], ix[..]), h, start, b, e, ls2, y, jj - start, jj - start, kk - jj, kk - start, k2);
    PartingEnds(s, was, State(t, v[..], ix[..]), h, start, b, e, ls2, y, jj - start, kk - start, k2);
  }

  lemma ShowParting(s: seq<Byte>, was: State, now: State, h: nat, a: int, b: int, e: int,
                    ks: seq<int>, x: int, i: nat, jj: nat, j: nat, kk: nat, k: nat)
    requires Progress(s, was, now, h, a, a, b, e) && KeysAre(ks, now.js, now.v, h, a, b) && Parted(ks, x, i, jj, j, kk, k)
    ensures Parting(s, was, now, h, a, b, e, ks, x, i, jj, j, kk, k)
  {
    hide Progress, KeysAre, Parted;
  }

  lemma IndexKeys(ks: seq<int>, now: State, h: nat, a: int, b: int)
    requires KeysAre(ks, now.js, now.v, h, a, b) && |now.ix| == |now.js|
    requires forall m :: a <= m < b ==> now.ix[m] == now.js[m]
    ensures KeysAre(ks, now.ix, now.v, h, a, b)
  {
  }

  /** The tallies are sizes of parts, and the pivot is a key. */
  lemma StartParting(ks: seq<int>, x: int, p: nat, below: nat, equal: nat)
    requires p < |ks| && ks[p] == x && below == Tally(ks, x, -1) && equal == Tally(ks, x, 0)
    ensures equal >= 1 && below + equal <= |ks| && Parted(ks, x, 0, below, 0, below + equal, 0)
  {
    TallyTotal(ks, x);
    TallyStretch(ks, x, 0, p, p + 1);
  }

  lemma LowerPart(s: seq<Byte>, was: State, now: State, h: nat, a: int, jj: int, kk: int, b: int, e: int, x: int)
    requires Progress(s, was, now, h, a, a, b, e) && ThreeParts(now.js, now.v, h, a, jj, kk, b, x)
    ensures Progress(s, now, now, h, a, a, jj, e)
    ensures Same(s, now.js, jj, kk, 2 * h) && Before(s, now.js, jj, kk, e + 1)
  {
    hide Runs, Done;
    KeysSame(s, now.js, now.v, h, a, b, e, jj, kk, x);
    KeysSplit(s, now.js, now.v, h, a, jj, b, e);
    KeysSplit(s, now.js, now.v, h, a, kk, b, e);
    SplittingFirst(s, now.js, now.v, h, a, jj, b, e);
    ProgressStart(s, now, h, a, jj, e);
  }

  lemma PartKept(s: seq<Byte>, js: seq<int>, v: seq<int>, t: seq<int>, u: seq<int>, a: int, c: int, d: int, e: int, k: nat)
    requires Same(s, js, c, d, k) && Before(s, js, c, d, e) && Outside(js, v, t, u, a, c)
    ensures Same(s, t, c, d, k) && Before(s, t, c, d, e)
  {
    hide Agree;
  }

  lemma UpperPart(s: seq<Byte>, was: State, now: State, h: nat, a: int, c: int, b: int, e: int)
    requires Progress(s, was, now, h, a, c, b, e)
    ensures Progress(s, now, now, h, c, c, b, e)
  {
    hide Runs, Done;
    ProgressStart(s, now, h, c, b, e);
  }

  /** Splits the part [start, start + len) of a group so that what is left together agrees on 2h bytes. */
  method Split(ix: array<int>, v: array<int>, start: nat, len: nat, h: nat,
               ghost s: seq<Byte>, ghost js: seq<int>, ghost e: int)
    returns (ghost t: seq<int>)
    requires ix != v && len >= 1
    requires Progress(s, State(js, v[..], ix[..]), State(js, v[..], ix[..]), h, start, start, start + len, e)
    modifies ix, v
    ensures Progress(s, State(js, old(v[..]), old(ix[..])), State(t, v[..], ix[..]), h, start, start + len, start + len, e)
    decreases len
  {
    hide Progress, ThreeParts, Same, Before, Outside;
    if len < 16 {
      t := SplitShort(ix, v, start, len, h, s, js, e);
      return;
    }
    ghost var was, b := State(js, v[..], ix[..]), start + len;
    var jj, kk;
    ghost var x;
    jj, kk, t, x := Partition(ix, v, start, len, h, s, was, js, e);
    LowerPart(s, was, State(t, v[..], ix[..]), h, start, jj, kk, b, e, x);
    if jj > start {
      ghost var now := State(t, v[..], ix[..]);
      t := Split(ix, v, start, jj - start, h, s, t, e);
      ProgressDeeper(s, was, now, State(t, v[..], ix[..]), h, start, start, jj, b, e);
      ProgressOutside(s, now, State(t, v[..], ix[..]), h, start, jj, jj, e);
      PartKept(s, now.js, now.v, t, v[..], start, jj, kk, e + 1, 2 * h);
    }
    assert jj + (kk - jj) == kk;
    Stamp(ix, v, jj, kk - jj, s, was, t, h, start, b, e);
    if start + len > kk {
      ghost var now := State(t, v[..], ix[..]);
      UpperPart(s, was, now, h, start, kk, b, e);
      t := Split(ix, v, kk, start + len - kk, h, s, t, e);
      ProgressDeeper(s, was, now, State(t, v[..], ix[..]), h, start, kk, b, b, e);
    }
  }

  lemma ProgressOutside(s: seq<Byte>, was: State, now: State, h: nat, a: int, c: int, b: int, e: int)
    requires Progress(s, was, now, h, a, c, b, e)
    ensures Outside(was.js, was.v, now.js, now.v, a, b)
  {
  }
}
