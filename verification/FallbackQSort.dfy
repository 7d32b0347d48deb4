/**
 * The two in-place sorts under the bzip2 fallback sorter: a two-pass insertion sort and a three-way
 * quicksort with an explicit stack. Both order fmap[lo..hi] by the class of each entry.
 */
module FallbackQSort {
  import opened Permutations
  import opened Bits

  const SMALL_THRESH := 10
  const STACK_SIZE := 100

  /** The class of the entry at place `a`. */
  function Key(s: seq<nat>, e: seq<nat>, a: int): nat
    requires 0 <= a < |s| && s[a] < |e|
  {
    e[s[a]]
  }

  ghost predicate InBounds(s: seq<nat>, e: seq<nat>) {
    forall a :: 0 <= a < |s| ==> s[a] < |e|
  }

  ghost predicate SortedRange(s: seq<nat>, e: seq<nat>, lo: int, hi: int)
    requires InBounds(s, e)
  {
    forall a, b :: 0 <= a < |s| && 0 <= b < |s| && lo <= a < b <= hi ==> Key(s, e, a) <= Key(s, e, b)
  }

  /** `t` rearranges `s` inside [lo, hi] only. */
  ghost predicate Rearranged(s: seq<nat>, t: seq<nat>, lo: int, hi: int) {
    && |s| == |t| && multiset(s) == multiset(t)
    && forall a :: 0 <= a < |s| && !(lo <= a <= hi) ==> t[a] == s[a]
  }

  lemma RearrangedSelf(s: seq<nat>, lo: int, hi: int)
    ensures Rearranged(s, s, lo, hi)
  {
  }

  lemma RearrangedBounds(s: seq<nat>, t: seq<nat>, e: seq<nat>, lo: int, hi: int)
    requires Rearranged(s, t, lo, hi) && InBounds(s, e)
    ensures InBounds(t, e)
  {
    forall a | 0 <= a < |t|
      ensures t[a] < |e|
    {
      assert t[a] in multiset(t);
      assert t[a] in multiset(s);
    }
  }

  lemma MultisetCut(s: seq<nat>, lo: nat, hi: nat)
    requires lo <= hi <= |s|
    ensures multiset(s) == multiset(s[..lo]) + multiset(s[lo..hi]) + multiset(s[hi..])
  {
    assert s == s[..lo] + s[lo..hi] + s[hi..];
  }

  lemma InsideSame(s: seq<nat>, t: seq<nat>, lo: nat, hi: nat)
    requires lo <= hi <= |s| && Rearranged(s, t, lo, hi - 1)
    ensures multiset(s[lo..hi]) == multiset(t[lo..hi])
  {
    MultisetCut(s, lo, hi);
    MultisetCut(t, lo, hi);
    assert s[..lo] == t[..lo] && s[hi..] == t[hi..];
    assert multiset(s[lo..hi]) == multiset(s) - multiset(s[..lo]) - multiset(s[hi..]);
    assert multiset(t[lo..hi]) == multiset(t) - multiset(t[..lo]) - multiset(t[hi..]);
  }

  /** Every entry of the rearranged range was an entry of the range before. */
  lemma RearrangedFrom(s: seq<nat>, t: seq<nat>, lo: nat, hi: int, a: int) returns (k: int)
    requires Rearranged(s, t, lo, hi) && lo <= a <= hi < |s|
    ensures lo <= k <= hi && s[k] == t[a]
  {
    InsideSame(s, t, lo, hi + 1);
    var u, v := s[lo..hi + 1], t[lo..hi + 1];
    assert v[a - lo] == t[a] && t[a] in multiset(v);
    assert t[a] in u;
    var i :| 0 <= i < |u| && u[i] == t[a];
    k := lo + i;
  }

  lemma SwapRearranged(s: seq<nat>, t: seq<nat>, lo: int, hi: int, p: nat, q: nat)
    requires Rearranged(s, t, lo, hi) && lo <= p <= hi && lo <= q <= hi && p < |t| && q < |t|
    ensures Rearranged(s, t[p := t[q]][q := t[p]], lo, hi)
  {
    SwapSame(t, p, q);
  }

  // ---------------------------------------------------------------- insertion sort

  /** Smaller keys moved one place left, the inserted entry behind them, the rest untouched. */
  lemma InsertedSorted(s: seq<nat>, t: seq<nat>, e: seq<nat>, i: nat, j: nat, hi: int)
    requires InBounds(s, e) && InBounds(t, e) && |s| == |t| && i < j <= hi + 1 <= |s|
    requires SortedRange(s, e, i + 1, hi)
    requires t[j - 1] == s[i]
    requires forall a :: i <= a < j - 1 ==> t[a] == s[a + 1] && e[t[a]] < e[s[i]]
    requires forall a :: j <= a <= hi ==> t[a] == s[a]
    requires j <= hi ==> e[s[i]] <= e[s[j]]
    ensures SortedRange(t, e, i, hi)
  {
    forall a, b | 0 <= a < |t| && 0 <= b < |t| && i <= a < b <= hi
      ensures Key(t, e, a) <= Key(t, e, b)
    {
      var a0 := if a < j - 1 then a + 1 else if a == j - 1 then i else a;
      var b0 := if b < j - 1 then b + 1 else if b == j - 1 then i else b;
      assert t[a] == s[a0] && t[b] == s[b0];
      if a < j - 1 && b != j - 1 {
        assert Key(s, e, a0) <= Key(s, e, b0);
      } else if a == j - 1 && b > j {
        assert Key(s, e, j) <= Key(s, e, b0);
      } else if a >= j {
        assert Key(s, e, a0) <= Key(s, e, b0);
      }
    }
  }

  /** The array while the hole stands at j - gap: untouched from j on and, at gap 1, shifted before it. */
  ghost predicate Pushed(s: seq<nat>, f: seq<nat>, e: seq<nat>, i: nat, j: nat, hi: int, gap: nat)
    requires InBounds(s, e)
  {
    && |f| == |s| && i + gap <= j <= hi + gap && i <= hi < |s|
    && (forall a :: 0 <= a < |s| && j <= a <= hi ==> f[a] == s[a])
    && (gap == 1 ==> forall a :: 0 <= a < |s| - 1 && i <= a < j - 1 ==> f[a] == s[a + 1] && e[s[a + 1]] < e[s[i]])
  }

  lemma PushedStep(s: seq<nat>, f: seq<nat>, e: seq<nat>, i: nat, j: nat, hi: int, gap: nat)
    requires InBounds(s, e) && Pushed(s, f, e, i, j, hi, gap) && gap >= 1 && j <= hi
    ensures f[j] == s[j]
    ensures e[s[j]] < e[s[i]] ==> Pushed(s, f[j - gap := f[j]], e, i, j + gap, hi, gap)
  {
  }

  lemma PushedEnd(s: seq<nat>, f: seq<nat>, e: seq<nat>, i: nat, j: nat, hi: int)
    requires InBounds(s, e) && Pushed(s, f, e, i, j, hi, 1)
    requires InBounds(f[j - 1 := s[i]], e) && SortedRange(s, e, i + 1, hi)
    requires j <= hi ==> e[s[i]] <= e[s[j]]
    ensures SortedRange(f[j - 1 := s[i]], e, i, hi)
  {
    InsertedSorted(s, f[j - 1 := s[i]], e, i, j, hi);
  }

  /** The array with the hole at j - gap, and the rearrangement it stands for once the hole is filled. */
  ghost predicate Hole(s: seq<nat>, f: seq<nat>, e: seq<nat>, i: nat, j: nat, hi: int, gap: nat)
  {
    && InBounds(s, e) && InBounds(f, e) && gap >= 1 && Pushed(s, f, e, i, j, hi, gap)
    && Rearranged(s, f[j - gap := s[i]], i, hi)
  }

  lemma HoleStep(s: seq<nat>, f: seq<nat>, e: seq<nat>, i: nat, j: nat, hi: int, gap: nat)
    requires Hole(s, f, e, i, j, hi, gap) && j <= hi
    ensures j < |f| == |s| && f[j] == s[j] && s[j] < |e| && s[i] < |e|
    ensures e[s[j]] < e[s[i]] ==> Hole(s, f[j - gap := f[j]], e, i, j + gap, hi, gap)
  {
    PushedStep(s, f, e, i, j, hi, gap);
    if e[s[j]] < e[s[i]] {
      hide Rearranged, Pushed;
      SwapRearranged(s, f[j - gap := s[i]], i, hi, j - gap, j);
      MovedHole(f, j - gap, j, s[i]);
    }
  }

  lemma MovedHole(f: seq<nat>, p: nat, q: nat, x: nat)
    requires p < q < |f|
    ensures var t := f[p := x]; t[p := t[q]][q := t[p]] == f[p := f[q]][q := x]
  {
  }

  lemma HoleFilled(s: seq<nat>, f: seq<nat>, e: seq<nat>, i: nat, j: nat, hi: int, gap: nat)
    requires Hole(s, f, e, i, j, hi, gap)
    requires j <= hi ==> j < |f| && f[j] < |e| && s[i] < |e| && e[s[i]] <= e[f[j]]
    ensures Rearranged(s, f[j - gap := s[i]], i, hi) && InBounds(f[j - gap := s[i]], e)
    ensures gap == 1 && SortedRange(s, e, i + 1, hi) ==> SortedRange(f[j - gap := s[i]], e, i, hi)
  {
    RearrangedBounds(s, f[j - gap := s[i]], e, i, hi);
    if gap == 1 && SortedRange(s, e, i + 1, hi) {
      PushedEnd(s, f, e, i, j, hi);
    }
  }

  lemma HoleStart(s: seq<nat>, e: seq<nat>, i: nat, hi: int, gap: nat)
    requires InBounds(s, e) && i <= hi < |s| && gap >= 1
    ensures Hole(s, s, e, i, i + gap, hi, gap)
  {
    assert s[i := s[i]] == s;
  }

  /** Inserts the entry at `i` among the places i + gap, i + 2 gap, ... to its right. */
  method Insert(fmap: array<nat>, eclass: array<nat>, i: int, hi: int, gap: nat)
    requires fmap != eclass && 0 <= i <= hi < fmap.Length && gap >= 1
    requires InBounds(fmap[..], eclass[..])
    modifies fmap
    ensures Rearranged(old(fmap[..]), fmap[..], i, hi) && InBounds(fmap[..], eclass[..])
    ensures gap == 1 && SortedRange(old(fmap[..]), eclass[..], i + 1, hi) ==> SortedRange(fmap[..], eclass[..], i, hi)
  {
    hide Rearranged, SortedRange, Hole;
    var tmp := fmap[i];
    var ecTmp := eclass[tmp];
    var j := i + gap;
    ghost var s, e := fmap[..], eclass[..];
    HoleStart(s, e, i, hi, gap);
    while true
      invariant i + gap <= j <= hi + gap && Hole(s, fmap[..], e, i, j, hi, gap)
      decreases hi - j
    {
      if j > hi { break; }
      HoleStep(s, fmap[..], e, i, j, hi, gap);
      if ecTmp <= eclass[fmap[j]] { break; }
      fmap[j - gap] := fmap[j];
      j := j + gap;
    }
    HoleFilled(s, fmap[..], e, i, j, hi, gap);
    fmap[j - gap] := tmp;
  }

  method FallbackSimpleSort(fmap: array<nat>, eclass: array<nat>, lo: int, hi: int)
    requires fmap != eclass && 0 <= lo <= hi + 1 <= fmap.Length
    requires InBounds(fmap[..], eclass[..])
    modifies fmap
    ensures Rearranged(old(fmap[..]), fmap[..], lo, hi) && InBounds(fmap[..], eclass[..])
    ensures SortedRange(fmap[..], eclass[..], lo, hi)
  {
    if lo == hi { return; }
    if hi - lo > 3 {
      for i := hi - 3 downto lo
        invariant Rearranged(old(fmap[..]), fmap[..], lo, hi) && InBounds(fmap[..], eclass[..])
      {
        Insert(fmap, eclass, i, hi, 4);
      }
    }
    if hi > lo {
      for i := hi downto lo
        invariant Rearranged(old(fmap[..]), fmap[..], lo, hi) && InBounds(fmap[..], eclass[..])
        invariant SortedRange(fmap[..], eclass[..], i, hi)
      {
        Insert(fmap, eclass, i, hi, 1);
      }
    }
  }

  // ---------------------------------------------------------------- three-way partition

  /** Every key in [a, b) lies on side `side` of `med`: below (-1), at (0) or above (1). */
  ghost predicate Zone(s: seq<nat>, e: seq<nat>, med: nat, a: int, b: int, side: int)
    requires InBounds(s, e)
  {
    forall x :: 0 <= x < |s| && a <= x < b ==> Side(e[s[x]], med) == side
  }

  function Side(key: nat, med: nat): int {
    if key < med then -1 else if key > med then 1 else 0
  }

  /** Mid-partition: equal keys at both ends, small ones after the left, large ones before the right. */
  ghost predicate Part(s0: seq<nat>, s: seq<nat>, e: seq<nat>, med: nat,
                       lo: int, ltLo: int, unLo: int, unHi: int, gtHi: int, hi: int)
  {
    && InBounds(s0, e) && InBounds(s, e) && Rearranged(s0, s, lo, hi)
    && 0 <= lo <= ltLo <= unLo <= unHi + 1 && unHi <= gtHi <= hi < |s|
    && Zone(s, e, med, lo, ltLo, 0) && Zone(s, e, med, ltLo, unLo, -1)
    && Zone(s, e, med, unHi + 1, gtHi + 1, 1) && Zone(s, e, med, gtHi + 1, hi + 1, 0)
  }

  lemma PartStart(s: seq<nat>, e: seq<nat>, med: nat, lo: int, hi: int)
    requires InBounds(s, e) && 0 <= lo <= hi < |s|
    ensures Part(s, s, e, med, lo, lo, lo, hi, hi, hi)
  {
  }

  lemma PartLo(s0: seq<nat>, s: seq<nat>, e: seq<nat>, med: nat,
               lo: int, ltLo: int, unLo: int, unHi: int, gtHi: int, hi: int)
    requires Part(s0, s, e, med, lo, ltLo, unLo, unHi, gtHi, hi) && unLo <= unHi
    ensures 0 <= unLo < |s| && s[unLo] < |e| && 0 <= ltLo < |s|
    ensures Key(s, e, unLo) == med ==>
              Part(s0, s[unLo := s[ltLo]][ltLo := s[unLo]], e, med, lo, ltLo + 1, unLo + 1, unHi, gtHi, hi)
    ensures Key(s, e, unLo) < med ==> Part(s0, s, e, med, lo, ltLo, unLo + 1, unHi, gtHi, hi)
  {
    hide Rearranged;
    if Key(s, e, unLo) == med {
      SwapRearranged(s0, s, lo, hi, unLo, ltLo);
      RearrangedBounds(s0, s[unLo := s[ltLo]][ltLo := s[unLo]], e, lo, hi);
    }
  }

  lemma PartHi(s0: seq<nat>, s: seq<nat>, e: seq<nat>, med: nat,
               lo: int, ltLo: int, unLo: int, unHi: int, gtHi: int, hi: int)
    requires Part(s0, s, e, med, lo, ltLo, unLo, unHi, gtHi, hi) && unLo <= unHi
    ensures 0 <= unHi < |s| && s[unHi] < |e| && 0 <= gtHi < |s|
    ensures Key(s, e, unHi) == med ==>
              Part(s0, s[unHi := s[gtHi]][gtHi := s[unHi]], e, med, lo, ltLo, unLo, unHi - 1, gtHi - 1, hi)
    ensures Key(s, e, unHi) > med ==> Part(s0, s, e, med, lo, ltLo, unLo, unHi - 1, gtHi, hi)
  {
    hide Rearranged;
    if Key(s, e, unHi) == med {
      SwapRearranged(s0, s, lo, hi, unHi, gtHi);
      RearrangedBounds(s0, s[unHi := s[gtHi]][gtHi := s[unHi]], e, lo, hi);
    }
  }

  lemma PartSwap(s0: seq<nat>, s: seq<nat>, e: seq<nat>, med: nat,
                 lo: int, ltLo: int, unLo: int, unHi: int, gtHi: int, hi: int)
    requires Part(s0, s, e, med, lo, ltLo, unLo, unHi, gtHi, hi) && unLo < unHi
    requires Key(s, e, unLo) > med && Key(s, e, unHi) < med
    ensures Part(s0, s[unLo := s[unHi]][unHi := s[unLo]], e, med, lo, ltLo, unLo + 1, unHi - 1, gtHi, hi)
  {
    hide Rearranged;
    SwapRearranged(s0, s, lo, hi, unLo, unHi);
    RearrangedBounds(s0, s[unLo := s[unHi]][unHi := s[unLo]], e, lo, hi);
  }

  method Swap(fmap: array<nat>, p: int, q: int)
    requires 0 <= p < fmap.Length && 0 <= q < fmap.Length
    modifies fmap
    ensures fmap[..] == old(fmap[..])[p := old(fmap[..])[q]][q := old(fmap[..])[p]]
  {
    fmap[p], fmap[q] := fmap[q], fmap[p];
  }

  /** The scan from the left: stops at a key above `med`, gathering equal keys at the far left. */
  method ScanLo(fmap: array<nat>, eclass: array<nat>, lo: int, hi: int, med: nat,
                lt: int, un: int, unHi: int, gtHi: int, ghost s0: seq<nat>)
    returns (ltLo: int, unLo: int)
    requires fmap != eclass && Part(s0, fmap[..], eclass[..], med, lo, lt, un, unHi, gtHi, hi)
    modifies fmap
    ensures un <= unLo && Part(s0, fmap[..], eclass[..], med, lo, ltLo, unLo, unHi, gtHi, hi)
    ensures unLo <= unHi ==> eclass[fmap[unLo]] > med
  {
    ltLo, unLo := lt, un;
    hide Rearranged, Zone;
    while true
      invariant Part(s0, fmap[..], eclass[..], med, lo, ltLo, unLo, unHi, gtHi, hi) && un <= unLo
      decreases unHi - unLo
    {
      if unLo > unHi { break; }
      PartLo(s0, fmap[..], eclass[..], med, lo, ltLo, unLo, unHi, gtHi, hi);
      hide Part;
      var n := eclass[fmap[unLo]] - med;
      if n == 0 {
        Swap(fmap, unLo, ltLo);
        ltLo, unLo := ltLo + 1, unLo + 1;
        continue;
      }
      if n > 0 { break; }
      unLo := unLo + 1;
    }
  }

  /** The scan from the right: stops at a key below `med`, gathering equal keys at the far right. */
  method ScanHi(fmap: array<nat>, eclass: array<nat>, lo: int, hi: int, med: nat,
                ltLo: int, unLo: int, un: int, gt: int, ghost s0: seq<nat>)
    returns (unHi: int, gtHi: int)
    requires fmap != eclass && Part(s0, fmap[..], eclass[..], med, lo, ltLo, unLo, un, gt, hi)
    requires unLo <= un ==> eclass[fmap[unLo]] > med
    modifies fmap
    ensures unHi <= un && Part(s0, fmap[..], eclass[..], med, lo, ltLo, unLo, unHi, gtHi, hi)
    ensures unLo <= unHi ==> eclass[fmap[unLo]] > med && eclass[fmap[unHi]] < med
  {
    unHi, gtHi := un, gt;
    hide Rearranged, Zone;
    while true
      invariant Part(s0, fmap[..], eclass[..], med, lo, ltLo, unLo, unHi, gtHi, hi) && unHi <= un
      invariant unLo <= unHi ==> eclass[fmap[unLo]] > med
      decreases unHi - unLo
    {
      if unLo > unHi { break; }
      PartHi(s0, fmap[..], eclass[..], med, lo, ltLo, unLo, unHi, gtHi, hi);
      var n := eclass[fmap[unHi]] - med;
      if n == 0 {
        Swap(fmap, unHi, gtHi);
        gtHi, unHi := gtHi - 1, unHi - 1;
        continue;
      }
      if n < 0 { break; }
      unHi := unHi - 1;
    }
  }

  method Partition(fmap: array<nat>, eclass: array<nat>, lo: int, hi: int, med: nat)
    returns (ltLo: int, unLo: int, unHi: int, gtHi: int)
    requires fmap != eclass && 0 <= lo <= hi < fmap.Length && InBounds(fmap[..], eclass[..])
    modifies fmap
    ensures unHi == unLo - 1
    ensures Part(old(fmap[..]), fmap[..], eclass[..], med, lo, ltLo, unLo, unHi, gtHi, hi)
  {
    ltLo, unLo, unHi, gtHi := lo, lo, hi, hi;
    ghost var s0 := fmap[..];
    PartStart(s0, eclass[..], med, lo, hi);
    hide Rearranged, Zone;
    while true
      invariant Part(s0, fmap[..], eclass[..], med, lo, ltLo, unLo, unHi, gtHi, hi)
      decreases unHi - unLo
    {
      ltLo, unLo := ScanLo(fmap, eclass, lo, hi, med, ltLo, unLo, unHi, gtHi, s0);
      unHi, gtHi := ScanHi(fmap, eclass, lo, hi, med, ltLo, unLo, unHi, gtHi, s0);
      if unLo > unHi { break; }
      PartSwap(s0, fmap[..], eclass[..], med, lo, ltLo, unLo, unHi, gtHi, hi);
      Swap(fmap, unLo, unHi);
      unLo, unHi := unLo + 1, unHi - 1;
    }
  }

  // ---------------------------------------------------------------- block swaps

  /** The first `k` places of the two blocks are exchanged. */
  ghost predicate BlocksSwapped(s: seq<nat>, t: seq<nat>, p1: int, p2: int, k: int) {
    && |s| == |t| && 0 <= p1 && 0 <= k && (k > 0 ==> p1 + k <= p2 && p2 + k <= |s|)
    && forall a :: 0 <= a < |t| ==> t[a] == s[Partner(p1, p2, k, a)]
  }

  /** Where the block exchange takes the entry of place `a` from. */
  function Partner(p1: int, p2: int, k: int, a: int): int {
    if p1 <= a < p1 + k then a - p1 + p2 else if p2 <= a < p2 + k then a - p2 + p1 else a
  }

  lemma BlocksNone(s: seq<nat>, p1: int, p2: int)
    requires 0 <= p1
    ensures BlocksSwapped(s, s, p1, p2, 0)
  {
  }

  lemma BlocksStep(s: seq<nat>, t: seq<nat>, p1: int, p2: int, k: int, n: int)
    requires BlocksSwapped(s, t, p1, p2, k) && k < n && p1 + n <= p2 && p2 + n <= |s|
    ensures BlocksSwapped(s, t[p1 + k := t[p2 + k]][p2 + k := t[p1 + k]], p1, p2, k + 1)
  {
    var u := t[p1 + k := t[p2 + k]][p2 + k := t[p1 + k]];
    forall a | 0 <= a < |u|
      ensures u[a] == s[Partner(p1, p2, k + 1, a)]
    {
      assert t[a] == s[Partner(p1, p2, k, a)];
      assert t[p1 + k] == s[p1 + k] && t[p2 + k] == s[p2 + k];
    }
  }

  ghost predicate Swapping(s: seq<nat>, t: seq<nat>, p1: int, p2: int, k: int, lo: int, hi: int) {
    BlocksSwapped(s, t, p1, p2, k) && Rearranged(s, t, lo, hi)
  }

  lemma SwappingStep(s: seq<nat>, t: seq<nat>, p1: int, p2: int, k: int, n: int, lo: int, hi: int)
    requires Swapping(s, t, p1, p2, k, lo, hi) && k < n && p1 + n <= p2 && lo <= p1 && p2 + n <= hi + 1 <= |s|
    ensures Swapping(s, t[p1 + k := t[p2 + k]][p2 + k := t[p1 + k]], p1, p2, k + 1, lo, hi)
  {
    BlocksStep(s, t, p1, p2, k, n);
    SwapRearranged(s, t, lo, hi, p1 + k, p2 + k);
  }

  method FvSwap(fmap: array<nat>, p1: int, p2: int, n: int, ghost lo: int, ghost hi: int)
    requires 0 <= n && 0 <= lo <= p1 && p2 + n <= hi + 1 <= fmap.Length && (n > 0 ==> p1 + n <= p2)
    modifies fmap
    ensures BlocksSwapped(old(fmap[..]), fmap[..], p1, p2, n)
    ensures Rearranged(old(fmap[..]), fmap[..], lo, hi)
  {
    ghost var s := fmap[..];
    BlocksNone(s, p1, p2);
    RearrangedSelf(s, lo, hi);
    assert Swapping(s, fmap[..], p1, p2, 0, lo, hi);
    for k := 0 to n
      invariant Swapping(s, fmap[..], p1, p2, k, lo, hi)
    {
      hide Swapping;
      SwappingStep(s, fmap[..], p1, p2, k, n, lo, hi);
      Swap(fmap, p1 + k, p2 + k);
    }
  }

  function Min(a: int, b: int): int {
    if a < b then a else b
  }

  /** Exchanging the shorter of two neighbouring zones against the far end of the longer exchanges the zones. */
  lemma ZonesExchanged(s: seq<nat>, t: seq<nat>, e: seq<nat>, med: nat, a: int, b: int, c: int, u: int, v: int)
    requires InBounds(s, e) && InBounds(t, e) && 0 <= a <= b <= c <= |s|
    requires Zone(s, e, med, a, b, u) && Zone(s, e, med, b, c, v)
    requires BlocksSwapped(s, t, a, c - Min(b - a, c - b), Min(b - a, c - b))
    ensures Zone(t, e, med, a, a + c - b, v) && Zone(t, e, med, a + c - b, c, u)
    ensures forall x :: 0 <= x < |s| && !(a <= x < c) ==> t[x] == s[x]
  {
    var n := Min(b - a, c - b);
    forall x | 0 <= x < |s|
      ensures a <= x < a + c - b ==> Side(e[t[x]], med) == v
      ensures a + c - b <= x < c ==> Side(e[t[x]], med) == u
      ensures !(a <= x < c) ==> t[x] == s[x]
    {
      var y := Partner(a, c - n, n, x);
      assert t[x] == s[y];
      assert a <= y < b ==> Side(e[s[y]], med) == u;
      assert b <= y < c ==> Side(e[s[y]], med) == v;
    }
  }

  /** The result of one three-way split: below, equal (at least one), above. */
  ghost predicate Split(s0: seq<nat>, s: seq<nat>, e: seq<nat>, med: nat, lo: int, n: int, m: int, hi: int) {
    && InBounds(s0, e) && InBounds(s, e) && Rearranged(s0, s, lo, hi)
    && 0 <= lo <= n + 1 && n + 2 <= m <= hi + 1 <= |s|
    && Zone(s, e, med, lo, n + 1, -1) && Zone(s, e, med, n + 1, m, 0) && Zone(s, e, med, m, hi + 1, 1)
  }

  /** A key that occurs keeps at least one place in the equal zones. */
  lemma EqualZoneInhabited(s0: seq<nat>, s: seq<nat>, e: seq<nat>, med: nat,
                           lo: int, ltLo: int, unLo: int, unHi: int, gtHi: int, hi: int, k: int)
    requires Part(s0, s, e, med, lo, ltLo, unLo, unHi, gtHi, hi) && unHi == unLo - 1
    requires lo <= k <= hi && e[s0[k]] == med
    ensures InBounds(s, e) && Rearranged(s0, s, lo, hi)
    ensures 0 <= lo <= ltLo <= unLo && unHi <= gtHi <= hi < |s|
    ensures ltLo > lo || gtHi < hi
    ensures gtHi < ltLo ==> Zone(s, e, med, lo, hi + 1, 0)
  {
    var x := RearrangedFrom(s, s0, lo, hi, k);
    assert e[s[x]] == med;
  }

  lemma RearrangedTrans(s: seq<nat>, t: seq<nat>, u: seq<nat>, lo: int, hi: int)
    requires Rearranged(s, t, lo, hi) && Rearranged(t, u, lo, hi)
    ensures Rearranged(s, u, lo, hi)
  {
  }

  /** The middle third of the sort: partition round `med` and bring the equal keys to the centre. */
  method SplitRange(fmap: array<nat>, eclass: array<nat>, lo: int, hi: int, med: nat, ghost k: int)
    returns (allEqual: bool, n: int, m: int)
    requires fmap != eclass && 0 <= lo <= k <= hi < fmap.Length && InBounds(fmap[..], eclass[..])
    requires eclass[fmap[k]] == med
    modifies fmap
    ensures Rearranged(old(fmap[..]), fmap[..], lo, hi) && InBounds(fmap[..], eclass[..])
    ensures allEqual ==> Zone(fmap[..], eclass[..], med, lo, hi + 1, 0)
    ensures !allEqual ==> Split(old(fmap[..]), fmap[..], eclass[..], med, lo, n, m, hi)
  {
    hide Part, Split, BlocksSwapped, Rearranged, Zone;
    ghost var s0, e := fmap[..], eclass[..];
    var ltLo, unLo, unHi, gtHi := Partition(fmap, eclass, lo, hi, med);
    ghost var s := fmap[..];
    EqualZoneInhabited(s0, s, e, med, lo, ltLo, unLo, unHi, gtHi, hi, k);
    if gtHi < ltLo {
      return true, lo, hi;
    }
    var c := Min(ltLo - lo, unLo - ltLo);
    FvSwap(fmap, lo, unLo - c, c, lo, hi);
    ghost var t := fmap[..];
    var d := Min(hi - gtHi, gtHi - unHi);
    FvSwap(fmap, unLo, hi - d + 1, d, lo, hi);
    SplitDone(s0, s, t, fmap[..], e, med, lo, ltLo, unLo, unHi, gtHi, hi);
    n := lo + unLo - ltLo - 1;
    m := hi - (gtHi - unHi) + 1;
    allEqual := false;
  }

  lemma SplitDone(s0: seq<nat>, s: seq<nat>, t: seq<nat>, u: seq<nat>, e: seq<nat>, med: nat,
                  lo: int, ltLo: int, unLo: int, unHi: int, gtHi: int, hi: int)
    requires Part(s0, s, e, med, lo, ltLo, unLo, unHi, gtHi, hi) && unHi == unLo - 1
    requires ltLo > lo || gtHi < hi
    requires var c := Min(ltLo - lo, unLo - ltLo); BlocksSwapped(s, t, lo, unLo - c, c)
    requires var d := Min(hi - gtHi, gtHi - unHi); BlocksSwapped(t, u, unLo, hi - d + 1, d)
    requires Rearranged(s, t, lo, hi) && Rearranged(t, u, lo, hi)
    ensures Split(s0, u, e, med, lo, lo + unLo - ltLo - 1, hi - (gtHi - unHi) + 1, hi)
    ensures Rearranged(s0, u, lo, hi) && InBounds(u, e)
  {
    hide BlocksSwapped, Zone, Rearranged, InBounds;
    RearrangedSize(s0, s, lo, hi);
    RearrangedSize(s, t, lo, hi);
    RearrangedSize(t, u, lo, hi);
    RearrangedTrans(s0, s, t, lo, hi);
    RearrangedTrans(s0, t, u, lo, hi);
    RearrangedBounds(s0, t, e, lo, hi);
    RearrangedBounds(s0, u, e, lo, hi);
    LowSwapped(s, t, e, med, lo, ltLo, unLo, gtHi, hi);
    HighSwapped(t, u, e, med, lo, lo + unLo - ltLo, unLo, gtHi, hi);
  }

  lemma RearrangedSize(s: seq<nat>, t: seq<nat>, lo: int, hi: int)
    requires Rearranged(s, t, lo, hi)
    ensures |s| == |t|
  {
  }

  /** The equal part at the low end has changed places with the smaller part. */
  lemma LowSwapped(s: seq<nat>, t: seq<nat>, e: seq<nat>, med: nat, lo: int, ltLo: int, unLo: int, gtHi: int, hi: int)
    requires InBounds(s, e) && InBounds(t, e) && |s| == |t| && 0 <= lo <= ltLo <= unLo <= gtHi + 1 <= hi + 1 <= |s|
    requires Zone(s, e, med, lo, ltLo, 0) && Zone(s, e, med, ltLo, unLo, -1)
    requires Zone(s, e, med, unLo, gtHi + 1, 1) && Zone(s, e, med, gtHi + 1, hi + 1, 0)
    requires var c := Min(ltLo - lo, unLo - ltLo); BlocksSwapped(s, t, lo, unLo - c, c)
    ensures Zone(t, e, med, lo, lo + unLo - ltLo, -1) && Zone(t, e, med, lo + unLo - ltLo, unLo, 0)
    ensures Zone(t, e, med, unLo, gtHi + 1, 1) && Zone(t, e, med, gtHi + 1, hi + 1, 0)
  {
    hide BlocksSwapped, Zone, InBounds;
    ZonesExchanged(s, t, e, med, lo, ltLo, unLo, 0, -1);
    ZoneSame(s, t, e, med, unLo, gtHi + 1, 1);
    ZoneSame(s, t, e, med, gtHi + 1, hi + 1, 0);
  }

  /** The equal part at the high end has changed places with the greater part. */
  lemma HighSwapped(t: seq<nat>, u: seq<nat>, e: seq<nat>, med: nat, lo: int, n: int, unLo: int, gtHi: int, hi: int)
    requires InBounds(t, e) && InBounds(u, e) && |t| == |u| && 0 <= lo <= n <= unLo <= gtHi + 1 <= hi + 1 <= |t|
    requires Zone(t, e, med, lo, n, -1) && Zone(t, e, med, n, unLo, 0)
    requires Zone(t, e, med, unLo, gtHi + 1, 1) && Zone(t, e, med, gtHi + 1, hi + 1, 0)
    requires var d := Min(hi - gtHi, gtHi + 1 - unLo); BlocksSwapped(t, u, unLo, hi - d + 1, d)
    ensures Zone(u, e, med, lo, n, -1)
    ensures Zone(u, e, med, n, hi + unLo - gtHi, 0) && Zone(u, e, med, hi + unLo - gtHi, hi + 1, 1)
  {
    hide BlocksSwapped, Zone, InBounds;
    ZonesExchanged(t, u, e, med, unLo, gtHi + 1, hi + 1, 1, 0);
    ZoneSame(t, u, e, med, lo, n, -1);
    ZoneSame(t, u, e, med, n, unLo, 0);
    ZoneJoin(u, e, med, n, unLo, hi + unLo - gtHi, 0);
  }

  lemma ZoneSame(s: seq<nat>, t: seq<nat>, e: seq<nat>, med: nat, a: int, b: int, u: int)
    requires InBounds(s, e) && InBounds(t, e) && |s| == |t| && Zone(s, e, med, a, b, u)
    requires forall x :: 0 <= x < |s| && a <= x < b ==> t[x] == s[x]
    ensures Zone(t, e, med, a, b, u)
  {
  }

  lemma ZoneJoin(s: seq<nat>, e: seq<nat>, med: nat, a: int, b: int, c: int, u: int)
    requires InBounds(s, e) && Zone(s, e, med, a, b, u) && Zone(s, e, med, b, c, u)
    ensures Zone(s, e, med, a, c, u)
  {
  }

  // ---------------------------------------------------------------- the quicksort and its stack

  /** A place no key left of which exceeds any key from it on. */
  ghost predicate IsCut(s: seq<nat>, e: seq<nat>, lo: int, hi: int, c: int)
    requires InBounds(s, e)
  {
    forall a, b :: 0 <= a < |s| && 0 <= b < |s| && lo <= a < c <= b <= hi ==> e[s[a]] <= e[s[b]]
  }

  ghost predicate Covered(stack: seq<(int, int)>, c: int) {
    exists t :: 0 <= t < |stack| && stack[t].0 < c <= stack[t].1
  }

  ghost predicate Apart(p: (int, int), q: (int, int)) {
    p.1 < q.0 || q.1 < p.0
  }

  ghost predicate StackOk(stack: seq<(int, int)>, lo: int, hi: int) {
    && (forall t :: 0 <= t < |stack| ==> lo <= stack[t].0 <= stack[t].1 + 1 <= hi + 1)
    && (forall t, u :: 0 <= t < u < |stack| ==> Apart(stack[t], stack[u]))
  }

  /** The pending intervals are apart, and every place inside none of them is a cut. */
  ghost predicate Sorting(s0: seq<nat>, s: seq<nat>, e: seq<nat>, lo: int, hi: int, stack: seq<(int, int)>) {
    && InBounds(s0, e) && InBounds(s, e) && Rearranged(s0, s, lo, hi) && 0 <= lo <= hi + 1 <= |s|
    && StackOk(stack, lo, hi)
    && forall c :: lo < c <= hi ==> Covered(stack, c) || IsCut(s, e, lo, hi, c)
  }

  lemma CutKept(s: seq<nat>, t: seq<nat>, e: seq<nat>, lo0: int, hi0: int, lo: int, hi: int, c: int)
    requires InBounds(s, e) && InBounds(t, e) && Rearranged(s, t, lo, hi)
    requires 0 <= lo0 <= lo <= hi <= hi0 < |s| && (c <= lo || hi < c) && IsCut(s, e, lo0, hi0, c)
    ensures IsCut(t, e, lo0, hi0, c)
  {
    forall a, b | 0 <= a < |t| && 0 <= b < |t| && lo0 <= a < c <= b <= hi0
      ensures e[t[a]] <= e[t[b]]
    {
      var a0, b0 := a, b;
      if lo <= a <= hi { a0 := RearrangedFrom(s, t, lo, hi, a); }
      if lo <= b <= hi { b0 := RearrangedFrom(s, t, lo, hi, b); }
      assert t[a] == s[a0] && t[b] == s[b0];
    }
  }

  /** A cut of the popped interval alone is a cut of the whole, when the interval lies between cuts. */
  lemma CutWidened(t: seq<nat>, e: seq<nat>, lo0: int, hi0: int, lo: int, hi: int, c: int)
    requires InBounds(t, e) && 0 <= lo0 <= lo < c <= hi <= hi0 < |t| && IsCut(t, e, lo, hi, c)
    requires lo > lo0 ==> IsCut(t, e, lo0, hi0, lo)
    requires hi < hi0 ==> IsCut(t, e, lo0, hi0, hi + 1)
    ensures IsCut(t, e, lo0, hi0, c)
  {
    forall a, b | 0 <= a < |t| && 0 <= b < |t| && lo0 <= a < c <= b <= hi0
      ensures e[t[a]] <= e[t[b]]
    {
    }
  }

  /** Replacing the popped interval by at most two of its parts, once its other places are cuts. */
  lemma SortingStep(s0: seq<nat>, s: seq<nat>, t: seq<nat>, e: seq<nat>, lo0: int, hi0: int,
                    rest: seq<(int, int)>, lo: int, hi: int, parts: seq<(int, int)>)
    requires Sorting(s0, s, e, lo0, hi0, rest + [(lo, hi)])
    requires Rearranged(s, t, lo, hi) && InBounds(t, e)
    requires StackOk(parts, lo, hi)
    requires forall c :: lo < c <= hi ==> Covered(parts, c) || IsCut(t, e, lo, hi, c)
    ensures Sorting(s0, t, e, lo0, hi0, rest + parts)
  {
    var st, nw := rest + [(lo, hi)], rest + parts;
    assert st[|rest|] == (lo, hi);
    assert forall k :: 0 <= k < |rest| ==> st[k] == rest[k] && nw[k] == rest[k];
    assert forall k :: 0 <= k < |parts| ==> nw[|rest| + k] == parts[k];
    SortingStack(lo0, hi0, rest, lo, hi, parts);
    RearrangedWiden(s0, s, t, lo0, hi0, lo, hi);
    forall c | lo0 < c <= hi0
      ensures Covered(nw, c) || IsCut(t, e, lo0, hi0, c)
    {
      SortingCut(s0, s, t, e, lo0, hi0, rest, lo, hi, parts, c);
    }
  }

  lemma RearrangedWiden(s0: seq<nat>, s: seq<nat>, t: seq<nat>, lo0: int, hi0: int, lo: int, hi: int)
    requires Rearranged(s0, s, lo0, hi0) && Rearranged(s, t, lo, hi) && lo0 <= lo && hi <= hi0
    ensures Rearranged(s0, t, lo0, hi0)
  {
  }

  lemma SortingStack(lo0: int, hi0: int, rest: seq<(int, int)>, lo: int, hi: int, parts: seq<(int, int)>)
    requires StackOk(rest + [(lo, hi)], lo0, hi0) && StackOk(parts, lo, hi)
    ensures StackOk(rest + parts, lo0, hi0)
  {
    var st, nw := rest + [(lo, hi)], rest + parts;
    assert st[|rest|] == (lo, hi);
    forall t | 0 <= t < |nw|
      ensures lo0 <= nw[t].0 <= nw[t].1 + 1 <= hi0 + 1
      ensures t < |rest| ==> nw[t] == st[t] && Apart(st[t], (lo, hi))
    {
      if t < |rest| { assert nw[t] == st[t]; } else { assert nw[t] == parts[t - |rest|]; }
    }
    forall t, u | 0 <= t < u < |nw|
      ensures Apart(nw[t], nw[u])
    {
      if u < |rest| {
        assert Apart(st[t], st[u]);
      } else if t >= |rest| {
        assert Apart(parts[t - |rest|], parts[u - |rest|]);
      } else {
        assert nw[u] == parts[u - |rest|];
      }
    }
  }

  lemma EdgeIsCut(s0: seq<nat>, s: seq<nat>, e: seq<nat>, lo0: int, hi0: int, rest: seq<(int, int)>, lo: int, hi: int, c: int)
    requires Sorting(s0, s, e, lo0, hi0, rest + [(lo, hi)])
    requires lo <= hi && lo0 < c <= hi0 && (c == lo || c == hi + 1)
    ensures IsCut(s, e, lo0, hi0, c)
  {
    var st := rest + [(lo, hi)];
    assert st[|rest|] == (lo, hi);
    forall t | 0 <= t < |st|
      ensures !(st[t].0 < c <= st[t].1)
    {
      if t < |rest| { assert Apart(st[t], st[|rest|]); }
    }
  }

  lemma SortingCut(s0: seq<nat>, s: seq<nat>, t: seq<nat>, e: seq<nat>, lo0: int, hi0: int,
                   rest: seq<(int, int)>, lo: int, hi: int, parts: seq<(int, int)>, c: int)
    requires Sorting(s0, s, e, lo0, hi0, rest + [(lo, hi)])
    requires Rearranged(s, t, lo, hi) && InBounds(t, e) && lo0 < c <= hi0
    requires lo < c <= hi ==> Covered(parts, c) || IsCut(t, e, lo, hi, c)
    ensures Covered(rest + parts, c) || IsCut(t, e, lo0, hi0, c)
  {
    var st, nw := rest + [(lo, hi)], rest + parts;
    assert st[|rest|] == (lo, hi);
    if lo < c <= hi {
      if Covered(parts, c) {
        var k :| 0 <= k < |parts| && parts[k].0 < c <= parts[k].1;
        assert nw[|rest| + k] == parts[k];
      } else {
        if lo > lo0 {
          EdgeIsCut(s0, s, e, lo0, hi0, rest, lo, hi, lo);
          CutKept(s, t, e, lo0, hi0, lo, hi, lo);
        }
        if hi < hi0 {
          EdgeIsCut(s0, s, e, lo0, hi0, rest, lo, hi, hi + 1);
          CutKept(s, t, e, lo0, hi0, lo, hi, hi + 1);
        }
        CutWidened(t, e, lo0, hi0, lo, hi, c);
      }
    } else if Covered(st, c) {
      var k :| 0 <= k < |st| && st[k].0 < c <= st[k].1;
      assert k < |rest|;
      assert nw[k] == st[k];
    } else if lo <= hi {
      CutKept(s, t, e, lo0, hi0, lo, hi, c);
    } else {
      assert t == s;
    }
  }

  function Size(p: (int, int)): nat {
    if p.0 <= p.1 then p.1 - p.0 + 1 else 0
  }

  ghost function Weight(stack: seq<(int, int)>): nat {
    if stack == [] then 0 else Weight(stack[..|stack| - 1]) + 2 * Size(stack[|stack| - 1]) + 1
  }

  lemma WeightPush(stack: seq<(int, int)>, p: (int, int))
    ensures Weight(stack + [p]) == Weight(stack) + 2 * Size(p) + 1
  {
    assert (stack + [p])[..|stack|] == stack;
  }

  lemma {:induction false} Pow2Mono(a: nat, b: nat)
    requires a <= b
    ensures Pow2(a) <= Pow2(b)
    decreases b
  {
    if a < b { Pow2Mono(a, b - 1); }
  }

  lemma Pow2Of32()
    ensures Pow2(32) == 0x1_0000_0000
  {
    assert Pow2(8) == 256;
    Pow2Add(8, 8);
    Pow2Add(16, 16);
  }

  lemma TimesTwice(q: nat, a: nat)
    ensures (2 * q) * a == q * (2 * a)
  {
  }

  lemma TimesMono(q: nat, a: nat, b: nat)
    requires a <= b
    ensures q * a <= q * b
  {
  }

  /** Each interval is at most half the room of the one below it, since the smaller part goes on top. */
  ghost predicate DepthOk(stack: seq<(int, int)>, n: nat) {
    && (forall t :: 0 <= t < |stack| ==> Pow2(t) * Size(stack[t]) <= n)
    && (|stack| >= 2 ==> Pow2(|stack| - 2) * (SMALL_THRESH + 1) <= n)
  }

  lemma DepthPop(rest: seq<(int, int)>, p: (int, int), n: nat)
    requires DepthOk(rest + [p], n)
    ensures DepthOk(rest, n) && Pow2(|rest|) * Size(p) <= n
  {
    var st := rest + [p];
    assert forall t :: 0 <= t < |rest| ==> st[t] == rest[t];
    assert st[|rest|] == p;
    if |rest| >= 2 {
      assert Pow2(|rest| - 1) == 2 * Pow2(|rest| - 2);
    }
  }

  lemma DepthPush(rest: seq<(int, int)>, p: (int, int), big: (int, int), small: (int, int), n: nat)
    requires DepthOk(rest, n) && Pow2(|rest|) * Size(p) <= n && Size(p) > SMALL_THRESH
    requires Size(big) <= Size(p) && 2 * Size(small) <= Size(p)
    ensures DepthOk(rest + [big] + [small], n)
  {
    var st, q := rest + [big] + [small], Pow2(|rest|);
    TimesMono(q, Size(big), Size(p));
    TimesMono(q, 2 * Size(small), Size(p));
    TimesMono(q, SMALL_THRESH + 1, Size(p));
    TimesTwice(q, Size(small));
    assert st[|rest|] == big && st[|rest| + 1] == small;
    assert Pow2(|rest| + 1) == 2 * q;
    hide Pow2, Size;
    forall t | 0 <= t < |st|
      ensures Pow2(t) * Size(st[t]) <= n
    {
      if t < |rest| {
        assert st[t] == rest[t];
      } else if t == |rest| {
        assert Pow2(t) * Size(st[t]) == q * Size(big);
      } else {
        assert Pow2(t) * Size(st[t]) == (2 * q) * Size(small);
      }
    }
  }

  /** Two pending levels need 11 entries, four levels 22, ...: fewer than 2^31 entries never fill the stack. */
  lemma StackNeverFull(stack: seq<(int, int)>, n: nat)
    requires DepthOk(stack, n) && n < 0x8000_0000
    ensures |stack| < STACK_SIZE - 1
  {
    if |stack| >= STACK_SIZE - 1 {
      hide Pow2;
      Pow2Mono(32, |stack| - 2);
      Pow2Of32();
      assert false;
    }
  }

  lemma SortedHasCuts(t: seq<nat>, e: seq<nat>, lo: int, hi: int)
    requires InBounds(t, e) && 0 <= lo && SortedRange(t, e, lo, hi)
    ensures forall c :: lo < c <= hi ==> IsCut(t, e, lo, hi, c)
  {
    assert forall a :: 0 <= a < |t| ==> Key(t, e, a) == e[t[a]];
  }

  lemma SplitHasCuts(s: seq<nat>, t: seq<nat>, e: seq<nat>, med: nat, lo: int, n: int, m: int, hi: int, parts: seq<(int, int)>)
    requires Split(s, t, e, med, lo, n, m, hi) && (parts == [(lo, n), (m, hi)] || parts == [(m, hi), (lo, n)])
    ensures StackOk(parts, lo, hi)
    ensures forall c :: lo < c <= hi ==> Covered(parts, c) || IsCut(t, e, lo, hi, c)
  {
    forall c | lo < c <= hi
      ensures Covered(parts, c) || IsCut(t, e, lo, hi, c)
    {
      if lo < c <= n {
        var k := if parts[0] == (lo, n) then 0 else 1;
        assert parts[k].0 < c <= parts[k].1;
      } else if m < c <= hi {
        var k := if parts[0] == (m, hi) then 0 else 1;
        assert parts[k].0 < c <= parts[k].1;
      }
    }
  }

  lemma NoneLeftSorted(s0: seq<nat>, s: seq<nat>, e: seq<nat>, lo: int, hi: int)
    requires Sorting(s0, s, e, lo, hi, [])
    ensures Rearranged(s0, s, lo, hi) && InBounds(s, e) && SortedRange(s, e, lo, hi)
  {
    forall a, b | 0 <= a < |s| && 0 <= b < |s| && lo <= a < b <= hi
      ensures Key(s, e, a) <= Key(s, e, b)
    {
      assert !Covered([], b);
      assert IsCut(s, e, lo, hi, b);
    }
  }

  lemma SortingStart(s: seq<nat>, e: seq<nat>, lo: int, hi: int)
    requires InBounds(s, e) && 0 <= lo <= hi < |s|
    ensures Sorting(s, s, e, lo, hi, [(lo, hi)])
    ensures DepthOk([(lo, hi)], Size((lo, hi)))
  {
    var st := [(lo, hi)];
    forall c | lo < c <= hi
      ensures Covered(st, c)
    {
      assert st[0].0 < c <= st[0].1;
    }
    assert Pow2(0) == 1;
  }

  lemma AllEqualSorted(t: seq<nat>, e: seq<nat>, med: nat, lo: int, hi: int)
    requires InBounds(t, e) && Zone(t, e, med, lo, hi + 1, 0)
    ensures SortedRange(t, e, lo, hi)
  {
    forall a | 0 <= a < |t| && lo <= a <= hi
      ensures Key(t, e, a) == med
    {
      assert Side(e[t[a]], med) == 0;
    }
  }

  /** What a pending interval has to be for the sort to work on it. */
  lemma TopInterval(s0: seq<nat>, s: seq<nat>, e: seq<nat>, lo0: int, hi0: int, rest: seq<(int, int)>, lo: int, hi: int)
    requires Sorting(s0, s, e, lo0, hi0, rest + [(lo, hi)])
    ensures InBounds(s, e) && 0 <= lo0 <= lo <= hi + 1 <= hi0 + 1 <= |s|
  {
    assert (rest + [(lo, hi)])[|rest|] == (lo, hi);
  }

  /** One popped interval: sorted outright, or split round a median key into two smaller ones. */
  method SortTop(fmap: array<nat>, eclass: array<nat>, lo: int, hi: int, r: nat)
    returns (parts: seq<(int, int)>, r2: nat)
    requires fmap != eclass && 0 <= lo <= hi + 1 <= fmap.Length && InBounds(fmap[..], eclass[..])
    modifies fmap
    ensures Rearranged(old(fmap[..]), fmap[..], lo, hi) && InBounds(fmap[..], eclass[..])
    ensures StackOk(parts, lo, hi)
    ensures forall c :: lo < c <= hi ==> Covered(parts, c) || IsCut(fmap[..], eclass[..], lo, hi, c)
    ensures parts == [] || (|parts| == 2 && Size((lo, hi)) > SMALL_THRESH &&
              Size(parts[0]) + Size(parts[1]) < Size((lo, hi)) && Size(parts[1]) <= Size(parts[0]))
  {
    hide Rearranged, SortedRange, Split, Zone, StackOk, Covered, IsCut;
    ghost var before, e := fmap[..], eclass[..];
    r2 := r;
    NoParts(lo, hi);
    if hi - lo < SMALL_THRESH {
      FallbackSimpleSort(fmap, eclass, lo, hi);
      SortedHasCuts(fmap[..], e, lo, hi);
      return [], r2;
    }
    r2 := (r * 7621 + 1) % 32768;
    var k := if r2 % 3 == 0 then lo else if r2 % 3 == 1 then (lo + hi) / 2 else hi;
    var med := eclass[fmap[k]];
    var allEqual, n, m := SplitRange(fmap, eclass, lo, hi, med, k);
    if allEqual {
      AllEqualSorted(fmap[..], e, med, lo, hi);
      SortedHasCuts(fmap[..], e, lo, hi);
      return [], r2;
    }
    SplitFacts(before, fmap[..], e, med, lo, n, m, hi);
    parts := if n - lo > hi - m then [(lo, n), (m, hi)] else [(m, hi), (lo, n)];
    SplitHasCuts(before, fmap[..], e, med, lo, n, m, hi, parts);
  }

  method FallbackQSort3(fmap: array<nat>, eclass: array<nat>, loSt: int, hiSt: int)
    requires fmap != eclass && 0 <= loSt <= hiSt < fmap.Length < 0x8000_0000
    requires InBounds(fmap[..], eclass[..])
    modifies fmap
    ensures Rearranged(old(fmap[..]), fmap[..], loSt, hiSt) && InBounds(fmap[..], eclass[..])
    ensures SortedRange(fmap[..], eclass[..], loSt, hiSt)
  {
    hide Rearranged, SortedRange, Sorting, DepthOk, StackOk, Covered, IsCut, InBounds;
    ghost var s0, e, total := fmap[..], eclass[..], Size((loSt, hiSt));
    SortingStart(s0, e, loSt, hiSt);
    var r := 0;
    var stack := [(loSt, hiSt)];
    while |stack| > 0
      invariant Sorting(s0, fmap[..], e, loSt, hiSt, stack) && DepthOk(stack, total)
      decreases Weight(stack)
    {
      StackNeverFull(stack, total);
      assert |stack| < STACK_SIZE - 1;
      var top := stack[|stack| - 1];
      var lo, hi := top.0, top.1;
      ghost var before := fmap[..];
      ghost var rest := stack[..|stack| - 1];
      assert stack == rest + [(lo, hi)];
      TopInterval(s0, before, e, loSt, hiSt, rest, lo, hi);
      DepthPop(rest, (lo, hi), total);
      stack := stack[..|stack| - 1];
      var parts;
      parts, r := SortTop(fmap, eclass, lo, hi, r);
      SortingStep(s0, before, fmap[..], e, loSt, hiSt, rest, lo, hi, parts);
      if parts != [] {
        DepthPush(rest, (lo, hi), parts[0], parts[1], total);
        WeightPush(rest, parts[0]);
        WeightPush(rest + [parts[0]], parts[1]);
        assert rest + parts == rest + [parts[0]] + [parts[1]];
        stack := stack + [parts[0]];
        stack := stack + [parts[1]];
      } else {
        assert rest + parts == rest;
      }
    }
    NoneLeftSorted(s0, fmap[..], e, loSt, hiSt);
  }

  lemma SplitFacts(s: seq<nat>, t: seq<nat>, e: seq<nat>, med: nat, lo: int, n: int, m: int, hi: int)
    requires Split(s, t, e, med, lo, n, m, hi)
    ensures Rearranged(s, t, lo, hi) && InBounds(t, e) && lo <= n + 1 && n + 2 <= m <= hi + 1
  {
  }

  lemma NoParts(lo: int, hi: int)
    ensures StackOk([], lo, hi)
  {
  }
}
