/**
 * bzip2's fallback block sorter: a one-byte radix sort, then rounds that double the depth to which
 * the rotations are sorted. Header bits mark where each class of rotations that agree to the
 * current depth begins; the class of a rotation h bytes on is its sort key in the next round.
 */
module FallbackSort {
  import opened Bytes
  import opened Permutations
  import opened Rotations
  import opened Counting
  import opened FallbackQSort

  /** Sorted to depth h, with a header bit exactly at the start of every class of equal h-byte prefixes. */
  ghost predicate Headed(b: seq<Byte>, fm: seq<nat>, bh: seq<bool>, h: nat) {
    && SortedBy(b, fm, h) && |b| <= |bh|
    && (|b| > 0 ==> bh[0])
    && forall k :: 0 < k < |b| ==> (bh[k] <==> Cmp(b, fm[k - 1], fm[k], h) != 0)
  }

  /** The bits past the block alternate, so every scan over the bit table stops there. */
  ghost predicate Sentinels(bh: seq<bool>, n: nat) {
    |bh| % 32 == 0 && |bh| >= n + 64 && forall i :: 0 <= i < 32 ==> bh[n + 2 * i] && !bh[n + 2 * i + 1]
  }

  // ---------------------------------------------------------------- classes and the doubling step

  /** The nearest header at or before place i. */
  ghost function HeadOf(bh: seq<bool>, i: nat): (r: nat)
    requires i < |bh|
    ensures r <= i
  {
    if i == 0 || bh[i] then i else HeadOf(bh, i - 1)
  }

  /** Headers order and separate the classes exactly as the h-byte prefixes do. */
  lemma {:induction false} HeadOrder(b: seq<Byte>, fm: seq<nat>, bh: seq<bool>, h: nat, i: nat, j: nat)
    requires Headed(b, fm, bh, h) && i <= j < |b|
    ensures HeadOf(bh, i) <= HeadOf(bh, j)
    ensures HeadOf(bh, i) == HeadOf(bh, j) <==> Cmp(b, fm[i], fm[j], h) == 0
    decreases j
  {
    if i == j {
      CmpSelf(b, fm[i], h);
    } else {
      HeadOrder(b, fm, bh, h, i, j - 1);
      CmpTrans(b, fm[i], fm[j - 1], fm[j], h);
    }
  }

  /** `h` places back round the block. */
  function Back(y: nat, h: nat, n: nat): (x: nat)
    requires y < n && h <= n
    ensures x < n
  {
    if y >= h then y - h else y + n - h
  }

  /** The class table after the first i rows: each rotation's key is the header of the row h bytes on. */
  ghost predicate Classed(fm: seq<nat>, bh: seq<bool>, ec: seq<nat>, h: nat, i: nat) {
    && i <= |fm| <= |bh| && |fm| <= |ec| && h <= |fm|
    && (forall k :: 0 <= k < |fm| ==> fm[k] < |fm|)
    && forall k :: 0 <= k < i ==> ec[Back(fm[k], h, |fm|)] == HeadOf(bh, k)
  }

  lemma ClassedStep(fm: seq<nat>, bh: seq<bool>, ec: seq<nat>, h: nat, i: nat)
    requires Classed(fm, bh, ec, h, i) && i < |fm| && Distinct(fm)
    ensures Classed(fm, bh, ec[Back(fm[i], h, |fm|) := HeadOf(bh, i)], h, i + 1)
  {
    forall k | 0 <= k < i
      ensures Back(fm[k], h, |fm|) != Back(fm[i], h, |fm|)
    {
      assert fm[k] != fm[i];
    }
  }

  /** Keys compare as the bytes h places on. */
  lemma ClassOrder(b: seq<Byte>, fm: seq<nat>, bh: seq<bool>, ec: seq<nat>, h: nat, x: nat, y: nat)
    requires Headed(b, fm, bh, h) && Classed(fm, bh, ec, h, |fm|) && x < |b| && y < |b|
    ensures ec[x] < ec[y] <==> Cmp(b, Adv(x, h, |b|), Adv(y, h, |b|), h) < 0
    ensures ec[x] == ec[y] <==> Cmp(b, Adv(x, h, |b|), Adv(y, h, |b|), h) == 0
  {
    var i := RowAt(b, fm, bh, ec, h, x);
    var j := RowAt(b, fm, bh, ec, h, y);
    if i <= j {
      HeadOrder(b, fm, bh, h, i, j);
      if i < j { assert Cmp(b, fm[i], fm[j], h) <= 0; }
    } else {
      HeadOrder(b, fm, bh, h, j, i);
      assert Cmp(b, fm[j], fm[i], h) <= 0;
    }
    CmpFlip(b, fm[i], fm[j], h);
  }

  lemma RowAt(b: seq<Byte>, fm: seq<nat>, bh: seq<bool>, ec: seq<nat>, h: nat, x: nat) returns (i: nat)
    requires Headed(b, fm, bh, h) && Classed(fm, bh, ec, h, |fm|) && x < |b|
    ensures i < |b| && fm[i] == Adv(x, h, |b|) && ec[x] == HeadOf(bh, i)
  {
    AdvIs(x, h, |b|);
    i := PermOnto(fm, |b|, Adv(x, h, |b|));
    assert Back(fm[i], h, |b|) == x;
  }

  /** Rotations that agree to depth h compare to depth 2h as their keys do. */
  lemma KeysDouble(b: seq<Byte>, fm: seq<nat>, bh: seq<bool>, ec: seq<nat>, h: nat, x: nat, y: nat)
    requires Headed(b, fm, bh, h) && Classed(fm, bh, ec, h, |fm|) && x < |b| && y < |b|
    requires Cmp(b, x, y, h) == 0
    ensures ec[x] < ec[y] <==> Cmp(b, x, y, h + h) < 0
    ensures ec[x] == ec[y] <==> Cmp(b, x, y, h + h) == 0
  {
    CmpSplit(b, x, y, h, h);
    ClassOrder(b, fm, bh, ec, h, x, y);
  }

  // ---------------------------------------------------------------- one round

  /**
   * Inside a round, with rows up to r treated: rows keep their h-classes, keys ascend inside each old
   * class, and a header stands where there was one or where the key changes. Later rows are untouched.
   */
  ghost predicate Refining(b: seq<Byte>, fm0: seq<nat>, bh0: seq<bool>, fm: seq<nat>, bh: seq<bool>, ec: seq<nat>,
                           h: nat, r: int)
  {
    && Headed(b, fm0, bh0, h) && Classed(fm0, bh0, ec, h, |fm0|) && |b| > 0
    && -1 <= r < |b| && |fm| == |b| && |bh| == |bh0|
    && InBounds(fm, ec) && multiset(fm) == multiset(fm0)
    && (forall k :: r < k < |b| ==> fm[k] == fm0[k])
    && (forall k :: 0 <= k < |b| ==> fm[k] < |b| && Cmp(b, fm[k], fm0[k], h) == 0)
    && (forall k :: r < k < |bh| ==> bh[k] == bh0[k])
    && (forall k :: 0 < k <= r ==> (bh[k] <==> bh0[k] || ec[fm[k - 1]] != ec[fm[k]]))
    && (forall k :: 0 < k <= r && !bh0[k] ==> ec[fm[k - 1]] <= ec[fm[k]])
    && bh[0]
  }

  lemma RefiningStart(b: seq<Byte>, fm: seq<nat>, bh: seq<bool>, ec: seq<nat>, h: nat)
    requires Headed(b, fm, bh, h) && Classed(fm, bh, ec, h, |fm|) && |b| > 0
    ensures Refining(b, fm, bh, fm, bh, ec, h, -1)
  {
    forall k | 0 <= k < |b|
      ensures Cmp(b, fm[k], fm[k], h) == 0
    {
      CmpSelf(b, fm[k], h);
    }
  }

  /** Rows whose header bits are all set are classes of one row, and need no work. */
  lemma RefiningSkip(b: seq<Byte>, fm0: seq<nat>, bh0: seq<bool>, fm: seq<nat>, bh: seq<bool>, ec: seq<nat>,
                     h: nat, r: int, l: int)
    requires Refining(b, fm0, bh0, fm, bh, ec, h, r) && r <= l < |b|
    requires forall k :: r < k <= l ==> bh[k]
    ensures Refining(b, fm0, bh0, fm, bh, ec, h, l)
  {
  }

  lemma {:induction false} BucketEqual(b: seq<Byte>, fm: seq<nat>, bh: seq<bool>, h: nat, i: nat, j: nat)
    requires Headed(b, fm, bh, h) && i <= j < |b|
    requires forall k :: i < k <= j ==> !bh[k]
    ensures Cmp(b, fm[i], fm[j], h) == 0
    decreases j
  {
    if i == j {
      CmpSelf(b, fm[i], h);
    } else {
      BucketEqual(b, fm, bh, h, i, j - 1);
      CmpTrans(b, fm[i], fm[j - 1], fm[j], h);
    }
  }

  /** The header bits the bucket scan sets. */
  ghost predicate Marked(bh: seq<bool>, bh2: seq<bool>, fm: seq<nat>, ec: seq<nat>, l: nat, i: int)
    requires InBounds(fm, ec) && i <= |fm| <= |bh|
  {
    && |bh2| == |bh|
    && (forall k :: 0 <= k < |bh| && !(l < k < i) ==> bh2[k] == bh[k])
    && (forall k :: 0 <= k < |bh| && l < k < i ==> (bh2[k] <==> bh[k] || ec[fm[k - 1]] != ec[fm[k]]))
  }

  /** Sorting one bucket by key and marking the key changes extends the round over it. */
  lemma RefiningBucket(b: seq<Byte>, fm0: seq<nat>, bh0: seq<bool>, fm: seq<nat>, bh: seq<bool>, ec: seq<nat>,
                       h: nat, l: nat, r: int, fm2: seq<nat>, bh2: seq<bool>)
    requires Refining(b, fm0, bh0, fm, bh, ec, h, l as int - 1)
    requires l < r < |b| && bh[l] && (forall k :: l < k <= r ==> !bh[k])
    requires Rearranged(fm, fm2, l, r) && InBounds(fm2, ec) && SortedRange(fm2, ec, l, r)
    requires Marked(bh, bh2, fm2, ec, l, r + 1)
    ensures Refining(b, fm0, bh0, fm2, bh2, ec, h, r)
  {
    forall k | 0 <= k < |b|
      ensures fm2[k] < |b| && Cmp(b, fm2[k], fm0[k], h) == 0
    {
      if l <= k <= r {
        var x := RearrangedFrom(fm, fm2, l, r, k);
        assert fm[x] == fm0[x];
        BucketEqual(b, fm0, bh0, h, l, x);
        BucketEqual(b, fm0, bh0, h, l, k);
        CmpFlip(b, fm0[l], fm0[x], h);
        CmpTrans(b, fm0[x], fm0[l], fm0[k], h);
      } else {
        assert fm2[k] == fm[k];
      }
    }
    forall k | 0 < k <= r
      ensures bh2[k] <==> bh0[k] || ec[fm2[k - 1]] != ec[fm2[k]]
      ensures !bh0[k] ==> ec[fm2[k - 1]] <= ec[fm2[k]]
    {
      if k < l {
        assert fm2[k] == fm[k] && fm2[k - 1] == fm[k - 1];
      } else if k > l {
        assert Key(fm2, ec, k - 1) <= Key(fm2, ec, k);
      }
    }
  }

  /** A finished round is sorted, with its headers, to twice the depth. */
  lemma RefiningDone(b: seq<Byte>, fm0: seq<nat>, bh0: seq<bool>, fm: seq<nat>, bh: seq<bool>, ec: seq<nat>, h: nat)
    requires Refining(b, fm0, bh0, fm, bh, ec, h, |b| - 1)
    ensures Headed(b, fm, bh, h + h)
  {
    forall k | 0 < k < |b|
      ensures Cmp(b, fm[k - 1], fm[k], h + h) <= 0
      ensures bh[k] <==> Cmp(b, fm[k - 1], fm[k], h + h) != 0
    {
      NeighboursDone(b, fm0, bh0, fm, bh, ec, h, k);
    }
    SamePerm(fm0, fm, |b|);
    forall i, j | 0 <= i < j < |b|
      ensures Cmp(b, fm[i], fm[j], h + h) <= 0
    {
      NeighboursSuffice(b, fm, h + h, i, j);
    }
  }

  lemma NeighboursDone(b: seq<Byte>, fm0: seq<nat>, bh0: seq<bool>, fm: seq<nat>, bh: seq<bool>, ec: seq<nat>,
                       h: nat, k: nat)
    requires Refining(b, fm0, bh0, fm, bh, ec, h, |b| - 1) && 0 < k < |b|
    ensures Cmp(b, fm[k - 1], fm[k], h + h) <= 0
    ensures bh[k] <==> Cmp(b, fm[k - 1], fm[k], h + h) != 0
  {
    var x, y := fm[k - 1], fm[k];
    CmpFlip(b, y, fm0[k], h);
    assert Cmp(b, fm0[k - 1], fm0[k], h) <= 0;
    CmpTrans(b, x, fm0[k - 1], fm0[k], h);
    CmpTrans(b, x, fm0[k], y, h);
    if bh0[k] {
      CmpSplit(b, x, y, h, h);
    } else {
      KeysDouble(b, fm0, bh0, ec, h, x, y);
    }
  }

  lemma {:induction false} NeighboursSuffice(b: seq<Byte>, fm: seq<nat>, h: nat, i: nat, j: nat)
    requires |fm| == |b| && (forall k :: 0 <= k < |b| ==> fm[k] < |b|)
    requires forall k :: 0 < k < |b| ==> Cmp(b, fm[k - 1], fm[k], h) <= 0
    requires i < j < |b|
    ensures Cmp(b, fm[i], fm[j], h) <= 0
    decreases j
  {
    if i < j - 1 {
      NeighboursSuffice(b, fm, h, i, j - 1);
      CmpTrans(b, fm[i], fm[j - 1], fm[j], h);
    }
  }

  // ---------------------------------------------------------------- when the rounds may stop

  /** A depth that covers the block, or classes of one row each, decides the order of the rotations. */
  lemma DepthEnough(b: seq<Byte>, fm: seq<nat>, bh: seq<bool>, h: nat)
    requires Headed(b, fm, bh, h)
    requires h >= |b| || forall k :: 0 <= k < |b| ==> bh[k]
    ensures SortedRows(b, fm)
  {
    forall i, j | 0 <= i < j < |fm|
      ensures Cmp(b, fm[i], fm[j], |b|) <= 0
    {
      assert Cmp(b, fm[i], fm[j], h) <= 0;
      if h >= |b| {
        CmpSplit(b, fm[i], fm[j], |b|, h - |b|);
      } else {
        SinglesStrict(b, fm, bh, h, i, j);
        CmpSplit(b, fm[i], fm[j], h, |b| - h);
      }
    }
  }

  lemma SinglesStrict(b: seq<Byte>, fm: seq<nat>, bh: seq<bool>, h: nat, i: nat, j: nat)
    requires Headed(b, fm, bh, h) && i < j < |b| && (forall k :: 0 <= k < |b| ==> bh[k])
    ensures Cmp(b, fm[i], fm[j], h) < 0
  {
    assert Cmp(b, fm[i], fm[j], h) <= 0;
    if i < j - 1 {
      CmpTrans(b, fm[i], fm[j - 1], fm[j], h);
    }
    assert bh[j];
  }

  // ---------------------------------------------------------------- the round as the code runs it

  /** Gives every rotation the header of the row that starts h bytes later. */
  method AssignClasses(fmap: array<nat>, eclass: array<nat>, bhtab: array<bool>, nblock: nat, h: nat, ghost b: seq<Byte>)
    requires fmap != eclass && nblock == |b| == fmap.Length <= eclass.Length && h <= nblock
    requires Headed(b, fmap[..], bhtab[..], h)
    modifies eclass
    ensures Classed(fmap[..], bhtab[..], eclass[..], h, nblock)
  {
    ghost var fm, bh := fmap[..], bhtab[..];
    ClassedStart(b, fm, bh, eclass[..], h);
    hide Headed, Classed;
    var j := 0;
    for i := 0 to nblock
      invariant Classed(fm, bh, eclass[..], h, i)
      invariant i > 0 ==> j == HeadOf(bh, i - 1)
    {
      ClassedBounds(fm, bh, eclass[..], h, i);
      if bhtab[i] { j := i; }
      assert j == HeadOf(bh, i);
      var k := fmap[i] - h;
      if k < 0 { k := k + nblock; }
      assert k == Back(fm[i], h, |fm|);
      ClassedStep(fm, bh, eclass[..], h, i);
      eclass[k] := j;
    }
  }

  lemma ClassedStart(b: seq<Byte>, fm: seq<nat>, bh: seq<bool>, ec: seq<nat>, h: nat)
    requires Headed(b, fm, bh, h) && |b| <= |ec| && h <= |b|
    ensures Classed(fm, bh, ec, h, 0) && Distinct(fm)
  {
  }

  lemma ClassedBounds(fm: seq<nat>, bh: seq<bool>, ec: seq<nat>, h: nat, i: nat)
    requires Classed(fm, bh, ec, h, i)
    ensures |fm| <= |bh| && |fm| <= |ec| && h <= |fm| && forall k :: 0 <= k < |fm| ==> fm[k] < |fm|
  {
  }

  /** The scan for the next bit unlike `v`: bit by bit to a word boundary, then by words, then by bits. */
  method FirstOther(bhtab: array<bool>, start: nat, v: bool, ghost stop: nat) returns (k: nat)
    requires bhtab.Length % 32 == 0 && start <= stop < bhtab.Length && bhtab[stop] != v
    ensures start <= k <= stop && bhtab[k] != v
    ensures forall x :: start <= x < k ==> bhtab[x] == v
  {
    k := start;
    while bhtab[k] == v && k % 32 != 0
      invariant start <= k <= stop
      invariant forall x :: start <= x < k ==> bhtab[x] == v
      decreases stop - k
    {
      k := k + 1;
    }
    if bhtab[k] == v {
      while k + 32 <= bhtab.Length && forall x :: k <= x < k + 32 ==> bhtab[x] == v
        invariant start <= k <= stop && k % 32 == 0
        invariant forall x :: start <= x < k ==> bhtab[x] == v
      {
        k := k + 32;
      }
      while bhtab[k] == v
        invariant start <= k <= stop
        invariant forall x :: start <= x < k ==> bhtab[x] == v
        decreases stop - k
      {
        k := k + 1;
      }
    }
  }

  /** Sets a header where the key changes inside [l, r]. */
  method MarkBucket(fmap: array<nat>, eclass: array<nat>, bhtab: array<bool>, l: nat, r: nat)
    requires l < r < fmap.Length <= bhtab.Length && InBounds(fmap[..], eclass[..]) && bhtab[l]
    modifies bhtab
    ensures Marked(old(bhtab[..]), bhtab[..], fmap[..], eclass[..], l, r + 1)
  {
    hide Marked;
    ghost var bh := bhtab[..];
    MarkedNone(bh, fmap[..], eclass[..], l);
    var cc: int := -1;
    for i := l to r + 1
      invariant Marked(bh, bhtab[..], fmap[..], eclass[..], l, i)
      invariant i == l ==> cc == -1
      invariant i > l ==> cc == eclass[fmap[i - 1]]
    {
      var cc1 := eclass[fmap[i]];
      MarkedNext(bh, bhtab[..], fmap[..], eclass[..], l, i);
      if cc != cc1 {
        bhtab[i] := true;
        cc := cc1;
      }
    }
  }

  lemma MarkedNone(bh: seq<bool>, fm: seq<nat>, ec: seq<nat>, l: nat)
    requires InBounds(fm, ec) && l <= |fm| <= |bh|
    ensures Marked(bh, bh, fm, ec, l, l)
  {
  }

  lemma MarkedNext(bh: seq<bool>, bh2: seq<bool>, fm: seq<nat>, ec: seq<nat>, l: nat, i: nat)
    requires InBounds(fm, ec) && l <= i < |fm| <= |bh| && bh[l] && Marked(bh, bh2, fm, ec, l, i)
    ensures i == l || ec[fm[i - 1]] != ec[fm[i]] ==> Marked(bh, bh2[i := true], fm, ec, l, i + 1)
    ensures i > l && ec[fm[i - 1]] == ec[fm[i]] ==> Marked(bh, bh2, fm, ec, l, i + 1)
  {
    assert bh2[i] == bh[i];
    var bh3 := bh2[i := true];
    forall k | 0 <= k < |bh| && l < k < i + 1 ensures bh3[k] <==> (if k == i then true else bh[k] || ec[fm[k - 1]] != ec[fm[k]]) {
      if k < i { assert bh3[k] == bh2[k]; }
    }
    forall k | 0 <= k < |bh| && !(l < k < i + 1) ensures bh3[k] == bh[k] {
      if k != i { assert bh3[k] == bh2[k]; }
    }
  }

  /** Finds the next bucket of more than one row after row r; none when every later row stands alone. */
  method NextBucket(bhtab: array<bool>, r: int, nblock: nat) returns (found: bool, l: int, r2: int)
    requires bhtab.Length % 32 == 0 && -1 <= r < nblock && nblock + 1 < bhtab.Length
    requires bhtab[nblock] && !bhtab[nblock + 1] && bhtab[r + 1]
    ensures !found ==> forall k :: r < k < nblock ==> bhtab[k]
    ensures found ==> r < l < r2 < nblock && bhtab[r2 + 1]
    ensures found ==> (forall k :: r < k <= l ==> bhtab[k]) && (forall k :: l < k <= r2 ==> !bhtab[k])
  {
    var k := FirstOther(bhtab, r + 1, true, nblock + 1);
    l := k - 1;
    if l >= nblock {
      return false, l, l;
    }
    k := FirstOther(bhtab, k, false, nblock);
    r2 := k - 1;
    found := r2 < nblock;
  }

  /** One round: sorted to depth h before, to depth 2h after. */
  method Round(fmap: array<nat>, eclass: array<nat>, bhtab: array<bool>, nblock: nat, h: nat, ghost b: seq<Byte>)
    returns (nNotDone: nat)
    requires fmap != eclass && 0 < nblock == |b| == fmap.Length <= eclass.Length && h <= nblock < 0x8000_0000
    requires Headed(b, fmap[..], bhtab[..], h) && Sentinels(bhtab[..], nblock)
    modifies fmap, eclass, bhtab
    ensures Headed(b, fmap[..], bhtab[..], h + h) && Sentinels(bhtab[..], nblock)
    ensures nNotDone == 0 ==> forall k :: 0 <= k < nblock ==> bhtab[k]
  {
    hide Headed, Classed, Refining, Sentinels;
    AssignClasses(fmap, eclass, bhtab, nblock, h, b);
    ghost var fm0, bh0, ec := fmap[..], bhtab[..], eclass[..];
    RefiningStart(b, fm0, bh0, ec, h);
    SentinelStops(b, fm0, bh0, fm0, bh0, ec, h, -1, nblock);
    nNotDone := 0;
    var r := -1;
    while true
      invariant Refining(b, fm0, bh0, fmap[..], bhtab[..], ec, h, r) && -1 <= r < nblock
      invariant Sentinels(bhtab[..], nblock) && eclass[..] == ec
      invariant r + 1 < bhtab.Length && bhtab[r + 1]
      invariant nNotDone == 0 ==> forall k :: 0 <= k <= r ==> bhtab[k]
      decreases nblock - r
    {
      SentinelStops(b, fm0, bh0, fmap[..], bhtab[..], ec, h, r, nblock);
      var found, l, r2 := NextBucket(bhtab, r, nblock);
      if !found {
        RefiningSkip(b, fm0, bh0, fmap[..], bhtab[..], ec, h, r, nblock - 1);
        break;
      }
      RefiningSkip(b, fm0, bh0, fmap[..], bhtab[..], ec, h, r, l - 1);
      nNotDone := nNotDone + (r2 - l + 1);
      SortBucket(fmap, eclass, bhtab, nblock, h, l, r2, b, fm0, bh0);
      r := r2;
    }
    RefiningDone(b, fm0, bh0, fmap[..], bhtab[..], ec, h);
  }

  /** Sorts the bucket [l, r] by key and marks its new classes. */
  method SortBucket(fmap: array<nat>, eclass: array<nat>, bhtab: array<bool>, nblock: nat, h: nat, l: nat, r: nat,
                    ghost b: seq<Byte>, ghost fm0: seq<nat>, ghost bh0: seq<bool>)
    requires fmap != eclass && nblock == |b| == fmap.Length < 0x8000_0000 && l < r < nblock
    requires Refining(b, fm0, bh0, fmap[..], bhtab[..], eclass[..], h, l - 1)
    requires Sentinels(bhtab[..], nblock)
    requires bhtab[l] && (forall k :: l < k <= r ==> !bhtab[k])
    modifies fmap, bhtab
    ensures Refining(b, fm0, bh0, fmap[..], bhtab[..], eclass[..], h, r)
    ensures Sentinels(bhtab[..], nblock)
    ensures forall k :: r < k < bhtab.Length ==> bhtab[k] == old(bhtab[k])
  {
    hide Refining, Rearranged, SortedRange, Marked, Sentinels;
    ghost var fm, bh, ec := fmap[..], bhtab[..], eclass[..];
    RefiningBounds(b, fm0, bh0, fm, bh, ec, h, l - 1);
    FallbackQSort3(fmap, eclass, l, r);
    MarkBucket(fmap, eclass, bhtab, l, r);
    RefiningBucket(b, fm0, bh0, fm, bh, ec, h, l, r, fmap[..], bhtab[..]);
    MarkedBeyond(bh, bhtab[..], fmap[..], ec, l, r, nblock);
  }

  lemma MarkedBeyond(bh: seq<bool>, bh2: seq<bool>, fm: seq<nat>, ec: seq<nat>, l: nat, r: nat, n: nat)
    requires InBounds(fm, ec) && r < n && r + 1 <= |fm| <= |bh| && Marked(bh, bh2, fm, ec, l, r + 1) && Sentinels(bh, n)
    ensures Sentinels(bh2, n) && |bh2| == |bh| && forall k :: r < k < |bh| ==> bh2[k] == bh[k]
  {
  }

  lemma RefiningBounds(b: seq<Byte>, fm0: seq<nat>, bh0: seq<bool>, fm: seq<nat>, bh: seq<bool>, ec: seq<nat>,
                       h: nat, r: int)
    requires Refining(b, fm0, bh0, fm, bh, ec, h, r)
    ensures |fm| == |b| <= |bh| && InBounds(fm, ec) && bh[0]
  {
  }

  lemma SentinelStops(b: seq<Byte>, fm0: seq<nat>, bh0: seq<bool>, fm: seq<nat>, bh: seq<bool>, ec: seq<nat>,
                      h: nat, r: int, n: nat)
    requires Refining(b, fm0, bh0, fm, bh, ec, h, r) && Sentinels(bh, n) && n == |b| && r < n
    ensures |bh| % 32 == 0 && n + 1 < |bh| && bh[n] && !bh[n + 1] && bh[0] && -1 <= r
  {
    assert bh[n + 2 * 0] && !bh[n + 2 * 0 + 1];
  }

  // ---------------------------------------------------------------- the initial radix sort

  /** Where the one-byte radix sort, which fills every bucket from the top, puts rotation i. */
  ghost function Slot(b: seq<Byte>, i: nat): (k: nat)
    requires i < |b|
    ensures CountBelow(b, b[i]) <= k < CountBelow(b, (b[i] as int) + 1)
    ensures k < |b|
  {
    CountAt(b, i, |b|);
    assert b[..|b|] == b;
    CountBelowMono(b, (b[i] as int) + 1, 256);
    CountAll(b);
    CountBelow(b, (b[i] as int) + 1) - 1 - Count(b[..i], b[i])
  }

  lemma SlotDistinct(b: seq<Byte>, i: nat, j: nat)
    requires i < j < |b|
    ensures Slot(b, i) != Slot(b, j)
  {
    if b[i] == b[j] {
      CountAt(b, i, j);
    } else if b[i] < b[j] {
      CountBelowMono(b, (b[i] as int) + 1, b[j]);
    } else {
      CountBelowMono(b, (b[j] as int) + 1, b[i]);
    }
  }

  lemma SlotSame(b: seq<Byte>, i: nat, j: nat)
    requires i < |b| && j < |b| && Slot(b, i) == Slot(b, j)
    ensures i == j
  {
    if i < j {
      SlotDistinct(b, i, j);
    } else if j < i {
      SlotDistinct(b, j, i);
    }
  }

  ghost function Slots(b: seq<Byte>): (t: seq<int>)
    ensures |t| == |b| && forall i :: 0 <= i < |b| ==> t[i] == Slot(b, i)
  {
    seq(|b|, i requires 0 <= i < |b| => Slot(b, i))
  }

  lemma SlotsPerm(b: seq<Byte>)
    ensures IsPerm(Slots(b), |b|)
  {
    forall i, j | 0 <= i < j < |b|
      ensures Slots(b)[i] != Slots(b)[j]
    {
      SlotDistinct(b, i, j);
    }
  }

  /** The radix table while rotation i is next: one above the slot each byte's next rotation takes. */
  ghost predicate Tops(ft: seq<nat>, b: seq<Byte>, i: nat)
    requires i <= |b|
  {
    |ft| == 257 && forall c :: 0 <= c < 256 ==> ft[c] == CountBelow(b, c + 1) - Count(b[..i], c)
  }

  ghost predicate Placed(fm: seq<nat>, b: seq<Byte>, i: nat)
    requires i <= |b| <= |fm|
  {
    forall j :: 0 <= j < i ==> fm[Slot(b, j)] == j
  }

  lemma PlaceStep(ft: seq<nat>, fm: seq<nat>, b: seq<Byte>, i: nat)
    requires i < |b| <= |fm| && Tops(ft, b, i) && Placed(fm, b, i)
    ensures ft[b[i]] == Slot(b, i) + 1
    ensures Tops(ft[b[i] := Slot(b, i)], b, i + 1)
    ensures Placed(fm[Slot(b, i) := i], b, i + 1)
  {
    assert b[..i + 1][..i] == b[..i];
    forall j | 0 <= j < i
      ensures Slot(b, j) != Slot(b, i)
    {
      SlotDistinct(b, j, i);
    }
  }

  /** With every rotation placed, row k's first byte is the one whose bucket holds k. */
  lemma PlacedAll(fm: seq<nat>, b: seq<Byte>, k: nat)
    requires k < |b| == |fm| && Placed(fm, b, |b|)
    ensures fm[k] < |b| && Slot(b, fm[k]) == k
  {
    SlotsPerm(b);
    var i := PermOnto(Slots(b), |b|, k);
    assert Slot(b, i) == k;
  }

  lemma PlacedSorted(fm: seq<nat>, b: seq<Byte>)
    requires |b| == |fm| && Placed(fm, b, |b|)
    ensures SortedBy(b, fm, 1)
  {
    forall k | 0 <= k < |b|
      ensures fm[k] < |b| && Slot(b, fm[k]) == k
    {
      PlacedAll(fm, b, k);
    }
    forall i, j | 0 <= i < j < |fm|
      ensures fm[i] != fm[j] && Cmp(b, fm[i], fm[j], 1) <= 0
    {
      var x, y := fm[i], fm[j];
      if b[y] < b[x] {
        CountBelowMono(b, (b[y] as int) + 1, b[x]);
      }
      CmpOne(b, x, y);
    }
  }

  lemma CmpOne(b: seq<Byte>, i: nat, j: nat)
    requires i < |b| && j < |b|
    ensures Cmp(b, i, j, 1) == Sign(b[i], b[j])
  {
  }

  /** Row k starts a bucket exactly when its first byte differs from the byte of the row before. */
  lemma BucketStart(fm: seq<nat>, b: seq<Byte>, k: nat)
    requires 0 < k < |b| == |fm| && Placed(fm, b, |b|)
    ensures fm[k - 1] < |b| && fm[k] < |b|
    ensures StartsBucket(b, k) <==> b[fm[k - 1]] != b[fm[k]]
  {
    PlacedAll(fm, b, k - 1);
    PlacedAll(fm, b, k);
    var x, y := b[fm[k - 1]], b[fm[k]];
    if x != y {
      if y < x { CountBelowMono(b, (y as int) + 1, x); }
      CountBelowMono(b, (x as int) + 1, y);
      assert CountBelow(b, y) == k;
      assert StartsBucket(b, k);
    }
    forall c: nat | c < 256 && CountBelow(b, c) == k
      ensures x != y
    {
      if c <= x { CountBelowMono(b, c, x); }
      if x < c && y < c { CountBelowMono(b, (y as int) + 1, c); }
    }
  }

  /** The bit table the radix sort leaves: one bit at the start of every byte's bucket. */
  ghost predicate BucketBits(bh: seq<bool>, b: seq<Byte>) {
    |b| <= |bh| && forall k :: 0 <= k < |b| ==> (bh[k] <==> StartsBucket(b, k))
  }

  ghost predicate StartsBucket(b: seq<Byte>, k: int) {
    exists c: nat :: c < 256 && CountBelow(b, c) == k
  }

  lemma RadixHeaded(fm: seq<nat>, bh: seq<bool>, b: seq<Byte>)
    requires 0 < |b| == |fm| && Placed(fm, b, |b|) && BucketBits(bh, b)
    ensures Headed(b, fm, bh, 1)
  {
    PlacedSorted(fm, b);
    forall k | 0 < k < |b|
      ensures bh[k] <==> Cmp(b, fm[k - 1], fm[k], 1) != 0
    {
      BucketStart(fm, b, k);
      CmpOne(b, fm[k - 1], fm[k]);
    }
    assert bh[0] by {
      assert CountBelow(b, 0) == 0;
      assert StartsBucket(b, 0);
    }
  }

  /** Byte counts and, in the table returned, their prefix sums. */
  method CountBytes(block: array<Byte>, ftab: array<nat>, ftabCopy: array<nat>, nblock: nat, ghost b: seq<Byte>)
    requires nblock == |b| <= block.Length && b == block[..nblock]
    requires ftab.Length == 257 && ftabCopy.Length == 256 && ftab != ftabCopy
    modifies ftab, ftabCopy
    ensures Tops(ftab[..], b, 0) && forall c :: 0 <= c < 256 ==> ftabCopy[c] == Count(b, c)
  {
    hide Count;
    for i := 0 to 257
      invariant forall c :: 0 <= c < i ==> ftab[c] == 0
    {
      ftab[i] := 0;
    }
    CountZero(b);
    for i := 0 to nblock
      invariant forall c :: 0 <= c < 256 ==> ftab[c] == Count(b[..i], c)
      invariant ftab[256] == 0
    {
      CountNext(b, i);
      ftab[block[i]] := ftab[block[i]] + 1;
    }
    assert b[..nblock] == b;
    for i := 0 to 256
      invariant forall c :: 0 <= c < i ==> ftabCopy[c] == Count(b, c)
      invariant forall c :: 0 <= c < 256 ==> ftab[c] == Count(b, c)
    {
      ftabCopy[i] := ftab[i];
    }
    assert CountBelow(b, 1) == Count(b, 0);
    for i := 1 to 257
      invariant forall c :: 0 <= c < i && c < 256 ==> ftab[c] == CountBelow(b, c + 1)
      invariant i == 257 || forall c :: i <= c < 256 ==> ftab[c] == Count(b, c)
      invariant forall c :: 0 <= c < 256 ==> ftabCopy[c] == Count(b, c)
    {
      ftab[i] := ftab[i] + ftab[i - 1];
    }
    CountZero(b);
  }

  lemma CountZero(b: seq<Byte>)
    ensures forall c :: Count(b[..0], c) == 0
  {
  }

  lemma CountNext(b: seq<Byte>, i: nat)
    requires i < |b|
    ensures forall c :: Count(b[..i + 1], c) == Count(b[..i], c) + (if b[i] == c then 1 else 0)
  {
    assert b[..i + 1][..i] == b[..i];
  }

  /** The one-byte sort and the header bits it leaves. */
  method RadixSort(fmap: array<nat>, block: array<Byte>, bhtab: array<bool>, ftabCopy: array<nat>, nblock: nat,
                   ghost b: seq<Byte>)
    requires 0 < nblock == |b| == fmap.Length && nblock <= block.Length && b == block[..nblock]
    requires ftabCopy.Length == 256 && ftabCopy != fmap
    requires bhtab.Length % 32 == 0 && bhtab.Length >= nblock + 64
    modifies fmap, bhtab, ftabCopy
    ensures Headed(b, fmap[..], bhtab[..], 1) && Sentinels(bhtab[..], nblock)
    ensures forall c :: 0 <= c < 256 ==> ftabCopy[c] == Count(b, c)
  {
    hide Headed, Sentinels, Slot, Tops, Placed, BucketBits, Count, CountBelow;
    var ftab := new nat[257];
    CountBytes(block, ftab, ftabCopy, nblock, b);
    NonePlaced(fmap[..], b);
    for i := 0 to nblock
      invariant Tops(ftab[..], b, i) && Placed(fmap[..], b, i)
      invariant forall c :: 0 <= c < 256 ==> ftabCopy[c] == Count(b, c)
    {
      PlaceStep(ftab[..], fmap[..], b, i);
      var j := block[i];
      var k := ftab[j] - 1;
      ftab[j] := k;
      fmap[k] := i;
    }
    MarkStarts(ftab, bhtab, nblock, b);
    RadixHeaded(fmap[..], bhtab[..], b);
  }

  lemma NonePlaced(fm: seq<nat>, b: seq<Byte>)
    requires |b| <= |fm|
    ensures Placed(fm, b, 0)
  {
  }

  lemma TopsAreStarts(ft: seq<nat>, b: seq<Byte>, c: nat)
    requires Tops(ft, b, |b|) && c < 256
    ensures ft[c] == CountBelow(b, c) <= |b|
  {
    assert b[..|b|] == b;
    CountBelowMono(b, c, 256);
    CountAll(b);
  }

  method MarkStarts(ftab: array<nat>, bhtab: array<bool>, nblock: nat, ghost b: seq<Byte>)
    requires ftab.Length == 257 && nblock == |b| && Tops(ftab[..], b, nblock)
    requires bhtab.Length % 32 == 0 && bhtab.Length >= nblock + 64
    modifies bhtab
    ensures BucketBits(bhtab[..], b) && Sentinels(bhtab[..], nblock)
  {
    hide Tops, CountBelow;
    var nBhtab := 2 + nblock / 32;
    for i := 0 to 32 * nBhtab
      invariant forall k :: 0 <= k < i ==> !bhtab[k]
    {
      bhtab[i] := false;
    }
    for i := 0 to 256
      invariant forall k :: 0 <= k < nblock ==> (bhtab[k] <==> exists c :: 0 <= c < i && CountBelow(b, c) == k)
    {
      TopsAreStarts(ftab[..], b, i);
      ghost var bh := bhtab[..];
      bhtab[ftab[i]] := true;
      forall k | 0 <= k < nblock
        ensures bhtab[k] <==> exists c :: 0 <= c < i + 1 && CountBelow(b, c) == k
      {
        assert bh[k] <==> exists c :: 0 <= c < i && CountBelow(b, c) == k;
      }
    }
    ghost var bits := bhtab[..];
    for i := 0 to 32
      invariant forall k :: 0 <= k < nblock ==> bhtab[k] == bits[k]
      invariant forall j :: 0 <= j < i ==> bhtab[nblock + 2 * j] && !bhtab[nblock + 2 * j + 1]
    {
      bhtab[nblock + 2 * i] := true;
      bhtab[nblock + 2 * i + 1] := false;
    }
  }

  // ---------------------------------------------------------------- the sorter as a whole

  /** Rewrites the block, whose storage the classes have overwritten, from the sorted rows and the byte counts. */
  method ReconstructBlock(fmap: array<nat>, ftabCopy: array<nat>, block: array<Byte>, nblock: nat, ghost b: seq<Byte>)
    requires nblock == |b| == fmap.Length <= block.Length && ftabCopy.Length == 256 && ftabCopy != fmap
    requires SortedRows(b, fmap[..])
    requires forall c :: 0 <= c < 256 ==> ftabCopy[c] == Count(b, c)
    modifies ftabCopy, block
    ensures block[..nblock] == b
  {
    ghost var fm := fmap[..];
    hide SortedBy, Count, CountBelow;
    SortedRange0(b, fm);
    var j := 0;
    StartUsing(b);
    for i := 0 to nblock
      invariant 0 <= j < 256 && fmap[..] == fm && UsedUp(ftabCopy[..], b, j, i)
      invariant forall k :: 0 <= k < i ==> block[fm[k]] == b[fm[k]]
    {
      ghost var was := block[..];
      while ftabCopy[j] == 0
        invariant block[..] == was
        invariant 0 <= j < 256 && UsedUp(ftabCopy[..], b, j, i)
        decreases 256 - j
      {
        UseNext(ftabCopy[..], b, j, i);
        j := j + 1;
      }
      RowByte(b, fm, ftabCopy[..], j, i);
      assert forall k :: 0 <= k < i ==> fm[k] != fm[i];
      ftabCopy[j] := ftabCopy[j] - 1;
      block[fmap[i]] := j;
    }
    forall x | 0 <= x < nblock
      ensures block[x] == b[x]
    {
      var k := PermOnto(fm, nblock, x);
      assert block[fm[k]] == b[fm[k]];
    }
  }

  /** Counters below j are spent, those above are whole, and counter j covers rows i up to its bucket's end. */
  ghost predicate UsedUp(ft: seq<nat>, b: seq<Byte>, j: nat, i: nat) {
    && |ft| == 256 && j < 256 && i <= |b|
    && (forall c :: j < c < 256 ==> ft[c] == Count(b, c))
    && CountBelow(b, j) <= i && i + ft[j] == CountBelow(b, j + 1)
  }

  lemma StartUsing(b: seq<Byte>)
    ensures forall ft: seq<nat> :: |ft| == 256 && (forall c :: 0 <= c < 256 ==> ft[c] == Count(b, c)) ==> UsedUp(ft, b, 0, 0)
  {
  }

  lemma UseNext(ft: seq<nat>, b: seq<Byte>, j: nat, i: nat)
    requires UsedUp(ft, b, j, i) && ft[j] == 0 && i < |b|
    ensures j + 1 < 256 && UsedUp(ft, b, j + 1, i)
  {
    CountAll(b);
  }

  lemma SortedRange0(b: seq<Byte>, fm: seq<nat>)
    requires SortedRows(b, fm)
    ensures IsPerm(fm, |b|)
  {
  }

  /** Row i of a sorted table starts with the byte whose bucket contains i. */
  lemma RowByte(b: seq<Byte>, fm: seq<nat>, ft: seq<nat>, j: nat, i: nat)
    requires SortedRows(b, fm) && UsedUp(ft, b, j, i) && i < |b| && ft[j] > 0
    ensures fm[i] < |b| && b[fm[i]] == j
    ensures UsedUp(ft[j := ft[j] - 1], b, j, i + 1)
  {
    FirstBytes(b, fm, i);
    var x := b[fm[i]];
    if x < j {
      CountBelowMono(b, (x as int) + 1, j);
    } else if x > j {
      CountBelowMono(b, j + 1, x);
    }
  }

  /** In a sorted table row i lies in the bucket of its first byte. */
  lemma FirstBytes(b: seq<Byte>, fm: seq<nat>, i: nat)
    requires SortedRows(b, fm) && i < |b|
    ensures fm[i] < |b| && CountBelow(b, b[fm[i]]) <= i < CountBelow(b, (b[fm[i]] as int) + 1)
  {
    var g := RadixRows(b);
    PlacedSorted(g, b);
    PlacedAll(g, b, i);
    forall k, m | 0 <= k < m < |b|
      ensures Cmp(b, fm[k], fm[m], 1) <= 0
    {
      CmpSplit(b, fm[k], fm[m], 1, |b| - 1);
    }
    SortedByAgree(b, fm, g, 1, i);
    CmpOne(b, fm[i], g[i]);
  }

  lemma RadixRows(b: seq<Byte>) returns (g: seq<nat>)
    ensures |g| == |b| && Placed(g, b, |b|)
  {
    SlotsPerm(b);
    g := [];
    while |g| < |b|
      invariant |g| <= |b|
      invariant forall k :: 0 <= k < |g| ==> g[k] < |b| && Slot(b, g[k]) == k
    {
      var j := PermOnto(Slots(b), |b|, |g|);
      g := g + [j];
    }
    forall j | 0 <= j < |b|
      ensures g[Slot(b, j)] == j
    {
      SlotSame(b, g[Slot(b, j)], j);
    }
  }

  /** The fallback sorter: for every non-empty block, the rotations in order and the block intact. */
  method FallbackSort(fmap: array<nat>, block: array<Byte>, bhtab: array<bool>, nblock: nat)
    requires 0 < nblock == fmap.Length && nblock <= block.Length && nblock < 0x8000_0000
    requires bhtab.Length % 32 == 0 && bhtab.Length >= nblock + 64
    modifies fmap, block, bhtab
    ensures SortedRows(old(block[..nblock]), fmap[..])
    ensures block[..nblock] == old(block[..nblock])
  {
    ghost var b := block[..nblock];
    hide Headed, Sentinels, SortedBy;
    var ftabCopy := new nat[256];
    var eclass := new nat[nblock];
    RadixSort(fmap, block, bhtab, ftabCopy, nblock, b);
    var h := 1;
    while true
      invariant 1 <= h <= nblock && Headed(b, fmap[..], bhtab[..], h) && Sentinels(bhtab[..], nblock)
      invariant forall c :: 0 <= c < 256 ==> ftabCopy[c] == Count(b, c)
      decreases nblock - h
    {
      var nNotDone := Round(fmap, eclass, bhtab, nblock, h, b);
      h := h * 2;
      if h > nblock || nNotDone == 0 {
        DepthEnough(b, fmap[..], bhtab[..], h);
        break;
      }
    }
    ReconstructBlock(fmap, ftabCopy, block, nblock, b);
  }

  /** The row that holds the block itself. */
  method FindOrigPtr(ptr: array<nat>, nblock: nat, ghost b: seq<Byte>) returns (origPtr: int)
    requires 0 < nblock == |b| == ptr.Length && SortedRows(b, ptr[..])
    ensures 0 <= origPtr < nblock && ptr[origPtr] == 0
  {
    ghost var k := PermOnto(ptr[..], nblock, 0);
    origPtr := -1;
    for i := 0 to nblock
      invariant origPtr == -1 && i <= k
    {
      if ptr[i] == 0 {
        origPtr := i;
        break;
      }
    }
  }
}
