/** Larsson-Sadakane suffix sorting: a bucket sort by first byte, then rounds of prefix doubling. */
module SuffixSort {
  import opened Bytes
  import opened Permutations
  import opened Counting
  import opened SuffixOrder
  import opened SuffixRanks
  import opened SuffixRuns
  import opened SuffixSplit

  // ---------------------------------------------------------------- one round

  /** Every group is a single suffix. */
  ghost predicate AllSingle(js: seq<int>, v: seq<int>) {
    |js| == |v| && InRange(js, |js|) && forall p :: 0 <= p < |js| ==> v[js[p]] == p
  }

  /** Finished positions a..b-1. */
  ghost predicate Singles(js: seq<int>, v: seq<int>, a: int, b: int) {
    && 0 <= a <= b <= |js| == |v| && InRange(js, |js|)
    && forall m :: a <= m < b ==> v[js[m]] == m
  }

  /**
   * A round that has reached position i: everything before is split by 2h bytes and marked, but for
   * the last len finished positions, whose run is still growing.
   */
  ghost predicate Sweep(s: seq<Byte>, was: State, now: State, h: nat, i: int, len: int, f: bool) {
    && Ranked(s, now.js, now.v, h) && 0 <= len <= i <= |s| + 1 && |now.ix| == |s| + 1
    && (forall m :: 0 <= m < i ==> now.v[now.js[m]] < i)
    && Runs(now.ix, now.js, now.v, 0, i - len, true) && Singles(now.js, now.v, i - len, i)
    && Runs(now.ix, now.js, now.v, i, |s| + 1, f) && Done(s, now.js, now.v, 0, i, 2 * h)
    && |was.js| == |was.ix| == |s| + 1
    && (forall m :: i <= m <= |s| ==> now.js[m] == was.js[m] && now.ix[m] == was.ix[m])
  }

  /** The unfinished groups have h bytes and more to compare. */
  ghost predicate CanSplit(s: seq<Byte>, js: seq<int>, ix: seq<int>, h: nat, f: bool) {
    f || (h == 1 && |js| == |ix| == |s| + 1 && IsPerm(js, |js|) && js[0] == |s| && ix[0] < 0)
  }

  lemma SweepStart(s: seq<Byte>, st: State, h: nat, f: bool)
    requires Ranked(s, st.js, st.v, h) && Runs(st.ix, st.js, st.v, 0, |s| + 1, f)
    ensures Sweep(s, st, st, h, 0, 0, f)
  {
  }

  lemma SweepReads(s: seq<Byte>, was: State, now: State, h: nat, i: int, len: int, f: bool)
    requires Sweep(s, was, now, h, i, len, f)
    ensures 0 <= len <= i <= |s| + 1 == |now.ix| == |now.js| == |now.v|
    ensures i <= |s| && now.ix[i] < 0 ==> i - now.ix[i] <= |s| + 1
    ensures i <= |s| && now.ix[i] >= 0 ==> now.ix[i] == now.js[i] <= |s| && i <= now.v[now.js[i]] <= |s|
  {
  }

  lemma SkipRun(ix: seq<int>, js: seq<int>, v: seq<int>, a: int, i: int, n: int, f: bool)
    requires Runs(ix, js, v, i, n, f) && i < n && ix[i] < 0 && Singles(js, v, a, i)
    ensures i - ix[i] <= n && Singles(js, v, a, i - ix[i]) && Runs(ix, js, v, i - ix[i], n, f)
    ensures forall m :: i <= m < i - ix[i] ==> v[js[m]] == m
  {
  }

  /** A marked run is passed over. */
  lemma SweepSkip(s: seq<Byte>, was: State, now: State, h: nat, i: int, len: int, f: bool)
    requires Sweep(s, was, now, h, i, len, f) && i <= |s| && now.ix[i] < 0
    ensures Sweep(s, was, now, h, i - now.ix[i], len - now.ix[i], f)
  {
    hide Ordered, Alike, IsPerm, Runs, Singles, Done, Shape;
    var k := i - now.ix[i];
    SkipRun(now.ix, now.js, now.v, i - len, i, |s| + 1, f);
    SingleBlock(s, now.js, now.v, i, k);
    SkipDone(s, now.js, now.v, i, k, 2 * h);
  }

  lemma SkipDone(s: seq<Byte>, js: seq<int>, v: seq<int>, i: int, k: int, h: nat)
    requires Shape(s, js, v) && 0 <= i <= k <= |js| && (forall m :: 0 <= m < i ==> v[js[m]] < i)
    requires (forall m :: i <= m < k ==> v[js[m]] == m) && Done(s, js, v, 0, i, h)
    ensures Done(s, js, v, 0, k, h)
  {
    hide Agree, Shape;
    forall p, q | 0 <= p < k && 0 <= q < |js| && p != q && v[js[p]] == v[js[q]] ensures Agree(s, js[p], js[q], h) {
      if p >= i { SingleAlone(s, js, v, i, k, p, q); }
    }
  }

  lemma SingleBlock(s: seq<Byte>, js: seq<int>, v: seq<int>, i: int, k: int)
    requires Shape(s, js, v) && 0 <= i <= k <= |js| && (forall m :: 0 <= m < i ==> v[js[m]] < i)
    requires forall m :: i <= m < k ==> v[js[m]] == m
    ensures forall m :: 0 <= m < k ==> v[js[m]] < k
  {
    hide IsPerm;
  }

  lemma SingleAlone(s: seq<Byte>, js: seq<int>, v: seq<int>, i: int, k: int, p: int, q: int)
    requires Shape(s, js, v) && 0 <= i <= k <= |js| && (forall m :: 0 <= m < i ==> v[js[m]] < i)
    requires forall m :: i <= m < k ==> v[js[m]] == m
    requires i <= p < k && 0 <= q < |js| && v[js[p]] == v[js[q]]
    ensures p == q
  {
    assert v[js[q]] >= q;
  }

  lemma MarkRuns(ix: seq<int>, js: seq<int>, v: seq<int>, i: int, len: int, n: int, f: bool)
    requires 0 < len <= i <= n == |ix| && Runs(ix, js, v, 0, i - len, true) && Runs(ix, js, v, i, n, f)
    requires Singles(js, v, i - len, i)
    ensures Runs(ix[i - len := -len], js, v, 0, i, true) && Runs(ix[i - len := -len], js, v, i, n, f)
  {
    var iy := ix[i - len := -len];
    RunsKept(ix, js, v, iy, js, v, 0, i - len, true);
    RunsKept(ix, js, v, iy, js, v, i, n, f);
    assert Runs(iy, js, v, i, i, true);
    assert Runs(iy, js, v, i - len, i, true);
    RunsJoin(iy, js, v, 0, i - len, i, true);
  }

  /** The run that has grown to len is marked at its head. */
  lemma SweepMark(s: seq<Byte>, was: State, now: State, h: nat, i: int, len: int, f: bool)
    requires Sweep(s, was, now, h, i, len, f) && len > 0
    ensures 0 <= i - len < |now.ix|
    ensures Sweep(s, was, State(now.js, now.v, now.ix[i - len := -len]), h, i, 0, f)
  {
    hide Ordered, Alike, IsPerm, Done, Runs;
    MarkRuns(now.ix, now.js, now.v, i, len, |s| + 1, f);
  }

  lemma GroupListed(ix: seq<int>, js: seq<int>, v: seq<int>, i: int, n: int, f: bool, g: int)
    requires Runs(ix, js, v, i, n, f) && i < n && ix[i] >= 0 && g == v[js[i]]
    ensures i <= g < n && Listed(ix, js, i, g + 1) && Runs(ix, js, v, g + 1, n, f) && (f ==> g > i)
  {
  }

  lemma GroupOpen(s: seq<Byte>, js: seq<int>, v: seq<int>, i: int, g: int)
    requires Shape(s, js, v) && 0 <= i <= g <= |s| && g == v[js[i]] && forall m :: 0 <= m < i ==> v[js[m]] < i
    ensures Open(js, v, i, g)
  {
    hide Distinct;
    forall m | i <= m <= g ensures v[js[m]] == g {
      assert v[js[i]] <= v[js[m]] <= v[js[g]];
    }
  }

  lemma GroupRoom(s: seq<Byte>, js: seq<int>, v: seq<int>, h: nat, i: int, g: int)
    requires Ranked(s, js, v, h) && Open(js, v, i, g) && i < g <= |s|
    ensures Room(s, js, i, g + 1, h)
  {
    hide Ordered, Distinct;
    forall m | i <= m < g + 1 ensures 0 <= js[m] && js[m] + h <= |s| {
      var k := if m == i then g else i;
      assert Agree(s, js[m], js[k], h);
    }
  }

  /** The next group is ready to be split. */
  lemma SweepGroup(s: seq<Byte>, was: State, now: State, h: nat, i: int, f: bool, g: int)
    requires Sweep(s, was, now, h, i, 0, f) && i <= |s| && now.ix[i] >= 0 && g == now.v[now.js[i]]
    requires CanSplit(s, was.js, was.ix, h, f)
    ensures i <= g <= |s| && Progress(s, now, now, h, i, i, g + 1, g) && (f ==> g > i)
  {
    hide Ordered, Alike, Done, Runs, Open, Listed, Distinct;
    GroupListed(now.ix, now.js, now.v, i, |s| + 1, f, g);
    GroupOpen(s, now.js, now.v, i, g);
    if g > i {
      GroupRoom(s, now.js, now.v, h, i, g);
    } else {
      FirstRoundRoom(s, was.js, was.ix, i);
    }
    ProgressStart(s, now, h, i, g + 1, g);
  }

  /** Before the first round only the empty suffix has no room for one byte, and it stands first. */
  lemma FirstRoundRoom(s: seq<Byte>, js: seq<int>, ix: seq<int>, i: int)
    requires CanSplit(s, js, ix, 1, false) && 0 <= i <= |s| && ix[i] >= 0
    ensures 0 <= js[i] && js[i] + 1 <= |s|
  {
    assert i != 0 && js[0] != js[i];
  }

  /** The group has been split. */
  lemma SweepSplit(s: seq<Byte>, was: State, now: State, next: State, h: nat, i: int, f: bool, g: int)
    requires Sweep(s, was, now, h, i, 0, f) && i <= |s| && now.ix[i] >= 0 && g == now.v[now.js[i]]
    requires Progress(s, now, next, h, i, g + 1, g + 1, g)
    ensures Sweep(s, was, next, h, g + 1, 0, f)
  {
    hide Ranked, IsPerm, Distinct, Done, Runs, Agree, Progress, Listed, Singles, Ends, Sweep, Outside, Beyond, InRange;
    SweepEnds(s, was, now, h, i, f);
    GroupListed(now.ix, now.js, now.v, i, |s| + 1, f, g);
    SplitEnds(s, now, next, h, i, g + 1, g);
    Settled(s, now, next, h, 0, i, g + 1);
    SweepMade(s, was, now, next, h, i, f, g + 1);
  }

  /** A group split and settled, the sweep is past it. */
  lemma SweepMade(s: seq<Byte>, was: State, now: State, next: State, h: nat, i: int, f: bool, d: int)
    requires Sweep(s, was, now, h, i, 0, f) && i <= d <= |s| + 1 && Runs(now.ix, now.js, now.v, d, |s| + 1, f)
    requires Ranked(s, next.js, next.v, h) && |next.ix| == |next.js| == |next.v| == |s| + 1 && Ends(next.js, next.v, d)
    requires Outside(now.js, now.v, next.js, next.v, i, d) && Beyond(now.ix, next.ix, i, d)
    requires Runs(next.ix, next.js, next.v, 0, d, true) && Done(s, next.js, next.v, 0, d, 2 * h)
    ensures Sweep(s, was, next, h, d, 0, f)
  {
    hide Ranked, Done, Runs, Agree;
    RunsKept(now.ix, now.js, now.v, next.ix, next.js, next.v, d, |s| + 1, f);
    NoSingles(next.js, next.v, d);
  }

  lemma SweepEnds(s: seq<Byte>, was: State, now: State, h: nat, i: int, f: bool)
    requires Sweep(s, was, now, h, i, 0, f) && i <= |s|
    ensures Ends(now.js, now.v, i) && |now.ix| == |now.js| == |now.v| == |s| + 1
    ensures Runs(now.ix, now.js, now.v, 0, i, true) && Done(s, now.js, now.v, 0, i, 2 * h)
    ensures Runs(now.ix, now.js, now.v, i, |s| + 1, f)
  {
    hide Runs, Done;
  }

  lemma NoSingles(js: seq<int>, v: seq<int>, i: int)
    requires 0 <= i <= |js| == |v| && InRange(js, |js|)
    ensures Singles(js, v, i, i)
  {
  }

  lemma SplitEnds(s: seq<Byte>, was: State, now: State, h: nat, a: int, b: int, e: int)
    requires Progress(s, was, now, h, a, b, b, e)
    ensures Ranked(s, now.js, now.v, h) && |now.ix| == |now.js| == |now.v| == |s| + 1 && InRange(now.js, |now.js|)
    ensures Outside(was.js, was.v, now.js, now.v, a, b) && Beyond(was.ix, now.ix, a, b)
    ensures Runs(now.ix, now.js, now.v, a, b, true) && Done(s, now.js, now.v, a, b, 2 * h)
    ensures Ends(now.js, now.v, b)
  {
    RanksAtLeast(s, now.js, now.v, h, b, b, e);
    hide Ranked, Shape, Runs, Done, Distinct;
  }

  lemma SweepEnd(s: seq<Byte>, was: State, now: State, h: nat, len: int, f: bool)
    requires Sweep(s, was, now, h, |s| + 1, len, f) && len == 0
    ensures Ranked(s, now.js, now.v, 2 * h) && Runs(now.ix, now.js, now.v, 0, |s| + 1, true)
  {
    hide IsPerm, Agree, Ordered;
  }

  /** With only finished positions, a round makes them one run. */
  method Round(ix: array<int>, v: array<int>, h: nat, ghost s: seq<Byte>, ghost js: seq<int>, ghost f: bool)
    returns (ghost t: seq<int>)
    requires ix != v && Ranked(s, js, v[..], h) && Runs(ix[..], js, v[..], 0, |s| + 1, f)
    requires ix.Length == |s| + 1 && CanSplit(s, js, ix[..], h, f)
    modifies ix, v
    ensures Ranked(s, t, v[..], 2 * h) && Runs(ix[..], t, v[..], 0, |s| + 1, true)
    ensures f && AllSingle(js, old(v[..])) ==> ix[0] == -(|s| + 1)
  {
    hide Sweep, CanSplit, Progress, Ranked, Runs, AllSingle;
    ghost var was := State(js, v[..], ix[..]);
    ghost var n := |s|;
    t := js;
    var i, len := 0, 0;
    SweepStart(s, was, h, f);
    while i < ix.Length
      invariant Sweep(s, was, State(t, v[..], ix[..]), h, i, len, f)
      invariant 0 <= len <= i <= ix.Length
      invariant f && AllSingle(js, was.v) ==> len == i && t == js && v[..] == was.v
      decreases ix.Length - i
    {
      SweepReads(s, was, State(t, v[..], ix[..]), h, i, len, f);
      if ix[i] < 0 {
        SweepSkip(s, was, State(t, v[..], ix[..]), h, i, len, f);
        len := len - ix[i];
        i := i - ix[i];
        SweepReads(s, was, State(t, v[..], ix[..]), h, i, len, f);
      } else {
        if len != 0 {
          SweepMark(s, was, State(t, v[..], ix[..]), h, i, len, f);
          ix[i - len] := -len;
        }
        ghost var now := State(t, v[..], ix[..]);
        SweepReads(s, was, now, h, i, 0, f);
        ghost var g := v[t[i]];
        SweepGroup(s, was, now, h, i, f, g);
        if f && AllSingle(js, was.v) { SingleAt(js, was.v, i); }
        len := v[ix[i]] + 1 - i;
        t := Split(ix, v, i, len, h, s, t, g);
        SweepSplit(s, was, now, State(t, v[..], ix[..]), h, i, f, g);
        i := i + len;
        len := 0;
        SweepReads(s, was, State(t, v[..], ix[..]), h, i, len, f);
      }
    }
    if len != 0 {
      SweepMark(s, was, State(t, v[..], ix[..]), h, i, len, f);
      ix[i - len] := -len;
    }
    SweepEnd(s, was, State(t, v[..], ix[..]), h, 0, f);
  }

  lemma SingleAt(js: seq<int>, v: seq<int>, i: nat)
    requires AllSingle(js, v) && i < |js|
    ensures v[js[i]] == i
  {
  }

  // ---------------------------------------------------------------- the bucket sort

  /** js lists the suffixes by first byte, the empty one first; v ranks each by the end of its bucket. */
  ghost predicate Bucketed(s: seq<Byte>, js: seq<int>, v: seq<int>) {
    && |js| == |v| == |s| + 1 && js[0] == |s| && v[|s|] == 0
    && (forall i :: 0 <= i < |s| ==> js[RowOf(s, i) + 1] == i)
    && (forall i :: 0 <= i < |s| ==> v[i] == CountBelow(s, (s[i] as int) + 1))
  }

  /** Where a suffix stands: within the bucket of its first byte. */
  lemma InBucket(s: seq<Byte>, js: seq<int>, v: seq<int>, p: int)
    requires Bucketed(s, js, v) && 1 <= p <= |s|
    ensures 0 <= js[p] < |s| && RowOf(s, js[p]) + 1 == p
    ensures CountBelow(s, s[js[p]]) < p <= CountBelow(s, (s[js[p]] as int) + 1) == v[js[p]] <= |s|
  {
    hide RowOf, CountBelow;
    RowsOfPerm(s);
    var i := PermOnto(RowsOf(s), |s|, p - 1);
    assert js[RowOf(s, i) + 1] == i;
    RowWithin(s, i);
  }

  lemma BucketPerm(s: seq<Byte>, js: seq<int>, v: seq<int>)
    requires Bucketed(s, js, v)
    ensures IsPerm(js, |s| + 1)
  {
    hide RowOf;
    forall p | 0 <= p <= |s| ensures 0 <= js[p] <= |s| {
      if p > 0 { InBucket(s, js, v, p); }
    }
    forall p, q | 0 <= p < q <= |s| ensures js[p] != js[q] {
      InBucket(s, js, v, q);
      if p > 0 { InBucket(s, js, v, p); }
    }
  }

  /** Ranks compare as first bytes do. */
  lemma BucketCompare(s: seq<Byte>, js: seq<int>, v: seq<int>, p: int, q: int)
    requires Bucketed(s, js, v) && 1 <= p <= |s| && 1 <= q <= |s|
    ensures 0 <= js[p] < |s| && 0 <= js[q] < |s|
    ensures p <= q ==> v[js[p]] <= v[js[q]]
    ensures v[js[p]] < v[js[q]] ==> s[js[p]] < s[js[q]]
    ensures v[js[p]] == v[js[q]] ==> s[js[p]] == s[js[q]]
    ensures q == v[js[p]] ==> v[js[q]] == q
  {
    hide RowOf, CountBelow;
    InBucket(s, js, v, p);
    InBucket(s, js, v, q);
    var c: int, d: int := s[js[p]], s[js[q]];
    if c < d { CountBelowMono(s, c + 1, d); }
    if d < c { CountBelowMono(s, d + 1, c); }
  }

  lemma BucketRanked(s: seq<Byte>, js: seq<int>, v: seq<int>)
    requires Bucketed(s, js, v)
    ensures Ranked(s, js, v, 1)
  {
    hide RowOf, CountBelow;
    BucketPerm(s, js, v);
    BucketShape(s, js, v);
    forall p, q | 0 <= p < |js| && 0 <= q < |js| && v[js[p]] < v[js[q]] ensures Less(s, js[p], js[q]) {
      InBucket(s, js, v, q);
      if p > 0 { BucketCompare(s, js, v, p, q); }
    }
    forall p, q | 0 <= p < |js| && 0 <= q < |js| && p != q && v[js[p]] == v[js[q]] ensures Agree(s, js[p], js[q], 1) {
      if p > 0 { InBucket(s, js, v, p); }
      if q > 0 { InBucket(s, js, v, q); }
      BucketCompare(s, js, v, p, q);
      assert s[js[p]..js[p] + 1] == [s[js[p]]];
    }
  }

  lemma BucketShape(s: seq<Byte>, js: seq<int>, v: seq<int>)
    requires Bucketed(s, js, v) && IsPerm(js, |s| + 1)
    ensures Shape(s, js, v)
  {
    hide RowOf, CountBelow, Distinct;
    forall p | 0 <= p < |js| ensures p <= v[js[p]] <= |s| {
      if p > 0 { InBucket(s, js, v, p); }
    }
    forall p, q | 0 <= p < q < |js| ensures v[js[p]] <= v[js[q]] {
      if p > 0 { BucketCompare(s, js, v, p, q); }
    }
    forall p, e | 0 <= p < |js| && 0 <= e < |js| && e == v[js[p]] ensures v[js[e]] == e {
      if p > 0 { BucketCompare(s, js, v, p, e); }
    }
  }

  /** Every entry but the first lists its suffix, or is marked and stands alone in its bucket. */
  ghost predicate Marked(ix: seq<int>, js: seq<int>, v: seq<int>) {
    && |ix| == |js| == |v| && InRange(js, |js|)
    && forall p :: 1 <= p < |ix| ==>
      ix[p] == js[p] || (ix[p] == -1 && forall q :: 0 <= q < |js| ==> (v[js[q]] == p <==> q == p))
  }

  lemma {:induction false} MarkedRuns(s: seq<Byte>, ix: seq<int>, js: seq<int>, v: seq<int>, a: int)
    requires Shape(s, js, v) && Marked(ix, js, v) && 1 <= a <= |js|
    requires forall m :: 0 <= m < a ==> v[js[m]] < a
    ensures Runs(ix, js, v, a, |js|, false)
    decreases |js| - a
  {
    if a < |js| {
      if ix[a] < 0 {
        assert v[js[a]] == a;
        MarkedRuns(s, ix, js, v, a + 1);
      } else {
        MarkedGroup(s, ix, js, v, a, v[js[a]]);
        MarkedRuns(s, ix, js, v, v[js[a]] + 1);
      }
    }
  }

  lemma MarkedGroup(s: seq<Byte>, ix: seq<int>, js: seq<int>, v: seq<int>, a: int, g: int)
    requires Shape(s, js, v) && Marked(ix, js, v) && 1 <= a < |js| && ix[a] >= 0 && g == v[js[a]]
    requires forall m :: 0 <= m < a ==> v[js[m]] < a
    ensures a <= g < |js| && (forall m :: a <= m <= g ==> ix[m] == js[m])
    ensures forall m :: 0 <= m <= g ==> v[js[m]] < g + 1
  {
    hide Distinct;
    GroupOpen(s, js, v, a, g);
  }

  // ---------------------------------------------------------------- filling the buckets

  method CountBytes(buckets: array<nat>, old_: seq<Byte>)
    requires buckets.Length == 256
    modifies buckets
    ensures forall c :: 0 <= c < 256 ==> buckets[c] == CountBelow(old_, c)
  {
    hide Count, CountBelow;
    var i := 0;
    while i < 256
      invariant i <= 256
      invariant forall c :: 0 <= c < i ==> buckets[c] == 0
    {
      buckets[i] := 0;
      i := i + 1;
    }
    CountOfNone(old_);
    i := 0;
    while i < |old_|
      invariant i <= |old_|
      invariant forall c :: 0 <= c < 256 ==> buckets[c] == Count(old_[..i], c)
    {
      CountSteps(old_, i);
      buckets[old_[i]] := buckets[old_[i]] + 1;
      i := i + 1;
    }
    assert old_[..i] == old_;
    BelowSteps(old_);
    i := 1;
    while i < 256
      invariant 1 <= i <= 256
      invariant forall c :: 0 <= c < i ==> buckets[c] == CountBelow(old_, c + 1)
      invariant forall c :: i <= c < 256 ==> buckets[c] == Count(old_, c)
    {
      buckets[i] := buckets[i] + buckets[i - 1];
      i := i + 1;
    }
    i := 255;
    while i > 0
      invariant 0 <= i <= 255
      invariant forall c :: 0 <= c <= i ==> buckets[c] == CountBelow(old_, c + 1)
      invariant forall c :: i < c < 256 ==> buckets[c] == CountBelow(old_, c)
    {
      buckets[i] := buckets[i - 1];
      i := i - 1;
    }
    buckets[0] := 0;
  }

  lemma CountOfNone(s: seq<Byte>)
    ensures forall c :: 0 <= c < 256 ==> Count(s[..0], c) == 0
  {
  }

  lemma CountSteps(s: seq<Byte>, i: nat)
    requires i < |s|
    ensures forall c :: 0 <= c < 256 ==> Count(s[..i + 1], c) == Count(s[..i], c) + (if s[i] == c then 1 else 0)
  {
    assert s[..i + 1][..i] == s[..i];
  }

  lemma BelowSteps(s: seq<Byte>)
    ensures CountBelow(s, 0) == 0
    ensures forall c :: 0 <= c < 256 ==> CountBelow(s, c + 1) == CountBelow(s, c) + Count(s, c)
  {
  }

  /** Suffixes 0..i-1 are in their places. */
  ghost predicate Filled(ix: seq<int>, s: seq<Byte>, i: nat) {
    |ix| == |s| + 1 && i <= |s| && forall k :: 0 <= k < i ==> ix[RowOf(s, k) + 1] == k
  }

  lemma FillOne(ix: seq<int>, s: seq<Byte>, i: nat)
    requires Filled(ix, s, i) && i < |s|
    ensures Filled(ix[RowOf(s, i) + 1 := i], s, i + 1)
  {
    hide RowOf;
    forall k | 0 <= k < i ensures RowOf(s, k) != RowOf(s, i) { RowOfOrder(s, k, i); }
  }

  method FillBuckets(ix: array<int>, v: array<int>, buckets: array<nat>, old_: seq<Byte>)
    requires ix != v && ix.Length == v.Length == |old_| + 1 && buckets.Length == 256
    requires forall c :: 0 <= c < 256 ==> buckets[c] == CountBelow(old_, c)
    modifies ix, v, buckets
    ensures Bucketed(old_, ix[..], v[..])
    ensures forall c :: 0 <= c < 256 ==> buckets[c] == CountBelow(old_, c + 1)
  {
    hide Count, CountBelow, RowOf, Filled;
    CountOfNone(old_);
    FillNone(ix[..], old_);
    var i := 0;
    while i < |old_|
      invariant i <= |old_| && Filled(ix[..], old_, i)
      invariant forall c :: 0 <= c < 256 ==> buckets[c] == CountBelow(old_, c) + Count(old_[..i], c)
    {
      CountSteps(old_, i);
      RowOfIs(old_, i);
      FillOne(ix[..], old_, i);
      buckets[old_[i]] := buckets[old_[i]] + 1;
      ix[buckets[old_[i]]] := i;
      i := i + 1;
    }
    assert old_[..i] == old_;
    BelowSteps(old_);
    FillFirst(ix[..], old_);
    ix[0] := |old_|;
    FillRanks(v, buckets, old_);
    FilledBuckets(ix[..], v[..], old_);
  }

  lemma FilledBuckets(ix: seq<int>, v: seq<int>, s: seq<Byte>)
    requires |ix| == |v| == |s| + 1
    requires Filled(ix, s, |s|) && ix[0] == |s| && v[|s|] == 0
    requires forall i :: 0 <= i < |s| ==> v[i] == CountBelow(s, (s[i] as int) + 1)
    ensures Bucketed(s, ix, v)
  {
    hide RowOf, CountBelow;
  }

  method FillRanks(v: array<int>, buckets: array<nat>, old_: seq<Byte>)
    requires v.Length == |old_| + 1 && buckets.Length == 256
    requires forall c :: 0 <= c < 256 ==> buckets[c] == CountBelow(old_, c + 1)
    modifies v
    ensures v[|old_|] == 0 && forall i :: 0 <= i < |old_| ==> v[i] == CountBelow(old_, (old_[i] as int) + 1)
  {
    hide CountBelow;
    var i := 0;
    while i < |old_|
      invariant i <= |old_|
      invariant forall k :: 0 <= k < i ==> v[k] == CountBelow(old_, (old_[k] as int) + 1)
    {
      v[i] := buckets[old_[i]];
      i := i + 1;
    }
    v[|old_|] := 0;
  }

  lemma FillFirst(ix: seq<int>, s: seq<Byte>)
    requires Filled(ix, s, |s|)
    ensures Filled(ix[0 := |s|], s, |s|)
  {
    hide RowOf;
  }

  lemma FillNone(ix: seq<int>, s: seq<Byte>)
    requires |ix| == |s| + 1
    ensures Filled(ix, s, 0)
  {
  }

  lemma RowOfIs(s: seq<Byte>, i: nat)
    requires i < |s|
    ensures RowOf(s, i) == CountBelow(s, s[i]) + Count(s[..i], s[i])
  {
  }

  /** A bucket of one suffix. */
  lemma LoneBucket(s: seq<Byte>, js: seq<int>, v: seq<int>, c: nat, p: int)
    requires Bucketed(s, js, v) && IsPerm(js, |s| + 1) && 1 <= c < 256
    requires p == CountBelow(s, c + 1) == CountBelow(s, c) + 1 <= |s|
    ensures forall q :: 0 <= q < |js| ==> (v[js[q]] == p <==> q == p)
  {
    hide RowOf, CountBelow, Distinct;
    forall q | 0 <= q < |js| ensures v[js[q]] == p <==> q == p {
      if q > 0 {
        InBucket(s, js, v, q);
        var d: int := s[js[q]];
        if d < c { CountBelowMono(s, d + 1, c); }
        if d > c { CountBelowMono(s, c + 1, d); }
      }
    }
  }

  lemma BelowBounded(s: seq<Byte>, c: nat)
    requires c <= 256
    ensures CountBelow(s, c) <= |s|
  {
    CountBelowMono(s, c, 256);
    CountAll(s);
  }

  lemma MarkOne(ix: seq<int>, js: seq<int>, v: seq<int>, p: int)
    requires Marked(ix, js, v) && 1 <= p < |ix| && forall q :: 0 <= q < |js| ==> (v[js[q]] == p <==> q == p)
    ensures Marked(ix[p := -1], js, v)
  {
  }

  method MarkSingles(ix: array<int>, buckets: array<nat>, ghost s: seq<Byte>, ghost js: seq<int>, ghost v: seq<int>)
    requires buckets.Length == 256 && ix.Length == |s| + 1 && ix[..] == js && Bucketed(s, js, v) && Ranked(s, js, v, 1)
    requires forall c :: 0 <= c < 256 ==> buckets[c] == CountBelow(s, c + 1)
    modifies ix
    ensures Runs(ix[..], js, v, 0, |s| + 1, false) && CanSplit(s, js, ix[..], 1, false) && ix[0] == -1
  {
    hide CountBelow, Marked, Bucketed, Runs;
    AllListed(ix[..], js, v, s);
    var i := 1;
    while i < 256
      invariant 1 <= i <= 256 && Marked(ix[..], js, v)
    {
      BelowBounded(s, i + 1);
      if buckets[i] == buckets[i - 1] + 1 {
        LoneBucket(s, js, v, i, buckets[i]);
        MarkOne(ix[..], js, v, buckets[i]);
        ix[buckets[i]] := -1;
      }
      i := i + 1;
    }
    MarkFirst(s, ix[..], js, v);
    ix[0] := -1;
  }

  lemma AllListed(ix: seq<int>, js: seq<int>, v: seq<int>, s: seq<Byte>)
    requires ix == js && Ranked(s, js, v, 1)
    ensures Marked(ix, js, v) && IsPerm(js, |s| + 1)
  {
  }

  lemma MarkFirst(s: seq<Byte>, ix: seq<int>, js: seq<int>, v: seq<int>)
    requires Marked(ix, js, v) && Bucketed(s, js, v) && Ranked(s, js, v, 1)
    ensures Runs(ix[0 := -1], js, v, 0, |s| + 1, false) && CanSplit(s, js, ix[0 := -1], 1, false)
  {
    hide RowOf, CountBelow, Distinct, Ordered, Alike;
    var iy := ix[0 := -1];
    assert Marked(iy, js, v);
    MarkedRuns(s, iy, js, v, 1);
  }

  // ---------------------------------------------------------------- the whole sort

  /** Suffixes that agree on more bytes than there are do not exist: every group is a single one. */
  lemma LongAgreement(s: seq<Byte>, js: seq<int>, v: seq<int>, h: nat)
    requires Ranked(s, js, v, h) && h > |s|
    ensures AllSingle(js, v)
  {
    forall p | 0 <= p < |js| ensures v[js[p]] == p {
      var e := v[js[p]];
      NoLongAgreement(s, js[p], js[e], h);
    }
  }

  lemma NoLongAgreement(s: seq<Byte>, x: int, y: int, h: nat)
    requires h > |s|
    ensures !Agree(s, x, y, h)
  {
  }

  lemma WholeRun(ix: seq<int>, js: seq<int>, v: seq<int>, n: int, f: bool)
    requires Runs(ix, js, v, 0, n, f) && n == |js| >= 1 && ix[0] == -n
    ensures AllSingle(js, v)
  {
  }

  /** ix lists all suffixes of s in strictly increasing order. */
  ghost predicate SuffixArray(s: seq<Byte>, ix: seq<int>) {
    && IsPerm(ix, |s| + 1)
    && forall p, q :: 0 <= p < q <= |s| ==> Less(s, ix[p], ix[q])
  }

  lemma SinglesSorted(s: seq<Byte>, js: seq<int>, v: seq<int>, h: nat)
    requires Ranked(s, js, v, h) && AllSingle(js, v)
    ensures SuffixArray(s, js)
  {
    hide Alike, Distinct;
  }

  /** The ranks are inverted into the index. */
  method Invert(ix: array<int>, v: array<int>, ghost js: seq<int>)
    requires ix != v && ix.Length == v.Length == |js| && AllSingle(js, v[..]) && IsPerm(js, |js|)
    modifies ix
    ensures ix[..] == js
  {
    ghost var u := v[..];
    forall k | 0 <= k < |js| ensures 0 <= u[k] < |js| && js[u[k]] == k {
      var p := PermOnto(js, |js|, k);
    }
    var i := 0;
    while i < ix.Length
      invariant i <= ix.Length && v[..] == u
      invariant forall k :: 0 <= k < i ==> ix[u[k]] == k
    {
      ix[v[i]] := i;
      i := i + 1;
    }
    forall p | 0 <= p < |js| ensures ix[..][p] == js[p] {
      assert u[js[p]] == p;
    }
  }

  /** Sorting the suffixes of any byte string, the empty suffix included. */
  method QSufSort(ix: array<int>, v: array<int>, old_: seq<Byte>)
    requires ix != v && ix.Length == v.Length == |old_| + 1
    modifies ix, v
    ensures SuffixArray(old_, ix[..])
  {
    hide Bucketed, Ranked, Runs, CanSplit, AllSingle, IsPerm, CountBelow, SuffixArray;
    var n := |old_|;
    var buckets := new nat[256];
    CountBytes(buckets, old_);
    FillBuckets(ix, v, buckets, old_);
    ghost var js := ix[..];
    BucketRanked(old_, js, v[..]);
    MarkSingles(ix, buckets, old_, js, v[..]);
    var h := 1;
    ghost var f := false;
    while ix[0] != -(n + 1)
      invariant h >= 1 && (n == 0 ==> ix[0] == -1) && (h > 1 ==> f)
      invariant Ranked(old_, js, v[..], h) && Runs(ix[..], js, v[..], 0, n + 1, f) && CanSplit(old_, js, ix[..], h, f)
      decreases if h <= n then n + 2 - h else if ix[0] != -(n + 1) then 1 else 0
    {
      if h > n { LongAgreement(old_, js, v[..], h); }
      js := Round(ix, v, h, old_, js, f);
      h := h + h;
      f := true;
      MarkedCanSplit(old_, js, ix[..], h);
    }
    RankedLength(old_, js, v[..], h);
    WholeRun(ix[..], js, v[..], n + 1, f);
    SinglesSorted(old_, js, v[..], h);
    SortedPerm(old_, js);
    Invert(ix, v, js);
  }

  lemma MarkedCanSplit(s: seq<Byte>, js: seq<int>, ix: seq<int>, h: nat)
    ensures CanSplit(s, js, ix, h, true)
  {
  }

  lemma RankedLength(s: seq<Byte>, js: seq<int>, v: seq<int>, h: nat)
    requires Ranked(s, js, v, h)
    ensures |js| == |s| + 1
  {
  }

  lemma SortedPerm(s: seq<Byte>, js: seq<int>)
    requires SuffixArray(s, js)
    ensures IsPerm(js, |s| + 1) && |js| == |s| + 1
  {
  }
}
