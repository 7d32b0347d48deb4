/**
 * The index array during a round: unsplit groups list their suffixes, and runs of finished positions
 * are skipped by a negative length at their head.
 */
module SuffixRuns {
  import opened Bytes
  import opened Permutations
  import opened SuffixRanks

  /** [a, b) reads as runs and whole groups; with f set, no group of one is left unmarked. */
  ghost predicate Runs(ix: seq<int>, js: seq<int>, v: seq<int>, a: int, b: int, f: bool)
    decreases b - a
  {
    && 0 <= a <= b <= |ix| == |js| == |v| && InRange(js, |js|)
    && (a == b
      || (ix[a] < 0 && a - ix[a] <= b && (forall m :: a <= m < a - ix[a] ==> v[js[m]] == m)
          && Runs(ix, js, v, a - ix[a], b, f))
      || (ix[a] >= 0 && a <= v[js[a]] < b && (f ==> a < v[js[a]])
          && (forall m :: a <= m <= v[js[a]] ==> ix[m] == js[m]) && Runs(ix, js, v, v[js[a]] + 1, b, f)))
  }

  lemma {:induction false} RunsKept(ix: seq<int>, js: seq<int>, v: seq<int>, iy: seq<int>, t: seq<int>, u: seq<int>,
                                    a: int, b: int, f: bool)
    requires Runs(ix, js, v, a, b, f) && |iy| == |t| == |u| == |ix| && InRange(t, |t|)
    requires forall m :: a <= m < b ==> iy[m] == ix[m] && t[m] == js[m] && u[js[m]] == v[js[m]]
    ensures Runs(iy, t, u, a, b, f)
    decreases b - a
  {
    if a < b {
      if ix[a] < 0 {
        RunsKept(ix, js, v, iy, t, u, a - ix[a], b, f);
      } else {
        RunsKept(ix, js, v, iy, t, u, v[js[a]] + 1, b, f);
      }
    }
  }

  lemma {:induction false} RunsJoin(ix: seq<int>, js: seq<int>, v: seq<int>, a: int, b: int, c: int, f: bool)
    requires Runs(ix, js, v, a, b, f) && Runs(ix, js, v, b, c, f)
    ensures Runs(ix, js, v, a, c, f)
    decreases b - a
  {
    if a < b {
      if ix[a] < 0 {
        RunsJoin(ix, js, v, a - ix[a], b, c, f);
      } else {
        RunsJoin(ix, js, v, v[js[a]] + 1, b, c, f);
      }
    }
  }

  ghost predicate Listed(ix: seq<int>, js: seq<int>, a: int, b: int) {
    0 <= a <= b <= |ix| == |js| && forall m :: a <= m < b ==> ix[m] == js[m]
  }

  ghost predicate Beyond(ix: seq<int>, iy: seq<int>, a: int, b: int) {
    |ix| == |iy| && forall m :: 0 <= m < |ix| && !(a <= m < b) ==> iy[m] == ix[m]
  }

  /** The parts of a state: where each suffix stands, its rank, and the index array. */
  datatype State = State(js: seq<int>, v: seq<int>, ix: seq<int>)

  /** Between `was` and `now`, positions a..c-1 of the part [a, b) have been split by 2h bytes. */
  ghost predicate Progress(s: seq<Byte>, was: State, now: State, h: nat, a: int, c: int, b: int, e: int) {
    && a <= c && Splitting(s, now.js, now.v, h, c, b, e)
    && Outside(was.js, was.v, now.js, now.v, a, b) && Beyond(was.ix, now.ix, a, b)
    && Listed(now.ix, now.js, c, b)
    && Runs(now.ix, now.js, now.v, a, c, true) && Done(s, now.js, now.v, a, c, 2 * h)
  }

  lemma ProgressStart(s: seq<Byte>, st: State, h: nat, a: int, b: int, e: int)
    requires Splitting(s, st.js, st.v, h, a, b, e) && Listed(st.ix, st.js, a, b)
    ensures Progress(s, st, st, h, a, a, b, e)
  {
  }

  lemma ProgressReads(s: seq<Byte>, was: State, now: State, h: nat, a: int, c: int, b: int, e: int)
    requires Progress(s, was, now, h, a, c, b, e)
    ensures 0 <= a <= c <= b <= e + 1 <= |now.ix| == |now.js| == |now.v| == |s| + 1
    ensures forall m :: c <= m < b ==> now.ix[m] == now.js[m] && 0 <= now.js[m] && now.js[m] + h <= |s|
  {
  }

  ghost function SwapState(st: State, i: int, j: int): State
    requires 0 <= i < |st.js| == |st.ix| && 0 <= j < |st.js|
  {
    State(Swapped(st.js, i, j), st.v, Swapped(st.ix, i, j))
  }

  lemma ProgressSwap(s: seq<Byte>, was: State, now: State, h: nat, a: int, c: int, b: int, e: int, i: int, j: int)
    requires Progress(s, was, now, h, a, c, b, e) && c <= i < b && c <= j < b
    ensures Progress(s, was, SwapState(now, i, j), h, a, c, b, e)
  {
    hide Ranked, Runs;
    var t := Swapped(now.js, i, j);
    SwapSplitting(s, now.js, now.v, h, c, b, e, i, j);
    SwapOutside(was.js, was.v, now.js, now.v, a, b, i, j);
    SwapSettled(s, now, h, a, c, b, e, i, j);
  }

  lemma SwapOutside(js: seq<int>, v: seq<int>, t: seq<int>, u: seq<int>, a: int, b: int, i: int, j: int)
    requires Outside(js, v, t, u, a, b) && 0 <= a <= i < b <= |t| && a <= j < b
    ensures Outside(js, v, Swapped(t, i, j), u, a, b)
  {
  }

  lemma SwapSettled(s: seq<Byte>, now: State, h: nat, a: int, c: int, b: int, e: int, i: int, j: int)
    requires Splitting(s, now.js, now.v, h, c, b, e) && |now.ix| == |now.js| && a <= c <= i < b && c <= j < b
    requires Runs(now.ix, now.js, now.v, a, c, true) && Done(s, now.js, now.v, a, c, 2 * h)
    ensures Runs(Swapped(now.ix, i, j), Swapped(now.js, i, j), now.v, a, c, true)
    ensures Done(s, Swapped(now.js, i, j), now.v, a, c, 2 * h)
  {
    SwapSplitting(s, now.js, now.v, h, c, b, e, i, j);
    var t := Swapped(now.js, i, j);
    assert Shape(s, t, now.v);
    RunsKept(now.ix, now.js, now.v, Swapped(now.ix, i, j), t, now.v, a, c, true);
    SwapOutside(now.js, now.v, now.js, now.v, c, b, i, j);
    DoneKept(s, now.js, now.v, t, now.v, a, c, c, b, 2 * h);
  }

  /** No rank is below its position, and no rank before c reaches c. */
  ghost predicate Ends(js: seq<int>, v: seq<int>, c: int) {
    && |js| == |v| && InRange(js, |js|)
    && (forall m :: 0 <= m < |js| ==> v[js[m]] >= m) && (forall m :: 0 <= m < |js| && m < c ==> v[js[m]] < c)
  }

  lemma EndsAt(s: seq<Byte>, js: seq<int>, v: seq<int>, h: nat, c: int, b: int, e: int)
    requires Splitting(s, js, v, h, c, b, e)
    ensures |js| == |v| && InRange(js, |js|) && Ends(js, v, c) && Shape(s, js, v) && Open(js, v, c, e)
  {
  }

  lemma RanksAtLeast(s: seq<Byte>, js: seq<int>, v: seq<int>, h: nat, c: int, b: int, e: int)
    requires Splitting(s, js, v, h, c, b, e)
    ensures |js| == |v| && InRange(js, |js|) && (forall m :: 0 <= m < |js| ==> v[js[m]] >= m)
    ensures (forall m :: 0 <= m < c ==> v[js[m]] < c) && Shape(s, js, v) && Open(js, v, c, e)
  {
  }

  lemma StampOutside(js: seq<int>, v: seq<int>, t: seq<int>, w: seq<int>, u: seq<int>, a: int, b: int, c: int, g: int)
    requires Outside(js, v, t, w, a, b) && Stamped(t, w, u, c, g) && a <= c && g < b
    ensures Outside(js, v, t, u, a, b) && Outside(t, w, t, u, c, g + 1)
  {
  }

  lemma StampRuns(was: State, now: State, u: seq<int>, iy: seq<int>, a: int, c: int, g: int, b: int)
    requires a <= c && Beyond(was.ix, now.ix, a, b) && Listed(now.ix, now.js, c, b) && InRange(now.js, |now.js|) && c <= g < b
    requires Stamped(now.js, now.v, u, c, g) && iy == if g == c then now.ix[c := -1] else now.ix
    ensures Runs(iy, now.js, u, c, g + 1, true) && Listed(iy, now.js, g + 1, b)
    ensures Beyond(was.ix, iy, a, b) && Beyond(now.ix, iy, c, g + 1) && |iy| == |now.js|
  {
    if g == c {
      assert Runs(iy, now.js, u, c + 1, c + 1, true);
    } else {
      assert Runs(iy, now.js, u, g + 1, g + 1, true);
    }
  }

  /** Giving positions c..g their own rank moves the split on past them. */
  lemma ProgressStamp(s: seq<Byte>, was: State, now: State, u: seq<int>, iy: seq<int>, h: nat,
                      a: int, c: int, g: int, b: int, e: int)
    requires Progress(s, was, now, h, a, c, b, e) && c <= g < b
    requires Same(s, now.js, c, g + 1, 2 * h) && Before(s, now.js, c, g + 1, e + 1)
    requires Stamped(now.js, now.v, u, c, g) && iy == if g == c then now.ix[c := -1] else now.ix
    ensures Progress(s, was, State(now.js, u, iy), h, a, g + 1, b, e)
  {
    hide Runs, Stamped, Same, Done, Shape, Before, Open, Splitting, Outside, Listed, Beyond, InRange, Ends;
    EndsAt(s, now.js, now.v, h, c, b, e);
    StampSplitting(s, now.js, now.v, u, h, c, g, b, e);
    EndsAt(s, now.js, u, h, g + 1, b, e);
    StampOutside(was.js, was.v, now.js, now.v, u, a, b, c, g);
    StampRuns(was, now, u, iy, a, c, g, b);
    StampDone(s, now.js, now.v, u, c, g, e, 2 * h);
    Settled(s, now, State(now.js, u, iy), h, a, c, g + 1);
  }

  /** What is split further on leaves the settled part alone and adds to it. */
  lemma Settled(s: seq<Byte>, now: State, next: State, h: nat, a: int, c: int, d: int)
    requires Runs(now.ix, now.js, now.v, a, c, true) && Done(s, now.js, now.v, a, c, 2 * h)
    requires Ends(now.js, now.v, c) && Ends(next.js, next.v, d) && c <= d
    requires Outside(now.js, now.v, next.js, next.v, c, d) && Beyond(now.ix, next.ix, c, d)
    requires |next.ix| == |next.js|
    requires Runs(next.ix, next.js, next.v, c, d, true) && Done(s, next.js, next.v, c, d, 2 * h)
    ensures Runs(next.ix, next.js, next.v, a, d, true) && Done(s, next.js, next.v, a, d, 2 * h)
  {
    DoneKept(s, now.js, now.v, next.js, next.v, a, c, c, d, 2 * h);
    RunsKept(now.ix, now.js, now.v, next.ix, next.js, next.v, a, c, true);
    RunsJoin(next.ix, next.js, next.v, a, c, d, true);
    DoneJoin(s, next.js, next.v, a, c, d, 2 * h);
  }

  /** A split of [c, d) is progress of the split of [a, b) up to d. */
  lemma ProgressDeeper(s: seq<Byte>, was: State, now: State, next: State, h: nat, a: int, c: int, d: int, b: int, e: int)
    requires Progress(s, was, now, h, a, c, b, e) && c <= d <= b && Progress(s, now, next, h, c, d, d, e)
    ensures Progress(s, was, next, h, a, d, b, e)
  {
    hide Runs, Done, Shape, Before, Ordered, Alike, Ends;
    EndsAt(s, now.js, now.v, h, c, b, e);
    EndsAt(s, next.js, next.v, h, d, d, e);
    SplittingRest(s, now.js, now.v, next.js, next.v, h, c, d, b, e);
    hide Splitting, Open;
    Settled(s, now, next, h, a, c, d);
  }
}
