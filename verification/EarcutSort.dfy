/** The merge sort of earcut's z-list, which relinks the nodes in place. */
module EarcutSort {
  import opened Permutations
  import opened EarcutNodes

  function Least(a: nat, b: nat): nat { if a < b then a else b }

  ghost predicate RestAt(l: seq<Node>, k: nat)
    requires k < |l|
    reads l`nextZ
  {
    l[k].nextZ == NodeAt(l, k + 1)
  }

  /** What is left of both runs, and all behind them, is still linked as it was. */
  ghost predicate Rest(l: seq<Node>, i: nat, e: nat, j: nat)
    reads l`nextZ
  {
    forall k {:trigger RestAt(l, k)} :: 0 <= k < |l| && (i <= k < e || j <= k) ==> RestAt(l, k)
  }

  ghost predicate OutputAt(out: seq<Node>, k: nat)
    requires k < |out|
    reads out`prevZ, out`nextZ
  {
    out[k].prevZ == NodeAt(out, k - 1) && (k + 1 < |out| ==> out[k].nextZ == out[k + 1])
  }

  /** The output is linked, up to its last node's next. */
  ghost predicate Output(out: seq<Node>)
    reads out`prevZ, out`nextZ
  {
    forall k {:trigger OutputAt(out, k)} :: 0 <= k < |out| ==> OutputAt(out, k)
  }

  /** The runs from i to e and from e to f are being merged; i and j are the next nodes of each. */
  ghost predicate Merging(l: seq<Node>, i: nat, e: nat, j: nat, out: seq<Node>)
    reads l`prevZ, l`nextZ, out`prevZ, out`nextZ
  {
    && i <= e <= j <= |l| && Distinct(l) && Rest(l, i, e, j) && Output(out)
    && multiset(out) == multiset(l[..i]) + multiset(l[e..j])
  }

  /** The z-orders of the nodes, which sorting leaves alone. */
  ghost predicate Keys(l: seq<Node>, key: map<Node, int>)
    reads l`z
  {
    forall p :: p in l ==> p in key && key[p] == p.z
  }

  ghost predicate Known(s: seq<Node>, key: map<Node, int>) {
    forall k :: 0 <= k < |s| ==> s[k] in key
  }

  ghost predicate SortedBy(s: seq<Node>, a: nat, b: nat, key: map<Node, int>)
    requires Known(s, key)
  {
    forall j, k :: a <= j < k < b && k < |s| ==> key[s[j]] <= key[s[k]]
  }

  /** What was merged since place o is in order, and no more than what is left of both runs. */
  ghost predicate Ordered(l: seq<Node>, i: nat, e: nat, j: nat, f: nat, out: seq<Node>, o: nat, key: map<Node, int>) {
    && Known(l, key) && Known(out, key) && SortedBy(out, o, |out|, key)
    && SortedBy(l, i, e, key) && SortedBy(l, j, f, key)
    && forall x, k :: o <= x < |out| && 0 <= k < |l| && (i <= k < e || j <= k < f) ==> key[out[x]] <= key[l[k]]
  }

  /** Nothing of the output is left to be merged. */
  lemma OutputApart(l: seq<Node>, i: nat, e: nat, j: nat, out: seq<Node>, k: nat)
    requires Merging(l, i, e, j, out) && k < |l| && (i <= k < e || j <= k)
    ensures l[k] !in out && |out| == i + (j - e)
    ensures forall p :: p in out ==> p in l
  {
    forall p | p in out ensures p in l && p != l[k] {
      assert p in multiset(out);
      if p in l[..i] { assert p in l; } else { assert p in multiset(l[e..j]) && p in l[e..j]; }
    }
    assert |multiset(out)| == |out|;
  }

  /** One more node is linked to the output: the first left of either run. */
  method Append(n: Node, tail: Node?, list: Node?, ghost l: seq<Node>, ghost i: nat, ghost e: nat, ghost j: nat, ghost out: seq<Node>,
                ghost first: bool)
    returns (list2: Node?)
    requires Merging(l, i, e, j, out) && (if first then i < e && n == l[i] else j < |l| && n == l[j])
    requires tail == NodeAt(out, |out| - 1) && list == NodeAt(out, 0)
    modifies l`prevZ, l`nextZ
    ensures Merging(l, if first then i + 1 else i, e, if first then j else j + 1, out + [n])
    ensures list2 == NodeAt(out + [n], 0) && n == NodeAt(out + [n], |out|)
  {
    hide Distinct;
    list2 := list;
    RestApart(l, i, e, j, out, first);
    AppendCounts(l, i, e, j, out, first);
    OutDistinct(l, i, e, j, out);
    ghost var i2: nat, j2: nat := if first then i + 1 else i, if first then j else j + 1;
    assert tail != null ==> tail in out;
    if tail != null { tail.nextZ := n; } else { list2 := n; }
    n.prevZ := tail;
    forall k: nat | k < |l| && (i2 <= k < e || j2 <= k) ensures RestAt(l, k) {
      assert old(RestAt(l, k)) && l[k] != tail;
    }
    forall k: nat | k < |out| + 1 ensures OutputAt(out + [n], k) {
      if k < |out| { assert (out + [n])[k] == out[k] && old(OutputAt(out, k)); }
    }
  }

  ghost predicate LastApart(out: seq<Node>) {
    forall k :: 0 <= k < |out| - 1 ==> out[k] != out[|out| - 1]
  }

  lemma FourParts(l: seq<Node>, i: nat, e: nat, j: nat)
    requires i <= e <= j <= |l|
    ensures l == l[..i] + l[i..e] + l[e..j] + l[j..]
  {
    assert l == l[..i] + l[i..];
    assert l[i..] == l[i..e] + l[e..];
    assert l[e..] == l[e..j] + l[j..];
  }

  lemma OutDistinct(l: seq<Node>, i: nat, e: nat, j: nat, out: seq<Node>)
    requires Merging(l, i, e, j, out)
    ensures LastApart(out) && Distinct(out) && forall p :: p in out ==> p in l
  {
    forall p: Node ensures multiset(out)[p] <= 1 {
      DistinctCounts(l, p);
      FourParts(l, i, e, j);
    }
    CountsDistinct(out);
    forall p | p in out ensures p in l {
      assert p in multiset(out);
      assert p in multiset(l[..i]) || p in multiset(l[e..j]);
    }
  }

  lemma RestApart(l: seq<Node>, i: nat, e: nat, j: nat, out: seq<Node>, first: bool)
    requires Merging(l, i, e, j, out) && (if first then i < e else j < |l|)
    ensures forall k :: 0 <= k < |l| && (i <= k < e || j <= k) ==> l[k] !in out
    ensures Distinct(l) && i <= e <= j <= |l|
  {
    forall k | 0 <= k < |l| && (i <= k < e || j <= k) ensures l[k] !in out { OutputApart(l, i, e, j, out, k); }
  }

  lemma AppendCounts(l: seq<Node>, i: nat, e: nat, j: nat, out: seq<Node>, first: bool)
    requires i <= e <= j <= |l| && multiset(out) == multiset(l[..i]) + multiset(l[e..j]) && (if first then i < e else j < |l|)
    ensures first ==> multiset(out + [l[i]]) == multiset(l[..i + 1]) + multiset(l[e..j])
    ensures !first ==> multiset(out + [l[j]]) == multiset(l[..i]) + multiset(l[e..j + 1])
  {
    if first { assert l[..i + 1] == l[..i] + [l[i]]; } else { assert l[e..j + 1] == l[e..j] + [l[j]]; }
  }

  /** The order when the smaller of the next nodes is appended. */
  lemma OrderedMore(l: seq<Node>, i: nat, e: nat, j: nat, f: nat, out: seq<Node>, o: nat, key: map<Node, int>, first: bool)
    requires Ordered(l, i, e, j, f, out, o, key) && i <= e <= j <= f <= |l| && o <= |out|
    requires if first then i < e && (j < f ==> key[l[i]] <= key[l[j]]) else j < f && (i < e ==> key[l[j]] <= key[l[i]])
    ensures Ordered(l, if first then i + 1 else i, e, if first then j else j + 1, f, out + [l[if first then i else j]], o, key)
  {
    var n := l[if first then i else j];
    var out2 := out + [n];
    forall x, k | o <= x < k < |out2| ensures key[out2[x]] <= key[out2[k]] {
      if k == |out| { assert out2[x] == out[x]; }
    }
  }

  /** Two runs are merged to the end of the output. */
  /** The next node of one of the two runs goes to the end of the merged list. */
  method TakeNext(n: Node, tail0: Node?, list0: Node?, ghost l: seq<Node>, ghost o: nat, ghost i: nat, ghost e: nat, ghost j: nat,
                  ghost f: nat, ghost out0: seq<Node>, ghost key: map<Node, int>, ghost first: bool)
    returns (tail: Node?, list: Node?, ghost out: seq<Node>)
    requires Merging(l, i, e, j, out0) && i <= e <= j <= f <= |l| && o <= |out0| && Keys(l, key)
    requires Ordered(l, i, e, j, f, out0, o, key) && Known(l, key)
    requires if first then i < e && n == l[i] && (j < f ==> key[l[i]] <= key[l[j]])
             else j < f && n == l[j] && (i < e ==> key[l[j]] <= key[l[i]])
    requires tail0 == NodeAt(out0, |out0| - 1) && list0 == NodeAt(out0, 0)
    modifies l`prevZ, l`nextZ
    ensures out == out0 + [n] && Keys(l, key) && tail == NodeAt(out, |out| - 1) && list == NodeAt(out, 0)
    ensures Merging(l, if first then i + 1 else i, e, if first then j else j + 1, out)
    ensures Ordered(l, if first then i + 1 else i, e, if first then j else j + 1, f, out, o, key)
  {
    hide Merging, Ordered, Known;
    OrderedMore(l, i, e, j, f, out0, o, key, first);
    list := Append(n, tail0, list0, l, i, e, j, out0, first);
    tail, out := n, out0 + [n];
  }

  method MergeRuns(p0: Node?, q0: Node?, pSize0: nat, qSize0: nat, tail0: Node?, list0: Node?,
                   ghost l: seq<Node>, ghost i0: nat, ghost e: nat, ghost f: nat, ghost out0: seq<Node>, ghost key: map<Node, int>)
    returns (q: Node?, tail: Node?, list: Node?, ghost out: seq<Node>)
    requires Merging(l, i0, e, e, out0) && i0 + pSize0 == e && f == Least(e + qSize0, |l|) && e <= |l|
    requires p0 == NodeAt(l, i0) && q0 == NodeAt(l, e) && tail0 == NodeAt(out0, |out0| - 1) && list0 == NodeAt(out0, 0)
    requires Keys(l, key) && Known(l, key) && SortedBy(l, i0, e, key) && SortedBy(l, e, f, key) && Known(out0, key)
    modifies l`prevZ, l`nextZ
    ensures Merging(l, f, f, f, out) && |out| == f && |out0| == i0 && |out0| <= |out| && out[..i0] == out0
    ensures q == NodeAt(l, f) && tail == NodeAt(out, |out| - 1) && list == NodeAt(out, 0)
    ensures Keys(l, key) && Known(out, key) && SortedBy(out, i0, f, key)
  {
    hide Merging, Ordered, SortedBy, Keys;
    var p, pSize, qSize := p0, pSize0, qSize0;
    q, tail, list, out := q0, tail0, list0, out0;
    ghost var i: nat, j: nat := i0, e;
    Sizes(l, i, e, j, out);
    OrderedStart(l, i, e, j, f, out, key);
    while pSize > 0 || (qSize > 0 && q != null)
      invariant Merging(l, i, e, j, out) && i0 <= i <= e <= j <= f <= |l| && f == Least(j + qSize, |l|) && pSize == e - i
      invariant (i < e ==> p == NodeAt(l, i)) && q == NodeAt(l, j) && tail == NodeAt(out, |out| - 1) && list == NodeAt(out, 0)
      invariant |out| == i + (j - e) && |out0| == i0 <= |out| && out[..i0] == out0
      invariant Ordered(l, i, e, j, f, out, i0, key) && Keys(l, key)
      decreases pSize + (f - j)
    {
      MergeLinks(l, i, e, j, out, key);
      if pSize != 0 && (qSize == 0 || q == null || p.z <= q.z) {
        var n := p;
        p := p.nextZ;
        pSize := pSize - 1;
        tail, list, out := TakeNext(n, tail, list, l, i0, i, e, j, f, out, key, true);
        i := i + 1;
      } else {
        var n := q;
        q := q.nextZ;
        qSize := qSize - 1;
        tail, list, out := TakeNext(n, tail, list, l, i0, i, e, j, f, out, key, false);
        j := j + 1;
      }
    }
    MergeEnd(l, e, f, out, i0, key);
  }

  lemma Sizes(l: seq<Node>, i: nat, e: nat, j: nat, out: seq<Node>)
    requires Merging(l, i, e, j, out)
    ensures |out| == i + (j - e) && j <= |l|
  {
    assert |multiset(out)| == |out|;
    assert |multiset(l[..i])| == i && |multiset(l[e..j])| == j - e;
  }

  lemma OrderedStart(l: seq<Node>, i: nat, e: nat, j: nat, f: nat, out: seq<Node>, key: map<Node, int>)
    requires |out| == i && Known(l, key) && Known(out, key) && SortedBy(l, i, e, key) && SortedBy(l, j, f, key)
    ensures Ordered(l, i, e, j, f, out, i, key)
  {
  }

  lemma MergeLinks(l: seq<Node>, i: nat, e: nat, j: nat, out: seq<Node>, key: map<Node, int>)
    requires Merging(l, i, e, j, out) && Keys(l, key)
    ensures i < e ==> l[i].nextZ == NodeAt(l, i + 1) && l[i] in key && key[l[i]] == l[i].z
    ensures j < |l| ==> l[j].nextZ == NodeAt(l, j + 1) && l[j] in key && key[l[j]] == l[j].z
  {
    if i < e { assert RestAt(l, i); }
    if j < |l| { assert RestAt(l, j); }
  }

  lemma MergeEnd(l: seq<Node>, e: nat, f: nat, out: seq<Node>, o: nat, key: map<Node, int>)
    requires Merging(l, e, e, f, out) && f <= |l| && Ordered(l, e, e, f, f, out, o, key)
    ensures Merging(l, f, f, f, out) && Known(out, key) && SortedBy(out, o, |out|, key)
  {
    assert l[..f] == l[..e] + l[e..f];
    assert l[f..f] == [];
  }

  // ---------------------------------------------------------------- one pass

  /** Where run m of k nodes begins. */
  function Start(m: nat, k: nat): (s: nat) { m * k }

  lemma Starts(m: nat, k: nat)
    ensures Start(0, k) == 0 && Start(m + 1, k) == Start(m, k) + k
    ensures Start(2 * m, k) == Start(m, 2 * k) && Start(2 * m + 1, k) == Start(m, 2 * k) + k
    ensures m >= 1 ==> Start(m, k) >= k
  {
    assert m >= 1 ==> m * k == (m - 1) * k + k;
  }

  /** Runs of k nodes are in order. */
  ghost predicate RunsOk(s: seq<Node>, k: nat, key: map<Node, int>)
    requires Known(s, key)
  {
    forall m: nat {:trigger Start(m, k)} :: SortedBy(s, Start(m, k), Start(m, k) + k, key)
  }

  /** The node inSize places on, or the end of the list, and how many nodes that is. */
  method SkipRun(p: Node, inSize: nat, ghost l: seq<Node>, ghost i0: nat, ghost out: seq<Node>) returns (q: Node?, pSize: nat)
    requires Merging(l, i0, i0, i0, out) && i0 < |l| && p == l[i0] && inSize >= 1
    ensures pSize == Least(i0 + inSize, |l|) - i0 && q == NodeAt(l, i0 + pSize)
  {
    q, pSize := p, 0;
    var i := 0;
    while i < inSize
      invariant 0 <= i <= inSize && pSize == i && i0 + pSize <= |l| && q == NodeAt(l, i0 + pSize) && q != null
    {
      pSize := pSize + 1;
      assert RestAt(l, i0 + pSize - 1);
      q := q.nextZ;
      if q == null { break; }
      i := i + 1;
    }
  }

  /** The state between two merges: t runs of 2 k nodes are done. */
  ghost predicate Passing(l: seq<Node>, i: nat, out: seq<Node>, t: nat, k: nat, key: map<Node, int>)
    reads l`prevZ, l`nextZ, out`prevZ, out`nextZ
  {
    Merging(l, i, i, i, out) && |out| == i == Least(Start(t, 2 * k), |l|) && Known(out, key) && RunsOk(out, 2 * k, key)
  }

  lemma PassingMore(l: seq<Node>, i: nat, out: seq<Node>, t: nat, k: nat, key: map<Node, int>, f: nat, out2: seq<Node>)
    requires |out| == i == Start(t, 2 * k) && i < |l| && f == Least(i + 2 * k, |l|) && |out2| == f && out2[..i] == out
    requires Known(out2, key) && Known(out, key) && RunsOk(out, 2 * k, key) && SortedBy(out2, i, f, key)
    ensures f == Least(Start(t + 1, 2 * k), |l|) && RunsOk(out2, 2 * k, key)
  {
    Starts(t, 2 * k);
    forall m: nat ensures SortedBy(out2, Start(m, 2 * k), Start(m, 2 * k) + 2 * k, key) {
      if m < t {
        StartsRise(m, t, 2 * k);
        forall x, y | Start(m, 2 * k) <= x < y < Start(m, 2 * k) + 2 * k && y < |out2| ensures key[out2[x]] <= key[out2[y]] {
          assert out2[x] == out2[..i][x] && out2[y] == out2[..i][y];
        }
      } else if m > t {
        StartsRise(t, m, 2 * k);
      }
    }
  }

  lemma StartsRise(m: nat, t: nat, k: nat)
    requires m < t
    ensures Start(m, k) + k <= Start(t, k)
  {
    assert t * k - m * k == (t - m) * k;
    assert (t - m) * k == (t - m - 1) * k + k;
  }

  /** Two more runs are merged. */
  method MergePair(p: Node, inSize: nat, tail0: Node?, head0: Node?, ghost l: seq<Node>, ghost i: nat, ghost out0: seq<Node>,
                   ghost t: nat, ghost key: map<Node, int>)
    returns (q: Node?, tail: Node?, head: Node?, ghost f: nat, ghost out: seq<Node>)
    requires Passing(l, i, out0, t, inSize, key) && i < |l| && inSize >= 1 && p == l[i]
    requires tail0 == NodeAt(out0, |out0| - 1) && head0 == NodeAt(out0, 0)
    requires Keys(l, key) && Known(l, key) && RunsOk(l, inSize, key)
    modifies l`prevZ, l`nextZ
    ensures Passing(l, f, out, t + 1, inSize, key) && i < f <= |l| && Keys(l, key)
    ensures q == NodeAt(l, f) && tail == NodeAt(out, |out| - 1) && head == NodeAt(out, 0)
  {
    hide Merging, SortedBy, Keys, RunsOk, Start, Known;
    var pSize;
    q, pSize := SkipRun(p, inSize, l, i, out0);
    PassRuns(l, i, t, inSize, key);
    ghost var e := i + pSize;
    f := Least(e + inSize, |l|);
    PassMerging(l, i, e, out0);
    q, tail, head, out := MergeRuns(p, q, pSize, inSize, tail0, head0, l, i, e, f, out0, key);
    PassingMore(l, i, out0, t, inSize, key, f, out);
  }

  /** Pairs of runs are merged; the list is then in runs of twice the length. */
  method MergePass(list0: Node, inSize: nat, ghost l: seq<Node>, ghost key: map<Node, int>)
    returns (list: Node, numMerges: nat, ghost out: seq<Node>)
    requires |l| >= 1 && list0 == l[0] && Distinct(l) && Rest(l, 0, 0, 0) && inSize >= 1
    requires Keys(l, key) && Known(l, key) && RunsOk(l, inSize, key)
    modifies l`prevZ, l`nextZ
    ensures ZList(out) && SameNodes(l, out) && list == NodeAt(out, 0) && Keys(l, key) && Known(out, key)
    ensures RunsOk(out, 2 * inSize, key)
    ensures numMerges > 1 <==> |l| > 2 * inSize
  {
    hide Passing, Keys, RunsOk, Start, Known, Rest;
    var p: Node?, head: Node?, tail: Node? := list0, null, null;
    numMerges, out := 0, [];
    ghost var i: nat := 0;
    Starts(0, 2 * inSize);
    PassStart(l, key, inSize);
    while p != null
      invariant Passing(l, i, out, numMerges, inSize, key) && i <= |l| && Keys(l, key)
      invariant p == NodeAt(l, i) && tail == NodeAt(out, |out| - 1) && head == NodeAt(out, 0)
      invariant numMerges > 1 ==> 2 * inSize < |l|
      decreases |l| - i
    {
      PassCount(l, i, out, numMerges, inSize, key);
      p, tail, head, i, out := MergePair(p, inSize, tail, head, l, i, out, numMerges, key);
      numMerges := numMerges + 1;
    }
    PassEnd(l, i, out, numMerges, inSize, key);
    label Done:
    tail.nextZ := null;
    forall k: nat | k < |out| ensures ZListAt(out, k) {
      assert old@Done(OutputAt(out, k));
    }
    list := head;
  }

  lemma PassCount(l: seq<Node>, i: nat, out: seq<Node>, t: nat, k: nat, key: map<Node, int>)
    requires Passing(l, i, out, t, k, key) && i < |l|
    ensures t >= 1 ==> 2 * k < |l|
  {
    Starts(t, 2 * k);
  }

  lemma PassStart(l: seq<Node>, key: map<Node, int>, k: nat)
    requires Rest(l, 0, 0, 0) && Distinct(l) && Start(0, 2 * k) == 0
    ensures Passing(l, 0, [], 0, k, key)
  {
  }

  lemma PassRuns(l: seq<Node>, i: nat, t: nat, k: nat, key: map<Node, int>)
    requires Known(l, key) && RunsOk(l, k, key) && i == Start(t, 2 * k)
    ensures SortedBy(l, i, Least(i + k, |l|), key) && SortedBy(l, Least(i + k, |l|), Least(Least(i + k, |l|) + k, |l|), key)
  {
    Starts(t, k);
    assert SortedBy(l, Start(2 * t, k), Start(2 * t, k) + k, key);
    assert SortedBy(l, Start(2 * t + 1, k), Start(2 * t + 1, k) + k, key);
  }

  lemma PassMerging(l: seq<Node>, i: nat, e: nat, out: seq<Node>)
    requires Merging(l, i, i, i, out) && i <= e <= |l|
    ensures Merging(l, i, e, e, out)
  {
    assert l[i..i] == [] && l[e..e] == [];
  }

  lemma PassEnd(l: seq<Node>, i: nat, out: seq<Node>, t: nat, k: nat, key: map<Node, int>)
    requires Passing(l, i, out, t, k, key) && i == |l| >= 1
    ensures |out| == |l| && SameNodes(l, out) && Distinct(out) && Output(out) && RunsOk(out, 2 * k, key) && Known(out, key)
    ensures t <= 1 ==> |l| <= 2 * k
    ensures out[|out| - 1] in l
  {
    hide RunsOk, Output, Known;
    OutDistinct(l, i, i, i, out);
    AllOut(l, i, out);
    FewRuns(l, t, k);
  }

  lemma AllOut(l: seq<Node>, i: nat, out: seq<Node>)
    requires Merging(l, i, i, i, out) && i == |l| == |out|
    ensures SameNodes(l, out)
  {
    assert l[..i] == l && l[i..i] == [];
  }

  lemma FewRuns(l: seq<Node>, t: nat, k: nat)
    requires Least(Start(t, 2 * k), |l|) == |l|
    ensures t <= 1 ==> |l| <= 2 * k
  {
    Starts(0, 2 * k);
  }

  // ---------------------------------------------------------------- the sort

  lemma ListIsRest(s: seq<Node>)
    requires ZList(s)
    ensures Rest(s, 0, 0, 0)
  {
    forall k: nat | k < |s| ensures RestAt(s, k) { assert ZListAt(s, k); }
  }

  lemma RunsOfOne(s: seq<Node>, key: map<Node, int>)
    requires Known(s, key)
    ensures RunsOk(s, 1, key)
  {
  }

  lemma OneRun(s: seq<Node>, k: nat, key: map<Node, int>)
    requires Keys(s, key) && Known(s, key) && RunsOk(s, k, key) && |s| <= k
    ensures Sorted(s)
  {
    assert Start(0, k) == 0;
    assert SortedBy(s, Start(0, k), Start(0, k) + k, key);
    forall i, j | 0 <= i < j < |s| ensures s[i].z <= s[j].z {
      assert key[s[i]] <= key[s[j]];
      assert s[i] in s && s[j] in s;
    }
  }

  lemma KeysSame(l: seq<Node>, s: seq<Node>, key: map<Node, int>)
    requires Keys(l, key) && SameNodes(l, s)
    ensures Keys(s, key) && Known(s, key)
  {
    SameMembers(l, s);
    forall k | 0 <= k < |s| ensures s[k] in key { assert s[k] in s; }
  }

  /** The nodes from list0 on are linked anew, both ways, in the order of z. */
  method SortLinked(list0: Node, ghost l: seq<Node>) returns (list: Node, ghost s: seq<Node>)
    requires |l| >= 1 && list0 == l[0] && Distinct(l) && Rest(l, 0, 0, 0)
    modifies l`prevZ, l`nextZ
    ensures ZList(s) && Sorted(s) && SameNodes(l, s) && list == NodeAt(s, 0)
  {
    hide Keys, RunsOk, Rest, Known;
    ghost var key := map p | p in l :: p.z;
    KeysStart(l, key);
    RunsOfOne(l, key);
    list, s := list0, l;
    var inSize := 1;
    while true
      invariant |s| == |l| && SameNodes(l, s) && Distinct(s) && Rest(s, 0, 0, 0) && list == s[0] && inSize >= 1
      invariant Keys(l, key) && Known(s, key) && RunsOk(s, inSize, key)
      invariant forall p :: p in s ==> p in l
      decreases if |l| > inSize then |l| - inSize else 0
    {
      var numMerges;
      KeysSame(l, s, key);
      ghost var t := s;
      list, numMerges, s := MergePass(list, inSize, t, key);
      SameMembers(t, s);
      SameMembers(l, s);
      KeysSame(t, l, key);
      KeysSame(t, s, key);
      ListIsRest(s);
      if numMerges <= 1 {
        OneRun(s, 2 * inSize, key);
        return;
      }
      inSize := inSize * 2;
    }
  }

  lemma KeysStart(l: seq<Node>, key: map<Node, int>)
    requires key == map p | p in l :: p.z
    ensures Keys(l, key) && Known(l, key)
  {
    forall k | 0 <= k < |l| ensures l[k] in key { assert l[k] in l; }
  }
}
