/** Polygon vertices of earcut: a ring of doubly linked nodes that may also stand in a z-ordered list. */
module EarcutNodes {
  import opened Permutations

  /** What z is before it has been computed. */
  const UNSET: int := -1

  class Node {
    const i: int
    const x: real
    const y: real
    var prev: Node?
    var next: Node?
    var z: int
    var prevZ: Node?
    var nextZ: Node?

    constructor (i: int, x: real, y: real)
      ensures this.i == i && this.x == x && this.y == y && z == UNSET
      ensures prev == null && next == null && prevZ == null && nextZ == null
    {
      this.i, this.x, this.y := i, x, y;
      prev, next, z, prevZ, nextZ := null, null, UNSET, null, null;
    }
  }

  function Succ(k: nat, n: nat): nat { if k + 1 == n then 0 else k + 1 }
  function Pred(k: nat, n: nat): nat { if k == 0 && n > 0 then n - 1 else if k == 0 then 0 else k - 1 }

  ghost predicate RingAt(r: seq<Node>, k: nat)
    requires k < |r|
    reads r`prev, r`next
  {
    r[k].next == r[Succ(k, |r|)] && r[k].prev == r[Pred(k, |r|)]
  }

  /** The nodes in ring order. */
  ghost predicate Ring(r: seq<Node>)
    reads r`prev, r`next
  {
    |r| >= 1 && Distinct(r) && forall k {:trigger RingAt(r, k)} :: 0 <= k < |r| ==> RingAt(r, k)
  }

  function NodeAt(s: seq<Node>, k: int): Node? {
    if 0 <= k < |s| then s[k] else null
  }

  ghost predicate ZListAt(s: seq<Node>, k: nat)
    requires k < |s|
    reads s`prevZ, s`nextZ
  {
    s[k].prevZ == NodeAt(s, k - 1) && s[k].nextZ == NodeAt(s, k + 1)
  }

  /** The nodes in list order. */
  ghost predicate ZList(s: seq<Node>)
    reads s`prevZ, s`nextZ
  {
    Distinct(s) && forall k {:trigger ZListAt(s, k)} :: 0 <= k < |s| ==> ZListAt(s, k)
  }

  /** In z-order from place a up to b. */
  ghost predicate SortedRange(s: seq<Node>, a: nat, b: nat)
    reads s`z
  {
    forall j, k :: a <= j < k < b && k < |s| ==> s[j].z <= s[k].z
  }

  ghost predicate Sorted(s: seq<Node>)
    reads s`z
  {
    SortedRange(s, 0, |s|)
  }

  ghost predicate SameNodes(r: seq<Node>, s: seq<Node>) {
    multiset(r) == multiset(s)
  }

  lemma SameMembers(r: seq<Node>, s: seq<Node>)
    requires SameNodes(r, s)
    ensures |r| == |s| && forall p: Node :: p in r <==> p in s
  {
    assert |r| == |multiset(r)| && |s| == |multiset(s)|;
    forall p: Node ensures p in r <==> p in s {
      assert p in r <==> p in multiset(r);
      assert p in s <==> p in multiset(s);
    }
  }

  lemma {:induction false} DistinctCounts(s: seq<Node>, p: Node)
    requires Distinct(s)
    ensures multiset(s)[p] <= 1
  {
    if s != [] {
      var t := s[..|s| - 1];
      assert s == t + [s[|s| - 1]];
      DistinctCounts(t, p);
      if p == s[|s| - 1] { assert p !in t; }
    }
  }

  lemma {:induction false} CountsDistinct(s: seq<Node>)
    requires forall p: Node :: multiset(s)[p] <= 1
    ensures Distinct(s)
  {
    forall j, k | 0 <= j < k < |s| ensures s[j] != s[k] {
      assert s == s[..k] + s[k..];
      assert s[j] in multiset(s[..k]) && s[k] in multiset(s[k..]);
      assert multiset(s)[s[j]] == multiset(s[..k])[s[j]] + multiset(s[k..])[s[j]];
    }
  }

}
