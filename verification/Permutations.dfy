/** Sequences that list each number below their length exactly once. */
module Permutations {

  ghost predicate Distinct<T>(s: seq<T>) {
    forall i, j :: 0 <= i < j < |s| ==> s[i] != s[j]
  }

  ghost predicate InRange(s: seq<int>, n: nat) {
    forall i :: 0 <= i < |s| ==> 0 <= s[i] < n
  }

  ghost predicate IsPerm(s: seq<int>, n: nat) {
    |s| == n && InRange(s, n) && Distinct(s)
  }

  ghost function Elements(s: seq<int>): set<int> {
    set x | x in s
  }

  ghost function Below(n: nat): (r: set<int>)
    ensures |r| == n
    ensures forall x :: x in r <==> 0 <= x < n
  {
    if n == 0 then {} else Below(n - 1) + {n - 1}
  }

  lemma {:induction false} DistinctCard(s: seq<int>)
    requires Distinct(s)
    ensures |Elements(s)| == |s|
  {
    if s != [] {
      var t := s[..|s| - 1];
      DistinctCard(t);
      assert Elements(s) == Elements(t) + {s[|s| - 1]};
    }
  }

  lemma SubsetCard(a: set<int>, b: set<int>)
    requires a <= b
    ensures |a| <= |b|
    ensures |a| == |b| ==> a == b
  {
    assert b == a + (b - a);
    assert |b| == |a| + |b - a|;
  }

  /** Distinct numbers below `n` are at most `n` many. */
  lemma Pigeonhole(s: seq<int>, n: nat)
    requires Distinct(s) && InRange(s, n)
    ensures |s| <= n
  {
    DistinctCard(s);
    SubsetCard(Elements(s), Below(n));
  }

  /** A permutation reaches every number. */
  lemma PermOnto(s: seq<int>, n: nat, x: int) returns (i: nat)
    requires IsPerm(s, n) && 0 <= x < n
    ensures i < n && s[i] == x
  {
    DistinctCard(s);
    SubsetCard(Elements(s), Below(n));
    assert x in Elements(s);
    i :| 0 <= i < |s| && s[i] == x;
  }

  /** Swapping two places keeps the multiset. */
  lemma SwapSame<T>(s: seq<T>, i: nat, j: nat)
    requires i < |s| && j < |s|
    ensures multiset(s[i := s[j]][j := s[i]]) == multiset(s)
  {
  }

  /** Rearranging a permutation gives a permutation. */
  lemma SamePerm(s: seq<int>, t: seq<int>, n: nat)
    requires multiset(s) == multiset(t) && IsPerm(s, n)
    ensures IsPerm(t, n)
  {
    assert |t| == |multiset(t)| == |s|;
    forall i | 0 <= i < |t|
      ensures 0 <= t[i] < n
    {
      assert t[i] in multiset(t);
      assert t[i] in s;
    }
    forall i, j | 0 <= i < j < |t|
      ensures t[i] != t[j]
    {
      if t[i] == t[j] {
        var x := t[i];
        assert t == t[..i] + [x] + t[i + 1..j] + [x] + t[j + 1..];
        assert multiset(t)[x] >= 2;
        DistinctOnce(s, x);
        assert false;
      }
    }
  }

  lemma {:induction false} DistinctOnce(s: seq<int>, x: int)
    requires Distinct(s)
    ensures multiset(s)[x] <= 1
  {
    if s != [] {
      var t := s[..|s| - 1];
      DistinctOnce(t, x);
      assert s == t + [s[|s| - 1]];
      if s[|s| - 1] == x {
        assert x !in t;
      }
    }
  }
}
