/** How often a byte occurs in a sequence, and how many bytes are below it. */
module Counting {
  import opened Bytes
  import opened Permutations

  function Count(s: seq<Byte>, c: int): nat {
    if s == [] then 0 else Count(s[..|s| - 1], c) + (if s[|s| - 1] == c then 1 else 0)
  }

  /** How many bytes of `s` are below `c`. */
  function CountBelow(s: seq<Byte>, c: nat): nat {
    if c == 0 then 0 else CountBelow(s, c - 1) + Count(s, c - 1)
  }

  lemma {:induction false} CountMono(s: seq<Byte>, c: int, i: nat, j: nat)
    requires i <= j <= |s|
    ensures Count(s[..i], c) <= Count(s[..j], c)
    decreases j
  {
    if i < j {
      assert s[..j][..j - 1] == s[..j - 1];
      CountMono(s, c, i, j - 1);
    }
  }

  /** An occurrence of `c` at `i` is counted before any later place. */
  lemma CountAt(s: seq<Byte>, i: nat, j: nat)
    requires i < j <= |s|
    ensures Count(s[..i], s[i]) < Count(s[..j], s[i])
  {
    assert s[..i + 1][..i] == s[..i];
    CountMono(s, s[i], i + 1, j);
  }

  lemma {:induction false} CountBelowMono(s: seq<Byte>, c: nat, d: nat)
    requires c <= d
    ensures CountBelow(s, c) <= CountBelow(s, d)
    decreases d
  {
    if c < d {
      CountBelowMono(s, c, d - 1);
    }
  }

  lemma {:induction false} CountBelowSnoc(s: seq<Byte>, x: Byte, c: nat)
    ensures CountBelow(s + [x], c) == CountBelow(s, c) + (if x < c then 1 else 0)
  {
    if c > 0 {
      CountBelowSnoc(s, x, c - 1);
      assert (s + [x])[..|s|] == s;
    }
  }

  lemma {:induction false} CountAll(s: seq<Byte>)
    ensures CountBelow(s, 256) == |s| && CountBelow(s, 0) == 0
  {
    if s == [] {
      CountNone(256);
    } else {
      CountAll(s[..|s| - 1]);
      CountBelowSnoc(s[..|s| - 1], s[|s| - 1], 256);
      assert s[..|s| - 1] + [s[|s| - 1]] == s;
    }
  }

  lemma {:induction false} CountNone(c: nat)
    ensures CountBelow([], c) == 0
  {
    if c > 0 {
      CountNone(c - 1);
    }
  }

  /** Where byte `i` goes when the bytes are sorted stably. */
  function RowOf(l: seq<Byte>, i: nat): (r: nat)
    requires i < |l|
    ensures r < |l|
  {
    CountAt(l, i, |l|);
    assert l[..|l|] == l;
    CountBelowMono(l, (l[i] as int) + 1, 256);
    CountAll(l);
    CountBelow(l, l[i]) + Count(l[..i], l[i])
  }

  /** RowOf sorts by byte, then by index. */
  lemma RowOfOrder(l: seq<Byte>, i: nat, j: nat)
    requires i < |l| && j < |l| && i != j
    ensures l[i] < l[j] ==> RowOf(l, i) < RowOf(l, j)
    ensures l[i] == l[j] && i < j ==> RowOf(l, i) < RowOf(l, j)
    ensures RowOf(l, i) != RowOf(l, j)
  {
    RowOfLess(l, i, j);
    RowOfLess(l, j, i);
  }

  lemma RowOfLess(l: seq<Byte>, i: nat, j: nat)
    requires i < |l| && j < |l|
    ensures l[i] < l[j] || (l[i] == l[j] && i < j) ==> RowOf(l, i) < RowOf(l, j)
  {
    if l[i] < l[j] {
      CountAt(l, i, |l|);
      assert l[..|l|] == l;
      CountBelowMono(l, (l[i] as int) + 1, l[j]);
    } else if l[i] == l[j] && i < j {
      CountAt(l, i, j);
    }
  }

  ghost function RowsOf(l: seq<Byte>): (t: seq<int>)
    ensures |t| == |l| && forall i :: 0 <= i < |l| ==> t[i] == RowOf(l, i)
  {
    seq(|l|, i requires 0 <= i < |l| => RowOf(l, i))
  }

  lemma RowsOfPerm(l: seq<Byte>)
    ensures IsPerm(RowsOf(l), |l|)
  {
    forall i, j | 0 <= i < j < |l|
      ensures RowsOf(l)[i] != RowsOf(l)[j]
    {
      RowOfOrder(l, i, j);
    }
  }

  /** The rows of one byte stand together. */
  lemma RowWithin(l: seq<Byte>, i: nat)
    requires i < |l|
    ensures CountBelow(l, l[i]) <= RowOf(l, i) < CountBelow(l, (l[i] as int) + 1) <= |l|
  {
    CountAt(l, i, |l|);
    assert l[..|l|] == l;
    CountBelowMono(l, (l[i] as int) + 1, 256);
    CountAll(l);
  }
}
