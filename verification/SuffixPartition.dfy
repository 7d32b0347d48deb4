/** Three-way partition of a list of keys around a pivot, with the part sizes counted beforehand. */
module SuffixPartition {

  function Side(k: int, x: int): int {
    if k < x then -1 else if k == x then 0 else 1
  }

  /** How many keys lie on side c of x. */
  function Tally(ks: seq<int>, x: int, c: int): nat {
    if ks == [] then 0 else Tally(ks[..|ks| - 1], x, c) + (if Side(ks[|ks| - 1], x) == c then 1 else 0)
  }

  function SwapKeys(ks: seq<int>, i: nat, j: nat): (r: seq<int>)
    requires i < |ks| && j < |ks|
    ensures |r| == |ks|
  {
    ks[i := ks[j]][j := ks[i]]
  }

  lemma TallyNext(ks: seq<int>, x: int, c: int, i: nat)
    requires i < |ks|
    ensures Tally(ks[..i + 1], x, c) == Tally(ks[..i], x, c) + (if Side(ks[i], x) == c then 1 else 0)
  {
    assert ks[..i + 1][..i] == ks[..i];
  }

  lemma {:induction false} TallyUpdate(ks: seq<int>, x: int, c: int, i: nat, v: int)
    requires i < |ks|
    ensures Tally(ks[i := v], x, c)
         == Tally(ks, x, c) - (if Side(ks[i], x) == c then 1 else 0) + (if Side(v, x) == c then 1 else 0)
  {
    hide Side;
    var n := |ks| - 1;
    if i < n {
      TallyUpdate(ks[..n], x, c, i, v);
      assert ks[i := v][..n] == ks[..n][i := v];
    } else {
      assert ks[i := v][..n] == ks[..n];
    }
  }

  lemma TallySwap(ks: seq<int>, x: int, c: int, i: nat, j: nat)
    requires i < |ks| && j < |ks|
    ensures Tally(SwapKeys(ks, i, j), x, c) == Tally(ks, x, c)
  {
    TallyUpdate(ks, x, c, i, ks[j]);
    TallyUpdate(ks[i := ks[j]], x, c, j, ks[i]);
  }

  /** The keys of [a, b) that lie on side c are no more than all keys on that side. */
  lemma {:induction false} TallyStretch(ks: seq<int>, x: int, c: int, a: nat, b: nat)
    requires a <= b <= |ks| && forall t :: a <= t < b ==> Side(ks[t], x) == c
    ensures Tally(ks, x, c) >= b - a
  {
    if ks != [] {
      var n := |ks| - 1;
      TallyStretch(ks[..n], x, c, if a <= n then a else n, if b <= n then b else n);
    }
  }

  /** ... and one more if there is a further key on that side. */
  lemma TallyMore(ks: seq<int>, x: int, c: int, a: nat, b: nat, i: nat)
    requires a <= b <= |ks| && forall t :: a <= t < b ==> Side(ks[t], x) == c
    requires i < |ks| && !(a <= i < b) && Side(ks[i], x) == c
    ensures Tally(ks, x, c) >= b - a + 1
  {
    TallyUpdate(ks, x, c, i, if c == 0 then x + 1 else x);
    TallyStretch(ks[i := if c == 0 then x + 1 else x], x, c, a, b);
  }

  lemma {:induction false} TallyTotal(ks: seq<int>, x: int)
    ensures Tally(ks, x, -1) + Tally(ks, x, 0) + Tally(ks, x, 1) == |ks|
  {
    if ks != [] { TallyTotal(ks[..|ks| - 1], x); }
  }

  /** i keys below x lead, j equal ones stand from jj, k greater ones from kk; the tallies set the bounds. */
  ghost predicate Parted(ks: seq<int>, x: int, i: nat, jj: nat, j: nat, kk: nat, k: nat) {
    && i <= jj && jj + j <= kk && kk + k <= |ks|
    && (forall t :: 0 <= t < i ==> ks[t] < x)
    && (forall t :: jj <= t < jj + j ==> ks[t] == x)
    && (forall t :: kk <= t < kk + k ==> ks[t] > x)
    && Tally(ks, x, -1) == jj && Tally(ks, x, 0) == kk - jj
  }

  lemma MoveEqual(ks: seq<int>, x: int, i: nat, jj: nat, j: nat, kk: nat, k: nat)
    requires Parted(ks, x, i, jj, j, kk, k) && i < jj && ks[i] == x
    ensures jj + j < kk && Parted(SwapKeys(ks, i, jj + j), x, i, jj, j + 1, kk, k)
  {
    hide Tally;
    TallyMore(ks, x, 0, jj, jj + j, i);
    TallySwap(ks, x, -1, i, jj + j);
    TallySwap(ks, x, 0, i, jj + j);
  }

  lemma MoveGreater(ks: seq<int>, x: int, i: nat, jj: nat, j: nat, kk: nat, k: nat, p: nat)
    requires Parted(ks, x, i, jj, j, kk, k) && p < kk && ks[p] > x
    requires if p < jj then p == i else p == jj + j && i == jj
    ensures kk + k < |ks| && Parted(SwapKeys(ks, p, kk + k), x, i, jj, j, kk, k + 1)
  {
    hide Tally;
    TallyTotal(ks, x);
    TallyMore(ks, x, 1, kk, kk + k, p);
    TallySwap(ks, x, -1, p, kk + k);
    TallySwap(ks, x, 0, p, kk + k);
  }

  /** Once the lower part is full, no key below x is left elsewhere. */
  lemma NoneBelow(ks: seq<int>, x: int, jj: nat, j: nat, kk: nat, k: nat, p: nat)
    requires Parted(ks, x, jj, jj, j, kk, k) && jj <= p < |ks|
    ensures ks[p] >= x
  {
    if ks[p] < x {
      TallyMore(ks, x, -1, 0, jj, p);
      assert false;
    }
  }

  /** With both lower parts full, the rest is above x. */
  lemma RestAbove(ks: seq<int>, x: int, jj: nat, kk: nat, k: nat, p: nat)
    requires jj <= kk && Parted(ks, x, jj, jj, kk - jj, kk, k) && kk <= p < |ks|
    ensures ks[p] > x
  {
    NoneBelow(ks, x, jj, kk - jj, kk, k, p);
    if ks[p] == x {
      TallyMore(ks, x, 0, jj, kk, p);
      assert false;
    }
  }
}
