/** Cyclic rotations of a block and their order. */
module Rotations {
  import opened Bytes
  import opened Permutations

  function Next(i: nat, n: nat): (r: nat)
    requires i < n
    ensures r < n
  {
    if i + 1 == n then 0 else i + 1
  }

  function Prev(i: nat, n: nat): (r: nat)
    requires i < n
    ensures r < n && Next(r, n) == i
  {
    if i == 0 then n - 1 else i - 1
  }

  /** `h` places on from `i`, round the block. */
  ghost function Adv(i: nat, h: nat, n: nat): (r: nat)
    requires i < n
    ensures r < n
    decreases h
  {
    if h == 0 then i else Adv(Next(i, n), h - 1, n)
  }

  lemma {:induction false} AdvIs(i: nat, h: nat, n: nat)
    requires i < n && h <= n
    ensures Adv(i, h, n) == if i + h < n then i + h else i + h - n
    decreases h
  {
    if h > 0 {
      AdvIs(Next(i, n), h - 1, n);
    }
  }

  /** Compares the first `h` bytes read round the block from `i` and from `j`: -1, 0 or 1. */
  ghost function Cmp(b: seq<Byte>, i: nat, j: nat, h: nat): (r: int)
    requires i < |b| && j < |b|
    ensures -1 <= r <= 1
    decreases h
  {
    if h == 0 then 0
    else if b[i] < b[j] then -1
    else if b[i] > b[j] then 1
    else Cmp(b, Next(i, |b|), Next(j, |b|), h - 1)
  }

  lemma {:induction false} CmpSelf(b: seq<Byte>, i: nat, h: nat)
    requires i < |b|
    ensures Cmp(b, i, i, h) == 0
    decreases h
  {
    if h > 0 {
      CmpSelf(b, Next(i, |b|), h - 1);
    }
  }

  lemma {:induction false} CmpFlip(b: seq<Byte>, i: nat, j: nat, h: nat)
    requires i < |b| && j < |b|
    ensures Cmp(b, j, i, h) == -Cmp(b, i, j, h)
    decreases h
  {
    if h > 0 {
      CmpFlip(b, Next(i, |b|), Next(j, |b|), h - 1);
    }
  }

  /** Comparing h + k bytes is comparing h, and then k more when those agree. */
  lemma {:induction false} CmpSplit(b: seq<Byte>, i: nat, j: nat, h: nat, k: nat)
    requires i < |b| && j < |b|
    ensures Cmp(b, i, j, h + k) ==
            if Cmp(b, i, j, h) != 0 then Cmp(b, i, j, h)
            else Cmp(b, Adv(i, h, |b|), Adv(j, h, |b|), k)
    decreases h
  {
    if h > 0 {
      CmpSplit(b, Next(i, |b|), Next(j, |b|), h - 1, k);
    }
  }

  lemma {:induction false} CmpTrans(b: seq<Byte>, i: nat, j: nat, k: nat, h: nat)
    requires i < |b| && j < |b| && k < |b|
    requires Cmp(b, i, j, h) <= 0 && Cmp(b, j, k, h) <= 0
    ensures Cmp(b, i, k, h) <= 0
    ensures Cmp(b, i, k, h) == 0 <==> Cmp(b, i, j, h) == 0 && Cmp(b, j, k, h) == 0
    decreases h
  {
    if h > 0 && b[i] == b[j] == b[k] {
      CmpTrans(b, Next(i, |b|), Next(j, |b|), Next(k, |b|), h - 1);
    }
  }

  function Sign(x: Byte, y: Byte): int {
    if x < y then -1 else if x > y then 1 else 0
  }

  lemma {:induction false} CmpLast(b: seq<Byte>, i: nat, j: nat, h: nat)
    requires i < |b| && j < |b| && h >= 1
    ensures Cmp(b, i, j, h) ==
            if Cmp(b, i, j, h - 1) != 0 then Cmp(b, i, j, h - 1)
            else Sign(b[Adv(i, h - 1, |b|)], b[Adv(j, h - 1, |b|)])
    decreases h
  {
    if h > 1 {
      CmpLast(b, Next(i, |b|), Next(j, |b|), h - 1);
    }
  }

  /** The last of the n places from the successor of `i` is `i`. */
  lemma AdvAround(i: nat, x: nat, n: nat)
    requires i < n && x == Next(i, n)
    ensures Adv(x, n - 1, n) == i
  {
    AdvIs(x, n - 1, n);
  }

  /** Equal rotations stay equal when both move on. */
  lemma EqualMovesOn(b: seq<Byte>, i: nat, j: nat, x: nat, y: nat)
    requires i < |b| && j < |b| && Cmp(b, i, j, |b|) == 0
    requires x == Next(i, |b|) && y == Next(j, |b|)
    ensures Cmp(b, x, y, |b|) == 0
  {
    AdvAround(i, x, |b|);
    AdvAround(j, y, |b|);
    CmpLast(b, x, y, |b|);
  }

  /** Putting the same byte in front keeps the order. */
  lemma FrontKeepsOrder(b: seq<Byte>, i: nat, j: nat, x: nat, y: nat)
    requires i < |b| && j < |b| && b[i] == b[j]
    requires x == Next(i, |b|) && y == Next(j, |b|)
    requires Cmp(b, x, y, |b|) <= 0
    ensures Cmp(b, i, j, |b|) <= 0
  {
    CmpLast(b, x, y, |b|);
  }

  /** The rotation that starts at `i`. */
  function Rot(b: seq<Byte>, i: nat): (r: seq<Byte>)
    requires i < |b|
    ensures |r| == |b|
  {
    b[i..] + b[..i]
  }

  ghost predicate LexLess(s: seq<Byte>, t: seq<Byte>) {
    exists k :: 0 <= k < |s| && k < |t| && s[..k] == t[..k] && s[k] < t[k]
  }

  /** The indexed comparison is equality and lexicographic order of the rotations themselves. */
  lemma CmpIsLex(b: seq<Byte>, i: nat, j: nat)
    requires i < |b| && j < |b|
    ensures Cmp(b, i, j, |b|) == 0 <==> Rot(b, i) == Rot(b, j)
    ensures Cmp(b, i, j, |b|) < 0 <==> LexLess(Rot(b, i), Rot(b, j))
  {
    hide Rot, Cmp, Adv, LexLess;
    var s, t := Rot(b, i), Rot(b, j);
    CmpIsPrefix(b, i, j, |b|);
    if Cmp(b, i, j, |b|) < 0 { LessIsLex(b, i, j); }
    if LexLess(s, t) { LexIsLess(b, i, j); }
    assert s[..|b|] == s && t[..|b|] == t;
  }

  lemma LessIsLex(b: seq<Byte>, i: nat, j: nat)
    requires i < |b| && j < |b| && Cmp(b, i, j, |b|) < 0
    ensures LexLess(Rot(b, i), Rot(b, j))
  {
    hide Rot, Cmp, Adv;
    var k := FirstDiff(b, i, j, |b|);
    CmpIsPrefix(b, i, j, k);
    RotAt(b, i, k);
    RotAt(b, j, k);
  }

  lemma LexIsLess(b: seq<Byte>, i: nat, j: nat)
    requires i < |b| && j < |b| && LexLess(Rot(b, i), Rot(b, j))
    ensures Cmp(b, i, j, |b|) < 0
  {
    hide Rot, Adv;
    var s, t := Rot(b, i), Rot(b, j);
    var k :| 0 <= k < |s| && k < |t| && s[..k] == t[..k] && s[k] < t[k];
    CmpIsPrefix(b, i, j, k);
    RotAt(b, i, k);
    RotAt(b, j, k);
    CmpSplit(b, i, j, k, |b| - k);
  }

  lemma RotAt(b: seq<Byte>, i: nat, k: nat)
    requires i < |b| && k < |b|
    ensures Rot(b, i)[k] == b[Adv(i, k, |b|)]
  {
    hide Adv, Rot;
    AdvIs(i, k, |b|);
    RotIndex(b, i, k);
  }

  lemma RotIndex(b: seq<Byte>, i: nat, k: nat)
    requires i < |b| && k < |b|
    ensures Rot(b, i)[k] == if k < |b| - i then b[i + k] else b[i + k - |b|]
  {
  }

  lemma {:induction false} CmpIsPrefix(b: seq<Byte>, i: nat, j: nat, h: nat)
    requires i < |b| && j < |b| && h <= |b|
    ensures Cmp(b, i, j, h) == 0 <==> Rot(b, i)[..h] == Rot(b, j)[..h]
    decreases h
  {
    if h > 0 {
      CmpIsPrefix(b, i, j, h - 1);
      CmpSplit(b, i, j, h - 1, 1);
      RotAt(b, i, h - 1);
      RotAt(b, j, h - 1);
      var s, t := Rot(b, i), Rot(b, j);
      assert s[..h] == s[..h - 1] + [s[h - 1]];
      assert t[..h] == t[..h - 1] + [t[h - 1]];
    }
  }

  lemma {:induction false} FirstDiff(b: seq<Byte>, i: nat, j: nat, h: nat) returns (k: nat)
    requires i < |b| && j < |b| && h <= |b| && Cmp(b, i, j, h) < 0
    ensures k < h && Cmp(b, i, j, k) == 0 && b[Adv(i, k, |b|)] < b[Adv(j, k, |b|)]
    decreases h
  {
    CmpSplit(b, i, j, h - 1, 1);
    if Cmp(b, i, j, h - 1) == 0 {
      k := h - 1;
    } else {
      k := FirstDiff(b, i, j, h - 1);
    }
  }

  /** `fm` lists the rotations of `b` in non-decreasing order of their first `h` bytes. */
  ghost predicate SortedBy(b: seq<Byte>, fm: seq<int>, h: nat) {
    && IsPerm(fm, |b|)
    && forall i, j :: 0 <= i < j < |fm| ==> Cmp(b, fm[i], fm[j], h) <= 0
  }

  ghost predicate SortedRows(b: seq<Byte>, fm: seq<int>) {
    SortedBy(b, fm, |b|)
  }

  /** Two listings sorted to depth h agree to depth h in every row, even when rotations are equal. */
  lemma SortedByAgree(b: seq<Byte>, f: seq<int>, g: seq<int>, h: nat, k: nat)
    requires SortedBy(b, f, h) && SortedBy(b, g, h) && k < |b|
    ensures Cmp(b, f[k], g[k], h) == 0
  {
    CmpFlip(b, f[k], g[k], h);
    if Cmp(b, f[k], g[k], h) < 0 {
      RowNotLess(b, f, g, h, k);
    } else if Cmp(b, f[k], g[k], h) > 0 {
      RowNotLess(b, g, f, h, k);
    }
  }

  lemma RowAmong(b: seq<Byte>, f: seq<int>, g: seq<int>, h: nat, k: nat, i: nat)
    requires SortedBy(b, f, h) && SortedBy(b, g, h) && i <= k < |b|
    requires Cmp(b, f[k], g[k], h) < 0
    ensures f[i] in g[..k]
  {
    var j := PermOnto(g, |b|, f[i]);
    if i < k { CmpTrans(b, f[i], f[k], g[k], h); }
    if j > k { CmpTrans(b, f[i], g[k], g[j], h); }
    CmpSelf(b, f[i], h);
    assert g[j] == g[..k][j];
  }

  /** The k + 1 rows f[..k + 1] cannot all lie among the k rows g[..k]. */
  lemma RowNotLess(b: seq<Byte>, f: seq<int>, g: seq<int>, h: nat, k: nat)
    requires SortedBy(b, f, h) && SortedBy(b, g, h) && k < |b|
    ensures Cmp(b, f[k], g[k], h) >= 0
  {
    if Cmp(b, f[k], g[k], h) < 0 {
      forall x | x in Elements(f[..k + 1])
        ensures x in Elements(g[..k])
      {
        var i :| 0 <= i < k + 1 && f[i] == x;
        RowAmong(b, f, g, h, k, i);
      }
      DistinctCard(f[..k + 1]);
      DistinctCard(g[..k]);
      SubsetCard(Elements(f[..k + 1]), Elements(g[..k]));
      assert false;
    }
  }
}
