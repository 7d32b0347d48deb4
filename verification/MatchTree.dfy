/**
 * The binary trees of the match finder: positions of the window, sorted by the bytes that follow them,
 * with child pointers in a cyclic array that only ever point to older positions.
 */
module MatchTree {
  import opened Bytes
  import opened Residues

  /** The bytes at i come no later than those at j, looking at len bytes of each. */
  predicate Le(data: seq<Byte>, i: nat, j: nat, len: nat)
    requires i + len <= |data| && j + len <= |data|
    decreases len
  {
    len == 0 || data[i] < data[j] || (data[i] == data[j] && Le(data, i + 1, j + 1, len - 1))
  }

  ghost predicate Same(data: seq<Byte>, i: nat, j: nat, len: nat) {
    i + len <= |data| && j + len <= |data| && data[i..i + len] == data[j..j + len]
  }

  lemma SameNext(data: seq<Byte>, i: nat, j: nat, len: nat)
    requires Same(data, i, j, len) && len >= 1
    ensures data[i] == data[j] && Same(data, i + 1, j + 1, len - 1)
  {
    assert data[i] == data[i..i + len][0] && data[j] == data[j..j + len][0];
    assert data[i + 1..i + len] == data[i..i + len][1..];
    assert data[j + 1..j + len] == data[j..j + len][1..];
  }

  lemma SameMore(data: seq<Byte>, i: nat, j: nat, len: nat)
    requires Same(data, i, j, len) && i + len < |data| && j + len < |data| && data[i + len] == data[j + len]
    ensures Same(data, i, j, len + 1)
  {
    assert data[i..i + len + 1] == data[i..i + len] + [data[i + len]];
    assert data[j..j + len + 1] == data[j..j + len] + [data[j + len]];
  }

  lemma SameLess(data: seq<Byte>, i: nat, j: nat, len: nat, n: nat)
    requires Same(data, i, j, len) && n <= len
    ensures Same(data, i, j, n)
  {
    assert data[i..i + n] == data[i..i + len][..n];
    assert data[j..j + n] == data[j..j + len][..n];
  }

  lemma SameTurned(data: seq<Byte>, i: nat, j: nat, len: nat)
    requires Same(data, i, j, len)
    ensures Same(data, j, i, len)
  {
  }

  lemma SameVia(data: seq<Byte>, i: nat, j: nat, k: nat, len: nat)
    requires Same(data, i, k, len) && (Same(data, j, k, len) || Same(data, k, j, len))
    ensures Same(data, i, j, len) && Same(data, j, i, len)
  {
  }

  lemma {:induction false} LeTrans(data: seq<Byte>, i: nat, j: nat, k: nat, len: nat)
    requires i + len <= |data| && j + len <= |data| && k + len <= |data|
    requires Le(data, i, j, len) && Le(data, j, k, len)
    ensures Le(data, i, k, len)
    decreases len
  {
    if len > 0 && data[i] == data[j] == data[k] { LeTrans(data, i + 1, j + 1, k + 1, len - 1); }
  }

  /** Order on more bytes is order on fewer. */
  lemma {:induction false} LeShorter(data: seq<Byte>, i: nat, j: nat, len: nat, n: nat)
    requires i + len <= |data| && j + len <= |data| && n <= len && Le(data, i, j, len)
    ensures Le(data, i, j, n)
    decreases len
  {
    if n > 0 && data[i] == data[j] { LeShorter(data, i + 1, j + 1, len - 1, n - 1); }
  }

  /** The first difference decides. */
  lemma {:induction false} LeAtDifference(data: seq<Byte>, i: nat, j: nat, len: nat, n: nat)
    requires i + len <= |data| && j + len <= |data| && Same(data, i, j, n) && n <= len
    requires n == len || data[i + n] < data[j + n]
    ensures Le(data, i, j, len)
    decreases n
  {
    if n > 0 {
      SameNext(data, i, j, n);
      LeAtDifference(data, i + 1, j + 1, len - 1, n - 1);
    }
  }

  /** What lies between two strings that agree on n bytes agrees with both. */
  lemma {:induction false} Between(data: seq<Byte>, i: nat, k: nat, j: nat, len: nat, n: nat)
    requires i + len <= |data| && j + len <= |data| && k + len <= |data| && n <= len
    requires Le(data, i, k, len) && Le(data, k, j, len) && Same(data, i, j, n)
    ensures Same(data, i, k, n)
    decreases n
  {
    hide Same;
    if n > 0 {
      SameNext(data, i, j, n);
      Between(data, i + 1, k + 1, j + 1, len - 1, n - 1);
      SameFrom(data, i, k, n);
    } else {
      SameNone(data, i, k);
    }
  }

  lemma SameNone(data: seq<Byte>, i: nat, k: nat)
    requires i <= |data| && k <= |data|
    ensures Same(data, i, k, 0)
  {
  }

  lemma SameFrom(data: seq<Byte>, i: nat, k: nat, n: nat)
    requires n >= 1 && i < |data| && k < |data| && data[i] == data[k] && Same(data, i + 1, k + 1, n - 1)
    ensures Same(data, i, k, n)
  {
    assert data[i..i + n] == [data[i]] + data[i + 1..i + n];
    assert data[k..k + n] == [data[k]] + data[k + 1..k + n];
  }

  // ---------------------------------------------------------------- trees

  /**
   * Where the trees live: `size` pairs of child pointers, position q using the pair (q + shift) mod size;
   * positions up to `low` have left the window; q stands for the bytes from q - base on.
   */
  datatype Frame = Frame(data: seq<Byte>, size: nat, shift: nat, low: int, base: int, lenLimit: nat)

  predicate FrameOk(f: Frame, son: seq<int>) {
    f.size >= 1 && |son| == 2 * f.size
  }

  function Slot(f: Frame, q: int): (k: int)
    requires f.size >= 1
    ensures 0 <= k < f.size
  {
    (q + f.shift) % f.size
  }

  /** The child of q on side 0 (smaller strings) or 1 (greater ones). */
  function Child(f: Frame, son: seq<int>, q: int, side: nat): int
    requires FrameOk(f, son) && side <= 1
  {
    son[2 * Slot(f, q) + side]
  }

  /** The positions in the tree below q, q included, as far as they are in the window. */
  ghost function Below(f: Frame, son: seq<int>, nodes: set<int>, q: int): (s: set<int>)
    requires FrameOk(f, son)
    ensures forall v :: v in s ==> v in nodes && f.low < v <= q
    decreases if q > f.low then q - f.low else 0
  {
    if q <= f.low || q !in nodes then {}
    else {q} + ChildBelow(f, son, nodes, q, 0) + ChildBelow(f, son, nodes, q, 1)
  }

  ghost function ChildBelow(f: Frame, son: seq<int>, nodes: set<int>, q: int, side: nat): (s: set<int>)
    requires FrameOk(f, son) && side <= 1 && q > f.low
    ensures forall v :: v in s ==> v in nodes && f.low < v < q
    decreases q - f.low, 0
  {
    if Child(f, son, q, side) < q then Below(f, son, nodes, Child(f, son, q, side)) else {}
  }

  /** Children of nodes are older nodes, or outside the window. */
  ghost predicate Linked(f: Frame, son: seq<int>, nodes: set<int>)
    requires FrameOk(f, son)
  {
    forall u, side :: u in nodes && f.low < u && 0 <= side <= 1 ==>
      Child(f, son, u, side) < u && (Child(f, son, u, side) > f.low ==> Child(f, son, u, side) in nodes)
  }

  /** Nodes have bytes to compare and stand before `top`. */
  ghost predicate Placed(f: Frame, nodes: set<int>, top: int) {
    && f.base <= top && top - f.base + f.lenLimit <= |f.data| && top <= f.low + f.size
    && forall u :: u in nodes && f.low < u ==> f.base <= u < top
  }

  ghost predicate LeAt(f: Frame, u: int, v: int) {
    && f.base <= u && f.base <= v && u - f.base + f.lenLimit <= |f.data| && v - f.base + f.lenLimit <= |f.data|
    && Le(f.data, u - f.base, v - f.base, f.lenLimit)
  }

  /** The trees are search trees for strings cut off after lenLimit bytes. */
  ghost predicate Sorted(f: Frame, son: seq<int>, nodes: set<int>)
    requires FrameOk(f, son)
  {
    forall u, v :: u in nodes && f.low < u ==>
      && (v in ChildBelow(f, son, nodes, u, 0) ==> LeAt(f, v, u))
      && (v in ChildBelow(f, son, nodes, u, 1) ==> LeAt(f, u, v))
  }

  /** Whatever is below a position in a tree has its own tree in it. */
  lemma {:induction false} BelowTrans(f: Frame, son: seq<int>, nodes: set<int>, q: int, v: int)
    requires FrameOk(f, son) && v in Below(f, son, nodes, q)
    ensures Below(f, son, nodes, v) <= Below(f, son, nodes, q)
    decreases q - f.low
  {
    if v != q {
      var side := if v in ChildBelow(f, son, nodes, q, 0) then 0 else 1;
      BelowTrans(f, son, nodes, Child(f, son, q, side), v);
    }
  }

  lemma ChildInBelow(f: Frame, son: seq<int>, nodes: set<int>, q: int, side: nat)
    requires FrameOk(f, son) && q in nodes && q > f.low && side <= 1
    ensures q in Below(f, son, nodes, q) && ChildBelow(f, son, nodes, q, side) <= Below(f, son, nodes, q)
  {
  }

  /** Each child of now is gone, or was below the same child before. */
  ghost predicate Refines(f: Frame, was: seq<int>, now: seq<int>, nodes: set<int>)
    requires FrameOk(f, was) && FrameOk(f, now)
  {
    forall u, side :: u in nodes && f.low < u && 0 <= side <= 1 ==>
      Child(f, now, u, side) <= f.low || Child(f, now, u, side) in ChildBelow(f, was, nodes, u, side)
  }

  /** Then trees have only lost positions. */
  lemma {:induction false} RefinesBelow(f: Frame, was: seq<int>, now: seq<int>, nodes: set<int>, q: int)
    requires FrameOk(f, was) && FrameOk(f, now) && Refines(f, was, now, nodes)
    ensures Below(f, now, nodes, q) <= Below(f, was, nodes, q)
    ensures q > f.low && q in nodes ==> forall side :: 0 <= side <= 1 ==>
      ChildBelow(f, now, nodes, q, side) <= ChildBelow(f, was, nodes, q, side)
    decreases if q > f.low then q - f.low else 0
  {
    if q > f.low && q in nodes {
      forall side | 0 <= side <= 1 ensures ChildBelow(f, now, nodes, q, side) <= ChildBelow(f, was, nodes, q, side) {
        var c := Child(f, now, q, side);
        if f.low < c < q {
          RefinesBelow(f, was, now, nodes, c);
          BelowTrans(f, was, nodes, Child(f, was, q, side), c);
        }
      }
    }
  }

  /** Trees depend only on the children of what is in them. */
  lemma {:induction false} BelowSame(f: Frame, son: seq<int>, tau: seq<int>, nodes: set<int>, q: int)
    requires FrameOk(f, son) && FrameOk(f, tau)
    requires forall u, side :: u in nodes && f.low < u <= q && 0 <= side <= 1 ==> Child(f, tau, u, side) == Child(f, son, u, side)
    ensures Below(f, tau, nodes, q) == Below(f, son, nodes, q)
    ensures q > f.low && q in nodes ==> forall side :: 0 <= side <= 1 ==>
      ChildBelow(f, tau, nodes, q, side) == ChildBelow(f, son, nodes, q, side)
    decreases if q > f.low then q - f.low else 0
  {
    if q > f.low && q in nodes {
      forall side | 0 <= side <= 1 ensures ChildBelow(f, tau, nodes, q, side) == ChildBelow(f, son, nodes, q, side) {
        var c := Child(f, son, q, side);
        assert Child(f, tau, q, side) == c;
        if c < q { BelowSame(f, son, tau, nodes, c); }
      }
    }
  }

  /** Positions of one window have slots of their own. */
  lemma SlotApart(f: Frame, q: int, r: int)
    requires f.size >= 1 && q != r && q < r + f.size && r < q + f.size
    ensures Slot(f, q) != Slot(f, r)
  {
    if Slot(f, q) == Slot(f, r) { SameTurn(q + f.shift, r + f.shift, f.size); }
  }
}
