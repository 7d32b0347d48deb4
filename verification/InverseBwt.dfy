/**
 * The inverse Burrows-Wheeler transform of the bzip2 decoder, in both memory layouts: the FAST
 * vector walk, and the SMALL layout with 20-bit pointers in two packed arrays and a cycle of
 * pointers reversed in place.
 */
module InverseBwt {
  import opened Bytes
  import opened Permutations
  import opened Rotations
  import opened Counting
  import opened Residues

  // ---------------------------------------------------------------- the transform and its inverse

  /** The last column of the sorted rotation table: what the encoder transmits. */
  function LastColumn(b: seq<Byte>, fm: seq<int>): (l: seq<Byte>)
    requires InRange(fm, |b|)
    ensures |l| == |fm|
    ensures forall k :: 0 <= k < |fm| ==> l[k] == b[Prev(fm[k], |b|)]
  {
    seq(|fm|, k requires 0 <= k < |fm| => b[Prev(fm[k], |b|)])
  }

  /** `p` undoes RowOf. */
  ghost predicate Inverts(l: seq<Byte>, p: seq<int>) {
    |p| == |l| && InRange(p, |l|) && forall k :: 0 <= k < |p| ==> RowOf(l, p[k]) == k
  }

  lemma SteppedPair(b: seq<Byte>, fm: seq<int>, x: nat, y: nat, gx: nat, gy: nat)
    requires |b| > 0 && SortedRows(b, fm) && x < |b| && y < |b| && x != y
    requires gx == Prev(fm[x], |b|) && gy == Prev(fm[y], |b|)
    requires RowOf(LastColumn(b, fm), x) < RowOf(LastColumn(b, fm), y)
    ensures gx != gy && Cmp(b, gx, gy, |b|) <= 0
  {
    var l := LastColumn(b, fm);
    assert fm[x] != fm[y];
    RowOfLess(l, y, x);
    if l[x] == l[y] {
      FrontKeepsOrder(b, gx, gy, fm[x], fm[y]);
    }
  }

  /** Stepping every row of the table back through `p` lists the rotations in sorted order again. */
  lemma SteppedRowsSorted(b: seq<Byte>, fm: seq<int>, p: seq<int>) returns (g: seq<int>)
    requires |b| > 0 && SortedRows(b, fm) && Inverts(LastColumn(b, fm), p)
    ensures SortedRows(b, g)
    ensures forall k :: 0 <= k < |b| ==> g[k] == Prev(fm[p[k]], |b|)
  {
    g := seq(|b|, k requires 0 <= k < |b| => Prev(fm[p[k]], |b|));
    forall i, j | 0 <= i < j < |b|
      ensures g[i] != g[j] && Cmp(b, g[i], g[j], |b|) <= 0
    {
      SteppedPair(b, fm, p[i], p[j], g[i], g[j]);
    }
  }

  /** Following `p` from a row equal to rotation i gives a row equal to the next rotation. */
  lemma FollowMovesOn(b: seq<Byte>, fm: seq<int>, p: seq<int>, k: nat, i: nat, x: nat)
    requires |b| > 0 && SortedRows(b, fm) && Inverts(LastColumn(b, fm), p)
    requires k < |b| && i < |b| && Cmp(b, fm[k], i, |b|) == 0 && x == Next(i, |b|)
    ensures Cmp(b, fm[p[k]], x, |b|) == 0
    ensures LastColumn(b, fm)[p[k]] == b[i]
  {
    var g := SteppedRowsSorted(b, fm, p);
    SortedByAgree(b, g, fm, |b|, k);
    CmpTrans(b, g[k], fm[k], i, |b|);
    EqualMovesOn(b, g[k], i, fm[p[k]], x);
    assert |b| > 0 && Cmp(b, g[k], i, |b|) == 0;
  }

  /** The transform as a whole: a sorted table's last column and the row that holds the block itself. */
  ghost predicate Transformed(b: seq<Byte>, fm: seq<int>, l: seq<Byte>, origPtr: nat) {
    && |b| > 0 && |fm| == |b| == |l| && SortedRows(b, fm) && l == LastColumn(b, fm)
    && origPtr < |b| && fm[origPtr] == 0
  }

  /** The rows the walk visits: origPtr, then `p` of it, and so on. */
  ghost function Walk(p: seq<int>, r: nat, m: nat): (k: nat)
    requires InRange(p, |p|) && r < |p|
    ensures k < |p|
  {
    if m == 0 then r else p[Walk(p, r, m - 1)]
  }

  /** The byte that ends each visited row, in order of visit, is the block in order, over and over. */
  lemma WalkSpellsBlock(b: seq<Byte>, fm: seq<int>, l: seq<Byte>, origPtr: nat, p: seq<int>, m: nat)
    requires Transformed(b, fm, l, origPtr) && Inverts(l, p)
    ensures |p| == |l| && InRange(p, |l|) && l[Walk(p, origPtr, m + 1)] == b[m % |b|]
  {
    WalkOnRotation(b, fm, l, origPtr, p, m);
    FollowMovesOn(b, fm, p, Walk(p, origPtr, m), m % |b|, Next(m % |b|, |b|));
  }

  lemma {:induction false} WalkOnRotation(b: seq<Byte>, fm: seq<int>, l: seq<Byte>, origPtr: nat, p: seq<int>, m: nat)
    requires Transformed(b, fm, l, origPtr) && Inverts(l, p)
    ensures Cmp(b, fm[Walk(p, origPtr, m)], m % |b|, |b|) == 0
  {
    hide SortedBy, RowOf, LastColumn, Cmp;
    if m == 0 {
      CmpSelf(b, 0, |b|);
      SmallMod(0, |b|);
    } else {
      WalkOnRotation(b, fm, l, origPtr, p, m - 1);
      var j := PrevMod(m, |b|);
      FollowMovesOn(b, fm, p, Walk(p, origPtr, m - 1), j, m % |b|);
    }
  }

  lemma PrevMod(m: nat, n: nat) returns (j: nat)
    requires m > 0 && n > 0
    ensures j == (m - 1) % n && j < n && 0 <= m % n < n && m % n == Next(j, n)
  {
    NextMod(m - 1, n);
    j := (m - 1) % n;
  }

  lemma NextMod(m: nat, n: nat)
    requires n > 0
    ensures (m + 1) % n == Next(m % n, n)
  {
    var q, r := m / n, m % n;
    assert m == q * n + r;
    if r + 1 < n {
      QuotientUnique(m + 1, n, q, r + 1);
    } else {
      assert (q + 1) * n == q * n + n;
      QuotientUnique(m + 1, n, q + 1, 0);
    }
  }

  // ---------------------------------------------------------------- the FAST layout

  /** The prefix sums of the byte counts; false when a count or a sum is out of range. */
  method BuildCftab(unzftab: array<nat>, cftab: array<nat>, nblock: nat, ghost l: seq<Byte>) returns (ok: bool)
    requires unzftab.Length == 256 && cftab.Length == 257 && unzftab != cftab && |l| == nblock
    requires forall c :: 0 <= c < 256 ==> unzftab[c] == Count(l, c)
    modifies cftab
    ensures ok && forall c :: 0 <= c <= 256 ==> cftab[c] == CountBelow(l, c)
  {
    hide Count;
    cftab[0] := 0;
    for i := 1 to 257
      invariant cftab[0] == 0
      invariant forall c :: 1 <= c < i ==> cftab[c] == unzftab[c - 1]
    {
      cftab[i] := unzftab[i - 1];
    }
    for i := 1 to 257
      invariant forall c :: 0 <= c < i ==> cftab[c] == CountBelow(l, c)
      invariant forall c :: i <= c <= 256 ==> cftab[c] == Count(l, c - 1)
    {
      cftab[i] := cftab[i] + cftab[i - 1];
    }
    ok := CheckCftab(cftab, nblock, l);
  }

  /** The decoder's sanity checks on the table never reject a table of true counts. */
  method CheckCftab(cftab: array<nat>, nblock: nat, ghost l: seq<Byte>) returns (ok: bool)
    requires cftab.Length == 257 && |l| == nblock
    requires forall c :: 0 <= c <= 256 ==> cftab[c] == CountBelow(l, c)
    ensures ok
  {
    CountAll(l);
    ok := true;
    for i := 0 to 257
      invariant ok
    {
      CountBelowMono(l, i, 256);
      if cftab[i] > nblock { ok := false; }
    }
    for i := 1 to 257
      invariant ok
    {
      if cftab[i - 1] > cftab[i] { ok := false; }
    }
  }

  /** The vector after the first `i` rows: a slot holds its row's pointer above its own byte, or nothing yet. */
  ghost predicate Filled(t: seq<nat>, l: seq<Byte>, i: nat)
    requires i <= |l| <= |t|
  {
    && (forall k :: 0 <= k < |l| ==> t[k] % 256 == l[k])
    && (forall j :: 0 <= j < i ==> t[RowOf(l, j)] == 256 * j + l[RowOf(l, j)])
    && (forall k :: 0 <= k < |l| ==> t[k] == l[k] || exists j :: 0 <= j < i && RowOf(l, j) == k)
  }

  lemma FillStart(t: seq<nat>, c: seq<nat>, l: seq<Byte>)
    requires |l| <= |t| && |c| == 257
    requires forall k :: 0 <= k < |l| ==> t[k] == l[k]
    requires forall x :: 0 <= x <= 256 ==> c[x] == CountBelow(l, x)
    ensures Filled(t, l, 0) && Counters(c, l, 0)
  {
  }

  lemma FilledStep(t: seq<nat>, l: seq<Byte>, i: nat)
    requires i < |l| <= |t| && Filled(t, l, i)
    ensures t[i] % 256 == l[i]
    ensures Filled(t[RowOf(l, i) := t[RowOf(l, i)] + 256 * i], l, i + 1)
  {
    hide RowOf;
    var row := RowOf(l, i);
    forall j | 0 <= j < i
      ensures RowOf(l, j) != row
    {
      RowOfOrder(l, i, j);
    }
    assert t[row] == l[row];
    AddRow(l[row], i);
    FilledMore(t, l, i, t[row] + 256 * i);
  }

  lemma AddRow(x: Byte, i: nat)
    ensures (x as int + 256 * i) % 256 == x
  {
  }

  lemma FilledMore(t: seq<nat>, l: seq<Byte>, i: nat, v: nat)
    requires i < |l| <= |t| && Filled(t, l, i) && v == 256 * i + l[RowOf(l, i)] && v % 256 == l[RowOf(l, i)]
    requires forall j :: 0 <= j < i ==> RowOf(l, j) != RowOf(l, i)
    ensures Filled(t[RowOf(l, i) := v], l, i + 1)
  {
    hide RowOf;
    var u := t[RowOf(l, i) := v];
    forall k | 0 <= k < |l| && u[k] != l[k]
      ensures exists j :: 0 <= j < i + 1 && RowOf(l, j) == k
    {
      if k != RowOf(l, i) {
        var j :| 0 <= j < i && RowOf(l, j) == k;
        assert 0 <= j < i + 1;
      }
    }
  }

  lemma FilledInverts(t: seq<nat>, l: seq<Byte>) returns (p: seq<int>)
    requires |l| <= |t| && Filled(t, l, |l|)
    ensures Inverts(l, p) && forall k :: 0 <= k < |l| ==> t[k] == 256 * p[k] + l[k]
  {
    p := seq(|l|, k requires 0 <= k < |l| => t[k] / 256);
    RowsOfPerm(l);
    forall k | 0 <= k < |l|
      ensures 0 <= p[k] < |l| && RowOf(l, p[k]) == k && t[k] == 256 * p[k] + l[k]
    {
      var j := PermOnto(RowsOf(l), |l|, k);
      assert RowOf(l, j) == k;
      assert t[k] == 256 * j + l[k];
      assert p[k] == j;
    }
  }

  /** The running counters point every byte of the column at its row. */
  ghost predicate Counters(c: seq<nat>, l: seq<Byte>, i: nat)
    requires i <= |l|
  {
    |c| == 257 && forall x :: 0 <= x < 256 ==> c[x] == CountBelow(l, x) + Count(l[..i], x)
  }

  lemma CountersStep(c: seq<nat>, l: seq<Byte>, i: nat)
    requires i < |l| && Counters(c, l, i)
    ensures c[l[i]] == RowOf(l, i)
    ensures Counters(c[l[i] := c[l[i]] + 1], l, i + 1)
  {
    assert l[..i + 1][..i] == l[..i];
  }

  /** Computes T^-1 into the bytes above the low byte of tt, where the last column already lies. */
  method SetUpFast(tt: array<nat>, cftab: array<nat>, nblock: nat, ghost l: seq<Byte>) returns (ghost p: seq<int>)
    requires cftab.Length == 257 && tt != cftab && nblock == |l| <= tt.Length
    requires forall c :: 0 <= c <= 256 ==> cftab[c] == CountBelow(l, c)
    requires forall k :: 0 <= k < nblock ==> tt[k] == l[k]
    modifies tt, cftab
    ensures Inverts(l, p)
    ensures forall k :: 0 <= k < nblock ==> tt[k] == 256 * p[k] + l[k]
  {
    hide Filled, Counters, RowOf, Count, CountBelow, Inverts;
    FillStart(tt[..], cftab[..], l);
    for i := 0 to nblock
      invariant Counters(cftab[..], l, i)
      invariant Filled(tt[..], l, i)
    {
      ghost var t, c := tt[..], cftab[..];
      CountersStep(c, l, i);
      FilledStep(t, l, i);
      var uc := tt[i] % 256;
      tt[cftab[uc]] := tt[cftab[uc]] + 256 * i;
      cftab[uc] := cftab[uc] + 1;
      assert tt[..] == t[RowOf(l, i) := t[RowOf(l, i)] + 256 * i];
      assert cftab[..] == c[l[i] := c[l[i]] + 1];
    }
    p := FilledInverts(tt[..], l);
  }

  /** The FAST reader: one table lookup gives the byte and the next position. */
  class FastReader {
    const tt: array<nat>
    const limit: nat
    var tPos: nat

    constructor (tt: array<nat>, limit: nat, origPtr: nat)
      requires limit == tt.Length && origPtr < tt.Length
      ensures this.tt == tt && this.limit == limit && tPos == tt[origPtr] / 256
    {
      this.tt, this.limit, tPos := tt, limit, tt[origPtr] / 256;
    }

    method Get() returns (corrupt: bool, ch: Byte)
      requires limit == tt.Length
      modifies this
      ensures corrupt <==> old(tPos) >= limit
      ensures !corrupt ==> ch == tt[old(tPos)] % 256 && tPos == tt[old(tPos)] / 256
    {
      if tPos >= limit {
        return true, 0;
      }
      var v := tt[tPos];
      tPos := v / 256;
      return false, v % 256;
    }
  }

  /** From the last column to the block: the set-up and the vector walk of the FAST layout. */
  method DecodeFast(tt: array<nat>, unzftab: array<nat>, cftab: array<nat>, nblock: nat, origPtr: nat,
                    ghost b: seq<Byte>, ghost fm: seq<int>, ghost l: seq<Byte>)
    returns (out: seq<Byte>)
    requires cftab.Length == 257 && unzftab.Length == 256 && tt != cftab && unzftab != cftab && tt != unzftab
    requires Transformed(b, fm, l, origPtr) && nblock == |b| <= tt.Length
    requires forall c :: 0 <= c < 256 ==> unzftab[c] == Count(l, c)
    requires forall k :: 0 <= k < nblock ==> tt[k] == l[k]
    modifies tt, cftab
    ensures out == b
  {
    hide SortedBy, RowOf, LastColumn;
    var ok := BuildCftab(unzftab, cftab, nblock, l);
    ghost var p := SetUpFast(tt, cftab, nblock, l);
    var reader := new FastReader(tt, tt.Length, origPtr);
    out := ReadFast(reader, nblock, b, fm, l, origPtr, p);
  }

  method ReadFast(reader: FastReader, nblock: nat, ghost b: seq<Byte>, ghost fm: seq<int>, ghost l: seq<Byte>,
                  ghost origPtr: nat, ghost p: seq<int>)
    returns (out: seq<Byte>)
    requires Transformed(b, fm, l, origPtr) && Inverts(l, p) && nblock == |b| <= reader.tt.Length == reader.limit
    requires forall k :: 0 <= k < nblock ==> reader.tt[k] == 256 * p[k] + l[k]
    requires reader.tPos == p[origPtr]
    modifies reader
    ensures out == b
  {
    hide SortedBy, RowOf, LastColumn;
    out := [];
    assert Walk(p, origPtr, 1) == p[Walk(p, origPtr, 0)];
    for m := 0 to nblock
      invariant reader.tPos == Walk(p, origPtr, m + 1)
      invariant out == b[..m]
    {
      WalkSpellsBlock(b, fm, l, origPtr, p, m);
      SmallMod(m, nblock);
      var corrupt, ch := reader.Get();
      assert !corrupt;
      out := out + [ch];
    }
  }

  // ---------------------------------------------------------------- the SMALL layout

  /** 20-bit numbers: 16 low bits in one array, 4 high bits packed in pairs in another. */
  class SmallStore {
    const ll16: array<nat>
    const ll4: array<nat>

    ghost predicate Valid()
      reads this, ll16, ll4
    {
      && ll16 != ll4 && ll16.Length <= 2 * ll4.Length
      && (forall i :: 0 <= i < ll16.Length ==> ll16[i] < 0x10000)
      && (forall i :: 0 <= i < ll4.Length ==> ll4[i] < 0x100)
    }

    function Get(i: nat): nat
      requires i < ll16.Length <= 2 * ll4.Length
      reads this, ll16, ll4
    {
      ll16[i] + 0x10000 * (if i % 2 == 0 then ll4[i / 2] % 16 else ll4[i / 2] / 16 % 16)
    }

    constructor (ll16: array<nat>, ll4: array<nat>)
      requires ll16 != ll4 && ll16.Length <= 2 * ll4.Length
      ensures this.ll16 == ll16 && this.ll4 == ll4
    {
      this.ll16, this.ll4 := ll16, ll4;
    }

    /** Every number below 2^20 is stored exactly, and no neighbour in the pair is disturbed. */
    method Set(i: nat, v: nat)
      requires Valid() && i < ll16.Length && v < 0x100000
      modifies ll16, ll4
      ensures Valid() && Get(i) == v
      ensures forall k :: 0 <= k < ll16.Length && k != i ==> Get(k) == old(Get(k))
      ensures forall k :: 0 <= k < ll16.Length && k != i ==> ll16[k] == old(ll16[k])
    {
      ll16[i] := v % 0x10000;
      var hi := v / 0x10000;
      if i % 2 == 0 {
        ll4[i / 2] := ll4[i / 2] / 16 * 16 + hi;
      } else {
        ll4[i / 2] := ll4[i / 2] % 16 + 16 * hi;
      }
    }
  }

  /** The byte whose stretch of the sorted column contains `indx`. */
  method IndexIntoF(indx: nat, cftab: array<nat>) returns (nb: nat)
    requires cftab.Length == 257 && cftab[0] <= indx < cftab[256]
    ensures nb < 256 && cftab[nb] <= indx < cftab[nb + 1]
  {
    nb := 0;
    var na := 256;
    while na - nb != 1
      invariant 0 <= nb < na <= 256 && cftab[nb] <= indx < cftab[na]
      decreases na - nb
    {
      var mid := (nb + na) / 2;
      if indx >= cftab[mid] { nb := mid; } else { na := mid; }
    }
  }

  /** The stretch of row k belongs to the byte that ends row p[k]. */
  lemma StretchByte(l: seq<Byte>, i: nat, c: nat)
    requires i < |l| && c < 256 && CountBelow(l, c) <= RowOf(l, i) < CountBelow(l, c + 1)
    ensures c == l[i]
  {
    CountAt(l, i, |l|);
    assert l[..|l|] == l;
    if (l[i] as int) + 1 <= c { CountBelowMono(l, (l[i] as int) + 1, c); }
    if c + 1 <= l[i] { CountBelowMono(l, c + 1, l[i]); }
  }

  /** Following RowOf from origPtr: the cycle of the pointer table that the reversal turns round. */
  ghost predicate Chain(l: seq<Byte>, c: seq<int>) {
    && |c| >= 1 && InRange(c, |l|) && Distinct(c)
    && forall t :: 1 <= t < |c| ==> c[t] == RowOf(l, c[t - 1])
  }

  /** The pointer table when the links into c[1..] have been turned round and no others. */
  ghost predicate Turned(ll: seq<nat>, l: seq<Byte>, c: seq<int>)
    requires Chain(l, c) && |ll| >= |l|
  {
    && (forall t :: 1 <= t < |c| ==> ll[c[t]] == c[t - 1])
    && (forall k :: 0 <= k < |l| && k !in c[1..] ==> ll[k] == RowOf(l, k))
  }

  /** The next link either meets a fresh row or closes the cycle at its start. */
  lemma ChainStep(ll: seq<nat>, l: seq<Byte>, c: seq<int>)
    requires Chain(l, c) && |ll| >= |l| && Turned(ll, l, c)
    ensures var i := c[|c| - 1]; var j := RowOf(l, i);
            ll[j] == RowOf(l, j) &&
            (j != c[0] ==> Chain(l, c + [j]) && Turned(ll[j := i], l, c + [j]))
  {
    hide RowOf;
    var i := c[|c| - 1];
    var j := RowOf(l, i);
    forall t | 1 <= t < |c|
      ensures c[t] != j
    {
      if c[t - 1] != i { RowOfOrder(l, c[t - 1], i); }
    }
    assert j !in c[1..];
    if j != c[0] {
      ChainLonger(ll, l, c, j);
    }
  }

  lemma ChainLonger(ll: seq<nat>, l: seq<Byte>, c: seq<int>, j: nat)
    requires Chain(l, c) && |ll| >= |l| && Turned(ll, l, c) && j !in c && j == RowOf(l, c[|c| - 1])
    ensures Chain(l, c + [j]) && Turned(ll[j := c[|c| - 1]], l, c + [j])
  {
    hide RowOf;
    var d := c + [j];
    assert d[1..] == c[1..] + [j];
    assert Chain(l, d);
  }

  /** Once closed, every pointer on the cycle is the inverse of RowOf. */
  ghost predicate CycleInverts(ll: seq<nat>, l: seq<Byte>, c: seq<int>) {
    && InRange(c, |l|) && |ll| >= |l|
    && forall k :: k in c ==> ll[k] in c && ll[k] < |l| && RowOf(l, ll[k]) == k
  }

  lemma ClosedCycle(ll: seq<nat>, l: seq<Byte>, c: seq<int>)
    requires Chain(l, c) && |ll| >= |l| && Turned(ll, l, c)
    requires RowOf(l, c[|c| - 1]) == c[0]
    ensures CycleInverts(ll[c[0] := c[|c| - 1]], l, c)
  {
    var u := ll[c[0] := c[|c| - 1]];
    forall k | k in c
      ensures u[k] in c && u[k] < |l| && RowOf(l, u[k]) == k
    {
      var t :| 0 <= t < |c| && c[t] == k;
      if t > 0 {
        assert u[k] == c[t - 1];
      }
    }
  }

  ghost function Pointers(store: SmallStore, n: nat): (r: seq<nat>)
    requires n <= store.ll16.Length <= 2 * store.ll4.Length
    reads store, store.ll16, store.ll4
    ensures |r| == n && forall i :: 0 <= i < n ==> r[i] == store.Get(i)
  {
    seq(n, i requires 0 <= i < n reads store, store.ll16, store.ll4 => store.Get(i))
  }

  /** Replaces the bytes in the store by their rows: the T vector. */
  method ComputeT(store: SmallStore, cftabCopy: array<nat>, nblock: nat, ghost l: seq<Byte>)
    requires store.Valid() && nblock == |l| <= store.ll16.Length && nblock <= 0x100000
    requires cftabCopy.Length == 257 && cftabCopy != store.ll16 && cftabCopy != store.ll4
    requires forall c :: 0 <= c <= 256 ==> cftabCopy[c] == CountBelow(l, c)
    requires forall k :: 0 <= k < nblock ==> store.ll16[k] == l[k]
    modifies store.ll16, store.ll4, cftabCopy
    ensures store.Valid() && forall k :: 0 <= k < nblock ==> store.Get(k) == RowOf(l, k)
  {
    assert Counters(cftabCopy[..], l, 0);
    hide RowOf, Counters;
    for i := 0 to nblock
      invariant store.Valid() && Counters(cftabCopy[..], l, i)
      invariant forall k :: 0 <= k < i ==> store.Get(k) == RowOf(l, k)
      invariant forall k :: i <= k < nblock ==> store.ll16[k] == l[k]
    {
      var uc := store.ll16[i] % 256;
      CountersStep(cftabCopy[..], l, i);
      store.Set(i, cftabCopy[uc]);
      cftabCopy[uc] := cftabCopy[uc] + 1;
    }
  }

  /** Computes T^-1 on the cycle of origPtr by reversing its pointers in place. */
  method ReverseCycle(store: SmallStore, nblock: nat, origPtr: nat, ghost l: seq<Byte>) returns (ghost c: seq<int>)
    requires store.Valid() && origPtr < nblock == |l| <= store.ll16.Length && nblock <= 0x100000
    requires forall k :: 0 <= k < nblock ==> store.Get(k) == RowOf(l, k)
    modifies store.ll16, store.ll4
    ensures store.Valid() && origPtr in c && CycleInverts(Pointers(store, nblock), l, c)
  {
    var i := origPtr;
    var j := store.Get(i);
    c := [origPtr];
    while true
      invariant store.Valid() && Chain(l, c) && c[0] == origPtr && i == c[|c| - 1] && j == RowOf(l, i)
      invariant Turned(Pointers(store, nblock), l, c)
      decreases nblock - |c|
    {
      ghost var ll := Pointers(store, nblock);
      ChainStep(ll, l, c);
      Pigeonhole(c, nblock);
      hide RowOf, Turned, Chain;
      var tmp := store.Get(j);
      store.Set(j, i);
      assert Pointers(store, nblock) == ll[j := i];
      i := j;
      j := tmp;
      if i == origPtr {
        ClosedCycle(ll, l, c);
        break;
      }
      c := c + [i];
      Pigeonhole(c, nblock);
    }
  }

  lemma InverseExists(l: seq<Byte>) returns (p: seq<int>)
    ensures Inverts(l, p) && |p| == |l| && InRange(p, |l|)
  {
    RowsOfPerm(l);
    p := [];
    while |p| < |l|
      invariant |p| <= |l| && InRange(p, |l|)
      invariant forall k :: 0 <= k < |p| ==> RowOf(l, p[k]) == k
    {
      var j := PermOnto(RowsOf(l), |l|, |p|);
      p := p + [j];
    }
  }

  lemma CycleAgrees(ll: seq<nat>, l: seq<Byte>, c: seq<int>, p: seq<int>, k: nat)
    requires CycleInverts(ll, l, c) && Inverts(l, p) && k in c && k < |l|
    ensures |p| == |l| && InRange(p, |l|) && k < |ll|
    ensures ll[k] == p[k] && p[k] in c && RowOf(l, p[k]) == k
  {
    if ll[k] != p[k] {
      RowOfOrder(l, ll[k], p[k]);
    }
  }

  lemma TransformedSize(b: seq<Byte>, fm: seq<int>, l: seq<Byte>, origPtr: nat)
    requires Transformed(b, fm, l, origPtr)
    ensures |l| == |b| && origPtr < |b|
  {
  }

  /** From the last column to the block: the set-up and the pointer walk of the SMALL layout. */
  method DecodeSmall(store: SmallStore, unzftab: array<nat>, cftab: array<nat>, cftabCopy: array<nat>,
                     nblock: nat, origPtr: nat, ghost b: seq<Byte>, ghost fm: seq<int>, ghost l: seq<Byte>)
    returns (out: seq<Byte>)
    requires store.Valid() && nblock == |b| <= store.ll16.Length && nblock <= 0x100000
    requires unzftab.Length == 256 && cftab.Length == 257 && cftabCopy.Length == 257
    requires unzftab != cftab && cftab != cftabCopy && unzftab != store.ll16 && unzftab != store.ll4
    requires cftab != store.ll16 && cftab != store.ll4 && cftabCopy != store.ll16 && cftabCopy != store.ll4
    requires Transformed(b, fm, l, origPtr)
    requires forall c :: 0 <= c < 256 ==> unzftab[c] == Count(l, c)
    requires forall k :: 0 <= k < nblock ==> store.ll16[k] == l[k]
    modifies store.ll16, store.ll4, cftab, cftabCopy
    ensures out == b
  {
    hide SortedBy, RowOf, LastColumn, Count, CountBelow;
    var ok := BuildCftab(unzftab, cftab, nblock, l);
    for i := 0 to 257
      invariant forall k :: 0 <= k < i ==> cftabCopy[k] == cftab[k]
      invariant forall c :: 0 <= c <= 256 ==> cftab[c] == CountBelow(l, c)
      invariant store.Valid() && forall k :: 0 <= k < nblock ==> store.ll16[k] == l[k]
    {
      cftabCopy[i] := cftab[i];
    }
    ComputeT(store, cftabCopy, nblock, l);
    ghost var c := ReverseCycle(store, nblock, origPtr, l);
    out := ReadSmall(store, cftab, nblock, origPtr, b, fm, l, c);
  }

  method ReadSmall(store: SmallStore, cftab: array<nat>, nblock: nat, origPtr: nat,
                   ghost b: seq<Byte>, ghost fm: seq<int>, ghost l: seq<Byte>, ghost c: seq<int>)
    returns (out: seq<Byte>)
    requires store.Valid() && nblock == |b| <= store.ll16.Length && cftab.Length == 257
    requires Transformed(b, fm, l, origPtr)
    requires forall c :: 0 <= c <= 256 ==> cftab[c] == CountBelow(l, c)
    requires origPtr in c && CycleInverts(Pointers(store, nblock), l, c)
    ensures out == b
  {
    hide RowOf, CycleInverts, Inverts, Transformed, Count, CountBelow;
    TransformedSize(b, fm, l, origPtr);
    ghost var p := InverseExists(l);
    var tPos := origPtr;
    out := [];
    CountAll(l);
    for m := 0 to nblock
      invariant tPos == Walk(p, origPtr, m) && tPos in c && tPos < nblock
      invariant out == b[..m]
    {
      WalkSpellsBlock(b, fm, l, origPtr, p, m);
      SmallMod(m, nblock);
      CycleAgrees(Pointers(store, nblock), l, c, p, tPos);
      var ch := IndexIntoF(tPos, cftab);
      StretchByte(l, p[tPos], ch);
      assert Walk(p, origPtr, m + 1) == p[tPos];
      tPos := store.Get(tPos);
      out := out + [ch];
    }
  }
}
