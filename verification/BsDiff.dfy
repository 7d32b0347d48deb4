/** Making a patch: matches found by binary search in the suffix array, stretched forwards and backwards. */
module BsDiff {
  import opened Bytes
  import opened Permutations
  import opened Offsets
  import opened BsPatch
  import opened SuffixOrder
  import opened SuffixSort

  // ---------------------------------------------------------------- what a list of triples makes

  /** The triples, the difference bytes and the extra bytes make new[..newpos] out of old, and lead to oldpos. */
  ghost predicate Made(old_: seq<Byte>, new_: seq<Byte>, ts: seq<Triple>, db: seq<Byte>, eb: seq<Byte>, newpos: int, oldpos: int)
    decreases |ts|
  {
    if ts == [] then db == [] && eb == [] && newpos == 0 && oldpos == 0
    else
      var t := ts[|ts| - 1];
      var np, op := newpos - t.diff - t.extra, oldpos - t.seek - t.diff;
      && TripleOk(t) && 0 <= t.diff <= |db| && 0 <= t.extra <= |eb|
      && 0 <= np < |new_| && newpos <= |new_| && 0 <= op && op + t.diff <= |old_|
      && Added(old_, db[|db| - t.diff..], op) + eb[|eb| - t.extra..] == new_[np..newpos]
      && Made(old_, new_, ts[..|ts| - 1], db[..|db| - t.diff], eb[..|eb| - t.extra], np, op)
  }

  function CtrlBytes(ts: seq<Triple>): seq<Byte>
    requires forall i :: 0 <= i < |ts| ==> TripleOk(ts[i])
  {
    if ts == [] then [] else CtrlBytes(ts[..|ts| - 1]) + TripleBytes(ts[|ts| - 1])
  }

  lemma PatchTriple(old_: seq<Byte>, t: Triple, ctrl: seq<Byte>, d: seq<Byte>, db: seq<Byte>, e: seq<Byte>, eb: seq<Byte>,
                    oldpos: int, newpos: int, newsize: int)
    requires TripleOk(t) && |d| == t.diff && |e| == t.extra && 0 <= newpos < newsize && newpos + t.diff + t.extra <= newsize
    ensures PatchFrom(old_, TripleBytes(t) + ctrl, d + db, e + eb, oldpos, newpos, newsize)
         == Then(Added(old_, d, oldpos) + e,
                 PatchFrom(old_, ctrl, db, eb, oldpos + t.diff + t.seek, newpos + t.diff + t.extra, newsize))
  {
    hide TripleBytes, ReadTriple, Added, Then, TripleOk;
    ReadTripleBytes(t, ctrl);
    TripleLength(t, ctrl);
    assert (TripleBytes(t) + ctrl)[24..] == ctrl;
    assert (d + db)[..|d|] == d && (d + db)[|d|..] == db;
    assert (e + eb)[..|e|] == e && (e + eb)[|e|..] == eb;
  }

  lemma TripleLength(t: Triple, ctrl: seq<Byte>)
    requires TripleOk(t)
    ensures |TripleBytes(t)| == 24 && |TripleBytes(t) + ctrl| >= 24
  {
  }

  /** The patcher, fed these streams and whatever follows them, first makes new[..newpos] and then goes on. */
  lemma {:induction false} MadePatches(old_: seq<Byte>, new_: seq<Byte>, ts: seq<Triple>, db: seq<Byte>, eb: seq<Byte>,
                                       newpos: int, oldpos: int, c2: seq<Byte>, d2: seq<Byte>, e2: seq<Byte>)
    requires Made(old_, new_, ts, db, eb, newpos, oldpos)
    requires forall i :: 0 <= i < |ts| ==> TripleOk(ts[i])
    ensures 0 <= newpos <= |new_|
    ensures PatchFrom(old_, CtrlBytes(ts) + c2, db + d2, eb + e2, 0, 0, |new_|)
         == Then(new_[..newpos], PatchFrom(old_, c2, d2, e2, oldpos, newpos, |new_|))
    decreases |ts|
  {
    hide PatchFrom, TripleBytes, Added, Then, TripleOk;
    if ts == [] {
      ThenNothing(new_[..0], PatchFrom(old_, c2, d2, e2, 0, 0, |new_|));
      assert [] + c2 == c2 && [] + d2 == d2 && [] + e2 == e2;
    } else {
      var n := |ts| - 1;
      var t := ts[n];
      var np, op := newpos - t.diff - t.extra, oldpos - t.seek - t.diff;
      var d, e := db[|db| - t.diff..], eb[|eb| - t.extra..];
      MadePatches(old_, new_, ts[..n], db[..|db| - t.diff], eb[..|eb| - t.extra], np, op, TripleBytes(t) + c2, d + d2, e + e2);
      assert CtrlBytes(ts) + c2 == CtrlBytes(ts[..n]) + (TripleBytes(t) + c2);
      assert db + d2 == db[..|db| - t.diff] + (d + d2) && eb + e2 == eb[..|eb| - t.extra] + (e + e2);
      PatchTriple(old_, t, c2, d, d2, e, e2, op, np, |new_|);
      ThenThen(new_[..np], new_[np..newpos], PatchFrom(old_, c2, d2, e2, oldpos, newpos, |new_|));
      assert new_[..np] + new_[np..newpos] == new_[..newpos];
    }
  }

  /** A finished patch makes the new file. */
  lemma MadeWhole(old_: seq<Byte>, new_: seq<Byte>, ts: seq<Triple>, db: seq<Byte>, eb: seq<Byte>, oldpos: int)
    requires Made(old_, new_, ts, db, eb, |new_|, oldpos)
    requires forall i :: 0 <= i < |ts| ==> TripleOk(ts[i])
    ensures PatchFrom(old_, CtrlBytes(ts), db, eb, 0, 0, |new_|) == Some(new_)
  {
    hide Made, CtrlBytes;
    MadePatches(old_, new_, ts, db, eb, |new_|, oldpos, [], [], []);
    assert CtrlBytes(ts) + [] == CtrlBytes(ts) && db + [] == db && eb + [] == eb;
    assert new_[..|new_|] == new_;
    ThenIs(new_, Some([]));
  }

  lemma MadeLast(old_: seq<Byte>, new_: seq<Byte>, ts: seq<Triple>, db: seq<Byte>, eb: seq<Byte>, newpos: int, oldpos: int,
                 t: Triple, np: int, op: int)
    requires ts != [] && t == ts[|ts| - 1] && np == newpos - t.diff - t.extra && op == oldpos - t.seek - t.diff
    requires TripleOk(t) && 0 <= t.diff <= |db| && 0 <= t.extra <= |eb|
    requires 0 <= np < |new_| && newpos <= |new_| && 0 <= op && op + t.diff <= |old_|
    requires Added(old_, db[|db| - t.diff..], op) + eb[|eb| - t.extra..] == new_[np..newpos]
    requires Made(old_, new_, ts[..|ts| - 1], db[..|db| - t.diff], eb[..|eb| - t.extra], np, op)
    ensures Made(old_, new_, ts, db, eb, newpos, oldpos)
  {
    hide Added, TripleOk;
  }

  lemma MadeNext(old_: seq<Byte>, new_: seq<Byte>, ts: seq<Triple>, db: seq<Byte>, eb: seq<Byte>, newpos: int, oldpos: int,
                 t: Triple, d: seq<Byte>, e: seq<Byte>)
    requires Made(old_, new_, ts, db, eb, newpos, oldpos) && TripleOk(t) && |d| == t.diff && |e| == t.extra
    requires 0 <= newpos < |new_| && newpos + t.diff + t.extra <= |new_| && 0 <= oldpos && oldpos + t.diff <= |old_|
    requires Added(old_, d, oldpos) == new_[newpos..newpos + t.diff]
    requires e == new_[newpos + t.diff..newpos + t.diff + t.extra]
    ensures Made(old_, new_, ts + [t], db + d, eb + e, newpos + t.diff + t.extra, oldpos + t.diff + t.seek)
  {
    hide Added, Made, TripleOk;
    var us, db2, eb2 := ts + [t], db + d, eb + e;
    var end := newpos + t.diff + t.extra;
    assert us[..|us| - 1] == ts && us[|us| - 1] == t;
    assert db2[..|db2| - t.diff] == db && db2[|db2| - t.diff..] == d;
    assert eb2[..|eb2| - t.extra] == eb && eb2[|eb2| - t.extra..] == e;
    assert Added(old_, d, oldpos) + e == new_[newpos..end];
    MadeLast(old_, new_, us, db2, eb2, end, oldpos + t.diff + t.seek, t, newpos, oldpos);
  }

  // ---------------------------------------------------------------- finding matches

  /** How far the text from p in old runs along the text from q in new. */
  function Common(old_: seq<Byte>, p: nat, new_: seq<Byte>, q: nat): (n: nat)
    ensures p <= |old_| && q <= |new_| ==> p + n <= |old_| && q + n <= |new_|
    decreases |old_| - p
  {
    if p < |old_| && q < |new_| && old_[p] == new_[q] then 1 + Common(old_, p + 1, new_, q + 1) else 0
  }

  method MatchLen(old_: seq<Byte>, p: nat, new_: seq<Byte>, q: nat) returns (i: nat)
    requires p <= |old_| && q <= |new_|
    ensures i == Common(old_, p, new_, q)
  {
    i := 0;
    while p + i < |old_| && q + i < |new_|
      invariant p + i <= |old_| && q + i <= |new_| && i + Common(old_, p + i, new_, q + i) == Common(old_, p, new_, q)
      decreases |old_| - p - i
    {
      if old_[p + i] != new_[q + i] { break; }
      i := i + 1;
    }
  }

  /** The common length is that of equal text, and of no longer one. */
  lemma {:induction false} CommonIs(old_: seq<Byte>, p: nat, new_: seq<Byte>, q: nat)
    requires p <= |old_| && q <= |new_|
    ensures var n := Common(old_, p, new_, q);
      && p + n <= |old_| && q + n <= |new_| && old_[p..p + n] == new_[q..q + n]
      && (p + n < |old_| && q + n < |new_| ==> old_[p + n] != new_[q + n])
    decreases |old_| - p
  {
    if p < |old_| && q < |new_| && old_[p] == new_[q] {
      CommonIs(old_, p + 1, new_, q + 1);
      var n := Common(old_, p + 1, new_, q + 1);
      assert old_[p..p + 1 + n] == [old_[p]] + old_[p + 1..p + 1 + n];
      assert new_[q..q + 1 + n] == [new_[q]] + new_[q + 1..q + 1 + n];
    }
  }

  lemma {:induction false} CommonLongest(old_: seq<Byte>, p: nat, new_: seq<Byte>, q: nat, m: nat)
    requires Matches(old_, p, new_, q, m)
    ensures m <= Common(old_, p, new_, q)
    decreases m
  {
    if m > 0 {
      assert old_[p] == old_[p..p + m][0] == new_[q..q + m][0] == new_[q];
      assert old_[p + 1..p + m] == old_[p..p + m][1..] == new_[q..q + m][1..] == new_[q + 1..q + m];
      CommonLongest(old_, p + 1, new_, q + 1, m - 1);
    }
  }

  /** memcmp of two equally long stretches: is the first the smaller one? */
  predicate Smaller(a: seq<Byte>, b: seq<Byte>)
    requires |a| == |b|
  {
    a != [] && (a[0] < b[0] || (a[0] == b[0] && Smaller(a[1..], b[1..])))
  }

  function Min(x: int, y: int): int { if x < y then x else y }

  /** The first bytes of the suffix at p, as many as both texts have, compare as smaller than those of new from q on. */
  predicate Under(old_: seq<Byte>, p: nat, new_: seq<Byte>, q: nat)
    requires p <= |old_| && q <= |new_|
  {
    var n := Min(|old_| - p, |new_| - q);
    Smaller(old_[p..p + n], new_[q..q + n])
  }

  /** They do so exactly if the first bytes that differ do. */
  lemma {:induction false} UnderIs(old_: seq<Byte>, p: nat, new_: seq<Byte>, q: nat)
    requires p <= |old_| && q <= |new_|
    ensures var n := Common(old_, p, new_, q);
      Under(old_, p, new_, q) <==> p + n < |old_| && q + n < |new_| && old_[p + n] < new_[q + n]
    decreases |old_| - p
  {
    var n := Min(|old_| - p, |new_| - q);
    if n > 0 {
      var a, b := old_[p..p + n], new_[q..q + n];
      assert a[0] == old_[p] && b[0] == new_[q];
      assert a[1..] == old_[p + 1..p + n] && b[1..] == new_[q + 1..q + n];
      if old_[p] == new_[q] { UnderIs(old_, p + 1, new_, q + 1); }
    }
  }

  /** Where the binary search between st and en ends: the length and place of the better of two neighbours. */
  ghost function Found(ix: seq<int>, old_: seq<Byte>, new_: seq<Byte>, q: nat, st: nat, en: nat): (r: (nat, nat))
    requires |ix| == |old_| + 1 && InRange(ix, |old_| + 1) && q <= |new_| && st <= en <= |old_|
    ensures r.1 <= |old_| && r.0 == Common(old_, r.1, new_, q)
    decreases en - st
  {
    if en - st < 2 then
      if Common(old_, ix[st], new_, q) > Common(old_, ix[en], new_, q)
      then (Common(old_, ix[st], new_, q), ix[st]) else (Common(old_, ix[en], new_, q), ix[en])
    else
      var x := st + (en - st) / 2;
      if Under(old_, ix[x], new_, q) then Found(ix, old_, new_, q, x, en) else Found(ix, old_, new_, q, st, x)
  }

  /** No suffix of old but the empty one is a proper prefix of new from q on. */
  ghost predicate NoTail(old_: seq<Byte>, new_: seq<Byte>, q: nat)
    requires q <= |new_|
  {
    forall p :: 0 <= p < |old_| ==> !(p + Common(old_, p, new_, q) == |old_| && q + Common(old_, p, new_, q) < |new_|)
  }

  /** m bytes from p on in old are those from q on in new. */
  predicate Matches(old_: seq<Byte>, p: nat, new_: seq<Byte>, q: nat, m: nat) {
    p + m <= |old_| && q + m <= |new_| && old_[p..p + m] == new_[q..q + m]
  }

  /** No match is longer. */
  ghost predicate Longest(old_: seq<Byte>, new_: seq<Byte>, q: nat, len: nat) {
    forall p: nat, m: nat :: Matches(old_, p, new_, q, m) ==> m <= len
  }

  /**
   * A position in old and the exact length of its match with new from q on; over the whole suffix array of old, the
   * longest match there is, unless the rest of old is a proper prefix of what is searched for.
   */
  method Search(ix: array<int>, old_: seq<Byte>, new_: seq<Byte>, q: nat, st: nat, en: nat) returns (len: nat, pos: nat)
    requires ix.Length == |old_| + 1 && InRange(ix[..], |old_| + 1) && q <= |new_|
    requires st <= en <= |old_|
    ensures Matches(old_, pos, new_, q, len) && pos + len <= |old_| && q + len <= |new_|
    ensures pos + len < |old_| && q + len < |new_| ==> old_[pos + len] != new_[q + len]
    ensures (len, pos) == Found(ix[..], old_, new_, q, st, en)
    ensures st == 0 && en == |old_| && SuffixArray(old_, ix[..]) && NoTail(old_, new_, q) ==> Longest(old_, new_, q, len)
    decreases en - st
  {
    hide Smaller, Common, SuffixArray, Longest, NoTail, Matches, InRange, Found;
    ghost var js := ix[..];
    FoundFacts(js, old_, new_, q, st, en);
    FoundStep(js, old_, new_, q, st, en);
    if en - st < 2 {
      var x := MatchLen(old_, ix[st], new_, q);
      var y := MatchLen(old_, ix[en], new_, q);
      if x > y {
        return x, ix[st];
      } else {
        return y, ix[en];
      }
    }
    var x := st + (en - st) / 2;
    InRangeAt(js, |old_| + 1, x);
    var n := Min(|old_| - ix[x], |new_| - q);
    if Smaller(old_[ix[x]..ix[x] + n], new_[q..q + n]) {
      len, pos := Search(ix, old_, new_, q, x, en);
    } else {
      len, pos := Search(ix, old_, new_, q, st, x);
    }
  }

  lemma FoundStep(ix: seq<int>, old_: seq<Byte>, new_: seq<Byte>, q: nat, st: nat, en: nat)
    requires |ix| == |old_| + 1 && InRange(ix, |old_| + 1) && q <= |new_| && st <= en <= |old_|
    ensures en - st < 2 ==>
      var x, y := Common(old_, ix[st], new_, q), Common(old_, ix[en], new_, q);
      Found(ix, old_, new_, q, st, en) == if x > y then (x, ix[st]) else (y, ix[en])
    ensures en - st >= 2 ==>
      var x := st + (en - st) / 2;
      Found(ix, old_, new_, q, st, en) ==
        if Under(old_, ix[x], new_, q) then Found(ix, old_, new_, q, x, en) else Found(ix, old_, new_, q, st, x)
  {
    hide Common, Under;
  }

  lemma InRangeAt(ix: seq<int>, n: nat, x: nat)
    requires InRange(ix, n) && x < |ix|
    ensures 0 <= ix[x] < n
  {
  }

  lemma FoundFacts(ix: seq<int>, old_: seq<Byte>, new_: seq<Byte>, q: nat, st: nat, en: nat)
    requires |ix| == |old_| + 1 && InRange(ix, |old_| + 1) && q <= |new_| && st <= en <= |old_|
    ensures 0 <= ix[st] <= |old_| && 0 <= ix[en] <= |old_|
    ensures var (len, pos) := Found(ix, old_, new_, q, st, en);
      && Matches(old_, pos, new_, q, len) && pos + len <= |old_| && q + len <= |new_|
      && (pos + len < |old_| && q + len < |new_| ==> old_[pos + len] != new_[q + len])
      && (st == 0 && en == |old_| && SuffixArray(old_, ix) && NoTail(old_, new_, q) ==> Longest(old_, new_, q, len))
  {
    hide Common, SuffixArray, Longest, NoTail, Found;
    CommonIs(old_, Found(ix, old_, new_, q, st, en).1, new_, q);
    if st == 0 && en == |old_| && SuffixArray(old_, ix) && NoTail(old_, new_, q) {
      FoundLongest(ix, old_, new_, q);
    }
  }

  /** Among suffixes below what is searched for, the greater ones match longer. */
  lemma LowerShorter(old_: seq<Byte>, new_: seq<Byte>, q: nat, p: nat, b: nat)
    requires p <= |old_| && b <= |old_| && q <= |new_| && Less(old_, p, b) && Under(old_, b, new_, q)
    ensures Common(old_, p, new_, q) <= Common(old_, b, new_, q)
  {
    hide Under, Smaller, Common;
    UnderIs(old_, b, new_, q);
    CommonIs(old_, b, new_, q);
    CommonIs(old_, p, new_, q);
    var m := Common(old_, b, new_, q);
    if Common(old_, p, new_, q) > m {
      SameStart(old_, new_, q, p, b, m, Common(old_, p, new_, q));
      AgreeShift(old_, p, b, m);
      assert false;
    }
  }

  /** And among those above it, the smaller ones. */
  lemma HigherShorter(old_: seq<Byte>, new_: seq<Byte>, q: nat, p: nat, b: nat)
    requires p <= |old_| && b < |old_| && q <= |new_| && Less(old_, b, p) && !Under(old_, b, new_, q) && NoTail(old_, new_, q)
    ensures Common(old_, p, new_, q) <= Common(old_, b, new_, q)
  {
    hide Under, Smaller, Common;
    UnderIs(old_, b, new_, q);
    CommonIs(old_, b, new_, q);
    CommonIs(old_, p, new_, q);
    var m := Common(old_, b, new_, q);
    if Common(old_, p, new_, q) > m {
      SameStart(old_, new_, q, p, b, m, Common(old_, p, new_, q));
      AgreeShift(old_, b, p, m);
      assert false;
    }
  }

  lemma SameStart(old_: seq<Byte>, new_: seq<Byte>, q: nat, p: nat, b: nat, m: nat, n: nat)
    requires m < n && p + n <= |old_| && q + n <= |new_| && old_[p..p + n] == new_[q..q + n]
    requires b + m <= |old_| && old_[b..b + m] == new_[q..q + m]
    ensures Agree(old_, p, b, m) && Agree(old_, b, p, m) && old_[p + m] == new_[q + m]
  {
    assert old_[p..p + m] == old_[p..p + n][..m] == new_[q..q + n][..m] == new_[q..q + m];
    assert old_[p + m] == old_[p..p + n][m] == new_[q..q + n][m] == new_[q + m];
  }

  /** What lies outside the stretch still searched matches no longer than its ends. */
  ghost predicate Flanked(ix: seq<int>, old_: seq<Byte>, new_: seq<Byte>, q: nat, st: nat, en: nat)
    requires |ix| == |old_| + 1 && InRange(ix, |old_| + 1) && q <= |new_| && st <= en <= |old_|
  {
    && (forall k :: 0 <= k < st ==> Common(old_, ix[k], new_, q) <= Common(old_, ix[st], new_, q))
    && (forall k :: en < k <= |old_| ==> Common(old_, ix[k], new_, q) <= Common(old_, ix[en], new_, q))
  }

  lemma FlankedStep(ix: seq<int>, old_: seq<Byte>, new_: seq<Byte>, q: nat, st: nat, en: nat, x: nat)
    requires SuffixArray(old_, ix) && |ix| == |old_| + 1 && InRange(ix, |old_| + 1) && q <= |new_| && NoTail(old_, new_, q)
    requires st < x < en <= |old_| && Flanked(ix, old_, new_, q, st, en)
    ensures Under(old_, ix[x], new_, q) ==> Flanked(ix, old_, new_, q, x, en)
    ensures !Under(old_, ix[x], new_, q) ==> Flanked(ix, old_, new_, q, st, x)
  {
    hide Under, Common, NoTail, IsPerm;
    if Under(old_, ix[x], new_, q) {
      forall k | 0 <= k < x ensures Common(old_, ix[k], new_, q) <= Common(old_, ix[x], new_, q) {
        LowerShorter(old_, new_, q, ix[k], ix[x]);
      }
    } else {
      LastIsNotFirst(old_, ix, x);
      forall k | x < k <= |old_| ensures Common(old_, ix[k], new_, q) <= Common(old_, ix[x], new_, q) {
        HigherShorter(old_, new_, q, ix[k], ix[x]);
      }
    }
  }

  /** The empty suffix comes first. */
  lemma LastIsNotFirst(old_: seq<Byte>, ix: seq<int>, x: nat)
    requires SuffixArray(old_, ix) && |ix| == |old_| + 1 && InRange(ix, |old_| + 1) && 0 < x <= |old_|
    ensures ix[x] < |old_|
  {
    assert Less(old_, ix[0], ix[x]);
  }

  lemma {:induction false} FlankedFound(ix: seq<int>, old_: seq<Byte>, new_: seq<Byte>, q: nat, st: nat, en: nat)
    requires SuffixArray(old_, ix) && |ix| == |old_| + 1 && InRange(ix, |old_| + 1) && q <= |new_| && NoTail(old_, new_, q)
    requires st <= en <= |old_| && Flanked(ix, old_, new_, q, st, en)
    ensures forall k :: 0 <= k <= |old_| ==> Common(old_, ix[k], new_, q) <= Found(ix, old_, new_, q, st, en).0
    decreases en - st
  {
    hide Under, Common, NoTail, SuffixArray;
    if en - st >= 2 {
      var x := st + (en - st) / 2;
      FlankedStep(ix, old_, new_, q, st, en, x);
      if Under(old_, ix[x], new_, q) {
        FlankedFound(ix, old_, new_, q, x, en);
      } else {
        FlankedFound(ix, old_, new_, q, st, x);
      }
    }
  }

  /** Over the whole suffix array the search finds a longest match, if no rest of old is a proper prefix of the text. */
  lemma FoundLongest(ix: seq<int>, old_: seq<Byte>, new_: seq<Byte>, q: nat)
    requires SuffixArray(old_, ix) && |ix| == |old_| + 1 && InRange(ix, |old_| + 1) && q <= |new_| && NoTail(old_, new_, q)
    ensures Longest(old_, new_, q, Found(ix, old_, new_, q, 0, |old_|).0)
  {
    hide Common, NoTail, Found;
    FlankedFound(ix, old_, new_, q, 0, |old_|);
    forall p: nat, m: nat | Matches(old_, p, new_, q, m)
      ensures m <= Found(ix, old_, new_, q, 0, |old_|).0
    {
      CommonLongest(old_, p, new_, q, m);
      var k := SuffixPlace(old_, ix, p);
    }
  }

  lemma SuffixPlace(old_: seq<Byte>, ix: seq<int>, p: nat) returns (k: nat)
    requires SuffixArray(old_, ix) && p <= |old_|
    ensures |ix| == |old_| + 1 && k <= |old_| && ix[k] == p
  {
    hide Less;
    k := PermOnto(ix, |old_| + 1, p);
  }

  /** The condition is needed: in "aa", "aa" is found with one byte only, since the rest "a" is taken for greater. */
  lemma SearchMisses()
    ensures SuffixArray([97, 97], [2, 1, 0]) && !NoTail([97, 97], [97, 97], 0)
    ensures Found([2, 1, 0], [97, 97], [97, 97], 0, 0, 2) == (1, 1) && !Longest([97, 97], [97, 97], 0, 1)
  {
    var old_: seq<Byte>, ix: seq<int> := [97, 97], [2, 1, 0];
    assert Common(old_, 2, old_, 0) == 0;
    assert Common(old_, 1, old_, 0) == 1;
    assert !Under(old_, 1, old_, 0) by { UnderIs(old_, 1, old_, 0); }
    assert Found(ix, old_, old_, 0, 0, 1) == (1, 1);
    assert Matches(old_, 0, old_, 0, 2);
    assert Less(old_, 2, 1) && Less(old_, 2, 0) && Less(old_, 1, 0);
  }

  // ---------------------------------------------------------------- how far to stretch a match

  /** Is new[q] the old byte at the given offset from it? */
  predicate Hit(old_: seq<Byte>, new_: seq<Byte>, offset: int, q: int) {
    0 <= q < |new_| && 0 <= q + offset < |old_| && old_[q + offset] == new_[q]
  }

  /** Hits among new[a..b]. */
  function Hits(old_: seq<Byte>, new_: seq<Byte>, offset: int, a: int, b: int): (n: nat)
    ensures a <= b ==> n <= b - a
    decreases b - a
  {
    if b <= a then 0 else Hits(old_, new_, offset, a, b - 1) + (if Hit(old_, new_, offset, b - 1) then 1 else 0)
  }

  lemma {:induction false} HitsFirst(old_: seq<Byte>, new_: seq<Byte>, offset: int, a: int, b: int)
    requires a < b
    ensures Hits(old_, new_, offset, a, b)
         == (if Hit(old_, new_, offset, a) then 1 else 0) + Hits(old_, new_, offset, a + 1, b)
    decreases b - a
  {
    if a + 1 < b { HitsFirst(old_, new_, offset, a, b - 1); }
  }

  /** How far the matches found from start to s reach. */
  ghost function Reach(ix: seq<int>, old_: seq<Byte>, new_: seq<Byte>, start: nat, s: int): (e: nat)
    requires |ix| == |old_| + 1 && InRange(ix, |old_| + 1) && start - 1 <= s <= |new_| && start <= |new_|
    ensures start <= e <= |new_| && s <= e
    decreases s + 1
  {
    if s < start then start
    else
      var before, len := Reach(ix, old_, new_, start, s - 1), Found(ix, old_, new_, s, 0, |old_|).0;
      if before < s + len then s + len else before
  }

  /** How many bytes agree at the old offset, as far as the matches so far reach. */
  ghost function Score(ix: seq<int>, old_: seq<Byte>, new_: seq<Byte>, start: nat, offset: int, s: nat): int
    requires |ix| == |old_| + 1 && InRange(ix, |old_| + 1) && start <= s <= |new_|
  {
    Hits(old_, new_, offset, s, Reach(ix, old_, new_, start, s))
  }

  /** The match found at s agrees with the old offset, or beats it by more than eight. */
  ghost predicate Stops(ix: seq<int>, old_: seq<Byte>, new_: seq<Byte>, start: nat, offset: int, s: nat)
    requires |ix| == |old_| + 1 && InRange(ix, |old_| + 1) && start <= s <= |new_|
  {
    var len, score := Found(ix, old_, new_, s, 0, |old_|).0, Score(ix, old_, new_, start, offset, s);
    (len == score && len != 0) || len > score + 8
  }

  /** From start on, scan is the first place that stops, with the match found there. */
  ghost predicate Scanned(ix: seq<int>, old_: seq<Byte>, new_: seq<Byte>, start: nat, offset: int, scan: nat, len: nat, pos: nat)
    requires |ix| == |old_| + 1 && InRange(ix, |old_| + 1) && start <= scan <= |new_|
  {
    && (forall s :: start <= s < scan ==> !Stops(ix, old_, new_, start, offset, s))
    && (scan < |new_| ==> Stops(ix, old_, new_, start, offset, scan) && (len, pos) == Found(ix, old_, new_, scan, 0, |old_|))
  }

  /**
   * Scanning new for a match that beats going on at the old offset: the first place, with the match found there, where
   * the old offset does just as well or is more than eight hits worse.
   */
  method ScanAhead(ix: array<int>, old_: seq<Byte>, new_: seq<Byte>, start: nat, lastoffset: int, len0: nat, pos0: nat)
    returns (scan: nat, len: nat, pos: nat, oldscore: int)
    requires ix.Length == |old_| + 1 && InRange(ix[..], |old_| + 1) && start <= |new_|
    requires start + lastoffset >= 0 && pos0 <= |old_|
    ensures start <= scan <= |new_| && pos <= |old_| && Scanned(ix[..], old_, new_, start, lastoffset, scan, len, pos)
    ensures scan < |new_| ==> oldscore == Score(ix[..], old_, new_, start, lastoffset, scan)
    ensures scan < |new_| ==> 0 < len && scan + len <= |new_| && Matches(old_, pos, new_, scan, len)
  {
    hide Hits, Found, Matches, SuffixArray, Longest, NoTail, Reach, Score, InRange;
    ghost var js := ix[..];
    scan, len, pos, oldscore := start, len0, pos0, 0;
    var scsc := start;
    HitsNone(old_, new_, lastoffset, scan);
    ReachStart(js, old_, new_, start);
    while scan < |new_|
      invariant start <= scan <= |new_| && start <= scsc <= |new_| && pos <= |old_| && scan <= scsc + 1
      invariant scsc == Reach(js, old_, new_, start, scan - 1)
      invariant oldscore == Lead(old_, new_, lastoffset, scan, scsc)
      invariant forall s :: start <= s < scan ==> !Stops(js, old_, new_, start, lastoffset, s)
      decreases |new_| - scan
    {
      len, pos := Search(ix, old_, new_, scan, 0, |old_|);
      ReachStep(js, old_, new_, start, scan);
      scsc, oldscore := CountOn(old_, new_, lastoffset, scan, scsc, oldscore, len);
      ScoreIs(js, old_, new_, start, lastoffset, scan, scsc, oldscore);
      if (len == oldscore && len != 0) || len > oldscore + 8 { break; }
      LeadDown(old_, new_, lastoffset, scan, scsc);
      if scan + lastoffset < |old_| && old_[scan + lastoffset] == new_[scan] {
        oldscore := oldscore - 1;
      }
      scan := scan + 1;
    }
  }

  lemma ReachStart(ix: seq<int>, old_: seq<Byte>, new_: seq<Byte>, start: nat)
    requires |ix| == |old_| + 1 && InRange(ix, |old_| + 1) && start <= |new_|
    ensures Reach(ix, old_, new_, start, start - 1) == start
  {
  }

  lemma ReachStep(ix: seq<int>, old_: seq<Byte>, new_: seq<Byte>, start: nat, s: nat)
    requires |ix| == |old_| + 1 && InRange(ix, |old_| + 1) && start <= s <= |new_|
    ensures var before, len := Reach(ix, old_, new_, start, s - 1), Found(ix, old_, new_, s, 0, |old_|).0;
            Reach(ix, old_, new_, start, s) == if before < s + len then s + len else before
  {
    hide Found;
  }

  lemma ScoreIs(ix: seq<int>, old_: seq<Byte>, new_: seq<Byte>, start: nat, offset: int, s: nat, scsc: nat, score: int)
    requires |ix| == |old_| + 1 && InRange(ix, |old_| + 1) && start <= s <= scsc <= |new_|
    requires scsc == Reach(ix, old_, new_, start, s) && score == Lead(old_, new_, offset, s, scsc)
    ensures score == Score(ix, old_, new_, start, offset, s)
  {
    hide Found, Hits, Reach;
  }

  /** The inner loop: agreeing bytes are counted up to the end of the match. */
  method CountOn(old_: seq<Byte>, new_: seq<Byte>, lastoffset: int, scan: nat, scsc0: nat, score0: int, len: nat)
    returns (scsc: nat, score: int)
    requires scan + len <= |new_| && scan <= scsc0 + 1 && scsc0 <= |new_| && scsc0 + lastoffset >= 0
    requires score0 == Lead(old_, new_, lastoffset, scan, scsc0)
    ensures scsc == (if scsc0 < scan + len then scan + len else scsc0) && scan <= scsc <= |new_|
    ensures score == Lead(old_, new_, lastoffset, scan, scsc)
  {
    hide Hits, Lead;
    scsc, score := scsc0, score0;
    while scsc < scan + len
      invariant scsc0 <= scsc <= |new_| && scan <= scsc + 1 && (scsc == scsc0 || scsc <= scan + len)
      invariant score == Lead(old_, new_, lastoffset, scan, scsc)
      decreases |new_| - scsc
    {
      LeadUp(old_, new_, lastoffset, scan, scsc);
      if scsc + lastoffset < |old_| && old_[scsc + lastoffset] == new_[scsc] {
        score := score + 1;
      }
      scsc := scsc + 1;
    }
  }

  /** Hits from a to b, counted back when a is ahead. */
  function Lead(old_: seq<Byte>, new_: seq<Byte>, offset: int, a: int, b: int): int {
    if a <= b then Hits(old_, new_, offset, a, b) else 0 - Hits(old_, new_, offset, b, a)
  }

  lemma LeadUp(old_: seq<Byte>, new_: seq<Byte>, offset: int, a: int, b: int)
    requires a <= b + 1
    ensures Lead(old_, new_, offset, a, b + 1) == Lead(old_, new_, offset, a, b) + (if Hit(old_, new_, offset, b) then 1 else 0)
  {
    HitsNone(old_, new_, offset, b);
    HitsNone(old_, new_, offset, b + 1);
  }

  lemma LeadDown(old_: seq<Byte>, new_: seq<Byte>, offset: int, a: int, b: int)
    requires a <= b
    ensures Lead(old_, new_, offset, a + 1, b) == Lead(old_, new_, offset, a, b) - (if Hit(old_, new_, offset, a) then 1 else 0)
  {
    HitsNone(old_, new_, offset, a);
    if a < b { HitsFirst(old_, new_, offset, a, b); }
  }

  lemma HitsNone(old_: seq<Byte>, new_: seq<Byte>, offset: int, a: int)
    ensures Hits(old_, new_, offset, a, a) == 0
  {
  }

  /** What coding new[a..b] as differences gains over leaving it out. */
  function Gain(old_: seq<Byte>, new_: seq<Byte>, offset: int, a: int, b: int): int {
    2 * Hits(old_, new_, offset, a, b) - (b - a)
  }

  /** How many more hits one offset has than the other. */
  function Edge(old_: seq<Byte>, new_: seq<Byte>, offset: int, other: int, a: int, b: int): int {
    Hits(old_, new_, offset, a, b) - Hits(old_, new_, other, a, b)
  }

  /** Of the stretches from a to at most b the one to e gains most, and it is the shortest that does. */
  ghost predicate BestEnd(old_: seq<Byte>, new_: seq<Byte>, offset: int, a: int, b: int, e: int) {
    && a <= e <= b && (forall m :: a <= m <= b ==> Gain(old_, new_, offset, a, m) <= Gain(old_, new_, offset, a, e))
    && forall m :: a <= m < e ==> Gain(old_, new_, offset, a, m) < Gain(old_, new_, offset, a, e)
  }

  ghost predicate BestStart(old_: seq<Byte>, new_: seq<Byte>, offset: int, a: int, b: int, e: int) {
    && a <= e <= b && (forall m :: a <= m <= b ==> Gain(old_, new_, offset, m, b) <= Gain(old_, new_, offset, e, b))
    && forall m :: e < m <= b ==> Gain(old_, new_, offset, m, b) < Gain(old_, new_, offset, e, b)
  }

  /** Changing from the one offset to the other at e keeps the most hits, and there is no earlier place that does. */
  ghost predicate BestCut(old_: seq<Byte>, new_: seq<Byte>, offset: int, other: int, a: int, b: int, e: int) {
    && a <= e <= b && (forall m :: a <= m <= b ==> Edge(old_, new_, offset, other, a, m) <= Edge(old_, new_, offset, other, a, e))
    && forall m :: a <= m < e ==> Edge(old_, new_, offset, other, a, m) < Edge(old_, new_, offset, other, a, e)
  }

  lemma GainNext(old_: seq<Byte>, new_: seq<Byte>, offset: int, a: int, b: int)
    requires a <= b
    ensures Gain(old_, new_, offset, a, b + 1) == Gain(old_, new_, offset, a, b) + (if Hit(old_, new_, offset, b) then 1 else -1)
  {
  }

  lemma GainPrev(old_: seq<Byte>, new_: seq<Byte>, offset: int, a: int, b: int)
    requires a < b
    ensures Gain(old_, new_, offset, a, b) == (if Hit(old_, new_, offset, a) then 1 else -1) + Gain(old_, new_, offset, a + 1, b)
  {
    HitsFirst(old_, new_, offset, a, b);
  }

  lemma EdgeNext(old_: seq<Byte>, new_: seq<Byte>, offset: int, other: int, a: int, b: int)
    requires a <= b
    ensures Edge(old_, new_, offset, other, a, b + 1) == Edge(old_, new_, offset, other, a, b)
      + (if Hit(old_, new_, offset, b) then 1 else 0) - (if Hit(old_, new_, other, b) then 1 else 0)
  {
  }

  lemma GainNone(old_: seq<Byte>, new_: seq<Byte>, offset: int, other: int, a: int)
    ensures Gain(old_, new_, offset, a, a) == 0 && Edge(old_, new_, offset, other, a, a) == 0
  {
  }

  /** The stretch of new[lastscan..scan] after the last match that gains most over leaving it out. */
  method ExtendForward(old_: seq<Byte>, new_: seq<Byte>, lastscan: nat, lastpos: nat, scan: nat) returns (lenf: nat)
    requires lastscan <= scan <= |new_| && lastpos <= |old_|
    ensures lastscan + lenf <= scan && lastpos + lenf <= |old_|
    ensures BestEnd(old_, new_, lastpos - lastscan, lastscan, Min(scan, |old_| - (lastpos - lastscan)), lastscan + lenf)
  {
    hide Gain;
    ghost var off := lastpos - lastscan;
    var s, sf, i := 0, 0, 0;
    lenf := 0;
    GainNone(old_, new_, off, off, lastscan);
    while lastscan + i < scan && lastpos + i < |old_|
      invariant 0 <= lenf <= i && lastscan + i <= scan && lastpos + i <= |old_|
      invariant s * 2 - i == Gain(old_, new_, off, lastscan, lastscan + i)
      invariant sf * 2 - lenf == Gain(old_, new_, off, lastscan, lastscan + lenf)
      invariant forall m :: lastscan <= m <= lastscan + i ==> Gain(old_, new_, off, lastscan, m) <= sf * 2 - lenf
      invariant forall m :: lastscan <= m < lastscan + lenf ==> Gain(old_, new_, off, lastscan, m) < sf * 2 - lenf
    {
      GainNext(old_, new_, off, lastscan, lastscan + i);
      if old_[lastpos + i] == new_[lastscan + i] { s := s + 1; }
      i := i + 1;
      if s * 2 - i > sf * 2 - lenf {
        sf, lenf := s, i;
      }
    }
  }

  /** The stretch before the new match that gains most. */
  method ExtendBackward(old_: seq<Byte>, new_: seq<Byte>, lastscan: nat, scan: nat, pos: nat) returns (lenb: nat)
    requires lastscan <= scan <= |new_| && pos <= |old_|
    ensures lenb <= pos && lastscan + lenb <= scan && (scan == |new_| ==> lenb == 0)
    ensures scan < |new_| ==> BestStart(old_, new_, pos - scan, if lastscan >= scan - pos then lastscan else scan - pos, scan, scan - lenb)
  {
    hide Gain;
    lenb := 0;
    if scan < |new_| {
      var s, sb, i := 0, 0, 1;
      ghost var off := pos - scan;
      GainNone(old_, new_, off, off, scan);
      while scan >= lastscan + i && pos >= i
        invariant 1 <= i && 0 <= lenb < i && i <= pos + 1 && lastscan + i <= scan + 1
        invariant s * 2 - (i - 1) == Gain(old_, new_, off, scan - (i - 1), scan)
        invariant sb * 2 - lenb == Gain(old_, new_, off, scan - lenb, scan)
        invariant forall m :: scan - i < m <= scan ==> Gain(old_, new_, off, m, scan) <= sb * 2 - lenb
        invariant forall m :: scan - lenb < m <= scan ==> Gain(old_, new_, off, m, scan) < sb * 2 - lenb
        decreases scan - i
      {
        GainPrev(old_, new_, off, scan - i, scan);
        if old_[pos - i] == new_[scan - i] { s := s + 1; }
        if s * 2 - i > sb * 2 - lenb {
          sb, lenb := s, i;
        }
        i := i + 1;
      }
    }
  }

  /** Where the two stretches overlap they are cut so as to keep the most hits. */
  method CutOverlap(old_: seq<Byte>, new_: seq<Byte>, lastscan: nat, lastpos: nat, scan: nat, pos: nat, lenf0: nat, lenb0: nat)
    returns (lenf: nat, lenb: nat)
    requires lastscan + lenf0 <= scan <= |new_| && lastpos + lenf0 <= |old_|
    requires lastscan + lenb0 <= scan && lenb0 <= pos <= |old_|
    ensures lenf <= lenf0 && lenb <= lenb0 && lastscan + lenf <= scan - lenb
    ensures lastscan + lenf0 <= scan - lenb0 ==> lenf == lenf0 && lenb == lenb0
    ensures lastscan + lenf0 > scan - lenb0 ==> lastscan + lenf == scan - lenb
    ensures lastscan + lenf0 > scan - lenb0 ==>
      BestCut(old_, new_, lastpos - lastscan, pos - scan, scan - lenb0, lastscan + lenf0, scan - lenb)
  {
    hide Edge;
    lenf, lenb := lenf0, lenb0;
    if lastscan + lenf > scan - lenb {
      var overlap := (lastscan + lenf) - (scan - lenb);
      ghost var m0, f, g := scan - lenb, lastpos - lastscan, pos - scan;
      var s, ss, lens, i := 0, 0, 0, 0;
      GainNone(old_, new_, f, g, m0);
      while i < overlap
        invariant 0 <= lens <= i <= overlap
        invariant s == Edge(old_, new_, f, g, m0, m0 + i)
        invariant ss == Edge(old_, new_, f, g, m0, m0 + lens)
        invariant forall m :: m0 <= m <= m0 + i ==> Edge(old_, new_, f, g, m0, m) <= ss
        invariant forall m :: m0 <= m < m0 + lens ==> Edge(old_, new_, f, g, m0, m) < ss
      {
        EdgeNext(old_, new_, f, g, m0, m0 + i);
        if new_[lastscan + lenf - overlap + i] == old_[lastpos + lenf - overlap + i] { s := s + 1; }
        if new_[scan - lenb + i] == old_[pos - lenb + i] { s := s - 1; }
        if s > ss { ss, lens := s, i + 1; }
        i := i + 1;
      }
      lenf := lenf + lens - overlap;
      lenb := lenb - lens;
    }
  }

  // ---------------------------------------------------------------- the whole patch

  function Difference(x: Byte, y: Byte): Byte {
    (x as int - y as int) % 256
  }

  lemma DifferenceSum(x: Byte, y: Byte)
    ensures Sum(Difference(x, y), y) == x
  {
  }

  /** The difference bytes of one triple. */
  method PutDifferences(db: array<Byte>, dblen: nat, old_: seq<Byte>, lastpos: nat, new_: seq<Byte>, lastscan: nat, lenf: nat)
    requires dblen + lenf <= db.Length && lastpos + lenf <= |old_| && lastscan + lenf <= |new_|
    modifies db
    ensures db[..dblen] == old(db[..dblen])
    ensures Added(old_, db[dblen..dblen + lenf], lastpos) == new_[lastscan..lastscan + lenf]
  {
    hide Difference, Sum;
    var i := 0;
    while i < lenf
      invariant 0 <= i <= lenf
      invariant forall k :: 0 <= k < dblen ==> db[k] == old(db[k])
      invariant forall k :: dblen <= k < dblen + i ==> db[k] == Difference(new_[lastscan + (k - dblen)], old_[lastpos + (k - dblen)])
    {
      db[dblen + i] := Difference(new_[lastscan + i], old_[lastpos + i]);
      i := i + 1;
    }
    ghost var d := db[dblen..dblen + lenf];
    forall k | 0 <= k < lenf ensures Added(old_, d, lastpos)[k] == new_[lastscan..lastscan + lenf][k] {
      assert d[k] == db[dblen + k] == Difference(new_[lastscan + k], old_[lastpos + k]);
      DifferenceSum(new_[lastscan + k], old_[lastpos + k]);
    }
  }

  method PutExtra(eb: array<Byte>, eblen: nat, src: seq<Byte>)
    requires eblen + |src| <= eb.Length
    modifies eb
    ensures eb[..eblen + |src|] == old(eb[..eblen]) + src
  {
    CopyIn(eb, eblen, src);
    assert eb[..eblen + |src|] == eb[..eblen] + eb[eblen..eblen + |src|];
  }

  /** The control stream holds these triples. */
  ghost predicate Control(ctrl: seq<Byte>, ts: seq<Triple>) {
    (forall i :: 0 <= i < |ts| ==> TripleOk(ts[i])) && ctrl == CtrlBytes(ts)
  }

  /** The streams written so far make new[..newpos]. */
  ghost predicate Streams(old_: seq<Byte>, new_: seq<Byte>, ts: seq<Triple>, ctrl: seq<Byte>, db: seq<Byte>, eb: seq<Byte>,
                          newpos: int, oldpos: int) {
    Made(old_, new_, ts, db, eb, newpos, oldpos) && Control(ctrl, ts)
  }

  lemma StreamsStart(old_: seq<Byte>, new_: seq<Byte>, db: seq<Byte>, eb: seq<Byte>)
    requires db == [] && eb == []
    ensures Streams(old_, new_, [], [], db, eb, 0, 0)
  {
  }

  lemma {:induction false} MadeSizes(old_: seq<Byte>, new_: seq<Byte>, ts: seq<Triple>, db: seq<Byte>, eb: seq<Byte>, newpos: int, oldpos: int)
    requires Made(old_, new_, ts, db, eb, newpos, oldpos)
    ensures |db| + |eb| == newpos
    decreases |ts|
  {
    hide Added;
    if ts != [] {
      var n := |ts| - 1;
      var t := ts[n];
      MadeSizes(old_, new_, ts[..n], db[..|db| - t.diff], eb[..|eb| - t.extra],
                newpos - t.diff - t.extra, oldpos - t.seek - t.diff);
    }
  }

  lemma StreamsNext(old_: seq<Byte>, new_: seq<Byte>, ts: seq<Triple>, ctrl: seq<Byte>, db: seq<Byte>, eb: seq<Byte>,
                    newpos: int, oldpos: int, t: Triple, d: seq<Byte>, e: seq<Byte>)
    requires Streams(old_, new_, ts, ctrl, db, eb, newpos, oldpos) && TripleOk(t) && |d| == t.diff && |e| == t.extra
    requires 0 <= newpos < |new_| && newpos + t.diff + t.extra <= |new_| && 0 <= oldpos && oldpos + t.diff <= |old_|
    requires Added(old_, d, oldpos) == new_[newpos..newpos + t.diff]
    requires e == new_[newpos + t.diff..newpos + t.diff + t.extra]
    ensures Streams(old_, new_, ts + [t], ctrl + TripleBytes(t), db + d, eb + e,
                    newpos + t.diff + t.extra, oldpos + t.diff + t.seek)
  {
    hide Made, Added, TripleBytes;
    MadeNext(old_, new_, ts, db, eb, newpos, oldpos, t, d, e);
    assert (ts + [t])[..|ts|] == ts;
  }

  method PutNumber(x: int) returns (s: seq<Byte>)
    requires -LIMIT < x < LIMIT
    ensures s == Written(x)
  {
    var buf := new Byte[8];
    OffOut(x, buf);
    s := buf[..];
  }

  method PutTriple(diff: int, extra: int, seek: int) returns (s: seq<Byte>)
    requires TripleOk(Triple(diff, extra, seek))
    ensures s == TripleBytes(Triple(diff, extra, seek))
  {
    hide Written;
    var w0 := PutNumber(diff);
    var w1 := PutNumber(extra);
    var w2 := PutNumber(seek);
    s := w0 + w1 + w2;
  }

  /** One triple and its bytes go to the three streams. */
  method Emit(old_: seq<Byte>, new_: seq<Byte>, db: array<Byte>, dblen: nat, eb: array<Byte>, eblen: nat, ctrl: seq<Byte>,
              lastscan: nat, lastpos: nat, lenf: nat, extra: nat, seek: int, ghost ts: seq<Triple>)
    returns (ctrl2: seq<Byte>)
    requires db != eb && db.Length == eb.Length == |new_| + 1 && dblen <= db.Length && eblen <= eb.Length
    requires Streams(old_, new_, ts, ctrl, db[..dblen], eb[..eblen], lastscan, lastpos)
    requires lastscan < |new_| && lastscan + lenf + extra <= |new_| && lastpos + lenf <= |old_|
    requires |new_| < LIMIT && -LIMIT < seek < LIMIT
    modifies db, eb
    ensures dblen + lenf <= db.Length && eblen + extra <= eb.Length
    ensures Streams(old_, new_, ts + [Triple(lenf, extra, seek)], ctrl2, db[..dblen + lenf], eb[..eblen + extra],
                    lastscan + lenf + extra, lastpos + lenf + seek)
  {
    hide Streams, Made, Added, TripleBytes;
    ghost var t := Triple(lenf, extra, seek);
    ghost var d0, e0 := db[..dblen], eb[..eblen];
    StreamsSizes(old_, new_, ts, ctrl, d0, e0, lastscan, lastpos);
    PutDifferences(db, dblen, old_, lastpos, new_, lastscan, lenf);
    ghost var d := db[dblen..dblen + lenf];
    assert db[..dblen + lenf] == d0 + d;
    PutExtra(eb, eblen, new_[lastscan + lenf..lastscan + lenf + extra]);
    var w := PutTriple(lenf, extra, seek);
    ctrl2 := ctrl + w;
    StreamsNext(old_, new_, ts, ctrl, d0, e0, lastscan, lastpos, t, d, new_[lastscan + lenf..lastscan + lenf + extra]);
  }

  lemma StreamsSizes(old_: seq<Byte>, new_: seq<Byte>, ts: seq<Triple>, ctrl: seq<Byte>, db: seq<Byte>, eb: seq<Byte>,
                     newpos: int, oldpos: int)
    requires Streams(old_, new_, ts, ctrl, db, eb, newpos, oldpos)
    ensures |db| + |eb| == newpos
  {
    MadeSizes(old_, new_, ts, db, eb, newpos, oldpos);
  }

  lemma StreamsEnd(old_: seq<Byte>, new_: seq<Byte>, ts: seq<Triple>, ctrl: seq<Byte>, db: seq<Byte>, eb: seq<Byte>, oldpos: int)
    requires Streams(old_, new_, ts, ctrl, db, eb, |new_|, oldpos)
    ensures PatchFrom(old_, ctrl, db, eb, 0, 0, |new_|) == Some(new_) && Control(ctrl, ts)
  {
    MadeWhole(old_, new_, ts, db, eb, oldpos);
  }

  // ---------------------------------------------------------------- which triples are sent

  /** Between two turns: the place and match found last, and the place, the old place and the offset the last triple left. */
  datatype Cursor = Cursor(scan: nat, len: nat, pos: nat, lastscan: nat, lastpos: nat, lastoffset: int)

  const FIRST: Cursor := Cursor(0, 0, 0, 0, 0, 0)

  /**
   * The last match is stretched ahead by lenf and the new one back by lenb, each as far as gains most, and where they
   * would overlap they are cut where most is kept.
   */
  ghost predicate Stretched(old_: seq<Byte>, new_: seq<Byte>, a: Cursor, b: Cursor, lenf0: nat, lenb0: nat, lenf: nat, lenb: nat) {
    var off, noff := a.lastpos - a.lastscan, b.pos - b.scan;
    && BestEnd(old_, new_, off, a.lastscan, Min(b.scan, |old_| - off), a.lastscan + lenf0)
    && (if b.scan == |new_| then lenb0 == 0
        else BestStart(old_, new_, noff, if a.lastscan >= b.scan - b.pos then a.lastscan else b.scan - b.pos, b.scan, b.scan - lenb0))
    && if a.lastscan + lenf0 <= b.scan - lenb0 then lenf == lenf0 && lenb == lenb0
       else a.lastscan + lenf == b.scan - lenb && BestCut(old_, new_, off, noff, b.scan - lenb0, a.lastscan + lenf0, b.scan - lenb)
  }

  /** The triple that goes out in a turn, and what it leaves. */
  ghost predicate Sends(a: Cursor, b: Cursor, lenf: nat, lenb: nat, t: Triple) {
    && t == Triple(lenf, (b.scan - lenb) - (a.lastscan + lenf), (b.pos - lenb) - (a.lastpos + lenf))
    && b.lastscan == b.scan - lenb && b.lastpos == b.pos - lenb && b.lastoffset == b.pos - b.scan
  }

  /** One turn: on to the first place that stops the scan, where a triple goes out unless the old offset does as well. */
  ghost predicate Turned(ix: seq<int>, old_: seq<Byte>, new_: seq<Byte>, a: Cursor, b: Cursor, out: seq<Triple>)
    requires |ix| == |old_| + 1 && InRange(ix, |old_| + 1)
  {
    var start := a.scan + a.len;
    && a.scan < |new_| && start <= b.scan <= |new_| && Scanned(ix, old_, new_, start, a.lastoffset, b.scan, b.len, b.pos)
    && if b.scan < |new_| && b.len == Score(ix, old_, new_, start, a.lastoffset, b.scan)
       then out == [] && b.lastscan == a.lastscan && b.lastpos == a.lastpos && b.lastoffset == a.lastoffset
       else |out| == 1 && exists lenf0, lenb0, lenf, lenb :: Stretched(old_, new_, a, b, lenf0, lenb0, lenf, lenb) && Sends(a, b, lenf, lenb, out[0])
  }

  /** The turns from the beginning, and the triples that went out in them. */
  ghost predicate Course(ix: seq<int>, old_: seq<Byte>, new_: seq<Byte>, states: seq<Cursor>, outs: seq<seq<Triple>>)
    requires |ix| == |old_| + 1 && InRange(ix, |old_| + 1)
  {
    && |states| == |outs| + 1 && states[0] == FIRST
    && forall i :: 0 <= i < |outs| ==> Turned(ix, old_, new_, states[i], states[i + 1], outs[i])
  }

  function Together(outs: seq<seq<Triple>>): seq<Triple> {
    if outs == [] then [] else Together(outs[..|outs| - 1]) + outs[|outs| - 1]
  }

  lemma CourseNext(ix: seq<int>, old_: seq<Byte>, new_: seq<Byte>, states: seq<Cursor>, outs: seq<seq<Triple>>, b: Cursor, out: seq<Triple>)
    requires |ix| == |old_| + 1 && InRange(ix, |old_| + 1) && Course(ix, old_, new_, states, outs)
    requires Turned(ix, old_, new_, states[|outs|], b, out)
    ensures Course(ix, old_, new_, states + [b], outs + [out]) && Together(outs + [out]) == Together(outs) + out
  {
    hide Turned;
    assert (outs + [out])[..|outs|] == outs;
  }

  lemma TurnSends(ix: seq<int>, old_: seq<Byte>, new_: seq<Byte>, a: Cursor, b: Cursor, lenf0: nat, lenb0: nat, lenf: nat, lenb: nat, t: Triple)
    requires |ix| == |old_| + 1 && InRange(ix, |old_| + 1) && a.scan < |new_| && a.scan + a.len <= b.scan <= |new_|
    requires Scanned(ix, old_, new_, a.scan + a.len, a.lastoffset, b.scan, b.len, b.pos)
    requires b.scan < |new_| ==> b.len != Score(ix, old_, new_, a.scan + a.len, a.lastoffset, b.scan)
    requires Stretched(old_, new_, a, b, lenf0, lenb0, lenf, lenb) && Sends(a, b, lenf, lenb, t)
    ensures Turned(ix, old_, new_, a, b, [t])
  {
    hide Scanned, Score, Stretched, Sends;
    assert [t][0] == t;
  }

  lemma TurnGoesOn(ix: seq<int>, old_: seq<Byte>, new_: seq<Byte>, a: Cursor, b: Cursor)
    requires |ix| == |old_| + 1 && InRange(ix, |old_| + 1) && a.scan < |new_| && a.scan + a.len <= b.scan < |new_|
    requires Scanned(ix, old_, new_, a.scan + a.len, a.lastoffset, b.scan, b.len, b.pos)
    requires b.len == Score(ix, old_, new_, a.scan + a.len, a.lastoffset, b.scan)
    requires b.lastscan == a.lastscan && b.lastpos == a.lastpos && b.lastoffset == a.lastoffset
    ensures Turned(ix, old_, new_, a, b, [])
  {
    hide Scanned, Score, Stretched, Sends;
  }

  lemma CourseStart(ix: seq<int>, old_: seq<Byte>, new_: seq<Byte>)
    requires |ix| == |old_| + 1 && InRange(ix, |old_| + 1)
    ensures Course(ix, old_, new_, [FIRST], []) && Together([]) == []
  {
  }

  /** What has been sent so far, and where that leaves the scan. */
  ghost predicate Coming(ix: seq<int>, old_: seq<Byte>, new_: seq<Byte>, states: seq<Cursor>, outs: seq<seq<Triple>>, now: Cursor, ts: seq<Triple>)
    requires |ix| == |old_| + 1 && InRange(ix, |old_| + 1)
  {
    Course(ix, old_, new_, states, outs) && states[|outs|] == now && Together(outs) == ts
  }

  lemma ComingOn(ix: seq<int>, old_: seq<Byte>, new_: seq<Byte>, states: seq<Cursor>, outs: seq<seq<Triple>>, a: Cursor, ts: seq<Triple>,
                 b: Cursor, out: seq<Triple>)
    requires |ix| == |old_| + 1 && InRange(ix, |old_| + 1) && Coming(ix, old_, new_, states, outs, a, ts)
    requires Turned(ix, old_, new_, a, b, out)
    ensures Coming(ix, old_, new_, states + [b], outs + [out], b, ts + out)
  {
    hide Turned, Together;
    CourseNext(ix, old_, new_, states, outs, b, out);
  }

  /** A triple for a match found, stretched as far as it pays, and its bytes. */
  method SendMatch(old_: seq<Byte>, new_: seq<Byte>, db: array<Byte>, dblen: nat, eb: array<Byte>, eblen: nat, ctrl: seq<Byte>,
                   lastscan: nat, lastpos: nat, scan: nat, pos: nat, ghost a: Cursor, ghost len: nat,
                   ghost sa: seq<int>, ghost ts: seq<Triple>)
    returns (ctrl2: seq<Byte>, dblen2: nat, eblen2: nat, lastscan2: nat, lastpos2: nat, ghost t: Triple)
    requires db != eb && db.Length == eb.Length == |new_| + 1 && dblen <= db.Length && eblen <= eb.Length
    requires Streams(old_, new_, ts, ctrl, db[..dblen], eb[..eblen], lastscan, lastpos)
    requires |old_| < LIMIT && |new_| < LIMIT && lastscan <= scan <= |new_| && lastscan < |new_| && lastpos <= |old_| && pos <= |old_|
    requires |sa| == |old_| + 1 && InRange(sa, |old_| + 1) && a.lastscan == lastscan && a.lastpos == lastpos
    requires a.scan < |new_| && a.scan + a.len <= scan && Scanned(sa, old_, new_, a.scan + a.len, a.lastoffset, scan, len, pos)
    requires scan < |new_| ==> len != Score(sa, old_, new_, a.scan + a.len, a.lastoffset, scan)
    modifies db, eb
    ensures dblen2 <= db.Length && eblen2 <= eb.Length && lastscan2 <= scan && lastpos2 <= pos
    ensures scan == |new_| ==> lastscan2 == |new_|
    ensures Streams(old_, new_, ts + [t], ctrl2, db[..dblen2], eb[..eblen2], lastscan2, lastpos2)
    ensures Turned(sa, old_, new_, a, Cursor(scan, len, pos, lastscan2, lastpos2, pos - scan), [t])
  {
    hide Streams, BestEnd, BestStart, BestCut, InRange, Score, Scanned, Turned;
    var lenf := ExtendForward(old_, new_, lastscan, lastpos, scan);
    var lenb := ExtendBackward(old_, new_, lastscan, scan, pos);
    ghost var lenf0, lenb0 := lenf, lenb;
    lenf, lenb := CutOverlap(old_, new_, lastscan, lastpos, scan, pos, lenf, lenb);
    var extra := (scan - lenb) - (lastscan + lenf);
    var seek := (pos - lenb) - (lastpos + lenf);
    ctrl2 := Emit(old_, new_, db, dblen, eb, eblen, ctrl, lastscan, lastpos, lenf, extra, seek, ts);
    t := Triple(lenf, extra, seek);
    dblen2, eblen2, lastscan2, lastpos2 := dblen + lenf, eblen + extra, scan - lenb, pos - lenb;
    TurnSends(sa, old_, new_, a, Cursor(scan, len, pos, lastscan2, lastpos2, pos - scan), lenf0, lenb0, lenf, lenb, t);
  }

  /**
   * A patch from old to new: for every pair of files, applying it to old gives new; and its triples are those of the
   * turns, with the matches that the search finds in old's suffix array.
   */
  method Diff(old_: seq<Byte>, new_: seq<Byte>)
    returns (ctrl: seq<Byte>, db: array<Byte>, dblen: nat, eb: array<Byte>, eblen: nat,
             ghost sa: seq<int>, ghost states: seq<Cursor>, ghost outs: seq<seq<Triple>>)
    requires |old_| < LIMIT && |new_| < LIMIT
    ensures dblen <= db.Length && eblen <= eb.Length
    ensures PatchFrom(old_, ctrl, db[..dblen], eb[..eblen], 0, 0, |new_|) == Some(new_)
    ensures SuffixArray(old_, sa) && |sa| == |old_| + 1 && InRange(sa, |old_| + 1)
    ensures Course(sa, old_, new_, states, outs) && states[|outs|].scan == |new_| && Control(ctrl, Together(outs))
  {
    hide Streams, PatchFrom, SuffixArray, InRange, Score, Matches, Scanned, Course, Together, Control, Turned;
    var ix, v := new int[|old_| + 1], new int[|old_| + 1];
    QSufSort(ix, v, old_);
    sa := ix[..];
    SuffixRange(old_, sa);
    db, eb := new Byte[|new_| + 1], new Byte[|new_| + 1];
    dblen, eblen, ctrl := 0, 0, [];
    ghost var ts: seq<Triple> := [];
    StreamsStart(old_, new_, db[..0], eb[..0]);
    var scan, len, pos: nat := 0, 0, 0;
    var lastscan, lastpos: nat, lastoffset := 0, 0, 0;
    states, outs := [FIRST], [];
    CourseStart(sa, old_, new_);
    ghost var now := FIRST;
    while scan < |new_|
      invariant 0 <= lastscan <= scan <= |new_| && lastpos <= |old_| && pos <= |old_| && scan + lastoffset >= 0
      invariant if scan < |new_| then scan + len <= |new_| else lastscan == |new_|
      invariant ix.Length == |old_| + 1 && sa == ix[..] && InRange(sa, |old_| + 1)
      invariant db.Length == eb.Length == |new_| + 1 && dblen <= db.Length && eblen <= eb.Length
      invariant Streams(old_, new_, ts, ctrl, db[..dblen], eb[..eblen], lastscan, lastpos)
      invariant now == Cursor(scan, len, pos, lastscan, lastpos, lastoffset) && Coming(sa, old_, new_, states, outs, now, ts)
      decreases if scan < |new_| then |new_| - scan - len + 1 else 0
    {
      ghost var a, out := now, [];
      var oldscore;
      scan, len, pos, oldscore := ScanAhead(ix, old_, new_, scan + len, lastoffset, len, pos);
      if len != oldscore || scan == |new_| {
        ghost var t;
        ctrl, dblen, eblen, lastscan, lastpos, t :=
          SendMatch(old_, new_, db, dblen, eb, eblen, ctrl, lastscan, lastpos, scan, pos, a, len, sa, ts);
        lastoffset, out := pos - scan, [t];
        now := Cursor(scan, len, pos, lastscan, lastpos, lastoffset);
      } else {
        now := Cursor(scan, len, pos, lastscan, lastpos, lastoffset);
        TurnGoesOn(sa, old_, new_, a, now);
        assert ts + [] == ts;
      }
      ComingOn(sa, old_, new_, states, outs, a, ts, now, out);
      states, outs, ts := states + [now], outs + [out], ts + out;
    }
    StreamsEnd(old_, new_, ts, ctrl, db[..dblen], eb[..eblen], lastpos);
  }

  lemma SuffixRange(s: seq<Byte>, ix: seq<int>)
    requires SuffixArray(s, ix)
    ensures InRange(ix, |s| + 1)
  {
  }
}
