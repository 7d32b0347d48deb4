/**
 * Initial run-length coding: runs of 1..255 equal bytes, packed as the byte itself up to four times,
 * and after the fourth a count of the rest.  Packing keeps every text, one block at a time.
 */
module RunLength {
  import opened Bytes

  datatype Run = Run(ch: Byte, len: nat)

  function Repeat(ch: Byte, n: nat): (s: seq<Byte>)
    ensures |s| == n && forall k :: 0 <= k < n ==> s[k] == ch
  {
    if n == 0 then [] else [ch] + Repeat(ch, n - 1)
  }

  predicate RunOk(r: Run) { 1 <= r.len <= 255 }

  function Packed(r: Run): (s: seq<Byte>)
    requires RunOk(r)
    ensures 1 <= |s| <= 5
  {
    if r.len < 4 then Repeat(r.ch, r.len) else Repeat(r.ch, 4) + [r.len - 4]
  }

  ghost predicate RunsOk(rs: seq<Run>) {
    forall i :: 0 <= i < |rs| ==> RunOk(rs[i])
  }

  function PackAll(rs: seq<Run>): seq<Byte>
    requires RunsOk(rs)
  {
    if rs == [] then [] else PackAll(rs[..|rs| - 1]) + Packed(rs[|rs| - 1])
  }

  /** The text that runs stand for. */
  function TextOf(rs: seq<Run>): seq<Byte> {
    if rs == [] then [] else TextOf(rs[..|rs| - 1]) + Repeat(rs[|rs| - 1].ch, rs[|rs| - 1].len)
  }

  /** Neighbouring runs differ, unless the first is as long as a run can be. */
  ghost predicate Apart(rs: seq<Run>) {
    && RunsOk(rs)
    && forall i :: 1 <= i < |rs| ==> rs[i - 1].ch == rs[i].ch ==> rs[i - 1].len == 255
  }

  // ---------------------------------------------------------------- unpacking

  /** How many equal bytes stand at i, counting no further than four. */
  function Same(b: seq<Byte>, i: nat, k: nat): (n: nat)
    requires i < |b| && k >= 1
    ensures k <= n && (k <= 4 ==> n <= 4)
    ensures i + k <= |b| ==> i + n <= |b|
    decreases 4 - k
  {
    if k < 4 && i + k < |b| && b[i + k] == b[i] then Same(b, i, k + 1) else k
  }

  /** A packed block whose last run of four has its count. */
  predicate Complete(b: seq<Byte>, i: nat)
    requires i <= |b|
    decreases |b| - i
  {
    if i == |b| then true
    else if Same(b, i, 1) < 4 then Complete(b, i + Same(b, i, 1))
    else i + 4 < |b| && Complete(b, i + 5)
  }

  /** The text of a packed block from i on; a missing last count is taken from the block's first byte. */
  function Unpacked(b: seq<Byte>, i: nat): seq<Byte>
    requires i <= |b|
    decreases |b| - i
  {
    if i == |b| then []
    else if Same(b, i, 1) < 4 then Repeat(b[i], Same(b, i, 1)) + Unpacked(b, i + Same(b, i, 1))
    else if i + 4 < |b| then Repeat(b[i], 4 + b[i + 4] as int) + Unpacked(b, i + 5)
    else Repeat(b[i], 4 + b[0] as int)
  }

  lemma {:induction false} TextOfFirst(rs: seq<Run>)
    requires rs != []
    ensures TextOf(rs) == Repeat(rs[0].ch, rs[0].len) + TextOf(rs[1..])
  {
    if |rs| > 1 {
      TextOfFirst(rs[..|rs| - 1]);
      assert rs[..|rs| - 1][1..] == rs[1..][..|rs| - 2];
    } else {
      assert rs[..0] == [] && rs[1..] == [];
    }
  }

  lemma {:induction false} PackAllFirst(rs: seq<Run>)
    requires rs != [] && RunsOk(rs)
    ensures PackAll(rs) == Packed(rs[0]) + PackAll(rs[1..])
  {
    hide Packed;
    if |rs| > 1 {
      PackAllFirst(rs[..|rs| - 1]);
      assert rs[..|rs| - 1][1..] == rs[1..][..|rs| - 2];
    } else {
      assert rs[..0] == [] && rs[1..] == [];
    }
  }

  lemma PackAllHead(rs: seq<Run>)
    requires rs != [] && RunsOk(rs)
    ensures |PackAll(rs)| >= 1 && PackAll(rs)[0] == rs[0].ch
  {
    PackAllFirst(rs);
  }

  /** Unpacking a packed block gives the text of its runs back. */
  lemma {:induction false} UnpackPacked(b: seq<Byte>, i: nat, rs: seq<Run>)
    requires Apart(rs) && i <= |b| && b[i..] == PackAll(rs)
    ensures Complete(b, i) && Unpacked(b, i) == TextOf(rs)
    decreases |rs|
  {
    hide PackAll, TextOf, Unpacked, Complete, Packed, Same;
    if rs == [] {
      NothingLeft(b, i);
    } else {
      PackAllFirst(rs);
      TextOfFirst(rs);
      var p := Packed(rs[0]);
      assert b[i..][|p|..] == b[i + |p|..];
      forall k | 0 <= k < |p| ensures b[i + k] == p[k] {
        assert b[i..][k] == p[k];
      }
      UnpackPacked(b, i + |p|, rs[1..]);
      if |rs| > 1 {
        PackAllHead(rs[1..]);
        assert b[i + |p|..][0] == b[i + |p|];
      } else {
        NoRuns(rs[1..]);
      }
      PackedStretch(b, i, rs);
      UnpackStep(b, i, rs[0]);
    }
  }

  lemma NoRuns(rs: seq<Run>)
    requires rs == []
    ensures PackAll(rs) == [] && TextOf(rs) == []
  {
  }

  lemma NothingLeft(b: seq<Byte>, i: nat)
    requires i <= |b| && b[i..] == PackAll([])
    ensures Complete(b, i) && Unpacked(b, i) == TextOf([])
  {
    assert b[i..] == [];
    assert i == |b|;
  }

  lemma UnpackStep(b: seq<Byte>, i: nat, r: Run)
    requires RunOk(r) && i + |Packed(r)| <= |b|
    requires Same(b, i, 1) == if r.len < 4 then r.len else 4
    requires b[i] == r.ch && (r.len >= 4 ==> i + 4 < |b| && b[i + 4] == r.len - 4)
    ensures Unpacked(b, i) == Repeat(r.ch, r.len) + Unpacked(b, i + |Packed(r)|)
    ensures Complete(b, i) == Complete(b, i + |Packed(r)|)
  {
    hide Same;
  }

  lemma PackedStretch(b: seq<Byte>, i: nat, rs: seq<Run>)
    requires Apart(rs) && rs != [] && i + |Packed(rs[0])| <= |b|
    requires forall k :: 0 <= k < |Packed(rs[0])| ==> b[i + k] == Packed(rs[0])[k]
    requires |rs| == 1 ==> i + |Packed(rs[0])| == |b|
    requires |rs| > 1 ==> i + |Packed(rs[0])| < |b| && b[i + |Packed(rs[0])|] == rs[1].ch
    ensures Same(b, i, 1) == if rs[0].len < 4 then rs[0].len else 4
    ensures b[i] == rs[0].ch && (rs[0].len >= 4 ==> i + 4 < |b| && b[i + 4] == rs[0].len - 4)
  {
    var p, n := Packed(rs[0]), rs[0].len;
    assert b[i] == p[0];
    if n >= 2 { assert b[i + 1] == p[1]; }
    if n >= 3 { assert b[i + 2] == p[2]; }
    if n >= 4 { assert b[i + 3] == p[3] && b[i + 4] == p[4]; }
  }
}
