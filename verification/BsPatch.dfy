/** Applying a patch: control triples say how much to add to old bytes, how much to copy, and where to go on. */
module BsPatch {
  import opened Bytes
  import opened Offsets

  datatype Triple = Triple(diff: int, extra: int, seek: int)

  predicate TripleOk(t: Triple) {
    && -LIMIT < t.diff < LIMIT && -LIMIT < t.extra < LIMIT && -LIMIT < t.seek < LIMIT
  }

  function TripleBytes(t: Triple): (s: seq<Byte>)
    requires TripleOk(t)
    ensures |s| == 24
  {
    Written(t.diff) + Written(t.extra) + Written(t.seek)
  }

  function ReadTriple(s: seq<Byte>): Triple
    requires |s| >= 24
  {
    Triple(Read(s[0..8]), Read(s[8..16]), Read(s[16..24]))
  }

  lemma ReadTripleBytes(t: Triple, rest: seq<Byte>)
    requires TripleOk(t)
    ensures ReadTriple(TripleBytes(t) + rest) == t
  {
    hide Written, Read;
    var s := TripleBytes(t) + rest;
    assert s[0..8] == Written(t.diff) && s[8..16] == Written(t.extra) && s[16..24] == Written(t.seek);
    ReadWritten(t.diff);
    ReadWritten(t.extra);
    ReadWritten(t.seek);
  }

  /** The old byte at p, or 0 outside the old file. */
  function OldAt(old_: seq<Byte>, p: int): Byte {
    if 0 <= p < |old_| then old_[p] else 0
  }

  /** Byte addition wraps around. */
  function Sum(x: Byte, y: Byte): Byte {
    (x as int + y as int) % 256
  }

  function Added(old_: seq<Byte>, d: seq<Byte>, oldpos: int): (r: seq<Byte>)
    ensures |r| == |d|
  {
    seq(|d|, i requires 0 <= i < |d| => Sum(d[i], OldAt(old_, oldpos + i)))
  }

  function Then(front: seq<Byte>, back: Option<seq<Byte>>): Option<seq<Byte>> {
    if back.None? then None else Some(front + back.value)
  }

  /** The rest of the new file, from newpos on; None for a corrupt patch. */
  function PatchFrom(old_: seq<Byte>, ctrl: seq<Byte>, db: seq<Byte>, eb: seq<Byte>,
                     oldpos: int, newpos: int, newsize: int): Option<seq<Byte>>
    decreases |ctrl|
  {
    if newpos >= newsize then Some([])
    else if |ctrl| < 24 then None
    else
      var t := ReadTriple(ctrl);
      if newpos + t.diff > newsize || t.diff < 0 || |db| < t.diff then None
      else if newpos + t.diff + t.extra > newsize || t.extra < 0 || |eb| < t.extra then None
      else Then(Added(old_, db[..t.diff], oldpos) + eb[..t.extra],
                PatchFrom(old_, ctrl[24..], db[t.diff..], eb[t.extra..],
                          oldpos + t.diff + t.seek, newpos + t.diff + t.extra, newsize))
  }

  method AddOld(new_: array<Byte>, newpos: nat, n: nat, old_: seq<Byte>, oldpos: int)
    requires newpos + n <= new_.Length
    modifies new_
    ensures new_[newpos..newpos + n] == Added(old_, old(new_[newpos..newpos + n]), oldpos)
    ensures new_[..newpos] == old(new_[..newpos])
  {
    var i := 0;
    while i < n
      invariant 0 <= i <= n
      invariant forall k :: 0 <= k < newpos ==> new_[k] == old(new_[k])
      invariant forall k :: newpos <= k < newpos + i ==> new_[k] == Sum(old(new_[k]), OldAt(old_, oldpos + (k - newpos)))
      invariant forall k :: newpos + i <= k < newpos + n ==> new_[k] == old(new_[k])
    {
      if oldpos + i >= 0 && oldpos + i < |old_| {
        new_[newpos + i] := Sum(new_[newpos + i], old_[oldpos + i]);
      }
      i := i + 1;
    }
    ghost var d := old(new_[newpos..newpos + n]);
    forall k | 0 <= k < n ensures new_[newpos..newpos + n][k] == Added(old_, d, oldpos)[k] {
      assert d[k] == old(new_[newpos + k]);
    }
  }

  method CopyIn(new_: array<Byte>, newpos: nat, src: seq<Byte>)
    requires newpos + |src| <= new_.Length
    modifies new_
    ensures new_[newpos..newpos + |src|] == src && new_[..newpos] == old(new_[..newpos])
  {
    var i := 0;
    while i < |src|
      invariant 0 <= i <= |src|
      invariant forall k :: 0 <= k < newpos ==> new_[k] == old(new_[k])
      invariant forall k :: 0 <= k < i ==> new_[newpos + k] == src[k]
    {
      new_[newpos + i] := src[i];
      i := i + 1;
    }
  }

  lemma ThenThen(a: seq<Byte>, b: seq<Byte>, r: Option<seq<Byte>>)
    ensures Then(a, Then(b, r)) == Then(a + b, r)
  {
    if r.Some? { assert a + (b + r.value) == a + b + r.value; }
  }

  method ApplyTriple(new_: array<Byte>, newpos: nat, d: seq<Byte>, e: seq<Byte>, old_: seq<Byte>, oldpos: int)
    requires newpos + |d| + |e| <= new_.Length
    modifies new_
    ensures new_[..newpos + |d| + |e|] == old(new_[..newpos]) + (Added(old_, d, oldpos) + e)
  {
    hide Added;
    ghost var front := new_[..newpos];
    CopyIn(new_, newpos, d);
    AddOld(new_, newpos, |d|, old_, oldpos);
    assert new_[..newpos + |d|] == front + Added(old_, d, oldpos);
    CopyIn(new_, newpos + |d|, e);
    assert new_[..newpos + |d| + |e|] == front + Added(old_, d, oldpos) + e;
  }

  /** Reading the streams, one triple after the other, as the patcher does. */
  method Patch(old_: seq<Byte>, ctrl: seq<Byte>, db: seq<Byte>, eb: seq<Byte>, newsize: nat) returns (ok: bool, new_: array<Byte>)
    ensures ok <==> PatchFrom(old_, ctrl, db, eb, 0, 0, newsize).Some?
    ensures ok ==> new_[..] == PatchFrom(old_, ctrl, db, eb, 0, 0, newsize).value
    ensures fresh(new_)
  {
    hide ReadTriple, Added, Read, Then;
    ok, new_ := false, new Byte[newsize];
    var oldpos, newpos := 0, 0;
    var c, d, e := ctrl, db, eb;
    ThenNothing(new_[..0], PatchFrom(old_, c, d, e, 0, 0, newsize));
    while newpos < newsize
      invariant 0 <= newpos <= newsize
      invariant PatchFrom(old_, ctrl, db, eb, 0, 0, newsize)
             == Then(new_[..newpos], PatchFrom(old_, c, d, e, oldpos, newpos, newsize))
      decreases |c|
    {
      ghost var front := new_[..newpos];
      ThenIs(front, PatchFrom(old_, c, d, e, oldpos, newpos, newsize));
      if |c| < 24 { return false, new_; }
      var x := ReadOne(c, 0);
      var y := ReadOne(c, 8);
      var z := ReadOne(c, 16);
      TripleParts(c);
      if newpos + x > newsize || x < 0 || |d| < x { return false, new_; }
      if newpos + x + y > newsize || y < 0 || |e| < y { return false, new_; }
      ApplyTriple(new_, newpos, d[..x], e[..y], old_, oldpos);
      ThenThen(front, Added(old_, d[..x], oldpos) + e[..y],
               PatchFrom(old_, c[24..], d[x..], e[y..], oldpos + x + z, newpos + x + y, newsize));
      newpos, oldpos := newpos + x + y, oldpos + x + z;
      c, d, e := c[24..], d[x..], e[y..];
    }
    assert new_[..newpos] == new_[..];
    ThenIs(new_[..], Some([]));
    ok := true;
  }

  lemma ThenIs(front: seq<Byte>, back: Option<seq<Byte>>)
    ensures back.None? <==> Then(front, back).None?
    ensures back == Some([]) ==> Then(front, back) == Some(front)
  {
    assert front + [] == front;
  }

  lemma ThenNothing(front: seq<Byte>, back: Option<seq<Byte>>)
    requires front == []
    ensures Then(front, back) == back
  {
    if back.Some? { assert [] + back.value == back.value; }
  }

  method ReadOne(c: seq<Byte>, k: nat) returns (v: int)
    requires k + 8 <= |c|
    ensures v == Read(c[k..k + 8])
  {
    v := OffIn(c[k..k + 8]);
  }

  lemma TripleParts(c: seq<Byte>)
    requires |c| >= 24
    ensures ReadTriple(c) == Triple(Read(c[0..8]), Read(c[8..16]), Read(c[16..24]))
  {
  }
}
