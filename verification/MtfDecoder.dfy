/** The decoder's loop over move-to-front symbols: runs and ranks back to the bytes of the last column. */
module MtfDecoder {
  import opened Bytes
  import opened Counting
  import opened MoveToFront
  import opened MtfEncoder
  import opened MtfStore

  const RUN_LIMIT: nat := 0x200000

  /** Ranks named as the bytes they stand for. */
  function Named(v: seq<Byte>, names: seq<Byte>): (m: seq<Byte>)
    requires |names| == 256
    ensures |m| == |v| && forall i :: 0 <= i < |v| ==> m[i] == names[v[i]]
  {
    seq(|v|, i requires 0 <= i < |v| => names[v[i]])
  }

  lemma NamedMore(v: seq<Byte>, names: seq<Byte>, x: Byte, n: nat)
    requires |names| == 256
    ensures Named(v + Copies(x, n), names) == Named(v, names) + Copies(names[x], n)
  {
  }

  lemma NamedNone(names: seq<Byte>)
    requires |names| == 256
    ensures Named([], names) == []
  {
  }

  ghost function Prepend(v: seq<Byte>, rest: Option<seq<Byte>>): Option<seq<Byte>> {
    match rest
    case None => None
    case Some(w) => Some(v + w)
  }

  lemma PrependTwice(v: seq<Byte>, w: seq<Byte>, rest: Option<seq<Byte>>)
    ensures Prepend(v, Prepend(w, rest)) == Prepend(v + w, rest)
  {
    if rest.Some? {
      assert v + (w + rest.value) == (v + w) + rest.value;
    }
  }

  /** The bytes `m` stand at the front of the output and are the ones counted. */
  ghost predicate Written(tt: seq<nat>, counts: seq<nat>, m: seq<Byte>) {
    && |m| <= |tt| && |counts| == 256
    && (forall k :: 0 <= k < |m| ==> tt[k] == m[k])
    && (forall c :: 0 <= c < 256 ==> counts[c] == Count(m, c))
  }

  lemma {:induction false} CountAppend(m: seq<Byte>, x: Byte, n: nat, c: int)
    ensures Count(m + Copies(x, n), c) == Count(m, c) + (if x == c then n else 0)
  {
    if n == 0 {
      assert m + Copies(x, 0) == m;
    } else {
      var s := m + Copies(x, n);
      assert s[..|s| - 1] == m + Copies(x, n - 1);
      CountAppend(m, x, n - 1, c);
    }
  }

  /** Adding n copies of one byte to the output and n to its count. */
  lemma WrittenMore(tt: seq<nat>, counts: seq<nat>, m: seq<Byte>, x: Byte, n: nat, tt2: seq<nat>)
    requires Written(tt, counts, m) && |m| + n <= |tt| == |tt2|
    requires forall k :: 0 <= k < |m| ==> tt2[k] == tt[k]
    requires forall k :: |m| <= k < |m| + n ==> tt2[k] == x
    ensures Written(tt2, counts[x := counts[x] + n], m + Copies(x, n))
  {
    forall c | 0 <= c < 256
      ensures counts[x := counts[x] + n][c] == Count(m + Copies(x, n), c)
    {
      CountAppend(m, x, n, c);
    }
  }

  // ---------------------------------------------------------------- single steps of the decoding

  /** What is left to decode from a point, after the ranks `v` already decoded. */
  ghost predicate Decoding(syms: seq<nat>, pos: nat, l: seq<Byte>, room: nat, eob: nat, v: seq<Byte>) {
    && |l| == 256 && |v| <= room
    && Decode(syms, 0, Identity(256), room, eob) == Prepend(v, Decode(syms, pos, l, room - |v|, eob))
  }

  lemma DecodingStart(syms: seq<nat>, room: nat, eob: nat)
    ensures Decoding(syms, 0, Identity(256), room, eob, [])
  {
    var d := Decode(syms, 0, Identity(256), room, eob);
    if d.Some? { assert [] + d.value == d.value; }
  }

  lemma DecodingEnd(syms: seq<nat>, pos: nat, l: seq<Byte>, room: nat, eob: nat, v: seq<Byte>)
    requires Decoding(syms, pos, l, room, eob, v) && pos < |syms| && syms[pos] == eob
    ensures Decode(syms, 0, Identity(256), room, eob) == Some(v)
  {
    assert v + [] == v;
  }

  lemma DecodingRank(syms: seq<nat>, pos: nat, l: seq<Byte>, room: nat, eob: nat, v: seq<Byte>)
    requires Decoding(syms, pos, l, room, eob, v) && pos < |syms| && 2 <= syms[pos] <= 256 && syms[pos] != eob
    ensures |v| == room ==> Decode(syms, 0, Identity(256), room, eob) == None
    ensures |v| < room ==>
              Decoding(syms, pos + 1, ToFront(l, syms[pos] - 1), room, eob, v + Copies(l[syms[pos] - 1], 1))
  {
    var x := l[syms[pos] - 1];
    assert Copies(x, 1) == [x];
    if |v| < room {
      PrependTwice(v, [x], Decode(syms, pos + 1, ToFront(l, syms[pos] - 1), room - |v| - 1, eob));
    }
  }

  lemma DecodingRun(syms: seq<nat>, pos: nat, l: seq<Byte>, room: nat, eob: nat, v: seq<Byte>)
    requires Decoding(syms, pos, l, room, eob, v) && pos < |syms| && syms[pos] < 2 && eob >= 2
    ensures var run := ReadRun(syms, pos, 0, 1);
            if run.BadRun? || |v| + run.count > room then Decode(syms, 0, Identity(256), room, eob) == None
            else Decoding(syms, run.next, l, room, eob, v + Copies(l[0], run.count))
  {
    var run := ReadRun(syms, pos, 0, 1);
    if run.Run? && |v| + run.count <= room {
      PrependTwice(v, Copies(l[0], run.count), Decode(syms, run.next, l, room - |v| - run.count, eob));
    }
  }

  // ---------------------------------------------------------------- the loop

  /** Reads the digits of a run; rejects a run whose weight passes two million. */
  method ReadDigits(syms: seq<nat>, start: nat) returns (ok: bool, count: nat, next: nat)
    requires start < |syms| && syms[start] < 2
    ensures if ok then ReadRun(syms, start, 0, 1) == Run(count, next) else ReadRun(syms, start, 0, 1) == BadRun
    ensures ok ==> start < next < |syms|
  {
    var es: int := -1;
    var n := 1;
    next := start;
    while next < |syms| && (syms[next] == RUNA || syms[next] == RUNB)
      invariant start <= next <= |syms| && es >= -1 && n >= 1
      invariant ReadRun(syms, start, 0, 1) == ReadRun(syms, next, es + 1, n)
      invariant next == start ==> syms[next] < 2
      decreases |syms| - next
    {
      if n >= RUN_LIMIT { return false, 0, next; }
      if syms[next] == RUNA { es := es + (0 + 1) * n; } else { es := es + (1 + 1) * n; }
      n := n * 2;
      next := next + 1;
    }
    if next == |syms| { return false, 0, next; }
    return true, es + 1, next;
  }

  /** Writes `es` copies of a byte; stops with an error when the block is full. */
  method FillRun(tt: array<nat>, start: nat, es: nat, uc: Byte, nblockMAX: nat) returns (ok: bool, nblock: nat)
    requires start <= nblockMAX <= tt.Length
    modifies tt
    ensures ok <==> start + es <= nblockMAX
    ensures ok ==> nblock == start + es
    ensures forall k :: 0 <= k < start ==> tt[k] == old(tt[k])
    ensures ok ==> forall k :: start <= k < nblock ==> tt[k] == uc
  {
    nblock := start;
    var left := es;
    while left > 0
      invariant start <= nblock <= nblockMAX && nblock + left == start + es
      invariant forall k :: 0 <= k < start ==> tt[k] == old(tt[k])
      invariant forall k :: start <= k < nblock ==> tt[k] == uc
    {
      if nblock >= nblockMAX { return false, nblock; }
      tt[nblock] := uc;
      nblock := nblock + 1;
      left := left - 1;
    }
    ok := true;
  }

  /** The next rank and how often its byte comes; not good if the symbols are rejected here. */
  method TakeSymbol(syms: seq<nat>, pos: nat, store: Store, nblock: nat, nblockMAX: nat, eob: nat, ghost v: seq<Byte>)
    returns (good: bool, uc: Byte, count: nat, next: nat)
    requires store.Valid() && nblock == |v| <= nblockMAX && 2 <= eob <= 257 && pos < |syms| && syms[pos] <= eob && syms[pos] != eob
    requires Decoding(syms, pos, store.List(), nblockMAX, eob, v)
    modifies store.mtfa, store.mtfbase
    ensures !good ==> Decode(syms, 0, Identity(256), nblockMAX, eob) == None
    ensures good ==> store.Valid() && pos < next <= |syms|
    ensures good && nblock + count > nblockMAX ==> Decode(syms, 0, Identity(256), nblockMAX, eob) == None
    ensures good && nblock + count <= nblockMAX ==> Decoding(syms, next, store.List(), nblockMAX, eob, v + Copies(uc, count))
  {
    hide Decode, Decoding, Identity, Copies;
    if syms[pos] < 2 {
      DecodingRun(syms, pos, store.List(), nblockMAX, eob, v);
      good, count, next := ReadDigits(syms, pos);
      uc := store.First();
    } else {
      DecodingRank(syms, pos, store.List(), nblockMAX, eob, v);
      good, uc, count, next := false, 0, 1, pos + 1;
      if nblock >= nblockMAX { return; }
      good := true;
      uc := store.Take(syms[pos] - 1);
    }
  }

  /**
   * The symbols of a block to its last column: exactly the bytes that Decode gives, named, with their
   * counts, and an error exactly when Decode rejects the symbols.
   */
  method DecodeValues(syms: seq<nat>, names: array<Byte>, tt: array<nat>, unzftab: array<nat>,
                      nblockMAX: nat, eob: nat)
    returns (ok: bool, nblock: nat)
    requires names.Length == 256 && unzftab.Length == 256 && nblockMAX <= tt.Length && tt != unzftab
    requires 2 <= eob <= 257 && forall i :: 0 <= i < |syms| ==> syms[i] <= eob
    modifies tt, unzftab
    ensures match Decode(syms, 0, Identity(256), nblockMAX, eob)
            case None => !ok
            case Some(v) => ok && nblock == |v| && Written(tt[..], unzftab[..], Named(v, names[..]))
  {
    hide Decode, Decoding, Written, Named;
    NamedNone(names[..]);
    ghost var v: seq<Byte>, m: seq<Byte> := [], [];
    for i := 0 to 256
      invariant forall c :: 0 <= c < i ==> unzftab[c] == 0
    {
      unzftab[i] := 0;
    }
    NothingWritten(tt[..], unzftab[..]);
    var store := new Store();
    DecodingStart(syms, nblockMAX, eob);
    nblock := 0;
    var pos := 0;
    ok := false;
    while pos < |syms|
      invariant store.Valid() && fresh(store.mtfa) && fresh(store.mtfbase)
      invariant nblock == |v| <= nblockMAX && m == Named(v, names[..])
      invariant Decoding(syms, pos, store.List(), nblockMAX, eob, v) && Written(tt[..], unzftab[..], m)
      invariant pos <= |syms| && !ok
      decreases |syms| - pos
    {
      ghost var l, t0, u0 := store.List(), tt[..], unzftab[..];
      if syms[pos] == eob {
        DecodingEnd(syms, pos, l, nblockMAX, eob, v);
        ok := true;
        return;
      }
      var good, uc, count, next := TakeSymbol(syms, pos, store, nblock, nblockMAX, eob, v);
      if !good { return; }
      pos := next;
      ghost var x := uc;
      uc := names[uc];
      unzftab[uc] := unzftab[uc] + count;
      var fits;
      fits, nblock := FillRun(tt, nblock, count, uc, nblockMAX);
      if !fits { return; }
      WrittenMore(t0, u0, m, uc, count, tt[..]);
      NamedMore(v, names[..], x, count);
      v := v + Copies(x, count);
      m := m + Copies(uc, count);
    }
    DecodingCutOff(syms, pos, store.List(), nblockMAX, eob, v);
  }

  lemma NothingWritten(tt: seq<nat>, counts: seq<nat>)
    requires |counts| == 256 && forall c :: 0 <= c < 256 ==> counts[c] == 0
    ensures Written(tt, counts, [])
  {
  }

  lemma DecodingCutOff(syms: seq<nat>, pos: nat, l: seq<Byte>, room: nat, eob: nat, v: seq<Byte>)
    requires Decoding(syms, pos, l, room, eob, v) && pos >= |syms|
    ensures Decode(syms, 0, Identity(256), room, eob) == None
  {
  }
}
