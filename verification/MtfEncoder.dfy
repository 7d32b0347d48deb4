/** The encoder's in-place move-to-front pass over the last column. */
module MtfEncoder {
  import opened Bytes
  import opened MoveToFront

  /** The first n bytes in order: the list both coders start from. */
  function Identity(n: nat): (l: seq<Byte>)
    requires n <= 256
    ensures |l| == n && forall i :: 0 <= i < n ==> l[i] == i
  {
    seq(n, i requires 0 <= i < n => i)
  }

  /** The tally of the symbols written so far. */
  ghost predicate Tallied(freq: seq<nat>, done: seq<nat>, eob: nat) {
    |freq| > eob && forall c :: 0 <= c <= eob ==> freq[c] == multiset(done)[c]
  }

  lemma TalliedMore(freq: seq<nat>, done: seq<nat>, eob: nat, sym: nat)
    requires Tallied(freq, done, eob) && sym <= eob
    ensures Tallied(freq[sym := freq[sym] + 1], done + [sym], eob)
  {
    assert multiset(done + [sym]) == multiset(done) + multiset{sym};
  }

  /** One symbol is written and tallied. */
  method Put(mtfv: array<nat>, freq: array<nat>, wr: nat, sym: nat, ghost eob: nat) returns (next: nat)
    requires wr < mtfv.Length && freq != mtfv && sym <= eob && Tallied(freq[..], mtfv[..wr], eob)
    modifies mtfv, freq
    ensures next == wr + 1 && mtfv[..next] == old(mtfv[..wr]) + [sym] && Tallied(freq[..], mtfv[..next], eob)
  {
    hide Tallied;
    TalliedMore(freq[..], mtfv[..wr], eob, sym);
    TalliedLong(freq[..], mtfv[..wr], eob);
    mtfv[wr] := sym;
    ghost var was := freq[..];
    freq[sym] := freq[sym] + 1;
    assert freq[..] == was[sym := was[sym] + 1];
    next := wr + 1;
    assert mtfv[..next] == old(mtfv[..wr]) + [sym];
  }

  lemma TalliedLong(freq: seq<nat>, done: seq<nat>, eob: nat)
    requires Tallied(freq, done, eob)
    ensures |freq| > eob
  {
  }

  lemma RunStep(done: seq<nat>, z: nat, goal: seq<nat>)
    requires done + RunDigits(z + 1) == goal
    ensures (done + [z % 2]) + RunDigits(z / 2) == goal
    ensures z < 2 ==> done + [z % 2] == goal
    ensures z >= 2 ==> z / 2 == (z - 2) / 2 + 1
  {
    assert done + RunDigits(z + 1) == (done + [z % 2]) + RunDigits(z / 2);
    if z < 2 {
      assert RunDigits(z / 2) == [];
      assert (done + [z % 2]) + [] == done + [z % 2];
    }
  }

  lemma RunNone(done: seq<nat>)
    ensures done + RunDigits(0) == done
  {
  }

  /** Writes a pending run: the digit loop of the encoder. */
  method EmitRun(mtfv: array<nat>, freq: array<nat>, start: nat, z: nat, ghost eob: nat) returns (wr: nat)
    requires start + z <= mtfv.Length && freq != mtfv && eob >= 1 && Tallied(freq[..], mtfv[..start], eob)
    modifies mtfv, freq
    ensures start <= wr <= start + z && mtfv[..wr] == old(mtfv[..start]) + RunDigits(z)
    ensures Tallied(freq[..], mtfv[..wr], eob)
  {
    hide RunDigits, Tallied;
    wr := start;
    ghost var goal := mtfv[..start] + RunDigits(z);
    RunNone(mtfv[..start]);
    if z > 0 {
      var zPend: nat := z - 1;
      while true
        invariant start <= wr && wr + zPend + 1 <= start + z
        invariant mtfv[..wr] + RunDigits(zPend + 1) == goal && Tallied(freq[..], mtfv[..wr], eob)
        decreases zPend
      {
        RunStep(mtfv[..wr], zPend, goal);
        wr := Put(mtfv, freq, wr, if zPend % 2 == 1 then RUNB else RUNA, eob);
        if zPend < 2 {
          break;
        }
        zPend := (zPend - 2) / 2;
      }
    }
  }

  /** The list while the head is being carried right: places 1..j hold what stood one place left. */
  ghost predicate Carried(l: seq<Byte>, y: seq<Byte>, j: nat) {
    && 1 <= j < |l| <= |y|
    && y[0] == l[0]
    && (forall t :: 1 <= t <= j ==> y[t] == l[t - 1])
    && (forall t :: j < t < |l| ==> y[t] == l[t])
  }

  lemma CarriedStep(l: seq<Byte>, y: seq<Byte>, j: nat)
    requires Carried(l, y, j) && j + 1 < |l|
    ensures y[j + 1] == l[j + 1] && Carried(l, y[j + 1 := l[j]], j + 1)
  {
  }

  lemma CarriedDone(l: seq<Byte>, y: seq<Byte>, j: nat)
    requires Carried(l, y, j)
    ensures y[0 := l[j]][..|l|] == ToFront(l, j)
  {
  }

  /** Finds `ll` behind the head of the list and moves it to the front, shifting what it passes. */
  method MoveInPlace(yy: array<Byte>, n: nat, ll: Byte) returns (j: nat)
    requires 1 < n <= yy.Length && ll in yy[..n] && yy[0] != ll
    modifies yy
    ensures j == IndexOf(old(yy[..n]), ll) && yy[..n] == ToFront(old(yy[..n]), j)
  {
    ghost var l := yy[..n];
    ghost var k := IndexOf(l, ll);
    var rtmp := yy[1];
    yy[1] := yy[0];
    j := 1;
    assert Carried(l, yy[..], 1);
    while ll != rtmp
      invariant Carried(l, yy[..], j) && j <= k && rtmp == l[j]
      decreases k - j
    {
      CarriedStep(l, yy[..], j);
      j := j + 1;
      var rtmp2 := rtmp;
      rtmp := yy[j];
      yy[j] := rtmp2;
    }
    CarriedDone(l, yy[..], j);
    yy[0] := rtmp;
    assert yy[..n] == yy[..][..n];
  }

  lemma EncodeHead(v: seq<Byte>, l: seq<Byte>, z: nat, eob: nat)
    requires |l| > 0 && AllIn(v, l) && v != [] && v[0] == l[0]
    ensures AllIn(v[1..], l) && Encode(v, l, z, eob) == Encode(v[1..], l, z + 1, eob)
  {
  }

  lemma AllInIdentity(v: seq<Byte>, n: nat)
    requires n <= 256 && forall i :: 0 <= i < |v| ==> v[i] < n
    ensures AllIn(v, Identity(n))
  {
    forall i | 0 <= i < |v|
      ensures v[i] in Identity(n)
    {
      assert Identity(n)[v[i]] == v[i];
    }
  }

  /** What has been written and what is still to come make up the encoding. */
  ghost predicate Progress(done: seq<nat>, v: seq<Byte>, i: nat, l: seq<Byte>, z: nat, eob: nat, n: nat) {
    && i <= |v| && 0 < |l| == n <= 256 && AllIn(v, Identity(n)) && AllIn(v[i..], l)
    && done + Encode(v[i..], l, z, eob) == Encode(v, Identity(n), 0, eob)
  }

  lemma ProgressStart(v: seq<Byte>, eob: nat, n: nat)
    requires 0 < n <= 256 && AllIn(v, Identity(n))
    ensures Progress([], v, 0, Identity(n), 0, eob, n)
  {
    assert v[0..] == v;
  }

  lemma ProgressHead(done: seq<nat>, v: seq<Byte>, i: nat, l: seq<Byte>, z: nat, eob: nat, n: nat)
    requires Progress(done, v, i, l, z, eob, n) && i < |v| && v[i] == l[0]
    ensures Progress(done, v, i + 1, l, z + 1, eob, n)
  {
    assert v[i..][1..] == v[i + 1..];
    EncodeHead(v[i..], l, z, eob);
  }

  lemma ProgressRanked(done: seq<nat>, v: seq<Byte>, i: nat, l: seq<Byte>, z: nat, eob: nat, n: nat, k: nat)
    requires Progress(done, v, i, l, z, eob, n) && i < |v| && v[i] != l[0]
    requires v[i] in l && k == IndexOf(l, v[i])
    ensures Progress(done + RunDigits(z) + [k + 1], v, i + 1, ToFront(l, k), 0, eob, n)
  {
    assert v[i..][1..] == v[i + 1..];
    EncodeRanked(v[i..], l, z, eob, k);
    var tail := Encode(v[i + 1..], ToFront(l, k), 0, eob);
    assert done + RunDigits(z) + [k + 1] + tail == done + (RunDigits(z) + ([k + 1] + tail));
  }

  lemma ProgressEnd(done: seq<nat>, v: seq<Byte>, l: seq<Byte>, z: nat, eob: nat, n: nat)
    requires Progress(done, v, |v|, l, z, eob, n)
    ensures n <= 256 && AllIn(v, Identity(n))
    ensures done + RunDigits(z) + [eob] == Encode(v, Identity(n), 0, eob)
  {
    assert v[|v|..] == [];
    assert done + RunDigits(z) + [eob] == done + (RunDigits(z) + [eob]);
  }

  lemma ProgressMember(done: seq<nat>, v: seq<Byte>, i: nat, l: seq<Byte>, z: nat, eob: nat, n: nat)
    requires Progress(done, v, i, l, z, eob, n) && i < |v|
    ensures v[i] in l && 0 < |l| == n && (v[i] != l[0] ==> n > 1)
  {
    assert v[i..][0] == v[i];
  }

  /** A byte that is not at the front: the pending run and the byte's place are written. */
  method PutRanked(yy: array<Byte>, mtfv: array<nat>, freq: array<nat>, wr: nat, zPend: nat, ghost v: seq<Byte>, i: nat,
                   ll: Byte, n: nat)
    returns (next: nat)
    requires freq != mtfv && n <= yy.Length == 256 && wr + zPend <= i < mtfv.Length && i < |v| && ll == v[i]
    requires n > 0 && ll != yy[0] && Progress(mtfv[..wr], v, i, yy[..n], zPend, n + 1, n)
    requires Tallied(freq[..], mtfv[..wr], n + 1)
    modifies yy, mtfv, freq
    ensures next <= i + 1 && Progress(mtfv[..next], v, i + 1, yy[..n], 0, n + 1, n)
    ensures Tallied(freq[..], mtfv[..next], n + 1)
  {
    hide Progress, Tallied, RunDigits, ToFront, IndexOf;
    ghost var l := yy[..n];
    ProgressMember(mtfv[..wr], v, i, l, zPend, n + 1, n);
    ProgressRanked(mtfv[..wr], v, i, l, zPend, n + 1, n, IndexOf(l, ll));
    next := EmitRun(mtfv, freq, wr, zPend, n + 1);
    var j := MoveInPlace(yy, n, ll);
    next := Put(mtfv, freq, next, j + 1, n + 1);
  }

  /** All counts up to the end-of-block symbol set to zero. */
  method ClearTally(freq: array<nat>, eob: nat)
    requires eob < freq.Length
    modifies freq
    ensures Tallied(freq[..], [], eob)
  {
    for i := 0 to eob + 1
      invariant forall k :: 0 <= k < i ==> freq[k] == 0
    {
      freq[i] := 0;
    }
  }

  /**
   * The pass: for every ranked column, the symbols of its encoding and how often each occurs, written without
   * ever getting ahead of the column (the output shares storage with the row pointers).
   */
  method GenerateMtfValues(column: array<Byte>, mtfv: array<nat>, freq: array<nat>, nblock: nat, nInUse: nat)
    returns (nMTF: nat)
    requires nblock <= column.Length && nblock < mtfv.Length && 0 < nInUse <= 256
    requires freq != mtfv && freq.Length == 258
    requires forall i :: 0 <= i < nblock ==> column[i] < nInUse
    modifies mtfv, freq
    ensures AllIn(column[..nblock], Identity(nInUse))
    ensures nMTF <= nblock + 1
    ensures mtfv[..nMTF] == Encode(column[..nblock], Identity(nInUse), 0, nInUse + 1)
    ensures forall c :: 0 <= c <= nInUse + 1 ==> freq[c] == multiset(mtfv[..nMTF])[c]
  {
    hide Progress, Encode, RunDigits, AllIn;
    ghost var v := column[..nblock];
    AllInIdentity(v, nInUse);
    ProgressStart(v, nInUse + 1, nInUse);
    var yy := new Byte[256](i => if 0 <= i < 256 then i else 0);
    assert yy[..nInUse] == Identity(nInUse);
    ClearTally(freq, nInUse + 1);
    var wr := PutColumn(column, yy, mtfv, freq, nblock, nInUse);
    nMTF := Put(mtfv, freq, wr, nInUse + 1, nInUse + 1);
  }

  /** All bytes of the column and the run pending at its end. */
  method PutColumn(column: array<Byte>, yy: array<Byte>, mtfv: array<nat>, freq: array<nat>, nblock: nat, n: nat)
    returns (wr: nat)
    requires nblock <= column.Length && nblock < mtfv.Length && 0 < n <= 256 == yy.Length
    requires freq != mtfv && column != yy && Tallied(freq[..], [], n + 1)
    requires Progress([], column[..nblock], 0, yy[..n], 0, n + 1, n)
    modifies yy, mtfv, freq
    ensures wr <= nblock && column[..nblock] == old(column[..nblock])
    ensures AllIn(column[..nblock], Identity(n))
    ensures mtfv[..wr] + [n + 1] == Encode(column[..nblock], Identity(n), 0, n + 1)
    ensures Tallied(freq[..], mtfv[..wr], n + 1)
  {
    hide Progress, Tallied, RunDigits, Encode, ToFront, AllIn;
    ghost var v := column[..nblock];
    var zPend := 0;
    wr := 0;
    assert mtfv[..0] == [];
    for i := 0 to nblock
      invariant wr + zPend <= i && column[..nblock] == v
      invariant Progress(mtfv[..wr], v, i, yy[..n], zPend, n + 1, n) && Tallied(freq[..], mtfv[..wr], n + 1)
    {
      ProgressMember(mtfv[..wr], v, i, yy[..n], zPend, n + 1, n);
      if yy[0] == column[i] {
        ProgressHead(mtfv[..wr], v, i, yy[..n], zPend, n + 1, n);
        zPend := zPend + 1;
      } else {
        wr := PutRanked(yy, mtfv, freq, wr, zPend, v, i, column[i], n);
        zPend := 0;
      }
    }
    ProgressEnd(mtfv[..wr], v, yy[..n], zPend, n + 1, n);
    wr := EmitRun(mtfv, freq, wr, zPend, n + 1);
  }
}
