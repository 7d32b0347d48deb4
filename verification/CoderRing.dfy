/**
 * The ring of coder threads: thread t reads blocks t, t + N, ... and passes the right to read and the
 * right to write on to its neighbour.  Any interleaving, with or without errors, is a list of steps.
 */
module CoderRing {
  import opened Residues

  /** Where a thread stands, in program order. */
  const WAIT_READ: int := 0
  const CHECK_READ: int := 1
  const READING: int := 2
  const MARK_NEXT: int := 3
  const PASS_READ: int := 4
  const CODING: int := 5
  const WAIT_WRITE: int := 6
  const CHECK_WRITE: int := 7
  const WRITING: int := 8
  const PASS_WRITE: int := 9
  const HAND_STOP: int := 10
  const HAND_READ: int := 11
  const FAIL_READ: int := 12
  const FAIL_WRITE: int := 13
  const FAIL_WAKE_READ: int := 14
  const FAIL_WAKE_WRITE: int := 15
  const DONE: int := 16

  /**
   * One thread: where it stands, the block in its buffer and whether that was the last one, the flags
   * and events its predecessor sets.  The counters say for which block it next takes or passes a right;
   * gaveRead and gaveWrite that it has passed it for the last time.
   */
  datatype Thread = Thread(
    pc: int, buf: int, stop: bool,
    stopReading: bool, stopWriting: bool, canRead: bool, canWrite: bool,
    takeRead: int, toRead: int, passRead: int, takeWrite: int, toWrite: int, passWrite: int,
    gaveRead: bool, gaveWrite: bool)

  /** All threads, how many blocks have been read, the blocks whose code has been written, in order. */
  datatype Ring = Ring(ts: seq<Thread>, last: nat, read: int, written: seq<int>, failed: bool)

  function Next(t: nat, n: int): (r: nat)
    requires t < n
    ensures r < n
  {
    if t == n - 1 then 0 else t + 1
  }

  function Prev(t: nat, n: int): (r: nat)
    requires t < n
    ensures r < n && Next(r, n) == t
  {
    if t == 0 then n - 1 else t - 1
  }

  /** Waiting threads need their event; all others can go on. */
  predicate CanStep(s: Ring, t: nat) {
    && t < |s.ts| && s.ts[t].pc != DONE
    && (s.ts[t].pc == WAIT_READ ==> s.ts[t].canRead) && (s.ts[t].pc == WAIT_WRITE ==> s.ts[t].canWrite)
  }

  function Put(s: Ring, t: nat, u: Thread): (r: Ring)
    requires t < |s.ts|
    ensures |r.ts| == |s.ts|
  {
    s.(ts := s.ts[t := u])
  }

  /** Steps that concern no one else: waits end, choices are made, a read, a coding or a write goes wrong. */
  predicate Inside(pc: int, fail: bool) {
    pc == WAIT_READ || pc == CHECK_READ || pc == CODING || pc == WAIT_WRITE || pc == CHECK_WRITE
    || (fail && (pc == READING || pc == WRITING))
  }

  /** Where such a step leads. */
  function InwardPc(u: Thread, fail: bool): int {
    if u.pc == CHECK_READ && u.stopReading then HAND_STOP
    else if u.pc == WAIT_READ || u.pc == CHECK_READ || u.pc == WAIT_WRITE || (u.pc == CODING && !fail)
      || (u.pc == CHECK_WRITE && !u.stopWriting) then u.pc + 1
    else FAIL_READ
  }

  function If(b: bool, n: int): int { if b then n else 0 }

  /** A wait takes its event away. */
  function Inward(u: Thread, n: int, fail: bool): Thread {
    u.(pc := InwardPc(u, fail),
       canRead := u.canRead && u.pc != WAIT_READ, takeRead := u.takeRead + If(u.pc == WAIT_READ, n),
       canWrite := u.canWrite && u.pc != WAIT_WRITE, takeWrite := u.takeWrite + If(u.pc == WAIT_WRITE, n))
  }

  predicate GoesWrong(u: Thread, fail: bool) {
    (u.pc == CHECK_WRITE && u.stopWriting) || (fail && (u.pc == CODING || u.pc == READING || u.pc == WRITING))
  }

  /** Where a step leads that sets a flag or an event of the neighbour. */
  function HandingPc(u: Thread): int {
    if u.pc == PASS_WRITE then (if u.stop then DONE else WAIT_READ)
    else if u.pc == HAND_READ then DONE
    else u.pc + 1
  }

  /** Such a step: the thread itself ... */
  function Handing(u: Thread, n: int): Thread {
    u.(pc := HandingPc(u),
       passRead := u.passRead + If(u.pc == PASS_READ, n), passWrite := u.passWrite + If(u.pc == PASS_WRITE, n),
       gaveRead := u.gaveRead || (u.pc == PASS_READ && u.stop) || u.pc == HAND_READ || u.pc == FAIL_WAKE_READ,
       gaveWrite := u.gaveWrite || u.pc == FAIL_WAKE_WRITE)
  }

  /** ... and its neighbour x. */
  function Receiving(u: Thread, x: Thread): Thread {
    x.(stopReading := if u.pc == MARK_NEXT then u.stop else x.stopReading || u.pc == HAND_STOP || u.pc == FAIL_READ,
       stopWriting := x.stopWriting || u.pc == FAIL_WRITE,
       canRead := x.canRead || u.pc == PASS_READ || u.pc == HAND_READ || u.pc == FAIL_WAKE_READ,
       canWrite := x.canWrite || u.pc == PASS_WRITE || u.pc == FAIL_WAKE_WRITE)
  }

  /** One step of thread t; `fail` makes a read, a coding or a write go wrong. */
  function Step(s: Ring, t: nat, fail: bool): (r: Ring)
    requires CanStep(s, t)
    ensures |r.ts| == |s.ts| && r.last == s.last
  {
    var n, u, x := |s.ts|, s.ts[t], Next(t, |s.ts|);
    if Inside(u.pc, fail) then
      Put(s, t, Inward(u, n, fail)).(failed := s.failed || GoesWrong(u, fail))
    else if u.pc == READING then
      Put(s, t, u.(pc := MARK_NEXT, buf := s.read, stop := s.read == s.last, toRead := u.toRead + n)).(read := s.read + 1)
    else if u.pc == WRITING then
      Put(s, t, u.(pc := PASS_WRITE, toWrite := u.toWrite + n)).(written := s.written + [u.buf])
    else
      var s1 := Put(s, t, Handing(u, n));
      Put(s1, x, Receiving(u, s1.ts[x]))
  }

  function Fresh(t: nat): Thread {
    Thread(WAIT_READ, 0, false, false, false, t == 0, t == 0, t, t, t, t, t, t, false, false)
  }

  /** All threads started, with thread 0 allowed to read and to write. */
  function Start(n: int, last: nat): (s: Ring)
    requires n >= 1
    ensures |s.ts| == n
  {
    Ring(seq(n, t requires 0 <= t < n => Fresh(t)), last, 0, [], false)
  }

  // ---------------------------------------------------------------- what every step keeps

  predicate Failing(pc: int) { FAIL_READ <= pc < DONE }
  predicate Ended(pc: int) { FAIL_READ <= pc <= DONE }

  function Past(pc: int, k: int, n: int): int { if pc > k then n else 0 }

  /** How far a thread is with its block, told by its counters. */
  ghost predicate Local(u: Thread, n: int) {
    var b := u.passWrite;
    && WAIT_READ <= u.pc <= DONE
    && (u.pc <= PASS_WRITE ==>
      && u.takeRead == b + Past(u.pc, WAIT_READ, n) && u.toRead == b + Past(u.pc, READING, n)
      && u.passRead == b + Past(u.pc, PASS_READ, n) && u.takeWrite == b + Past(u.pc, WAIT_WRITE, n)
      && u.toWrite == b + Past(u.pc, WRITING, n) && !u.gaveWrite && u.gaveRead == (u.pc > PASS_READ && u.stop)
      && (u.pc > READING ==> u.buf == b))
    && (PASS_WRITE < u.pc < FAIL_READ ==>
      u.takeRead == b + n && u.toRead == u.passRead == u.takeWrite == u.toWrite == b && !u.gaveRead && !u.gaveWrite)
    && (Ended(u.pc) ==> b <= u.toWrite <= u.toRead && u.passRead <= u.toRead)
    && (Failing(u.pc) ==> !u.gaveWrite && (u.pc == FAIL_WAKE_WRITE ==> u.gaveRead))
    && (u.pc == DONE ==> u.gaveRead && (!u.gaveWrite ==> b == u.toWrite == u.toRead))
  }

  /** A thread that may read, or is reading, has the next block to read. */
  ghost predicate ReadTurn(s: Ring, t: nat)
    requires t < |s.ts|
  {
    var u := s.ts[t];
    && ((u.canRead || u.pc == CHECK_READ) && !u.stopReading ==> u.toRead == s.read <= s.last)
    && (u.pc == READING ==> u.toRead == s.read <= s.last)
    && (u.pc == MARK_NEXT || u.pc == PASS_READ ==> u.toRead == s.read - 1 + |s.ts|)
  }

  ghost predicate WriteTurn(s: Ring, t: nat)
    requires t < |s.ts|
  {
    var u := s.ts[t];
    && ((u.canWrite || u.pc == CHECK_WRITE) && !u.stopWriting ==> u.toWrite == |s.written|)
    && (u.pc == WRITING ==> u.toWrite == |s.written|)
    && (u.pc == PASS_WRITE ==> u.toWrite == |s.written| - 1 + |s.ts|)
  }

  /** The right to read that thread p has handed to its neighbour x, or still owes it. */
  ghost predicate HandedRead(p: Thread, x: Thread, n: int) {
    && (!p.gaveRead && !Ended(x.pc) ==> p.passRead + 1 == x.takeRead + (if x.canRead then n else 0))
    && (p.gaveRead ==> x.stopReading && (x.canRead || x.pc == CHECK_READ || x.pc >= HAND_STOP))
  }

  ghost predicate HandedWrite(p: Thread, x: Thread, n: int) {
    && (!p.gaveWrite && !Ended(x.pc) ==> p.passWrite + 1 == x.takeWrite + (if x.canWrite then n else 0))
    && (p.gaveWrite ==> x.stopWriting && (x.canWrite || x.pc == CHECK_WRITE || Ended(x.pc)))
  }

  /** Flags are raised before the event that lets the neighbour see them. */
  ghost predicate HandedFlags(p: Thread, x: Thread) {
    && (p.pc == PASS_READ ==> x.stopReading == p.stop)
    && (p.pc == HAND_READ || FAIL_READ < p.pc < DONE ==> x.stopReading)
    && (FAIL_WRITE < p.pc < DONE ==> x.stopWriting)
  }

  ghost predicate Handed(p: Thread, x: Thread, n: int) {
    HandedRead(p, x, n) && HandedWrite(p, x, n) && HandedFlags(p, x)
  }

  /** Blocks still to come from each thread; the last block ends its thread. */
  ghost predicate Range(s: Ring, t: nat)
    requires t < |s.ts|
  {
    var u, n := s.ts[t], |s.ts|;
    && Local(u, n) && u.toRead % n == t && u.toWrite % n == t && u.passWrite % n == t
    && s.read <= u.toRead < s.read + n && |s.written| <= u.toWrite < |s.written| + n
    && (READING < u.pc <= PASS_WRITE ==> u.stop == (u.buf == s.last))
  }

  /** Without an error flags are raised only once the last block has been read. */
  ghost predicate Calm(s: Ring, t: nat)
    requires t < |s.ts|
  {
    var u := s.ts[t];
    s.failed || (
      && !Failing(u.pc) && !u.stopWriting && !u.gaveWrite
      && (u.stopReading || u.pc == HAND_STOP || u.pc == HAND_READ || u.pc == DONE ==> s.read == s.last + 1))
  }

  ghost predicate ThreadOk(s: Ring, t: nat)
    requires t < |s.ts|
  {
    Range(s, t) && ReadTurn(s, t) && WriteTurn(s, t) && Calm(s, t)
  }

  ghost predicate Inv(s: Ring) {
    && |s.ts| >= 1 && 0 <= s.read <= s.last + 1
    && (forall i :: 0 <= i < |s.written| ==> s.written[i] == i)
    && (forall t :: 0 <= t < |s.ts| ==> ThreadOk(s, t))
    && (forall t, x :: 0 <= t < |s.ts| && x == Next(t, |s.ts|) ==> Handed(s.ts[t], s.ts[x], |s.ts|))
  }

  lemma {:induction false} StartInv(n: int, last: nat)
    requires n >= 1
    ensures Inv(Start(n, last))
  {
    var s := Start(n, last);
    forall t | 0 <= t < n ensures s.ts[t] == Fresh(t) && t % n == t {
      SmallMod(t, n);
    }
  }

  lemma NextTurn(a: int, n: int)
    requires n >= 1
    ensures (a + n) % n == a % n && (a + 1) % n == Next(a % n, n)
  {
    var q, r := a / n, a % n;
    assert a == q * n + r;
    assert (q + 1) * n == q * n + n;
    ModIs(a + n, n, q + 1, r);
    if r + 1 < n { ModIs(a + 1, n, q, r + 1); } else { ModIs(a + 1, n, q + 1, 0); }
  }

  /** Only flags and events differ. */
  ghost predicate SameInside(u: Thread, v: Thread) {
    v == u.(stopReading := v.stopReading, stopWriting := v.stopWriting, canRead := v.canRead, canWrite := v.canWrite)
  }

  lemma OtherThread(s: Ring, r: Ring, q: nat)
    requires q < |s.ts| == |r.ts| && r.ts[q] == s.ts[q] && ThreadOk(s, q)
    requires r.last == s.last && r.read == s.read && r.written == s.written && (s.failed ==> r.failed)
    ensures ThreadOk(r, q)
  {
    hide Local;
  }

  lemma OtherHand(p: Thread, p2: Thread, x: Thread, n: int)
    requires Handed(p, x, n) && SameInside(p, p2)
    ensures Handed(p2, x, n)
  {
  }

  lemma NextOnce(p: nat, q: nat, n: int)
    requires p < n && q < n && Next(p, n) == Next(q, n)
    ensures p == q
  {
  }

  /** A step that reads and writes nothing concerns its thread and the neighbour's flags only. */
  lemma InvFrame(s: Ring, r: Ring, t: nat, x: nat, p: nat)
    requires Inv(s) && t < |s.ts| && x == Next(t, |s.ts|) && p == Prev(t, |s.ts|) && |r.ts| == |s.ts| && r.last == s.last
    requires r.read == s.read && r.written == s.written && (s.failed ==> r.failed)
    requires forall q :: 0 <= q < |s.ts| && q != t && q != x ==> r.ts[q] == s.ts[q]
    requires ThreadOk(r, t) && ThreadOk(r, x)
    requires x != t ==> SameInside(s.ts[x], r.ts[x])
    requires Handed(r.ts[t], r.ts[x], |s.ts|) && Handed(r.ts[p], r.ts[t], |s.ts|)
    ensures Inv(r)
  {
    hide Handed, SameInside, Range, ReadTurn, WriteTurn, Calm;
    forall q | 0 <= q < |r.ts| ensures ThreadOk(r, q) {
      if q != t && q != x { OtherThread(s, r, q); }
    }
    forall q, y | 0 <= q < |r.ts| && y == Next(q, |r.ts|) ensures Handed(r.ts[q], r.ts[y], |r.ts|) {
      if y == t { NextOnce(q, p, |r.ts|); }
      if y == x { NextOnce(q, t, |r.ts|); }
      if q != t && y != t {
        assert Handed(s.ts[q], s.ts[y], |s.ts|);
        if q == x { OtherHand(s.ts[q], r.ts[q], r.ts[y], |r.ts|); }
      }
    }
  }

  // ---------------------------------------------------------------- step by step

  /** A step in which a thread changes only itself. */
  lemma InwardFrame(s: Ring, r: Ring, t: nat, u: Thread)
    requires Inv(s) && t < |s.ts| && r.ts == s.ts[t := u] && r.last == s.last && r.read == s.read && r.written == s.written
    requires (s.failed ==> r.failed) && ThreadOk(r, t)
    requires Handed(u, if |s.ts| == 1 then u else s.ts[Next(t, |s.ts|)], |s.ts|)
    requires Handed(if |s.ts| == 1 then u else s.ts[Prev(t, |s.ts|)], u, |s.ts|)
    ensures Inv(r)
  {
    hide Handed, Range, ReadTurn, WriteTurn, Calm;
    var n := |s.ts|;
    var x, p := Next(t, n), Prev(t, n);
    if x != t { OtherThread(s, r, x); assert SameInside(s.ts[x], r.ts[x]); }
    InvFrame(s, r, t, x, p);
  }

  /** What is known about a thread and its neighbours. */
  lemma Around(s: Ring, t: nat)
    requires Inv(s) && t < |s.ts|
    ensures ThreadOk(s, t) && s.read <= s.last + 1
    ensures Next(t, |s.ts|) < |s.ts| && ThreadOk(s, Next(t, |s.ts|)) && ThreadOk(s, Prev(t, |s.ts|))
    ensures Handed(s.ts[t], s.ts[Next(t, |s.ts|)], |s.ts|)
    ensures Handed(s.ts[Prev(t, |s.ts|)], s.ts[t], |s.ts|)
    ensures |s.ts| == 1 ==> Next(t, |s.ts|) == t && Prev(t, |s.ts|) == t
  {
  }

  lemma InwardIs(s: Ring, t: nat, fail: bool)
    requires CanStep(s, t) && Inside(s.ts[t].pc, fail)
    ensures Step(s, t, fail) == Put(s, t, Inward(s.ts[t], |s.ts|, fail)).(failed := s.failed || GoesWrong(s.ts[t], fail))
  {
  }

  lemma InwardLocal(u: Thread, n: int, fail: bool)
    requires n >= 1 && Inside(u.pc, fail) && Local(u, n)
    ensures Local(Inward(u, n, fail), n)
  {
  }

  lemma InwardGives(u: Thread, x: Thread, n: int, fail: bool)
    requires Inside(u.pc, fail) && Handed(u, x, n)
    ensures Handed(Inward(u, n, fail), x, n)
  {
    assert HandedRead(Inward(u, n, fail), x, n) by { hide HandedWrite, HandedFlags; }
    assert HandedWrite(Inward(u, n, fail), x, n) by { hide HandedRead, HandedFlags; }
    assert HandedFlags(Inward(u, n, fail), x) by { hide HandedRead, HandedWrite; }
    hide HandedRead, HandedWrite, HandedFlags, Inward;
  }

  lemma InwardGetsRead(p: Thread, u: Thread, n: int, fail: bool)
    requires Inside(u.pc, fail) && HandedRead(p, u, n) && (u.pc == WAIT_READ ==> u.canRead)
    ensures HandedRead(p, Inward(u, n, fail), n)
  {
  }

  lemma InwardGetsWrite(p: Thread, u: Thread, n: int, fail: bool)
    requires Inside(u.pc, fail) && HandedWrite(p, u, n) && (u.pc == WAIT_WRITE ==> u.canWrite)
    ensures HandedWrite(p, Inward(u, n, fail), n)
  {
  }

  lemma InwardGets(p: Thread, u: Thread, n: int, fail: bool)
    requires Inside(u.pc, fail) && Handed(p, u, n)
    requires (u.pc == WAIT_READ ==> u.canRead) && (u.pc == WAIT_WRITE ==> u.canWrite)
    ensures Handed(p, Inward(u, n, fail), n)
  {
    InwardGetsRead(p, u, n, fail);
    InwardGetsWrite(p, u, n, fail);
    hide HandedRead, HandedWrite;
  }

  lemma InwardCounters(u: Thread, n: int, fail: bool)
    requires Inside(u.pc, fail)
    ensures Inward(u, n, fail).toRead == u.toRead && Inward(u, n, fail).toWrite == u.toWrite
    ensures Inward(u, n, fail).passWrite == u.passWrite && Inward(u, n, fail).buf == u.buf && Inward(u, n, fail).stop == u.stop
    ensures READING < Inward(u, n, fail).pc <= PASS_WRITE ==> READING < u.pc <= PASS_WRITE
  {
  }

  lemma InwardOk(s: Ring, r: Ring, t: nat, fail: bool)
    requires t < |s.ts| == |r.ts| && ThreadOk(s, t) && Inside(s.ts[t].pc, fail)
    requires (s.ts[t].pc == WAIT_READ ==> s.ts[t].canRead) && (s.ts[t].pc == WAIT_WRITE ==> s.ts[t].canWrite)
    requires r == Put(s, t, Inward(s.ts[t], |s.ts|, fail)).(failed := s.failed || GoesWrong(s.ts[t], fail))
    requires s.read <= s.last + 1
    ensures ThreadOk(r, t)
  {
    var u, n := s.ts[t], |s.ts|;
    InwardLocal(u, n, fail);
    assert Range(r, t) by {
      InwardCounters(u, n, fail);
      hide Local, Inward, ReadTurn, WriteTurn, Calm;
    }
    assert ReadTurn(r, t) by { hide Local, Range, WriteTurn, Calm; }
    assert WriteTurn(r, t) by { hide Local, Range, ReadTurn, Calm; }
    assert Calm(r, t) by { hide Local, Range, WriteTurn; }
    hide Local, Inward, Range, ReadTurn, WriteTurn, Calm;
  }

  lemma InwardStep(s: Ring, t: nat, fail: bool)
    requires Inv(s) && CanStep(s, t) && Inside(s.ts[t].pc, fail)
    ensures Inv(Step(s, t, fail))
  {
    hide Inv, Handed, Range, ReadTurn, WriteTurn, Calm, Inward, Step, Next, Prev, GoesWrong;
    Around(s, t);
    InwardIs(s, t, fail);
    var n, u, r := |s.ts|, Inward(s.ts[t], |s.ts|, fail), Step(s, t, fail);
    var x, p := s.ts[Next(t, n)], s.ts[Prev(t, n)];
    CanStepEvents(s, t);
    InwardOk(s, r, t, fail);
    InwardGives(s.ts[t], x, n, fail);
    InwardGets(p, s.ts[t], n, fail);
    if n == 1 {
      InwardGets(u, s.ts[t], n, fail);
    }
    InwardFrame(s, r, t, u);
  }

  lemma CanStepEvents(s: Ring, t: nat)
    requires CanStep(s, t)
    ensures s.ts[t].pc == WAIT_READ ==> s.ts[t].canRead
    ensures s.ts[t].pc == WAIT_WRITE ==> s.ts[t].canWrite
  {
  }

  predicate HandsOver(pc: int) {
    pc == MARK_NEXT || pc == PASS_READ || PASS_WRITE <= pc < DONE
  }

  /** The neighbour's next block is the one after the thread's own. */
  lemma NextBlocks(s: Ring, t: nat, x: nat)
    requires t < |s.ts| && x == Next(t, |s.ts|) && ThreadOk(s, t) && ThreadOk(s, x) && 0 <= s.read <= s.last + 1
    ensures s.ts[t].pc == MARK_NEXT || s.ts[t].pc == PASS_READ ==> s.ts[x].toRead == s.read && s.ts[t].passRead + 1 == s.read
    ensures s.ts[t].pc == MARK_NEXT || s.ts[t].pc == PASS_READ ==> s.read == (if s.ts[t].stop then s.last + 1 else s.read)
    ensures s.ts[t].pc == MARK_NEXT || s.ts[t].pc == PASS_READ ==> s.ts[t].stop || s.read <= s.last
    ensures s.ts[t].pc == PASS_WRITE ==> s.ts[x].toWrite == |s.written| && s.ts[t].passWrite + 1 == |s.written|
  {
    var u, n := s.ts[t], |s.ts|;
    if u.pc == MARK_NEXT || u.pc == PASS_READ {
      NextTurn(u.toRead, n);
      NextTurn(s.read, n);
      SameTurn(s.ts[x].toRead, s.read, n);
    }
    if u.pc == PASS_WRITE {
      NextTurn(u.toWrite, n);
      NextTurn(|s.written|, n);
      SameTurn(s.ts[x].toWrite, |s.written|, n);
    }
  }

  lemma HandLocal(u: Thread, n: int)
    requires n >= 1 && HandsOver(u.pc) && Local(u, n)
    ensures Local(Handing(u, n), n)
  {
  }

  lemma HandGivesRead(u: Thread, x: Thread, n: int)
    requires n >= 1 && HandsOver(u.pc) && HandedRead(u, x, n) && HandedFlags(u, x) && Local(u, n) && Local(x, n)
    requires u.pc == PASS_READ ==> x.toRead == u.passRead + 1
    ensures HandedRead(Handing(u, n), Receiving(u, x), n)
  {
  }

  lemma HandGivesWrite(u: Thread, x: Thread, n: int)
    requires n >= 1 && HandsOver(u.pc) && HandedWrite(u, x, n) && HandedFlags(u, x) && Local(u, n) && Local(x, n)
    requires u.pc == PASS_WRITE ==> x.toWrite == u.passWrite + 1
    ensures HandedWrite(Handing(u, n), Receiving(u, x), n)
  {
  }

  lemma HandGives(u: Thread, x: Thread, n: int)
    requires n >= 1 && HandsOver(u.pc) && Handed(u, x, n) && Local(u, n) && Local(x, n)
    requires u.pc == PASS_READ ==> x.toRead == u.passRead + 1
    requires u.pc == PASS_WRITE ==> x.toWrite == u.passWrite + 1
    ensures Handed(Handing(u, n), Receiving(u, x), n)
  {
    HandGivesRead(u, x, n);
    HandGivesWrite(u, x, n);
    hide HandedRead, HandedWrite, Local;
  }

  lemma HandGets(p: Thread, u: Thread, n: int)
    requires HandsOver(u.pc) && Handed(p, u, n)
    ensures Handed(p, Handing(u, n), n)
  {
  }

  lemma HandRange(s: Ring, r: Ring, t: nat)
    requires t < |s.ts| && Range(s, t) && HandsOver(s.ts[t].pc) && r == Put(s, t, Handing(s.ts[t], |s.ts|))
    ensures Range(r, t)
  {
    HandLocal(s.ts[t], |s.ts|);
    NextTurn(s.ts[t].passWrite, |s.ts|);
    hide Local;
  }

  lemma HandCalm(s: Ring, r: Ring, t: nat)
    requires t < |s.ts| && Range(s, t) && Calm(s, t) && HandsOver(s.ts[t].pc) && r == Put(s, t, Handing(s.ts[t], |s.ts|))
    requires s.read <= s.last + 1
    ensures Calm(r, t)
  {
  }

  /** The thread that hands over stays in order. */
  lemma HandOk(s: Ring, r: Ring, t: nat)
    requires t < |s.ts| && ThreadOk(s, t) && HandsOver(s.ts[t].pc) && r == Put(s, t, Handing(s.ts[t], |s.ts|))
    requires s.read <= s.last + 1
    ensures ThreadOk(r, t)
  {
    HandRange(s, r, t);
    HandCalm(s, r, t);
    assert ReadTurn(r, t) by { hide Range, Calm, WriteTurn; }
    assert WriteTurn(r, t) by { hide Range, Calm, ReadTurn; }
    hide Range, Calm, ReadTurn, WriteTurn, Handing;
  }

  /** So does the thread that is handed a flag or an event. */
  lemma ReceiveOk(s: Ring, r: Ring, u: Thread, x: nat)
    requires x < |s.ts| && ThreadOk(s, x) && HandsOver(u.pc) && r == Put(s, x, Receiving(u, s.ts[x]))
    requires HandedFlags(u, s.ts[x]) && s.read <= s.last + 1
    requires u.pc == MARK_NEXT || u.pc == PASS_READ ==> s.ts[x].toRead == s.read && (if u.stop then s.read == s.last + 1 else s.read <= s.last)
    requires u.pc == PASS_WRITE ==> s.ts[x].toWrite == |s.written|
    requires !s.failed ==> !Failing(u.pc) && (u.pc == HAND_STOP ==> s.read == s.last + 1)
    ensures ThreadOk(r, x)
  {
    assert Range(r, x) by { hide Calm, ReadTurn, WriteTurn; }
    assert ReadTurn(r, x) by { hide Range, Calm, WriteTurn; }
    assert WriteTurn(r, x) by { hide Range, Calm, ReadTurn; }
    assert Calm(r, x) by { hide Range, WriteTurn, ReadTurn; }
    hide Range, Calm, ReadTurn, WriteTurn, Receiving;
  }

  lemma ReceivingInside(u: Thread, x: Thread)
    ensures SameInside(x, Receiving(u, x))
  {
  }

  lemma HandingOther(s: Ring, t: nat, x: nat, p: nat, s1: Ring, r: Ring)
    requires Inv(s) && t < |s.ts| && HandsOver(s.ts[t].pc) && x == Next(t, |s.ts|) != t && p == Prev(t, |s.ts|)
    requires s1 == Put(s, t, Handing(s.ts[t], |s.ts|)) && r == Put(s1, x, Receiving(s.ts[t], s.ts[x]))
    requires ThreadOk(s1, t) && ThreadOk(r, x) && Handed(s.ts[p], s1.ts[t], |s.ts|)
    requires Handed(s1.ts[t], r.ts[x], |s.ts|)
    ensures Inv(r)
  {
    hide Handed, ReadTurn, WriteTurn, Calm, Range, Handing, Receiving, Next, Prev, SameInside;
    ReceivingInside(s.ts[t], s.ts[x]);
    OtherThread(s1, r, t);
    if p == x { OtherHand(s.ts[x], r.ts[x], r.ts[t], |s.ts|); }
    InvFrame(s, r, t, x, p);
  }

  lemma HandingSelf(s: Ring, t: nat, s1: Ring, r: Ring)
    requires Inv(s) && |s.ts| == 1 && t == 0
    requires s1 == Put(s, t, Handing(s.ts[t], 1)) && r == Put(s1, t, Receiving(s.ts[t], s1.ts[t]))
    requires ThreadOk(r, t) && Handed(s1.ts[t], r.ts[t], 1)
    ensures Inv(r)
  {
    hide Handed, ReadTurn, WriteTurn, Calm, Range, Handing, Receiving, SameInside;
    ReceivingInside(s.ts[t], s1.ts[t]);
    OtherHand(s1.ts[t], r.ts[t], r.ts[t], 1);
    InvFrame(s, r, t, t, t);
  }

  lemma HandingStep(s: Ring, t: nat, fail: bool)
    requires Inv(s) && CanStep(s, t) && HandsOver(s.ts[t].pc)
    ensures Inv(Step(s, t, fail))
  {
    hide Handed, ReadTurn, WriteTurn, Calm, Range, Local, Handing, Receiving, Next, Prev, SameInside, HandsOver, Inv;
    Around(s, t);
    var n, u := |s.ts|, s.ts[t];
    var x, p := Next(t, n), Prev(t, n);
    var s1 := Put(s, t, Handing(u, n));
    var r := Put(s1, x, Receiving(u, s1.ts[x]));
    HandedOver(s, t, fail);
    RangeLocal(s, t);
    NextBlocks(s, t, x);
    HandOk(s, s1, t);
    HandGets(s.ts[p], u, n);
    HandFacts(s, t, x, s1);
    if x != t { OtherThread(s, s1, x); }
    ReceiveOk(s1, r, u, x);
    HandGives(u, s1.ts[x], n);
    if x != t {
      HandingOther(s, t, x, p, s1, r);
    } else {
      NextSelf(t, n);
      HandingSelf(s, t, s1, r);
    }
  }

  lemma HandedOver(s: Ring, t: nat, fail: bool)
    requires CanStep(s, t) && HandsOver(s.ts[t].pc)
    ensures var s1 := Put(s, t, Handing(s.ts[t], |s.ts|));
            Step(s, t, fail) == Put(s1, Next(t, |s.ts|), Receiving(s.ts[t], s1.ts[Next(t, |s.ts|)]))
  {
  }

  lemma RangeLocal(s: Ring, t: nat)
    requires Inv(s) && t < |s.ts|
    ensures Local(s.ts[t], |s.ts|) && s.read >= 0
  {
    assert ThreadOk(s, t);
  }

  lemma NextSelf(t: nat, n: int)
    requires t < n && Next(t, n) == t
    ensures n == 1 && t == 0
  {
  }

  lemma HandFacts(s: Ring, t: nat, x: nat, s1: Ring)
    requires Inv(s) && t < |s.ts| && x == Next(t, |s.ts|) && HandsOver(s.ts[t].pc) && s1 == Put(s, t, Handing(s.ts[t], |s.ts|))
    ensures Handed(s.ts[t], s1.ts[x], |s.ts|) && Local(s1.ts[x], |s.ts|) && HandedFlags(s.ts[t], s1.ts[x])
    ensures s1.ts[x].toRead == s.ts[x].toRead && s1.ts[x].toWrite == s.ts[x].toWrite
    ensures !s.failed ==> !Failing(s.ts[t].pc) && (s.ts[t].pc == HAND_STOP ==> s.read == s.last + 1)
  {
    Around(s, t);
    HandLocal(s.ts[t], |s.ts|);
    if x == t { HandGets(s.ts[t], s.ts[t], |s.ts|); }
    hide Local, HandedRead, HandedWrite;
  }

  // ---------------------------------------------------------------- reading and writing

  /** No thread reads before its predecessor has passed the right on. */
  lemma ReadGap(s: Ring, p: nat, x: nat)
    requires Inv(s) && p < |s.ts| && x == Next(p, |s.ts|)
    requires s.ts[p].pc == MARK_NEXT || s.ts[p].pc == PASS_READ
    ensures s.ts[x].pc != READING
  {
    Around(s, p);
    hide Inv;
  }

  /** No thread writes before its predecessor has passed the right on. */
  lemma WriteGap(s: Ring, p: nat, x: nat)
    requires Inv(s) && p < |s.ts| && x == Next(p, |s.ts|) && s.ts[p].pc == PASS_WRITE
    ensures s.ts[x].pc != WRITING
  {
    Around(s, p);
    hide Inv;
  }

  /** While one thread reads, no other reads, may read, or has just read. */
  lemma ReaderAlone(s: Ring, t: nat, q: nat)
    requires Inv(s) && t < |s.ts| && q < |s.ts| && q != t && s.ts[t].pc == READING
    ensures s.read < s.ts[q].toRead && s.ts[q].pc != READING && s.ts[q].pc != MARK_NEXT && s.ts[q].pc != PASS_READ
    ensures (s.ts[q].canRead || s.ts[q].pc == CHECK_READ) ==> s.ts[q].stopReading
  {
    var n := |s.ts|;
    assert ThreadOk(s, t) && ThreadOk(s, q);
    assert Local(s.ts[q], n) && Local(s.ts[t], n);
    var v := s.ts[q];
    if v.pc == MARK_NEXT || v.pc == PASS_READ {
      NextTurn(v.toRead, n);
      NextTurn(s.read, n);
      SameTurn(v.toRead + 1 - n, s.read, n);
      ReadGap(s, q, t);
    }
  }

  lemma WriterAlone(s: Ring, t: nat, q: nat)
    requires Inv(s) && t < |s.ts| && q < |s.ts| && q != t && s.ts[t].pc == WRITING
    ensures |s.written| < s.ts[q].toWrite && s.ts[q].pc != WRITING && s.ts[q].pc != PASS_WRITE
    ensures (s.ts[q].canWrite || s.ts[q].pc == CHECK_WRITE) ==> s.ts[q].stopWriting
  {
    var n := |s.ts|;
    assert ThreadOk(s, t) && ThreadOk(s, q);
    assert Local(s.ts[q], n) && Local(s.ts[t], n);
    var v := s.ts[q];
    if v.pc == PASS_WRITE {
      NextTurn(v.toWrite, n);
      NextTurn(|s.written|, n);
      SameTurn(v.toWrite + 1 - n, |s.written|, n);
      WriteGap(s, q, t);
    }
  }

  function HasRead(s: Ring, u: Thread): Thread {
    u.(pc := MARK_NEXT, buf := s.read, stop := s.read == s.last, toRead := u.toRead + |s.ts|)
  }

  function HasWritten(s: Ring, u: Thread): Thread {
    u.(pc := PASS_WRITE, toWrite := u.toWrite + |s.ts|)
  }

  lemma OwnGives(u: Thread, u2: Thread, x: Thread, n: int)
    requires Handed(u, x, n) && u2 == u.(pc := u2.pc, buf := u2.buf, stop := u2.stop, toRead := u2.toRead, toWrite := u2.toWrite)
    requires (u.pc == READING && u2.pc == MARK_NEXT) || (u.pc == WRITING && u2.pc == PASS_WRITE)
    ensures Handed(u2, x, n)
  {
  }

  lemma OwnGets(p: Thread, u: Thread, u2: Thread, n: int)
    requires Handed(p, u, n) && u2 == u.(pc := u2.pc, buf := u2.buf, stop := u2.stop, toRead := u2.toRead, toWrite := u2.toWrite)
    requires (u.pc == READING && u2.pc == MARK_NEXT) || (u.pc == WRITING && u2.pc == PASS_WRITE)
    ensures Handed(p, u2, n)
  {
  }

  /** Handing over concerns no more than before when a thread only reads or writes. */
  lemma OwnHands(s: Ring, r: Ring, t: nat, u2: Thread)
    requires Inv(s) && t < |s.ts| && r.ts == s.ts[t := u2]
    requires u2 == s.ts[t].(pc := u2.pc, buf := u2.buf, stop := u2.stop, toRead := u2.toRead, toWrite := u2.toWrite)
    requires (s.ts[t].pc == READING && u2.pc == MARK_NEXT) || (s.ts[t].pc == WRITING && u2.pc == PASS_WRITE)
    ensures forall q, y :: 0 <= q < |r.ts| && y == Next(q, |r.ts|) ==> Handed(r.ts[q], r.ts[y], |r.ts|)
  {
    hide Handed, ThreadOk;
    forall q, y | 0 <= q < |r.ts| && y == Next(q, |r.ts|) ensures Handed(r.ts[q], r.ts[y], |r.ts|) {
      assert Handed(s.ts[q], s.ts[y], |s.ts|);
      if q == t { OwnGives(s.ts[t], u2, s.ts[y], |s.ts|); }
      if y == t { OwnGets(r.ts[q], s.ts[t], u2, |s.ts|); }
    }
  }

  /** A thread that has taken the right to read has not been given it twice. */
  lemma NoSecondRight(s: Ring, t: nat)
    requires Inv(s) && t < |s.ts|
    ensures s.ts[t].pc == READING && s.ts[t].canRead ==> s.ts[t].stopReading
    ensures s.ts[t].pc == WRITING && s.ts[t].canWrite ==> s.ts[t].stopWriting
  {
    Around(s, t);
    hide Inv, Calm;
  }

  lemma ReadRange(s: Ring, r: Ring, t: nat)
    requires Inv(s) && t < |s.ts| && s.ts[t].pc == READING && r == Put(s, t, HasRead(s, s.ts[t])).(read := s.read + 1)
    ensures ThreadOk(r, t) && r.read <= r.last + 1
  {
    NoSecondRight(s, t);
    RangeLocal(s, t);
    assert ThreadOk(s, t);
    NextTurn(s.ts[t].toRead, |s.ts|);
    hide Inv, Handed;
  }

  lemma ReadOther(s: Ring, r: Ring, t: nat, q: nat)
    requires Inv(s) && t < |s.ts| && s.ts[t].pc == READING && r == Put(s, t, HasRead(s, s.ts[t])).(read := s.read + 1)
    requires q < |s.ts| && q != t
    ensures ThreadOk(r, q)
  {
    ReaderAlone(s, t, q);
    assert ThreadOk(s, t) && ThreadOk(s, q);
    hide Local, Handed;
  }

  lemma ReadStep(s: Ring, t: nat)
    requires Inv(s) && CanStep(s, t) && s.ts[t].pc == READING
    ensures Inv(Step(s, t, false))
  {
    hide Range, ReadTurn, WriteTurn, Calm, Handed;
    var r := Put(s, t, HasRead(s, s.ts[t])).(read := s.read + 1);
    ReadRange(s, r, t);
    forall q | 0 <= q < |r.ts| ensures ThreadOk(r, q) {
      if q != t { ReadOther(s, r, t, q); }
    }
    OwnHands(s, r, t, HasRead(s, s.ts[t]));
    assert r == Step(s, t, false);
  }

  lemma WriteRange(s: Ring, r: Ring, t: nat)
    requires Inv(s) && t < |s.ts| && s.ts[t].pc == WRITING
    requires r == Put(s, t, HasWritten(s, s.ts[t])).(written := s.written + [s.ts[t].buf])
    ensures ThreadOk(r, t) && s.ts[t].buf == |s.written|
  {
    NoSecondRight(s, t);
    assert ThreadOk(s, t);
    NextTurn(s.ts[t].toWrite, |s.ts|);
    hide Inv, Handed;
  }

  lemma WriteOther(s: Ring, r: Ring, t: nat, q: nat)
    requires Inv(s) && t < |s.ts| && s.ts[t].pc == WRITING
    requires r == Put(s, t, HasWritten(s, s.ts[t])).(written := s.written + [s.ts[t].buf])
    requires q < |s.ts| && q != t
    ensures ThreadOk(r, q)
  {
    WriterAlone(s, t, q);
    assert ThreadOk(s, t) && ThreadOk(s, q);
    hide Local, Handed;
  }

  lemma WriteStep(s: Ring, t: nat)
    requires Inv(s) && CanStep(s, t) && s.ts[t].pc == WRITING
    ensures Inv(Step(s, t, false))
  {
    hide Range, ReadTurn, WriteTurn, Calm, Handed;
    var r := Put(s, t, HasWritten(s, s.ts[t])).(written := s.written + [s.ts[t].buf]);
    WriteRange(s, r, t);
    forall q | 0 <= q < |r.ts| ensures ThreadOk(r, q) {
      if q != t { WriteOther(s, r, t, q); }
    }
    OwnHands(s, r, t, HasWritten(s, s.ts[t]));
    assert r == Step(s, t, false);
  }

  /** Every step of every thread, going well or wrong, keeps the ring in order. */
  lemma StepInv(s: Ring, t: nat, fail: bool)
    requires Inv(s) && CanStep(s, t)
    ensures Inv(Step(s, t, fail))
  {
    Around(s, t);
    RangeLocal(s, t);
    hide Inv, Handed, ThreadOk, Step;
    var pc := s.ts[t].pc;
    if Inside(pc, fail) {
      InwardStep(s, t, fail);
    } else if pc == READING {
      ReadStep(s, t);
      PlainStep(s, t, fail);
    } else if pc == WRITING {
      WriteStep(s, t);
      PlainStep(s, t, fail);
    } else {
      HandingStep(s, t, fail);
    }
  }

  lemma PlainStep(s: Ring, t: nat, fail: bool)
    requires CanStep(s, t) && !Inside(s.ts[t].pc, fail) && (s.ts[t].pc == READING || s.ts[t].pc == WRITING)
    ensures Step(s, t, fail) == Step(s, t, false)
  {
  }

  // ---------------------------------------------------------------- whole runs

  /** Safety: blocks are written in the order they were read, and only one thread reads or writes. */
  lemma OneAtATime(s: Ring, t: nat, q: nat)
    requires Inv(s) && t < |s.ts| && q < |s.ts| && t != q
    ensures !(s.ts[t].pc == READING && s.ts[q].pc == READING)
    ensures !(s.ts[t].pc == WRITING && s.ts[q].pc == WRITING)
  {
    if s.ts[t].pc == READING { ReaderAlone(s, t, q); }
    if s.ts[t].pc == WRITING { WriterAlone(s, t, q); }
  }

  datatype Move = Move(t: nat, fail: bool)

  /** The state after a list of moves, if each can be made. */
  function Run(s: Ring, ms: seq<Move>): (r: Ring)
    requires CanRun(s, ms)
    ensures |r.ts| == |s.ts| && r.last == s.last
    decreases |ms|, 1
  {
    if ms == [] then s else Step(Run(s, ms[..|ms| - 1]), ms[|ms| - 1].t, ms[|ms| - 1].fail)
  }

  predicate CanRun(s: Ring, ms: seq<Move>)
    decreases |ms|, 0
  {
    ms == [] || (CanRun(s, ms[..|ms| - 1]) && CanStep(Run(s, ms[..|ms| - 1]), ms[|ms| - 1].t))
  }

  lemma {:induction false} RunInv(s: Ring, ms: seq<Move>)
    requires Inv(s) && CanRun(s, ms)
    ensures Inv(Run(s, ms))
    decreases |ms|
  {
    hide Inv, Step;
    if ms != [] {
      RunInv(s, ms[..|ms| - 1]);
      StepInv(Run(s, ms[..|ms| - 1]), ms[|ms| - 1].t, ms[|ms| - 1].fail);
    }
  }

  /** A wait for the right to write ends: somebody ahead can go on. */
  lemma {:induction false} WriteWaitEnds(s: Ring, t: nat) returns (q: nat)
    requires Inv(s) && t < |s.ts| && s.ts[t].pc == WAIT_WRITE
    ensures CanStep(s, q)
    decreases s.ts[t].passWrite
  {
    Around(s, t);
    RangeLocal(s, t);
    var p := Prev(t, |s.ts|);
    RangeLocal(s, p);
    hide Inv;
    if s.ts[t].canWrite {
      q := t;
    } else if s.ts[p].pc == WAIT_WRITE {
      q := WriteWaitEnds(s, p);
    } else {
      q := p;
    }
  }

  lemma {:induction false} ReadWaitEnds(s: Ring, t: nat) returns (q: nat)
    requires Inv(s) && t < |s.ts| && s.ts[t].pc == WAIT_READ
    ensures CanStep(s, q)
    decreases s.ts[t].passWrite
  {
    Around(s, t);
    RangeLocal(s, t);
    var p := Prev(t, |s.ts|);
    RangeLocal(s, p);
    hide Inv;
    if s.ts[t].canRead {
      q := t;
    } else if s.ts[p].pc == WAIT_WRITE {
      q := WriteWaitEnds(s, p);
    } else if s.ts[p].pc == WAIT_READ {
      q := ReadWaitEnds(s, p);
    } else {
      q := p;
    }
  }

  /** No deadlock, with or without errors: while a thread is unfinished, some thread can go on. */
  lemma NoDeadlock(s: Ring, t: nat) returns (q: nat)
    requires Inv(s) && t < |s.ts| && s.ts[t].pc != DONE
    ensures CanStep(s, q)
  {
    if s.ts[t].pc == WAIT_READ {
      q := ReadWaitEnds(s, t);
    } else if s.ts[t].pc == WAIT_WRITE {
      q := WriteWaitEnds(s, t);
    } else {
      q := t;
    }
  }

  /** When all threads have stopped without an error, every block has been written, in order. */
  lemma AllWritten(s: Ring)
    requires Inv(s) && !s.failed && forall t :: 0 <= t < |s.ts| ==> s.ts[t].pc == DONE
    ensures |s.written| == s.last + 1 && forall i :: 0 <= i <= s.last ==> s.written[i] == i
  {
    var n := |s.ts|;
    var t := |s.written| % n;
    assert ThreadOk(s, t) && s.ts[t].pc == DONE;
    SameTurn(s.ts[t].toWrite, |s.written|, n);
    var q := s.read % n;
    assert ThreadOk(s, q) && s.ts[q].pc == DONE;
    SameTurn(s.ts[q].toRead, s.read, n);
  }

  /** Steps that go well raise no error of their own. */
  lemma StaysCalm(s: Ring, t: nat)
    requires Inv(s) && CanStep(s, t) && !s.failed
    ensures !Step(s, t, false).failed
  {
    assert ThreadOk(s, t);
    hide Inv, Local;
  }

  // ---------------------------------------------------------------- every run ends

  /** What a thread may still do: blocks to come, then steps to go. */
  ghost function Weight(s: Ring, t: nat): int
    requires t < |s.ts|
  {
    20 * (s.last + 1 + |s.ts| - s.ts[t].passWrite) + (20 - s.ts[t].pc)
  }

  ghost function TotalWeight(s: Ring, k: nat): int
    requires k <= |s.ts|
  {
    if k == 0 then 0 else TotalWeight(s, k - 1) + Weight(s, k - 1)
  }

  lemma {:induction false} TotalChanges(s: Ring, r: Ring, t: nat, k: nat, d: int)
    requires |r.ts| == |s.ts| && k <= |s.ts| && t < |s.ts| && Weight(r, t) <= Weight(s, t) - d
    requires forall q :: 0 <= q < |s.ts| && q != t ==> Weight(r, q) == Weight(s, q)
    ensures TotalWeight(r, k) <= TotalWeight(s, k) - (if t < k then d else 0)
  {
    hide Weight;
    if k > 0 { TotalChanges(s, r, t, k - 1, d); }
  }

  lemma {:induction false} TotalPositive(s: Ring, k: nat)
    requires Inv(s) && k <= |s.ts|
    ensures TotalWeight(s, k) >= 0
  {
    hide Inv;
    if k > 0 {
      TotalPositive(s, k - 1);
      RangeLocal(s, k - 1);
      Around(s, k - 1);
    }
  }

  /** A thread goes forward, or back to the start with its next block. */
  lemma Forward(u: Thread, n: int, fail: bool)
    requires n >= 1 && u.pc < DONE
    ensures Inside(u.pc, fail) ==> u.pc < Inward(u, n, fail).pc && Inward(u, n, fail).passWrite == u.passWrite
    ensures HandsOver(u.pc) ==> 20 * (Handing(u, n).passWrite - u.passWrite) + Handing(u, n).pc > u.pc
  {
  }

  lemma StepKind(s: Ring, t: nat, fail: bool)
    requires Inv(s) && CanStep(s, t)
    ensures Inside(s.ts[t].pc, fail) || HandsOver(s.ts[t].pc) || s.ts[t].pc == READING || s.ts[t].pc == WRITING
    ensures |s.ts| >= 1 && s.ts[t].pc < DONE
  {
    RangeLocal(s, t);
    hide Inv;
  }

  lemma StepWeight(s: Ring, t: nat, fail: bool, q: nat)
    requires Inv(s) && CanStep(s, t) && q < |s.ts|
    ensures if q == t then Weight(Step(s, t, fail), q) < Weight(s, q) else Weight(Step(s, t, fail), q) == Weight(s, q)
  {
    StepKind(s, t, fail);
    Forward(s.ts[t], |s.ts|, fail);
    hide Inv, Inward, Handing, InwardPc, HandingPc;
  }

  /** Every step uses some of the weight up. */
  lemma StepLowers(s: Ring, t: nat, fail: bool)
    requires Inv(s) && CanStep(s, t)
    ensures TotalWeight(Step(s, t, fail), |s.ts|) < TotalWeight(s, |s.ts|)
  {
    hide Weight, Step, Inv;
    forall q | 0 <= q < |s.ts| ensures q != t ==> Weight(Step(s, t, fail), q) == Weight(s, q) {
      StepWeight(s, t, fail, q);
    }
    StepWeight(s, t, fail, t);
    TotalChanges(s, Step(s, t, fail), t, |s.ts|, 1);
  }

  /** So no run is longer than the weight it starts with. */
  lemma {:induction false} RunsEnd(s: Ring, ms: seq<Move>)
    requires Inv(s) && CanRun(s, ms)
    ensures |ms| + TotalWeight(Run(s, ms), |s.ts|) <= TotalWeight(s, |s.ts|)
    ensures |ms| <= TotalWeight(s, |s.ts|)
    decreases |ms|
  {
    hide Inv, Step, TotalWeight;
    RunInv(s, ms);
    TotalPositive(Run(s, ms), |s.ts|);
    if ms != [] {
      RunsEnd(s, ms[..|ms| - 1]);
      RunInv(s, ms[..|ms| - 1]);
      StepLowers(Run(s, ms[..|ms| - 1]), ms[|ms| - 1].t, ms[|ms| - 1].fail);
    }
  }

  lemma {:induction false} CalmRun(s: Ring, ms: seq<Move>)
    requires Inv(s) && !s.failed && CanRun(s, ms) && forall i :: 0 <= i < |ms| ==> !ms[i].fail
    ensures !Run(s, ms).failed
    decreases |ms|
  {
    hide Inv, Step;
    if ms != [] {
      CalmRun(s, ms[..|ms| - 1]);
      RunInv(s, ms[..|ms| - 1]);
      StaysCalm(Run(s, ms[..|ms| - 1]), ms[|ms| - 1].t);
    }
  }

  /**
   * Any run of the ring, from the start: what has been written is the first blocks in order; if no step
   * failed and none can be made, all threads have stopped and all blocks are written.
   */
  lemma RingWorks(n: nat, last: nat, ms: seq<Move>)
    requires n >= 1 && CanRun(Start(n, last), ms)
    ensures var r := Run(Start(n, last), ms);
            (forall i :: 0 <= i < |r.written| ==> r.written[i] == i) && |r.written| <= last + 1
    ensures |ms| <= TotalWeight(Start(n, last), n)
    ensures var r := Run(Start(n, last), ms);
            (forall t :: 0 <= t < |r.ts| ==> !CanStep(r, t)) ==> (forall t :: 0 <= t < |r.ts| ==> r.ts[t].pc == DONE)
    ensures var r := Run(Start(n, last), ms);
            (forall t :: 0 <= t < |r.ts| ==> !CanStep(r, t)) && (forall i :: 0 <= i < |ms| ==> !ms[i].fail) ==>
              |r.written| == last + 1
  {
    hide Step;
    StartInv(n, last);
    RunInv(Start(n, last), ms);
    RunsEnd(Start(n, last), ms);
    var r := Run(Start(n, last), ms);
    WrittenBound(r);
    if forall t :: 0 <= t < |r.ts| ==> !CanStep(r, t) {
      forall t | 0 <= t < |r.ts| ensures r.ts[t].pc == DONE {
        if r.ts[t].pc != DONE { var q := NoDeadlock(r, t); }
      }
      if forall i :: 0 <= i < |ms| ==> !ms[i].fail {
        CalmRun(Start(n, last), ms);
        AllWritten(r);
      }
    }
  }

  lemma WrittenBound(s: Ring)
    requires Inv(s)
    ensures |s.written| <= s.last + 1
  {
    var n := |s.ts|;
    var t := s.read % n;
    assert ThreadOk(s, t);
    SameTurn(s.ts[t].toRead, s.read, n);
    RangeLocal(s, t);
  }
}
