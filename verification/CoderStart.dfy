/** A ring that cannot be started whole: the threads that were started are sent home before they read anything. */
module CoderStart {
  import opened CoderRing

  /** Thread i could not be started: thread 0 is told to stop, and only then woken. */
  function StartStopped(n: int, last: nat, i: nat): (s: Ring)
    requires i < n
    ensures |s.ts| == n
  {
    Ring(seq(n, t requires 0 <= t < n =>
      if t < i then Fresh(t).(stopReading := t == 0) else Fresh(t).(pc := DONE, stopReading := t == 0)), last, 0, [], false)
  }

  /** The thread on its way home. */
  predicate Leaving(s: Ring, i: nat, k: nat)
    requires k < i < |s.ts|
  {
    var u := s.ts[k];
    || (u.pc == WAIT_READ && u.canRead && u.stopReading)
    || (u.pc == CHECK_READ && u.stopReading)
    || u.pc == HAND_STOP
    || (u.pc == HAND_READ && s.ts[k + 1].stopReading)
  }

  /** Threads before k have gone home, k is on its way, those behind it wait, and from i on none was started. */
  ghost predicate Stopping(s: Ring, i: nat, k: nat) {
    && k <= i < |s.ts| && s.read == 0 && s.written == [] && !s.failed
    && (forall t :: 0 <= t < |s.ts| && (t < k || t >= i) ==> s.ts[t].pc == DONE)
    && (forall t :: k < t < i ==> s.ts[t].pc == WAIT_READ && !s.ts[t].canRead)
    && (k < i ==> Leaving(s, i, k))
  }

  /** Steps that are left. */
  function Left(s: Ring, i: nat, k: nat): nat
    requires k <= i < |s.ts|
  {
    if k == i then 0 else
    4 * (i - k) - (if s.ts[k].pc == HAND_READ then 3 else if s.ts[k].pc == HAND_STOP then 2 else if s.ts[k].pc == CHECK_READ then 1 else 0)
  }

  lemma StopStart(n: int, last: nat, i: nat)
    requires i < n
    ensures Stopping(StartStopped(n, last, i), i, 0) && Left(StartStopped(n, last, i), i, 0) <= 4 * i
  {
  }

  /** Only the thread on its way home can go on. */
  lemma OnlyLeaving(s: Ring, i: nat, k: nat, t: nat)
    requires Stopping(s, i, k) && CanStep(s, t)
    ensures t == k < i && s.ts[k].pc <= HAND_READ
  {
  }

  /** The steps that concern the thread alone. */
  lemma StopInside(s: Ring, i: nat, k: nat, fail: bool)
    requires k < i && Stopping(s, i, k) && CanStep(s, k) && s.ts[k].pc < HAND_STOP
    ensures Stopping(Step(s, k, fail), i, k) && Left(Step(s, k, fail), i, k) == Left(s, i, k) - 1
  {
    hide CanStep;
    var u := s.ts[k];
    assert u.pc == WAIT_READ || u.pc == CHECK_READ;
    var v := Inward(u, |s.ts|, fail);
    assert v.stopReading && v.pc == if u.pc == WAIT_READ then CHECK_READ else HAND_STOP;
    assert Step(s, k, fail) == Put(s, k, v);
  }

  /** The neighbour is told to stop. */
  lemma StopTold(s: Ring, i: nat, k: nat, fail: bool)
    requires k < i && Stopping(s, i, k) && CanStep(s, k) && s.ts[k].pc == HAND_STOP
    ensures Stopping(Step(s, k, fail), i, k) && Left(Step(s, k, fail), i, k) == Left(s, i, k) - 1
  {
    hide CanStep;
    var n, u := |s.ts|, s.ts[k];
    var s1 := Put(s, k, Handing(u, n));
    assert Step(s, k, fail) == Put(s1, k + 1, Receiving(u, s1.ts[k + 1]));
  }

  /** The last step: the neighbour is woken. */
  lemma StopNext(s: Ring, i: nat, k: nat, fail: bool)
    requires k < i && Stopping(s, i, k) && CanStep(s, k) && s.ts[k].pc == HAND_READ
    ensures Stopping(Step(s, k, fail), i, k + 1) && Left(Step(s, k, fail), i, k + 1) == Left(s, i, k) - 1
  {
    hide CanStep;
    var n, u := |s.ts|, s.ts[k];
    var s1 := Put(s, k, Handing(u, n));
    assert Step(s, k, fail) == Put(s1, k + 1, Receiving(u, s1.ts[k + 1]));
  }

  /** Every step brings the thread closer to its end. */
  lemma StopStep(s: Ring, i: nat, k: nat, t: nat, fail: bool) returns (k2: nat)
    requires Stopping(s, i, k) && CanStep(s, t)
    ensures Stopping(Step(s, t, fail), i, k2) && Left(Step(s, t, fail), i, k2) == Left(s, i, k) - 1
  {
    OnlyLeaving(s, i, k, t);
    hide Stopping, CanStep, Step, Left;
    if s.ts[k].pc == HAND_READ {
      k2 := k + 1;
      StopNext(s, i, k, fail);
    } else {
      k2 := k;
      if s.ts[k].pc == HAND_STOP { StopTold(s, i, k, fail); } else { StopInside(s, i, k, fail); }
    }
  }

  lemma {:induction false} StopRun(n: int, last: nat, i: nat, ms: seq<Move>) returns (k: nat)
    requires i < n && CanRun(StartStopped(n, last, i), ms)
    ensures Stopping(Run(StartStopped(n, last, i), ms), i, k)
    ensures |ms| + Left(Run(StartStopped(n, last, i), ms), i, k) <= 4 * i
  {
    hide Stopping, Step, CanStep, StartStopped, Left;
    var s := StartStopped(n, last, i);
    if ms == [] {
      StopStart(n, last, i);
      k := 0;
    } else {
      var before := ms[..|ms| - 1];
      var k0 := StopRun(n, last, i, before);
      k := StopStep(Run(s, before), i, k0, ms[|ms| - 1].t, ms[|ms| - 1].fail);
    }
  }

  /** In every run nothing is read or written; runs are short; a run that cannot go on has sent all threads home. */
  lemma StartStops(n: int, last: nat, i: nat, ms: seq<Move>)
    requires i < n && CanRun(StartStopped(n, last, i), ms)
    ensures var r := Run(StartStopped(n, last, i), ms);
            && r.read == 0 && r.written == [] && |ms| <= 4 * i
            && ((forall t: nat :: !CanStep(r, t)) ==> forall t :: 0 <= t < i ==> r.ts[t].pc == DONE)
  {
    hide Run, StartStopped;
    var k := StopRun(n, last, i, ms);
    var r := Run(StartStopped(n, last, i), ms);
    if k < i {
      assert CanStep(r, k);
    }
  }
}
