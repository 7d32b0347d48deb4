/**
 * The block queue between a producer thread and its consumer: two counting semaphores, a lock, and
 * events to start and stop.  Steps of both sides interleave in any order.
 */
module BlockQueue {
  import opened Residues

  /** Where the producer stands. */
  const P_WAIT_START: int := 0
  const P_SET_STARTED: int := 1
  const P_TOP: int := 2
  const P_WAIT_FREE: int := 3
  const P_FILL: int := 4
  const P_FILLING: int := 5
  const P_RELEASE: int := 6
  const P_WAIT_LOCK: int := 7
  const P_MOVING: int := 8
  const P_SET_STOPPED: int := 9

  /** Where the consumer stands: between calls, in MtSync_GetNextBlock, in MtSync_StopWriting. */
  const C_IDLE: int := 0
  const G_START: int := 1
  const G_SET_START: int := 2
  const G_WAIT_STARTED: int := 3
  const G_LEAVE: int := 4
  const G_RELEASE: int := 5
  const G_WAIT_FILLED: int := 6
  const G_ENTER: int := 7
  const S_MARK: int := 8
  const S_LEAVE: int := 9
  const S_RELEASE: int := 10
  const S_WAIT_STOPPED: int := 11
  const S_TEST: int := 12
  const S_WAIT_FILLED: int := 13
  const S_DRAIN: int := 14

  const NOBODY: int := 0
  const CONSUMER: int := 1
  const PRODUCER: int := 2

  /**
   * Shared fields, the slots with the number of the block in each (-1 while one is being filled), each
   * side's own counters, and the blocks the consumer has been given in this session.
   */
  datatype Queue = Queue(
    slots: seq<int>, needStart: bool, stopWriting: bool,
    canStart: bool, wasStarted: bool, wasStopped: bool,
    free: int, filled: int, lock: int, num: int,
    p: int, count: int, c: int, my: int, got: seq<int>)

  function If(b: bool, x: int, y: int): int { if b then x else y }

  // ---------------------------------------------------------------- the producer

  predicate CanProduce(s: Queue) {
    && (s.p == P_WAIT_START ==> s.canStart)
    && (s.p == P_WAIT_FREE ==> s.free > 0)
    && (s.p == P_WAIT_LOCK ==> s.lock == NOBODY)
  }

  function ProducerPc(s: Queue, move: bool): int {
    if s.p == P_TOP then If(s.stopWriting, P_SET_STOPPED, If(move, P_WAIT_LOCK, P_WAIT_FREE))
    else if s.p == P_RELEASE || s.p == P_MOVING then P_TOP
    else if s.p == P_SET_STOPPED then P_WAIT_START
    else s.p + 1
  }

  function FillSlot(s: Queue): (r: seq<int>)
    ensures |r| == |s.slots|
  {
    if |s.slots| == 0 || s.count < 0 then s.slots
    else if s.p == P_FILL then s.slots[s.count % |s.slots| := -1]
    else if s.p == P_FILLING && s.count >= 1 then s.slots[(s.count - 1) % |s.slots| := s.count - 1]
    else s.slots
  }

  /** One step of the producer; `move` makes it slide its window first. */
  function Produce(s: Queue, move: bool): Queue {
    s.(slots := FillSlot(s), p := ProducerPc(s, move),
       canStart := s.canStart && s.p != P_WAIT_START,
       wasStarted := s.wasStarted || s.p == P_SET_STARTED,
       wasStopped := s.wasStopped || s.p == P_SET_STOPPED,
       count := If(s.p == P_WAIT_START, 0, If(s.p == P_FILL, s.count + 1, s.count)),
       num := If(s.p == P_TOP && s.stopWriting, s.count, s.num),
       free := If(s.p == P_WAIT_FREE, s.free - 1, s.free),
       filled := If(s.p == P_RELEASE, s.filled + 1, s.filled),
       lock := If(s.p == P_WAIT_LOCK, PRODUCER, If(s.p == P_MOVING, NOBODY, s.lock)))
  }

  // ---------------------------------------------------------------- the consumer

  /** What an idle consumer does next. */
  datatype Wish = Get | Stop | Pause | Resume

  predicate CanConsume(s: Queue, wish: Wish) {
    && (s.c == G_WAIT_STARTED ==> s.wasStarted)
    && (s.c == G_WAIT_FILLED || s.c == S_WAIT_FILLED ==> s.filled > 0)
    && (s.c == G_ENTER ==> s.lock == NOBODY)
    && (s.c == S_WAIT_STOPPED ==> s.wasStopped)
    && (s.c == C_IDLE && !s.needStart && wish == Get ==> s.lock == CONSUMER)
    && (s.c == C_IDLE && wish == Pause ==> s.lock == CONSUMER)
    && (s.c == C_IDLE && wish == Resume ==> !s.needStart && s.lock == NOBODY)
  }

  function ConsumerPc(s: Queue, wish: Wish): int {
    if s.c == C_IDLE then
      (if wish == Get then If(s.needStart, G_START, G_LEAVE)
       else If(wish == Stop && !s.needStart, S_MARK, C_IDLE))
    else if s.c == G_WAIT_STARTED then G_WAIT_FILLED
    else if s.c == G_ENTER then C_IDLE
    else if s.c == S_TEST then If(s.my == s.num, C_IDLE, S_WAIT_FILLED)
    else if s.c == S_DRAIN then S_TEST
    else s.c + 1
  }

  function Taken(s: Queue): int
    requires |s.slots| > 0
  {
    s.slots[(s.num - 1) % |s.slots|]
  }

  function ConsumerLock(s: Queue, wish: Wish): int {
    if s.c == G_ENTER || (s.c == C_IDLE && wish == Resume) then CONSUMER
    else if s.c == G_LEAVE || (s.c == S_LEAVE && s.lock == CONSUMER) || (s.c == C_IDLE && wish == Pause) then NOBODY
    else s.lock
  }

  /** One step of the consumer. */
  function Consume(s: Queue, wish: Wish): Queue
    requires |s.slots| > 0
  {
    s.(c := ConsumerPc(s, wish), lock := ConsumerLock(s, wish),
       needStart := (s.needStart && s.c != G_START) || (s.c == S_TEST && s.my == s.num),
       stopWriting := (s.stopWriting && s.c != G_START) || s.c == S_MARK,
       num := If(s.c == G_START, 1, If(s.c == G_RELEASE, s.num + 1, s.num)),
       canStart := s.canStart || s.c == G_SET_START,
       wasStarted := s.wasStarted && s.c != G_START && s.c != G_WAIT_STARTED,
       wasStopped := s.wasStopped && s.c != G_START && s.c != S_WAIT_STOPPED,
       free := If(s.c == G_RELEASE || s.c == S_RELEASE || s.c == S_DRAIN, s.free + 1, s.free),
       filled := If(s.c == G_WAIT_FILLED || s.c == S_WAIT_FILLED, s.filled - 1, s.filled),
       my := If(s.c == S_MARK, s.num, If(s.c == S_TEST, s.my + 1, s.my)),
       got := if s.c == G_START then [] else if s.c == G_ENTER then s.got + [Taken(s)] else s.got)
  }

  // ---------------------------------------------------------------- what every step keeps

  predicate Working(p: int) { P_TOP <= p <= P_SET_STOPPED }

  /** Blocks the producer has a slot for, and blocks it has handed over. */
  function Begun(s: Queue): int { s.count + If(s.p == P_FILL, 1, 0) }
  function Released(s: Queue): int { s.count - If(s.p == P_FILLING || s.p == P_RELEASE, 1, 0) }

  /** Blocks the consumer has taken, and slots it has given back. */
  function Acquired(s: Queue): int {
    if s.c < S_LEAVE then s.num - If(s.c == G_SET_START || s.c == G_WAIT_STARTED || s.c == G_WAIT_FILLED, 1, 0)
    else s.my - If(s.c == S_WAIT_FILLED, 1, 0)
  }

  function Returned(s: Queue): int {
    if s.c < S_LEAVE then s.num - 1
    else s.my - If(s.c == S_LEAVE || s.c == S_RELEASE || s.c == S_WAIT_FILLED || s.c == S_DRAIN, 1, 0)
  }

  /** Nothing is going on: all slots are free. */
  ghost predicate AtRest(s: Queue) {
    && s.p == P_WAIT_START && !s.canStart && !s.wasStarted && !s.wasStopped
    && s.free == |s.slots| && s.filled == 0 && s.lock == NOBODY
  }

  /** A session is running: the semaphores count what both sides have done. */
  ghost predicate Counted(s: Queue) {
    && s.free == |s.slots| - Begun(s) + Returned(s) && s.filled == Released(s) - Acquired(s)
    && s.free >= 0 && s.filled >= 0 && s.count >= 0 && Returned(s) >= 0
  }

  ghost predicate Events(s: Queue) {
    && (s.c == G_WAIT_STARTED ==>
      && !s.stopWriting
      && (if s.p == P_WAIT_START then s.canStart && !s.wasStarted
          else !s.canStart && (s.p == P_SET_STARTED ==> !s.wasStarted) && (Working(s.p) ==> s.wasStarted)))
    && (s.c != G_WAIT_STARTED ==> !s.canStart && !s.wasStarted)
    && (s.c == C_IDLE || (G_LEAVE <= s.c <= S_MARK) ==> !s.stopWriting && Working(s.p) && s.p != P_SET_STOPPED && !s.wasStopped)
    && (S_LEAVE <= s.c <= S_WAIT_STOPPED ==>
      s.stopWriting && (if s.wasStopped then s.p == P_WAIT_START && s.num == s.count else Working(s.p)))
    && (s.c >= S_TEST ==> s.stopWriting && s.p == P_WAIT_START && s.num == s.count && !s.wasStopped)
    && (s.p == P_SET_STOPPED ==> s.stopWriting && s.num == s.count)
    && (s.wasStopped ==> S_LEAVE <= s.c <= S_WAIT_STOPPED)
    && (S_LEAVE <= s.c && s.p == P_WAIT_FREE ==> s.count <= |s.slots| + s.my - 1)
  }

  ghost predicate Locks(s: Queue) {
    && (s.p == P_MOVING <==> s.lock == PRODUCER) && (s.lock == NOBODY || s.lock == CONSUMER || s.lock == PRODUCER)
    && (s.c == G_LEAVE ==> s.lock == CONSUMER)
    && (s.c == G_WAIT_STARTED || G_RELEASE <= s.c <= G_ENTER || s.c >= S_RELEASE ==> s.lock != CONSUMER)
  }

  /** Blocks that are complete in their slots. */
  function Whole(s: Queue): int { s.count - If(s.p == P_FILLING, 1, 0) }

  /** Every block filled and not yet given back is whole in its slot. */
  ghost predicate Kept(s: Queue) {
    && |s.slots| > 0
    && forall i :: Returned(s) <= i < Whole(s) && i >= 0 ==> s.slots[i % |s.slots|] == i
  }

  /** The consumer has been given the blocks of this session in order. */
  ghost predicate InOrder(s: Queue) {
    forall i :: 0 <= i < |s.got| ==> s.got[i] == i
  }

  ghost predicate Inv(s: Queue) {
    && |s.slots| > 0 && P_WAIT_START <= s.p <= P_SET_STOPPED && C_IDLE <= s.c <= S_DRAIN && InOrder(s)
    && (if s.needStart then (s.c == C_IDLE || s.c == G_START) && AtRest(s)
        else if s.c == G_SET_START then AtRest(s) && !s.stopWriting && s.num == 1 && s.got == []
        else s.c != G_START && Session(s))
  }

  ghost predicate Session(s: Queue)
    requires |s.slots| > 0
  {
    && Events(s) && Locks(s)
    && (s.c == G_WAIT_STARTED && !Working(s.p) ==>
      s.num == 1 && s.free == |s.slots| && s.filled == 0 && (s.p == P_SET_STARTED ==> s.count == 0))
    && (s.c != G_WAIT_STARTED || Working(s.p) ==> Counted(s) && Kept(s))
    && (s.c <= S_MARK ==> s.num >= 1 && |s.got| == (if s.c == C_IDLE || G_LEAVE <= s.c <= G_RELEASE || s.c == S_MARK then s.num else s.num - 1))
    && (s.c >= S_LEAVE ==> s.my >= 1) && (s.c == S_WAIT_FILLED ==> s.my <= s.num)
  }

  function Start(n: nat): Queue
    requires n >= 1
  {
    Queue(seq(n, i => -1), true, false, false, false, false, n, 0, NOBODY, 0, P_WAIT_START, 0, C_IDLE, 0, [])
  }

  lemma StartInv(n: nat)
    requires n >= 1
    ensures Inv(Start(n))
  {
  }

  // ---------------------------------------------------------------- the producer's steps

  lemma ProduceSession(s: Queue, move: bool)
    requires Inv(s) && CanProduce(s)
    ensures !s.needStart && s.c != G_SET_START && s.c != G_START && Session(s)
    ensures s.c != G_WAIT_STARTED || Working(s.p) ==> Counted(s)
    ensures s.c == G_WAIT_STARTED || Working(s.p)
  {
  }

  lemma ProduceEvents(s: Queue, move: bool)
    requires |s.slots| > 0 && Events(s) && Locks(s) && CanProduce(s) && P_WAIT_START <= s.p <= P_SET_STOPPED
    requires s.c == G_WAIT_STARTED || Working(s.p)
    requires C_IDLE <= s.c <= S_DRAIN && s.c != G_START && s.c != G_SET_START
    ensures Events(Produce(s, move))
  {
  }

  lemma ProduceLocks(s: Queue, move: bool)
    requires |s.slots| > 0 && Events(s) && Locks(s) && CanProduce(s) && P_WAIT_START <= s.p <= P_SET_STOPPED
    ensures Locks(Produce(s, move))
  {
  }

  lemma ProduceCounted(s: Queue, move: bool)
    requires |s.slots| > 0 && CanProduce(s) && Counted(s) && Working(s.p)
    requires s.p == P_TOP && s.stopWriting ==> s.c >= S_LEAVE
    ensures Counted(Produce(s, move))
  {
  }

  /** The slot being filled is none of those that hold a block not yet given back. */
  lemma ProduceKept(s: Queue, move: bool)
    requires CanProduce(s) && Counted(s) && Working(s.p) && Kept(s)
    requires s.p == P_TOP && s.stopWriting ==> s.c >= S_LEAVE
    ensures Kept(Produce(s, move))
  {
    var r, n := Produce(s, move), |s.slots|;
    assert Returned(r) == Returned(s);
    hide Counted;
    forall i | Returned(r) <= i < Whole(r) && i >= 0 ensures r.slots[i % n] == i {
      if s.p == P_FILL {
        KeptApart(s, i);
      } else if s.p == P_FILLING && i < s.count - 1 {
        KeptApart2(s, i);
      }
    }
  }

  lemma KeptApart(s: Queue, i: int)
    requires |s.slots| > 0 && Counted(s) && s.p == P_FILL && Returned(s) <= i < s.count
    ensures i % |s.slots| != s.count % |s.slots|
  {
    if i % |s.slots| == s.count % |s.slots| { SameTurn(i, s.count, |s.slots|); }
  }

  lemma KeptApart2(s: Queue, i: int)
    requires |s.slots| > 0 && Counted(s) && s.p == P_FILLING && Returned(s) <= i < s.count - 1
    ensures i % |s.slots| != (s.count - 1) % |s.slots|
  {
    if i % |s.slots| == (s.count - 1) % |s.slots| { SameTurn(i, s.count - 1, |s.slots|); }
  }

  lemma ProduceInv(s: Queue, move: bool)
    requires Inv(s) && CanProduce(s)
    ensures Inv(Produce(s, move))
  {
    ProduceSession(s, move);
    ProduceEvents(s, move);
    ProduceLocks(s, move);
    var r := Produce(s, move);
    if s.c != G_WAIT_STARTED || Working(s.p) {
      ProduceCounted(s, move);
      ProduceKept(s, move);
    } else if Working(r.p) {
      assert Counted(r) && Kept(r);
    }
    hide Events, Locks, Kept, Counted;
  }

  // ---------------------------------------------------------------- the consumer's steps

  lemma ConsumeEvents(s: Queue, wish: Wish)
    requires Inv(s) && CanConsume(s, wish) && !s.needStart && !Consume(s, wish).needStart && s.c != G_SET_START
    ensures Events(Consume(s, wish))
  {
    hide Kept;
  }

  lemma ConsumeLocks(s: Queue, wish: Wish)
    requires Inv(s) && CanConsume(s, wish) && !s.needStart && s.c != G_SET_START
    ensures Locks(Consume(s, wish))
  {
    hide Kept;
  }

  lemma ConsumeCounted(s: Queue, wish: Wish)
    requires Inv(s) && CanConsume(s, wish) && !s.needStart && !Consume(s, wish).needStart && s.c != G_SET_START
    ensures Counted(Consume(s, wish))
  {
    hide Kept;
  }

  lemma ConsumeKept(s: Queue, wish: Wish)
    requires Inv(s) && CanConsume(s, wish) && !s.needStart && !Consume(s, wish).needStart && s.c != G_SET_START
    ensures Kept(Consume(s, wish))
  {
    hide Locks;
  }

  /** The block handed to the consumer is the next one. */
  lemma ConsumeOrder(s: Queue, wish: Wish)
    requires Inv(s) && CanConsume(s, wish)
    ensures InOrder(Consume(s, wish)) && (s.c == G_ENTER ==> Taken(s) == s.num - 1)
  {
  }

  lemma ConsumeRest(s: Queue, wish: Wish)
    requires Inv(s) && CanConsume(s, wish) && Consume(s, wish).needStart
    ensures Inv(Consume(s, wish))
  {
  }

  lemma ConsumeStart(s: Queue, wish: Wish)
    requires Inv(s) && CanConsume(s, wish) && (s.c == G_SET_START || s.c == G_START)
    ensures Inv(Consume(s, wish))
  {
  }

  lemma ConsumeInv(s: Queue, wish: Wish)
    requires Inv(s) && CanConsume(s, wish)
    ensures Inv(Consume(s, wish))
  {
    ConsumeOrder(s, wish);
    if Consume(s, wish).needStart {
      ConsumeRest(s, wish);
    } else if s.c == G_SET_START || s.c == G_START {
      ConsumeStart(s, wish);
    } else {
      ConsumeEvents(s, wish);
      ConsumeLocks(s, wish);
      ConsumeCounted(s, wish);
      ConsumeKept(s, wish);
      hide Events, Locks, Kept, Counted;
    }
  }

  // ---------------------------------------------------------------- whole runs

  /** A step of either side. */
  datatype Move = ByProducer(move: bool) | ByConsumer(wish: Wish)

  predicate CanStep(s: Queue, m: Move) {
    |s.slots| > 0 && match m case ByProducer(_) => CanProduce(s) case ByConsumer(w) => CanConsume(s, w)
  }

  function Step(s: Queue, m: Move): (r: Queue)
    requires CanStep(s, m)
    ensures |r.slots| == |s.slots|
  {
    match m case ByProducer(b) => Produce(s, b) case ByConsumer(w) => Consume(s, w)
  }

  function Run(s: Queue, ms: seq<Move>): (r: Queue)
    requires CanRun(s, ms)
    ensures |r.slots| == |s.slots|
    decreases |ms|, 1
  {
    if ms == [] then s else Step(Run(s, ms[..|ms| - 1]), ms[|ms| - 1])
  }

  predicate CanRun(s: Queue, ms: seq<Move>)
    decreases |ms|, 0
  {
    ms == [] || (CanRun(s, ms[..|ms| - 1]) && CanStep(Run(s, ms[..|ms| - 1]), ms[|ms| - 1]))
  }

  lemma {:induction false} RunInv(s: Queue, ms: seq<Move>)
    requires Inv(s) && CanRun(s, ms)
    ensures Inv(Run(s, ms))
    decreases |ms|
  {
    hide Inv, Produce, Consume, CanProduce, CanConsume;
    if ms != [] {
      var before := Run(s, ms[..|ms| - 1]);
      RunInv(s, ms[..|ms| - 1]);
      match ms[|ms| - 1] {
        case ByProducer(b) => ProduceInv(before, b);
        case ByConsumer(w) => ConsumeInv(before, w);
      }
    }
  }

  /** The semaphores never pass their maximum. */
  lemma WithinLimits(s: Queue)
    requires Inv(s)
    ensures 0 <= s.free <= |s.slots| && 0 <= s.filled <= |s.slots|
  {
    hide Kept;
  }

  /** The block the consumer holds is the one it was given last, and no step of the producer touches its slot. */
  lemma HeldSafe(s: Queue, move: bool)
    requires Inv(s) && s.c == C_IDLE && !s.needStart
    ensures |s.got| == s.num >= 1 && s.slots[(s.num - 1) % |s.slots|] == s.num - 1
    ensures CanProduce(s) ==> Produce(s, move).slots[(s.num - 1) % |s.slots|] == s.num - 1
    ensures s.lock == CONSUMER ==> s.p != P_MOVING
  {
    if CanProduce(s) {
      ProduceInv(s, move);
      HeldWhole(Produce(s, move));
    }
    HeldWhole(s);
    hide Inv;
  }

  lemma HeldWhole(s: Queue)
    requires Inv(s) && s.c == C_IDLE && !s.needStart
    ensures |s.got| == s.num >= 1 && s.slots[(s.num - 1) % |s.slots|] == s.num - 1
    ensures s.lock == CONSUMER ==> s.p != P_MOVING
  {
  }

  /** After MtSync_StopWriting all slots are free and none is filled, whatever was under way. */
  lemma StoppedClean(s: Queue)
    requires Inv(s) && s.c == C_IDLE && s.needStart
    ensures s.free == |s.slots| && s.filled == 0 && s.lock == NOBODY && s.p == P_WAIT_START
  {
  }

  /** A call of the consumer never hangs: it can go on, or the producer can. */
  lemma CallGoesOn(s: Queue, wish: Wish)
    requires Inv(s) && s.c != C_IDLE
    ensures CanConsume(s, wish) || CanProduce(s)
  {
    hide Kept;
  }

  /** Any run from the start keeps blocks in order and the semaphores in range. */
  lemma QueueWorks(n: nat, ms: seq<Move>)
    requires n >= 1 && CanRun(Start(n), ms)
    ensures var r := Run(Start(n), ms); InOrder(r) && 0 <= r.free <= n && 0 <= r.filled <= n
  {
    StartInv(n);
    RunInv(Start(n), ms);
    hide Run, CanRun;
    WithinLimits(Run(Start(n), ms));
  }
}
