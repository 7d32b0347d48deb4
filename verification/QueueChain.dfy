/**
 * The three threads of the match finder: the hash thread fills the first queue, the binary-tree thread takes from it
 * and fills the second, the encoder takes from that.  The hash thread takes both locks to move the window.
 */
module QueueChain {
  import opened BlockQueue

  /** Where the binary-tree thread is with the block it fills: before, within or after its hold on the first lock. */
  const BEFORE: int := 0
  const WITHIN: int := 1
  const AFTER: int := 2

  /** The first queue, the second, and whether the hash thread holds the lock of the second. */
  datatype Chain = Chain(hash: Queue, bt: Queue, place: int, held: bool)

  /** A step of the hash thread, of the binary-tree thread (`more`: it needs another block), of the encoder. */
  datatype Turn = ByHash(move: bool) | ByBt(more: bool) | ByMain(stop: bool)

  function Call(stop: bool): Wish { if stop then Stop else Get }

  // ---------------------------------------------------------------- the hash thread

  /** To move the window it takes the lock of the second queue, then that of its own. */
  predicate CanHash(s: Chain) {
    if s.hash.p == P_WAIT_LOCK && !s.held then s.bt.lock == NOBODY else CanProduce(s.hash)
  }

  function HashStep(s: Chain, move: bool): Chain {
    if s.hash.p == P_WAIT_LOCK && !s.held then s.(held := true)
    else if s.hash.p == P_MOVING && s.held then s.(held := false)
    else s.(hash := Produce(s.hash, move))
  }

  // ---------------------------------------------------------------- the binary-tree thread

  /** It is inside a call of the first queue, or is to make one. */
  predicate Calling(s: Chain, more: bool) {
    s.hash.c != C_IDLE || (if s.bt.p == P_FILLING then more else !s.hash.needStart)
  }

  predicate CanBt(s: Chain, more: bool) {
    if s.bt.p == P_FILLING && s.place == BEFORE then s.hash.needStart || CanConsume(s.hash, Resume)
    else if s.bt.p == P_FILLING && s.place == WITHIN then
      (if Calling(s, more) then CanConsume(s.hash, Get) else s.hash.needStart || CanConsume(s.hash, Pause))
    else if s.bt.p == P_SET_STOPPED && Calling(s, more) then CanConsume(s.hash, Stop)
    else CanProduce(s.bt)
  }

  function Asked(q: Queue, wish: Wish): Queue
    requires |q.slots| > 0
  {
    if q.needStart then q else Consume(q, wish)
  }

  function BtStep(s: Chain, more: bool): Chain
    requires |s.hash.slots| > 0
  {
    if s.bt.p == P_FILLING && s.place == BEFORE then s.(hash := Asked(s.hash, Resume), place := WITHIN)
    else if s.bt.p == P_FILLING && s.place == WITHIN then
      (if Calling(s, more) then s.(hash := Consume(s.hash, Get)) else s.(hash := Asked(s.hash, Pause), place := AFTER))
    else if s.bt.p == P_SET_STOPPED && Calling(s, more) then s.(hash := Consume(s.hash, Stop))
    else s.(bt := Produce(s.bt, false), place := BEFORE)
  }

  // ---------------------------------------------------------------- the encoder

  predicate CanMain(s: Chain, stop: bool) {
    CanConsume(s.bt, Call(stop)) && (s.bt.c == G_ENTER ==> !s.held)
  }

  function MainStep(s: Chain, stop: bool): Chain
    requires |s.bt.slots| > 0
  {
    s.(bt := Consume(s.bt, Call(stop)))
  }

  // ---------------------------------------------------------------- what every step keeps

  /** The binary-tree thread calls the first queue only where it should, and holds its lock only inside. */
  ghost predicate Placed(s: Chain) {
    && BEFORE <= s.place <= AFTER && (s.bt.p != P_FILLING ==> s.place == BEFORE)
    && (if s.bt.p == P_FILLING && s.place == WITHIN then
          s.hash.c < S_MARK && (s.hash.c == C_IDLE && !s.hash.needStart ==> s.hash.lock == CONSUMER)
        else
          s.hash.lock != CONSUMER && (s.hash.c == C_IDLE || (s.bt.p == P_SET_STOPPED && s.hash.c >= S_MARK)))
    && (s.bt.p == P_WAIT_START || s.bt.p == P_SET_STARTED ==> s.hash.needStart)
  }

  /** Who holds the lock of the second queue. */
  ghost predicate Holds(s: Chain) {
    && (s.bt.c == C_IDLE && !s.bt.needStart ==> s.bt.lock == CONSUMER)
    && (s.held ==> s.bt.lock == NOBODY && (s.hash.p == P_WAIT_LOCK || s.hash.p == P_MOVING))
  }

  ghost predicate Chained(s: Chain) {
    Inv(s.hash) && Inv(s.bt) && s.bt.p != P_WAIT_LOCK && s.bt.p != P_MOVING && Placed(s) && Holds(s)
  }

  /** What a queue says of its lock and of its rest. */
  lemma Facts(q: Queue)
    requires Inv(q)
    ensures |q.slots| > 0 && P_WAIT_START <= q.p <= P_SET_STOPPED && C_IDLE <= q.c <= S_DRAIN
    ensures (q.p == P_MOVING <==> q.lock == PRODUCER) && (q.lock == NOBODY || q.lock == CONSUMER || q.lock == PRODUCER)
    ensures q.needStart ==> q.lock == NOBODY && q.p == P_WAIT_START && !q.canStart && (q.c == C_IDLE || q.c == G_START)
    ensures q.lock == CONSUMER ==> q.c == C_IDLE || q.c == G_LEAVE || q.c == S_MARK || q.c == S_LEAVE
    ensures q.c == G_LEAVE ==> q.lock == CONSUMER
    ensures q.p == P_WAIT_START && q.c == C_IDLE ==> q.needStart
  {
    hide Kept, Counted, InOrder;
  }

  lemma HashKeeps(s: Chain, move: bool)
    requires Chained(s) && CanHash(s)
    ensures Chained(HashStep(s, move))
  {
    Facts(s.hash);
    Facts(s.bt);
    if !(s.hash.p == P_WAIT_LOCK && !s.held) {
      ProduceInv(s.hash, move);
    }
    hide Inv;
  }

  /** Taking and leaving the lock of the first queue. */
  lemma BtLocks(s: Chain, wish: Wish)
    requires Chained(s) && !s.hash.needStart && CanConsume(s.hash, wish) && s.bt.p == P_FILLING && s.hash.c == C_IDLE
    requires (s.place == BEFORE && wish == Resume) || (s.place == WITHIN && wish == Pause)
    ensures |s.hash.slots| > 0 && Chained(s.(hash := Consume(s.hash, wish), place := s.place + 1))
  {
    Facts(s.hash);
    Facts(s.bt);
    ConsumeInv(s.hash, wish);
    hide Inv;
  }

  /** A step of a call of the first queue: for a block, or to stop it. */
  lemma BtCalls(s: Chain, wish: Wish)
    requires Chained(s) && Calling(s, true) && CanConsume(s.hash, wish)
    requires (wish == Get && s.bt.p == P_FILLING && s.place == WITHIN) || (wish == Stop && s.bt.p == P_SET_STOPPED)
    ensures |s.hash.slots| > 0 && Chained(s.(hash := Consume(s.hash, wish)))
  {
    Facts(s.hash);
    Facts(s.bt);
    ConsumeInv(s.hash, wish);
    hide Inv;
  }

  /** A step of the second queue. */
  lemma BtProduces(s: Chain)
    requires Chained(s) && CanProduce(s.bt) && s.hash.c == C_IDLE && (s.bt.p == P_FILLING ==> s.place == AFTER)
    requires s.bt.p == P_SET_STOPPED ==> s.hash.needStart
    ensures Chained(s.(bt := Produce(s.bt, false), place := BEFORE))
  {
    Facts(s.hash);
    Facts(s.bt);
    ProduceInv(s.bt, false);
    Facts(Produce(s.bt, false));
    hide Inv;
  }

  /** Without a session there is no lock to take or to leave. */
  lemma BtPasses(s: Chain)
    requires Chained(s) && s.hash.needStart && s.bt.p == P_FILLING && s.place < AFTER && s.hash.c == C_IDLE
    ensures Chained(s.(place := s.place + 1))
  {
    Facts(s.hash);
    hide Inv;
  }

  lemma BtKeeps(s: Chain, more: bool)
    requires Chained(s) && CanBt(s, more)
    ensures |s.hash.slots| > 0 && Chained(BtStep(s, more))
  {
    Facts(s.hash);
    BtPlace(s);
    hide Chained, Consume, Produce, CanConsume, CanProduce, Inv;
    if s.bt.p == P_FILLING && s.place == BEFORE {
      if s.hash.needStart { BtPasses(s); } else { BtLocks(s, Resume); }
    } else if s.bt.p == P_FILLING && s.place == WITHIN {
      if Calling(s, more) { BtCalls(s, Get); } else if s.hash.needStart { BtPasses(s); } else { BtLocks(s, Pause); }
    } else if s.bt.p == P_SET_STOPPED && Calling(s, more) {
      BtCalls(s, Stop);
    } else {
      BtProduces(s);
    }
  }

  lemma BtPlace(s: Chain)
    requires Chained(s)
    ensures BEFORE <= s.place <= AFTER
    ensures s.hash.c == C_IDLE || s.bt.p == P_SET_STOPPED || (s.bt.p == P_FILLING && s.place == WITHIN)
  {
    hide Inv, Holds;
  }

  lemma MainKeeps(s: Chain, stop: bool)
    requires Chained(s) && CanMain(s, stop)
    ensures |s.bt.slots| > 0 && Chained(MainStep(s, stop))
  {
    Facts(s.hash);
    Facts(s.bt);
    ConsumeInv(s.bt, Call(stop));
    Facts(Consume(s.bt, Call(stop)));
    hide Inv;
  }

  // ---------------------------------------------------------------- whole runs

  predicate CanTurn(s: Chain, t: Turn) {
    && |s.hash.slots| > 0 && |s.bt.slots| > 0
    && match t case ByHash(_) => CanHash(s) case ByBt(more) => CanBt(s, more) case ByMain(stop) => CanMain(s, stop)
  }

  function TurnOf(s: Chain, t: Turn): (r: Chain)
    requires CanTurn(s, t)
    ensures |r.hash.slots| == |s.hash.slots| && |r.bt.slots| == |s.bt.slots|
  {
    match t case ByHash(move) => HashStep(s, move) case ByBt(more) => BtStep(s, more) case ByMain(stop) => MainStep(s, stop)
  }

  function Began(n: nat, m: nat): Chain
    requires n >= 1 && m >= 1
  {
    Chain(Start(n), Start(m), BEFORE, false)
  }

  predicate CanGo(s: Chain, ts: seq<Turn>)
    decreases |ts|, 0
  {
    ts == [] || (CanGo(s, ts[..|ts| - 1]) && CanTurn(Went(s, ts[..|ts| - 1]), ts[|ts| - 1]))
  }

  function Went(s: Chain, ts: seq<Turn>): (r: Chain)
    requires CanGo(s, ts)
    ensures |r.hash.slots| == |s.hash.slots| && |r.bt.slots| == |s.bt.slots|
    decreases |ts|, 1
  {
    if ts == [] then s else TurnOf(Went(s, ts[..|ts| - 1]), ts[|ts| - 1])
  }

  lemma {:induction false} WentKeeps(s: Chain, ts: seq<Turn>)
    requires Chained(s) && CanGo(s, ts)
    ensures Chained(Went(s, ts))
  {
    hide Chained, HashStep, BtStep, MainStep, CanHash, CanBt, CanMain;
    if ts != [] {
      var before := Went(s, ts[..|ts| - 1]);
      WentKeeps(s, ts[..|ts| - 1]);
      match ts[|ts| - 1] {
        case ByHash(move) => HashKeeps(before, move);
        case ByBt(more) => BtKeeps(before, more);
        case ByMain(stop) => MainKeeps(before, stop);
      }
    }
  }

  lemma BeganChained(n: nat, m: nat)
    requires n >= 1 && m >= 1
    ensures Chained(Began(n, m))
  {
    StartInv(n);
    StartInv(m);
    hide Inv;
  }

  // ---------------------------------------------------------------- what the chain promises

  /** The hash thread has both locks and moves the window. */
  predicate Moving(s: Chain) { s.hash.p == P_MOVING && s.held }

  /** The encoder works with the window: it is between calls. */
  predicate MainReads(s: Chain) { s.bt.c == C_IDLE }

  /** The binary-tree thread works with the window: it fills a block and waits for nothing. */
  predicate BtReads(s: Chain) { s.bt.p == P_FILLING && s.place == WITHIN && s.hash.c == C_IDLE }

  /** The window moves under nobody. */
  lemma MovesAlone(s: Chain)
    requires Chained(s) && Moving(s)
    ensures !MainReads(s) && !BtReads(s)
  {
    Facts(s.hash);
    Facts(s.bt);
    hide Inv;
  }

  /** While a call of the encoder is under way one of the three threads can move: the nested locks block nobody for good. */
  lemma ChainGoesOn(s: Chain)
    requires Chained(s) && s.bt.c != C_IDLE
    ensures exists t: Turn :: CanTurn(s, t)
  {
    Facts(s.hash);
    Facts(s.bt);
    if CanTurn(s, ByMain(false)) || CanTurn(s, ByBt(false)) || CanTurn(s, ByHash(false)) { return; }
    CallGoesOn(s.bt, Get);
    hide Inv;
    if s.held {
      HolderGoesOn(s);
    } else {
      HashOrBt(s);
    }
  }

  /** The hash thread waits for its own lock at most, and then the binary-tree thread, who has it, goes on. */
  lemma HolderGoesOn(s: Chain)
    requires Chained(s) && s.held
    ensures CanTurn(s, ByHash(false)) || CanTurn(s, ByBt(false))
  {
    Facts(s.hash);
    Facts(s.bt);
    hide Inv;
  }

  /** A binary-tree thread that cannot go on waits for a hash thread that can, or that waits for the encoder. */
  lemma HashOrBt(s: Chain)
    requires Chained(s) && !s.held && s.bt.c != C_IDLE
    ensures CanTurn(s, ByMain(false)) || CanTurn(s, ByBt(false)) || CanTurn(s, ByHash(false))
  {
    Facts(s.hash);
    Facts(s.bt);
    CallGoesOn(s.bt, Get);
    if s.hash.c != C_IDLE {
      CallGoesOn(s.hash, Get);
    }
    hide Inv;
  }

  /** After the encoder's MtSync_StopWriting both queues are empty, both threads wait to be started and no lock is held. */
  lemma ChainStopped(s: Chain)
    requires Chained(s) && s.bt.c == C_IDLE && s.bt.needStart
    ensures s.bt.p == s.hash.p == P_WAIT_START && s.bt.lock == s.hash.lock == NOBODY && !s.held
    ensures s.bt.free == |s.bt.slots| && s.hash.free == |s.hash.slots| && s.bt.filled == s.hash.filled == 0
  {
    Facts(s.hash);
    Facts(s.bt);
    StoppedClean(s.bt);
    assert s.hash.needStart && s.hash.c == C_IDLE;
    StoppedClean(s.hash);
    hide Inv;
  }

  /** Every run: blocks of both queues in order, semaphores in range, the window moved under nobody, no call stuck. */
  lemma ChainWorks(n: nat, m: nat, ts: seq<Turn>)
    requires n >= 1 && m >= 1 && CanGo(Began(n, m), ts)
    ensures var r := Went(Began(n, m), ts);
      && InOrder(r.hash) && InOrder(r.bt) && 0 <= r.hash.free <= n && 0 <= r.hash.filled <= n
      && 0 <= r.bt.free <= m && 0 <= r.bt.filled <= m
      && (Moving(r) ==> !MainReads(r) && !BtReads(r))
      && (r.bt.c != C_IDLE ==> exists t: Turn :: CanTurn(r, t))
  {
    hide Went, CanGo, CanTurn, Placed, Holds, Moving, MainReads, BtReads;
    BeganChained(n, m);
    WentKeeps(Began(n, m), ts);
    var r := Went(Began(n, m), ts);
    WithinLimits(r.hash);
    WithinLimits(r.bt);
    if Moving(r) { MovesAlone(r); }
    if r.bt.c != C_IDLE { ChainGoesOn(r); }
  }
}
