/**
 The blocking bounded queue with close: one mutex, two condition variables, single signals.

 Any number of threads call push, pop and close any number of times. One move is one lock, test,
 update, signal, broadcast or unlock. A sleeping thread leaves its wait when it is signalled,
 broadcast or spuriously woken; it then competes for the mutex with threads that have only just
 called in, and tests its condition again.

 The source's waits name a bare `mu`, its pop reads `data[tail]` and its signals pass the mutex;
 the model takes the evident readings `&q->mu`, `q->data[q->tail]` and a one-argument signal.
 */
module BoundedQueue {
  import opened Counting
  import opened LockOrder

  const BQ_CAPACITY: nat := 8
  const CLOSED_RC: int := -2

  type Slots = d: seq<int> | |d| == BQ_CAPACITY witness seq(BQ_CAPACITY, i => 0)
  type Position = n: nat | n < BQ_CAPACITY

  datatype Pc =
    | Idle
    | PushLock(v: int) | PushTest(v: int) | PushSleep(v: int) | PushWoken(v: int)
    | PushAct(v: int) | PushSignal | PushUnlock(rc: int)
    | PopLock | PopTest | PopSleep | PopWoken | PopAct | PopSignal | PopUnlock(rc: int)
    | CloseLock | CloseSet | CloseWakeProducers | CloseWakeConsumers | CloseUnlock

  /** The queue's fields, the mutex's owner (-1 when free) and the threads; `accepted` and `popped`
      are history: the values of the pushes and pops that succeeded, in order. */
  datatype State = State(
    data: Slots, head: Position, tail: Position, count: nat, closed: bool,
    owner: int, pcs: seq<Pc>, accepted: seq<int>, popped: seq<int>)

  function InitialState(data: Slots, threads: nat): State {
    State(data, 0, 0, 0, false, -1, seq(threads, i => Idle), [], [])
  }

  // ---------------------------------------------------------------------------------------------
  // Moves
  // ---------------------------------------------------------------------------------------------

  /** A call begins; a thread takes its next step, where `u` is the waiter a signal wakes; a sleeper
      wakes without a signal. */
  datatype Move = Call(t: nat, pc: Pc) | Step(t: nat, u: nat) | Spurious(t: nat)

  predicate Critical(pc: Pc) {
    pc.PushTest? || pc.PushAct? || pc.PushSignal? || pc.PushUnlock?
    || pc.PopTest? || pc.PopAct? || pc.PopSignal? || pc.PopUnlock?
    || pc.CloseSet? || pc.CloseWakeProducers? || pc.CloseWakeConsumers? || pc.CloseUnlock?
  }

  predicate WantsMutex(pc: Pc) { pc.PushLock? || pc.PushWoken? || pc.PopLock? || pc.PopWoken? || pc.CloseLock? }

  predicate ProducerAsleep(pc: Pc) { pc.PushSleep? }

  predicate ConsumerAsleep(pc: Pc) { pc.PopSleep? }

  /** A producer that has left its wait, or has just come in, and will test the condition or act. */
  predicate ProducerAwake(pc: Pc) { pc.PushWoken? || pc.PushTest? || pc.PushAct? }

  predicate ConsumerAwake(pc: Pc) { pc.PopWoken? || pc.PopTest? || pc.PopAct? }

  predicate AboutToSignalConsumer(pc: Pc) { pc.PushSignal? }

  predicate AboutToSignalProducer(pc: Pc) { pc.PopSignal? }

  function Wake(pc: Pc): Pc {
    match pc
    case PushSleep(v) => PushWoken(v)
    case PopSleep => PopWoken
    case _ => pc
  }

  /** Wake every waiter of one condition variable. */
  function Broadcast(pcs: seq<Pc>, asleep: Pc -> bool): (r: seq<Pc>)
    ensures |r| == |pcs|
    ensures forall t :: 0 <= t < |pcs| ==> r[t] == if asleep(pcs[t]) then Wake(pcs[t]) else pcs[t]
  {
    seq(|pcs|, t requires 0 <= t < |pcs| => if asleep(pcs[t]) then Wake(pcs[t]) else pcs[t])
  }

  /** Wake waiter `u` if anyone waits. */
  function Signal(pcs: seq<Pc>, u: nat, asleep: Pc -> bool): seq<Pc> {
    if u < |pcs| && asleep(pcs[u]) then pcs[u := Wake(pcs[u])] else pcs
  }

  predicate CanMove(s: State, m: Move) {
    match m
    case Call(t, pc) => t < |s.pcs| && s.pcs[t].Idle? && (pc.PushLock? || pc.PopLock? || pc.CloseLock?)
    case Spurious(t) => t < |s.pcs| && (s.pcs[t].PushSleep? || s.pcs[t].PopSleep?)
    case Step(t, u) =>
      && t < |s.pcs|
      && ((WantsMutex(s.pcs[t]) && s.owner == -1) || Critical(s.pcs[t]))
      && (s.pcs[t].PushSignal? && Count(s.pcs, ConsumerAsleep) > 0 ==> u < |s.pcs| && ConsumerAsleep(s.pcs[u]))
      && (s.pcs[t].PopSignal? && Count(s.pcs, ProducerAsleep) > 0 ==> u < |s.pcs| && ProducerAsleep(s.pcs[u]))
  }

  function Goto(s: State, t: nat, pc: Pc): State
    requires t < |s.pcs|
  {
    s.(pcs := s.pcs[t := pc])
  }

  predicate Pushing(pc: Pc) {
    pc.PushLock? || pc.PushWoken? || pc.PushTest? || pc.PushAct? || pc.PushSignal? || pc.PushUnlock?
  }

  predicate Popping(pc: Pc) {
    pc.PopLock? || pc.PopWoken? || pc.PopTest? || pc.PopAct? || pc.PopSignal? || pc.PopUnlock?
  }

  function PushStep(s: State, t: nat, u: nat): State
    requires t < |s.pcs| && Pushing(s.pcs[t])
  {
    match s.pcs[t]
    case PushLock(v) => Goto(s, t, PushTest(v)).(owner := t)
    case PushWoken(v) => Goto(s, t, PushTest(v)).(owner := t)
    case PushTest(v) =>
      if s.count == BQ_CAPACITY && !s.closed then Goto(s, t, PushSleep(v)).(owner := -1)
      else if s.closed then Goto(s, t, PushUnlock(CLOSED_RC))
      else Goto(s, t, PushAct(v))
    case PushAct(v) =>
      Goto(s, t, PushSignal).(data := s.data[s.head := v], head := (s.head + 1) % BQ_CAPACITY, count := s.count + 1,
                              accepted := s.accepted + [v])
    case PushSignal => s.(pcs := Signal(s.pcs[t := PushUnlock(0)], u, ConsumerAsleep))
    case PushUnlock(_) => Goto(s, t, Idle).(owner := -1)
  }

  function PopStep(s: State, t: nat, u: nat): State
    requires t < |s.pcs| && Popping(s.pcs[t])
  {
    match s.pcs[t]
    case PopLock => Goto(s, t, PopTest).(owner := t)
    case PopWoken => Goto(s, t, PopTest).(owner := t)
    case PopTest =>
      if s.count == 0 && !s.closed then Goto(s, t, PopSleep).(owner := -1)
      else if s.closed && s.count == 0 then Goto(s, t, PopUnlock(CLOSED_RC))
      else Goto(s, t, PopAct)
    case PopAct =>
      Goto(s, t, PopSignal).(tail := (s.tail + 1) % BQ_CAPACITY, count := if s.count == 0 then 0 else s.count - 1,
                             popped := s.popped + [s.data[s.tail]])
    case PopSignal => s.(pcs := Signal(s.pcs[t := PopUnlock(0)], u, ProducerAsleep))
    case PopUnlock(_) => Goto(s, t, Idle).(owner := -1)
  }

  function CloseStep(s: State, t: nat): State
    requires t < |s.pcs|
  {
    match s.pcs[t]
    case CloseLock => Goto(s, t, CloseSet).(owner := t)
    case CloseSet => Goto(s, t, CloseWakeProducers).(closed := true)
    case CloseWakeProducers => s.(pcs := Broadcast(s.pcs[t := CloseWakeConsumers], ProducerAsleep))
    case CloseWakeConsumers => s.(pcs := Broadcast(s.pcs[t := CloseUnlock], ConsumerAsleep))
    case CloseUnlock => Goto(s, t, Idle).(owner := -1)
    case _ => s
  }

  function DoMove(s: State, m: Move): State
    requires CanMove(s, m)
  {
    match m
    case Call(t, pc) => Goto(s, t, pc)
    case Spurious(t) => Goto(s, t, Wake(s.pcs[t]))
    case Step(t, u) =>
      if Pushing(s.pcs[t]) then PushStep(s, t, u)
      else if Popping(s.pcs[t]) then PopStep(s, t, u)
      else CloseStep(s, t)
  }

  ghost predicate IsRun(run: seq<State>, moves: seq<Move>) {
    && |run| == |moves| + 1
    && (exists data, threads :: run[0] == InitialState(data, threads))
    && forall k :: 0 <= k < |moves| ==> CanMove(run[k], moves[k]) && run[k + 1] == DoMove(run[k], moves[k])
  }

  // ---------------------------------------------------------------------------------------------
  // The invariant
  // ---------------------------------------------------------------------------------------------

  /** What a thread inside the mutex has already established. */
  ghost predicate Tested(pc: Pc, count: nat, closed: bool) {
    match pc
    case PushAct(_) => !closed && count < BQ_CAPACITY
    case PushUnlock(rc) => rc == CLOSED_RC ==> closed
    case PopAct => 0 < count
    case PopUnlock(rc) => rc == CLOSED_RC ==> closed && count == 0
    case CloseWakeProducers => closed
    case CloseWakeConsumers => closed
    case CloseUnlock => closed
    case _ => true
  }

  ghost predicate Locked(s: State) {
    MutexOk(s.owner, s.pcs, Critical) && (s.owner >= 0 ==> Tested(s.pcs[s.owner], s.count, s.closed))
  }

  /** The ring holds the accepted values that have not been popped, and pops come in push order. */
  ghost predicate RingOk(data: Slots, head: nat, tail: nat, count: nat, accepted: seq<int>, popped: seq<int>) {
    && count <= BQ_CAPACITY && |accepted| == |popped| + count
    && tail == Slot(|popped|) && head == Slot(|accepted|)
    && popped == accepted[..|popped|]
    && Stored(data, accepted, |popped|)
  }

  function Slot(k: nat): Position { k % BQ_CAPACITY }

  /** The ring holds every accepted value from number `from` on. */
  ghost predicate Stored(data: Slots, accepted: seq<int>, from: nat) {
    forall k :: from <= k < |accepted| ==> data[Slot(k)] == accepted[k]
  }

  /** No lost wakeup, consumers' side and producers' side. */
  ghost predicate ConsumersOk(pcs: seq<Pc>, count: nat, closed: bool) {
    if closed then Count(pcs, ConsumerAsleep) == 0 || Count(pcs, Closing) > 0
    else Count(pcs, ConsumerAsleep) == 0 || count <= Count(pcs, ConsumerAwake) + Count(pcs, AboutToSignalConsumer)
  }

  ghost predicate ProducersOk(pcs: seq<Pc>, count: nat, closed: bool) {
    if closed then Count(pcs, ProducerAsleep) == 0 || Count(pcs, ClosingFirst) > 0
    else (|| Count(pcs, ProducerAsleep) == 0
          || BQ_CAPACITY <= count + Count(pcs, ProducerAwake) + Count(pcs, AboutToSignalProducer))
  }

  predicate Closing(pc: Pc) { pc.CloseWakeProducers? || pc.CloseWakeConsumers? }

  predicate ClosingFirst(pc: Pc) { pc.CloseWakeProducers? }

  ghost predicate Inv(s: State) {
    && Locked(s)
    && QueueOk(s)
    && WakeupsOk(s)
  }

  lemma {:induction false} NoneInitially(n: nat, p: Pc -> bool)
    requires !p(Idle)
    ensures Count(seq(n, i => Idle), p) == 0
  {
    CountZero(seq(n, i => Idle), p);
  }

  lemma InitInv(data: Slots, threads: nat)
    ensures Inv(InitialState(data, threads))
  {
    NoneInitially(threads, ConsumerAsleep);
    NoneInitially(threads, ProducerAsleep);
  }

  lemma OutsideLocked(s: State, m: Move)
    requires Locked(s) && CanMove(s, m) && !m.Step?
    ensures Locked(DoMove(s, m))
  {}

  /** Waking sleepers does not touch the mutex. */
  lemma WakeKeepsMutex(owner: int, pcs: seq<Pc>, pcs': seq<Pc>)
    requires MutexOk(owner, pcs, Critical) && |pcs'| == |pcs|
    requires forall t :: 0 <= t < |pcs| ==> pcs'[t] == pcs[t] || pcs'[t] == Wake(pcs[t])
    ensures MutexOk(owner, pcs', Critical) && (owner >= 0 ==> pcs'[owner] == pcs[owner])
  {
    forall t | 0 <= t < |pcs| && Critical(pcs'[t]) ensures owner == t {
      assert Critical(pcs[t]);
    }
  }

  lemma PushLocked(s: State, t: nat, u: nat)
    requires Locked(s) && s.count <= BQ_CAPACITY && CanMove(s, Step(t, u)) && Pushing(s.pcs[t])
    ensures Locked(PushStep(s, t, u))
  {
    if s.pcs[t].PushSignal? {
      WakeKeepsMutex(s.owner, s.pcs[t := PushUnlock(0)], PushStep(s, t, u).pcs);
    }
  }

  lemma PopLocked(s: State, t: nat, u: nat)
    requires Locked(s) && CanMove(s, Step(t, u)) && Popping(s.pcs[t])
    ensures Locked(PopStep(s, t, u))
  {
    if s.pcs[t].PopSignal? {
      WakeKeepsMutex(s.owner, s.pcs[t := PopUnlock(0)], PopStep(s, t, u).pcs);
    }
  }

  lemma CloseLocked(s: State, t: nat, u: nat)
    requires Locked(s) && CanMove(s, Step(t, u)) && !Pushing(s.pcs[t]) && !Popping(s.pcs[t])
    ensures Locked(CloseStep(s, t))
  {
    if s.pcs[t].CloseWakeProducers? {
      WakeKeepsMutex(s.owner, s.pcs[t := CloseWakeConsumers], CloseStep(s, t).pcs);
    } else if s.pcs[t].CloseWakeConsumers? {
      WakeKeepsMutex(s.owner, s.pcs[t := CloseUnlock], CloseStep(s, t).pcs);
    }
  }

  lemma SlotsDiffer(k: nat, n: nat)
    requires k < n < k + BQ_CAPACITY
    ensures Slot(k) != Slot(n)
  {}

  lemma NextSlot(k: nat)
    ensures Slot(k + 1) == (Slot(k) + 1) % BQ_CAPACITY
  {}

  lemma StoredPush(data: Slots, accepted: seq<int>, from: nat, v: int)
    requires Stored(data, accepted, from) && from <= |accepted| < from + BQ_CAPACITY
    ensures Stored(data[Slot(|accepted|) := v], accepted + [v], from)
  {
    var data', all := data[Slot(|accepted|) := v], accepted + [v];
    forall k | from <= k < |all| ensures data'[Slot(k)] == all[k] {
      if k < |accepted| {
        SlotsDiffer(k, |accepted|);
      }
    }
  }

  lemma RingPush(data: Slots, head: Position, tail: nat, count: nat, accepted: seq<int>, popped: seq<int>, v: int)
    requires RingOk(data, head, tail, count, accepted, popped) && count < BQ_CAPACITY
    ensures RingOk(data[head := v], (head + 1) % BQ_CAPACITY, tail, count + 1, accepted + [v], popped)
  {
    assert (accepted + [v])[..|popped|] == accepted[..|popped|];
    NextSlot(|accepted|);
    StoredPush(data, accepted, |popped|, v);
  }

  lemma RingPop(data: Slots, head: nat, tail: Position, count: nat, accepted: seq<int>, popped: seq<int>)
    requires RingOk(data, head, tail, count, accepted, popped) && 0 < count
    ensures RingOk(data, head, (tail + 1) % BQ_CAPACITY, count - 1, accepted, popped + [data[tail]])
  {
    NextSlot(|popped|);
    assert data[Slot(|popped|)] == accepted[|popped|];
    assert popped + [accepted[|popped|]] == accepted[..|popped| + 1];
  }

  ghost predicate QueueOk(s: State) { RingOk(s.data, s.head, s.tail, s.count, s.accepted, s.popped) }

  lemma PushQueue(s: State, t: nat, u: nat)
    requires Locked(s) && QueueOk(s) && CanMove(s, Step(t, u)) && Pushing(s.pcs[t])
    ensures QueueOk(PushStep(s, t, u))
  {
    if s.pcs[t].PushAct? {
      RingPush(s.data, s.head, s.tail, s.count, s.accepted, s.popped, s.pcs[t].v);
    }
  }

  lemma PopQueue(s: State, t: nat, u: nat)
    requires Locked(s) && QueueOk(s) && CanMove(s, Step(t, u)) && Popping(s.pcs[t])
    ensures QueueOk(PopStep(s, t, u))
  {
    if s.pcs[t].PopAct? {
      RingPop(s.data, s.head, s.tail, s.count, s.accepted, s.popped);
    }
  }

  /** Calls, wakeups and closes leave the ring alone. */
  lemma OtherQueue(s: State, m: Move)
    requires QueueOk(s) && CanMove(s, m) && (m.Step? ==> !Pushing(s.pcs[m.t]) && !Popping(s.pcs[m.t]))
    ensures QueueOk(DoMove(s, m))
  {}

  /** How moving one thread changes every count of the invariant. */
  lemma Recount(pcs: seq<Pc>, t: nat, pc: Pc)
    requires t < |pcs|
    ensures var pcs' := pcs[t := pc];
            && Count(pcs', ConsumerAsleep)
                == Count(pcs, ConsumerAsleep) - One(ConsumerAsleep(pcs[t])) + One(ConsumerAsleep(pc))
            && Count(pcs', ProducerAsleep)
                == Count(pcs, ProducerAsleep) - One(ProducerAsleep(pcs[t])) + One(ProducerAsleep(pc))
            && Count(pcs', ConsumerAwake)
                == Count(pcs, ConsumerAwake) - One(ConsumerAwake(pcs[t])) + One(ConsumerAwake(pc))
            && Count(pcs', ProducerAwake)
                == Count(pcs, ProducerAwake) - One(ProducerAwake(pcs[t])) + One(ProducerAwake(pc))
            && Count(pcs', AboutToSignalConsumer)
               == Count(pcs, AboutToSignalConsumer)
                   - One(AboutToSignalConsumer(pcs[t])) + One(AboutToSignalConsumer(pc))
            && Count(pcs', AboutToSignalProducer)
               == Count(pcs, AboutToSignalProducer)
                   - One(AboutToSignalProducer(pcs[t])) + One(AboutToSignalProducer(pc))
            && Count(pcs', Closing) == Count(pcs, Closing) - One(Closing(pcs[t])) + One(Closing(pc))
            && Count(pcs', ClosingFirst) == Count(pcs, ClosingFirst) - One(ClosingFirst(pcs[t])) + One(ClosingFirst(pc))
  {
    CountUpdate(pcs, t, pc, ConsumerAsleep);
    CountUpdate(pcs, t, pc, ProducerAsleep);
    CountUpdate(pcs, t, pc, ConsumerAwake);
    CountUpdate(pcs, t, pc, ProducerAwake);
    CountUpdate(pcs, t, pc, AboutToSignalConsumer);
    CountUpdate(pcs, t, pc, AboutToSignalProducer);
    CountUpdate(pcs, t, pc, Closing);
    CountUpdate(pcs, t, pc, ClosingFirst);
  }

  ghost predicate WakeupsOk(s: State) {
    ConsumersOk(s.pcs, s.count, s.closed) && ProducersOk(s.pcs, s.count, s.closed)
  }

  lemma OutsideWakeups(s: State, m: Move)
    requires WakeupsOk(s) && CanMove(s, m) && !m.Step?
    ensures WakeupsOk(DoMove(s, m))
  {
    match m
    case Call(t, pc) => Recount(s.pcs, t, pc);
    case Spurious(t) => Recount(s.pcs, t, Wake(s.pcs[t]));
  }

  lemma PushActWakeups(s: State, t: nat, u: nat)
    requires Locked(s) && WakeupsOk(s) && CanMove(s, Step(t, u)) && s.pcs[t].PushAct?
    ensures WakeupsOk(PushStep(s, t, u))
  {
    Recount(s.pcs, t, PushSignal);
  }

  lemma PushWakeups(s: State, t: nat, u: nat)
    requires WakeupsOk(s) && CanMove(s, Step(t, u)) && Pushing(s.pcs[t])
    requires !s.pcs[t].PushSignal? && !s.pcs[t].PushAct?
    ensures WakeupsOk(PushStep(s, t, u))
  {
    Recount(s.pcs, t, PushStep(s, t, u).pcs[t]);
  }

  lemma PushSignalWakeups(s: State, t: nat, u: nat)
    requires WakeupsOk(s) && CanMove(s, Step(t, u)) && s.pcs[t].PushSignal?
    ensures WakeupsOk(PushStep(s, t, u))
  {
    var mid := s.pcs[t := PushUnlock(0)];
    Recount(s.pcs, t, PushUnlock(0));
    if u < |mid| && ConsumerAsleep(mid[u]) {
      Recount(mid, u, PopWoken);
    }
  }

  lemma PopActWakeups(s: State, t: nat, u: nat)
    requires Locked(s) && WakeupsOk(s) && CanMove(s, Step(t, u)) && s.pcs[t].PopAct?
    ensures WakeupsOk(PopStep(s, t, u))
  {
    Recount(s.pcs, t, PopSignal);
  }

  lemma PopWakeups(s: State, t: nat, u: nat)
    requires WakeupsOk(s) && CanMove(s, Step(t, u)) && Popping(s.pcs[t])
    requires !s.pcs[t].PopSignal? && !s.pcs[t].PopAct?
    ensures WakeupsOk(PopStep(s, t, u))
  {
    Recount(s.pcs, t, PopStep(s, t, u).pcs[t]);
  }

  lemma PopSignalWakeups(s: State, t: nat, u: nat)
    requires WakeupsOk(s) && CanMove(s, Step(t, u)) && s.pcs[t].PopSignal?
    ensures WakeupsOk(PopStep(s, t, u))
  {
    var mid := s.pcs[t := PopUnlock(0)];
    Recount(s.pcs, t, PopUnlock(0));
    if u < |mid| && ProducerAsleep(mid[u]) {
      Recount(mid, u, Wake(mid[u]));
    }
  }

  lemma BroadcastConsumers(pcs: seq<Pc>)
    ensures Count(Broadcast(pcs, ConsumerAsleep), ConsumerAsleep) == 0
    ensures Count(pcs, ProducerAsleep) == 0 ==> Count(Broadcast(pcs, ConsumerAsleep), ProducerAsleep) == 0
  {
    CountZero(pcs, ProducerAsleep);
    CountZero(Broadcast(pcs, ConsumerAsleep), ConsumerAsleep);
    CountZero(Broadcast(pcs, ConsumerAsleep), ProducerAsleep);
  }

  lemma BroadcastProducers(pcs: seq<Pc>, t: nat)
    requires t < |pcs| && Closing(pcs[t])
    ensures Count(Broadcast(pcs, ProducerAsleep), ProducerAsleep) == 0
    ensures Count(Broadcast(pcs, ProducerAsleep), Closing) > 0
  {
    CountZero(Broadcast(pcs, ProducerAsleep), ProducerAsleep);
    CountPositive(Broadcast(pcs, ProducerAsleep), t, Closing);
  }

  lemma CloseWakeups(s: State, t: nat, u: nat)
    requires Locked(s) && WakeupsOk(s) && CanMove(s, Step(t, u)) && !Pushing(s.pcs[t]) && !Popping(s.pcs[t])
    ensures WakeupsOk(CloseStep(s, t))
  {
    if s.pcs[t].CloseWakeProducers? {
      BroadcastProducers(s.pcs[t := CloseWakeConsumers], t);
    } else if s.pcs[t].CloseWakeConsumers? {
      NoOtherClosing(s, t);
      Recount(s.pcs, t, CloseUnlock);
      BroadcastConsumers(s.pcs[t := CloseUnlock]);
    } else {
      Recount(s.pcs, t, CloseStep(s, t).pcs[t]);
      if s.pcs[t].CloseSet? {
        CountPositive(CloseStep(s, t).pcs, t, Closing);
        CountPositive(CloseStep(s, t).pcs, t, ClosingFirst);
      }
    }
  }

  lemma NoOtherClosing(s: State, t: nat)
    requires Locked(s) && t < |s.pcs| && s.pcs[t].CloseWakeConsumers?
    ensures Count(s.pcs, ClosingFirst) == 0
  {
    CountZero(s.pcs, ClosingFirst);
  }

  lemma PushMoveInv(s: State, t: nat, u: nat)
    requires Inv(s) && CanMove(s, Step(t, u)) && Pushing(s.pcs[t])
    ensures Inv(PushStep(s, t, u))
  {
    PushQueue(s, t, u);
    PushLocked(s, t, u);
    if s.pcs[t].PushSignal? {
      PushSignalWakeups(s, t, u);
    } else if s.pcs[t].PushAct? {
      PushActWakeups(s, t, u);
    } else {
      PushWakeups(s, t, u);
    }
  }

  lemma PopMoveInv(s: State, t: nat, u: nat)
    requires Inv(s) && CanMove(s, Step(t, u)) && Popping(s.pcs[t])
    ensures Inv(PopStep(s, t, u))
  {
    PopQueue(s, t, u);
    PopLocked(s, t, u);
    if s.pcs[t].PopSignal? {
      PopSignalWakeups(s, t, u);
    } else if s.pcs[t].PopAct? {
      PopActWakeups(s, t, u);
    } else {
      PopWakeups(s, t, u);
    }
  }

  lemma MoveInv(s: State, m: Move)
    requires Inv(s) && CanMove(s, m)
    ensures Inv(DoMove(s, m))
  {
    if !m.Step? {
      OtherQueue(s, m);
      OutsideLocked(s, m);
      OutsideWakeups(s, m);
    } else if Pushing(s.pcs[m.t]) {
      PushMoveInv(s, m.t, m.u);
    } else if Popping(s.pcs[m.t]) {
      PopMoveInv(s, m.t, m.u);
    } else {
      OtherQueue(s, m);
      CloseLocked(s, m.t, m.u);
      CloseWakeups(s, m.t, m.u);
    }
  }

  // ---------------------------------------------------------------------------------------------
  // Theorems over all runs
  // ---------------------------------------------------------------------------------------------

  lemma {:induction false} RunInv(run: seq<State>, moves: seq<Move>, k: nat)
    requires IsRun(run, moves) && k < |run|
    ensures Inv(run[k])
  {
    if k == 0 {
      var data, threads :| run[0] == InitialState(data, threads);
      InitInv(data, threads);
    } else {
      RunInv(run, moves, k - 1);
      MoveInv(run[k - 1], moves[k - 1]);
    }
  }

  /** What the ring holds, oldest first. */
  function Contents(s: State): seq<int> {
    seq(s.count, i => s.data[(s.tail + i) % BQ_CAPACITY])
  }

  /** The values popped, followed by what is in the queue, are the values accepted, in order. */
  lemma FirstInFirstOut(run: seq<State>, moves: seq<Move>, k: nat)
    requires IsRun(run, moves) && k < |run|
    ensures run[k].accepted == run[k].popped + Contents(run[k])
    ensures run[k].count <= 8
  {
    RunInv(run, moves, k);
    var s := run[k];
    forall i | 0 <= i < s.count ensures Contents(s)[i] == s.accepted[|s.popped| + i] {
      SlotShift(|s.popped|, i);
    }
  }

  lemma SlotShift(n: nat, i: nat)
    ensures (n % BQ_CAPACITY + i) % BQ_CAPACITY == (n + i) % BQ_CAPACITY
  {}

  lemma ClosedStep(s: State, m: Move)
    requires Locked(s) && CanMove(s, m) && s.closed
    ensures DoMove(s, m).closed && DoMove(s, m).accepted == s.accepted
  {}

  /** Once closed, always closed, and no push is accepted any more. */
  lemma {:induction false} ClosedForGood(run: seq<State>, moves: seq<Move>, j: nat, k: nat)
    requires IsRun(run, moves) && j <= k < |run| && run[j].closed
    ensures run[k].closed && run[k].accepted == run[j].accepted
    decreases k - j
  {
    if j < k {
      ClosedForGood(run, moves, j, k - 1);
      RunInv(run, moves, k - 1);
      ClosedStep(run[k - 1], moves[k - 1]);
    }
  }

  /** A push that is returning -2 has seen the queue closed: from then on nothing is accepted. */
  lemma RefusedForGood(run: seq<State>, moves: seq<Move>, j: nat, k: nat, t: nat)
    requires IsRun(run, moves) && j <= k < |run|
    requires t < |run[j].pcs| && run[j].pcs[t] == PushUnlock(CLOSED_RC)
    ensures run[j].closed && run[k].accepted == run[j].accepted
  {
    RunInv(run, moves, j);
    ClosedForGood(run, moves, j, k);
  }

  /** A pop that is returning -2 has seen the queue closed and every accepted value popped, and
      nothing is accepted or popped ever after. */
  lemma DrainedForGood(run: seq<State>, moves: seq<Move>, j: nat, k: nat, t: nat)
    requires IsRun(run, moves) && j <= k < |run|
    requires t < |run[j].pcs| && run[j].pcs[t] == PopUnlock(CLOSED_RC)
    ensures run[j].closed && run[k].closed
    ensures run[k].popped == run[k].accepted == run[j].accepted
  {
    RunInv(run, moves, j);
    RunInv(run, moves, k);
    ClosedForGood(run, moves, j, k);
    FirstInFirstOut(run, moves, j);
    PopsNeverShrink(run, moves, j, k);
  }

  lemma {:induction false} PopsNeverShrink(run: seq<State>, moves: seq<Move>, j: nat, k: nat)
    requires IsRun(run, moves) && j <= k < |run|
    ensures |run[j].popped| <= |run[k].popped|
    decreases k - j
  {
    if j < k {
      PopsNeverShrink(run, moves, j, k - 1);
    }
  }

  /** No lost wakeup: while the queue is open and a consumer sleeps, there are at least as many
      consumers on their way as there are values (counting a push that is about to signal); and
      dually for producers and free slots. */
  lemma NoLostWakeup(run: seq<State>, moves: seq<Move>, k: nat)
    requires IsRun(run, moves) && k < |run| && !run[k].closed
    ensures var s := run[k]; Count(s.pcs, ConsumerAsleep) > 0 ==>
              s.count <= Count(s.pcs, ConsumerAwake) + Count(s.pcs, AboutToSignalConsumer)
    ensures var s := run[k]; Count(s.pcs, ProducerAsleep) > 0 ==>
              BQ_CAPACITY - s.count <= Count(s.pcs, ProducerAwake) + Count(s.pcs, AboutToSignalProducer)
  {
    RunInv(run, moves, k);
  }

  predicate PoppedAwake(pc: Pc) { pc.PopWoken? }

  predicate PushedAwake(pc: Pc) { pc.PushWoken? }

  /** With the mutex free the count is sharp: the values are at most the consumers that have been woken
      and wait for the mutex, and dually for the free slots. */
  lemma NoLostWakeupWhenFree(run: seq<State>, moves: seq<Move>, k: nat)
    requires IsRun(run, moves) && k < |run| && !run[k].closed && run[k].owner == -1
    ensures var s := run[k]; Count(s.pcs, ConsumerAsleep) > 0 ==> s.count <= Count(s.pcs, PoppedAwake)
    ensures var s := run[k]; Count(s.pcs, ProducerAsleep) > 0 ==> BQ_CAPACITY - s.count <= Count(s.pcs, PushedAwake)
  {
    RunInv(run, moves, k);
    var pcs := run[k].pcs;
    forall pc | pc in pcs ensures !Critical(pc) {}
    CountZero(pcs, AboutToSignalConsumer);
    CountZero(pcs, AboutToSignalProducer);
    CountSame(pcs, ConsumerAwake, PoppedAwake);
    CountSame(pcs, ProducerAwake, PushedAwake);
  }

  ghost predicate NobodyAsleep(s: State) {
    forall t :: 0 <= t < |s.pcs| ==> !ProducerAsleep(s.pcs[t]) && !ConsumerAsleep(s.pcs[t])
  }

  lemma AwakeAfterBroadcasts(s: State)
    requires WakeupsOk(s) && s.closed && forall u :: 0 <= u < |s.pcs| ==> !Closing(s.pcs[u])
    ensures NobodyAsleep(s)
  {
    CountZero(s.pcs, Closing);
    CountZero(s.pcs, ClosingFirst);
    CountZero(s.pcs, ProducerAsleep);
    CountZero(s.pcs, ConsumerAsleep);
  }

  lemma StaysAwake(s: State, m: Move)
    requires CanMove(s, m) && s.closed && NobodyAsleep(s)
    ensures NobodyAsleep(DoMove(s, m))
  {}

  /** From the first moment at which the queue is closed and no close has broadcasts left to do, nobody
      is asleep ever again, whatever further calls do, closes in the middle of their broadcasts included. */
  lemma {:induction false} NobodySleepsAfterClose(run: seq<State>, moves: seq<Move>, j: nat, k: nat)
    requires IsRun(run, moves) && j <= k < |run| && run[j].closed
    requires forall u :: 0 <= u < |run[j].pcs| ==> !Closing(run[j].pcs[u])
    ensures NobodyAsleep(run[k])
    decreases k - j
  {
    if j < k {
      NobodySleepsAfterClose(run, moves, j, k - 1);
      ClosedForGood(run, moves, j, k - 1);
      StaysAwake(run[k - 1], moves[k - 1]);
    } else {
      RunInv(run, moves, k);
      AwakeAfterBroadcasts(run[k]);
    }
  }

  /** In particular from the moment any one close is done with its two broadcasts. */
  lemma CloseWakesEverybody(run: seq<State>, moves: seq<Move>, j: nat, k: nat, u: nat)
    requires IsRun(run, moves) && j <= k < |run| && u < |run[j].pcs| && run[j].pcs[u].CloseUnlock?
    ensures run[k].closed && NobodyAsleep(run[k])
  {
    RunInv(run, moves, j);
    ClosedForGood(run, moves, j, k);
    NobodySleepsAfterClose(run, moves, j, k);
  }

  predicate CanStep(s: State, t: nat) {
    t < |s.pcs| && ((WantsMutex(s.pcs[t]) && s.owner == -1) || Critical(s.pcs[t]))
  }

  /** If no thread can take a step, every thread is idle or rightly asleep: consumers only on an empty
      open queue, producers only on a full open one. So threads never all sleep with work to do. */
  lemma SleepIsJustified(run: seq<State>, moves: seq<Move>, k: nat, t: nat)
    requires IsRun(run, moves) && k < |run| && t < |run[k].pcs|
    requires forall u: nat :: u < |run[k].pcs| ==> !CanStep(run[k], u)
    ensures run[k].pcs[t].Idle? || run[k].pcs[t].PopSleep? || run[k].pcs[t].PushSleep?
    ensures run[k].pcs[t].PopSleep? ==> !run[k].closed && run[k].count == 0
    ensures run[k].pcs[t].PushSleep? ==> !run[k].closed && run[k].count == 8
  {
    RunInv(run, moves, k);
    var s := run[k];
    assert !CanStep(s, t);
    assert s.owner == -1 by {
      if s.owner >= 0 {
        assert CanStep(s, s.owner);
      }
    }
    forall pc | pc in s.pcs ensures pc.Idle? || pc.PopSleep? || pc.PushSleep? {
      var u: nat :| u < |s.pcs| && s.pcs[u] == pc;
      assert !CanStep(s, u);
    }
    if s.pcs[t].PopSleep? {
      CountPositive(s.pcs, t, ConsumerAsleep);
    } else if s.pcs[t].PushSleep? {
      CountPositive(s.pcs, t, ProducerAsleep);
    }
    CountZero(s.pcs, Closing);
    CountZero(s.pcs, ClosingFirst);
    CountZero(s.pcs, ConsumerAwake);
    CountZero(s.pcs, ProducerAwake);
    CountZero(s.pcs, AboutToSignalConsumer);
    CountZero(s.pcs, AboutToSignalProducer);
  }

  /** A thread that can step always has a move: a signal finds a waiter whenever one exists. */
  lemma StepIsEnabled(s: State, t: nat)
    requires CanStep(s, t)
    ensures exists u :: CanMove(s, Step(t, u))
  {
    var u: nat := 0;
    if s.pcs[t].PushSignal? && Count(s.pcs, ConsumerAsleep) > 0 {
      u := CountWitness(s.pcs, ConsumerAsleep);
    } else if s.pcs[t].PopSignal? && Count(s.pcs, ProducerAsleep) > 0 {
      u := CountWitness(s.pcs, ProducerAsleep);
    }
    assert CanMove(s, Step(t, u));
  }

  // ---------------------------------------------------------------------------------------------
  // Calls, their arguments and their return codes
  // ---------------------------------------------------------------------------------------------

  datatype LastCall = NoCall | Called(pc: Pc)

  /** The call that thread t made last before move k. */
  function CallBefore(moves: seq<Move>, k: nat, t: nat): LastCall
    requires k <= |moves|
  {
    if k == 0 then NoCall
    else if moves[k - 1].Call? && moves[k - 1].t == t then Called(moves[k - 1].pc)
    else CallBefore(moves, k - 1, t)
  }

  /** Move m is the step in which thread t stores a value into the queue, or takes one out. */
  predicate Acts(s: State, m: Move, t: nat) {
    m.Step? && m.t == t && t < |s.pcs| && (s.pcs[t].PushAct? || s.pcs[t].PopAct?)
  }

  /** Since its last call before move k thread t has stored or taken a value. */
  ghost predicate ActedBefore(run: seq<State>, moves: seq<Move>, k: nat, t: nat)
    requires k <= |moves| < |run|
  {
    k > 0 && !(moves[k - 1].Call? && moves[k - 1].t == t)
    && (Acts(run[k - 1], moves[k - 1], t) || ActedBefore(run, moves, k - 1, t))
  }

  /** A thread's position belongs to its last call, carries the argument of that call, and says whether the
      call has acted. */
  ghost predicate Remembers(pc: Pc, last: LastCall, acted: bool) {
    match pc
    case Idle => true
    case PushLock(v) => last == Called(PushLock(v)) && !acted
    case PushTest(v) => last == Called(PushLock(v)) && !acted
    case PushSleep(v) => last == Called(PushLock(v)) && !acted
    case PushWoken(v) => last == Called(PushLock(v)) && !acted
    case PushAct(v) => last == Called(PushLock(v)) && !acted
    case PushSignal => last.Called? && last.pc.PushLock? && acted
    case PushUnlock(rc) => last.Called? && last.pc.PushLock? && ((rc == 0 && acted) || (rc == -2 && !acted))
    case PopSignal => last == Called(PopLock) && acted
    case PopUnlock(rc) => last == Called(PopLock) && ((rc == 0 && acted) || (rc == -2 && !acted))
    case _ =>
      var popping := pc.PopLock? || pc.PopTest? || pc.PopSleep? || pc.PopWoken? || pc.PopAct?;
      last == Called(if popping then PopLock else CloseLock) && !acted
  }

  lemma OthersInPush(s: State, t: nat, u: nat, v: nat)
    requires CanMove(s, Step(t, u)) && Pushing(s.pcs[t]) && v < |s.pcs| && v != t
    ensures PushStep(s, t, u).pcs[v] == s.pcs[v] || PushStep(s, t, u).pcs[v] == Wake(s.pcs[v])
  {}

  lemma OthersInPop(s: State, t: nat, u: nat, v: nat)
    requires CanMove(s, Step(t, u)) && Popping(s.pcs[t]) && v < |s.pcs| && v != t
    ensures PopStep(s, t, u).pcs[v] == s.pcs[v] || PopStep(s, t, u).pcs[v] == Wake(s.pcs[v])
  {}

  lemma OthersInClose(s: State, t: nat, v: nat)
    requires t < |s.pcs| && v < |s.pcs| && v != t
    ensures CloseStep(s, t).pcs[v] == s.pcs[v] || CloseStep(s, t).pcs[v] == Wake(s.pcs[v])
  {}

  lemma OthersOnlyWake(s: State, m: Move, u: nat)
    requires CanMove(s, m) && u < |s.pcs| && u != m.t
    ensures u < |DoMove(s, m).pcs| && (DoMove(s, m).pcs[u] == s.pcs[u] || DoMove(s, m).pcs[u] == Wake(s.pcs[u]))
  {
    SameThreads(s, m);
    if m.Step? && Pushing(s.pcs[m.t]) {
      OthersInPush(s, m.t, m.u, u);
    } else if m.Step? && Popping(s.pcs[m.t]) {
      OthersInPop(s, m.t, m.u, u);
    } else if m.Step? {
      OthersInClose(s, m.t, u);
    }
  }

  lemma PushRemembers(s: State, t: nat, u: nat, last: LastCall, acted: bool)
    requires CanMove(s, Step(t, u)) && Pushing(s.pcs[t]) && Remembers(s.pcs[t], last, acted)
    ensures Remembers(PushStep(s, t, u).pcs[t], last, acted || s.pcs[t].PushAct?)
  {}

  lemma PopRemembers(s: State, t: nat, u: nat, last: LastCall, acted: bool)
    requires CanMove(s, Step(t, u)) && Popping(s.pcs[t]) && Remembers(s.pcs[t], last, acted)
    ensures Remembers(PopStep(s, t, u).pcs[t], last, acted || s.pcs[t].PopAct?)
  {}

  lemma CloseRemembers(s: State, t: nat, u: nat, last: LastCall, acted: bool)
    requires CanMove(s, Step(t, u)) && !Pushing(s.pcs[t]) && !Popping(s.pcs[t]) && Remembers(s.pcs[t], last, acted)
    ensures Remembers(CloseStep(s, t).pcs[t], last, acted)
  {}

  lemma OwnRemembers(s: State, m: Move, last: LastCall, acted: bool)
    requires CanMove(s, m) && Remembers(s.pcs[m.t], last, acted)
    ensures m.t < |DoMove(s, m).pcs|
    ensures if m.Call? then Remembers(DoMove(s, m).pcs[m.t], Called(m.pc), false)
            else Remembers(DoMove(s, m).pcs[m.t], last, acted || Acts(s, m, m.t))
  {
    SameThreads(s, m);
    if m.Step? && Pushing(s.pcs[m.t]) {
      PushRemembers(s, m.t, m.u, last, acted);
    } else if m.Step? && Popping(s.pcs[m.t]) {
      PopRemembers(s, m.t, m.u, last, acted);
    } else if m.Step? {
      CloseRemembers(s, m.t, m.u, last, acted);
    }
  }

  lemma {:induction false} RunRemembers(run: seq<State>, moves: seq<Move>, k: nat, t: nat)
    requires IsRun(run, moves) && k < |run| && t < |run[k].pcs|
    ensures Remembers(run[k].pcs[t], CallBefore(moves, k, t), ActedBefore(run, moves, k, t))
  {
    if k > 0 {
      var s, m := run[k - 1], moves[k - 1];
      SameThreads(s, m);
      RunRemembers(run, moves, k - 1, t);
      if m.t == t {
        OwnRemembers(s, m, CallBefore(moves, k - 1, t), ActedBefore(run, moves, k - 1, t));
      } else {
        OthersOnlyWake(s, m, t);
      }
    }
  }

  lemma SameThreads(s: State, m: Move)
    requires CanMove(s, m)
    ensures |DoMove(s, m).pcs| == |s.pcs|
  {}

  /** The arguments of the pushes that have stored their value before move k, in the order of storing. */
  ghost function StoredArguments(run: seq<State>, moves: seq<Move>, k: nat): seq<int>
    requires k <= |moves| < |run|
  {
    if k == 0 then []
    else
      var m, last := moves[k - 1], CallBefore(moves, k - 1, moves[k - 1].t);
      StoredArguments(run, moves, k - 1)
      + if Acts(run[k - 1], m, m.t) && last.Called? && last.pc.PushLock? then [last.pc.v] else []
  }

  lemma AcceptStep(s: State, m: Move)
    requires CanMove(s, m)
    ensures DoMove(s, m).accepted
         == s.accepted + if m.Step? && s.pcs[m.t].PushAct? then [s.pcs[m.t].v] else []
  {}

  /** What the queue accepts is what its callers push: the values popped, followed by what is in the queue,
      are the arguments of the push calls that stored, in that order, and no other move accepts anything. */
  lemma {:induction false} QueueHoldsArguments(run: seq<State>, moves: seq<Move>, k: nat)
    requires IsRun(run, moves) && k < |run|
    ensures run[k].accepted == StoredArguments(run, moves, k)
    ensures StoredArguments(run, moves, k) == run[k].popped + Contents(run[k])
  {
    if k > 0 {
      var s, m := run[k - 1], moves[k - 1];
      QueueHoldsArguments(run, moves, k - 1);
      RunRemembers(run, moves, k - 1, m.t);
      AcceptStep(s, m);
    }
    FirstInFirstOut(run, moves, k);
  }

  /** A push or pop that is about to return has code 0 or -2: 0 exactly when the call has stored or taken its
      value, -2 exactly when it has not. */
  lemma ReturnCodes(run: seq<State>, moves: seq<Move>, k: nat, t: nat)
    requires IsRun(run, moves) && k < |run| && t < |run[k].pcs|
    requires run[k].pcs[t].PushUnlock? || run[k].pcs[t].PopUnlock?
    ensures run[k].pcs[t].rc == 0 <==> ActedBefore(run, moves, k, t)
    ensures run[k].pcs[t].rc == -2 <==> !ActedBefore(run, moves, k, t)
  {
    RunRemembers(run, moves, k, t);
  }
}
