/**
 The semaphore reader-writer lock, with the readers and writers that use it. Any number of threads;
 one step is one semaphore operation, one update of `num_readers`, one load or one store of `value`.
 The write token is taken by the first reader in and returned by the last one out, which need not be
 the same thread.
 */
module ReaderWriter {
  import opened Counting

  datatype Pc =
    | RTop | RCount | RWaitWrite | RPost | RReading | RRelease | RUncount | RPostWrite | RRelPost
    | WTop | WLoad | WStore(tmp: int) | WPost

  /** `loops` rounds are to be done, `i` are. */
  datatype Thread = Thread(i: nat, pc: Pc)

  datatype State = State(lock: nat, writeLock: nat, numReaders: int, value: int, threads: seq<Thread>)

  predicate IsWriter(th: Thread) { th.pc.WTop? || th.pc.WLoad? || th.pc.WStore? || th.pc.WPost? }

  predicate Done(loops: nat, th: Thread) { (th.pc.RTop? || th.pc.WTop?) && th.i >= loops }

  predicate CanStep(loops: nat, s: State, t: nat) {
    t < |s.threads| && !Done(loops, s.threads[t])
    && match s.threads[t].pc
       case RTop => s.lock > 0
       case RRelease => s.lock > 0
       case RWaitWrite => s.writeLock > 0
       case WTop => s.writeLock > 0
       case _ => true
  }

  function Goto(s: State, t: nat, pc: Pc): State
    requires t < |s.threads|
  {
    s.(threads := s.threads[t := s.threads[t].(pc := pc)])
  }

  function NextRound(s: State, t: nat, pc: Pc): State
    requires t < |s.threads|
  {
    s.(threads := s.threads[t := Thread(s.threads[t].i + 1, pc)])
  }

  function Step(loops: nat, s: State, t: nat): State
    requires CanStep(loops, s, t)
  {
    match s.threads[t].pc
    case RTop => Goto(s, t, RCount).(lock := s.lock - 1)
    case RCount => Goto(s, t, if s.numReaders + 1 == 1 then RWaitWrite else RPost).(numReaders := s.numReaders + 1)
    case RWaitWrite => Goto(s, t, RPost).(writeLock := s.writeLock - 1)
    case RPost => Goto(s, t, RReading).(lock := s.lock + 1)
    case RReading => Goto(s, t, RRelease)
    case RRelease => Goto(s, t, RUncount).(lock := s.lock - 1)
    case RUncount => Goto(s, t, if s.numReaders - 1 == 0 then RPostWrite else RRelPost).(numReaders := s.numReaders - 1)
    case RPostWrite => Goto(s, t, RRelPost).(writeLock := s.writeLock + 1)
    case RRelPost => NextRound(s, t, RTop).(lock := s.lock + 1)
    case WTop => Goto(s, t, WLoad).(writeLock := s.writeLock - 1)
    case WLoad => Goto(s, t, WStore(s.value))
    case WStore(tmp) => Goto(s, t, WPost).(value := tmp + 1)
    case WPost => NextRound(s, t, WTop).(writeLock := s.writeLock + 1)
  }

  function InitialState(readers: nat, writers: nat): State {
    State(1, 1, 0, 0, seq(readers, i => Thread(0, RTop)) + seq(writers, i => Thread(0, WTop)))
  }

  ghost predicate IsRun(readers: nat, writers: nat, loops: nat, run: seq<State>, schedule: seq<nat>) {
    && |run| == |schedule| + 1 && run[0] == InitialState(readers, writers)
    && forall k :: 0 <= k < |schedule| ==>
        CanStep(loops, run[k], schedule[k]) && run[k + 1] == Step(loops, run[k], schedule[k])
  }

  // ---------------------------------------------------------------------------------------------
  // The invariant
  // ---------------------------------------------------------------------------------------------

  predicate HoldsLock(th: Thread) {
    th.pc.RCount? || th.pc.RWaitWrite? || th.pc.RPost? || th.pc.RUncount? || th.pc.RPostWrite? || th.pc.RRelPost?
  }

  /** Readers that `num_readers` includes. */
  predicate Counted(th: Thread) {
    th.pc.RWaitWrite? || th.pc.RPost? || th.pc.RReading? || th.pc.RRelease? || th.pc.RUncount?
  }

  predicate WriterInside(th: Thread) { th.pc.WLoad? || th.pc.WStore? || th.pc.WPost? }

  predicate TakesToken(th: Thread) { th.pc.RWaitWrite? }

  predicate ReturnsToken(th: Thread) { th.pc.RPostWrite? }

  /** Readers inside the lock. */
  predicate ReaderInside(th: Thread) { th.pc.RPost? || th.pc.RReading? || th.pc.RRelease? || th.pc.RUncount? }

  /** The write token, as far as the readers have it: they do while some reader is counted and none is
      still waiting for the token, or while the last one out has yet to post it. */
  function ReadersToken(numReaders: int, taking: nat, returning: nat): nat {
    if taking > 0 then 0 else if numReaders > 0 then 1 else returning
  }

  ghost predicate SemaphoresOk(s: State) {
    && s.lock + Count(s.threads, HoldsLock) == 1
    && s.numReaders == Count(s.threads, Counted)
    && (Count(s.threads, TakesToken) > 0 ==> s.numReaders == 1)
    && (Count(s.threads, ReturnsToken) > 0 ==> s.numReaders == 0)
    && s.writeLock + Count(s.threads, WriterInside)
       + ReadersToken(s.numReaders, Count(s.threads, TakesToken), Count(s.threads, ReturnsToken)) == 1
  }

  /** Increments a thread has stored. */
  function Stored(th: Thread): int { if IsWriter(th) then th.i + (if th.pc.WPost? then 1 else 0) else 0 }

  ghost predicate ValueOk(loops: nat, value: int, threads: seq<Thread>) {
    && value == Sum(threads, Stored)
    && (forall t :: 0 <= t < |threads| && threads[t].pc.WStore? ==> threads[t].pc.tmp == value)
    && (forall t :: 0 <= t < |threads| ==>
        threads[t].i <= loops && (threads[t].pc.RTop? || threads[t].pc.WTop? || threads[t].i < loops))
  }

  ghost predicate Inv(loops: nat, s: State) { SemaphoresOk(s) && ValueOk(loops, s.value, s.threads) }

  lemma NoneInitially(readers: nat, writers: nat, p: Thread -> bool)
    requires !p(Thread(0, RTop)) && !p(Thread(0, WTop))
    ensures Count(InitialState(readers, writers).threads, p) == 0
  {
    CountZero(InitialState(readers, writers).threads, p);
  }

  lemma InitInv(readers: nat, writers: nat, loops: nat)
    ensures Inv(loops, InitialState(readers, writers))
  {
    NoneInitially(readers, writers, HoldsLock);
    NoneInitially(readers, writers, Counted);
    NoneInitially(readers, writers, TakesToken);
    NoneInitially(readers, writers, ReturnsToken);
    NoneInitially(readers, writers, WriterInside);
    SumConstant(InitialState(readers, writers).threads, Stored, 0);
  }

  lemma Recount(threads: seq<Thread>, t: nat, th: Thread)
    requires t < |threads|
    ensures var ts := threads[t := th];
            && Count(ts, HoldsLock) == Count(threads, HoldsLock) - One(HoldsLock(threads[t])) + One(HoldsLock(th))
            && Count(ts, Counted) == Count(threads, Counted) - One(Counted(threads[t])) + One(Counted(th))
            && Count(ts, TakesToken) == Count(threads, TakesToken) - One(TakesToken(threads[t])) + One(TakesToken(th))
            && Count(ts, ReturnsToken)
                == Count(threads, ReturnsToken) - One(ReturnsToken(threads[t])) + One(ReturnsToken(th))
            && Count(ts, WriterInside)
                == Count(threads, WriterInside) - One(WriterInside(threads[t])) + One(WriterInside(th))
  {
    CountUpdate(threads, t, th, HoldsLock);
    CountUpdate(threads, t, th, Counted);
    CountUpdate(threads, t, th, TakesToken);
    CountUpdate(threads, t, th, ReturnsToken);
    CountUpdate(threads, t, th, WriterInside);
  }

  /** Taking and returning the token happen under `lock`, so at most one thread is at either. */
  lemma OneAtTheToken(s: State, t: nat)
    requires SemaphoresOk(s) && t < |s.threads| && HoldsLock(s.threads[t])
    ensures Count(s.threads, HoldsLock) == 1
    ensures TakesToken(s.threads[t]) ==> Count(s.threads, TakesToken) == 1
    ensures ReturnsToken(s.threads[t]) ==> Count(s.threads, ReturnsToken) == 1
    ensures !TakesToken(s.threads[t]) ==> Count(s.threads, TakesToken) == 0
    ensures !ReturnsToken(s.threads[t]) ==> Count(s.threads, ReturnsToken) == 0
  {
    CountPositive(s.threads, t, HoldsLock);
    OnlyHolder(s.threads, t, TakesToken);
    OnlyHolder(s.threads, t, ReturnsToken);
  }

  /** A property of lock holders is counted once if the one holder has it, and otherwise not at all. */
  lemma OnlyHolder(threads: seq<Thread>, t: nat, p: Thread -> bool)
    requires t < |threads| && HoldsLock(threads[t]) && Count(threads, HoldsLock) == 1
    requires forall th :: p(th) ==> HoldsLock(th)
    ensures Count(threads, p) == One(p(threads[t]))
  {
    var rest := threads[t := Thread(0, RTop)];
    CountUpdate(threads, t, Thread(0, RTop), HoldsLock);
    CountUpdate(threads, t, Thread(0, RTop), p);
    CountZero(rest, HoldsLock);
    CountZero(rest, p);
  }

  predicate Releasing(th: Thread) { th.pc.RRelease? || th.pc.RUncount? || th.pc.RPostWrite? || th.pc.RRelPost? }

  lemma AcquireReadStep(loops: nat, s: State, t: nat)
    requires SemaphoresOk(s) && CanStep(loops, s, t) && !IsWriter(s.threads[t]) && !Releasing(s.threads[t])
    ensures SemaphoresOk(Step(loops, s, t))
  {
    Recount(s.threads, t, Step(loops, s, t).threads[t]);
    if HoldsLock(s.threads[t]) {
      OneAtTheToken(s, t);
    }
  }

  lemma ReleaseReadStep(loops: nat, s: State, t: nat)
    requires SemaphoresOk(s) && CanStep(loops, s, t) && Releasing(s.threads[t])
    ensures SemaphoresOk(Step(loops, s, t))
  {
    Recount(s.threads, t, Step(loops, s, t).threads[t]);
    if HoldsLock(s.threads[t]) {
      OneAtTheToken(s, t);
    }
  }

  lemma WriterStep(loops: nat, s: State, t: nat)
    requires SemaphoresOk(s) && CanStep(loops, s, t) && IsWriter(s.threads[t])
    ensures SemaphoresOk(Step(loops, s, t))
  {
    Recount(s.threads, t, Step(loops, s, t).threads[t]);
  }

  lemma OneWriter(s: State, t: nat, u: nat)
    requires SemaphoresOk(s) && t < |s.threads| && u < |s.threads|
    requires WriterInside(s.threads[t]) && WriterInside(s.threads[u])
    ensures t == u
  {
    if t < u {
      CountTwo(s.threads, t, u, WriterInside);
    } else if u < t {
      CountTwo(s.threads, u, t, WriterInside);
    }
  }

  lemma ValueStep(loops: nat, s: State, t: nat)
    requires Inv(loops, s) && CanStep(loops, s, t)
    ensures ValueOk(loops, Step(loops, s, t).value, Step(loops, s, t).threads)
  {
    var s' := Step(loops, s, t);
    SumUpdate(s.threads, t, s'.threads[t], Stored);
    forall u | 0 <= u < |s'.threads| && s'.threads[u].pc.WStore? ensures s'.threads[u].pc.tmp == s'.value {
      if u != t && WriterInside(s.threads[t]) {
        OneWriter(s, t, u);
      }
    }
  }

  lemma StepInv(loops: nat, s: State, t: nat)
    requires Inv(loops, s) && CanStep(loops, s, t)
    ensures Inv(loops, Step(loops, s, t))
  {
    ValueStep(loops, s, t);
    if IsWriter(s.threads[t]) {
      WriterStep(loops, s, t);
    } else if Releasing(s.threads[t]) {
      ReleaseReadStep(loops, s, t);
    } else {
      AcquireReadStep(loops, s, t);
    }
  }

  // ---------------------------------------------------------------------------------------------
  // Theorems over all runs
  // ---------------------------------------------------------------------------------------------

  lemma {:induction false} RunInv(readers: nat, writers: nat, loops: nat, run: seq<State>, schedule: seq<nat>, k: nat)
    requires IsRun(readers, writers, loops, run, schedule) && k < |run|
    ensures Inv(loops, run[k])
    ensures |run[k].threads| == readers + writers && Count(run[k].threads, IsWriter) == writers
  {
    if k == 0 {
      InitInv(readers, writers, loops);
      CountWriters(readers, writers);
    } else {
      RunInv(readers, writers, loops, run, schedule, k - 1);
      StepInv(loops, run[k - 1], schedule[k - 1]);
      StepWriters(loops, run[k - 1], schedule[k - 1]);
    }
  }

  lemma StepWriters(loops: nat, s: State, t: nat)
    requires CanStep(loops, s, t)
    ensures Count(Step(loops, s, t).threads, IsWriter) == Count(s.threads, IsWriter)
    ensures |Step(loops, s, t).threads| == |s.threads|
  {
    CountUpdate(s.threads, t, Step(loops, s, t).threads[t], IsWriter);
  }

  lemma {:induction false} CountWriters(readers: nat, writers: nat)
    ensures Count(InitialState(readers, writers).threads, IsWriter) == writers
  {
    var ws := seq(writers, i => Thread(0, WTop));
    if readers == 0 {
      assert InitialState(readers, writers).threads == ws;
      CountAll(ws, IsWriter);
    } else {
      CountWriters(readers - 1, writers);
      assert InitialState(readers, writers).threads[1..] == InitialState(readers - 1, writers).threads;
    }
  }

  /** A writer inside excludes every reader and every other writer. */
  lemma WriterExcludesAll(readers: nat, writers: nat, loops: nat, run: seq<State>, schedule: seq<nat>, k: nat,
                          t: nat, u: nat)
    requires IsRun(readers, writers, loops, run, schedule) && k < |run| && t < |run[k].threads| && u < |run[k].threads|
    requires t != u && WriterInside(run[k].threads[t])
    ensures !WriterInside(run[k].threads[u]) && !ReaderInside(run[k].threads[u])
  {
    RunInv(readers, writers, loops, run, schedule, k);
    var threads := run[k].threads;
    if WriterInside(threads[u]) {
      OneWriter(run[k], t, u);
    } else if ReaderInside(threads[u]) {
      CountPositive(threads, t, WriterInside);
      CountPositive(threads, u, Counted);
      var w := CountWitness(threads, TakesToken);
      if w < u {
        CountTwo(threads, w, u, Counted);
      } else {
        CountTwo(threads, u, w, Counted);
      }
    }
  }

  /** While a thread is unfinished, some thread can take a step. */
  lemma NeverStuck(readers: nat, writers: nat, loops: nat, run: seq<State>, schedule: seq<nat>, k: nat, t: nat)
    requires IsRun(readers, writers, loops, run, schedule) && k < |run| && t < |run[k].threads|
    requires !Done(loops, run[k].threads[t])
    ensures exists u :: CanStep(loops, run[k], u)
  {
    RunInv(readers, writers, loops, run, schedule, k);
    var s := run[k];
    if Count(s.threads, WriterInside) > 0 {
      var u := CountWitness(s.threads, WriterInside);
      assert CanStep(loops, s, u);
    } else if s.lock == 0 {
      var u := CountWitness(s.threads, HoldsLock);
      if TakesToken(s.threads[u]) {
        CountPositive(s.threads, u, TakesToken);
      }
      assert CanStep(loops, s, u);
    } else if s.writeLock == 0 {
      LockFree(s);
      var u := CountWitness(s.threads, Counted);
      assert s.threads[u] in s.threads;
      assert CanStep(loops, s, u);
    } else {
      assert CanStep(loops, s, t);
    }
  }

  /** With `lock` free nobody is between taking and returning it. */
  lemma LockFree(s: State)
    requires SemaphoresOk(s) && s.lock > 0
    ensures Count(s.threads, TakesToken) == 0 && Count(s.threads, ReturnsToken) == 0
    ensures forall th :: th in s.threads ==> !HoldsLock(th)
  {
    CountZero(s.threads, HoldsLock);
    CountZero(s.threads, TakesToken);
    CountZero(s.threads, ReturnsToken);
  }

  /** When every thread has finished, no increment has been lost. */
  lemma FinalValue(readers: nat, writers: nat, loops: nat, run: seq<State>, schedule: seq<nat>, k: nat)
    requires IsRun(readers, writers, loops, run, schedule) && k < |run|
    requires forall t :: 0 <= t < |run[k].threads| ==> Done(loops, run[k].threads[t])
    ensures run[k].value == writers * loops
  {
    RunInv(readers, writers, loops, run, schedule, k);
    SumOfWriters(run[k].threads, loops);
  }

  lemma {:induction false} SumOfWriters(threads: seq<Thread>, loops: nat)
    requires forall t :: 0 <= t < |threads| ==> Done(loops, threads[t]) && threads[t].i == loops
    ensures Sum(threads, Stored) == Count(threads, IsWriter) * loops
  {
    if threads != [] {
      SumOfWriters(threads[1..], loops);
    }
  }
}
