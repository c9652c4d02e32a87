/**
 The approximate counter: each thread counts locally and adds its local count to the global value
 when it reaches the threshold. simple_counter.c, which adds one to the value under one lock on each
 increment, is the reference: after any run its value is the number of increments made.

 One step is one lock, one unlock, or one load or store of shared data. Thread t uses slot t. The
 locals start at zero (the source's malloc leaves them unset) and ints are unbounded.
 */
module ApproxCounter {
  import opened Counting
  import opened LockOrder

  datatype Pc = Top | Bump | Test | WaitGlobal | Load | Store(tmp: int) | UnlockGlobal | Reset | UnlockLocal

  /** `done` and `flushes` are history: the thread's increments and its additions to the value. */
  datatype Thread = Thread(local: int, pc: Pc, done: nat, flushes: nat)

  datatype State = State(value: int, owner: int, threads: seq<Thread>)

  /** `todo[t]` is how many increments thread t makes. */
  datatype Config = Config(threshold: nat, todo: seq<nat>)

  predicate GoodConfig(cfg: Config) { cfg.threshold > 0 }

  predicate Finished(cfg: Config, th: Thread, t: nat) { t < |cfg.todo| && th.pc.Top? && th.done >= cfg.todo[t] }

  predicate CanStep(cfg: Config, s: State, t: nat) {
    && t < |s.threads| && !Finished(cfg, s.threads[t], t)
    && (s.threads[t].pc.WaitGlobal? ==> s.owner == -1)
  }

  function Goto(s: State, t: nat, pc: Pc): State
    requires t < |s.threads|
  {
    s.(threads := s.threads[t := s.threads[t].(pc := pc)])
  }

  function Step(cfg: Config, s: State, t: nat): State
    requires CanStep(cfg, s, t)
  {
    var th := s.threads[t];
    match th.pc
    case Top => Goto(s, t, Bump)
    case Bump => s.(threads := s.threads[t := Thread(th.local + 1, Test, th.done + 1, th.flushes)])
    case Test => Goto(s, t, if th.local >= cfg.threshold then WaitGlobal else UnlockLocal)
    case WaitGlobal => Goto(s, t, Load).(owner := t)
    case Load => Goto(s, t, Store(s.value + th.local))
    case Store(tmp) => s.(value := tmp, threads := s.threads[t := th.(pc := UnlockGlobal, flushes := th.flushes + 1)])
    case UnlockGlobal => Goto(s, t, Reset).(owner := -1)
    case Reset => s.(threads := s.threads[t := th.(local := 0, pc := UnlockLocal)])
    case UnlockLocal => Goto(s, t, Top)
  }

  function InitialState(cfg: Config): State {
    State(0, -1, seq(|cfg.todo|, t => Thread(0, Top, 0, 0)))
  }

  ghost predicate IsRun(cfg: Config, run: seq<State>, schedule: seq<nat>) {
    && GoodConfig(cfg) && |run| == |schedule| + 1 && run[0] == InitialState(cfg)
    && forall k :: 0 <= k < |schedule| ==>
        CanStep(cfg, run[k], schedule[k]) && run[k + 1] == Step(cfg, run[k], schedule[k])
  }

  // ---------------------------------------------------------------------------------------------
  // The invariant
  // ---------------------------------------------------------------------------------------------

  predicate HoldsGlobal(pc: Pc) { pc.Load? || pc.Store? || pc.UnlockGlobal? }

  predicate InGlobal(th: Thread) { HoldsGlobal(th.pc) }

  /** The part of the local count that the global value does not include. Between the global addition
      and the local reset it is zero although the local count is not. */
  function Pending(th: Thread): int { if th.pc.UnlockGlobal? || th.pc.Reset? then 0 else th.local }

  function Done(th: Thread): int { th.done }

  function Flushes(th: Thread): int { th.flushes }

  ghost predicate ThreadOk(cfg: Config, th: Thread, t: nat) {
    && t < |cfg.todo| && th.done <= cfg.todo[t] && (th.pc.Bump? ==> th.done < cfg.todo[t])
    && th.done == cfg.threshold * th.flushes + Pending(th)
    && (th.pc.Top? || th.pc.Bump? || th.pc.UnlockLocal? ==> 0 <= th.local < cfg.threshold)
    && (th.pc.Test? ==> 0 < th.local <= cfg.threshold)
    && (th.pc.WaitGlobal? || HoldsGlobal(th.pc) || th.pc.Reset? ==> th.local == cfg.threshold)
  }

  ghost predicate Inv(cfg: Config, s: State) {
    && GoodConfig(cfg) && |s.threads| == |cfg.todo|
    && MutexOk(s.owner, s.threads, InGlobal)
    && (forall t :: 0 <= t < |s.threads| ==> ThreadOk(cfg, s.threads[t], t))
    && (forall t :: 0 <= t < |s.threads| && s.threads[t].pc.Store? ==>
        s.threads[t].pc.tmp == s.value + s.threads[t].local)
    && s.value == cfg.threshold * Sum(s.threads, Flushes)
  }

  lemma InitInv(cfg: Config)
    requires GoodConfig(cfg)
    ensures Inv(cfg, InitialState(cfg))
  {
    SumConstant(InitialState(cfg).threads, Flushes, 0);
  }

  lemma StepThread(cfg: Config, s: State, t: nat)
    requires CanStep(cfg, s, t) && ThreadOk(cfg, s.threads[t], t) && GoodConfig(cfg)
    ensures ThreadOk(cfg, Step(cfg, s, t).threads[t], t)
  {
    Distribute(cfg.threshold, s.threads[t].flushes);
  }

  lemma StepMutex(cfg: Config, s: State, t: nat)
    requires CanStep(cfg, s, t) && MutexOk(s.owner, s.threads, InGlobal)
    ensures MutexOk(Step(cfg, s, t).owner, Step(cfg, s, t).threads, InGlobal)
  {}

  lemma StepFlushes(cfg: Config, s: State, t: nat)
    requires CanStep(cfg, s, t)
    ensures Sum(Step(cfg, s, t).threads, Flushes) == Sum(s.threads, Flushes) + if s.threads[t].pc.Store? then 1 else 0
  {
    SumUpdate(s.threads, t, Step(cfg, s, t).threads[t], Flushes);
  }

  lemma StepValue(cfg: Config, s: State, t: nat)
    requires CanStep(cfg, s, t) && s.value == cfg.threshold * Sum(s.threads, Flushes)
    requires s.threads[t].pc.Store? ==> s.threads[t].pc.tmp == s.value + cfg.threshold
    ensures Step(cfg, s, t).value == cfg.threshold * Sum(Step(cfg, s, t).threads, Flushes)
  {
    StepFlushes(cfg, s, t);
    Distribute(cfg.threshold, Sum(s.threads, Flushes));
  }

  lemma Distribute(d: int, n: int)
    ensures d * (n + 1) == d * n + d
  {}

  lemma StepInv(cfg: Config, s: State, t: nat)
    requires Inv(cfg, s) && CanStep(cfg, s, t)
    ensures Inv(cfg, Step(cfg, s, t))
  {
    assert ThreadOk(cfg, s.threads[t], t);
    StepThread(cfg, s, t);
    StepMutex(cfg, s, t);
    StepValue(cfg, s, t);
    var s' := Step(cfg, s, t);
    forall u | 0 <= u < |s'.threads| ensures ThreadOk(cfg, s'.threads[u], u) {
      assert ThreadOk(cfg, s.threads[u], u);
    }
  }

  // ---------------------------------------------------------------------------------------------
  // Theorems over all runs
  // ---------------------------------------------------------------------------------------------

  lemma {:induction false} RunInv(cfg: Config, run: seq<State>, schedule: seq<nat>, k: nat)
    requires IsRun(cfg, run, schedule) && k < |run|
    ensures Inv(cfg, run[k])
  {
    if k == 0 {
      InitInv(cfg);
    } else {
      RunInv(cfg, run, schedule, k - 1);
      StepInv(cfg, run[k - 1], schedule[k - 1]);
    }
  }

  /** What simple_counter.c's value would be: the number of increments made. */
  function SimpleCounter(s: State): int { Sum(s.threads, Done) }

  lemma {:induction false} SumSplits(cfg: Config, threads: seq<Thread>)
    requires forall t :: 0 <= t < |threads| ==>
              threads[t].done == cfg.threshold * threads[t].flushes + Pending(threads[t])
    ensures Sum(threads, Done) == cfg.threshold * Sum(threads, Flushes) + Sum(threads, Pending)
  {
    if threads != [] {
      SumSplits(cfg, threads[1..]);
      var a, b := threads[0].flushes, Sum(threads[1..], Flushes);
      assert cfg.threshold * (a + b) == cfg.threshold * a + cfg.threshold * b;
    }
  }

  lemma Difference(cfg: Config, s: State)
    requires Inv(cfg, s)
    ensures SimpleCounter(s) - s.value == Sum(s.threads, Pending)
    ensures forall t :: 0 <= t < |s.threads| ==> 0 <= Pending(s.threads[t]) <= cfg.threshold
  {
    forall t | 0 <= t < |s.threads|
      ensures s.threads[t].done == cfg.threshold * s.threads[t].flushes + Pending(s.threads[t])
      ensures 0 <= Pending(s.threads[t]) <= cfg.threshold
    {
      assert ThreadOk(cfg, s.threads[t], t);
    }
    SumSplits(cfg, s.threads);
  }

  /** At every step, also between a global addition and the local reset: the value is the threshold
      times the number of flushes, and lags the exact count by at most the threshold per thread. */
  lemma ErrorIsBounded(cfg: Config, run: seq<State>, schedule: seq<nat>, k: nat)
    requires IsRun(cfg, run, schedule) && k < |run|
    ensures run[k].value == cfg.threshold * Sum(run[k].threads, Flushes)
    ensures 0 <= SimpleCounter(run[k]) - run[k].value <= |cfg.todo| * cfg.threshold
  {
    RunInv(cfg, run, schedule, k);
    Difference(cfg, run[k]);
    SumBounds(run[k].threads, Pending, 0, cfg.threshold);
  }

  lemma {:induction false} SumZeroIff(threads: seq<Thread>)
    requires forall t :: 0 <= t < |threads| ==> 0 <= Pending(threads[t])
    ensures Sum(threads, Pending) >= 0
    ensures Sum(threads, Pending) == 0 <==> forall t :: 0 <= t < |threads| ==> Pending(threads[t]) == 0
  {
    if threads != [] {
      var rest := threads[1..];
      SumZeroIff(rest);
      assert forall t :: 0 <= t < |rest| ==> rest[t] == threads[t + 1];
      assert forall t :: 0 < t < |threads| ==> threads[t] == rest[t - 1];
    }
  }

  function Times(d: nat, q: nat): nat { d * q }

  ghost predicate IsMultiple(n: nat, d: nat) { exists q :: n == Times(d, q) }

  lemma NoRemainder(d: nat, p: nat, q: nat, r: nat)
    requires d * p == d * q + r && r < d
    ensures r == 0
  {
    if p > q {
      MultiplyMonotone(d, q + 1, p);
      Distribute(d, q);
    } else {
      MultiplyMonotone(d, p, q);
    }
  }

  lemma RemainderDecides(n: nat, d: nat, q: nat, r: nat)
    requires n == Times(d, q) + r && r < d
    ensures IsMultiple(n, d) <==> r == 0
  {
    if r == 0 {
      assert n == Times(d, q);
    } else if IsMultiple(n, d) {
      var p :| n == Times(d, p);
      NoRemainder(d, p, q, r);
    }
  }

  lemma MultiplyMonotone(d: nat, a: nat, b: nat)
    requires a <= b
    ensures d * a <= d * b
  {
    var k := b - a;
    assert d * (a + k) == d * a + d * k;
  }

  /** When all threads have finished, the approximate counter equals the simple one exactly when every
      thread's number of increments is a multiple of the threshold. */
  lemma FinalValueExactIff(cfg: Config, run: seq<State>, schedule: seq<nat>, k: nat)
    requires IsRun(cfg, run, schedule) && k < |run| && |run[k].threads| == |cfg.todo|
    requires forall t :: 0 <= t < |cfg.todo| ==> Finished(cfg, run[k].threads[t], t)
    ensures run[k].value == SimpleCounter(run[k]) <==>
              forall t :: 0 <= t < |cfg.todo| ==> IsMultiple(cfg.todo[t], cfg.threshold)
    ensures forall t :: 0 <= t < |cfg.todo| ==> run[k].threads[t].done == cfg.todo[t]
    ensures SimpleCounter(run[k]) == Sum(cfg.todo, (n: nat) => n)
  {
    RunInv(cfg, run, schedule, k);
    var s := run[k];
    Difference(cfg, s);
    SumZeroIff(s.threads);
    forall t | 0 <= t < |cfg.todo|
      ensures s.threads[t].done == cfg.todo[t]
      ensures IsMultiple(cfg.todo[t], cfg.threshold) <==> Pending(s.threads[t]) == 0
    {
      var th := s.threads[t];
      assert ThreadOk(cfg, th, t);
      RemainderDecides(th.done, cfg.threshold, th.flushes, Pending(th));
    }
    SumSame(s.threads, cfg.todo, Done, (n: nat) => n);
  }

  /** While a thread is unfinished, some thread can take a step. */
  lemma NeverStuck(cfg: Config, run: seq<State>, schedule: seq<nat>, k: nat, t: nat)
    requires IsRun(cfg, run, schedule) && k < |run| && t < |run[k].threads| && !Finished(cfg, run[k].threads[t], t)
    ensures exists u :: CanStep(cfg, run[k], u)
  {
    RunInv(cfg, run, schedule, k);
    assert CanStep(cfg, run[k], if run[k].owner >= 0 then run[k].owner else t);
  }
}
