/**
 The one-shot barrier: a counter under a binary semaphore, and a turnstile semaphore that the last
 arrival opens and every thread passes on. One step is one semaphore operation or the counter update.
 */
module Barrier {
  import opened Counting

  datatype Pc = Arrive | Increment | OpenTurnstile | Unlock | Wait | PassOn | Past

  datatype State = State(count: nat, lock: nat, turnstile: nat, pcs: seq<Pc>)

  predicate CanStep(s: State, t: nat) {
    t < |s.pcs| && !s.pcs[t].Past? && (s.pcs[t].Arrive? ==> s.lock > 0) && (s.pcs[t].Wait? ==> s.turnstile > 0)
  }

  function Goto(s: State, t: nat, pc: Pc): State
    requires t < |s.pcs|
  {
    s.(pcs := s.pcs[t := pc])
  }

  /** `n` is the barrier's `num_threads`. */
  function Step(n: nat, s: State, t: nat): State
    requires CanStep(s, t)
  {
    match s.pcs[t]
    case Arrive => Goto(s, t, Increment).(lock := s.lock - 1)
    case Increment => Goto(s, t, if s.count + 1 == n then OpenTurnstile else Unlock).(count := s.count + 1)
    case OpenTurnstile => Goto(s, t, Unlock).(turnstile := s.turnstile + 1)
    case Unlock => Goto(s, t, Wait).(lock := s.lock + 1)
    case Wait => Goto(s, t, PassOn).(turnstile := s.turnstile - 1)
    case PassOn => Goto(s, t, Past).(turnstile := s.turnstile + 1)
    case Past => s
  }

  function InitialState(n: nat): State { State(0, 1, 0, seq(n, i => Arrive)) }

  ghost predicate IsRun(n: nat, run: seq<State>, schedule: seq<nat>) {
    && |run| == |schedule| + 1 && run[0] == InitialState(n)
    && forall k :: 0 <= k < |schedule| ==> CanStep(run[k], schedule[k]) && run[k + 1] == Step(n, run[k], schedule[k])
  }

  predicate HoldsLock(pc: Pc) { pc.Increment? || pc.OpenTurnstile? || pc.Unlock? }

  /** Threads that have incremented `count`. */
  predicate Counted(pc: Pc) { !pc.Arrive? && !pc.Increment? }

  predicate Opening(pc: Pc) { pc.OpenTurnstile? }

  predicate InTurnstile(pc: Pc) { pc.PassOn? }

  predicate Through(pc: Pc) { pc.PassOn? || pc.Past? }

  ghost predicate Inv(n: nat, s: State) {
    && |s.pcs| == n
    && s.lock + Count(s.pcs, HoldsLock) == 1
    && s.count == Count(s.pcs, Counted)
    && (Count(s.pcs, Opening) > 0 || Count(s.pcs, Through) > 0 ==> s.count == n)
    && s.turnstile + Count(s.pcs, InTurnstile) + Count(s.pcs, Opening) == if s.count == n && 0 < n then 1 else 0
  }

  lemma AllArriving(n: nat, p: Pc -> bool)
    requires !p(Arrive)
    ensures Count(InitialState(n).pcs, p) == 0
  {
    CountZero(InitialState(n).pcs, p);
  }

  lemma InitInv(n: nat)
    ensures Inv(n, InitialState(n))
  {
    AllArriving(n, HoldsLock);
    AllArriving(n, Counted);
    AllArriving(n, Opening);
    AllArriving(n, InTurnstile);
    AllArriving(n, Through);
  }

  lemma Recount(pcs: seq<Pc>, t: nat, pc: Pc)
    requires t < |pcs|
    ensures var ps := pcs[t := pc];
            && Count(ps, HoldsLock) == Count(pcs, HoldsLock) - One(HoldsLock(pcs[t])) + One(HoldsLock(pc))
            && Count(ps, Counted) == Count(pcs, Counted) - One(Counted(pcs[t])) + One(Counted(pc))
            && Count(ps, Opening) == Count(pcs, Opening) - One(Opening(pcs[t])) + One(Opening(pc))
            && Count(ps, InTurnstile) == Count(pcs, InTurnstile) - One(InTurnstile(pcs[t])) + One(InTurnstile(pc))
            && Count(ps, Through) == Count(pcs, Through) - One(Through(pcs[t])) + One(Through(pc))
  {
    CountUpdate(pcs, t, pc, HoldsLock);
    CountUpdate(pcs, t, pc, Counted);
    CountUpdate(pcs, t, pc, Opening);
    CountUpdate(pcs, t, pc, InTurnstile);
    CountUpdate(pcs, t, pc, Through);
  }

  lemma StepInv(n: nat, s: State, t: nat)
    requires Inv(n, s) && CanStep(s, t)
    ensures Inv(n, Step(n, s, t))
  {
    Recount(s.pcs, t, Step(n, s, t).pcs[t]);
    CountAll(s.pcs, Counted);
    if s.pcs[t].Increment? {
      assert s.pcs[t] in s.pcs;
    } else if s.pcs[t].OpenTurnstile? {
      CountPositive(s.pcs, t, Opening);
    } else if s.pcs[t].PassOn? {
      CountPositive(s.pcs, t, Through);
    }
  }

  lemma {:induction false} RunInv(n: nat, run: seq<State>, schedule: seq<nat>, k: nat)
    requires IsRun(n, run, schedule) && k < |run|
    ensures Inv(n, run[k])
  {
    if k == 0 {
      InitInv(n);
    } else {
      RunInv(n, run, schedule, k - 1);
      StepInv(n, run[k - 1], schedule[k - 1]);
    }
  }

  /** No thread gets through before all n threads have arrived and been counted. */
  lemma NobodyThroughEarly(n: nat, run: seq<State>, schedule: seq<nat>, k: nat, t: nat, u: nat)
    requires IsRun(n, run, schedule) && k < |run| && t < n && u < n && |run[k].pcs| == n && Through(run[k].pcs[t])
    ensures run[k].count == n && Counted(run[k].pcs[u])
  {
    RunInv(n, run, schedule, k);
    CountPositive(run[k].pcs, t, Through);
    CountAll(run[k].pcs, Counted);
    assert run[k].pcs[u] in run[k].pcs;
  }

  /** Once the last arrival has opened the turnstile, the turnstile's value plus the threads inside it
      is one: exactly one thread at a time goes through. */
  lemma OneTokenInTurnstile(n: nat, run: seq<State>, schedule: seq<nat>, k: nat)
    requires IsRun(n, run, schedule) && k < |run| && 0 < n
    requires run[k].count == n && Count(run[k].pcs, Opening) == 0
    ensures run[k].turnstile + Count(run[k].pcs, InTurnstile) == 1
  {
    RunInv(n, run, schedule, k);
  }

  /** Until every thread is past the barrier, some thread can take a step. */
  lemma NeverStuck(n: nat, run: seq<State>, schedule: seq<nat>, k: nat, t: nat)
    requires IsRun(n, run, schedule) && k < |run| && t < |run[k].pcs| && !run[k].pcs[t].Past?
    ensures exists u :: CanStep(run[k], u)
  {
    RunInv(n, run, schedule, k);
    var s := run[k];
    if s.lock == 0 {
      var u := CountWitness(s.pcs, HoldsLock);
      assert CanStep(s, u);
    } else if !s.pcs[t].Wait? {
      assert CanStep(s, t);
    } else if Count(s.pcs, InTurnstile) > 0 {
      var u := CountWitness(s.pcs, InTurnstile);
      assert CanStep(s, u);
    } else {
      CountAll(s.pcs, Counted);
      CountZero(s.pcs, HoldsLock);
      if s.count == n {
        CountZero(s.pcs, Opening);
        assert CanStep(s, t);
      } else {
        var pc :| pc in s.pcs && !Counted(pc);
        var u: nat :| u < |s.pcs| && s.pcs[u] == pc;
        assert s.pcs[u] in s.pcs;
        assert CanStep(s, u);
      }
    }
  }
}
