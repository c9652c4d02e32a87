/**
 The semaphore-counted resource pool: a semaphore counts permits, a mutex guards the table of used
 slots. Any number of threads acquire, release and close; one move is one semaphore operation, one
 lock, one table scan under the mutex, or one unlock.
 */
module ResourcePool {
  import opened Counting
  import opened LockOrder

  const RP_CAP: nat := 8

  type Table = u: seq<bool> | |u| == RP_CAP witness seq(RP_CAP, i => false)
  type Ids = d: seq<nat> | |d| == RP_CAP witness seq(RP_CAP, i => 0)

  ghost predicate Distinct(ids: Ids) {
    forall i, j :: 0 <= i < j < RP_CAP ==> ids[i] != ids[j]
  }

  datatype Pc =
    | Idle
    | AcqWait | AcqLock | AcqScan | AcqUnlock(id: nat) | AcqUnlockClosed | AcqRepost
    | RelLock(id: nat) | RelScan(id: nat) | RelUnlock | RelPost
    | CloseLock | CloseSet | CloseUnlock

  /** `owner` is the thread that holds the mutex (-1 when free). `held` is history: the ids clients
      hold, from the scan that marks the slot until they call release. */
  datatype State = State(sem: nat, owner: int, closed: bool, inUse: Table, pcs: seq<Pc>, held: multiset<nat>)

  datatype Move = Call(t: nat, pc: Pc) | Step(t: nat)

  // ---------------------------------------------------------------------------------------------
  // The two table scans
  // ---------------------------------------------------------------------------------------------

  /** The index of the first element equal to `v` at or after `i`, or |s| when there is none. */
  function FirstFrom<T(==)>(s: seq<T>, v: T, i: nat): (k: nat)
    requires i <= |s|
    ensures i <= k <= |s|
    ensures k < |s| ==> s[k] == v
    ensures forall j :: i <= j < k ==> s[j] != v
    decreases |s| - i
  {
    if i == |s| || s[i] == v then i else FirstFrom(s, v, i + 1)
  }

  /** The loop of rp_acquire: mark the first free slot. When none is free, slot 0 is reported and
      nothing is marked. */
  method MarkFirstFree(inUse: array<bool>) returns (freeIdx: nat)
    requires inUse.Length == RP_CAP
    modifies inUse
    ensures var k := FirstFrom(old(inUse[..]), false, 0);
            if k < RP_CAP then freeIdx == k && inUse[..] == old(inUse[..])[k := true]
            else freeIdx == 0 && inUse[..] == old(inUse[..])
  {
    freeIdx := 0;
    ghost var k := FirstFrom(inUse[..], false, 0);
    for i := 0 to RP_CAP
      invariant i <= k && inUse[..] == old(inUse[..]) && freeIdx == 0
    {
      if !inUse[i] {
        freeIdx := i;
        inUse[i] := true;
        break;
      }
    }
  }

  /** The loop of rp_release: the first slot with this id, or -1. */
  method FindId(ids: Ids, id: nat) returns (releaseIdx: int)
    ensures releaseIdx == if FirstFrom(ids, id, 0) < RP_CAP then FirstFrom(ids, id, 0) else -1
    ensures releaseIdx == -1 <==> id !in ids
  {
    releaseIdx := -1;
    for i := 0 to RP_CAP
      invariant releaseIdx == -1 && i <= FirstFrom(ids, id, 0)
    {
      if id == ids[i] {
        releaseIdx := i;
        break;
      }
    }
  }

  // ---------------------------------------------------------------------------------------------
  // The machine
  // ---------------------------------------------------------------------------------------------

  predicate Critical(pc: Pc) {
    pc.AcqScan? || pc.AcqUnlock? || pc.AcqUnlockClosed? || pc.RelScan? || pc.RelUnlock?
    || pc.CloseSet? || pc.CloseUnlock?
  }

  predicate WantsMutex(pc: Pc) { pc.AcqLock? || pc.RelLock? || pc.CloseLock? }

  predicate CanMove(s: State, m: Move) {
    match m
    case Call(t, pc) => t < |s.pcs| && s.pcs[t].Idle? && (pc.AcqWait? || pc.RelLock? || pc.CloseLock?)
    case Step(t) =>
      && t < |s.pcs| && !s.pcs[t].Idle?
      && (s.pcs[t].AcqWait? ==> s.sem > 0)
      && (WantsMutex(s.pcs[t]) ==> s.owner == -1)
  }

  function Goto(s: State, t: nat, pc: Pc): State
    requires t < |s.pcs|
  {
    s.(pcs := s.pcs[t := pc])
  }

  predicate Acquiring(pc: Pc) {
    pc.AcqWait? || pc.AcqLock? || pc.AcqScan? || pc.AcqUnlock? || pc.AcqUnlockClosed? || pc.AcqRepost?
  }

  predicate Releasing(pc: Pc) { pc.RelLock? || pc.RelScan? || pc.RelUnlock? || pc.RelPost? }

  function AcquireStep(ids: Ids, s: State, t: nat): State
    requires t < |s.pcs| && Acquiring(s.pcs[t])
  {
    match s.pcs[t]
    case AcqWait => Goto(s, t, AcqLock).(sem := if s.sem == 0 then 0 else s.sem - 1)
    case AcqLock => Goto(s, t, AcqScan).(owner := t)
    case AcqScan =>
      if s.closed then Goto(s, t, AcqUnlockClosed)
      else
        var k := FirstFrom(s.inUse, false, 0);
        if k < RP_CAP
        then Goto(s, t, AcqUnlock(ids[k])).(inUse := s.inUse[k := true], held := s.held + multiset{ids[k]})
        else Goto(s, t, AcqUnlock(ids[0])).(held := s.held + multiset{ids[0]})
    case AcqUnlock(_) => Goto(s, t, Idle).(owner := -1)
    case AcqUnlockClosed => Goto(s, t, AcqRepost).(owner := -1)
    case AcqRepost => Goto(s, t, Idle).(sem := s.sem + 1)
  }

  function ReleaseStep(ids: Ids, s: State, t: nat): State
    requires t < |s.pcs| && Releasing(s.pcs[t])
  {
    match s.pcs[t]
    case RelLock(id) => Goto(s, t, RelScan(id)).(owner := t)
    case RelScan(id) =>
      var k := FirstFrom(ids, id, 0);
      if k < RP_CAP then Goto(s, t, RelUnlock).(inUse := s.inUse[k := false])
      else Goto(s, t, Idle) // returns -1 and leaves the mutex locked
    case RelUnlock => Goto(s, t, RelPost).(owner := -1)
    case RelPost => Goto(s, t, Idle).(sem := s.sem + 1)
  }

  function CloseStep(s: State, t: nat): State
    requires t < |s.pcs|
  {
    match s.pcs[t]
    case CloseLock => Goto(s, t, CloseSet).(owner := t)
    case CloseSet => Goto(s, t, CloseUnlock).(closed := true)
    case CloseUnlock => Goto(s, t, Idle).(owner := -1)
    case _ => s
  }

  function DoMove(ids: Ids, s: State, m: Move): State
    requires CanMove(s, m)
  {
    match m
    case Call(t, pc) =>
      if pc.RelLock? then Goto(s, t, pc).(held := s.held - multiset{pc.id}) else Goto(s, t, pc)
    case Step(t) =>
      if Acquiring(s.pcs[t]) then AcquireStep(ids, s, t)
      else if Releasing(s.pcs[t]) then ReleaseStep(ids, s, t)
      else CloseStep(s, t)
  }

  /** Clients release only ids they hold. */
  predicate Disciplined(s: State, m: Move) { m.Call? && m.pc.RelLock? ==> m.pc.id in s.held }

  function InitialState(threads: nat): State {
    State(RP_CAP, -1, false, seq(RP_CAP, i => false), seq(threads, i => Idle), multiset{})
  }

  ghost predicate Follows(ids: Ids, run: seq<State>, moves: seq<Move>) {
    && |run| == |moves| + 1
    && forall k :: 0 <= k < |moves| ==> CanMove(run[k], moves[k]) && run[k + 1] == DoMove(ids, run[k], moves[k])
  }

  ghost predicate IsRun(ids: Ids, run: seq<State>, moves: seq<Move>) {
    && Distinct(ids) && Follows(ids, run, moves)
    && (exists threads :: run[0] == InitialState(threads))
    && forall k :: 0 <= k < |moves| ==> Disciplined(run[k], moves[k])
  }

  // ---------------------------------------------------------------------------------------------
  // The invariant
  // ---------------------------------------------------------------------------------------------

  /** A permit taken from the semaphore and not yet turned into a slot or given back. */
  predicate HasPermit(pc: Pc) { pc.AcqLock? || pc.AcqScan? || pc.AcqUnlockClosed? || pc.AcqRepost? }

  /** A slot freed and not yet posted. */
  predicate OwesPost(pc: Pc) { pc.RelUnlock? || pc.RelPost? }

  predicate Used(b: bool) { b }

  /** The semaphore, the permits taken and not yet used, the slots freed and not yet posted and the
      slots in use. */
  function Permits(sem: nat, inUse: Table, pcs: seq<Pc>): nat {
    sem + Count(pcs, HasPermit) + Count(pcs, OwesPost) + Count(inUse, Used)
  }

  ghost predicate PermitsOk(sem: nat, inUse: Table, pcs: seq<Pc>) { Permits(sem, inUse, pcs) == RP_CAP }

  /** An acquire scans an open pool and finds no free slot. */
  predicate EmptyScan(s: State, t: nat) {
    t < |s.pcs| && s.pcs[t].AcqScan? && !s.closed && FirstFrom(s.inUse, false, 0) == RP_CAP
  }

  /** A release finds its id and the slot is not in use. */
  predicate IdleRelease(ids: Ids, s: State, t: nat) {
    && t < |s.pcs| && s.pcs[t].RelScan?
    && var k := FirstFrom(ids, s.pcs[t].id, 0); k < RP_CAP && !s.inUse[k]
  }

  /** A release scans for an id that the pool does not have. */
  predicate UnknownRelease(ids: Ids, s: State, t: nat) {
    t < |s.pcs| && s.pcs[t].RelScan? && s.pcs[t].id !in ids
  }

  function ReleasingId(id: nat): Pc -> bool { (pc: Pc) => (pc.RelLock? || pc.RelScan?) && pc.id == id }

  /** How often an id is out: held by a client or being given back. */
  function OutCount(held: multiset<nat>, pcs: seq<Pc>, id: nat): nat { held[id] + Count(pcs, ReleasingId(id)) }

  /** A slot is marked used exactly when its id is out, once; no foreign id is out. */
  ghost predicate SlotsOk(ids: Ids, inUse: Table, held: multiset<nat>, pcs: seq<Pc>) {
    && (forall i :: 0 <= i < RP_CAP ==> OutCount(held, pcs, ids[i]) == if inUse[i] then 1 else 0)
    && (forall id: nat :: id !in ids ==> OutCount(held, pcs, id) == 0)
  }

  ghost predicate Inv(ids: Ids, s: State) {
    MutexOk(s.owner, s.pcs, Critical) && PermitsOk(s.sem, s.inUse, s.pcs) && SlotsOk(ids, s.inUse, s.held, s.pcs)
  }

  lemma AllIdle(threads: nat, p: Pc -> bool)
    requires !p(Idle)
    ensures Count(seq(threads, i => Idle), p) == 0
  {
    CountZero(seq(threads, i => Idle), p);
  }

  lemma InitInv(ids: Ids, threads: nat)
    ensures Inv(ids, InitialState(threads))
  {
    AllIdle(threads, HasPermit);
    AllIdle(threads, OwesPost);
    CountZero(InitialState(threads).inUse, Used);
    forall id: nat ensures Count(InitialState(threads).pcs, ReleasingId(id)) == 0 {
      AllIdle(threads, ReleasingId(id));
    }
  }

  lemma AcquireMutex(ids: Ids, s: State, t: nat)
    requires MutexOk(s.owner, s.pcs, Critical) && CanMove(s, Step(t)) && Acquiring(s.pcs[t])
    ensures MutexOk(AcquireStep(ids, s, t).owner, AcquireStep(ids, s, t).pcs, Critical)
  {}

  lemma ReleaseMutex(ids: Ids, s: State, t: nat)
    requires MutexOk(s.owner, s.pcs, Critical) && CanMove(s, Step(t)) && Releasing(s.pcs[t])
    requires s.pcs[t].RelScan? ==> s.pcs[t].id in ids
    ensures MutexOk(ReleaseStep(ids, s, t).owner, ReleaseStep(ids, s, t).pcs, Critical)
  {}

  lemma CloseMutex(s: State, t: nat)
    requires MutexOk(s.owner, s.pcs, Critical) && CanMove(s, Step(t)) && !Acquiring(s.pcs[t]) && !Releasing(s.pcs[t])
    ensures MutexOk(CloseStep(s, t).owner, CloseStep(s, t).pcs, Critical)
  {}

  lemma CallMutex(ids: Ids, s: State, t: nat, pc: Pc)
    requires MutexOk(s.owner, s.pcs, Critical) && CanMove(s, Call(t, pc))
    ensures MutexOk(DoMove(ids, s, Call(t, pc)).owner, DoMove(ids, s, Call(t, pc)).pcs, Critical)
  {}

  /** Whoever scans with a permit finds a free slot. */
  lemma FreeSlotExists(s: State, t: nat)
    requires PermitsOk(s.sem, s.inUse, s.pcs) && t < |s.pcs| && s.pcs[t].AcqScan?
    ensures FirstFrom(s.inUse, false, 0) < RP_CAP
  {
    CountPositive(s.pcs, t, HasPermit);
    CountAll(s.inUse, Used);
    assert exists b :: b in s.inUse && !Used(b);
  }

  /** A release finds its id, and the slot is in use. */
  lemma ReleasedSlot(ids: Ids, s: State, t: nat) returns (k: nat)
    requires SlotsOk(ids, s.inUse, s.held, s.pcs) && t < |s.pcs| && (s.pcs[t].RelScan? || s.pcs[t].RelLock?)
    ensures k == FirstFrom(ids, s.pcs[t].id, 0) < RP_CAP && ids[k] == s.pcs[t].id && s.inUse[k]
  {
    var id := s.pcs[t].id;
    CountPositive(s.pcs, t, ReleasingId(id));
    assert OutCount(s.held, s.pcs, id) > 0;
    assert id in ids;
    k := FirstFrom(ids, id, 0);
    assert OutCount(s.held, s.pcs, ids[k]) > 0;
  }

  lemma AcquirePermits(ids: Ids, s: State, t: nat)
    requires CanMove(s, Step(t)) && Acquiring(s.pcs[t])
    ensures var s' := AcquireStep(ids, s, t);
            Permits(s'.sem, s'.inUse, s'.pcs) == Permits(s.sem, s.inUse, s.pcs) - One(EmptyScan(s, t))
  {
    var s' := AcquireStep(ids, s, t);
    CountUpdate(s.pcs, t, s'.pcs[t], HasPermit);
    CountUpdate(s.pcs, t, s'.pcs[t], OwesPost);
    if s.pcs[t].AcqScan? && !s.closed && !EmptyScan(s, t) {
      CountUpdate(s.inUse, FirstFrom(s.inUse, false, 0), true, Used);
    }
  }

  lemma ReleasePermits(ids: Ids, s: State, t: nat)
    requires CanMove(s, Step(t)) && Releasing(s.pcs[t])
    ensures var s' := ReleaseStep(ids, s, t);
            Permits(s'.sem, s'.inUse, s'.pcs) == Permits(s.sem, s.inUse, s.pcs) + One(IdleRelease(ids, s, t))
  {
    var s' := ReleaseStep(ids, s, t);
    CountUpdate(s.pcs, t, s'.pcs[t], HasPermit);
    CountUpdate(s.pcs, t, s'.pcs[t], OwesPost);
    if s.pcs[t].RelScan? && FirstFrom(ids, s.pcs[t].id, 0) < RP_CAP {
      CountUpdate(s.inUse, FirstFrom(ids, s.pcs[t].id, 0), false, Used);
    }
  }

  lemma ClosePermits(s: State, t: nat)
    requires CanMove(s, Step(t)) && !Acquiring(s.pcs[t]) && !Releasing(s.pcs[t])
    ensures var s' := CloseStep(s, t); Permits(s'.sem, s'.inUse, s'.pcs) == Permits(s.sem, s.inUse, s.pcs)
  {
    CountUpdate(s.pcs, t, CloseStep(s, t).pcs[t], HasPermit);
    CountUpdate(s.pcs, t, CloseStep(s, t).pcs[t], OwesPost);
  }

  lemma CallPermits(ids: Ids, s: State, t: nat, pc: Pc)
    requires CanMove(s, Call(t, pc))
    ensures var s' := DoMove(ids, s, Call(t, pc)); Permits(s'.sem, s'.inUse, s'.pcs) == Permits(s.sem, s.inUse, s.pcs)
  {
    CountUpdate(s.pcs, t, pc, HasPermit);
    CountUpdate(s.pcs, t, pc, OwesPost);
  }

  /** What a move adds to the permits: only a release of an idle slot and a scan that finds nothing count. */
  function Surplus(ids: Ids, s: State, m: Move): int {
    if m.Call? then 0 else One(IdleRelease(ids, s, m.t)) - One(EmptyScan(s, m.t))
  }

  lemma MovePermits(ids: Ids, s: State, m: Move)
    requires CanMove(s, m)
    ensures var s' := DoMove(ids, s, m);
            Permits(s'.sem, s'.inUse, s'.pcs) == Permits(s.sem, s.inUse, s.pcs) + Surplus(ids, s, m)
  {
    if m.Step? && Acquiring(s.pcs[m.t]) {
      AcquirePermits(ids, s, m.t);
    } else if m.Step? && Releasing(s.pcs[m.t]) {
      ReleasePermits(ids, s, m.t);
    } else if m.Step? {
      ClosePermits(s, m.t);
    } else {
      CallPermits(ids, s, m.t, m.pc);
    }
  }

  /** How a move of thread `t` to `pc` with new `held` changes the number of times an id is out. */
  lemma OutCountUpdate(held: multiset<nat>, held': multiset<nat>, pcs: seq<Pc>, t: nat, pc: Pc, id: nat)
    requires t < |pcs|
    ensures OutCount(held', pcs[t := pc], id) + held[id] + (if ReleasingId(id)(pcs[t]) then 1 else 0)
         == OutCount(held, pcs, id) + held'[id] + (if ReleasingId(id)(pc) then 1 else 0)
  {
    CountUpdate(pcs, t, pc, ReleasingId(id));
  }

  lemma UnchangedSlots(ids: Ids, s: State, t: nat, pc: Pc, held: multiset<nat>)
    requires SlotsOk(ids, s.inUse, s.held, s.pcs) && t < |s.pcs|
    requires forall id: nat :: held[id] + (if ReleasingId(id)(pc) then 1 else 0)
                            == s.held[id] + (if ReleasingId(id)(s.pcs[t]) then 1 else 0)
    ensures SlotsOk(ids, s.inUse, held, s.pcs[t := pc])
  {
    forall id: nat ensures OutCount(held, s.pcs[t := pc], id) == OutCount(s.held, s.pcs, id) {
      OutCountUpdate(s.held, held, s.pcs, t, pc, id);
    }
  }

  lemma MarkSlot(ids: Ids, s: State, t: nat, k: nat)
    requires Distinct(ids) && SlotsOk(ids, s.inUse, s.held, s.pcs) && t < |s.pcs| && s.pcs[t].AcqScan?
    requires k < RP_CAP && !s.inUse[k]
    ensures SlotsOk(ids, s.inUse[k := true], s.held + multiset{ids[k]}, s.pcs[t := AcqUnlock(ids[k])])
  {
    forall id: nat
      ensures OutCount(s.held + multiset{ids[k]}, s.pcs[t := AcqUnlock(ids[k])], id)
           == OutCount(s.held, s.pcs, id) + if id == ids[k] then 1 else 0
    {
      OutCountUpdate(s.held, s.held + multiset{ids[k]}, s.pcs, t, AcqUnlock(ids[k]), id);
    }
  }

  lemma FreeSlot(ids: Ids, s: State, t: nat, k: nat)
    requires Distinct(ids) && SlotsOk(ids, s.inUse, s.held, s.pcs) && t < |s.pcs|
    requires k < RP_CAP && s.inUse[k] && s.pcs[t] == RelScan(ids[k])
    ensures SlotsOk(ids, s.inUse[k := false], s.held, s.pcs[t := RelUnlock])
  {
    forall id: nat
      ensures OutCount(s.held, s.pcs[t := RelUnlock], id) == OutCount(s.held, s.pcs, id) - if id == ids[k] then 1 else 0
    {
      OutCountUpdate(s.held, s.held, s.pcs, t, RelUnlock, id);
    }
  }

  lemma MoveSlots(ids: Ids, s: State, m: Move)
    requires Distinct(ids) && Inv(ids, s) && CanMove(s, m) && Disciplined(s, m)
    ensures var s' := DoMove(ids, s, m); SlotsOk(ids, s'.inUse, s'.held, s'.pcs)
  {
    var t := m.t;
    if m.Step? && s.pcs[t].AcqScan? && !s.closed {
      FreeSlotExists(s, t);
      MarkSlot(ids, s, t, FirstFrom(s.inUse, false, 0));
    } else if m.Step? && s.pcs[t].RelScan? {
      var k := ReleasedSlot(ids, s, t);
      FreeSlot(ids, s, t, k);
    } else if m.Step? {
      QuietSlots(ids, s, t);
    } else {
      CallSlots(ids, s, t, m.pc);
    }
  }

  lemma CallSlots(ids: Ids, s: State, t: nat, pc: Pc)
    requires SlotsOk(ids, s.inUse, s.held, s.pcs) && CanMove(s, Call(t, pc)) && Disciplined(s, Call(t, pc))
    ensures var s' := DoMove(ids, s, Call(t, pc)); SlotsOk(ids, s'.inUse, s'.held, s'.pcs)
  {
    UnchangedSlots(ids, s, t, pc, if pc.RelLock? then s.held - multiset{pc.id} else s.held);
  }

  lemma QuietSlots(ids: Ids, s: State, t: nat)
    requires SlotsOk(ids, s.inUse, s.held, s.pcs) && CanMove(s, Step(t))
    requires !s.pcs[t].RelScan? && (s.pcs[t].AcqScan? ==> s.closed)
    ensures var s' := DoMove(ids, s, Step(t)); SlotsOk(ids, s'.inUse, s'.held, s'.pcs)
  {
    var s' := DoMove(ids, s, Step(t));
    assert s'.pcs == s.pcs[t := s'.pcs[t]] && s'.inUse == s.inUse && s'.held == s.held;
    forall id: nat ensures ReleasingId(id)(s'.pcs[t]) == ReleasingId(id)(s.pcs[t]) {}
    UnchangedSlots(ids, s, t, s'.pcs[t], s.held);
  }

  /** Every move but the scan for an unknown id keeps the mutex with the thread inside. */
  lemma MoveMutex(ids: Ids, s: State, m: Move)
    requires MutexOk(s.owner, s.pcs, Critical) && CanMove(s, m) && (m.Step? ==> !UnknownRelease(ids, s, m.t))
    ensures var s' := DoMove(ids, s, m); MutexOk(s'.owner, s'.pcs, Critical)
  {
    if m.Step? && Acquiring(s.pcs[m.t]) {
      AcquireMutex(ids, s, m.t);
    } else if m.Step? && Releasing(s.pcs[m.t]) {
      ReleaseMutex(ids, s, m.t);
    } else if m.Step? {
      CloseMutex(s, m.t);
    } else {
      CallMutex(ids, s, m.t, m.pc);
    }
  }

  lemma NoSurplus(ids: Ids, s: State, m: Move)
    requires Inv(ids, s) && CanMove(s, m)
    ensures Surplus(ids, s, m) == 0 && (m.Step? ==> !UnknownRelease(ids, s, m.t))
  {
    if m.Step? && s.pcs[m.t].AcqScan? {
      FreeSlotExists(s, m.t);
    } else if m.Step? && s.pcs[m.t].RelScan? {
      var k := ReleasedSlot(ids, s, m.t);
    }
  }

  lemma MoveInv(ids: Ids, s: State, m: Move)
    requires Distinct(ids) && Inv(ids, s) && CanMove(s, m) && Disciplined(s, m)
    ensures Inv(ids, DoMove(ids, s, m))
  {
    NoSurplus(ids, s, m);
    MoveSlots(ids, s, m);
    MoveMutex(ids, s, m);
    MovePermits(ids, s, m);
  }

  // ---------------------------------------------------------------------------------------------
  // Theorems over all runs
  // ---------------------------------------------------------------------------------------------

  lemma {:induction false} RunInv(ids: Ids, run: seq<State>, moves: seq<Move>, k: nat)
    requires IsRun(ids, run, moves) && k < |run|
    ensures Inv(ids, run[k])
  {
    if k == 0 {
      var threads :| run[0] == InitialState(threads);
      InitInv(ids, threads);
    } else {
      RunInv(ids, run, moves, k - 1);
      MoveInv(ids, run[k - 1], moves[k - 1]);
    }
  }

  /** Permit conservation, at every step: the semaphore, the permits taken and not yet used, the slots
      freed and not yet posted and the slots in use add up to the capacity. */
  lemma PermitsAreConserved(ids: Ids, run: seq<State>, moves: seq<Move>, k: nat)
    requires IsRun(ids, run, moves) && k < |run|
    ensures var s := run[k];
            s.sem + Count(s.pcs, HasPermit) + Count(s.pcs, OwesPost) + Count(s.inUse, Used) == 8
  {
    RunInv(ids, run, moves, k);
  }

  /** An acquire that scans an open pool finds a free slot, and the id it hands out is in nobody's hands. */
  lemma ScanFindsAFreshId(ids: Ids, run: seq<State>, moves: seq<Move>, k: nat, t: nat)
    requires IsRun(ids, run, moves) && k < |run| && t < |run[k].pcs| && run[k].pcs[t].AcqScan?
    ensures var s, i := run[k], FirstFrom(run[k].inUse, false, 0); i < RP_CAP && OutCount(s.held, s.pcs, ids[i]) == 0
  {
    RunInv(ids, run, moves, k);
    FreeSlotExists(run[k], t);
  }

  /** No id is ever out twice, and a slot is marked used exactly while its id is out. */
  lemma NoIdHeldTwice(ids: Ids, run: seq<State>, moves: seq<Move>, k: nat, id: nat)
    requires IsRun(ids, run, moves) && k < |run|
    ensures OutCount(run[k].held, run[k].pcs, id) <= 1
    ensures forall i :: 0 <= i < RP_CAP && ids[i] == id ==>
              (run[k].inUse[i] <==> OutCount(run[k].held, run[k].pcs, id) == 1)
  {
    RunInv(ids, run, moves, k);
    if id in ids {
      var i :| 0 <= i < RP_CAP && ids[i] == id;
      assert OutCount(run[k].held, run[k].pcs, ids[i]) <= 1;
    }
  }

  /** What rp_acquire hands its caller: an id of the pool that is out nowhere, which is from then on out once,
      and whose slot, the first free one, goes from free to used. It hands one out exactly when the pool is open. */
  lemma AcquireHandsOut(ids: Ids, run: seq<State>, moves: seq<Move>, k: nat, t: nat) returns (i: nat)
    requires IsRun(ids, run, moves) && k < |moves| && moves[k] == Step(t) && run[k].pcs[t].AcqScan?
    ensures t < |run[k + 1].pcs| && (run[k + 1].pcs[t].AcqUnlock? <==> !run[k].closed)
    ensures run[k].closed ==> run[k + 1].pcs[t].AcqUnlockClosed? && run[k + 1].held == run[k].held
    ensures !run[k].closed ==>
              && i < RP_CAP && ids[i] == run[k + 1].pcs[t].id
              && OutCount(run[k].held, run[k].pcs, ids[i]) == 0
              && OutCount(run[k + 1].held, run[k + 1].pcs, ids[i]) == 1
              && run[k + 1].held == run[k].held + multiset{run[k + 1].pcs[t].id}
              && !run[k].inUse[i] && (forall j :: 0 <= j < i ==> run[k].inUse[j])
              && run[k + 1].inUse == run[k].inUse[i := true]
  {
    RunInv(ids, run, moves, k);
    RunInv(ids, run, moves, k + 1);
    FreeSlotExists(run[k], t);
    i := FirstFrom(run[k].inUse, false, 0);
    assert OutCount(run[k].held, run[k].pcs, ids[i]) == 0;
    if !run[k].closed {
      assert run[k + 1].inUse[i];
    }
  }

  /** What rp_release does: the id it was given is out before and no longer out after, and its slot, alone,
      goes from used to free. */
  lemma ReleaseTakesBack(ids: Ids, run: seq<State>, moves: seq<Move>, k: nat, t: nat) returns (i: nat)
    requires IsRun(ids, run, moves) && k < |moves| && moves[k] == Step(t) && run[k].pcs[t].RelScan?
    ensures i < RP_CAP && ids[i] == run[k].pcs[t].id
    ensures OutCount(run[k].held, run[k].pcs, ids[i]) == 1 && OutCount(run[k + 1].held, run[k + 1].pcs, ids[i]) == 0
    ensures run[k].inUse[i] && run[k + 1].inUse == run[k].inUse[i := false]
  {
    RunInv(ids, run, moves, k);
    RunInv(ids, run, moves, k + 1);
    i := ReleasedSlot(ids, run[k], t);
    assert !run[k + 1].inUse[i];
  }

  /** If no thread can take a step although one waits for a permit, every id is held by a client. */
  lemma WaitingIsJustified(ids: Ids, run: seq<State>, moves: seq<Move>, k: nat, t: nat, i: nat)
    requires IsRun(ids, run, moves) && k < |run| && t < |run[k].pcs| && run[k].pcs[t].AcqWait? && i < RP_CAP
    requires forall u: nat :: u < |run[k].pcs| ==> !CanMove(run[k], Step(u))
    ensures run[k].held[ids[i]] == 1
  {
    RunInv(ids, run, moves, k);
    var s := run[k];
    assert !CanMove(s, Step(t));
    assert s.owner == -1 by {
      if s.owner >= 0 {
        assert CanMove(s, Step(s.owner));
      }
    }
    forall pc | pc in s.pcs ensures pc.Idle? || pc.AcqWait? {
      var u: nat :| u < |s.pcs| && s.pcs[u] == pc;
      assert !CanMove(s, Step(u));
    }
    CountZero(s.pcs, HasPermit);
    CountZero(s.pcs, OwesPost);
    CountZero(s.pcs, ReleasingId(ids[i]));
    CountAll(s.inUse, Used);
    assert s.inUse[i] in s.inUse;
    assert OutCount(s.held, s.pcs, ids[i]) == if s.inUse[i] then 1 else 0;
  }

  // ---------------------------------------------------------------------------------------------
  // Clients that release what they do not hold
  // ---------------------------------------------------------------------------------------------

  /** Every run of a fresh pool, whatever ids the clients release. */
  ghost predicate AnyRun(ids: Ids, run: seq<State>, moves: seq<Move>) {
    Follows(ids, run, moves) && exists threads :: run[0] == InitialState(threads)
  }

  /** The mutex is held, by a thread that has left its critical section, as is every other thread. */
  ghost predicate Leaked(s: State) {
    s.owner != -1 && forall t :: 0 <= t < |s.pcs| ==> !Critical(s.pcs[t])
  }

  /** Outside the critical sections a step neither touches the table nor enters one that is owned. */
  lemma LeakedThread(ids: Ids, s: State, t: nat)
    requires CanMove(s, Step(t)) && !Critical(s.pcs[t]) && s.owner != -1
    ensures var s' := DoMove(ids, s, Step(t));
            && s'.owner == s.owner && s'.inUse == s.inUse && s'.closed == s.closed
            && s'.pcs == s.pcs[t := s'.pcs[t]] && !Critical(s'.pcs[t])
  {}

  lemma LeakedStep(ids: Ids, s: State, m: Move)
    requires Leaked(s) && CanMove(s, m)
    ensures var s' := DoMove(ids, s, m); Leaked(s') && s'.inUse == s.inUse && s'.closed == s.closed
  {
    if m.Step? {
      LeakedThread(ids, s, m.t);
    }
  }

  lemma UnknownReleaseLeaks(ids: Ids, s: State, t: nat)
    requires MutexOk(s.owner, s.pcs, Critical) && UnknownRelease(ids, s, t)
    ensures Leaked(ReleaseStep(ids, s, t))
  {}

  /** Once leaked, always leaked: whatever the threads do, no table scan ever happens again. */
  lemma {:induction false} LeakIsForever(ids: Ids, run: seq<State>, moves: seq<Move>, j: nat, k: nat)
    requires Follows(ids, run, moves) && j <= k < |run| && Leaked(run[j])
    ensures Leaked(run[k]) && run[k].inUse == run[j].inUse && run[k].closed == run[j].closed
    decreases k - j
  {
    if j < k {
      var s, m := run[k - 1], moves[k - 1];
      LeakIsForever(ids, run, moves, j, k - 1);
      assert CanMove(s, m) && run[k] == DoMove(ids, s, m);
      LeakedStep(ids, s, m);
    }
  }

  /** Some move before `k` scanned for an id that the pool does not have. */
  ghost predicate ScannedUnknown(ids: Ids, run: seq<State>, moves: seq<Move>, k: nat)
    requires k <= |moves| && |moves| < |run|
  {
    exists j :: 0 <= j < k && moves[j].Step? && UnknownRelease(ids, run[j], moves[j].t)
  }

  /** "Release unlocks the mutex" is false. In every run the mutex is leaked exactly when some release
      has scanned for an id the pool does not have; until then the owner is the thread inside. */
  lemma {:induction false} MutexLeaksIff(ids: Ids, run: seq<State>, moves: seq<Move>, k: nat)
    requires AnyRun(ids, run, moves) && k < |run|
    ensures Leaked(run[k]) <==> ScannedUnknown(ids, run, moves, k)
    ensures !Leaked(run[k]) ==> MutexOk(run[k].owner, run[k].pcs, Critical)
  {
    if k > 0 {
      var s, m := run[k - 1], moves[k - 1];
      MutexLeaksIff(ids, run, moves, k - 1);
      assert ScannedUnknown(ids, run, moves, k)
        <==> ScannedUnknown(ids, run, moves, k - 1) || (m.Step? && UnknownRelease(ids, s, m.t));
      if Leaked(s) {
        LeakedStep(ids, s, m);
      } else if m.Step? && UnknownRelease(ids, s, m.t) {
        UnknownReleaseLeaks(ids, s, m.t);
      } else {
        MoveMutex(ids, s, m);
        OwnedIsNotLeaked(run[k]);
      }
    }
  }

  lemma OwnedIsNotLeaked(s: State)
    requires MutexOk(s.owner, s.pcs, Critical)
    ensures !Leaked(s)
  {
    if s.owner != -1 {
      assert Critical(s.pcs[s.owner]);
    }
  }

  /** In every run a release that reaches its scan goes on to unlock exactly when the pool has the id;
      otherwise it returns and the mutex is leaked. */
  lemma ReleaseUnlocksIff(ids: Ids, run: seq<State>, moves: seq<Move>, k: nat, t: nat)
    requires AnyRun(ids, run, moves) && k < |moves| && moves[k] == Step(t) && run[k].pcs[t].RelScan?
    ensures run[k + 1].pcs[t].RelUnlock? <==> run[k].pcs[t].id in ids
    ensures Leaked(run[k + 1]) <==> run[k].pcs[t].id !in ids
  {
    MutexLeaksIff(ids, run, moves, k);
    MutexLeaksIff(ids, run, moves, k + 1);
    assert Critical(run[k].pcs[t]) && !Leaked(run[k]);
    if run[k].pcs[t].id in ids {
      assert FirstFrom(ids, run[k].pcs[t].id, 0) < RP_CAP;
      MoveMutex(ids, run[k], moves[k]);
      OwnedIsNotLeaked(run[k + 1]);
    } else {
      UnknownReleaseLeaks(ids, run[k], t);
    }
  }

  /** The surplus of the first k moves. */
  ghost function TotalSurplus(ids: Ids, run: seq<State>, moves: seq<Move>, k: nat): int
    requires k <= |moves| && |moves| < |run|
  {
    if k == 0 then 0 else TotalSurplus(ids, run, moves, k - 1) + Surplus(ids, run[k - 1], moves[k - 1])
  }

  /** The permit law of every run, whatever clients release: the permits are the capacity, plus one for
      each release of a slot that was not in use, minus one for each scan that found nothing. */
  lemma {:induction false} PermitLaw(ids: Ids, run: seq<State>, moves: seq<Move>, k: nat)
    requires AnyRun(ids, run, moves) && k < |run|
    ensures Permits(run[k].sem, run[k].inUse, run[k].pcs) == RP_CAP + TotalSurplus(ids, run, moves, k)
  {
    if k == 0 {
      var threads :| run[0] == InitialState(threads);
      InitInv(ids, threads);
    } else {
      PermitLaw(ids, run, moves, k - 1);
      MovePermits(ids, run[k - 1], moves[k - 1]);
    }
  }

  /** A release of a pool id keeps the permits at the capacity exactly when its slot is in use. */
  lemma ReleaseKeepsPermitsIff(ids: Ids, s: State, t: nat)
    requires PermitsOk(s.sem, s.inUse, s.pcs) && CanMove(s, Step(t)) && s.pcs[t].RelScan? && s.pcs[t].id in ids
    ensures var s' := ReleaseStep(ids, s, t);
            PermitsOk(s'.sem, s'.inUse, s'.pcs) <==> s.inUse[FirstFrom(ids, s.pcs[t].id, 0)]
  {
    ReleasePermits(ids, s, t);
  }

  ghost predicate ReleasedIdle(ids: Ids, run: seq<State>, moves: seq<Move>, k: nat)
    requires k <= |moves| && |moves| < |run|
  {
    exists j :: 0 <= j < k && moves[j].Step? && IdleRelease(ids, run[j], moves[j].t)
  }

  /** As long as nobody has released an idle slot, every scan of an open pool finds a free slot, even if
      clients have released ids that were in use but not theirs, or ids the pool does not have. */
  lemma {:induction false} ScanFindsUnlessIdleReleased(ids: Ids, run: seq<State>, moves: seq<Move>, k: nat)
    requires AnyRun(ids, run, moves) && k < |run| && !ReleasedIdle(ids, run, moves, k)
    ensures TotalSurplus(ids, run, moves, k) == 0
    ensures forall t: nat :: !EmptyScan(run[k], t)
  {
    if k > 0 {
      assert !ReleasedIdle(ids, run, moves, k - 1);
      ScanFindsUnlessIdleReleased(ids, run, moves, k - 1);
    }
    PermitLaw(ids, run, moves, k);
    forall t: nat ensures !EmptyScan(run[k], t) {
      if t < |run[k].pcs| && run[k].pcs[t].AcqScan? {
        FreeSlotExists(run[k], t);
      }
    }
  }

  // ---------------------------------------------------------------------------------------------
  // Closing
  // ---------------------------------------------------------------------------------------------

  /** A close past its assignment has set the flag. */
  ghost predicate ClosersOk(s: State) {
    forall t :: 0 <= t < |s.pcs| && s.pcs[t].CloseUnlock? ==> s.closed
  }

  /** Thread t alone has moved; the flag has been set if `sets` and is otherwise unchanged. */
  ghost predicate Flagged(s: State, s': State, t: nat, sets: bool) {
    && |s'.pcs| == |s.pcs| && (forall u :: 0 <= u < |s.pcs| && u != t ==> s'.pcs[u] == s.pcs[u])
    && (s'.closed <==> s.closed || sets)
    && (t < |s.pcs| && s'.pcs[t].CloseUnlock? ==> sets)
  }

  lemma AcquireFlag(ids: Ids, s: State, t: nat)
    requires CanMove(s, Step(t)) && Acquiring(s.pcs[t])
    ensures Flagged(s, AcquireStep(ids, s, t), t, false)
  {}

  lemma ReleaseFlag(ids: Ids, s: State, t: nat)
    requires CanMove(s, Step(t)) && Releasing(s.pcs[t])
    ensures Flagged(s, ReleaseStep(ids, s, t), t, false)
  {}

  lemma CloseFlag(s: State, t: nat)
    requires CanMove(s, Step(t)) && !Acquiring(s.pcs[t]) && !Releasing(s.pcs[t])
    ensures Flagged(s, CloseStep(s, t), t, s.pcs[t].CloseSet?)
  {}

  /** The flag is set by the assignment of a close and by nothing else. */
  lemma MoveFlag(ids: Ids, s: State, m: Move)
    requires CanMove(s, m)
    ensures Flagged(s, DoMove(ids, s, m), m.t, m.Step? && s.pcs[m.t].CloseSet?)
  {
    if m.Step? && Acquiring(s.pcs[m.t]) {
      AcquireFlag(ids, s, m.t);
    } else if m.Step? && Releasing(s.pcs[m.t]) {
      ReleaseFlag(ids, s, m.t);
    } else if m.Step? {
      CloseFlag(s, m.t);
    }
  }

  lemma CloseStepKeeps(ids: Ids, s: State, m: Move)
    requires CanMove(s, m) && ClosersOk(s)
    ensures ClosersOk(DoMove(ids, s, m)) && (s.closed ==> DoMove(ids, s, m).closed)
  {
    MoveFlag(ids, s, m);
    FlagKeeps(s, DoMove(ids, s, m), m.t, m.Step? && s.pcs[m.t].CloseSet?);
  }

  lemma FlagKeeps(s: State, s': State, t: nat, sets: bool)
    requires ClosersOk(s) && Flagged(s, s', t, sets)
    ensures ClosersOk(s') && (s.closed ==> s'.closed)
  {}

  lemma {:induction false} RunClosers(ids: Ids, run: seq<State>, moves: seq<Move>, j: nat, k: nat)
    requires AnyRun(ids, run, moves) && j <= k < |run|
    ensures ClosersOk(run[k]) && (run[j].closed ==> run[k].closed)
  {
    if k > 0 {
      RunClosers(ids, run, moves, if j < k then j else 0, k - 1);
      CloseStepKeeps(ids, run[k - 1], moves[k - 1]);
    }
  }

  lemma ClosedHandsOutNothing(ids: Ids, s: State, m: Move)
    requires CanMove(s, m) && s.closed
    ensures DoMove(ids, s, m).held <= s.held
    ensures m.Step? && s.pcs[m.t].AcqScan? ==> DoMove(ids, s, m).pcs[m.t].AcqUnlockClosed?
  {}

  /** Once any close is past its assignment the pool stays closed, and no move of any thread hands out an id:
      an acquire that gets to its scan is turned away. Clients need not be disciplined. */
  lemma NothingAfterClose(ids: Ids, run: seq<State>, moves: seq<Move>, j: nat, k: nat, t: nat)
    requires AnyRun(ids, run, moves) && j <= k < |moves| && t < |run[j].pcs| && run[j].pcs[t].CloseUnlock?
    ensures run[k].closed && run[k + 1].held <= run[k].held
    ensures moves[k].Step? && run[k].pcs[moves[k].t].AcqScan? ==>
              moves[k].t < |run[k + 1].pcs| && run[k + 1].pcs[moves[k].t].AcqUnlockClosed?
  {
    RunClosers(ids, run, moves, j, j);
    RunClosers(ids, run, moves, j, k);
    ClosedHandsOutNothing(ids, run[k], moves[k]);
  }
}
