/**
 `transfer_value(from, to, amount)`: both counters are locked in (id, address) order before either is
 read. Any number of threads each run a list of transfers over any number of counters; one step is
 one lock, one unlock, the balance test, the subtraction or the addition. A counter is its position,
 so address order is the order of positions; ids may repeat.
 */
module Transfer {
  import opened Counting
  import opened LockOrder

  datatype Call = Call(from: nat, to: nat, amount: int)

  datatype Config = Config(ids: seq<nat>, program: seq<seq<Call>>, initial: seq<int>)

  datatype Pc =
    | Start                        // holds nothing
    | HaveFirst                    // holds the first lock
    | Check                        // holds both; the balance test is next
    | Subtract                     // holds both; the balance suffices
    | AddTo(inFlight: int)         // subtracted, not yet added
    | UnlockSecond(rc: int)
    | UnlockFirst(rc: int)

  /** `rcs` lists the return codes of the thread's finished calls. */
  datatype Thread = Thread(done: nat, pc: Pc, rcs: seq<int>)

  datatype Entry = Entry(t: nat, call: Call)

  /** `log` is history: the calls in the order in which they took effect, which is when they obtained
      their second lock or returned without locking. */
  datatype State = State(values: seq<int>, owner: seq<int>, threads: seq<Thread>, log: seq<Entry>)

  ghost predicate GoodConfig(cfg: Config) {
    && |cfg.ids| == |cfg.initial|
    && (forall t, c :: 0 <= t < |cfg.program| && 0 <= c < |cfg.program[t]| ==>
          cfg.program[t][c].from < |cfg.initial| && cfg.program[t][c].to < |cfg.initial|)
  }

  // ---------------------------------------------------------------------------------------------
  // The serial reference
  // ---------------------------------------------------------------------------------------------

  /** The return code of a whole call, executed alone. */
  function Outcome(values: seq<int>, c: Call): int {
    if c.amount <= 0 then -2
    else if c.from == c.to then 0
    else if c.from < |values| && values[c.from] < c.amount then -3
    else 0
  }

  function Apply(values: seq<int>, c: Call): (r: seq<int>)
    ensures |r| == |values|
  {
    if Outcome(values, c) == 0 && c.from != c.to && c.from < |values| && c.to < |values|
    then values[c.from := values[c.from] - c.amount][c.to := values[c.to] + c.amount]
    else values
  }

  ghost function Serial(initial: seq<int>, log: seq<Entry>): (r: seq<int>)
    ensures |r| == |initial|
  {
    if log == [] then initial else Apply(Serial(initial, log[..|log| - 1]), log[|log| - 1].call)
  }

  /** The calls of thread `t` in the log, and the codes they return when executed serially. */
  ghost function Project(log: seq<Entry>, t: nat): seq<Call> {
    if log == [] then []
    else Project(log[..|log| - 1], t) + (if log[|log| - 1].t == t then [log[|log| - 1].call] else [])
  }

  ghost function Codes(initial: seq<int>, log: seq<Entry>, t: nat): seq<int> {
    if log == [] then []
    else Codes(initial, log[..|log| - 1], t)
         + (if log[|log| - 1].t == t then [Outcome(Serial(initial, log[..|log| - 1]), log[|log| - 1].call)] else [])
  }

  lemma SerialAppend(initial: seq<int>, log: seq<Entry>, e: Entry, t: nat)
    ensures Serial(initial, log + [e]) == Apply(Serial(initial, log), e.call)
    ensures Project(log + [e], t) == if e.t == t then Project(log, t) + [e.call] else Project(log, t)
    ensures Codes(initial, log + [e], t)
         == if e.t == t then Codes(initial, log, t) + [Outcome(Serial(initial, log), e.call)]
             else Codes(initial, log, t)
  {
    assert (log + [e])[..|log|] == log;
  }

  // ---------------------------------------------------------------------------------------------
  // The machine
  // ---------------------------------------------------------------------------------------------

  /** The lock order: by id, ties broken by address. */
  predicate Before(ids: seq<nat>, a: nat, b: nat) {
    a < |ids| && b < |ids| && (ids[a] < ids[b] || (ids[a] == ids[b] && a < b))
  }

  function First(ids: seq<nat>, c: Call): nat
    requires c.from < |ids| && c.to < |ids|
  {
    if ids[c.from] < ids[c.to] then c.from
    else if ids[c.from] > ids[c.to] then c.to
    else if c.from < c.to then c.from
    else c.to
  }

  function Second(ids: seq<nat>, c: Call): nat
    requires c.from < |ids| && c.to < |ids|
  {
    if First(ids, c) == c.from then c.to else c.from
  }

  ghost predicate WellShaped(cfg: Config, s: State) {
    GoodConfig(cfg) && |s.values| == |s.owner| == |cfg.initial| && |s.threads| == |cfg.program|
  }

  predicate Running(cfg: Config, th: Thread, t: nat) { t < |cfg.program| && th.done < |cfg.program[t]| }

  function CallOf(cfg: Config, th: Thread, t: nat): Call
    requires Running(cfg, th, t)
  {
    cfg.program[t][th.done]
  }

  predicate NeedsNoLock(c: Call) { c.amount <= 0 || c.from == c.to }

  ghost predicate CanStep(cfg: Config, s: State, t: nat)
    requires WellShaped(cfg, s)
  {
    && t < |s.threads| && Running(cfg, s.threads[t], t)
    && var c := CallOf(cfg, s.threads[t], t);
       match s.threads[t].pc
       case Start => NeedsNoLock(c) || s.owner[First(cfg.ids, c)] == -1
       case HaveFirst => s.owner[Second(cfg.ids, c)] == -1
       case _ => true
  }

  function Return(th: Thread, rc: int): Thread { Thread(th.done + 1, Start, th.rcs + [rc]) }

  ghost function Step(cfg: Config, s: State, t: nat): (s': State)
    requires WellShaped(cfg, s) && CanStep(cfg, s, t)
    ensures WellShaped(cfg, s')
  {
    var th := s.threads[t];
    var c := CallOf(cfg, th, t);
    match th.pc
    case Start =>
      if c.amount <= 0 then s.(threads := s.threads[t := Return(th, -2)], log := s.log + [Entry(t, c)])
      else if c.from == c.to then s.(threads := s.threads[t := Return(th, 0)], log := s.log + [Entry(t, c)])
      else s.(owner := s.owner[First(cfg.ids, c) := t], threads := s.threads[t := th.(pc := HaveFirst)])
    case HaveFirst =>
      s.(owner := s.owner[Second(cfg.ids, c) := t], threads := s.threads[t := th.(pc := Check)],
          log := s.log + [Entry(t, c)])
    case Check =>
      s.(threads := s.threads[t := th.(pc := if s.values[c.from] < c.amount then UnlockSecond(-3) else Subtract)])
    case Subtract =>
      s.(values := s.values[c.from := s.values[c.from] - c.amount],
          threads := s.threads[t := th.(pc := AddTo(c.amount))])
    case AddTo(_) =>
      s.(values := s.values[c.to := s.values[c.to] + c.amount], threads := s.threads[t := th.(pc := UnlockSecond(0))])
    case UnlockSecond(rc) =>
      s.(owner := s.owner[Second(cfg.ids, c) := -1], threads := s.threads[t := th.(pc := UnlockFirst(rc))])
    case UnlockFirst(rc) =>
      s.(owner := s.owner[First(cfg.ids, c) := -1], threads := s.threads[t := Return(th, rc)])
  }

  ghost function InitialState(cfg: Config): State {
    State(cfg.initial, seq(|cfg.initial|, o => -1), seq(|cfg.program|, t => Thread(0, Start, [])), [])
  }

  ghost predicate IsRun(cfg: Config, run: seq<State>, schedule: seq<nat>) {
    && GoodConfig(cfg) && |run| == |schedule| + 1
    && run[0] == InitialState(cfg)
    && (forall k :: 0 <= k < |run| ==> WellShaped(cfg, run[k]))
    && forall k :: 0 <= k < |schedule| ==>
         CanStep(cfg, run[k], schedule[k]) && run[k + 1] == Step(cfg, run[k], schedule[k])
  }

  // ---------------------------------------------------------------------------------------------
  // The invariant
  // ---------------------------------------------------------------------------------------------

  predicate HasBoth(pc: Pc) { pc.Check? || pc.Subtract? || pc.AddTo? || pc.UnlockSecond? }

  predicate Logged(pc: Pc) { HasBoth(pc) || pc.UnlockFirst? }

  function HeldBy(cfg: Config, th: Thread, t: nat): set<nat>
  {
    if !Running(cfg, th, t) then {} else
      var c := CallOf(cfg, th, t);
      if HasBoth(th.pc) then {c.from, c.to}
      else if (th.pc.HaveFirst? || th.pc.UnlockFirst?) && c.from < |cfg.ids| && c.to < |cfg.ids|
      then {First(cfg.ids, c)}
      else {}
  }

  ghost predicate LocksOk(cfg: Config, owner: seq<int>, threads: seq<Thread>) {
    && (forall o :: 0 <= o < |owner| ==>
        owner[o] == -1 || (0 <= owner[o] < |threads| && o in HeldBy(cfg, threads[owner[o]], owner[o])))
    && (forall t, o :: 0 <= t < |threads| && 0 <= o < |owner| && o in HeldBy(cfg, threads[t], t) ==> owner[o] == t)
  }

  /** What the current call still has to add to counter `o`. */
  function Due(c: Call, pc: Pc, values: seq<int>, o: nat): int {
    match pc
    case Check =>
      if c.from < |values| && values[c.from] < c.amount then 0
      else if o == c.from then -c.amount else if o == c.to then c.amount else 0
    case Subtract => if o == c.from then -c.amount else if o == c.to then c.amount else 0
    case AddTo(_) => if o == c.to then c.amount else 0
    case _ => 0
  }

  function DueFrom(cfg: Config, threads: seq<Thread>, values: seq<int>, owner: int, o: nat): int {
    if 0 <= owner < |threads| && Running(cfg, threads[owner], owner)
    then Due(CallOf(cfg, threads[owner], owner), threads[owner].pc, values, o) else 0
  }

  /** Every counter, once its pending call has finished, is what the serial execution of the log gives. */
  ghost predicate Simulates(cfg: Config, values: seq<int>, owner: seq<int>, threads: seq<Thread>, serial: seq<int>)
    requires |owner| == |values|
  {
    && |serial| == |values|
    && forall o :: 0 <= o < |values| ==> serial[o] == values[o] + DueFrom(cfg, threads, values, owner[o], o)
  }

  /** The code the current call is going to return. */
  function Expected(c: Call, pc: Pc, values: seq<int>): int {
    match pc
    case Check => if c.from < |values| && values[c.from] < c.amount then -3 else 0
    case UnlockSecond(rc) => rc
    case UnlockFirst(rc) => rc
    case _ => 0
  }

  ghost predicate PcOk(c: Call, pc: Pc, values: seq<int>) {
    && (!pc.Start? ==> c.amount > 0 && c.from != c.to)
    && (pc.Subtract? ==> c.from < |values| && values[c.from] >= c.amount)
    && (pc.AddTo? ==> pc.inFlight == c.amount)
  }

  /** The thread's logged calls are a prefix of its program and its codes are the serial ones. */
  ghost predicate ThreadOk(cfg: Config, th: Thread, t: nat, values: seq<int>, calls: seq<Call>, codes: seq<int>)
    requires t < |cfg.program|
  {
    && th.done <= |cfg.program[t]|
    && (!th.pc.Start? ==> Running(cfg, th, t))
    && (Running(cfg, th, t) ==> PcOk(CallOf(cfg, th, t), th.pc, values))
    && calls == cfg.program[t][..th.done + if Logged(th.pc) then 1 else 0]
    && codes == if Logged(th.pc) then th.rcs + [Expected(CallOf(cfg, th, t), th.pc, values)] else th.rcs
  }

  ghost predicate ThreadsOk(cfg: Config, s: State) {
    forall t :: 0 <= t < |s.threads| && t < |cfg.program| ==>
      ThreadOk(cfg, s.threads[t], t, s.values, Project(s.log, t), Codes(cfg.initial, s.log, t))
  }

  ghost predicate Inv(cfg: Config, s: State) {
    && WellShaped(cfg, s)
    && LocksOk(cfg, s.owner, s.threads)
    && Simulates(cfg, s.values, s.owner, s.threads, Serial(cfg.initial, s.log))
    && ThreadsOk(cfg, s)
  }

  lemma InitInv(cfg: Config)
    requires GoodConfig(cfg)
    ensures Inv(cfg, InitialState(cfg))
  {}

  lemma AcquireKeepsLocks(cfg: Config, owner: seq<int>, threads: seq<Thread>, t: nat, o: nat, th: Thread)
    requires LocksOk(cfg, owner, threads) && t < |threads| && o < |owner| && owner[o] == -1
    requires HeldBy(cfg, th, t) == HeldBy(cfg, threads[t], t) + {o}
    ensures LocksOk(cfg, owner[o := t], threads[t := th])
  {
    forall x | 0 <= x < |owner| && owner[x] == t ensures x in HeldBy(cfg, th, t) {
      assert x in HeldBy(cfg, threads[t], t);
    }
  }

  lemma ReleaseKeepsLocks(cfg: Config, owner: seq<int>, threads: seq<Thread>, t: nat, o: nat, th: Thread)
    requires LocksOk(cfg, owner, threads) && t < |threads| && o < |owner| && o in HeldBy(cfg, threads[t], t)
    requires HeldBy(cfg, th, t) == HeldBy(cfg, threads[t], t) - {o}
    ensures LocksOk(cfg, owner[o := -1], threads[t := th])
  {
    assert owner[o] == t;
    forall x | 0 <= x < |owner| && x != o && owner[x] == t ensures x in HeldBy(cfg, th, t) {
      assert x in HeldBy(cfg, threads[t], t);
    }
  }

  lemma KeepKeepsLocks(cfg: Config, owner: seq<int>, threads: seq<Thread>, t: nat, th: Thread)
    requires LocksOk(cfg, owner, threads) && t < |threads|
    requires HeldBy(cfg, th, t) == HeldBy(cfg, threads[t], t)
    ensures LocksOk(cfg, owner, threads[t := th])
  {}

  lemma StepLocks(cfg: Config, s: State, t: nat)
    requires WellShaped(cfg, s) && CanStep(cfg, s, t) && LocksOk(cfg, s.owner, s.threads)
    requires PcOk(CallOf(cfg, s.threads[t], t), s.threads[t].pc, s.values)
    ensures LocksOk(cfg, Step(cfg, s, t).owner, Step(cfg, s, t).threads)
  {
    var c := CallOf(cfg, s.threads[t], t);
    var th := Step(cfg, s, t).threads[t];
    match s.threads[t].pc
    case Start =>
      if NeedsNoLock(c) {
        KeepKeepsLocks(cfg, s.owner, s.threads, t, th);
      } else {
        AcquireKeepsLocks(cfg, s.owner, s.threads, t, First(cfg.ids, c), th);
      }
    case HaveFirst => AcquireKeepsLocks(cfg, s.owner, s.threads, t, Second(cfg.ids, c), th);
    case UnlockSecond(_) => ReleaseKeepsLocks(cfg, s.owner, s.threads, t, Second(cfg.ids, c), th);
    case UnlockFirst(_) => ReleaseKeepsLocks(cfg, s.owner, s.threads, t, First(cfg.ids, c), th);
    case _ => KeepKeepsLocks(cfg, s.owner, s.threads, t, th);
  }

  /** What thread `t`, in state `th`, still has to add to counter `o`. */
  function DueOf(cfg: Config, th: Thread, t: nat, values: seq<int>, o: nat): int {
    if Running(cfg, th, t) then Due(CallOf(cfg, th, t), th.pc, values, o) else 0
  }

  /** Steps that change no value and log nothing. */
  lemma QuietSimulates(cfg: Config, values: seq<int>, owner: seq<int>, owner': seq<int>, threads: seq<Thread>,
                       t: nat, th: Thread, serial: seq<int>)
    requires |owner| == |owner'| == |values| && t < |threads| && Simulates(cfg, values, owner, threads, serial)
    requires forall o: nat :: DueOf(cfg, th, t, values, o) == DueOf(cfg, threads[t], t, values, o)
    requires forall o: nat :: o < |owner| && owner'[o] != owner[o] ==>
               && DueOf(cfg, threads[t], t, values, o) == 0
               && (owner[o] == -1 || owner[o] == t) && (owner'[o] == -1 || owner'[o] == t)
    ensures Simulates(cfg, values, owner', threads[t := th], serial)
  {
    forall o | 0 <= o < |values|
      ensures DueFrom(cfg, threads[t := th], values, owner'[o], o) == DueFrom(cfg, threads, values, owner[o], o)
    {
      assert DueOf(cfg, th, t, values, o) == DueOf(cfg, threads[t], t, values, o);
    }
  }

  /** The second lock: the serial execution runs the whole call now. */
  lemma LogSimulates(cfg: Config, values: seq<int>, owner: seq<int>, threads: seq<Thread>, t: nat, th: Thread,
                     last: nat, serial: seq<int>)
    requires |owner| == |values| && t < |threads| && Simulates(cfg, values, owner, threads, serial)
    requires Running(cfg, th, t) && th.pc == Check && last < |owner| && owner[last] == -1
    requires var c := CallOf(cfg, th, t);
             && c.from < |owner| && c.to < |owner| && c.amount > 0 && c.from != c.to
             && owner[last := t][c.from] == t && owner[last := t][c.to] == t
    requires forall o: nat :: DueOf(cfg, threads[t], t, values, o) == 0
    ensures Simulates(cfg, values, owner[last := t], threads[t := th], Apply(serial, CallOf(cfg, th, t)))
  {
    var c := CallOf(cfg, th, t);
    assert DueOf(cfg, threads[t], t, values, c.from) == 0 && DueOf(cfg, threads[t], t, values, c.to) == 0;
    assert serial[c.from] == values[c.from] && serial[c.to] == values[c.to];
    forall o | 0 <= o < |values|
      ensures Apply(serial, c)[o] == values[o] + DueFrom(cfg, threads[t := th], values, owner[last := t][o], o)
    {
      assert DueOf(cfg, threads[t], t, values, o) == 0;
    }
  }

  /** The subtraction or the addition moves its counter to its target; nobody else's test depends on it. */
  lemma UpdateSimulates(cfg: Config, values: seq<int>, owner: seq<int>, threads: seq<Thread>, t: nat, th: Thread,
                        o: nat, v: int, serial: seq<int>)
    requires |owner| == |values| && t < |threads| && Simulates(cfg, values, owner, threads, serial)
    requires GoodConfig(cfg) && |values| == |cfg.initial| && LocksOk(cfg, owner, threads) && o < |values|
              && owner[o] == t
    requires v + DueOf(cfg, th, t, values[o := v], o) == values[o] + DueOf(cfg, threads[t], t, values, o)
    requires forall x: nat :: x != o ==> DueOf(cfg, th, t, values[o := v], x) == DueOf(cfg, threads[t], t, values, x)
    ensures Simulates(cfg, values[o := v], owner, threads[t := th], serial)
  {
    var values' := values[o := v];
    forall x | 0 <= x < |values|
      ensures serial[x] == values'[x] + DueFrom(cfg, threads[t := th], values', owner[x], x)
    {
      assert x != o ==> DueOf(cfg, th, t, values', x) == DueOf(cfg, threads[t], t, values, x);
      var u := owner[x];
      if u != t && 0 <= u < |threads| && Running(cfg, threads[u], u) && threads[u].pc.Check? {
        var from := CallOf(cfg, threads[u], u).from;
        assert from in HeldBy(cfg, threads[u], u) && from < |owner| && owner[from] == u;
      }
    }
  }

  lemma LogStep(cfg: Config, s: State, t: nat)
    requires Inv(cfg, s) && CanStep(cfg, s, t) && Step(cfg, s, t).log != s.log
    ensures var s' := Step(cfg, s, t); Simulates(cfg, s'.values, s'.owner, s'.threads, Serial(cfg.initial, s'.log))
  {
    var s' := Step(cfg, s, t);
    var th, c, serial := s.threads[t], CallOf(cfg, s.threads[t], t), Serial(cfg.initial, s.log);
    assert ThreadOk(cfg, th, t, s.values, Project(s.log, t), Codes(cfg.initial, s.log, t));
    SerialAppend(cfg.initial, s.log, Entry(t, c), t);
    if th.pc.HaveFirst? {
      assert First(cfg.ids, c) in HeldBy(cfg, th, t);
      LogSimulates(cfg, s.values, s.owner, s.threads, t, s'.threads[t], Second(cfg.ids, c), serial);
    } else {
      QuietSimulates(cfg, s.values, s.owner, s.owner, s.threads, t, s'.threads[t], serial);
    }
  }

  lemma UpdateStep(cfg: Config, s: State, t: nat)
    requires Inv(cfg, s) && CanStep(cfg, s, t) && (s.threads[t].pc.Subtract? || s.threads[t].pc.AddTo?)
    ensures var s' := Step(cfg, s, t); Simulates(cfg, s'.values, s'.owner, s'.threads, Serial(cfg.initial, s'.log))
  {
    var s' := Step(cfg, s, t);
    var th, c := s.threads[t], CallOf(cfg, s.threads[t], t);
    assert ThreadOk(cfg, th, t, s.values, Project(s.log, t), Codes(cfg.initial, s.log, t));
    var o := if th.pc.Subtract? then c.from else c.to;
    assert o in HeldBy(cfg, th, t);
    UpdateSimulates(cfg, s.values, s.owner, s.threads, t, s'.threads[t], o, s'.values[o], Serial(cfg.initial, s.log));
  }

  lemma QuietStep(cfg: Config, s: State, t: nat)
    requires Inv(cfg, s) && CanStep(cfg, s, t) && Step(cfg, s, t).log == s.log && Step(cfg, s, t).values == s.values
    requires !s.threads[t].pc.Subtract? && !s.threads[t].pc.AddTo?
    ensures var s' := Step(cfg, s, t); Simulates(cfg, s'.values, s'.owner, s'.threads, Serial(cfg.initial, s'.log))
  {
    var s' := Step(cfg, s, t);
    var th, c := s.threads[t], CallOf(cfg, s.threads[t], t);
    assert ThreadOk(cfg, th, t, s.values, Project(s.log, t), Codes(cfg.initial, s.log, t));
    if th.pc.UnlockSecond? {
      assert Second(cfg.ids, c) in HeldBy(cfg, th, t);
    } else if th.pc.UnlockFirst? {
      assert First(cfg.ids, c) in HeldBy(cfg, th, t);
    }
    QuietSimulates(cfg, s.values, s.owner, s'.owner, s.threads, t, s'.threads[t], Serial(cfg.initial, s.log));
  }

  /** Logging the current call, with the code it is going to return. */
  lemma LoggedThread(cfg: Config, th: Thread, th': Thread, t: nat, values: seq<int>, calls: seq<Call>,
                     codes: seq<int>, rc: int)
    requires t < |cfg.program| && Running(cfg, th, t) && ThreadOk(cfg, th, t, values, calls, codes) && !Logged(th.pc)
    requires var c := CallOf(cfg, th, t);
             || th' == Return(th, rc)
             || (th' == th.(pc := Check) && Expected(c, Check, values) == rc && c.amount > 0 && c.from != c.to)
    ensures ThreadOk(cfg, th', t, values, calls + [CallOf(cfg, th, t)], codes + [rc])
  {
    assert cfg.program[t][..th.done] + [CallOf(cfg, th, t)] == cfg.program[t][..th.done + 1];
  }

  lemma ReturnsAtOnce(cfg: Config, s: State, t: nat)
    requires WellShaped(cfg, s) && CanStep(cfg, s, t)
    requires ThreadOk(cfg, s.threads[t], t, s.values, Project(s.log, t), Codes(cfg.initial, s.log, t))
    requires s.threads[t].pc.Start? && NeedsNoLock(CallOf(cfg, s.threads[t], t))
    ensures var s' := Step(cfg, s, t);
            ThreadOk(cfg, s'.threads[t], t, s'.values, Project(s'.log, t), Codes(cfg.initial, s'.log, t))
  {
    var th, c := s.threads[t], CallOf(cfg, s.threads[t], t);
    SerialAppend(cfg.initial, s.log, Entry(t, c), t);
    var rc := Outcome(Serial(cfg.initial, s.log), c);
    LoggedThread(cfg, th, Return(th, rc), t, s.values, Project(s.log, t), Codes(cfg.initial, s.log, t), rc);
  }

  lemma TakesSecondLock(cfg: Config, s: State, t: nat)
    requires WellShaped(cfg, s) && CanStep(cfg, s, t)
    requires ThreadOk(cfg, s.threads[t], t, s.values, Project(s.log, t), Codes(cfg.initial, s.log, t))
    requires s.threads[t].pc.HaveFirst?
    requires Serial(cfg.initial, s.log)[CallOf(cfg, s.threads[t], t).from]
              == s.values[CallOf(cfg, s.threads[t], t).from]
    ensures var s' := Step(cfg, s, t);
            ThreadOk(cfg, s'.threads[t], t, s'.values, Project(s'.log, t), Codes(cfg.initial, s'.log, t))
  {
    var th, c := s.threads[t], CallOf(cfg, s.threads[t], t);
    SerialAppend(cfg.initial, s.log, Entry(t, c), t);
    var rc := Outcome(Serial(cfg.initial, s.log), c);
    assert PcOk(c, th.pc, s.values) && Expected(c, Check, s.values) == rc;
    assert Step(cfg, s, t).log == s.log + [Entry(t, c)];
    LoggedThread(cfg, th, th.(pc := Check), t, s.values, Project(s.log, t), Codes(cfg.initial, s.log, t), rc);
  }

  lemma KeepsGoing(cfg: Config, s: State, t: nat)
    requires WellShaped(cfg, s) && CanStep(cfg, s, t)
    requires ThreadOk(cfg, s.threads[t], t, s.values, Project(s.log, t), Codes(cfg.initial, s.log, t))
    requires Step(cfg, s, t).log == s.log && !s.threads[t].pc.HaveFirst?
    requires s.threads[t].pc.Start? ==> !NeedsNoLock(CallOf(cfg, s.threads[t], t))
    ensures var s' := Step(cfg, s, t);
            ThreadOk(cfg, s'.threads[t], t, s'.values, Project(s'.log, t), Codes(cfg.initial, s'.log, t))
  {}

  lemma StepOwnThread(cfg: Config, s: State, t: nat)
    requires Inv(cfg, s) && CanStep(cfg, s, t)
    ensures var s' := Step(cfg, s, t);
            ThreadOk(cfg, s'.threads[t], t, s'.values, Project(s'.log, t), Codes(cfg.initial, s'.log, t))
  {
    assert ThreadOk(cfg, s.threads[t], t, s.values, Project(s.log, t), Codes(cfg.initial, s.log, t));
    if s.threads[t].pc.Start? && NeedsNoLock(CallOf(cfg, s.threads[t], t)) {
      ReturnsAtOnce(cfg, s, t);
    } else if s.threads[t].pc.HaveFirst? {
      LockedIsSettled(cfg, s, t);
      TakesSecondLock(cfg, s, t);
    } else {
      KeepsGoing(cfg, s, t);
    }
  }

  /** When the second lock is about to be taken, the source counter has no pending call. */
  lemma LockedIsSettled(cfg: Config, s: State, t: nat)
    requires Inv(cfg, s) && CanStep(cfg, s, t) && s.threads[t].pc.HaveFirst?
    ensures var c := CallOf(cfg, s.threads[t], t); Serial(cfg.initial, s.log)[c.from] == s.values[c.from]
  {
    var c := CallOf(cfg, s.threads[t], t);
    assert First(cfg.ids, c) in HeldBy(cfg, s.threads[t], t);
  }

  /** What a thread has established survives changes to counters it has not locked. */
  lemma OtherThread(cfg: Config, th: Thread, t: nat, values: seq<int>, values': seq<int>, calls: seq<Call>,
                    codes: seq<int>)
    requires t < |cfg.program| && ThreadOk(cfg, th, t, values, calls, codes) && |values'| == |values|
    requires Running(cfg, th, t) && HasBoth(th.pc) ==>
               var from := CallOf(cfg, th, t).from; from < |values| && values'[from] == values[from]
    ensures ThreadOk(cfg, th, t, values', calls, codes)
  {}

  lemma StepOtherThread(cfg: Config, s: State, t: nat, u: nat)
    requires WellShaped(cfg, s) && CanStep(cfg, s, t) && LocksOk(cfg, s.owner, s.threads) && u < |s.threads| && u != t
    requires ThreadOk(cfg, s.threads[u], u, s.values, Project(s.log, u), Codes(cfg.initial, s.log, u))
    ensures var s' := Step(cfg, s, t);
            ThreadOk(cfg, s'.threads[u], u, s'.values, Project(s'.log, u), Codes(cfg.initial, s'.log, u))
  {
    var s' := Step(cfg, s, t);
    var e := Entry(t, CallOf(cfg, s.threads[t], t));
    SerialAppend(cfg.initial, s.log, e, u);
    assert s'.log == s.log || s'.log == s.log + [e];
    if HasBoth(s.threads[u].pc) {
      UpdateIsPrivate(cfg, s, t, u);
    }
    OtherThread(cfg, s.threads[u], u, s.values, s'.values, Project(s.log, u), Codes(cfg.initial, s.log, u));
  }

  /** A step of `t` does not change a counter that `u` has locked. */
  lemma UpdateIsPrivate(cfg: Config, s: State, t: nat, u: nat)
    requires WellShaped(cfg, s) && CanStep(cfg, s, t) && LocksOk(cfg, s.owner, s.threads) && u < |s.threads| && u != t
    requires Running(cfg, s.threads[u], u) && HasBoth(s.threads[u].pc)
    ensures var from := CallOf(cfg, s.threads[u], u).from; Step(cfg, s, t).values[from] == s.values[from]
  {
    var c, from := CallOf(cfg, s.threads[t], t), CallOf(cfg, s.threads[u], u).from;
    assert from in HeldBy(cfg, s.threads[u], u) && s.owner[from] == u;
    if HasBoth(s.threads[t].pc) {
      assert c.from in HeldBy(cfg, s.threads[t], t) && s.owner[c.from] == t;
      assert c.to in HeldBy(cfg, s.threads[t], t) && s.owner[c.to] == t;
    }
  }

  lemma StepThreads(cfg: Config, s: State, t: nat)
    requires Inv(cfg, s) && CanStep(cfg, s, t)
    ensures ThreadsOk(cfg, Step(cfg, s, t))
  {
    var s' := Step(cfg, s, t);
    forall u | 0 <= u < |s'.threads| && u < |cfg.program|
      ensures ThreadOk(cfg, s'.threads[u], u, s'.values, Project(s'.log, u), Codes(cfg.initial, s'.log, u))
    {
      if u == t {
        StepOwnThread(cfg, s, t);
      } else {
        assert ThreadOk(cfg, s.threads[u], u, s.values, Project(s.log, u), Codes(cfg.initial, s.log, u));
        StepOtherThread(cfg, s, t, u);
      }
    }
  }

  lemma StepSimulates(cfg: Config, s: State, t: nat)
    requires Inv(cfg, s) && CanStep(cfg, s, t)
    ensures var s' := Step(cfg, s, t); Simulates(cfg, s'.values, s'.owner, s'.threads, Serial(cfg.initial, s'.log))
  {
    if Step(cfg, s, t).log != s.log {
      LogStep(cfg, s, t);
    } else if s.threads[t].pc.Subtract? || s.threads[t].pc.AddTo? {
      UpdateStep(cfg, s, t);
    } else {
      QuietStep(cfg, s, t);
    }
  }

  lemma OwnPcOk(cfg: Config, s: State, t: nat)
    requires Inv(cfg, s) && CanStep(cfg, s, t)
    ensures PcOk(CallOf(cfg, s.threads[t], t), s.threads[t].pc, s.values)
  {
    assert ThreadOk(cfg, s.threads[t], t, s.values, Project(s.log, t), Codes(cfg.initial, s.log, t));
  }

  lemma StepInv(cfg: Config, s: State, t: nat)
    requires Inv(cfg, s) && CanStep(cfg, s, t)
    ensures Inv(cfg, Step(cfg, s, t))
  {
    OwnPcOk(cfg, s, t);
    StepLocks(cfg, s, t);
    StepThreads(cfg, s, t);
    StepSimulates(cfg, s, t);
  }

  // ---------------------------------------------------------------------------------------------
  // Conservation and bounds
  // ---------------------------------------------------------------------------------------------

  function Identity(v: int): int { v }

  /** The amount a thread has subtracted and not yet added. */
  function InFlight(th: Thread): int { if th.pc.AddTo? then th.pc.inFlight else 0 }

  function Total(values: seq<int>): int { Sum(values, Identity) }

  ghost predicate Conserved(cfg: Config, s: State) {
    Total(s.values) + Sum(s.threads, InFlight) == Total(cfg.initial)
  }

  ghost predicate NonNegative(s: State) {
    && (forall o :: 0 <= o < |s.values| ==> 0 <= s.values[o])
    && (forall t :: 0 <= t < |s.threads| ==> 0 <= InFlight(s.threads[t]))
  }

  lemma StepConserves(cfg: Config, s: State, t: nat)
    requires Inv(cfg, s) && CanStep(cfg, s, t) && Conserved(cfg, s)
    ensures Conserved(cfg, Step(cfg, s, t))
  {
    var s' := Step(cfg, s, t);
    var c := CallOf(cfg, s.threads[t], t);
    assert ThreadOk(cfg, s.threads[t], t, s.values, Project(s.log, t), Codes(cfg.initial, s.log, t));
    SumUpdate(s.threads, t, s'.threads[t], InFlight);
    SumUpdate(s.values, c.from, s'.values[c.from], Identity);
    SumUpdate(s.values, c.to, s'.values[c.to], Identity);
  }

  lemma StepNonNegative(cfg: Config, s: State, t: nat)
    requires WellShaped(cfg, s) && CanStep(cfg, s, t) && NonNegative(s)
    requires PcOk(CallOf(cfg, s.threads[t], t), s.threads[t].pc, s.values)
    ensures NonNegative(Step(cfg, s, t))
  {
    assert 0 <= InFlight(s.threads[t]);
  }

  lemma {:induction false} NothingInFlight(threads: seq<Thread>)
    requires forall th :: th in threads ==> InFlight(th) == 0
    ensures Sum(threads, InFlight) == 0
  {
    SumConstant(threads, InFlight, 0);
  }

  // ---------------------------------------------------------------------------------------------
  // Theorems over all runs
  // ---------------------------------------------------------------------------------------------

  lemma {:induction false} RunInv(cfg: Config, run: seq<State>, schedule: seq<nat>, k: nat)
    requires IsRun(cfg, run, schedule) && k < |run|
    ensures Inv(cfg, run[k]) && Conserved(cfg, run[k])
  {
    if k == 0 {
      InitInv(cfg);
      NothingInFlight(run[0].threads);
    } else {
      RunInv(cfg, run, schedule, k - 1);
      StepInv(cfg, run[k - 1], schedule[k - 1]);
      StepConserves(cfg, run[k - 1], schedule[k - 1]);
    }
  }

  lemma {:induction false} RunNonNegative(cfg: Config, run: seq<State>, schedule: seq<nat>, k: nat)
    requires IsRun(cfg, run, schedule) && k < |run|
    requires forall o :: 0 <= o < |cfg.initial| ==> 0 <= cfg.initial[o]
    ensures NonNegative(run[k])
  {
    if k > 0 {
      var s, t := run[k - 1], schedule[k - 1];
      RunNonNegative(cfg, run, schedule, k - 1);
      RunInv(cfg, run, schedule, k - 1);
      assert ThreadOk(cfg, s.threads[t], t, s.values, Project(s.log, t), Codes(cfg.initial, s.log, t));
      StepNonNegative(cfg, s, t);
    }
  }

  /** At every step the total is the initial one, up to amounts subtracted and not yet added; when no
      thread is between the two updates it is exactly the initial total. */
  lemma TotalIsConserved(cfg: Config, run: seq<State>, schedule: seq<nat>, k: nat)
    requires IsRun(cfg, run, schedule) && k < |run|
    ensures Total(run[k].values) + Sum(run[k].threads, InFlight) == Total(cfg.initial)
    ensures (forall th :: th in run[k].threads ==> !th.pc.AddTo?) ==> Total(run[k].values) == Total(cfg.initial)
  {
    RunInv(cfg, run, schedule, k);
    if forall th :: th in run[k].threads ==> !th.pc.AddTo? {
      NothingInFlight(run[k].threads);
    }
  }

  /** Counters that start non-negative with a total of at most 2^63 - 1 never go negative and never
      overflow, not even in the addition a thread is about to make. */
  lemma NeverOverflows(cfg: Config, run: seq<State>, schedule: seq<nat>, k: nat, o: nat, t: nat)
    requires IsRun(cfg, run, schedule) && k < |run| && o < |cfg.initial| && t < |run[k].threads|
    requires forall x :: 0 <= x < |cfg.initial| ==> 0 <= cfg.initial[x]
    requires Total(cfg.initial) <= 0x7FFF_FFFF_FFFF_FFFF
    ensures 0 <= run[k].values[o] <= run[k].values[o] + InFlight(run[k].threads[t]) <= 0x7FFF_FFFF_FFFF_FFFF
  {
    RunInv(cfg, run, schedule, k);
    RunNonNegative(cfg, run, schedule, k);
    ElementAtMostSum(run[k].values, o, Identity);
    ElementAtMostSum(run[k].threads, t, InFlight);
  }

  ghost predicate Finished(cfg: Config, s: State)
    requires WellShaped(cfg, s)
  {
    forall t :: 0 <= t < |s.threads| ==> !Running(cfg, s.threads[t], t)
  }

  /** Serialisability: when all threads have finished, the log is an interleaving of their programs,
      the counters are what executing it one whole call at a time gives, and every call has returned
      the code it returns there. */
  lemma FinishedIsSerial(cfg: Config, run: seq<State>, schedule: seq<nat>, k: nat)
    requires IsRun(cfg, run, schedule) && k < |run| && Finished(cfg, run[k])
    ensures run[k].values == Serial(cfg.initial, run[k].log)
    ensures forall t :: 0 <= t < |cfg.program| ==>
              Project(run[k].log, t) == cfg.program[t] && run[k].threads[t].rcs == Codes(cfg.initial, run[k].log, t)
  {
    RunInv(cfg, run, schedule, k);
    var s := run[k];
    forall t | 0 <= t < |cfg.program|
      ensures Project(s.log, t) == cfg.program[t] && s.threads[t].rcs == Codes(cfg.initial, s.log, t)
    {
      assert ThreadOk(cfg, s.threads[t], t, s.values, Project(s.log, t), Codes(cfg.initial, s.log, t));
      assert !Running(cfg, s.threads[t], t);
      assert cfg.program[t][..|cfg.program[t]|] == cfg.program[t];
    }
  }

  /** The lock a thread must take next. */
  ghost function Wants(cfg: Config, s: State, t: nat): (l: int)
    requires WellShaped(cfg, s) && t < |s.threads|
    ensures -1 <= l < |s.owner|
  {
    var th := s.threads[t];
    if !Running(cfg, th, t) then -1
    else if th.pc.Start? && !NeedsNoLock(CallOf(cfg, th, t)) then First(cfg.ids, CallOf(cfg, th, t))
    else if th.pc.HaveFirst? then Second(cfg.ids, CallOf(cfg, th, t))
    else -1
  }

  lemma OrderedById(cfg: Config, s: State) returns (wants: seq<int>)
    requires Inv(cfg, s)
    ensures |wants| == |s.threads| && forall t :: 0 <= t < |wants| ==> wants[t] == Wants(cfg, s, t)
    ensures WellFormed(wants, s.owner) && Ordered(wants, s.owner, (a: nat, b: nat) => Before(cfg.ids, a, b))
  {
    wants := seq(|s.threads|, t requires 0 <= t < |s.threads| => Wants(cfg, s, t));
    forall o | 0 <= o < |s.owner| && s.owner[o] >= 0 && wants[s.owner[o]] >= 0
      ensures Before(cfg.ids, o, wants[s.owner[o]])
    {
      var t := s.owner[o];
      assert ThreadOk(cfg, s.threads[t], t, s.values, Project(s.log, t), Codes(cfg.initial, s.log, t));
      assert o in HeldBy(cfg, s.threads[t], t);
    }
  }

  /** (id, address) order never deadlocks, whether or not ids repeat. */
  lemma IdOrderNeverDeadlocks(cfg: Config, run: seq<State>, schedule: seq<nat>, k: nat)
    requires IsRun(cfg, run, schedule) && k < |run| && !Finished(cfg, run[k])
    ensures exists t :: CanStep(cfg, run[k], t)
  {
    RunInv(cfg, run, schedule, k);
    var s := run[k];
    var t :| 0 <= t < |s.threads| && Running(cfg, s.threads[t], t);
    var wants := OrderedById(cfg, s);
    var u := SomeoneRuns(wants, s.owner, (a: nat, b: nat) => Before(cfg.ids, a, b), t);
    if u != t {
      var o :| 0 <= o < |s.owner| && s.owner[o] == u;
      assert o in HeldBy(cfg, s.threads[u], u);
    }
    assert ThreadOk(cfg, s.threads[u], u, s.values, Project(s.log, u), Codes(cfg.initial, s.log, u));
    assert CanStep(cfg, s, u);
  }

  // ---------------------------------------------------------------------------------------------
  // What a finished run computes, in plain arithmetic
  // ---------------------------------------------------------------------------------------------

  /** The code of a transfer executed alone on `before`. */
  predicate ReturnsCode(before: seq<int>, c: Call, rc: int)
    requires c.from < |before|
  {
    && (rc == -2 <==> c.amount <= 0)
    && (rc == -3 <==> c.amount > 0 && c.from != c.to && before[c.from] < c.amount)
    && (rc == 0 || rc == -2 || rc == -3)
  }

  /** On code 0 between different counters exactly the amount has moved; in every other case nothing has. */
  ghost predicate Moves(before: seq<int>, after: seq<int>, c: Call, rc: int)
    requires c.from < |before| && c.to < |before|
  {
    if rc == 0 && c.from != c.to then
      && |after| == |before|
      && after[c.from] == before[c.from] - c.amount
      && after[c.to] == before[c.to] + c.amount
      && (forall o :: 0 <= o < |before| && o != c.from && o != c.to ==> after[o] == before[o])
    else
      after == before
  }

  ghost predicate Transferred(before: seq<int>, after: seq<int>, c: Call, rc: int) {
    c.from < |before| && c.to < |before| && ReturnsCode(before, c, rc) && Moves(before, after, c, rc)
  }

  /** `states` is a way from `initial` through the calls of the log, one whole call at a time, and `codes`
      lists what the calls return on the way. */
  ghost predicate Executes(initial: seq<int>, log: seq<Entry>, states: seq<seq<int>>, codes: seq<int>) {
    && |states| == |log| + 1 && |codes| == |log| && states[0] == initial
    && forall i :: 0 <= i < |log| ==> Transferred(states[i], states[i + 1], log[i].call, codes[i])
  }

  /** The entries of `codes` that belong to thread t. */
  ghost function CodesOf(log: seq<Entry>, codes: seq<int>, t: nat): seq<int>
    requires |codes| == |log|
  {
    if log == [] then []
    else
      var n := |log| - 1;
      CodesOf(log[..n], codes[..n], t) + (if log[n].t == t then [codes[n]] else [])
  }

  lemma ApplyTransfers(values: seq<int>, c: Call)
    requires c.from < |values| && c.to < |values|
    ensures Transferred(values, Apply(values, c), c, Outcome(values, c))
  {}

  /** Every logged call is one of a thread's program. */
  ghost predicate LogOk(cfg: Config, log: seq<Entry>) {
    forall i :: 0 <= i < |log| ==>
      log[i].t < |cfg.program| && log[i].call.from < |cfg.initial| && log[i].call.to < |cfg.initial|
  }

  lemma StepLog(cfg: Config, s: State, t: nat)
    requires WellShaped(cfg, s) && CanStep(cfg, s, t) && LogOk(cfg, s.log)
    ensures LogOk(cfg, Step(cfg, s, t).log)
  {
    var e := Entry(t, CallOf(cfg, s.threads[t], t));
    assert Step(cfg, s, t).log == s.log || Step(cfg, s, t).log == s.log + [e];
  }

  lemma {:induction false} RunLog(cfg: Config, run: seq<State>, schedule: seq<nat>, k: nat)
    requires IsRun(cfg, run, schedule) && k < |run|
    ensures LogOk(cfg, run[k].log)
  {
    if k > 0 {
      RunLog(cfg, run, schedule, k - 1);
      StepLog(cfg, run[k - 1], schedule[k - 1]);
    }
  }

  lemma {:induction false} SerialExecutes(cfg: Config, log: seq<Entry>) returns (states: seq<seq<int>>, codes: seq<int>)
    requires GoodConfig(cfg) && LogOk(cfg, log)
    ensures Executes(cfg.initial, log, states, codes) && states[|log|] == Serial(cfg.initial, log)
    ensures forall t :: CodesOf(log, codes, t) == Codes(cfg.initial, log, t)
  {
    if log == [] {
      states, codes := [cfg.initial], [];
    } else {
      var n := |log| - 1;
      var before, c := log[..n], log[n].call;
      var s, r := SerialExecutes(cfg, before);
      ApplyTransfers(s[n], c);
      states, codes := s + [Apply(s[n], c)], r + [Outcome(s[n], c)];
      assert codes[..n] == r;
      forall i | 0 <= i < |log| ensures Transferred(states[i], states[i + 1], log[i].call, codes[i]) {
        assert i < n ==> log[i] == before[i];
      }
    }
  }

  /** Serialisability in plain arithmetic: the final balances are reached from the initial ones by whole
      transfers, each of exactly its amount, in an order that respects each thread's program, and every
      thread has been given the codes its calls return on that way. */
  lemma FinishedIsTransferred(cfg: Config, run: seq<State>, schedule: seq<nat>, k: nat)
    returns (states: seq<seq<int>>, codes: seq<int>)
    requires IsRun(cfg, run, schedule) && k < |run| && Finished(cfg, run[k])
    ensures Executes(cfg.initial, run[k].log, states, codes) && states[|run[k].log|] == run[k].values
    ensures forall t :: 0 <= t < |cfg.program| ==>
              && Project(run[k].log, t) == cfg.program[t]
              && run[k].threads[t].rcs == CodesOf(run[k].log, codes, t)
  {
    FinishedIsSerial(cfg, run, schedule, k);
    RunLog(cfg, run, schedule, k);
    states, codes := SerialExecutes(cfg, run[k].log);
  }

  lemma {:induction false} ProjectSome(log: seq<Entry>, i: nat)
    requires i < |log|
    ensures Project(log, log[i].t) != []
  {
    if i < |log| - 1 {
      ProjectSome(log[..|log| - 1], i);
    }
  }

  lemma {:induction false} ProjectAll(log: seq<Entry>, codes: seq<int>, t: nat)
    requires |codes| == |log| && forall i :: 0 <= i < |log| ==> log[i].t == t
    ensures |Project(log, t)| == |log| && forall i :: 0 <= i < |log| ==> Project(log, t)[i] == log[i].call
    ensures CodesOf(log, codes, t) == codes
  {
    if log != [] {
      var n := |log| - 1;
      ProjectAll(log[..n], codes[..n], t);
      assert codes == codes[..n] + [codes[n]];
    }
  }

  /** A program of one transfer: its code and its final balances, written out. */
  lemma OneCall(cfg: Config, run: seq<State>, schedule: seq<nat>, k: nat, t: nat, c: Call)
    requires IsRun(cfg, run, schedule) && k < |run| && Finished(cfg, run[k]) && t < |cfg.program|
    requires forall u :: 0 <= u < |cfg.program| ==> cfg.program[u] == if u == t then [c] else []
    requires c.from < |cfg.initial| && c.to < |cfg.initial|
    ensures c.amount <= 0 ==> run[k].threads[t].rcs == [-2] && run[k].values == cfg.initial
    ensures c.amount > 0 && c.from == c.to ==> run[k].threads[t].rcs == [0] && run[k].values == cfg.initial
    ensures c.amount > 0 && c.from != c.to && cfg.initial[c.from] < c.amount ==>
              run[k].threads[t].rcs == [-3] && run[k].values == cfg.initial
    ensures c.amount > 0 && c.from != c.to && cfg.initial[c.from] >= c.amount ==>
              && run[k].threads[t].rcs == [0]
              && run[k].values[c.from] == cfg.initial[c.from] - c.amount
              && run[k].values[c.to] == cfg.initial[c.to] + c.amount
              && forall o :: 0 <= o < |cfg.initial| && o != c.from && o != c.to ==> run[k].values[o] == cfg.initial[o]
  {
    var log := run[k].log;
    var states, codes := FinishedIsTransferred(cfg, run, schedule, k);
    RunLog(cfg, run, schedule, k);
    forall i | 0 <= i < |log| ensures log[i].t == t {
      ProjectSome(log, i);
    }
    ProjectAll(log, codes, t);
    assert log[0].call == c && Transferred(states[0], states[1], c, codes[0]);
    assert codes == [codes[0]];
  }

  /** Both counters are locked while either is read or changed, and a thread between its two locks holds the
      counter that comes first by id, and by address among equal ids. */
  lemma LocksAreHeld(cfg: Config, run: seq<State>, schedule: seq<nat>, k: nat, t: nat)
    requires IsRun(cfg, run, schedule) && k < |run| && t < |cfg.program| && Running(cfg, run[k].threads[t], t)
    ensures var s, c := run[k], cfg.program[t][run[k].threads[t].done];
            && (s.threads[t].pc.Check? || s.threads[t].pc.Subtract? || s.threads[t].pc.AddTo? ==>
                  s.owner[c.from] == t && s.owner[c.to] == t)
            && (s.threads[t].pc.HaveFirst? ==>
                  c.from != c.to
                  && (cfg.ids[c.from] < cfg.ids[c.to] || (cfg.ids[c.from] == cfg.ids[c.to] && c.from < c.to)
                      ==> s.owner[c.from] == t)
                  && (cfg.ids[c.to] < cfg.ids[c.from] || (cfg.ids[c.to] == cfg.ids[c.from] && c.to < c.from)
                      ==> s.owner[c.to] == t))
  {
    RunInv(cfg, run, schedule, k);
    var s, c := run[k], cfg.program[t][run[k].threads[t].done];
    assert ThreadOk(cfg, s.threads[t], t, s.values, Project(s.log, t), Codes(cfg.initial, s.log, t));
    if HasBoth(s.threads[t].pc) {
      assert c.from in HeldBy(cfg, s.threads[t], t) && c.to in HeldBy(cfg, s.threads[t], t);
    } else if s.threads[t].pc.HaveFirst? {
      assert First(cfg.ids, c) in HeldBy(cfg, s.threads[t], t);
    }
  }
}
