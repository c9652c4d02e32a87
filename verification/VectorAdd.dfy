/**
 Two deadlock-free versions of `vector_add(dst, src)`: locks taken in address order, and locks taken
 in argument order under a global acquisition lock.

 Any number of threads each run a list of calls on any number of vectors. One step is one lock, one
 unlock or one element update, so calls interleave element by element. A vector is its position in
 the vector array, so address order is the order of positions.
 */
module VectorAdd {
  import opened LockOrder

  datatype Protocol = ByAddress | UnderGlobal

  datatype Call = Call(dst: nat, src: nat)

  /** The calls of every thread and the vectors' initial contents. */
  datatype Config = Config(proto: Protocol, size: nat, program: seq<seq<Call>>, initial: seq<seq<int>>)

  datatype Pc =
    | Start          // holds nothing
    | HaveGlobal     // holds the global lock only
    | HaveFirst      // holds the first vector lock (and the global lock, under that protocol)
    | HaveAll        // holds everything; the global lock is released next
    | Adding(i: nat) // holds the vector locks; element i is next
    | UnlockLast     // one vector lock left to release

  datatype Thread = Thread(done: nat, pc: Pc)

  datatype Entry = Entry(t: nat, call: Call)

  /** `log` is history: the calls in the order in which they obtained their last lock. */
  datatype State = State(values: seq<seq<int>>, owner: seq<int>, global: int, threads: seq<Thread>, log: seq<Entry>)

  ghost predicate GoodConfig(cfg: Config) {
    && (forall o :: 0 <= o < |cfg.initial| ==> |cfg.initial[o]| == cfg.size)
    && (forall t, c :: 0 <= t < |cfg.program| && 0 <= c < |cfg.program[t]| ==>
          cfg.program[t][c].dst < |cfg.initial| && cfg.program[t][c].src < |cfg.initial|)
  }

  /** C `int` addition, as two's complement. */
  function Add(a: int, b: int): int { (a + b + 0x8000_0000) % 0x1_0000_0000 - 0x8000_0000 }

  function PointwiseAdd(a: seq<int>, b: seq<int>): (r: seq<int>)
    requires |a| == |b|
    ensures |r| == |a| && forall j :: 0 <= j < |a| ==> r[j] == Add(a[j], b[j])
  {
    seq(|a|, j requires 0 <= j < |a| => Add(a[j], b[j]))
  }

  // ---------------------------------------------------------------------------------------------
  // The serial reference
  // ---------------------------------------------------------------------------------------------

  ghost predicate Shaped(values: seq<seq<int>>, n: nat, size: nat) {
    |values| == n && forall o :: 0 <= o < n ==> |values[o]| == size
  }

  /** One whole call, executed alone. */
  ghost function Apply(values: seq<seq<int>>, call: Call): seq<seq<int>> {
    if call.dst < |values| && call.src < |values| && |values[call.dst]| == |values[call.src]|
    then values[call.dst := PointwiseAdd(values[call.dst], values[call.src])]
    else values
  }

  /** The logged calls executed one after the other. */
  ghost function Serial(initial: seq<seq<int>>, log: seq<Entry>): seq<seq<int>> {
    if log == [] then initial else Apply(Serial(initial, log[..|log| - 1]), log[|log| - 1].call)
  }

  /** The calls of thread `t` in the log, in log order. */
  ghost function Project(log: seq<Entry>, t: nat): seq<Call> {
    if log == [] then []
    else Project(log[..|log| - 1], t) + (if log[|log| - 1].t == t then [log[|log| - 1].call] else [])
  }

  lemma SerialAppend(initial: seq<seq<int>>, log: seq<Entry>, e: Entry)
    ensures Serial(initial, log + [e]) == Apply(Serial(initial, log), e.call)
    ensures forall t :: Project(log + [e], t) == Project(log, t) + (if e.t == t then [e.call] else [])
  {
    assert (log + [e])[..|log|] == log;
  }

  // ---------------------------------------------------------------------------------------------
  // The machine
  // ---------------------------------------------------------------------------------------------

  function First(proto: Protocol, c: Call): nat {
    if proto.UnderGlobal? || c.dst < c.src then c.dst else c.src
  }

  function Second(proto: Protocol, c: Call): nat {
    if proto.UnderGlobal? || c.dst < c.src then c.src else c.dst
  }

  /** The vector lock released first, and the one released last. */
  function ReleasedFirst(proto: Protocol, c: Call): nat { if proto.UnderGlobal? then c.dst else c.src }

  function ReleasedLast(proto: Protocol, c: Call): nat { if proto.UnderGlobal? then c.src else c.dst }

  ghost predicate WellShaped(cfg: Config, s: State) {
    && GoodConfig(cfg)
    && Shaped(s.values, |cfg.initial|, cfg.size)
    && |s.owner| == |cfg.initial| && |s.threads| == |cfg.program|
  }

  predicate Running(cfg: Config, th: Thread, t: nat) {
    t < |cfg.program| && th.done < |cfg.program[t]|
  }

  function CallOf(cfg: Config, th: Thread, t: nat): Call
    requires Running(cfg, th, t)
  {
    cfg.program[t][th.done]
  }

  ghost predicate CanStep(cfg: Config, s: State, t: nat)
    requires WellShaped(cfg, s)
  {
    && t < |s.threads| && Running(cfg, s.threads[t], t)
    && var c := CallOf(cfg, s.threads[t], t);
       match s.threads[t].pc
       case Start => if cfg.proto.UnderGlobal? then s.global == -1 else s.owner[First(cfg.proto, c)] == -1
       case HaveGlobal => s.owner[First(cfg.proto, c)] == -1
       case HaveFirst => s.owner[Second(cfg.proto, c)] == -1
       case _ => true
  }

  ghost function Step(cfg: Config, s: State, t: nat): (s': State)
    requires WellShaped(cfg, s) && CanStep(cfg, s, t)
    ensures WellShaped(cfg, s')
  {
    var th := s.threads[t];
    var c := CallOf(cfg, th, t);
    match th.pc
    case Start =>
      if cfg.proto.UnderGlobal? then s.(global := t, threads := s.threads[t := th.(pc := HaveGlobal)])
      else if c.dst == c.src then
        s.(owner := s.owner[c.src := t], threads := s.threads[t := th.(pc := Adding(0))], log := s.log + [Entry(t, c)])
      else s.(owner := s.owner[First(cfg.proto, c) := t], threads := s.threads[t := th.(pc := HaveFirst)])
    case HaveGlobal => s.(owner := s.owner[First(cfg.proto, c) := t], threads := s.threads[t := th.(pc := HaveFirst)])
    case HaveFirst =>
      s.(owner := s.owner[Second(cfg.proto, c) := t], log := s.log + [Entry(t, c)],
         threads := s.threads[t := th.(pc := if cfg.proto.UnderGlobal? then HaveAll else Adding(0))])
    case HaveAll => s.(global := -1, threads := s.threads[t := th.(pc := Adding(0))])
    case Adding(i) =>
      if i < cfg.size then
        s.(values := s.values[c.dst := s.values[c.dst][i := Add(s.values[c.dst][i], s.values[c.src][i])]],
           threads := s.threads[t := th.(pc := Adding(i + 1))])
      else
        s.(owner := s.owner[ReleasedFirst(cfg.proto, c) := -1],
           threads := s.threads[t := if c.dst == c.src then Thread(th.done + 1, Start) else th.(pc := UnlockLast)])
    case UnlockLast =>
      s.(owner := s.owner[ReleasedLast(cfg.proto, c) := -1], threads := s.threads[t := Thread(th.done + 1, Start)])
  }

  ghost function InitialState(cfg: Config): State {
    State(cfg.initial, seq(|cfg.initial|, o => -1), -1, seq(|cfg.program|, t => Thread(0, Start)), [])
  }

  ghost predicate IsRun(cfg: Config, run: seq<State>, schedule: seq<nat>) {
    && GoodConfig(cfg) && |run| == |schedule| + 1
    && run[0] == InitialState(cfg)
    && (forall k :: 0 <= k < |run| ==> WellShaped(cfg, run[k]))
    && forall k :: 0 <= k < |schedule| ==>
         CanStep(cfg, run[k], schedule[k]) && run[k + 1] == Step(cfg, run[k], schedule[k])
  }

  // ---------------------------------------------------------------------------------------------
  // The invariant
  // ---------------------------------------------------------------------------------------------

  predicate Logged(pc: Pc) { pc.HaveAll? || pc.Adding? || pc.UnlockLast? }

  predicate HoldsGlobal(proto: Protocol, pc: Pc) {
    proto.UnderGlobal? && (pc.HaveGlobal? || pc.HaveFirst? || pc.HaveAll?)
  }

  function Held(proto: Protocol, c: Call, pc: Pc): set<nat> {
    match pc
    case HaveFirst => {First(proto, c)}
    case HaveAll => {c.dst, c.src}
    case Adding(_) => {c.dst, c.src}
    case UnlockLast => {ReleasedLast(proto, c)}
    case _ => {}
  }

  function HeldBy(cfg: Config, th: Thread, t: nat): set<nat> {
    if Running(cfg, th, t) then Held(cfg.proto, CallOf(cfg, th, t), th.pc) else {}
  }

  /** A vector's owner is exactly the thread whose position says it holds that lock. */
  ghost predicate LocksOk(cfg: Config, owner: seq<int>, threads: seq<Thread>) {
    && (forall o :: 0 <= o < |owner| ==>
        owner[o] == -1 || (0 <= owner[o] < |threads| && o in HeldBy(cfg, threads[owner[o]], owner[o])))
    && (forall t, o :: 0 <= t < |threads| && 0 <= o < |owner| && o in HeldBy(cfg, threads[t], t) ==> owner[o] == t)
  }

  ghost predicate GlobalOk(cfg: Config, global: int, threads: seq<Thread>) {
    && (global == -1 || (0 <= global < |threads| && HoldsGlobal(cfg.proto, threads[global].pc)))
    && (forall t :: 0 <= t < |threads| && HoldsGlobal(cfg.proto, threads[t].pc) ==> global == t)
  }

  /** Where a thread can be. */
  ghost predicate PcOk(cfg: Config, th: Thread, t: nat) {
    && (!th.pc.Start? ==> Running(cfg, th, t))
    && (th.pc.HaveGlobal? || th.pc.HaveAll? ==> cfg.proto.UnderGlobal?)
    && (th.pc.HaveFirst? && cfg.proto.ByAddress? ==> CallOf(cfg, th, t).dst != CallOf(cfg, th, t).src)
    && (th.pc.Adding? ==> th.pc.i <= cfg.size)
    && (th.pc.UnlockLast? || (cfg.proto.UnderGlobal? && Logged(th.pc)) ==>
        CallOf(cfg, th, t).dst != CallOf(cfg, th, t).src)
  }

  /** Element j of vector o once the call that is adding to o, if any, has finished. */
  ghost function Target(cfg: Config, values: seq<seq<int>>, threads: seq<Thread>, owner: int, o: nat, j: nat): int
    requires GoodConfig(cfg) && Shaped(values, |cfg.initial|, cfg.size) && o < |values| && j < cfg.size
  {
    if 0 <= owner < |threads| && AddsTo(cfg, threads[owner], owner, o, j)
    then Add(values[o][j], values[CallOf(cfg, threads[owner], owner).src][j])
    else values[o][j]
  }

  /** The thread's current call has yet to add element j to vector o. */
  predicate AddsTo(cfg: Config, th: Thread, t: nat, o: nat, j: nat) {
    Running(cfg, th, t) && CallOf(cfg, th, t).dst == o && (th.pc.HaveAll? || (th.pc.Adding? && th.pc.i <= j))
  }

  /** Every vector, once its pending call has finished, is what the serial execution of the log gives. */
  ghost predicate Simulates(cfg: Config, values: seq<seq<int>>, owner: seq<int>, threads: seq<Thread>,
                            serial: seq<seq<int>>)
    requires GoodConfig(cfg) && Shaped(values, |cfg.initial|, cfg.size) && |owner| == |values|
  {
    && Shaped(serial, |cfg.initial|, cfg.size)
    && forall o, j :: 0 <= o < |values| && 0 <= j < cfg.size ==>
         serial[o][j] == Target(cfg, values, threads, owner[o], o, j)
  }

  /** The log holds exactly the calls of thread `t` that have obtained all their locks, in order. */
  ghost predicate ThreadOk(cfg: Config, th: Thread, t: nat, logged: seq<Call>)
    requires t < |cfg.program|
  {
    && th.done <= |cfg.program[t]| && PcOk(cfg, th, t)
    && logged == cfg.program[t][..th.done + if Logged(th.pc) then 1 else 0]
  }

  ghost predicate ProgramOrder(cfg: Config, threads: seq<Thread>, log: seq<Entry>) {
    forall t :: 0 <= t < |threads| && t < |cfg.program| ==> ThreadOk(cfg, threads[t], t, Project(log, t))
  }

  ghost predicate Inv(cfg: Config, s: State) {
    && WellShaped(cfg, s)
    && LocksOk(cfg, s.owner, s.threads)
    && GlobalOk(cfg, s.global, s.threads)
    && Simulates(cfg, s.values, s.owner, s.threads, Serial(cfg.initial, s.log))
    && ProgramOrder(cfg, s.threads, s.log)
  }

  lemma InitInv(cfg: Config)
    requires GoodConfig(cfg)
    ensures Inv(cfg, InitialState(cfg))
  {}

  lemma AcquireKeepsLocks(cfg: Config, owner: seq<int>, threads: seq<Thread>, t: nat, o: nat, th: Thread)
    requires LocksOk(cfg, owner, threads) && t < |threads| && o < |owner| && owner[o] == -1
    requires HeldBy(cfg, th, t) == HeldBy(cfg, threads[t], t) + {o}
    ensures LocksOk(cfg, owner[o := t], threads[t := th])
  {
    forall x | 0 <= x < |owner| && owner[x] == t ensures x in HeldBy(cfg, th, t) {
      assert x in HeldBy(cfg, threads[t], t);
    }
  }

  lemma ReleaseKeepsLocks(cfg: Config, owner: seq<int>, threads: seq<Thread>, t: nat, o: nat, th: Thread)
    requires LocksOk(cfg, owner, threads) && t < |threads| && o < |owner| && o in HeldBy(cfg, threads[t], t)
    requires HeldBy(cfg, th, t) == HeldBy(cfg, threads[t], t) - {o}
    ensures LocksOk(cfg, owner[o := -1], threads[t := th])
  {
    assert owner[o] == t;
    forall x | 0 <= x < |owner| && x != o && owner[x] == t ensures x in HeldBy(cfg, th, t) {
      assert x in HeldBy(cfg, threads[t], t);
    }
  }

  lemma StepLocks(cfg: Config, s: State, t: nat)
    requires WellShaped(cfg, s) && CanStep(cfg, s, t) && PcOk(cfg, s.threads[t], t)
    requires LocksOk(cfg, s.owner, s.threads)
    ensures LocksOk(cfg, Step(cfg, s, t).owner, Step(cfg, s, t).threads)
  {
    var c := CallOf(cfg, s.threads[t], t);
    var th := Step(cfg, s, t).threads[t];
    match s.threads[t].pc
    case Start =>
      if cfg.proto.ByAddress? {
        AcquireKeepsLocks(cfg, s.owner, s.threads, t, First(cfg.proto, c), th);
      }
    case HaveGlobal => AcquireKeepsLocks(cfg, s.owner, s.threads, t, First(cfg.proto, c), th);
    case HaveFirst => AcquireKeepsLocks(cfg, s.owner, s.threads, t, Second(cfg.proto, c), th);
    case HaveAll =>
    case Adding(i) =>
      if i == cfg.size {
        ReleaseKeepsLocks(cfg, s.owner, s.threads, t, ReleasedFirst(cfg.proto, c), th);
      }
    case UnlockLast => ReleaseKeepsLocks(cfg, s.owner, s.threads, t, ReleasedLast(cfg.proto, c), th);
  }

  lemma StepGlobal(cfg: Config, s: State, t: nat)
    requires WellShaped(cfg, s) && CanStep(cfg, s, t) && PcOk(cfg, s.threads[t], t)
    requires GlobalOk(cfg, s.global, s.threads)
    ensures GlobalOk(cfg, Step(cfg, s, t).global, Step(cfg, s, t).threads)
  {}

  lemma StepPc(cfg: Config, s: State, t: nat)
    requires WellShaped(cfg, s) && CanStep(cfg, s, t) && LocksOk(cfg, s.owner, s.threads) && PcOk(cfg, s.threads[t], t)
    ensures PcOk(cfg, Step(cfg, s, t).threads[t], t)
  {
    if s.threads[t].pc.HaveFirst? {
      assert First(cfg.proto, CallOf(cfg, s.threads[t], t)) in HeldBy(cfg, s.threads[t], t);
    }
  }

  /** The step that takes the last lock logs the call. */
  lemma LoggingThread(cfg: Config, s: State, t: nat)
    requires WellShaped(cfg, s) && CanStep(cfg, s, t) && Step(cfg, s, t).log != s.log
    requires ThreadOk(cfg, s.threads[t], t, Project(s.log, t)) && PcOk(cfg, Step(cfg, s, t).threads[t], t)
    ensures ThreadOk(cfg, Step(cfg, s, t).threads[t], t, Project(Step(cfg, s, t).log, t))
  {
    var n, e := s.threads[t].done, Entry(t, CallOf(cfg, s.threads[t], t));
    SerialAppend(cfg.initial, s.log, e);
    assert cfg.program[t][..n] + [e.call] == cfg.program[t][..n + 1];
    assert Step(cfg, s, t).log == s.log + [e] && Step(cfg, s, t).threads[t].done == n;
  }

  lemma QuietThread(cfg: Config, s: State, t: nat)
    requires WellShaped(cfg, s) && CanStep(cfg, s, t) && Step(cfg, s, t).log == s.log
    requires ThreadOk(cfg, s.threads[t], t, Project(s.log, t)) && PcOk(cfg, Step(cfg, s, t).threads[t], t)
    ensures ThreadOk(cfg, Step(cfg, s, t).threads[t], t, Project(s.log, t))
  {}

  lemma StepThread(cfg: Config, s: State, t: nat)
    requires WellShaped(cfg, s) && CanStep(cfg, s, t) && LocksOk(cfg, s.owner, s.threads)
    requires ThreadOk(cfg, s.threads[t], t, Project(s.log, t))
    ensures ThreadOk(cfg, Step(cfg, s, t).threads[t], t, Project(Step(cfg, s, t).log, t))
  {
    StepPc(cfg, s, t);
    if Step(cfg, s, t).log != s.log {
      LoggingThread(cfg, s, t);
    } else {
      QuietThread(cfg, s, t);
    }
  }

  /** A step logs nothing for another thread. */
  lemma StepOtherThread(cfg: Config, s: State, t: nat, u: nat)
    requires WellShaped(cfg, s) && CanStep(cfg, s, t) && u < |s.threads| && u != t
    ensures Step(cfg, s, t).threads[u] == s.threads[u] && Project(Step(cfg, s, t).log, u) == Project(s.log, u)
  {
    SerialAppend(cfg.initial, s.log, Entry(t, CallOf(cfg, s.threads[t], t)));
  }

  lemma StepOrder(cfg: Config, s: State, t: nat)
    requires WellShaped(cfg, s) && CanStep(cfg, s, t) && LocksOk(cfg, s.owner, s.threads)
    requires ProgramOrder(cfg, s.threads, s.log)
    ensures ProgramOrder(cfg, Step(cfg, s, t).threads, Step(cfg, s, t).log)
  {
    var s' := Step(cfg, s, t);
    StepThread(cfg, s, t);
    forall u | 0 <= u < |s'.threads| && u != t ensures ThreadOk(cfg, s'.threads[u], u, Project(s'.log, u)) {
      assert ThreadOk(cfg, s.threads[u], u, Project(s.log, u));
      StepOtherThread(cfg, s, t, u);
    }
  }

  /** Steps that neither log nor update: no element's target changes. */
  lemma QuietSimulates(cfg: Config, values: seq<seq<int>>, owner: seq<int>, owner': seq<int>, threads: seq<Thread>,
                       t: nat, th: Thread, serial: seq<seq<int>>)
    requires GoodConfig(cfg) && Shaped(values, |cfg.initial|, cfg.size) && |owner| == |owner'| == |values|
              && t < |threads|
    requires Simulates(cfg, values, owner, threads, serial) && LocksOk(cfg, owner, threads)
    requires forall o: nat, j: nat :: j < cfg.size ==> AddsTo(cfg, th, t, o, j) == AddsTo(cfg, threads[t], t, o, j)
    requires forall o: nat, j: nat :: j < cfg.size && AddsTo(cfg, threads[t], t, o, j) ==> th.done == threads[t].done
    requires forall o: nat, j: nat :: o < |owner| && j < cfg.size && owner'[o] != owner[o] ==>
              !AddsTo(cfg, threads[t], t, o, j)
    requires forall o: nat :: o < |owner| && owner'[o] != owner[o] ==>
               (owner[o] == -1 || owner[o] == t) && (owner'[o] == -1 || owner'[o] == t)
    ensures Simulates(cfg, values, owner', threads[t := th], serial)
  {
    forall o, j | 0 <= o < |values| && 0 <= j < cfg.size
      ensures Target(cfg, values, threads[t := th], owner'[o], o, j) == Target(cfg, values, threads, owner[o], o, j)
    {
      assert AddsTo(cfg, th, t, o, j) == AddsTo(cfg, threads[t], t, o, j);
    }
  }

  /** The last lock: the serial execution runs the whole call now, the threads have it all to do. */
  lemma LogSimulates(cfg: Config, values: seq<seq<int>>, owner: seq<int>, threads: seq<Thread>,
                     t: nat, th: Thread, last: nat, serial: seq<seq<int>>)
    requires GoodConfig(cfg) && Shaped(values, |cfg.initial|, cfg.size) && |owner| == |values| && t < |threads|
    requires Simulates(cfg, values, owner, threads, serial) && LocksOk(cfg, owner, threads)
    requires Running(cfg, th, t) && (th.pc == HaveAll || th.pc == Adding(0)) && last < |owner| && owner[last] == -1
    requires var c := CallOf(cfg, th, t); owner[last := t][c.dst] == t && owner[last := t][c.src] == t
    requires forall o: nat, j: nat :: j < cfg.size ==> !AddsTo(cfg, threads[t], t, o, j)
    ensures Simulates(cfg, values, owner[last := t], threads[t := th], Apply(serial, CallOf(cfg, th, t)))
  {
    var c := CallOf(cfg, th, t);
    var serial' := Apply(serial, c);
    assert c.dst < |values| && c.src < |values|;
    forall o, j | 0 <= o < |values| && 0 <= j < cfg.size
      ensures serial'[o][j] == Target(cfg, values, threads[t := th], owner[last := t][o], o, j)
    {
      assert !AddsTo(cfg, threads[t], t, o, j) && !AddsTo(cfg, threads[t], t, c.src, j);
      assert serial[c.src][j] == Target(cfg, values, threads, owner[c.src], c.src, j);
      assert serial[o][j] == Target(cfg, values, threads, owner[o], o, j);
    }
  }

  /** One element update brings the vectors one element closer to their targets. */
  lemma AddSimulates(cfg: Config, values: seq<seq<int>>, owner: seq<int>, threads: seq<Thread>,
                     t: nat, th: Thread, serial: seq<seq<int>>)
    requires GoodConfig(cfg) && Shaped(values, |cfg.initial|, cfg.size) && |owner| == |values| && t < |threads|
    requires Simulates(cfg, values, owner, threads, serial) && LocksOk(cfg, owner, threads)
    requires threads[t] == th && Running(cfg, th, t) && th.pc.Adding? && th.pc.i < cfg.size
    ensures var c, i := CallOf(cfg, th, t), th.pc.i;
            var values' := values[c.dst := values[c.dst][i := Add(values[c.dst][i], values[c.src][i])]];
            Simulates(cfg, values', owner, threads[t := th.(pc := Adding(i + 1))], serial)
  {
    var c, i := CallOf(cfg, th, t), th.pc.i;
    var values' := values[c.dst := values[c.dst][i := Add(values[c.dst][i], values[c.src][i])]];
    var threads' := threads[t := th.(pc := Adding(i + 1))];
    assert c.dst in HeldBy(cfg, th, t) && c.dst < |owner| && owner[c.dst] == t;
    forall o, j | 0 <= o < |values| && 0 <= j < cfg.size
      ensures Target(cfg, values', threads', owner[o], o, j) == Target(cfg, values, threads, owner[o], o, j)
    {
      var u := owner[o];
      if u != t && 0 <= u < |threads| && AddsTo(cfg, threads[u], u, o, j) {
        var src := CallOf(cfg, threads[u], u).src;
        assert src in HeldBy(cfg, threads[u], u) && src < |owner| && owner[src] == u;
      }
    }
  }

  lemma LogStep(cfg: Config, s: State, t: nat)
    requires WellShaped(cfg, s) && CanStep(cfg, s, t) && LocksOk(cfg, s.owner, s.threads)
    requires Simulates(cfg, s.values, s.owner, s.threads, Serial(cfg.initial, s.log))
    requires Step(cfg, s, t).log != s.log
    ensures var s' := Step(cfg, s, t);
            Simulates(cfg, s'.values, s'.owner, s'.threads, Serial(cfg.initial, s'.log))
  {
    var th, c := s.threads[t], CallOf(cfg, s.threads[t], t);
    SerialAppend(cfg.initial, s.log, Entry(t, c));
    if th.pc.HaveFirst? {
      assert First(cfg.proto, c) in HeldBy(cfg, th, t);
    }
    LogSimulates(cfg, s.values, s.owner, s.threads, t, Step(cfg, s, t).threads[t], Second(cfg.proto, c),
        Serial(cfg.initial, s.log));
  }

  lemma QuietStep(cfg: Config, s: State, t: nat)
    requires WellShaped(cfg, s) && CanStep(cfg, s, t) && LocksOk(cfg, s.owner, s.threads) && PcOk(cfg, s.threads[t], t)
    requires Simulates(cfg, s.values, s.owner, s.threads, Serial(cfg.initial, s.log))
    requires Step(cfg, s, t).log == s.log
    requires s.threads[t].pc.Adding? ==> s.threads[t].pc.i == cfg.size
    ensures var s' := Step(cfg, s, t);
            Simulates(cfg, s'.values, s'.owner, s'.threads, Serial(cfg.initial, s'.log))
  {
    var s' := Step(cfg, s, t);
    QuietOwners(cfg, s, t);
    QuietSimulates(cfg, s.values, s.owner, s'.owner, s.threads, t, s'.threads[t], Serial(cfg.initial, s.log));
  }

  lemma StepSimulates(cfg: Config, s: State, t: nat)
    requires WellShaped(cfg, s) && CanStep(cfg, s, t) && LocksOk(cfg, s.owner, s.threads) && PcOk(cfg, s.threads[t], t)
    requires Simulates(cfg, s.values, s.owner, s.threads, Serial(cfg.initial, s.log))
    ensures var s' := Step(cfg, s, t);
            Simulates(cfg, s'.values, s'.owner, s'.threads, Serial(cfg.initial, s'.log))
  {
    var pc := s.threads[t].pc;
    if Step(cfg, s, t).log != s.log {
      LogStep(cfg, s, t);
    } else if pc.Adding? && pc.i < cfg.size {
      AddSimulates(cfg, s.values, s.owner, s.threads, t, s.threads[t], Serial(cfg.initial, s.log));
    } else {
      QuietStep(cfg, s, t);
    }
  }

  lemma QuietOwners(cfg: Config, s: State, t: nat)
    requires WellShaped(cfg, s) && CanStep(cfg, s, t) && LocksOk(cfg, s.owner, s.threads) && PcOk(cfg, s.threads[t], t)
    requires Step(cfg, s, t).log == s.log
    requires s.threads[t].pc.Adding? ==> s.threads[t].pc.i == cfg.size
    ensures var owner' := Step(cfg, s, t).owner;
            forall o: nat :: o < |s.owner| && owner'[o] != s.owner[o] ==>
              (s.owner[o] == -1 || s.owner[o] == t) && (owner'[o] == -1 || owner'[o] == t)
  {
    var th, c := s.threads[t], CallOf(cfg, s.threads[t], t);
    if th.pc.Adding? {
      assert ReleasedFirst(cfg.proto, c) in HeldBy(cfg, th, t);
    } else if th.pc.UnlockLast? {
      assert ReleasedLast(cfg.proto, c) in HeldBy(cfg, th, t);
    }
  }

  lemma StepInv(cfg: Config, s: State, t: nat)
    requires Inv(cfg, s) && CanStep(cfg, s, t)
    ensures Inv(cfg, Step(cfg, s, t))
  {
    assert ThreadOk(cfg, s.threads[t], t, Project(s.log, t));
    StepLocks(cfg, s, t);
    StepGlobal(cfg, s, t);
    StepOrder(cfg, s, t);
    StepSimulates(cfg, s, t);
  }

  // ---------------------------------------------------------------------------------------------
  // Theorems over all runs
  // ---------------------------------------------------------------------------------------------

  lemma {:induction false} RunInv(cfg: Config, run: seq<State>, schedule: seq<nat>, k: nat)
    requires IsRun(cfg, run, schedule) && k < |run|
    ensures Inv(cfg, run[k])
  {
    if k == 0 {
      InitInv(cfg);
    } else {
      RunInv(cfg, run, schedule, k - 1);
      StepInv(cfg, run[k - 1], schedule[k - 1]);
    }
  }

  ghost predicate Finished(cfg: Config, s: State)
    requires WellShaped(cfg, s)
  {
    forall t :: 0 <= t < |s.threads| ==> !Running(cfg, s.threads[t], t)
  }

  /** Serialisability: the log is an interleaving of the threads' programs, and when all threads have
      finished the vectors are what executing its calls one whole call at a time gives. */
  lemma FinishedIsSerial(cfg: Config, run: seq<State>, schedule: seq<nat>, k: nat)
    requires IsRun(cfg, run, schedule) && k < |run| && Finished(cfg, run[k])
    ensures run[k].values == Serial(cfg.initial, run[k].log)
    ensures forall t :: 0 <= t < |cfg.program| ==> Project(run[k].log, t) == cfg.program[t]
  {
    RunInv(cfg, run, schedule, k);
    var s := run[k];
    var serial := Serial(cfg.initial, s.log);
    forall o | 0 <= o < |s.values| ensures s.values[o] == serial[o] {
      forall j | 0 <= j < cfg.size ensures s.values[o][j] == serial[o][j] {
        assert serial[o][j] == Target(cfg, s.values, s.threads, s.owner[o], o, j);
      }
    }
    forall t | 0 <= t < |cfg.program| ensures Project(s.log, t) == cfg.program[t] {
      assert ThreadOk(cfg, s.threads[t], t, Project(s.log, t));
      assert !Running(cfg, s.threads[t], t);
      assert cfg.program[t][..|cfg.program[t]|] == cfg.program[t];
    }
  }

  /** Mid-run, too: a vector that nobody has locked agrees with the serial execution of the log. */
  lemma UnlockedIsSerial(cfg: Config, run: seq<State>, schedule: seq<nat>, k: nat, o: nat)
    requires IsRun(cfg, run, schedule) && k < |run| && o < |cfg.initial| && run[k].owner[o] == -1
    ensures o < |Serial(cfg.initial, run[k].log)| && run[k].values[o] == Serial(cfg.initial, run[k].log)[o]
  {
    RunInv(cfg, run, schedule, k);
    var s := run[k];
    var serial := Serial(cfg.initial, s.log);
    forall j | 0 <= j < cfg.size ensures s.values[o][j] == serial[o][j] {
      assert serial[o][j] == Target(cfg, s.values, s.threads, s.owner[o], o, j);
    }
  }

  /** The lock a thread must take next. */
  ghost function Wants(cfg: Config, s: State, t: nat): (l: int)
    requires WellShaped(cfg, s) && t < |s.threads|
    ensures -1 <= l < |s.owner|
  {
    var th := s.threads[t];
    if !Running(cfg, th, t) then -1
    else if th.pc.Start? || th.pc.HaveGlobal? then First(cfg.proto, CallOf(cfg, th, t))
    else if th.pc.HaveFirst? then Second(cfg.proto, CallOf(cfg, th, t))
    else -1
  }

  lemma OrderedByAddress(cfg: Config, s: State) returns (wants: seq<int>)
    requires Inv(cfg, s) && cfg.proto.ByAddress?
    ensures |wants| == |s.threads| && forall t :: 0 <= t < |wants| ==> wants[t] == Wants(cfg, s, t)
    ensures WellFormed(wants, s.owner) && Ordered(wants, s.owner, (a: nat, b: nat) => a < b)
  {
    wants := seq(|s.threads|, t requires 0 <= t < |s.threads| => Wants(cfg, s, t));
    forall o | 0 <= o < |s.owner| && s.owner[o] >= 0 && wants[s.owner[o]] >= 0 ensures o < wants[s.owner[o]] {
      var t := s.owner[o];
      assert ThreadOk(cfg, s.threads[t], t, Project(s.log, t));
      assert o in HeldBy(cfg, s.threads[t], t);
    }
  }

  /** Address order never deadlocks: while a thread is unfinished, some thread can take a step. */
  lemma AddressOrderNeverDeadlocks(cfg: Config, run: seq<State>, schedule: seq<nat>, k: nat)
    requires IsRun(cfg, run, schedule) && k < |run| && cfg.proto.ByAddress? && !Finished(cfg, run[k])
    ensures exists t :: CanStep(cfg, run[k], t)
  {
    RunInv(cfg, run, schedule, k);
    var s := run[k];
    var t :| 0 <= t < |s.threads| && Running(cfg, s.threads[t], t);
    var wants := OrderedByAddress(cfg, s);
    var u := SomeoneRuns(wants, s.owner, (a: nat, b: nat) => a < b, t);
    if u != t {
      var o :| 0 <= o < |s.owner| && s.owner[o] == u;
      assert o in HeldBy(cfg, s.threads[u], u);
    }
    assert ThreadOk(cfg, s.threads[u], u, Project(s.log, u));
    assert CanStep(cfg, s, u);
  }

  ghost predicate NoSelfAdd(cfg: Config) {
    forall t, c :: 0 <= t < |cfg.program| && 0 <= c < |cfg.program[t]| ==>
        cfg.program[t][c].dst != cfg.program[t][c].src
  }

  /** A thread that must wait for a vector while it holds the global lock waits for a thread that is
      past its acquisitions. */
  lemma GlobalHolderProgress(cfg: Config, s: State) returns (u: nat)
    requires Inv(cfg, s) && cfg.proto.UnderGlobal? && NoSelfAdd(cfg) && s.global >= 0
    ensures CanStep(cfg, s, u)
  {
    var g := s.global;
    assert ThreadOk(cfg, s.threads[g], g, Project(s.log, g));
    var l := Wants(cfg, s, g);
    if l < 0 || s.owner[l] == -1 {
      u := g;
    } else {
      u := s.owner[l];
      assert ThreadOk(cfg, s.threads[u], u, Project(s.log, u));
      assert l in HeldBy(cfg, s.threads[u], u);
    }
  }

  /** Neither does the global acquisition lock, when no call adds a vector to itself. */
  lemma GlobalLockNeverDeadlocks(cfg: Config, run: seq<State>, schedule: seq<nat>, k: nat)
    requires IsRun(cfg, run, schedule) && k < |run| && cfg.proto.UnderGlobal? && !Finished(cfg, run[k])
    requires NoSelfAdd(cfg)
    ensures exists t :: CanStep(cfg, run[k], t)
  {
    RunInv(cfg, run, schedule, k);
    var s := run[k];
    var t :| 0 <= t < |s.threads| && Running(cfg, s.threads[t], t);
    assert ThreadOk(cfg, s.threads[t], t, Project(s.log, t));
    if s.global >= 0 {
      var u := GlobalHolderProgress(cfg, s);
    } else {
      assert CanStep(cfg, s, t);
    }
  }

  // ---------------------------------------------------------------------------------------------
  // The condition is exact: a self-add deadlocks the global-lock protocol
  // ---------------------------------------------------------------------------------------------

  ghost predicate Reachable(cfg: Config, s: State) {
    exists run, schedule :: IsRun(cfg, run, schedule) && run[|run| - 1] == s
  }

  /** One more step makes a longer run. */
  lemma Extend(cfg: Config, run: seq<State>, schedule: seq<nat>, t: nat, s: State)
    requires IsRun(cfg, run, schedule) && CanStep(cfg, run[|schedule|], t) && s == Step(cfg, run[|schedule|], t)
    ensures IsRun(cfg, run + [s], schedule + [t])
  {}

  lemma ReachableStep(cfg: Config, s: State, t: nat)
    requires Reachable(cfg, s) && WellShaped(cfg, s) && CanStep(cfg, s, t)
    ensures Reachable(cfg, Step(cfg, s, t)) && Inv(cfg, s)
  {
    var run, schedule :| IsRun(cfg, run, schedule) && run[|run| - 1] == s;
    RunInv(cfg, run, schedule, |run| - 1);
    Extend(cfg, run, schedule, t, Step(cfg, s, t));
    assert (run + [Step(cfg, s, t)])[|run|] == Step(cfg, s, t);
  }

  /** Only thread `t` has moved. */
  ghost predicate Alone(cfg: Config, s: State, t: nat) {
    t < |s.threads| && forall u :: 0 <= u < |s.threads| && u != t ==> s.threads[u] == Thread(0, Start)
  }

  function Remaining(size: nat, pc: Pc): nat {
    match pc
    case Start => size + 5
    case HaveGlobal => size + 4
    case HaveFirst => size + 3
    case HaveAll => size + 2
    case Adding(i) => if i <= size then size + 1 - i else 0
    case UnlockLast => 0
  }

  /** A thread on its own is only ever stopped by a self-add. */
  lemma AloneCanStep(cfg: Config, s: State, t: nat)
    requires Inv(cfg, s) && Alone(cfg, s, t) && cfg.proto.UnderGlobal? && Running(cfg, s.threads[t], t)
    ensures CanStep(cfg, s, t)
       <==> !(s.threads[t].pc.HaveFirst? && CallOf(cfg, s.threads[t], t).dst == CallOf(cfg, s.threads[t], t).src)
  {
    assert ThreadOk(cfg, s.threads[t], t, Project(s.log, t));
    var c := CallOf(cfg, s.threads[t], t);
    if s.threads[t].pc.HaveFirst? {
      assert c.dst in HeldBy(cfg, s.threads[t], t);
    }
  }

  lemma StepAdvances(cfg: Config, s: State, t: nat)
    requires Inv(cfg, s) && CanStep(cfg, s, t)
    ensures var th, th' := s.threads[t], Step(cfg, s, t).threads[t];
            || (th'.done == th.done && Remaining(cfg.size, th'.pc) < Remaining(cfg.size, th.pc))
            || th' == Thread(th.done + 1, Start)
  {
    assert ThreadOk(cfg, s.threads[t], t, Project(s.log, t));
  }

  /** Running thread `t` alone brings it to its first self-add, `m`, and there it stops. */
  lemma {:induction false} DriveTo(cfg: Config, s: State, t: nat, m: nat) returns (s': State)
    requires Reachable(cfg, s) && Inv(cfg, s) && Alone(cfg, s, t) && cfg.proto.UnderGlobal?
    requires t < |cfg.program| && m < |cfg.program[t]| && cfg.program[t][m].dst == cfg.program[t][m].src
    requires forall c :: 0 <= c < m ==> cfg.program[t][c].dst != cfg.program[t][c].src
    requires s.threads[t].done <= m
    ensures Reachable(cfg, s') && Inv(cfg, s') && Alone(cfg, s', t) && s'.threads[t] == Thread(m, HaveFirst)
    decreases m - s.threads[t].done, Remaining(cfg.size, s.threads[t].pc)
  {
    assert ThreadOk(cfg, s.threads[t], t, Project(s.log, t));
    AloneCanStep(cfg, s, t);
    if s.threads[t] == Thread(m, HaveFirst) {
      s' := s;
    } else {
      assert CanStep(cfg, s, t);
      ReachableStep(cfg, s, t);
      StepInv(cfg, s, t);
      StepAdvances(cfg, s, t);
      s' := DriveTo(cfg, Step(cfg, s, t), t, m);
    }
  }

  lemma {:induction false} FirstSelfAdd(calls: seq<Call>, c: nat) returns (m: nat)
    requires c < |calls| && calls[c].dst == calls[c].src
    ensures m < |calls| && calls[m].dst == calls[m].src
    ensures forall d :: 0 <= d < m ==> calls[d].dst != calls[d].src
  {
    if d: nat :| d < c && calls[d].dst == calls[d].src {
      m := FirstSelfAdd(calls, d);
    } else {
      m := c;
    }
  }

  /** The global-lock protocol can deadlock exactly when some call adds a vector to itself. */
  lemma GlobalLockDeadlocksIff(cfg: Config)
    requires GoodConfig(cfg) && cfg.proto.UnderGlobal?
    ensures NoSelfAdd(cfg) <==>
            forall s :: Reachable(cfg, s) && WellShaped(cfg, s) && !Finished(cfg, s) ==> exists t :: CanStep(cfg, s, t)
  {
    if NoSelfAdd(cfg) {
      forall s | Reachable(cfg, s) && WellShaped(cfg, s) && !Finished(cfg, s) ensures exists t :: CanStep(cfg, s, t) {
        var run, schedule :| IsRun(cfg, run, schedule) && run[|run| - 1] == s;
        GlobalLockNeverDeadlocks(cfg, run, schedule, |run| - 1);
      }
    } else {
      var t, c :| 0 <= t < |cfg.program| && 0 <= c < |cfg.program[t]| && cfg.program[t][c].dst == cfg.program[t][c].src;
      var m := FirstSelfAdd(cfg.program[t], c);
      var s0 := InitialState(cfg);
      InitInv(cfg);
      assert IsRun(cfg, [s0], []) && [s0][|[s0]| - 1] == s0;
      var s := DriveTo(cfg, s0, t, m);
      assert ThreadOk(cfg, s.threads[t], t, Project(s.log, t));
      assert Running(cfg, s.threads[t], t);
      assert s.global == t;
      AloneCanStep(cfg, s, t);
      forall u: nat ensures !CanStep(cfg, s, u) {
      }
    }
  }

  // ---------------------------------------------------------------------------------------------
  // What a finished run computes, in plain arithmetic
  // ---------------------------------------------------------------------------------------------

  /** `r` is what C leaves in an int for a + b: in range, and off by a multiple of 2^32. */
  predicate IntSum(r: int, a: int, b: int) {
    -0x8000_0000 <= r < 0x8000_0000 && (r - (a + b)) % 0x1_0000_0000 == 0
  }

  /** The machine's addition is that sum, and the plain sum whenever it fits. */
  lemma AddIsIntSum(a: int, b: int)
    ensures IntSum(Add(a, b), a, b)
    ensures -0x8000_0000 <= a + b < 0x8000_0000 ==> Add(a, b) == a + b
  {
    var x := a + b + 0x8000_0000;
    assert x == 0x1_0000_0000 * (x / 0x1_0000_0000) + x % 0x1_0000_0000;
    assert Add(a, b) - (a + b) == 0x1_0000_0000 * -(x / 0x1_0000_0000);
  }

  /** There is only one such sum. */
  lemma IntSumIsUnique(r: int, r': int, a: int, b: int)
    requires IntSum(r, a, b) && IntSum(r', a, b)
    ensures r == r'
    ensures -0x8000_0000 <= a + b < 0x8000_0000 ==> r == a + b
  {}

  /** From `before` to `after`, vector src has been added to vector dst and nothing else has changed. */
  ghost predicate Added(before: seq<seq<int>>, after: seq<seq<int>>, dst: nat, src: nat) {
    && |after| == |before| && dst < |before| && src < |before| && |before[dst]| == |before[src]|
    && (forall o :: 0 <= o < |before| && o != dst ==> after[o] == before[o])
    && |after[dst]| == |before[dst]|
    && forall j :: 0 <= j < |before[dst]| ==> IntSum(after[dst][j], before[dst][j], before[src][j])
  }

  /** `states` is a way from `initial` through the calls of the log, one whole call at a time. */
  ghost predicate Executes(initial: seq<seq<int>>, log: seq<Entry>, states: seq<seq<seq<int>>>) {
    && |states| == |log| + 1 && states[0] == initial
    && forall i :: 0 <= i < |log| ==> Added(states[i], states[i + 1], log[i].call.dst, log[i].call.src)
  }

  lemma ApplyAdds(values: seq<seq<int>>, c: Call, n: nat, size: nat)
    requires Shaped(values, n, size) && c.dst < n && c.src < n
    ensures Added(values, Apply(values, c), c.dst, c.src) && Shaped(Apply(values, c), n, size)
  {
    forall j | 0 <= j < size ensures IntSum(Apply(values, c)[c.dst][j], values[c.dst][j], values[c.src][j]) {
      AddIsIntSum(values[c.dst][j], values[c.src][j]);
    }
  }

  /** Every logged call is one of a thread's program. */
  ghost predicate LogOk(cfg: Config, log: seq<Entry>) {
    forall i :: 0 <= i < |log| ==>
      log[i].t < |cfg.program| && log[i].call.dst < |cfg.initial| && log[i].call.src < |cfg.initial|
  }

  lemma StepLog(cfg: Config, s: State, t: nat)
    requires WellShaped(cfg, s) && CanStep(cfg, s, t) && LogOk(cfg, s.log)
    ensures LogOk(cfg, Step(cfg, s, t).log)
  {
    var e := Entry(t, CallOf(cfg, s.threads[t], t));
    assert Step(cfg, s, t).log == s.log || Step(cfg, s, t).log == s.log + [e];
  }

  lemma {:induction false} RunLog(cfg: Config, run: seq<State>, schedule: seq<nat>, k: nat)
    requires IsRun(cfg, run, schedule) && k < |run|
    ensures LogOk(cfg, run[k].log)
  {
    if k > 0 {
      RunLog(cfg, run, schedule, k - 1);
      StepLog(cfg, run[k - 1], schedule[k - 1]);
    }
  }

  lemma {:induction false} SerialExecutes(cfg: Config, log: seq<Entry>) returns (states: seq<seq<seq<int>>>)
    requires GoodConfig(cfg) && LogOk(cfg, log)
    ensures Executes(cfg.initial, log, states) && states[|log|] == Serial(cfg.initial, log)
    ensures Shaped(states[|log|], |cfg.initial|, cfg.size)
  {
    if log == [] {
      states := [cfg.initial];
    } else {
      var before, e := log[..|log| - 1], log[|log| - 1];
      var rest := SerialExecutes(cfg, before);
      ApplyAdds(rest[|before|], e.call, |cfg.initial|, cfg.size);
      states := rest + [Apply(rest[|before|], e.call)];
      forall i | 0 <= i < |log| ensures Added(states[i], states[i + 1], log[i].call.dst, log[i].call.src) {
        assert i < |before| ==> log[i] == before[i];
      }
    }
  }

  /** Serialisability in plain arithmetic: the final vectors are reached from the initial ones by adding, call
      by call, the whole source vector to the whole destination vector with C int sums, in an order that
      respects each thread's program. */
  lemma FinishedIsSummed(cfg: Config, run: seq<State>, schedule: seq<nat>, k: nat) returns (states: seq<seq<seq<int>>>)
    requires IsRun(cfg, run, schedule) && k < |run| && Finished(cfg, run[k])
    ensures Executes(cfg.initial, run[k].log, states) && states[|run[k].log|] == run[k].values
    ensures forall t :: 0 <= t < |cfg.program| ==> Project(run[k].log, t) == cfg.program[t]
  {
    FinishedIsSerial(cfg, run, schedule, k);
    RunLog(cfg, run, schedule, k);
    states := SerialExecutes(cfg, run[k].log);
  }

  lemma {:induction false} ProjectSome(log: seq<Entry>, i: nat)
    requires i < |log|
    ensures Project(log, log[i].t) != []
  {
    if i < |log| - 1 {
      ProjectSome(log[..|log| - 1], i);
    }
  }

  lemma {:induction false} ProjectAll(log: seq<Entry>, t: nat)
    requires forall i :: 0 <= i < |log| ==> log[i].t == t
    ensures |Project(log, t)| == |log| && forall i :: 0 <= i < |log| ==> Project(log, t)[i] == log[i].call
  {
    if log != [] {
      ProjectAll(log[..|log| - 1], t);
    }
  }

  /** A program of one call, whose sums fit an int, leaves in dst the sum of dst and src, element by element,
      and every other vector as it was. */
  lemma OneCall(cfg: Config, run: seq<State>, schedule: seq<nat>, k: nat, t: nat, dst: nat, src: nat)
    requires IsRun(cfg, run, schedule) && k < |run| && Finished(cfg, run[k]) && t < |cfg.program|
    requires forall u :: 0 <= u < |cfg.program| ==> cfg.program[u] == if u == t then [Call(dst, src)] else []
    requires dst < |cfg.initial| && src < |cfg.initial|
    requires forall j :: 0 <= j < cfg.size ==> -0x8000_0000 <= cfg.initial[dst][j] + cfg.initial[src][j] < 0x8000_0000
    ensures forall j :: 0 <= j < cfg.size ==> run[k].values[dst][j] == cfg.initial[dst][j] + cfg.initial[src][j]
    ensures forall o :: 0 <= o < |cfg.initial| && o != dst ==> run[k].values[o] == cfg.initial[o]
  {
    var log := run[k].log;
    var states := FinishedIsSummed(cfg, run, schedule, k);
    RunLog(cfg, run, schedule, k);
    forall i | 0 <= i < |log| ensures log[i].t == t {
      ProjectSome(log, i);
    }
    ProjectAll(log, t);
    assert log[0].call == Call(dst, src) && Added(states[0], states[1], dst, src);
    forall j | 0 <= j < cfg.size ensures run[k].values[dst][j] == cfg.initial[dst][j] + cfg.initial[src][j] {
      IntSumIsUnique(states[1][dst][j], states[1][dst][j], cfg.initial[dst][j], cfg.initial[src][j]);
    }
  }

  /** A thread that updates elements holds both vectors' locks, and a thread between its two locks holds the
      one at the lower address (or, under the global lock, the destination's, and the global lock too). */
  lemma LocksAreHeld(cfg: Config, run: seq<State>, schedule: seq<nat>, k: nat, t: nat)
    requires IsRun(cfg, run, schedule) && k < |run| && t < |cfg.program| && Running(cfg, run[k].threads[t], t)
    ensures var s, c := run[k], cfg.program[t][run[k].threads[t].done];
            && (s.threads[t].pc.Adding? ==> s.owner[c.dst] == t && s.owner[c.src] == t)
            && (s.threads[t].pc.HaveFirst? && cfg.proto.ByAddress? ==>
                  c.dst != c.src && s.owner[if c.dst < c.src then c.dst else c.src] == t)
            && (s.threads[t].pc.HaveFirst? && cfg.proto.UnderGlobal? ==> s.global == t && s.owner[c.dst] == t)
  {
    RunInv(cfg, run, schedule, k);
    var s, c := run[k], cfg.program[t][run[k].threads[t].done];
    assert ThreadOk(cfg, s.threads[t], t, Project(s.log, t));
    if s.threads[t].pc.Adding? {
      assert c.dst in HeldBy(cfg, s.threads[t], t) && c.src in HeldBy(cfg, s.threads[t], t);
    } else if s.threads[t].pc.HaveFirst? {
      assert First(cfg.proto, c) in HeldBy(cfg, s.threads[t], t);
    }
  }
}
