/**
 A clean that runs beside puts. The source copies the live entries before it takes the lock, and takes
 the lock only to switch to the copy. One move is one put, one turn of the copying loop, or the switch;
 a single clean is in progress at a time.
 */
module ConcurrentClean {
  import opened LogStore

  /** `Copying(i, newLog, newIndex)` is a clean that has dealt with the keys below i. */
  datatype Phase = Idle | Copying(i: nat, newLog: seq<Entry>, newIndex: seq<int>)

  datatype State = State(log: seq<Entry>, index: seq<int>, phase: Phase)

  datatype Move = Put(key: nat, value: int) | Start | CopyKey | Switch

  function InitialState(keyRange: nat): State { State([], seq(keyRange, i => -1), Idle) }

  /** Puts have room, which the source leaves to its caller. */
  predicate CanMove(capacity: nat, s: State, m: Move) {
    match m
    case Put(key, _) => key < |s.index| && |s.log| < capacity
    case Start => s.phase.Idle? && !(|s.log| as real < capacity as real * 0.8)
    case CopyKey => s.phase.Copying? && s.phase.i < |s.index| && s.index[s.phase.i] < |s.log|
                    && |s.phase.newIndex| == |s.index|
    case Switch => s.phase.Copying? && s.phase.i == |s.index|
  }

  function DoMove(capacity: nat, s: State, m: Move): State
    requires CanMove(capacity, s, m)
  {
    match m
    case Put(key, value) => s.(log := s.log + [Entry(key, value)], index := s.index[key := |s.log|])
    case Start => s.(phase := Copying(0, [], seq(|s.index|, i => -1)))
    case CopyKey =>
      var (i, newLog, newIndex) := (s.phase.i, s.phase.newLog, s.phase.newIndex);
      if s.index[i] >= 0
      then s.(phase := Copying(i + 1, newLog + [s.log[s.index[i]]], newIndex[i := |newLog|]))
      else s.(phase := Copying(i + 1, newLog, newIndex))
    case Switch => State(s.phase.newLog, s.phase.newIndex, Idle)
  }

  ghost predicate IsRun(capacity: nat, run: seq<State>, moves: seq<Move>) {
    && |run| == |moves| + 1
    && (exists keyRange :: run[0] == InitialState(keyRange))
    && forall k :: 0 <= k < |moves| ==>
        CanMove(capacity, run[k], moves[k]) && run[k + 1] == DoMove(capacity, run[k], moves[k])
  }

  // ---------------------------------------------------------------------------------------------
  // The invariant
  // ---------------------------------------------------------------------------------------------

  /** The copy agrees with itself, and has at most one entry per key that is live by now. */
  ghost predicate CopyOk(index: seq<int>, phase: Phase) {
    phase.Copying? ==>
      && phase.i <= |index| == |phase.newIndex|
      && Agree(phase.newLog, phase.newIndex)
      && (forall k :: phase.i <= k < |index| ==> phase.newIndex[k] == -1)
      && |phase.newLog| <= LiveBelow(index, phase.i)
  }

  ghost predicate Inv(capacity: nat, s: State) {
    Agree(s.log, s.index) && |s.log| <= capacity && CopyOk(s.index, s.phase)
  }

  lemma {:induction false} LiveGrows(index: seq<int>, key: nat, p: nat, n: nat)
    requires n <= |index| && key < |index|
    ensures LiveBelow(index, n) <= LiveBelow(index[key := p], n)
  {
    if n > 0 {
      LiveGrows(index, key, p, n - 1);
    }
  }

  lemma CopyOne(newLog: seq<Entry>, newIndex: seq<int>, i: nat, e: Entry)
    requires Agree(newLog, newIndex) && i < |newIndex| && e.key == i
    ensures Agree(newLog + [e], newIndex[i := |newLog|])
    ensures View(newLog + [e], newIndex[i := |newLog|]) == View(newLog, newIndex)[i := e.value]
  {
    PutView(newLog, newIndex, i, e.value);
  }

  lemma CopyStep(capacity: nat, s: State)
    requires Inv(capacity, s) && CanMove(capacity, s, CopyKey)
    ensures CopyOk(s.index, DoMove(capacity, s, CopyKey).phase)
  {
    var i := s.phase.i;
    if s.index[i] >= 0 {
      CopyOne(s.phase.newLog, s.phase.newIndex, i, s.log[s.index[i]]);
    }
  }

  lemma MoveInv(capacity: nat, s: State, m: Move)
    requires Inv(capacity, s) && CanMove(capacity, s, m)
    ensures Inv(capacity, DoMove(capacity, s, m))
  {
    match m
    case Put(key, value) =>
      PutView(s.log, s.index, key, value);
      if s.phase.Copying? {
        LiveGrows(s.index, key, |s.log|, s.phase.i);
      }
    case Start =>
    case CopyKey => CopyStep(capacity, s);
    case Switch => LiveFitInLog(s.log, s.index, |s.index|);
  }

  lemma {:induction false} RunInv(capacity: nat, run: seq<State>, moves: seq<Move>, k: nat)
    requires IsRun(capacity, run, moves) && k < |run|
    ensures Inv(capacity, run[k])
  {
    if k > 0 {
      RunInv(capacity, run, moves, k - 1);
      MoveInv(capacity, run[k - 1], moves[k - 1]);
    }
  }

  // ---------------------------------------------------------------------------------------------
  // Theorems over all runs
  // ---------------------------------------------------------------------------------------------

  /** The copy never overruns the new log, although puts go on while it is made. */
  lemma CopyNeverOverruns(capacity: nat, run: seq<State>, moves: seq<Move>, k: nat)
    requires IsRun(capacity, run, moves) && k < |run| && run[k].phase.Copying?
    ensures |run[k].phase.newLog| <= |run[k].log| <= capacity
  {
    RunInv(capacity, run, moves, k);
    LiveFitInLog(run[k].log, run[k].index, run[k].phase.i);
  }

  /** What a get of `key` returns. */
  ghost function Read(log: seq<Entry>, index: seq<int>, key: nat): int {
    if key < |index| && 0 <= index[key] < |log| then log[index[key]].value else -1
  }

  ghost function Reads(s: State, key: nat): int { Read(s.log, s.index, key) }

  /** What a get of `key` will return after the switch. */
  ghost function WillRead(s: State, key: nat): int
    requires s.phase.Copying?
  {
    Read(s.phase.newLog, s.phase.newIndex, key)
  }

  datatype Last = None | Some(value: int)

  /** The last value put for `key` by the moves from `c` up to `n`. */
  function LastPut(moves: seq<Move>, c: nat, n: nat, key: nat): Last
    requires c <= n <= |moves|
    decreases n - c
  {
    if c == n then None
    else if moves[n - 1].Put? && moves[n - 1].key == key then Some(moves[n - 1].value)
    else LastPut(moves, c, n - 1, key)
  }

  /** The moves from `c` up to `n` belong to one clean: it neither starts nor ends there. */
  ghost predicate SameClean(moves: seq<Move>, c: nat, n: nat)
    requires n <= |moves|
  {
    forall j :: c <= j < n ==> moves[j].Put? || moves[j].CopyKey?
  }

  lemma StepReads(capacity: nat, s: State, m: Move, key: nat)
    requires Inv(capacity, s) && CanMove(capacity, s, m) && !m.Switch? && key < |s.index|
    ensures Reads(DoMove(capacity, s, m), key) == if m.Put? && m.key == key then m.value else Reads(s, key)
    ensures |DoMove(capacity, s, m).index| == |s.index|
  {
    assert -1 <= s.index[key] < |s.log|;
  }

  /** While one clean goes on, a read returns the last value put, or what it returned before. */
  lemma {:induction false} ReadsFollowPuts(capacity: nat, run: seq<State>, moves: seq<Move>, c: nat, n: nat, key: nat)
    requires IsRun(capacity, run, moves) && c <= n <= |moves| && SameClean(moves, c, n) && key < |run[c].index|
    ensures Reads(run[n], key) == if LastPut(moves, c, n, key).Some? then LastPut(moves, c, n, key).value
              else Reads(run[c], key)
    ensures |run[n].index| == |run[c].index|
    decreases n - c
  {
    if c < n {
      ReadsFollowPuts(capacity, run, moves, c, n - 1, key);
      RunInv(capacity, run, moves, n - 1);
      StepReads(capacity, run[n - 1], moves[n - 1], key);
    }
  }

  /** A key that has been passed is settled: nothing that follows changes what it will be. */
  lemma StepWillRead(capacity: nat, s: State, m: Move, key: nat)
    requires Inv(capacity, s) && CanMove(capacity, s, m) && (m.Put? || m.CopyKey?) && s.phase.Copying?
              && key < s.phase.i
    ensures var s' := DoMove(capacity, s, m);
            s'.phase.Copying? && key < s'.phase.i && WillRead(s', key) == WillRead(s, key)
  {
    assert -1 <= s.phase.newIndex[key] < |s.phase.newLog|;
  }

  /** Passing a key copies what a read of it returns at that moment. */
  lemma PassCopies(capacity: nat, s: State)
    requires Inv(capacity, s) && CanMove(capacity, s, CopyKey)
    ensures var s' := DoMove(capacity, s, CopyKey);
            s'.phase.Copying? && s'.phase.i == s.phase.i + 1 && WillRead(s', s.phase.i) == Reads(s, s.phase.i)
  {
    assert -1 <= s.index[s.phase.i] < |s.log| && s.phase.newIndex[s.phase.i] == -1;
  }

  lemma {:induction false} PassedIsSettled(capacity: nat, run: seq<State>, moves: seq<Move>, c: nat, n: nat)
    requires IsRun(capacity, run, moves) && c < n <= |moves| && moves[c].CopyKey? && SameClean(moves, c, n)
    ensures run[n].phase.Copying? && run[c].phase.i < run[n].phase.i
    ensures WillRead(run[n], run[c].phase.i) == Reads(run[c], run[c].phase.i)
    decreases n - c
  {
    if c + 1 == n {
      RunInv(capacity, run, moves, c);
      PassCopies(capacity, run[c]);
    } else {
      PassedIsSettled(capacity, run, moves, c, n - 1);
      RunInv(capacity, run, moves, n - 1);
      StepWillRead(capacity, run[n - 1], moves[n - 1], run[c].phase.i);
    }
  }

  /** "A clean changes no read" is false beside puts. When the clean that passed a key with move c switches
      with move n, a read of the key goes back to what it was at c. The switch changes the read exactly
      when the key was put in between and the last such put is not what the loop had copied. */
  lemma SwitchLosesIff(capacity: nat, run: seq<State>, moves: seq<Move>, c: nat, n: nat)
    requires IsRun(capacity, run, moves) && c < n < |moves| && SameClean(moves, c, n)
    requires moves[c].CopyKey? && moves[n].Switch?
    ensures var key := run[c].phase.i;
            && Reads(run[n + 1], key) == Reads(run[c], key)
            && (Reads(run[n + 1], key) != Reads(run[n], key)
                <==> LastPut(moves, c, n, key).Some? && LastPut(moves, c, n, key).value != Reads(run[c], key))
  {
    var key := run[c].phase.i;
    PassedIsSettled(capacity, run, moves, c, n);
    ReadsFollowPuts(capacity, run, moves, c, n, key);
  }

  /** One more move makes a longer run. */
  lemma Extend(capacity: nat, run: seq<State>, moves: seq<Move>, m: Move, s: State)
    requires IsRun(capacity, run, moves) && CanMove(capacity, run[|moves|], m)
    requires s == DoMove(capacity, run[|moves|], m)
    ensures IsRun(capacity, run + [s], moves + [m])
  {
    var keyRange :| run[0] == InitialState(keyRange);
    assert (run + [s])[0] == InitialState(keyRange);
  }

  lemma FourPuts() returns (run: seq<State>, moves: seq<Move>)
    ensures IsRun(5, run, moves) && |run| == 5
    ensures run[4] == State([Entry(0, 1), Entry(0, 1), Entry(0, 1), Entry(0, 1)], [3], Idle)
  {
    var e := Entry(0, 1);
    moves := [Put(0, 1), Put(0, 1), Put(0, 1), Put(0, 1)];
    run := [InitialState(1), State([e], [0], Idle), State([e, e], [1], Idle), State([e, e, e], [2], Idle),
            State([e, e, e, e], [3], Idle)];
  }

  /** A run that loses a put: with room for five entries and one key, four puts of 1, a clean that copies
      the key, a put of 9, the switch. The 9 is read before the switch and 1 after it. */
  lemma LostPut() returns (run: seq<State>, moves: seq<Move>)
    ensures IsRun(5, run, moves) && |run| == 9 && moves[7] == Switch
    ensures Reads(run[7], 0) == 9 && Reads(run[8], 0) == 1
  {
    var e := Entry(0, 1);
    run, moves := FourPuts();
    var s5, s6 := State(run[4].log, [3], Copying(0, [], [-1])), State(run[4].log, [3], Copying(1, [e], [0]));
    var s7, s8 := State(run[4].log + [Entry(0, 9)], [4], Copying(1, [e], [0])), State([e], [0], Idle);
    assert DoMove(5, run[4], Start).phase.newIndex == [-1];
    Extend(5, run, moves, Start, s5);
    run, moves := run + [s5], moves + [Start];
    assert DoMove(5, s5, CopyKey).phase.newLog == [e] && DoMove(5, s5, CopyKey).phase.newIndex == [0];
    Extend(5, run, moves, CopyKey, s6);
    run, moves := run + [s6], moves + [CopyKey];
    assert DoMove(5, s6, Put(0, 9)).index == [4];
    Extend(5, run, moves, Put(0, 9), s7);
    run, moves := run + [s7], moves + [Put(0, 9)];
    Extend(5, run, moves, Switch, s8);
    run, moves := run + [s8], moves + [Switch];
  }
}
