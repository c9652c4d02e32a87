/**
 The single-producer single-consumer ring of ten ints with acquire/release indices.

 Memory model. Each atomic index has the list of all values stored to it, in modification order. A
 load returns any entry not older than the last one its thread saw (section 7.17.3 of ISO/IEC
 9899:2011), so visibility may be delayed arbitrarily. A release store records how many plain slot
 accesses its thread had made; the acquire load that reads it makes those accesses known to the
 loading thread (section 5.1.2.4). A plain slot read may return any write to the slot that no known
 write supersedes, including writes it does not know of. Reading the right value is therefore a
 theorem, not a modelling choice.
 */
module SpscRing {

  const RB_LEN: nat := 10
  const DWORD: nat := 0x1_0000_0000_0000_0000

  datatype Write = Write(slot: nat, value: int)

  /** A value stored to an atomic index, and the number of slot accesses made before the store. */
  datatype Msg = Msg(value: nat, known: nat)

  datatype ProducerPc = PLoad | PWrite | PStore

  datatype ConsumerPc = CLoad | CRead | CStore

  /** `slotWrites` and `slotReads` list every plain slot access so far; `heads` and `tails` every store to the
      two atomic indices. `pKnows` (`cKnows`) is how many reads (writes) the producer (consumer) is
      synchronised with. `got` is what the consumer's slot reads returned. */
  datatype State = State(
    slotWrites: seq<Write>, slotReads: seq<nat>, heads: seq<Msg>, tails: seq<Msg>,
    p: ProducerPc, parentCounter: nat, localHead: nat, sawTail: nat, pKnows: nat,
    c: ConsumerPc, childCounter: nat, localTail: nat, sawHead: nat, cKnows: nat,
    entrySum: nat, got: seq<int>)

  /** `view` is the store an atomic load reads from. `w` is the write a slot read returns, where -1
      stands for the zeros of the fresh mapping. */
  datatype Move = Producer(view: nat) | Consumer(view: nat, w: int)

  const INITIAL: State := State([], [], [Msg(0, 0)], [Msg(0, 0)], PLoad, 0, 0, 0, 0, CLoad, 0, 0, 0, 0, 0, [])

  function Max(a: nat, b: nat): nat { if a < b then b else a }

  /** A plain read of `slot` may return write `w`: no later write known to the reader hides it. */
  ghost predicate Readable(s: State, slot: nat, w: int) {
    && -1 <= w < |s.slotWrites|
    && (0 <= w ==> s.slotWrites[w].slot == slot)
    && forall j :: 0 <= j < |s.slotWrites| && w < j < s.cKnows ==> s.slotWrites[j].slot != slot
  }

  ghost predicate CanMove(maxCount: nat, s: State, m: Move) {
    match m
    case Producer(view) =>
      (s.p == PLoad ==> s.parentCounter < maxCount && s.sawTail <= view < |s.tails|)
    case Consumer(view, w) =>
      && (s.c == CLoad ==> s.childCounter < maxCount && s.sawHead <= view < |s.heads|)
      && (s.c == CRead ==> Readable(s, s.localTail, w))
  }

  ghost function DoMove(maxCount: nat, s: State, m: Move): State
    requires CanMove(maxCount, s, m)
  {
    match m
    case Producer(view) => (
      match s.p
      case PLoad =>
        var tail := s.tails[view];
        s.(sawTail := view, pKnows := Max(s.pKnows, tail.known),
           p := if (s.localHead + 1) % RB_LEN != tail.value then PWrite else PLoad)
      case PWrite =>
        s.(slotWrites := s.slotWrites + [Write(s.localHead, s.parentCounter)], parentCounter := s.parentCounter + 1,
           localHead := (s.localHead + 1) % RB_LEN, p := PStore)
      case PStore => s.(heads := s.heads + [Msg(s.localHead, |s.slotWrites|)], p := PLoad))
    case Consumer(view, w) => (
      match s.c
      case CLoad =>
        var head := s.heads[view];
        s.(sawHead := view, cKnows := Max(s.cKnows, head.known),
           c := if s.localTail != head.value then CRead else CLoad)
      case CRead =>
        var v := if w < 0 then 0 else s.slotWrites[w].value;
        s.(slotReads := s.slotReads + [s.localTail], got := s.got + [v], entrySum := (s.entrySum + v) % DWORD,
           childCounter := s.childCounter + 1, localTail := (s.localTail + 1) % RB_LEN, c := CStore)
      case CStore => s.(tails := s.tails + [Msg(s.localTail, |s.slotReads|)], c := CLoad))
  }

  ghost predicate IsRun(maxCount: nat, run: seq<State>, moves: seq<Move>) {
    && |run| == |moves| + 1
    && run[0] == INITIAL
    && forall k :: 0 <= k < |moves| ==>
         CanMove(maxCount, run[k], moves[k]) && run[k + 1] == DoMove(maxCount, run[k], moves[k])
  }

  // ---------------------------------------------------------------------------------------------
  // The invariant
  // ---------------------------------------------------------------------------------------------

  function Slot(j: nat): nat { j % RB_LEN }

  /** The j-th write puts j into slot j mod 10. */
  ghost predicate WritesInOrder(writes: seq<Write>) {
    forall j :: 0 <= j < |writes| ==> writes[j] == Write(Slot(j), j)
  }

  ghost predicate ReadsInOrder(xs: seq<nat>) {
    forall j :: 0 <= j < |xs| ==> xs[j] == Slot(j)
  }

  /** The j-th store publishes exactly the first j slot accesses. */
  ghost predicate StoresInOrder(msgs: seq<Msg>) {
    forall j :: 0 <= j < |msgs| ==> msgs[j] == Msg(Slot(j), j)
  }

  ghost predicate Counting(got: seq<int>) {
    forall j :: 0 <= j < |got| ==> got[j] == j
  }

  /** The local indices are the unbounded counters modulo ten; the producer is never more than nine
      ahead of the tail it has seen, and the consumer never past the head it has seen. */
  ghost predicate Counters(s: State) {
    && s.parentCounter == |s.slotWrites| && s.localHead == Slot(|s.slotWrites|)
    && s.childCounter == |s.slotReads| == |s.got| && s.localTail == Slot(|s.slotReads|)
    && |s.heads| == (if s.p == PStore then |s.slotWrites| else |s.slotWrites| + 1)
    && |s.tails| == (if s.c == CStore then |s.slotReads| else |s.slotReads| + 1)
    && s.pKnows == s.sawTail < |s.tails|
    && s.cKnows == s.sawHead < |s.heads|
    && |s.slotWrites| - s.sawTail <= (if s.p == PWrite then 8 else 9)
    && |s.slotReads| <= (if s.c == CRead then s.sawHead - 1 else s.sawHead)
  }

  ghost predicate Inv(s: State) {
    && Counters(s)
    && WritesInOrder(s.slotWrites) && ReadsInOrder(s.slotReads) && StoresInOrder(s.heads) && StoresInOrder(s.tails)
    && Counting(s.got) && s.entrySum == Triangle(|s.got|) % DWORD
  }

  /** 0 + 1 + ... + (n - 1). */
  function Triangle(n: nat): nat { if n == 0 then 0 else Triangle(n - 1) + (n - 1) }

  lemma ProductAtMost(a: nat, b: nat, c: nat)
    requires a <= c && b <= c
    ensures a * b <= c * c
  {
    assert a * b <= a * c <= c * c;
  }

  lemma TriangleFits(n: nat)
    requires n < 0x1_0000_0000
    ensures Triangle(n) < DWORD
  {
    TriangleClosed(n);
    if n > 0 {
      ProductAtMost(n, n - 1, 0x1_0000_0000);
    }
  }

  lemma SumIsExact(n: nat, sum: nat)
    requires n < 0x1_0000_0000 && sum == Triangle(n) % DWORD
    ensures 2 * sum == n * (n - 1)
  {
    TriangleFits(n);
    SmallRemainder(Triangle(n));
    TriangleClosed(n);
  }

  lemma SmallRemainder(x: nat)
    requires x < DWORD
    ensures x % DWORD == x
  {}

  lemma {:induction false} TriangleClosed(n: nat)
    ensures 2 * Triangle(n) == n * (n - 1)
  {
    if n > 0 {
      TriangleClosed(n - 1);
    }
  }

  /** Within a distance of nine, comparing modulo ten is comparing the unbounded counters. */
  lemma ModTenAgrees(n: nat, m: nat)
    requires m <= n <= m + 9
    ensures Slot(m) == Slot(n) <==> m == n
    ensures (Slot(n) + 1) % RB_LEN == Slot(m) <==> n == m + 9
    ensures (Slot(n) + 1) % RB_LEN == Slot(n + 1)
  {}

  /** The only readable write of the consumer's slot is the one with the consumer's number. */
  lemma ReadIsUnique(s: State, w: int)
    requires Inv(s) && s.c == CRead && Readable(s, s.localTail, w)
    ensures w == |s.slotReads|
  {
    var m := |s.slotReads|;
    assert s.slotWrites[m].slot == Slot(m);
    if w >= 0 {
      assert Slot(w) == Slot(m);
      assert m <= w < m + 10;
    }
  }

  lemma ProducerMove(maxCount: nat, s: State, view: nat)
    requires Inv(s) && CanMove(maxCount, s, Producer(view))
    ensures Inv(DoMove(maxCount, s, Producer(view)))
  {
    if s.p == PLoad {
      ModTenAgrees(|s.slotWrites|, view);
    } else if s.p == PWrite {
      ModTenAgrees(|s.slotWrites|, |s.slotWrites|);
    }
  }

  lemma SumStep(n: nat)
    ensures (Triangle(n) % DWORD + n) % DWORD == Triangle(n + 1) % DWORD
  {}

  lemma ConsumerRead(maxCount: nat, s: State, view: nat, w: int)
    requires Inv(s) && CanMove(maxCount, s, Consumer(view, w)) && s.c == CRead
    ensures Inv(DoMove(maxCount, s, Consumer(view, w)))
  {
    var n := |s.slotReads|;
    ModTenAgrees(n, n);
    ReadIsUnique(s, w);
    assert s.slotWrites[w].value == n;
    SumStep(n);
  }

  lemma ConsumerIndex(maxCount: nat, s: State, view: nat, w: int)
    requires Inv(s) && CanMove(maxCount, s, Consumer(view, w)) && s.c != CRead
    ensures Inv(DoMove(maxCount, s, Consumer(view, w)))
  {
    if s.c == CLoad {
      ModTenAgrees(view, |s.slotReads|);
    }
  }

  // ---------------------------------------------------------------------------------------------
  // Theorems over all runs
  // ---------------------------------------------------------------------------------------------

  lemma {:induction false} RunInv(maxCount: nat, run: seq<State>, moves: seq<Move>, k: nat)
    requires IsRun(maxCount, run, moves) && k < |run|
    ensures Inv(run[k])
  {
    if k > 0 {
      RunInv(maxCount, run, moves, k - 1);
      match moves[k - 1] {
        case Producer(view) => ProducerMove(maxCount, run[k - 1], view);
        case Consumer(view, w) =>
          if run[k - 1].c == CRead {
            ConsumerRead(maxCount, run[k - 1], view, w);
          } else {
            ConsumerIndex(maxCount, run[k - 1], view, w);
          }
      }
    }
  }

  /** Whatever is delayed, the consumer reads exactly 0, 1, 2, ... */
  lemma ReadsCountUp(maxCount: nat, run: seq<State>, moves: seq<Move>, k: nat, j: nat)
    requires IsRun(maxCount, run, moves) && k < |run| && j < |run[k].got|
    ensures run[k].got[j] == j && |run[k].got| == run[k].childCounter
  {
    RunInv(maxCount, run, moves, k);
  }

  /** The slot read returns one value only, and it always returns. */
  lemma ReadIsDetermined(maxCount: nat, run: seq<State>, moves: seq<Move>, k: nat, w: int)
    requires IsRun(maxCount, run, moves) && k < |run| && run[k].c == CRead
    ensures Readable(run[k], run[k].localTail, w) <==> w == run[k].childCounter
  {
    RunInv(maxCount, run, moves, k);
    var s := run[k];
    if Readable(s, s.localTail, w) {
      ReadIsUnique(s, w);
    }
    forall j | s.childCounter < j < s.cKnows ensures s.slotWrites[j].slot != s.localTail {
      ModTenAgrees(j, s.childCounter);
    }
  }

  /** A slot write never races: every read made of that slot is one the producer is synchronised
      with, and the consumer is not about to read it. */
  lemma WriteNeverRaces(maxCount: nat, run: seq<State>, moves: seq<Move>, k: nat, j: nat)
    requires IsRun(maxCount, run, moves) && k < |run| && run[k].p == PWrite
    ensures j < |run[k].slotReads| && run[k].slotReads[j] == run[k].localHead ==> j < run[k].pKnows
    ensures run[k].c == CRead ==> run[k].localHead != run[k].localTail
  {
    RunInv(maxCount, run, moves, k);
    var s := run[k];
    ModTenAgrees(|s.slotWrites|, |s.slotReads|);
    if j < |s.slotReads| && s.pKnows <= j {
      ModTenAgrees(|s.slotWrites|, j);
    }
  }

  /** A slot read never races: every write made to that slot is one the consumer is synchronised with. */
  lemma ReadNeverRaces(maxCount: nat, run: seq<State>, moves: seq<Move>, k: nat, j: nat)
    requires IsRun(maxCount, run, moves) && k < |run| && run[k].c == CRead
    requires j < |run[k].slotWrites| && run[k].slotWrites[j].slot == run[k].localTail
    ensures j < run[k].cKnows
  {
    RunInv(maxCount, run, moves, k);
    if run[k].cKnows <= j {
      ModTenAgrees(j, |run[k].slotReads|);
    }
  }

  /** An entry that is still unread is never overwritten: a write goes to a slot whose previous
      entries have all been read. */
  lemma NoUnreadOverwritten(maxCount: nat, run: seq<State>, moves: seq<Move>, k: nat, j: nat)
    requires IsRun(maxCount, run, moves) && k < |run| && run[k].p == PWrite
    requires |run[k].slotReads| <= j < |run[k].slotWrites|
    ensures run[k].slotWrites[j].slot != run[k].localHead
  {
    RunInv(maxCount, run, moves, k);
    ModTenAgrees(|run[k].slotWrites|, j);
  }

  /** With up-to-date views the two loops never both wait. */
  lemma NeverBothWait(maxCount: nat, run: seq<State>, moves: seq<Move>, k: nat)
    requires IsRun(maxCount, run, moves) && k < |run| && run[k].p == PLoad && run[k].c == CLoad
    ensures run[k].tails != [] && run[k].heads != []
    ensures var s := run[k];
            (s.localHead + 1) % RB_LEN != s.tails[|s.tails| - 1].value || s.localTail != s.heads[|s.heads| - 1].value
  {
    RunInv(maxCount, run, moves, k);
    ModTenAgrees(|run[k].slotWrites|, |run[k].slotReads|);
  }

  /** When the consumer stops after fewer than 2^32 items its sum is the one the program prints as
      expected. */
  lemma FinalSum(maxCount: nat, run: seq<State>, moves: seq<Move>, k: nat)
    requires IsRun(maxCount, run, moves) && k < |run| && maxCount < 0x1_0000_0000
    requires run[k].childCounter == maxCount
    ensures 2 * run[k].entrySum == maxCount * (maxCount - 1)
  {
    RunInv(maxCount, run, moves, k);
    SumIsExact(maxCount, run[k].entrySum);
  }

  /** Neither side has anything left to do beyond maxCount items. */
  ghost predicate Within(maxCount: nat, s: State) {
    && s.parentCounter <= maxCount && (s.p == PWrite ==> s.parentCounter < maxCount)
    && s.childCounter <= maxCount && (s.c == CRead ==> s.childCounter < maxCount)
  }

  /** No counter ever exceeds maxCount. */
  lemma {:induction false} NeverPastMax(maxCount: nat, run: seq<State>, moves: seq<Move>, k: nat)
    requires IsRun(maxCount, run, moves) && k < |run|
    ensures Within(maxCount, run[k])
  {
    if k > 0 {
      NeverPastMax(maxCount, run, moves, k - 1);
    }
  }

  /** The consumer is left without a move exactly when it has read and published maxCount items, and then
      what it has read is 0, 1, ..., maxCount - 1. */
  lemma ConsumerStopsIff(maxCount: nat, run: seq<State>, moves: seq<Move>, k: nat)
    requires IsRun(maxCount, run, moves) && k < |run|
    ensures (forall view, w :: !CanMove(maxCount, run[k], Consumer(view, w))) <==>
              run[k].c == CLoad && |run[k].got| == maxCount
    ensures run[k].c == CLoad && |run[k].got| == maxCount ==>
              forall j :: 0 <= j < maxCount ==> run[k].got[j] == j
  {
    RunInv(maxCount, run, moves, k);
    NeverPastMax(maxCount, run, moves, k);
    var s := run[k];
    if s.c == CLoad {
      assert s.childCounter < maxCount ==> CanMove(maxCount, s, Consumer(s.sawHead, 0));
    } else {
      if s.c == CRead {
        ReadIsDetermined(maxCount, run, moves, k, s.childCounter);
      }
      assert CanMove(maxCount, s, Consumer(0, s.childCounter));
    }
  }

  /** The producer is left without a move exactly when it has written and published maxCount items. */
  lemma ProducerStopsIff(maxCount: nat, run: seq<State>, moves: seq<Move>, k: nat)
    requires IsRun(maxCount, run, moves) && k < |run|
    ensures (forall view :: !CanMove(maxCount, run[k], Producer(view))) <==>
              run[k].p == PLoad && |run[k].slotWrites| == maxCount
  {
    RunInv(maxCount, run, moves, k);
    NeverPastMax(maxCount, run, moves, k);
    var s := run[k];
    assert s.p != PLoad || s.parentCounter < maxCount ==> CanMove(maxCount, s, Producer(s.sawTail));
  }
}
