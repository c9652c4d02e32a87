/**
 The zero-copy packet processor: a free ring and a ready ring pass 128 buffer indices between
 one producer and one consumer that use no locks.

 One machine move is one shared-memory access. A load of the other side's counter may return any
 value that counter has held since the last value this side saw (stale but coherent); a load of a
 side's own counter is exact. The 32-bit counters run freely and wrap.

 `ring_is_full` flips bit 7 of the tail instead of adding 128, so it misses half of the full rings
 (FullTestExact). Overflow safety therefore rests on conservation of the 128 indices.
 */
module PacketPool {

  const BUFFER_SIZE: nat := 128
  const WORD: nat := 0x1_0000_0000
  const DWORD: nat := 0x1_0000_0000_0000_0000
  const PAYLOAD_BYTES: nat := 6
  const EXPECTED_PACKET_COUNT: nat := 1000000
  const DUMMY_DATA: nat := 0xDEADBEEFBABA

  type Index = i: nat | i < BUFFER_SIZE
  type Slots = b: seq<Index> | |b| == BUFFER_SIZE witness seq(BUFFER_SIZE, i => 0)
  type U32 = x: nat | x < WORD
  type U64 = x: nat | x < DWORD
  type Byte = x: nat | x < 256
  type Payload = b: seq<Byte> | |b| == PAYLOAD_BYTES witness [0, 0, 0, 0, 0, 0]
  const ZERO_PAYLOAD: Payload := [0, 0, 0, 0, 0, 0]
  type PacketBuffer = b: seq<Payload> | |b| == BUFFER_SIZE witness seq<Payload>(BUFFER_SIZE, i => ZERO_PAYLOAD)

  /** A record of the traffic file: a length that fits the payload array, and the payload bytes. */
  datatype FilePacket = FilePacket(len: nat, data: Payload)

  ghost predicate GoodFile(file: seq<FilePacket>) {
    forall k :: 0 <= k < |file| ==> file[k].len <= PAYLOAD_BYTES
  }

  // ---------------------------------------------------------------------------------------------
  // Rings
  // ---------------------------------------------------------------------------------------------

  /** `head`, `tail` and `buffer` are the program's fields. The rest is history that no test reads:
      the number of pushes and pops so far, and the indices the ring holds, oldest first. */
  datatype Ring = Ring(head: U32, tail: U32, buffer: Slots, pushed: nat, popped: nat, contents: seq<Index>)

  /** `x ^ 128`. */
  function FlipBit7(x: U32): U32 {
    if x / 128 % 2 == 0 then x + 128 else x - 128
  }

  predicate RingIsFull(head: U32, tail: U32) { head == FlipBit7(tail) }

  predicate RingIsEmpty(head: U32, tail: U32) { head == tail }

  function Peek(r: Ring): Index { r.buffer[r.tail % BUFFER_SIZE] }

  function BumpTail(r: Ring): Ring {
    r.(tail := (r.tail + 1) % WORD, popped := r.popped + 1,
       contents := if r.contents == [] then [] else r.contents[1..])
  }

  function WriteSlot(r: Ring, i: Index): Ring { r.(buffer := r.buffer[r.head % BUFFER_SIZE := i]) }

  function PublishHead(r: Ring): Ring {
    r.(head := (r.head + 1) % WORD, pushed := r.pushed + 1, contents := r.contents + [r.buffer[r.head % BUFFER_SIZE]])
  }

  /** The fields agree with the history: the slots from tail to head are the contents, in order. */
  ghost predicate RingOk(r: Ring) {
    && r.head == r.pushed % WORD
    && r.tail == r.popped % WORD
    && |r.contents| <= BUFFER_SIZE
    && r.pushed == r.popped + |r.contents|
    && forall k :: 0 <= k < |r.contents| ==> r.contents[k] == r.buffer[(r.popped + k) % BUFFER_SIZE]
  }

  lemma WrapSlot(n: nat)
    ensures n % WORD % BUFFER_SIZE == n % BUFFER_SIZE
    ensures (n % WORD + 1) % WORD == (n + 1) % WORD
  {
    var q, r := n / WORD, n % WORD;
    SameRemainder(n, r, 0x200_0000 * q, BUFFER_SIZE);
    if r + 1 < WORD {
      SameRemainder(n + 1, r + 1, q, WORD);
    } else {
      SameRemainder(n + 1, 0, q + 1, WORD);
    }
  }

  lemma SameRemainder(n: nat, r: nat, q: nat, d: nat)
    requires d > 0 && n == d * q + r
    ensures n % d == r % d
  {
    var a := r / d;
    assert n == d * (q + a) + r % d;
    UniqueRemainder(n, d, q + a, r % d);
  }

  lemma UniqueRemainder(n: nat, d: nat, q: nat, r: nat)
    requires n == d * q + r && r < d
    ensures n % d == r
  {
    var p := n / d;
    assert n == d * p + n % d;
    ProductMonotone(d, p + 1, q);
    ProductMonotone(d, q + 1, p);
  }

  lemma ProductMonotone(d: nat, a: nat, b: nat)
    ensures a <= b ==> d * a <= d * b
  {}

  /** The mirror-bit test is right exactly when the tail's bit 7 is clear: on a ring that holds at
      most 128 entries it reports full iff the ring is full and that bit is clear. */
  lemma FullTestExact(pushed: nat, popped: nat)
    requires popped <= pushed <= popped + 128
    ensures RingIsFull(pushed % 0x1_0000_0000, popped % 0x1_0000_0000)
       <==> pushed == popped + 128 && popped % 0x1_0000_0000 / 128 % 2 == 0
    ensures RingIsEmpty(pushed % 0x1_0000_0000, popped % 0x1_0000_0000) <==> pushed == popped
  {
    var b, d := popped % WORD, pushed - popped;
    assert popped == WORD * (popped / WORD) + b;
    if b + d < WORD {
      assert pushed == WORD * (popped / WORD) + (b + d);
      assert pushed % WORD == b + d;
    } else {
      assert pushed == WORD * (popped / WORD + 1) + (b + d - WORD);
      assert pushed % WORD == b + d - WORD;
    }
  }

  /** After 256 pushes and 128 pops the ring is full and the test says it is not. */
  lemma FullTestMisses()
    ensures !RingIsFull(256 % WORD, 128 % WORD)
  {
    FullTestExact(256, 128);
  }

  lemma PeekIsOldest(r: Ring)
    requires RingOk(r) && r.contents != []
    ensures Peek(r) == r.contents[0]
  {
    WrapSlot(r.popped);
  }

  lemma PopOk(r: Ring)
    requires RingOk(r) && r.contents != []
    ensures RingOk(BumpTail(r)) && Peek(r) == r.contents[0]
  {
    WrapSlot(r.popped);
    var r' := BumpTail(r);
    forall k | 0 <= k < |r'.contents| ensures r'.contents[k] == r'.buffer[(r'.popped + k) % BUFFER_SIZE] {
      assert r'.contents[k] == r.contents[k + 1] && r'.popped + k == r.popped + (k + 1);
    }
  }

  lemma ModDistinct(a: nat, b: nat)
    requires a < b < a + BUFFER_SIZE
    ensures a % BUFFER_SIZE != b % BUFFER_SIZE
  {
  }

  /** Writing the slot at the head touches no live entry of a ring that holds fewer than 128. */
  lemma WriteOk(r: Ring, i: Index)
    requires RingOk(r) && |r.contents| < BUFFER_SIZE
    ensures RingOk(WriteSlot(r, i)) && WriteSlot(r, i).buffer[r.head % BUFFER_SIZE] == i
  {
    WrapSlot(r.pushed);
    var r' := WriteSlot(r, i);
    forall k | 0 <= k < |r.contents| ensures r'.contents[k] == r'.buffer[(r.popped + k) % BUFFER_SIZE] {
      ModDistinct(r.popped + k, r.pushed);
    }
  }

  lemma PublishOk(r: Ring)
    requires RingOk(r) && |r.contents| < BUFFER_SIZE
    ensures RingOk(PublishHead(r))
  {
    WrapSlot(r.pushed);
  }

  // ---------------------------------------------------------------------------------------------
  // Checksums
  // ---------------------------------------------------------------------------------------------

  function SumBytes(bytes: seq<nat>): nat {
    if bytes == [] then 0 else SumBytes(bytes[..|bytes| - 1]) + bytes[|bytes| - 1]
  }

  /** The checksum after processing payloads in order, in 64-bit arithmetic. */
  function ChecksumOf(payloads: seq<Payload>): U64 {
    if payloads == [] then 0
    else (ChecksumOf(payloads[..|payloads| - 1]) + SumBytes(payloads[|payloads| - 1])) % DWORD
  }

  method ProcessPacket(payload: Payload, checksum: U64) returns (sum: U64)
    ensures sum == (checksum + SumBytes(payload)) % DWORD
  {
    sum := checksum;
    for i := 0 to |payload|
      invariant sum == (checksum + SumBytes(payload[..i])) % DWORD
    {
      assert payload[..i + 1][..i] == payload[..i];
      sum := (sum + payload[i]) % DWORD;
    }
    assert payload[..|payload|] == payload;
  }

  /** The low `n` bytes of `v`, lowest first. */
  function LowBytes(v: nat, n: nat): (bytes: seq<nat>)
    ensures |bytes| == n
  {
    if n == 0 then [] else [v % 256] + LowBytes(v / 256, n - 1)
  }

  function Reversed(s: seq<nat>): (r: seq<nat>)
    ensures |r| == |s|
  {
    if s == [] then [] else Reversed(s[1..]) + [s[0]]
  }

  lemma {:induction false} SumBytesPrepend(b: nat, s: seq<nat>)
    ensures SumBytes([b] + s) == b + SumBytes(s)
  {
    if s == [] {
      assert [b] + s == [b] && [b][..0] == [];
    } else {
      assert ([b] + s)[..|s|] == [b] + s[..|s| - 1];
      SumBytesPrepend(b, s[..|s| - 1]);
    }
  }

  lemma SumBytesAppend(s: seq<nat>, b: nat)
    ensures SumBytes(s + [b]) == SumBytes(s) + b
  {
    assert (s + [b])[..|s|] == s;
  }

  lemma {:induction false} SumBytesReversed(s: seq<nat>)
    ensures SumBytes(Reversed(s)) == SumBytes(s)
  {
    if s != [] {
      SumBytesReversed(s[1..]);
      SumBytesAppend(Reversed(s[1..]), s[0]);
      SumBytesPrepend(s[0], s[1..]);
      assert s == [s[0]] + s[1..];
    }
  }

  /** The expected total: the byte sum of the dummy value times the packet count. The program calls
      it on DUMMY_DATA, PAYLOAD_BYTES and EXPECTED_PACKET_COUNT. */
  method CalcExpectedChecksum(dummyData: nat, payloadBytes: nat, packetCount: nat) returns (expected: U64)
    ensures expected == SumBytes(LowBytes(dummyData, payloadBytes)) * packetCount % DWORD
  {
    expected := 0;
    var dummy := dummyData;
    ghost var done: seq<nat> := [];
    for i := 0 to payloadBytes
      invariant |done| == i && done + LowBytes(dummy, payloadBytes - i) == LowBytes(dummyData, payloadBytes)
      invariant expected == SumBytes(done) % DWORD
    {
      ghost var before := done;
      done := done + [dummy % 256];
      assert done[..i] == before;
      assert before + LowBytes(dummy, payloadBytes - i) == done + LowBytes(dummy / 256, payloadBytes - i - 1);
      expected := (expected + dummy % 256) % DWORD;
      dummy := dummy / 256;
    }
    assert done + LowBytes(dummy, 0) == done;
    MulMod(SumBytes(done), packetCount);
    expected := expected * packetCount % DWORD;
  }

  lemma MulMod(a: nat, n: nat)
    ensures a % DWORD * n % DWORD == a * n % DWORD
  {
    var q := a / DWORD;
    assert a * n == (DWORD * q + a % DWORD) * n == DWORD * (q * n) + a % DWORD * n;
    ModAddMultiple(q * n, a % DWORD * n);
  }

  lemma ModAddMultiple(q: nat, r: nat)
    ensures (DWORD * q + r) % DWORD == r % DWORD
  {}

  // ---------------------------------------------------------------------------------------------
  // The machine
  // ---------------------------------------------------------------------------------------------

  datatype ProducerPc =
    | PTop                   // test that the free ring is not empty
    | PFullTest              // test that the ready ring is not full
    | PTake                  // read the index at the free tail
    | PBump(idx: Index)      // advance the free tail
    | PFill(idx: Index)      // copy the next file packet into the buffer
    | PPush(idx: Index)      // write the ready slot
    | PPublish(idx: Index)   // advance the ready head

  datatype ConsumerPc =
    | CTop | CFullTest | CTake | CBump(idx: Index) | CProcess(idx: Index) | CPush(idx: Index) | CPublish(idx: Index)

  /** `next` counts the file packets copied, `count` the packets processed. The four `saw` fields are
      history: the latest value each side has loaded of the other side's counters. `processed` lists
      the payloads as the consumer found them. */
  datatype State = State(
    free: Ring, ready: Ring, packets: PacketBuffer,
    p: ProducerPc, next: nat, pSawFree: nat, pSawReady: nat,
    c: ConsumerPc, count: nat, checksum: U64, cSawReady: nat, cSawFree: nat,
    processed: seq<Payload>)

  /** A move of one side; `view` is the position a load of the other side's counter returns. */
  datatype Move = Producer(view: nat) | Consumer(view: nat)

  function InitialState(packets: PacketBuffer, readySlots: Slots): State {
    State(Ring(BUFFER_SIZE, 0, seq(BUFFER_SIZE, i requires 0 <= i < BUFFER_SIZE => i), BUFFER_SIZE, 0,
               seq(BUFFER_SIZE, i requires 0 <= i < BUFFER_SIZE => i)),
          Ring(0, 0, readySlots, 0, 0, []), packets,
          PTop, 0, BUFFER_SIZE, 0,
          CTop, 0, 0, 0, 0, [])
  }

  predicate ProducerDone(file: seq<FilePacket>, s: State) { s.p == PTop && s.next >= |file| }

  predicate ConsumerDone(target: nat, s: State) { s.c == CTop && s.count >= target }

  predicate CanMove(file: seq<FilePacket>, target: nat, s: State, m: Move) {
    match m
    case Producer(view) =>
      && !ProducerDone(file, s)
      && (s.p == PTop ==> s.pSawFree <= view <= s.free.pushed)
      && (s.p == PFullTest ==> s.pSawReady <= view <= s.ready.popped)
      && (s.p.PFill? ==> s.next < |file| && file[s.next].len <= PAYLOAD_BYTES)
    case Consumer(view) =>
      && !ConsumerDone(target, s)
      && (s.c == CTop ==> s.cSawReady <= view <= s.ready.pushed)
      && (s.c == CFullTest ==> s.cSawFree <= view <= s.free.popped)
  }

  /** memcpy of the record's `len` bytes: what lies beyond them keeps its old value. */
  function CopyPayload(old_: Payload, f: FilePacket): Payload
    requires f.len <= PAYLOAD_BYTES
  {
    f.data[..f.len] + old_[f.len..]
  }

  function DoMove(file: seq<FilePacket>, target: nat, s: State, m: Move): State
    requires CanMove(file, target, s, m)
  {
    match m
    case Producer(view) => (
      match s.p
      case PTop =>
        s.(pSawFree := view, p := if RingIsEmpty(view % WORD, s.free.tail) then PTop else PFullTest)
      case PFullTest =>
        s.(pSawReady := view, p := if RingIsFull(s.ready.head, view % WORD) then PTop else PTake)
      case PTake => s.(p := PBump(Peek(s.free)))
      case PBump(i) => s.(free := BumpTail(s.free), p := PFill(i))
      case PFill(i) =>
        s.(packets := s.packets[i := CopyPayload(s.packets[i], file[s.next])], next := s.next + 1, p := PPush(i))
      case PPush(i) => s.(ready := WriteSlot(s.ready, i), p := PPublish(i))
      case PPublish(i) => s.(ready := PublishHead(s.ready), p := PTop))
    case Consumer(view) => (
      match s.c
      case CTop =>
        s.(cSawReady := view, c := if RingIsEmpty(view % WORD, s.ready.tail) then CTop else CFullTest)
      case CFullTest =>
        s.(cSawFree := view, c := if RingIsFull(s.free.head, view % WORD) then CTop else CTake)
      case CTake => s.(c := CBump(Peek(s.ready)))
      case CBump(i) => s.(ready := BumpTail(s.ready), c := CProcess(i))
      case CProcess(i) =>
        s.(checksum := (s.checksum + SumBytes(s.packets[i])) % DWORD, count := s.count + 1,
           processed := s.processed + [s.packets[i]], c := CPush(i))
      case CPush(i) => s.(free := WriteSlot(s.free, i), c := CPublish(i))
      case CPublish(i) => s.(free := PublishHead(s.free), c := CTop))
  }

  ghost predicate IsRun(file: seq<FilePacket>, target: nat, run: seq<State>, moves: seq<Move>) {
    && |run| == |moves| + 1
    && (exists packets, slots :: run[0] == InitialState(packets, slots))
    && forall k :: 0 <= k < |moves| ==>
         CanMove(file, target, run[k], moves[k]) && run[k + 1] == DoMove(file, target, run[k], moves[k])
  }

  // ---------------------------------------------------------------------------------------------
  // The invariant
  // ---------------------------------------------------------------------------------------------

  /** The index the producer owns: taken off the free ring, not yet published on the ready ring. */
  function ProducerHand(p: ProducerPc): seq<nat> {
    match p
    case PFill(i) => [i]
    case PPush(i) => [i]
    case PPublish(i) => [i]
    case _ => []
  }

  function ConsumerHand(c: ConsumerPc): seq<nat> {
    match c
    case CProcess(i) => [i]
    case CPush(i) => [i]
    case CPublish(i) => [i]
    case _ => []
  }

  /** Everything in the two rings and the two hands. */
  ghost function Together(free: seq<nat>, ready: seq<nat>, ph: seq<nat>, ch: seq<nat>): multiset<nat> {
    multiset(free) + multiset(ready) + multiset(ph) + multiset(ch)
  }

  ghost function Places(s: State): multiset<nat> {
    Together(s.free.contents, s.ready.contents, ProducerHand(s.p), ConsumerHand(s.c))
  }

  /** Each of the 128 indices once, and nothing else. */
  ghost function AllIndices(): multiset<nat> { multiset(FirstIndices(BUFFER_SIZE)) }

  ghost function FirstIndices(n: nat): seq<Index>
    requires n <= BUFFER_SIZE
  {
    seq(n, i requires 0 <= i < n => i)
  }

  lemma {:induction false} FirstIndicesOnce(n: nat, i: nat)
    requires n <= BUFFER_SIZE
    ensures multiset(FirstIndices(n))[i] == if i < n then 1 else 0
  {
    if n > 0 {
      FirstIndicesOnce(n - 1, i);
      assert FirstIndices(n) == FirstIndices(n - 1) + [n - 1];
    }
  }

  ghost predicate Matches(b: Payload, f: FilePacket) {
    forall j :: 0 <= j < PAYLOAD_BYTES && j < f.len ==> b[j] == f.data[j]
  }

  ghost predicate Counters(s: State) {
    && s.free.pushed == s.free.popped + |s.free.contents|
    && s.ready.pushed == s.ready.popped + |s.ready.contents|
    && s.free.popped == s.ready.pushed + |ProducerHand(s.p)|
    && s.free.pushed + |ConsumerHand(s.c)| == BUFFER_SIZE + s.ready.popped
    && s.next == s.ready.pushed + (if s.p.PPush? || s.p.PPublish? then 1 else 0)
    && s.ready.popped == s.count + (if s.c.CProcess? then 1 else 0)
    && s.free.popped <= s.pSawFree <= s.free.pushed
    && s.ready.popped <= s.cSawReady <= s.ready.pushed
    && s.pSawReady <= s.ready.popped && s.cSawFree <= s.free.popped
  }

  ghost predicate Control(file: seq<FilePacket>, s: State) {
    && s.next <= |file|
    && (s.p.PFullTest? || s.p.PTake? || s.p.PBump? ==> s.free.popped < s.pSawFree)
    && (s.p.PFullTest? || s.p.PTake? || s.p.PBump? || s.p.PFill? ==> s.next < |file|)
    && (s.p.PBump? ==> s.free.contents != [] && s.p.idx == s.free.contents[0])
    && (s.p.PPublish? ==> s.ready.buffer[s.ready.head % BUFFER_SIZE] == s.p.idx)
    && (s.c.CFullTest? || s.c.CTake? || s.c.CBump? ==> s.ready.popped < s.cSawReady)
    && (s.c.CBump? ==> s.ready.contents != [] && s.c.idx == s.ready.contents[0])
    && (s.c.CPublish? ==> s.free.buffer[s.free.head % BUFFER_SIZE] == s.c.idx)
  }

  /** The buffers on the ready ring hold the file's packets number `popped`, `popped + 1`, ... */
  ghost predicate Queued(file: seq<FilePacket>, popped: nat, contents: seq<Index>, packets: PacketBuffer) {
    && popped + |contents| <= |file|
    && forall k :: 0 <= k < |contents| ==> Matches(packets[contents[k]], file[popped + k])
  }

  /** Buffer `i` holds file packet number `n`. */
  ghost predicate Carries(file: seq<FilePacket>, packets: PacketBuffer, i: Index, n: int) {
    0 <= n < |file| && Matches(packets[i], file[n])
  }

  /** Every buffer on its way to the consumer holds the file packet with the matching number. */
  ghost predicate InFlight(file: seq<FilePacket>, s: State) {
    && Queued(file, s.ready.popped, s.ready.contents, s.packets)
    && (s.p.PPush? || s.p.PPublish? ==> Carries(file, s.packets, s.p.idx, s.next - 1))
    && (s.c.CProcess? ==> Carries(file, s.packets, s.c.idx, s.ready.popped - 1))
  }

  /** What the consumer has processed is the file's packets, in file order. */
  ghost predicate Delivered(file: seq<FilePacket>, processed: seq<Payload>, checksum: U64) {
    && |processed| <= |file|
    && (forall k :: 0 <= k < |processed| ==> Matches(processed[k], file[k]))
    && checksum == ChecksumOf(processed)
  }

  ghost predicate Shape(file: seq<FilePacket>, s: State) {
    RingOk(s.free) && RingOk(s.ready) && Counters(s) && Control(file, s)
  }

  ghost predicate Inv(file: seq<FilePacket>, s: State) {
    && Shape(file, s)
    && Places(s) == AllIndices()
    && InFlight(file, s)
    && |s.processed| == s.count && Delivered(file, s.processed, s.checksum)
  }

  lemma InitInv(file: seq<FilePacket>, packets: PacketBuffer, slots: Slots)
    ensures Inv(file, InitialState(packets, slots))
  {
    var s := InitialState(packets, slots);
    assert s.free.contents == FirstIndices(BUFFER_SIZE);
    assert Places(s) == AllIndices();
  }

  lemma QueuedAppend(file: seq<FilePacket>, popped: nat, contents: seq<Index>, packets: PacketBuffer, i: Index)
    requires Queued(file, popped, contents, packets) && Carries(file, packets, i, popped + |contents|)
    ensures Queued(file, popped, contents + [i], packets)
  {}

  lemma QueuedPop(file: seq<FilePacket>, popped: nat, contents: seq<Index>, packets: PacketBuffer)
    requires Queued(file, popped, contents, packets) && contents != []
    ensures Queued(file, popped + 1, contents[1..], packets) && Carries(file, packets, contents[0], popped)
  {
    forall k | 0 <= k < |contents[1..]| ensures Matches(packets[contents[1..][k]], file[popped + 1 + k]) {
      assert contents[1..][k] == contents[k + 1];
    }
  }

  lemma QueuedFill(file: seq<FilePacket>, popped: nat, contents: seq<Index>, packets: PacketBuffer, i: Index,
                   b: Payload)
    requires Queued(file, popped, contents, packets) && i !in contents
    ensures Queued(file, popped, contents, packets[i := b])
  {}

  /** An index in one place is in no other place. */
  lemma OnePlace(s: State, i: nat)
    requires Places(s) == AllIndices()
    ensures multiset(s.free.contents)[i] + multiset(s.ready.contents)[i]
            + multiset(ProducerHand(s.p))[i] + multiset(ConsumerHand(s.c))[i] == if i < BUFFER_SIZE then 1 else 0
  {
    FirstIndicesOnce(BUFFER_SIZE, i);
  }

  lemma ProducerRings(file: seq<FilePacket>, target: nat, s: State, view: nat)
    requires Shape(file, s) && CanMove(file, target, s, Producer(view))
    ensures var s' := DoMove(file, target, s, Producer(view)); RingOk(s'.free) && RingOk(s'.ready)
  {
    match s.p
    case PBump(_) => PopOk(s.free);
    case PPush(i) => WriteOk(s.ready, i);
    case PPublish(_) => PublishOk(s.ready);
    case _ =>
  }

  lemma ProducerTest(file: seq<FilePacket>, target: nat, s: State, view: nat)
    requires Shape(file, s) && CanMove(file, target, s, Producer(view)) && s.p.PTop?
    ensures var s' := DoMove(file, target, s, Producer(view)); Counters(s') && Control(file, s')
  {
    FullTestExact(view, s.free.popped);
  }

  lemma ProducerCounters(file: seq<FilePacket>, target: nat, s: State, view: nat)
    requires Counters(s) && Control(file, s) && CanMove(file, target, s, Producer(view)) && !s.p.PTop?
    ensures var s' := DoMove(file, target, s, Producer(view)); Counters(s')
  {}

  lemma ProducerControl(file: seq<FilePacket>, target: nat, s: State, view: nat)
    requires Shape(file, s) && CanMove(file, target, s, Producer(view)) && !s.p.PTop?
    ensures var s' := DoMove(file, target, s, Producer(view)); Control(file, s')
  {
    match s.p
    case PTake => PeekIsOldest(s.free);
    case PPush(i) => WriteOk(s.ready, i);
    case _ =>
  }

  lemma ProducerShape(file: seq<FilePacket>, target: nat, s: State, view: nat)
    requires Shape(file, s) && CanMove(file, target, s, Producer(view))
    ensures Shape(file, DoMove(file, target, s, Producer(view)))
  {
    ProducerRings(file, target, s, view);
    if s.p.PTop? {
      ProducerTest(file, target, s, view);
    } else {
      ProducerCounters(file, target, s, view);
      ProducerControl(file, target, s, view);
    }
  }

  lemma PopToHand(a: seq<nat>, b: seq<nat>, i: nat, hand: seq<nat>)
    requires a != [] && a[0] == i
    ensures Together(a, b, [], hand) == Together(a[1..], b, [i], hand)
    ensures Together(b, a, hand, []) == Together(b, a[1..], hand, [i])
  {
    assert a == [i] + a[1..];
  }

  lemma HandToPush(a: seq<nat>, b: seq<nat>, i: nat, hand: seq<nat>)
    ensures Together(a, b, [i], hand) == Together(a, b + [i], [], hand)
    ensures Together(b, a, hand, [i]) == Together(b + [i], a, hand, [])
  {}

  lemma ProducerPopConserves(file: seq<FilePacket>, target: nat, s: State, view: nat)
    requires Control(file, s) && CanMove(file, target, s, Producer(view)) && s.p.PBump?
    ensures Places(DoMove(file, target, s, Producer(view))) == Places(s)
  {
    PopToHand(s.free.contents, s.ready.contents, s.p.idx, ConsumerHand(s.c));
  }

  lemma ProducerPushConserves(file: seq<FilePacket>, target: nat, s: State, view: nat)
    requires Control(file, s) && CanMove(file, target, s, Producer(view)) && s.p.PPublish?
    ensures Places(DoMove(file, target, s, Producer(view))) == Places(s)
  {
    HandToPush(s.free.contents, s.ready.contents, s.p.idx, ConsumerHand(s.c));
  }

  lemma ProducerLocalConserves(file: seq<FilePacket>, target: nat, s: State, view: nat)
    requires CanMove(file, target, s, Producer(view)) && !s.p.PBump? && !s.p.PPublish?
    ensures Places(DoMove(file, target, s, Producer(view))) == Places(s)
  {
    var s' := DoMove(file, target, s, Producer(view));
    assert s'.free.contents == s.free.contents && s'.ready.contents == s.ready.contents;
    assert ProducerHand(s'.p) == ProducerHand(s.p) && ConsumerHand(s'.c) == ConsumerHand(s.c);
  }

  lemma ConsumerPopConserves(file: seq<FilePacket>, target: nat, s: State, view: nat)
    requires Control(file, s) && CanMove(file, target, s, Consumer(view)) && s.c.CBump?
    ensures Places(DoMove(file, target, s, Consumer(view))) == Places(s)
  {
    PopToHand(s.ready.contents, s.free.contents, s.c.idx, ProducerHand(s.p));
  }

  lemma ConsumerPushConserves(file: seq<FilePacket>, target: nat, s: State, view: nat)
    requires Control(file, s) && CanMove(file, target, s, Consumer(view)) && s.c.CPublish?
    ensures Places(DoMove(file, target, s, Consumer(view))) == Places(s)
  {
    HandToPush(s.ready.contents, s.free.contents, s.c.idx, ProducerHand(s.p));
  }

  lemma ConsumerLocalConserves(file: seq<FilePacket>, target: nat, s: State, view: nat)
    requires CanMove(file, target, s, Consumer(view)) && !s.c.CBump? && !s.c.CPublish?
    ensures Places(DoMove(file, target, s, Consumer(view))) == Places(s)
  {
    var s' := DoMove(file, target, s, Consumer(view));
    assert s'.free.contents == s.free.contents && s'.ready.contents == s.ready.contents;
    assert ProducerHand(s'.p) == ProducerHand(s.p) && ConsumerHand(s'.c) == ConsumerHand(s.c);
  }

  /** No move creates, loses or duplicates an index. */
  lemma MoveConserves(file: seq<FilePacket>, target: nat, s: State, m: Move)
    requires Control(file, s) && CanMove(file, target, s, m)
    ensures Places(DoMove(file, target, s, m)) == Places(s)
  {
    match m
    case Producer(view) =>
      match s.p {
        case PBump(_) => ProducerPopConserves(file, target, s, view);
        case PPublish(_) => ProducerPushConserves(file, target, s, view);
        case _ => ProducerLocalConserves(file, target, s, view);
      }
    case Consumer(view) =>
      match s.c {
        case CBump(_) => ConsumerPopConserves(file, target, s, view);
        case CPublish(_) => ConsumerPushConserves(file, target, s, view);
        case _ => ConsumerLocalConserves(file, target, s, view);
      }
  }

  lemma ConsumerRings(file: seq<FilePacket>, target: nat, s: State, view: nat)
    requires Shape(file, s) && CanMove(file, target, s, Consumer(view))
    ensures var s' := DoMove(file, target, s, Consumer(view)); RingOk(s'.free) && RingOk(s'.ready)
  {
    match s.c
    case CBump(_) => PopOk(s.ready);
    case CPush(i) => WriteOk(s.free, i);
    case CPublish(_) => PublishOk(s.free);
    case _ =>
  }

  lemma ConsumerTest(file: seq<FilePacket>, target: nat, s: State, view: nat)
    requires Shape(file, s) && CanMove(file, target, s, Consumer(view)) && s.c.CTop?
    ensures var s' := DoMove(file, target, s, Consumer(view)); Counters(s') && Control(file, s')
  {
    FullTestExact(view, s.ready.popped);
  }

  lemma ConsumerCounters(file: seq<FilePacket>, target: nat, s: State, view: nat)
    requires Counters(s) && Control(file, s) && CanMove(file, target, s, Consumer(view)) && !s.c.CTop?
    ensures var s' := DoMove(file, target, s, Consumer(view)); Counters(s')
  {}

  lemma ConsumerControl(file: seq<FilePacket>, target: nat, s: State, view: nat)
    requires Shape(file, s) && CanMove(file, target, s, Consumer(view)) && !s.c.CTop?
    ensures var s' := DoMove(file, target, s, Consumer(view)); Control(file, s')
  {
    match s.c
    case CTake => PeekIsOldest(s.ready);
    case CPush(i) => WriteOk(s.free, i);
    case _ =>
  }

  lemma ConsumerShape(file: seq<FilePacket>, target: nat, s: State, view: nat)
    requires Shape(file, s) && CanMove(file, target, s, Consumer(view))
    ensures Shape(file, DoMove(file, target, s, Consumer(view)))
  {
    ConsumerRings(file, target, s, view);
    if s.c.CTop? {
      ConsumerTest(file, target, s, view);
    } else {
      ConsumerCounters(file, target, s, view);
      ConsumerControl(file, target, s, view);
    }
  }

  lemma FillInFlight(file: seq<FilePacket>, target: nat, s: State, view: nat)
    requires Control(file, s) && Places(s) == AllIndices() && InFlight(file, s)
    requires CanMove(file, target, s, Producer(view)) && s.p.PFill?
    ensures InFlight(file, DoMove(file, target, s, Producer(view)))
  {
    OnePlace(s, s.p.idx);
    var b := CopyPayload(s.packets[s.p.idx], file[s.next]);
    QueuedFill(file, s.ready.popped, s.ready.contents, s.packets, s.p.idx, b);
  }

  lemma ProducerInFlight(file: seq<FilePacket>, target: nat, s: State, view: nat)
    requires Counters(s) && Control(file, s) && InFlight(file, s)
    requires CanMove(file, target, s, Producer(view)) && !s.p.PFill?
    ensures InFlight(file, DoMove(file, target, s, Producer(view)))
  {
    if s.p.PPublish? {
      QueuedAppend(file, s.ready.popped, s.ready.contents, s.packets, s.p.idx);
    }
  }

  lemma ConsumerInFlight(file: seq<FilePacket>, target: nat, s: State, view: nat)
    requires Counters(s) && Control(file, s) && InFlight(file, s)
    requires CanMove(file, target, s, Consumer(view))
    ensures InFlight(file, DoMove(file, target, s, Consumer(view)))
  {
    if s.c.CBump? {
      QueuedPop(file, s.ready.popped, s.ready.contents, s.packets);
    }
  }

  lemma MoveDelivered(file: seq<FilePacket>, target: nat, s: State, m: Move)
    requires Counters(s) && InFlight(file, s) && CanMove(file, target, s, m)
    requires |s.processed| == s.count && Delivered(file, s.processed, s.checksum)
    ensures var s' := DoMove(file, target, s, m);
            |s'.processed| == s'.count && Delivered(file, s'.processed, s'.checksum)
  {
    if m.Consumer? && s.c.CProcess? {
      assert (s.processed + [s.packets[s.c.idx]])[..s.count] == s.processed;
    }
  }

  lemma MoveInv(file: seq<FilePacket>, target: nat, s: State, m: Move)
    requires Inv(file, s) && CanMove(file, target, s, m)
    ensures Inv(file, DoMove(file, target, s, m))
  {
    match m {
      case Producer(view) =>
        ProducerShape(file, target, s, view);
        if s.p.PFill? {
          FillInFlight(file, target, s, view);
        } else {
          ProducerInFlight(file, target, s, view);
        }
      case Consumer(view) =>
        ConsumerShape(file, target, s, view);
        ConsumerInFlight(file, target, s, view);
    }
    MoveConserves(file, target, s, m);
    MoveDelivered(file, target, s, m);
  }

  // ---------------------------------------------------------------------------------------------
  // Theorems over all runs
  // ---------------------------------------------------------------------------------------------

  lemma {:induction false} RunInv(file: seq<FilePacket>, target: nat, run: seq<State>, moves: seq<Move>, k: nat)
    requires IsRun(file, target, run, moves) && k < |run|
    ensures Inv(file, run[k])
  {
    if k == 0 {
      var packets, slots :| run[0] == InitialState(packets, slots);
      InitInv(file, packets, slots);
    } else {
      RunInv(file, target, run, moves, k - 1);
      MoveInv(file, target, run[k - 1], moves[k - 1]);
    }
  }

  /** In every state of every run each of the 128 indices is in exactly one of the two rings and two
      hands, and the rings' slots from tail to head are exactly their contents. */
  lemma EveryIndexInOnePlace(file: seq<FilePacket>, target: nat, run: seq<State>, moves: seq<Move>, k: nat, i: nat)
    requires IsRun(file, target, run, moves) && k < |run|
    ensures var s := run[k];
            && RingOk(s.free) && RingOk(s.ready)
            && multiset(s.free.contents)[i] + multiset(s.ready.contents)[i]
               + multiset(ProducerHand(s.p))[i] + multiset(ConsumerHand(s.c))[i] == if i < 128 then 1 else 0
  {
    RunInv(file, target, run, moves, k);
    OnePlace(run[k], i);
  }

  /** Producer and consumer never hold the same packet buffer. */
  lemma HandsAreExclusive(file: seq<FilePacket>, target: nat, run: seq<State>, moves: seq<Move>, k: nat)
    requires IsRun(file, target, run, moves) && k < |run|
    ensures ProducerHand(run[k].p) != [] ==> ProducerHand(run[k].p) != ConsumerHand(run[k].c)
  {
    if ProducerHand(run[k].p) != [] {
      EveryIndexInOnePlace(file, target, run, moves, k, run[k].p.idx);
    }
  }

  /** A push never writes a slot that is live. The write is also ordered after the last read of that
      slot: the pop it recycles happened before a publication the pushing side has already seen. */
  lemma PushesAreSafe(file: seq<FilePacket>, target: nat, run: seq<State>, moves: seq<Move>, k: nat, j: nat)
    requires IsRun(file, target, run, moves) && k < |run|
    ensures var s := run[k]; s.p.PPush? ==>
              && (j < |s.ready.contents| ==> (s.ready.popped + j) % BUFFER_SIZE != s.ready.head % BUFFER_SIZE)
              && s.ready.pushed < s.pSawFree
    ensures var s := run[k]; s.c.CPush? ==>
              && (j < |s.free.contents| ==> (s.free.popped + j) % BUFFER_SIZE != s.free.head % BUFFER_SIZE)
              && s.free.pushed - BUFFER_SIZE < s.cSawReady
  {
    RunInv(file, target, run, moves, k);
    var s := run[k];
    WrapSlot(s.ready.pushed);
    WrapSlot(s.free.pushed);
    if s.p.PPush? && j < |s.ready.contents| {
      ModDistinct(s.ready.popped + j, s.ready.pushed);
    }
    if s.c.CPush? && j < |s.free.contents| {
      ModDistinct(s.free.popped + j, s.free.pushed);
    }
  }

  /** The read side: when a side reads a slot, and when it fills or processes a buffer, the publication of
      that index is one it has already seen, so plain memory holds what was written before it. */
  lemma ReadsAreSafe(file: seq<FilePacket>, target: nat, run: seq<State>, moves: seq<Move>, k: nat)
    requires IsRun(file, target, run, moves) && k < |run|
    ensures run[k].p.PTake? ==> run[k].free.popped < run[k].pSawFree
    ensures run[k].p.PFill? ==> run[k].free.popped <= run[k].pSawFree
    ensures run[k].c.CTake? ==> run[k].ready.popped < run[k].cSawReady
    ensures run[k].c.CProcess? ==> run[k].ready.popped <= run[k].cSawReady
  {
    RunInv(file, target, run, moves, k);
  }

  /** The k-th packet processed carries the bytes of the k-th packet of the file. */
  lemma PacketsArriveInOrder(file: seq<FilePacket>, target: nat, run: seq<State>, moves: seq<Move>, k: nat, n: nat,
                             j: nat)
    requires IsRun(file, target, run, moves) && k < |run| && n < run[k].count && j < PAYLOAD_BYTES
    ensures n < |run[k].processed| && n < |file|
    ensures j < file[n].len ==> run[k].processed[n][j] == file[n].data[j]
  {
    RunInv(file, target, run, moves, k);
    assert Matches(run[k].processed[n], file[n]);
  }

  /** The busy-wait tests on the counters' current values. */
  predicate ProducerSpins(s: State) {
    (s.p.PTop? || s.p.PFullTest?)
    && (RingIsEmpty(s.free.head, s.free.tail) || RingIsFull(s.ready.head, s.ready.tail))
  }

  predicate ConsumerSpins(s: State) {
    (s.c.CTop? || s.c.CFullTest?)
    && (RingIsEmpty(s.ready.head, s.ready.tail) || RingIsFull(s.free.head, s.free.tail))
  }

  /** At least one side is not spinning, and a side that waits, at either test, spins exactly when there is
      nothing for it to take: the flawed full test never holds a side back. */
  lemma NeverBothSpin(file: seq<FilePacket>, target: nat, run: seq<State>, moves: seq<Move>, k: nat)
    requires IsRun(file, target, run, moves) && k < |run|
    ensures !(ProducerSpins(run[k]) && ConsumerSpins(run[k]))
    ensures run[k].p.PTop? || run[k].p.PFullTest? ==> (ProducerSpins(run[k]) <==> run[k].free.contents == [])
    ensures run[k].c.CTop? || run[k].c.CFullTest? ==> (ConsumerSpins(run[k]) <==> run[k].ready.contents == [])
  {
    RunInv(file, target, run, moves, k);
    FullTestExact(run[k].free.pushed, run[k].free.popped);
    FullTestExact(run[k].ready.pushed, run[k].ready.popped);
  }

  /** A side with work left always has a move. */
  lemma AlwaysAMove(file: seq<FilePacket>, target: nat, run: seq<State>, moves: seq<Move>, k: nat)
    requires IsRun(file, target, run, moves) && k < |run| && GoodFile(file)
    ensures !ProducerDone(file, run[k]) ==> exists view :: CanMove(file, target, run[k], Producer(view))
    ensures !ConsumerDone(target, run[k]) ==> exists view :: CanMove(file, target, run[k], Consumer(view))
  {
    RunInv(file, target, run, moves, k);
    var s := run[k];
    if !ProducerDone(file, s) {
      assert CanMove(file, target, s, Producer(if s.p.PTop? then s.pSawFree else s.pSawReady));
    }
    if !ConsumerDone(target, s) {
      assert CanMove(file, target, s, Consumer(if s.c.CTop? then s.cSawReady else s.cSawFree));
    }
  }

  /** A waiting producer that finds an index free, and whose loads return the current counters, passes both
      tests and takes it. */
  lemma ProducerTakes(file: seq<FilePacket>, target: nat, run: seq<State>, moves: seq<Move>, k: nat)
    requires IsRun(file, target, run, moves) && k < |run| && run[k].p.PTop? && run[k].next < |file|
    requires run[k].free.contents != []
    ensures var s := run[k];
            && CanMove(file, target, s, Producer(s.free.pushed))
            && var s1 := DoMove(file, target, s, Producer(s.free.pushed));
               && CanMove(file, target, s1, Producer(s.ready.popped))
               && DoMove(file, target, s1, Producer(s.ready.popped)).p.PTake?
  {
    RunInv(file, target, run, moves, k);
    FullTestExact(run[k].free.pushed, run[k].free.popped);
    FullTestExact(run[k].ready.pushed, run[k].ready.popped);
  }

  lemma ConsumerTakes(file: seq<FilePacket>, target: nat, run: seq<State>, moves: seq<Move>, k: nat)
    requires IsRun(file, target, run, moves) && k < |run| && run[k].c.CTop? && run[k].count < target
    requires run[k].ready.contents != []
    ensures var s := run[k];
            && CanMove(file, target, s, Consumer(s.ready.pushed))
            && var s1 := DoMove(file, target, s, Consumer(s.ready.pushed));
               && CanMove(file, target, s1, Consumer(s.free.popped))
               && DoMove(file, target, s1, Consumer(s.free.popped)).c.CTake?
  {
    RunInv(file, target, run, moves, k);
    FullTestExact(run[k].ready.pushed, run[k].ready.popped);
    FullTestExact(run[k].free.pushed, run[k].free.popped);
  }

  lemma {:induction false} UniformChecksum(payloads: seq<Payload>, v: nat)
    requires forall n :: 0 <= n < |payloads| ==> SumBytes(payloads[n]) == v
    ensures ChecksumOf(payloads) == v * |payloads| % DWORD
  {
    if payloads != [] {
      var m := |payloads| - 1;
      UniformChecksum(payloads[..m], v);
      OneMore(v, m);
      ModAdd(v * m, v);
    }
  }

  lemma OneMore(v: nat, m: nat)
    ensures v * (m + 1) == v * m + v
  {}

  lemma ModAdd(a: nat, b: nat)
    ensures (a % DWORD + b) % DWORD == (a + b) % DWORD
  {}

  /** When the consumer stops, on a file of `target` full records that each hold the dummy bytes in
      reverse order, its checksum is the value CalcExpectedChecksum returns. */
  lemma FinalChecksum(file: seq<FilePacket>, target: nat, run: seq<State>, moves: seq<Move>, k: nat, dummyData: nat,
                      payloadBytes: nat)
    requires IsRun(file, target, run, moves) && k < |run| && ConsumerDone(target, run[k])
    requires payloadBytes == PAYLOAD_BYTES && |file| == target
    requires forall n :: 0 <= n < |file| ==> file[n].len == payloadBytes
    requires forall n :: 0 <= n < |file| ==> file[n].data == Reversed(LowBytes(dummyData, payloadBytes))
    ensures run[k].checksum == SumBytes(LowBytes(dummyData, payloadBytes)) * target % DWORD
  {
    RunInv(file, target, run, moves, k);
    var s := run[k];
    var v := SumBytes(LowBytes(dummyData, payloadBytes));
    SumBytesReversed(LowBytes(dummyData, payloadBytes));
    forall n | 0 <= n < |s.processed| ensures SumBytes(s.processed[n]) == v {
      assert Matches(s.processed[n], file[n]);
      assert s.processed[n] == file[n].data;
    }
    UniformChecksum(s.processed, v);
  }

  /** The payload bytes of the first n records, added up. */
  ghost function FileSum(file: seq<FilePacket>, n: nat): nat
    requires n <= |file|
  {
    if n == 0 then 0
    else
      var d := file[n - 1].data;
      FileSum(file, n - 1) + d[0] + d[1] + d[2] + d[3] + d[4] + d[5]
  }

  lemma SumOfSix(d: seq<nat>)
    requires |d| == 6
    ensures SumBytes(d) == d[0] + d[1] + d[2] + d[3] + d[4] + d[5]
  {
    var none: seq<nat> := [];
    SumOfThree(none, d[0], d[1], d[2]);
    SumOfThree(none + [d[0], d[1], d[2]], d[3], d[4], d[5]);
    assert d == none + [d[0], d[1], d[2]] + [d[3], d[4], d[5]];
  }

  lemma {:induction false} ChecksumIsFileSum(file: seq<FilePacket>, payloads: seq<Payload>)
    requires |payloads| <= |file| && forall n :: 0 <= n < |payloads| ==> payloads[n] == file[n].data
    ensures ChecksumOf(payloads) == FileSum(file, |payloads|) % DWORD
  {
    if payloads != [] {
      var m := |payloads| - 1;
      ChecksumIsFileSum(file, payloads[..m]);
      SumOfSix(payloads[m]);
      ModAdd(FileSum(file, m), SumBytes(payloads[m]));
    }
  }

  /** On any file of full records the checksum is, at every moment, the sum of all payload bytes of the records
      processed so far. */
  lemma ChecksumFollowsFile(file: seq<FilePacket>, target: nat, run: seq<State>, moves: seq<Move>, k: nat)
    requires IsRun(file, target, run, moves) && k < |run|
    requires forall n :: 0 <= n < |file| ==> file[n].len == 6
    ensures run[k].count <= |file| && run[k].checksum == FileSum(file, run[k].count) % 0x1_0000_0000_0000_0000
  {
    RunInv(file, target, run, moves, k);
    var s := run[k];
    forall n | 0 <= n < |s.processed| ensures s.processed[n] == file[n].data {
      assert Matches(s.processed[n], file[n]);
    }
    ChecksumIsFileSum(file, s.processed);
  }

  lemma SumOfThree(s: seq<nat>, a: nat, b: nat, c: nat)
    ensures SumBytes(s + [a, b, c]) == SumBytes(s) + a + b + c
  {
    SumBytesAppend(s, a);
    SumBytesAppend(s + [a], b);
    SumBytesAppend(s + [a] + [b], c);
    assert s + [a] + [b] + [c] == s + [a, b, c];
  }

  /** The byte sum of the program's dummy value. */
  lemma DummySum()
    ensures SumBytes(LowBytes(DUMMY_DATA, PAYLOAD_BYTES)) == 1196
  {
    var none: seq<nat>, bytes := [], LowBytes(DUMMY_DATA, PAYLOAD_BYTES);
    SumOfThree(none, 0xBA, 0xBA, 0xEF);
    SumOfThree(none + [0xBA, 0xBA, 0xEF], 0xBE, 0xAD, 0xDE);
    assert bytes == none + [0xBA, 0xBA, 0xEF] + [0xBE, 0xAD, 0xDE];
  }

  /** The program's dummy value as create_packet_file writes it. */
  predicate IsDummy(d: Payload) {
    d[0] == 0xDE && d[1] == 0xAD && d[2] == 0xBE && d[3] == 0xEF && d[4] == 0xBA && d[5] == 0xBA
  }

  lemma {:induction false} DummyFileSum(file: seq<FilePacket>, n: nat)
    requires n <= |file| && forall i :: 0 <= i < |file| ==> IsDummy(file[i].data)
    ensures FileSum(file, n) == 1196 * n
  {
    if n > 0 {
      assert IsDummy(file[n - 1].data);
      DummyFileSum(file, n - 1);
    }
  }

  /** The program's own file and packet count: the consumer ends with 1196000000, which is 1196 (DummySum), the
      sum that calc_expected_checksum makes of the dummy value, times the packet count. */
  lemma ProgramChecksum(file: seq<FilePacket>, target: nat, run: seq<State>, moves: seq<Move>, k: nat)
    requires target == EXPECTED_PACKET_COUNT && |file| == target
    requires IsRun(file, target, run, moves) && k < |run| && ConsumerDone(target, run[k])
    requires forall n :: 0 <= n < |file| ==> file[n].len == 6
    requires forall n :: 0 <= n < |file| ==> IsDummy(file[n].data)
    ensures run[k].checksum == 1196_000_000
  {
    ChecksumFollowsFile(file, target, run, moves, k);
    DummyFileSum(file, run[k].count);
  }
}
