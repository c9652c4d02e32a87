/**
 memcpy, memmove and memset over one flat byte memory. An address is a position in the memory and
 address 0 is NULL. A 32-bit access moves four bytes at once, lowest address first (little-endian);
 alignment is not modelled.
 */
module MemBasics {

  const NULL: nat := 0

  /** `n` bytes at `p` are inside the memory. */
  predicate InMemory(size: nat, p: nat, n: nat) { p + n <= size }

  /** `now` is `was` with the old n bytes at src copied to dst, and nothing else changed. */
  ghost predicate Moved<T>(now: seq<T>, was: seq<T>, dst: nat, src: nat, n: nat) {
    && InMemory(|was|, dst, n)
    && InMemory(|was|, src, n)
    && |now| == |was|
    && now[..dst] == was[..dst]
    && now[dst..dst + n] == was[src..src + n]
    && now[dst + n..] == was[dst + n..]
  }

  /** Where the byte at address `a` comes from when n bytes move from src to dst. */
  function From(dst: nat, src: nat, n: nat, a: nat): nat { if dst <= a < dst + n then src + (a - dst) else a }

  lemma MovedAt<T>(now: seq<T>, was: seq<T>, dst: nat, src: nat, n: nat, a: nat)
    requires Moved(now, was, dst, src, n) && a < |was|
    ensures now[a] == was[From(dst, src, n, a)]
  {
    assert a < dst ==> now[..dst][a] == was[..dst][a];
    assert dst <= a < dst + n ==> now[dst..dst + n][a - dst] == was[src..src + n][a - dst];
    assert dst + n <= a ==> now[dst + n..][a - (dst + n)] == was[dst + n..][a - (dst + n)];
  }

  /** Copying forward is right when the source does not start below the destination inside it. */
  predicate ForwardSafe(dst: nat, src: nat, n: nat) { dst <= src || src + n <= dst }

  /** Moving `m` more bytes, all read before any is written, after `k` have been moved. */
  lemma MoveMore<T>(was: seq<T>, mid: seq<T>, now: seq<T>, dst: nat, src: nat, k: nat, m: nat)
    requires InMemory(|was|, dst, k + m) && InMemory(|was|, src, k + m) && ForwardSafe(dst, src, k + m)
    requires Moved(mid, was, dst, src, k) && Moved(now, mid, dst + k, src + k, m)
    ensures Moved(now, was, dst, src, k + m)
  {
    forall a | 0 <= a < |was| ensures now[a] == was[From(dst, src, k + m, a)] {
      MovedAt(now, mid, dst + k, src + k, m, a);
      MovedAt(mid, was, dst, src, k, From(dst + k, src + k, m, a));
    }
  }

  /** The same towards lower addresses, one byte at a time, when the source lies below. */
  lemma MoveOneBack<T>(was: seq<T>, mid: seq<T>, now: seq<T>, dst: nat, src: nat, k: nat)
    requires InMemory(|was|, dst, k) && InMemory(|was|, src, k) && 0 < src < dst
    requires Moved(mid, was, dst, src, k) && Moved(now, mid, dst - 1, src - 1, 1)
    ensures Moved(now, was, dst - 1, src - 1, k + 1)
  {
    forall a | 0 <= a < |was| ensures now[a] == was[From(dst - 1, src - 1, k + 1, a)] {
      MovedAt(now, mid, dst - 1, src - 1, 1, a);
      MovedAt(mid, was, dst, src, k, From(dst - 1, src - 1, 1, a));
    }
  }

  /** One 32-bit load and store. */
  method CopyWord<T>(mem: array<T>, d: nat, s: nat)
    requires InMemory(mem.Length, d, 4) && InMemory(mem.Length, s, 4)
    modifies mem
    ensures Moved(mem[..], old(mem[..]), d, s, 4)
  {
    mem[d], mem[d + 1], mem[d + 2], mem[d + 3] := mem[s], mem[s + 1], mem[s + 2], mem[s + 3];
  }

  method CopyByte<T>(mem: array<T>, d: nat, s: nat)
    requires InMemory(mem.Length, d, 1) && InMemory(mem.Length, s, 1)
    modifies mem
    ensures Moved(mem[..], old(mem[..]), d, s, 1)
  {
    mem[d] := mem[s];
  }

  /** One turn of the word loop, after `k` bytes. */
  method CopyNextWord<T>(mem: array<T>, dst: nat, src: nat, k: nat, ghost was: seq<T>)
    requires InMemory(mem.Length, dst, k + 4) && InMemory(mem.Length, src, k + 4) && ForwardSafe(dst, src, k + 4)
    requires Moved(mem[..], was, dst, src, k)
    modifies mem
    ensures Moved(mem[..], was, dst, src, k + 4)
  {
    ghost var mid := mem[..];
    CopyWord(mem, dst + k, src + k);
    MoveMore(was, mid, mem[..], dst, src, k, 4);
  }

  /** The word loop. */
  method CopyWords<T>(mem: array<T>, dst: nat, src: nat, words: nat, n: nat)
    requires n == 4 * words
    requires InMemory(mem.Length, dst, n) && InMemory(mem.Length, src, n) && ForwardSafe(dst, src, n)
    modifies mem
    ensures Moved(mem[..], old(mem[..]), dst, src, n)
  {
    ghost var was := mem[..];
    var done := 0;
    for i := 0 to words
      invariant done == 4 * i
      invariant Moved(mem[..], was, dst, src, done)
    {
      CopyNextWord(mem, dst, src, done, was);
      done := done + 4;
    }
  }

  /** The byte loop. */
  method CopyBytes<T>(mem: array<T>, dst: nat, src: nat, n: nat)
    requires InMemory(mem.Length, dst, n) && InMemory(mem.Length, src, n) && ForwardSafe(dst, src, n)
    modifies mem
    ensures Moved(mem[..], old(mem[..]), dst, src, n)
  {
    ghost var was := mem[..];
    for i := 0 to n
      invariant Moved(mem[..], was, dst, src, i)
    {
      ghost var mid := mem[..];
      CopyByte(mem, dst + i, src + i);
      MoveMore(was, mid, mem[..], dst, src, i, 1);
    }
  }

  /** Whole words (k bytes), then the bytes that are left. */
  method CopyForward<T>(mem: array<T>, dst: nat, src: nat, words: nat, k: nat, rest: nat)
    requires k == 4 * words
    requires InMemory(mem.Length, dst, k + rest) && InMemory(mem.Length, src, k + rest)
              && ForwardSafe(dst, src, k + rest)
    modifies mem
    ensures Moved(mem[..], old(mem[..]), dst, src, k + rest)
  {
    CopyWords(mem, dst, src, words, k);
    ghost var mid := mem[..];
    CopyBytes(mem, dst + k, src + k, rest);
    MoveMore(old(mem[..]), mid, mem[..], dst, src, k, rest);
  }

  /** One turn of memmove's backward loop, after the `k` bytes from `d` on. */
  method CopyPreviousByte<T>(mem: array<T>, d: nat, s: nat, k: nat, ghost was: seq<T>)
    requires InMemory(mem.Length, d, k) && InMemory(mem.Length, s, k) && 0 < s < d
    requires Moved(mem[..], was, d, s, k)
    modifies mem
    ensures Moved(mem[..], was, d - 1, s - 1, k + 1)
  {
    ghost var mid := mem[..];
    CopyByte(mem, d - 1, s - 1);
    MoveOneBack(was, mid, mem[..], d, s, k);
  }

  /** The byte loop of memmove, from the last byte down to the first. */
  method CopyBackward<T>(mem: array<T>, dst: nat, src: nat, n: nat)
    requires InMemory(mem.Length, dst, n) && InMemory(mem.Length, src, n) && src < dst
    modifies mem
    ensures Moved(mem[..], old(mem[..]), dst, src, n)
  {
    ghost var was := mem[..];
    var d, s, i := dst + n, src + n, 0;
    while i < n
      invariant i <= n && d + i == dst + n && s + i == src + n
      invariant Moved(mem[..], was, d, s, i)
    {
      CopyPreviousByte(mem, d, s, i, was);
      d, s, i := d - 1, s - 1, i + 1;
    }
  }

  /** memcpy, for regions that do not overlap or whose overlap a forward copy survives. */
  method MyMemcpy<T>(mem: array<T>, dst: nat, src: nat, n: nat) returns (r: nat)
    requires dst == NULL || src == NULL || n == 0
          || (InMemory(mem.Length, dst, n) && InMemory(mem.Length, src, n) && ForwardSafe(dst, src, n))
    modifies mem
    ensures r == dst
    ensures dst == NULL || src == NULL || n == 0 ==> mem[..] == old(mem[..])
    ensures dst != NULL && src != NULL && n != 0 ==> Moved(mem[..], old(mem[..]), dst, src, n)
  {
    if dst == NULL || src == NULL || n == 0 {
      return dst;
    }
    CopyForward(mem, dst, src, n / 4, n / 4 * 4, n % 4);
    return dst;
  }

  /** Overlap of any kind and distance is handled: dst gets the old src and nothing else changes. */
  method MyMemmove<T>(mem: array<T>, dst: nat, src: nat, n: nat) returns (r: nat)
    requires dst == NULL || src == NULL || n == 0 || (InMemory(mem.Length, dst, n) && InMemory(mem.Length, src, n))
    modifies mem
    ensures r == dst
    ensures dst == NULL || src == NULL || n == 0 ==> mem[..] == old(mem[..])
    ensures dst != NULL && src != NULL && n != 0 ==> Moved(mem[..], old(mem[..]), dst, src, n)
  {
    if dst == NULL || src == NULL || n == 0 || src == dst {
      return dst;
    }
    if dst > src && dst <= src + (n - 1) {
      CopyBackward(mem, dst, src, n);
      return dst;
    } else {
      r := MyMemcpy(mem, dst, src, n);
    }
  }

  // ---------------------------------------------------------------------------------------------
  // memset
  // ---------------------------------------------------------------------------------------------

  /** `value` is the bit pattern of the C `int`; this is the signed test `value > 255`. */
  predicate TooLarge(value: bv32) { 255 < value < 0x8000_0000 }

  function LowByte(value: bv32): bv8 { (value & 0xFF) as bv8 }

  /** The word the loop stores. */
  function Word(value: bv32): bv32 { (value << 24) | (value << 16) | (value << 8) | value }

  /** Byte `k` of a word in memory order. */
  function ByteOf(w: bv32, k: nat): bv8 {
    if k == 0 then (w & 0xFF) as bv8
    else if k == 1 then ((w >> 8) & 0xFF) as bv8
    else if k == 2 then ((w >> 16) & 0xFF) as bv8
    else ((w >> 24) & 0xFF) as bv8
  }

  /** What byte `i` of the n bytes becomes: whole words first, then single bytes. */
  function SetByte(value: bv32, n: nat, i: nat): bv8 {
    if i < n / 4 * 4 then ByteOf(Word(value), i % 4) else LowByte(value)
  }

  function Pattern(value: bv32, n: nat): seq<bv8> { seq(n, i requires 0 <= i => SetByte(value, n, i)) }

  /** The memory after memset. */
  ghost function AfterMemset(mem: seq<bv8>, dst: nat, value: bv32, n: nat): seq<bv8>
    requires dst == NULL || n == 0 || InMemory(|mem|, dst, n)
  {
    if dst == NULL || TooLarge(value) || n == 0 then mem
    else mem[..dst] + Pattern(value, n) + mem[dst + n..]
  }

  /** The first `k` of the bytes to set have been set. */
  ghost function SetSoFar<T>(mem: seq<T>, dst: nat, bytes: seq<T>, k: nat): seq<T>
    requires k <= |bytes| && InMemory(|mem|, dst, k)
  {
    mem[..dst] + bytes[..k] + mem[dst + k..]
  }

  /** One store. */
  method SetNextByte<T>(mem: array<T>, dst: nat, k: nat, b: T, ghost bytes: seq<T>, ghost was: seq<T>)
    requires k < |bytes| && b == bytes[k] && InMemory(|was|, dst, k + 1)
    requires mem[..] == SetSoFar(was, dst, bytes, k)
    modifies mem
    ensures mem[..] == SetSoFar(was, dst, bytes, k + 1)
  {
    mem[dst + k] := b;
    assert bytes[..k + 1] == bytes[..k] + [b];
  }

  /** One 32-bit store, lowest address first. */
  method SetNextWord(mem: array<bv8>, dst: nat, k: nat, w: bv32, ghost bytes: seq<bv8>, ghost was: seq<bv8>)
    requires k + 4 <= |bytes| && InMemory(|was|, dst, k + 4)
    requires forall j :: 0 <= j < 4 ==> bytes[k + j] == ByteOf(w, j)
    requires mem[..] == SetSoFar(was, dst, bytes, k)
    modifies mem
    ensures mem[..] == SetSoFar(was, dst, bytes, k + 4)
  {
    for j := 0 to 4
      invariant mem[..] == SetSoFar(was, dst, bytes, k + j)
    {
      SetNextByte(mem, dst, k + j, ByteOf(w, j), bytes, was);
    }
  }

  lemma PatternWords(value: bv32, n: nat, i: nat, j: nat)
    requires i < n / 4 && j < 4
    ensures Pattern(value, n)[4 * i + j] == ByteOf(Word(value), j)
  {}

  /** One turn of the word loop: word i of the pattern. */
  method SetPatternWord(mem: array<bv8>, dst: nat, value: bv32, n: nat, i: nat, ghost was: seq<bv8>)
    requires i < n / 4 && InMemory(|was|, dst, n) && mem[..] == SetSoFar(was, dst, Pattern(value, n), 4 * i)
    modifies mem
    ensures mem[..] == SetSoFar(was, dst, Pattern(value, n), 4 * i + 4)
  {
    forall j | 0 <= j < 4 ensures Pattern(value, n)[4 * i + j] == ByteOf(Word(value), j) {
      PatternWords(value, n, i, j);
    }
    SetNextWord(mem, dst, 4 * i, Word(value), Pattern(value, n), was);
  }

  /** The word loop. */
  method SetWords(mem: array<bv8>, dst: nat, value: bv32, n: nat)
    requires InMemory(mem.Length, dst, n)
    modifies mem
    ensures mem[..] == SetSoFar(old(mem[..]), dst, Pattern(value, n), n / 4 * 4)
  {
    ghost var was := mem[..];
    for i := 0 to n / 4
      invariant mem[..] == SetSoFar(was, dst, Pattern(value, n), 4 * i)
    {
      SetPatternWord(mem, dst, value, n, i, was);
    }
  }

  /** The byte loop, after the words. */
  method SetBytes(mem: array<bv8>, dst: nat, value: bv32, n: nat, ghost was: seq<bv8>)
    requires InMemory(|was|, dst, n) && mem[..] == SetSoFar(was, dst, Pattern(value, n), n / 4 * 4)
    modifies mem
    ensures mem[..] == SetSoFar(was, dst, Pattern(value, n), n)
  {
    ghost var bytes := Pattern(value, n);
    for i := n / 4 * 4 to n
      invariant mem[..] == SetSoFar(was, dst, bytes, i)
    {
      SetNextByte(mem, dst, i, LowByte(value), bytes, was);
    }
  }

  method MyMemset(mem: array<bv8>, dst: nat, value: bv32, n: nat) returns (r: nat)
    requires dst == NULL || n == 0 || InMemory(mem.Length, dst, n)
    modifies mem
    ensures r == dst && mem[..] == AfterMemset(old(mem[..]), dst, value, n)
    ensures forall a :: 0 <= a < mem.Length && !(dst <= a < dst + n) ==> mem[a] == old(mem[a])
    ensures dst == NULL || TooLarge(value) ==> mem[..] == old(mem[..])
    ensures dst != NULL && !TooLarge(value) ==>
              forall i :: 0 <= i < n ==> mem[dst + i] == SetByte(value, n, i)
  {
    if dst == NULL || TooLarge(value) || n == 0 {
      return dst;
    }
    SetWords(mem, dst, value, n);
    SetBytes(mem, dst, value, n, old(mem[..]));
    return dst;
  }

  /** No bit above the low byte lies outside the low byte's bits, byte by byte. */
  predicate HigherBytesWithinLow(value: bv32) {
    ((value >> 8) | (value >> 16) | (value >> 24) | value) & 0xFF == value & 0xFF
  }

  lemma WordBytesIff(value: bv32)
    ensures (ByteOf(Word(value), 0) == ByteOf(Word(value), 1) == ByteOf(Word(value), 2) == ByteOf(Word(value), 3)
              == LowByte(value))
       <==> HigherBytesWithinLow(value)
    ensures value <= 255 ==> HigherBytesWithinLow(value)
  {}

  ghost predicate FilledAt(mem: seq<bv8>, dst: nat, value: bv32, n: nat, i: nat) {
    dst != NULL && InMemory(|mem|, dst, n) && i < n ==> AfterMemset(mem, dst, value, n)[dst + i] == LowByte(value)
  }

  /** On every memory, each of the n bytes gets the low byte of `value`. */
  ghost predicate Fills(value: bv32, n: nat) {
    forall mem: seq<bv8>, dst: nat, i: nat :: FilledAt(mem, dst, value, n, i)
  }

  lemma SetAt(mem: seq<bv8>, dst: nat, value: bv32, n: nat, i: nat)
    requires dst != NULL && InMemory(|mem|, dst, n) && i < n && !TooLarge(value)
    ensures AfterMemset(mem, dst, value, n)[dst + i] == SetByte(value, n, i)
  {}

  /** Byte j of `value`, lowest first. */
  function ValueByte(value: bv32, j: nat): bv8 {
    if j == 0 then (value & 0xFF) as bv8
    else if j == 1 then ((value >> 8) & 0xFF) as bv8
    else if j == 2 then ((value >> 16) & 0xFF) as bv8
    else ((value >> 24) & 0xFF) as bv8
  }

  lemma WordByte0(value: bv32)
    ensures ByteOf(Word(value), 0) == ValueByte(value, 0)
  {}

  lemma WordByte1(value: bv32)
    ensures ByteOf(Word(value), 1) == ValueByte(value, 0) | ValueByte(value, 1)
  {}

  lemma WordByte2(value: bv32)
    ensures ByteOf(Word(value), 2) == ValueByte(value, 0) | ValueByte(value, 1) | ValueByte(value, 2)
  {}

  lemma WordByte3(value: bv32)
    ensures ByteOf(Word(value), 3)
         == ValueByte(value, 0) | ValueByte(value, 1) | ValueByte(value, 2) | ValueByte(value, 3)
  {}

  /** Exactly what each byte becomes: byte i of the whole words is the or of the value's bytes 0 to i mod 4,
      and the bytes after the last whole word are its lowest byte. */
  lemma MemsetBytes(value: bv32, n: nat, i: nat)
    requires i < n
    ensures i >= n / 4 * 4 || i % 4 == 0 ==> SetByte(value, n, i) == ValueByte(value, 0)
    ensures i < n / 4 * 4 && i % 4 == 1 ==> SetByte(value, n, i) == ValueByte(value, 0) | ValueByte(value, 1)
    ensures i < n / 4 * 4 && i % 4 == 2 ==>
              SetByte(value, n, i) == ValueByte(value, 0) | ValueByte(value, 1) | ValueByte(value, 2)
    ensures i < n / 4 * 4 && i % 4 == 3 ==>
              SetByte(value, n, i) == ValueByte(value, 0) | ValueByte(value, 1) | ValueByte(value, 2)
                  | ValueByte(value, 3)
  {
    WordByte0(value);
    WordByte1(value);
    WordByte2(value);
    WordByte3(value);
  }

  lemma AlwaysLowByte(value: bv32, n: nat, i: nat)
    requires n < 4 || HigherBytesWithinLow(value)
    ensures i < n ==> SetByte(value, n, i) == LowByte(value)
  {
    WordBytesIff(value);
  }

  lemma OddByte(value: bv32) returns (j: nat)
    requires !HigherBytesWithinLow(value)
    ensures j < 4 && ByteOf(Word(value), j) != LowByte(value)
  {
    WordBytesIff(value);
    j := if ByteOf(Word(value), 1) != LowByte(value) then 1
         else if ByteOf(Word(value), 2) != LowByte(value) then 2
         else 3;
  }

  lemma FillsWhen(value: bv32, n: nat)
    requires n == 0 || (!TooLarge(value) && (n < 4 || HigherBytesWithinLow(value)))
    ensures Fills(value, n)
  {
    forall mem: seq<bv8>, dst: nat, i: nat ensures FilledAt(mem, dst, value, n, i) {
      if dst != NULL && InMemory(|mem|, dst, n) && i < n {
        AlwaysLowByte(value, n, i);
        SetAt(mem, dst, value, n, i);
      }
    }
  }

  lemma TooLargeNeverFills(value: bv32, n: nat)
    requires n > 0 && TooLarge(value)
    ensures !Fills(value, n)
  {
    var other := LowByte(value) ^ 1;
    assert other != LowByte(value);
    var mem := seq(n + 1, i => other);
    assert !FilledAt(mem, 1, value, n, 0);
  }

  lemma WordsNeverFill(value: bv32, n: nat)
    requires n >= 4 && !TooLarge(value) && !HigherBytesWithinLow(value)
    ensures !Fills(value, n)
  {
    var j := OddByte(value);
    var mem := seq(n + 1, i => 0);
    SetAt(mem, 1, value, n, j);
    assert !FilledAt(mem, 1, value, n, j);
  }

  /** "memset writes the low byte of value" is false in general. It holds for every memory exactly when
      there is nothing to write, or the value is at most 255 and either fewer than four bytes are set
      or the value's higher bytes add no bits to its low byte (as for 0 to 255, or -1). */
  lemma MemsetFillsIff(value: bv32, n: nat)
    ensures Fills(value, n) <==> n == 0 || (!TooLarge(value) && (n < 4 || HigherBytesWithinLow(value)))
  {
    if n == 0 || (!TooLarge(value) && (n < 4 || HigherBytesWithinLow(value))) {
      FillsWhen(value, n);
    } else if TooLarge(value) {
      TooLargeNeverFills(value, n);
    } else {
      WordsNeverFill(value, n);
    }
  }

  /** Setting four bytes to -2 writes 0xFE 0xFF 0xFF 0xFF, and setting one to 256 writes nothing. */
  lemma MemsetMisses()
    ensures !Fills(0xFFFF_FFFE, 4) && !Fills(256, 1)
  {
    MemsetFillsIff(0xFFFF_FFFE, 4);
    MemsetFillsIff(256, 1);
  }
}
