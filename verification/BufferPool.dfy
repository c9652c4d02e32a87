/**
 A fixed-size block allocator in raw memory. Free blocks form a list whose links are stored in the blocks
 themselves. Memory is an array of 64-bit words: word c is at byte address 8 * c.
 */
module BufferPool {

  const NULL: nat := 0
  const INVALID: nat := 0xFFFF_FFFF_FFFF_FFFF

  /** `(x + 63) & ~63` on values that do not wrap. */
  function RoundUp(x: nat): (r: nat)
    ensures r % 64 == 0 && x <= r < x + 64
  {
    (x + 63) / 64 * 64
  }

  /** `bs` is the block size the source makes of a requested size: at least 8, then up to a multiple of 64. */
  predicate RightSize(bs: nat, blockSize: nat) {
    var m := if blockSize < 8 then 8 else blockSize;
    bs % 64 == 0 && m <= bs < m + 64
  }

  function Stride(blockSize: nat): (r: nat)
    ensures RightSize(r, blockSize)
  {
    RoundUp(if blockSize < 8 then 8 else blockSize)
  }

  /** The address of block i of a pool that starts at h with blocks bs apart. */
  function At(h: nat, bs: nat, i: nat): nat { if i == 0 then h else At(h, bs, i - 1) + bs }

  lemma {:induction false} AtIs(h: nat, bs: nat, i: nat)
    ensures At(h, bs, i) == h + i * bs
  {
    if i > 0 {
      AtIs(h, bs, i - 1);
    }
  }

  lemma {:induction false} AtAligned(h: nat, bs: nat, i: nat)
    requires h % 64 == 0 && bs % 64 == 0
    ensures At(h, bs, i) % 64 == 0 && At(h, bs, i) >= h
  {
    if i > 0 {
      AtAligned(h, bs, i - 1);
    }
  }

  /** Different blocks do not overlap. */
  lemma {:induction false} AtApart(h: nat, bs: nat, i: nat, j: nat)
    requires i < j
    ensures At(h, bs, i) + bs <= At(h, bs, j)
  {
    if i < j - 1 {
      AtApart(h, bs, i, j - 1);
    }
  }

  /** How many whole blocks lie between h and end. */
  function Capacity(h: nat, bs: nat, end: nat): nat
    requires bs > 0
  {
    if h <= end then (end - h) / bs else 0
  }

  /** Block i fits exactly when i is below the capacity. */
  lemma CapacityIff(h: nat, bs: nat, end: nat, i: nat)
    requires bs > 0
    ensures i < Capacity(h, bs, end) <==> At(h, bs, i) + bs <= end
  {
    AtIs(h, bs, i);
    if h <= end {
      QuotientIff(end - h, bs, i);
    }
  }

  lemma QuotientIff(x: nat, d: nat, i: nat)
    requires d > 0
    ensures i < x / d <==> i * d + d <= x
  {
    var q := x / d;
    assert q * d <= x < q * d + d;
    if i < q {
      assert (i + 1) * d <= q * d;
    } else {
      assert q * d <= i * d;
    }
  }

  // ---------------------------------------------------------------------------------------------
  // The list that init writes
  // ---------------------------------------------------------------------------------------------

  /** The link init writes into a block at address p. */
  function CodedLink(p: nat, bs: nat, end: nat): nat { if p + bs <= end then p + bs else INVALID }

  ghost predicate LinkedAt(m: seq<nat>, h: nat, bs: nat, end: nat, i: nat) {
    var p := At(h, bs, i);
    p < end ==> p / 8 < |m| && m[p / 8] == CodedLink(p, bs, end)
  }

  ghost predicate CodedChain(m: seq<nat>, h: nat, bs: nat, end: nat) { forall i: nat :: LinkedAt(m, h, bs, end, i) }

  /** Entry i of the list that starts at h. */
  function Follow(m: seq<nat>, h: nat, i: nat): nat {
    if i == 0 then h
    else
      var p := Follow(m, h, i - 1);
      if p / 8 < |m| then m[p / 8] else INVALID
  }

  /** The list as coded holds every block that fits, and then one more entry that does not fit. When the
      blocks fill the pool exactly that entry is the pool's end, and when not even the first address is
      inside it is that address: neither link is ever written. Otherwise it starts inside the pool and
      ends the list. */
  lemma {:induction false} CodedChainOverruns(m: seq<nat>, h: nat, bs: nat, end: nat)
    requires bs > 0 && CodedChain(m, h, bs, end)
    ensures forall i :: 0 <= i <= Capacity(h, bs, end) ==> Follow(m, h, i) == At(h, bs, i)
    ensures Follow(m, h, Capacity(h, bs, end)) + bs > end
    ensures h > end ==> Follow(m, h, Capacity(h, bs, end)) == h
    ensures h <= end && (end - h) % bs == 0 ==> Follow(m, h, Capacity(h, bs, end)) == end
    ensures h <= end && (end - h) % bs > 0 ==>
              && Follow(m, h, Capacity(h, bs, end)) == end - (end - h) % bs
              && Follow(m, h, Capacity(h, bs, end) + 1) == INVALID
  {
    var k := Capacity(h, bs, end);
    for i := 0 to k
      invariant forall j :: 0 <= j <= i ==> Follow(m, h, j) == At(h, bs, j)
    {
      CapacityIff(h, bs, end, i);
      assert LinkedAt(m, h, bs, end, i);
      assert Follow(m, h, i + 1) == At(h, bs, i + 1);
    }
    CapacityIff(h, bs, end, k);
    if h <= end {
      AtCapacity(h, bs, end);
      assert LinkedAt(m, h, bs, end, k);
    }
  }

  lemma AtCapacity(h: nat, bs: nat, end: nat)
    requires bs > 0 && h <= end
    ensures At(h, bs, Capacity(h, bs, end)) == end - (end - h) % bs
  {
    AtIs(h, bs, Capacity(h, bs, end));
  }

  // ---------------------------------------------------------------------------------------------
  // Writing past the end
  // ---------------------------------------------------------------------------------------------

  /** The 8-byte store into block i starts inside the pool and crosses its end. */
  predicate CrossesEnd(h: nat, bs: nat, end: nat, i: nat) { At(h, bs, i) < end < At(h, bs, i) + 8 }

  /** Fewer than eight bytes are left after the blocks that fit. */
  predicate Spills(h: nat, bs: nat, end: nat)
    requires bs > 0
  {
    h <= end && 0 < (end - h) % bs < 8
  }

  /** "init writes only inside the pool" is false: some store crosses the pool's end exactly when between
      one and seven bytes are left over, and it is then the store into the entry after the last block. */
  lemma SpillsIff(h: nat, bs: nat, end: nat)
    requires 64 <= bs
    ensures Spills(h, bs, end) <==> exists i: nat :: CrossesEnd(h, bs, end, i)
    ensures forall i: nat :: CrossesEnd(h, bs, end, i) ==> i == Capacity(h, bs, end)
  {
    var k := Capacity(h, bs, end);
    forall i: nat | CrossesEnd(h, bs, end, i) ensures i == k && Spills(h, bs, end) {
      AtAtLeast(h, bs, i);
      AtCapacity(h, bs, end);
      if i < k {
        AtApart(h, bs, i, k);
      } else if k < i {
        AtApart(h, bs, k, i);
      }
    }
    if Spills(h, bs, end) {
      AtCapacity(h, bs, end);
      assert CrossesEnd(h, bs, end, k);
    }
  }

  lemma {:induction false} AtAtLeast(h: nat, bs: nat, i: nat)
    ensures h <= At(h, bs, i)
  {
    if i > 0 {
      AtAtLeast(h, bs, i - 1);
    }
  }

  lemma LinksStay(m: seq<nat>, now: seq<nat>, h: nat, bs: nat, end: nat, n: nat, v: nat)
    requires 64 <= bs && At(h, bs, n) / 8 < |m| && now == m[At(h, bs, n) / 8 := v]
    requires forall i :: 0 <= i < n ==> LinkedAt(m, h, bs, end, i)
    ensures forall i :: 0 <= i < n ==> LinkedAt(now, h, bs, end, i)
  {
    forall i | 0 <= i < n ensures LinkedAt(now, h, bs, end, i) {
      assert LinkedAt(m, h, bs, end, i);
      AtApart(h, bs, i, n);
    }
  }

  lemma PastTheEnd(m: seq<nat>, h: nat, bs: nat, end: nat, n: nat)
    requires At(h, bs, n) >= end && forall i :: 0 <= i < n ==> LinkedAt(m, h, bs, end, i)
    ensures CodedChain(m, h, bs, end)
  {
    forall i: nat ensures LinkedAt(m, h, bs, end, i) {
      if i > n {
        AtApart(h, bs, n, i);
      }
    }
  }

  /** Word c has no byte in the pool from h to end. */
  predicate Outside(c: nat, h: nat, end: nat) { 8 * c + 8 <= h || end <= 8 * c }

  /** Word c has a byte outside it. */
  predicate NotInside(c: nat, h: nat, end: nat) { 8 * c < h || end < 8 * c + 8 }

  /** A store into an aligned block that starts in the pool touches no word outside; one that crosses the
      end hits the word the end is in. */
  lemma StoreStaysNear(h: nat, bs: nat, end: nat, n: nat)
    requires 64 <= bs && h % 64 == 0 && bs % 64 == 0 && At(h, bs, n) < end
    ensures !Outside(At(h, bs, n) / 8, h, end)
    ensures !Spills(h, bs, end) ==> !NotInside(At(h, bs, n) / 8, h, end)
  {
    AtAligned(h, bs, n);
    SpillsIff(h, bs, end);
    assert CrossesEnd(h, bs, end, n) || At(h, bs, n) + 8 <= end;
  }

  lemma SpilledWord(m: seq<nat>, h: nat, bs: nat, end: nat)
    requires 64 <= bs && h % 64 == 0 && bs % 64 == 0 && CodedChain(m, h, bs, end) && Spills(h, bs, end)
    ensures end / 8 < |m| && m[end / 8] == INVALID
  {
    var k := Capacity(h, bs, end);
    AtCapacity(h, bs, end);
    AtAligned(h, bs, k);
    CapacityIff(h, bs, end, k);
    assert LinkedAt(m, h, bs, end, k);
    SameWord(At(h, bs, k), end);
  }

  lemma SameWord(p: nat, q: nat)
    requires p % 64 == 0 && p < q < p + 8
    ensures p / 8 == q / 8
  {}

  /** The loop of init. It writes no word that lies outside the pool, and no byte outside the pool unless
      between one and seven bytes are left over: then it overwrites the word in which the pool ends. */
  method WriteLinks(mem: array<nat>, h: nat, bs: nat, end: nat)
    requires 64 <= bs && h % 64 == 0 && bs % 64 == 0 && end <= 8 * mem.Length
    modifies mem
    ensures CodedChain(mem[..], h, bs, end)
    ensures forall c :: 0 <= c < mem.Length && Outside(c, h, end) ==> mem[c] == old(mem[c])
    ensures !Spills(h, bs, end) ==> forall c :: 0 <= c < mem.Length && NotInside(c, h, end) ==> mem[c] == old(mem[c])
    ensures Spills(h, bs, end) ==> end / 8 < mem.Length && mem[end / 8] == INVALID
  {
    var curr := h;
    ghost var n := 0;
    while curr < end
      invariant h <= curr == At(h, bs, n)
      invariant forall i :: 0 <= i < n ==> LinkedAt(mem[..], h, bs, end, i)
      invariant forall c :: 0 <= c < mem.Length && Outside(c, h, end) ==> mem[c] == old(mem[c])
      invariant !Spills(h, bs, end) ==> forall c :: 0 <= c < mem.Length && NotInside(c, h, end) ==>
                mem[c] == old(mem[c])
    {
      ghost var m := mem[..];
      StoreStaysNear(h, bs, end, n);
      StoreLink(mem, curr, CodedLink(curr, bs, end));
      LinksStay(m, mem[..], h, bs, end, n, CodedLink(curr, bs, end));
      curr := curr + bs;
      n := n + 1;
    }
    PastTheEnd(mem[..], h, bs, end, n);
    if Spills(h, bs, end) {
      SpilledWord(mem[..], h, bs, end);
    }
  }

  method StoreLink(mem: array<nat>, p: nat, link: nat)
    requires p / 8 < mem.Length
    modifies mem
    ensures mem[..] == old(mem[..])[p / 8 := link]
  {
    mem[p / 8] := link;
  }

  // ---------------------------------------------------------------------------------------------
  // The pool's invariant, part by part
  // ---------------------------------------------------------------------------------------------

  function Link(free: seq<nat>, i: nat): nat { if i < |free| then free[i] else INVALID }

  /** From `head`, the links in memory run through `free` in order and end at INVALID. */
  ghost predicate Chain(m: seq<nat>, head: nat, free: seq<nat>) {
    && head == Link(free, 0)
    && forall i :: 0 <= i < |free| ==> free[i] / 8 < |m| && m[free[i] / 8] == Link(free, i + 1)
  }

  ghost predicate NoRepeats(s: seq<nat>) { forall i, j :: 0 <= i < j < |s| ==> s[i] != s[j] }

  /** Every block is 64-byte aligned and inside memory, and no two overlap. */
  ghost predicate BlocksOk(all: seq<nat>, bs: nat, words: nat) {
    && 64 <= bs
    && (forall i :: 0 <= i < |all| ==> all[i] % 64 == 0 && NULL < all[i] < INVALID && all[i] + bs <= 8 * words)
    && (forall i, j :: 0 <= i < j < |all| ==> all[i] + bs <= all[j])
  }

  /** Every block is free or held, and none is both. */
  ghost predicate Partition(all: seq<nat>, free: seq<nat>, held: set<nat>) {
    && NoRepeats(free)
    && (forall x :: x in free ==> x !in held)
    && (forall x :: x in all <==> x in free || x in held)
  }

  lemma AllocKeeps(all: seq<nat>, free: seq<nat>, held: set<nat>)
    requires Partition(all, free, held) && free != []
    ensures Partition(all, free[1..], held + {free[0]})
  {
    assert free == [free[0]] + free[1..];
  }

  lemma FreeKeeps(all: seq<nat>, free: seq<nat>, held: set<nat>, p: nat)
    requires Partition(all, free, held) && p in held
    ensures Partition(all, [p] + free, held - {p})
  {}

  lemma BlocksApart(all: seq<nat>, bs: nat, words: nat, p: nat, q: nat)
    requires BlocksOk(all, bs, words) && p in all && q in all && p != q
    ensures q % 64 == 0 && (p + bs <= q || q + bs <= p)
  {
    var i :| 0 <= i < |all| && all[i] == p;
    var j :| 0 <= j < |all| && all[j] == q;
    if i < j {
      assert all[i] + bs <= all[j];
    } else {
      assert all[j] + bs <= all[i];
    }
  }

  lemma OwnCell(all: seq<nat>, bs: nat, words: nat, p: nat)
    requires BlocksOk(all, bs, words) && p in all
    ensures p <= 8 * (p / 8) < p + bs && p / 8 < words
  {
    var i :| 0 <= i < |all| && all[i] == p;
    assert all[i] % 64 == 0;
  }

  lemma CellOutside(bs: nat, p: nat, q: nat, c: nat)
    requires 64 <= bs && p <= 8 * c < p + bs && q % 64 == 0 && (p + bs <= q || q + bs <= p)
    ensures q / 8 != c
  {}

  /** Writing inside a held block leaves the list as it is. */
  lemma WriteKeepsChain(m: seq<nat>, head: nat, free: seq<nat>, held: set<nat>, all: seq<nat>, bs: nat, p: nat,
                        c: nat, v: nat)
    requires Chain(m, head, free) && BlocksOk(all, bs, |m|) && Partition(all, free, held)
    requires p in held && p <= 8 * c < p + bs
    ensures c < |m| && Chain(m[c := v], head, free)
  {
    assert p in all;
    forall i | 0 <= i < |free| ensures free[i] / 8 < |m| && m[c := v][free[i] / 8] == Link(free, i + 1) {
      assert free[i] in free && free[i] in all;
      BlocksApart(all, bs, |m|, p, free[i]);
      CellOutside(bs, p, free[i], c);
    }
  }

  lemma EmptyIff(all: seq<nat>, bs: nat, words: nat, m: seq<nat>, head: nat, free: seq<nat>, held: set<nat>)
    requires BlocksOk(all, bs, words) && Partition(all, free, held) && Chain(m, head, free)
    ensures head == INVALID <==> free == []
  {
    if free != [] {
      assert free[0] in free && free[0] in all;
    }
  }

  lemma PushChain(m: seq<nat>, head: nat, free: seq<nat>, p: nat)
    requires Chain(m, head, free) && p / 8 < |m| && m[p / 8] == head
    ensures Chain(m, p, [p] + free)
  {
    var more := [p] + free;
    forall i | 0 <= i < |more| ensures more[i] / 8 < |m| && m[more[i] / 8] == Link(more, i + 1) {
      if i > 0 {
        assert more[i] == free[i - 1] && Link(more, i + 1) == Link(free, i);
      }
    }
  }

  lemma PopChain(m: seq<nat>, head: nat, free: seq<nat>)
    requires Chain(m, head, free) && free != []
    ensures head / 8 < |m| && Chain(m, m[head / 8], free[1..])
  {
    var rest := free[1..];
    forall i | 0 <= i < |rest| ensures rest[i] / 8 < |m| && m[rest[i] / 8] == Link(rest, i + 1) {
      assert rest[i] == free[i + 1];
    }
  }

  /** The blocks that fit. */
  function Blocks(h: nat, bs: nat, n: nat): seq<nat> { seq(n, i requires 0 <= i => At(h, bs, i)) }

  lemma BlocksAreOk(h: nat, bs: nat, end: nat, words: nat)
    requires 64 <= bs && bs % 64 == 0 && h % 64 == 0 && NULL < h && end <= 8 * words && end < INVALID
    ensures BlocksOk(Blocks(h, bs, Capacity(h, bs, end)), bs, words)
  {
    var n := Capacity(h, bs, end);
    var all := Blocks(h, bs, n);
    forall i | 0 <= i < n ensures all[i] % 64 == 0 && NULL < all[i] < INVALID && all[i] + bs <= 8 * words {
      AtAligned(h, bs, i);
      CapacityIff(h, bs, end, i);
    }
    forall i, j | 0 <= i < j < n ensures all[i] + bs <= all[j] {
      AtApart(h, bs, i, j);
    }
  }

  /** Every block is aligned and holds the requested number of bytes, inside the pool and clear of the others. */
  ghost predicate Serves(all: seq<nat>, raw: nat, end: nat, blockSize: nat) {
    && (forall i :: 0 <= i < |all| ==> all[i] % 64 == 0 && raw <= all[i] && all[i] + blockSize <= end)
    && (forall i, j :: 0 <= i < j < |all| ==> all[i] + blockSize <= all[j])
  }

  lemma BlocksServe(h: nat, bs: nat, end: nat, raw: nat, blockSize: nat)
    requires 64 <= bs && bs % 64 == 0 && h % 64 == 0 && raw <= h && blockSize <= bs
    ensures Serves(Blocks(h, bs, Capacity(h, bs, end)), raw, end, blockSize)
  {
    var n := Capacity(h, bs, end);
    var all := Blocks(h, bs, n);
    forall i | 0 <= i < n ensures all[i] % 64 == 0 && raw <= all[i] && all[i] + blockSize <= end {
      AtAligned(h, bs, i);
      CapacityIff(h, bs, end, i);
    }
    forall i, j | 0 <= i < j < n ensures all[i] + blockSize <= all[j] {
      AtApart(h, bs, i, j);
    }
  }

  lemma AllFree(all: seq<nat>, bs: nat, words: nat)
    requires BlocksOk(all, bs, words)
    ensures Partition(all, all, {})
  {}

  /** The coded list becomes a proper one when the last block that fits is made the last entry. */
  lemma EndedChain(m: seq<nat>, h: nat, bs: nat, end: nat, n: nat)
    requires 64 <= bs && CodedChain(m, h, bs, end) && n == Capacity(h, bs, end) > 0
    ensures At(h, bs, n - 1) / 8 < |m| && Chain(m[At(h, bs, n - 1) / 8 := INVALID], h, Blocks(h, bs, n))
  {
    var all := Blocks(h, bs, n);
    CapacityIff(h, bs, end, n - 1);
    assert LinkedAt(m, h, bs, end, n - 1);
    var last := At(h, bs, n - 1) / 8;
    var cut := m[last := INVALID];
    forall i | 0 <= i < n ensures all[i] / 8 < |m| && cut[all[i] / 8] == Link(all, i + 1) {
      CapacityIff(h, bs, end, i);
      assert LinkedAt(m, h, bs, end, i);
      if i < n - 1 {
        AtApart(h, bs, i, n - 1);
        assert cut[all[i] / 8] == At(h, bs, i + 1);
      }
    }
  }

  /** The link that ends the list at the last block that fits. */
  function EndedLink(p: nat, bs: nat, end: nat): nat { if p + bs + bs <= end then p + bs else INVALID }

  ghost predicate EndedAt(m: seq<nat>, h: nat, bs: nat, end: nat, i: nat) {
    At(h, bs, i) / 8 < |m| && m[At(h, bs, i) / 8] == EndedLink(At(h, bs, i), bs, end)
  }

  lemma EndedStay(m: seq<nat>, now: seq<nat>, h: nat, bs: nat, end: nat, n: nat, v: nat)
    requires 64 <= bs && At(h, bs, n) / 8 < |m| && now == m[At(h, bs, n) / 8 := v]
    requires forall i :: 0 <= i < n ==> EndedAt(m, h, bs, end, i)
    ensures forall i :: 0 <= i < n ==> EndedAt(now, h, bs, end, i)
  {
    forall i | 0 <= i < n ensures EndedAt(now, h, bs, end, i) {
      assert EndedAt(m, h, bs, end, i);
      AtApart(h, bs, i, n);
    }
  }

  lemma EndedIsChain(m: seq<nat>, h: nat, bs: nat, end: nat, n: nat)
    requires 64 <= bs && n == Capacity(h, bs, end) && forall i :: 0 <= i < n ==> EndedAt(m, h, bs, end, i)
    ensures Chain(m, if n == 0 then INVALID else h, Blocks(h, bs, n))
  {
    var all := Blocks(h, bs, n);
    forall i | 0 <= i < n ensures all[i] / 8 < |m| && m[all[i] / 8] == Link(all, i + 1) {
      assert EndedAt(m, h, bs, end, i);
      CapacityIff(h, bs, end, i + 1);
    }
  }

  /** The first word of a block that fits is inside the pool. */
  lemma FittingStore(h: nat, bs: nat, end: nat, n: nat, words: nat)
    requires 64 <= bs && h % 64 == 0 && bs % 64 == 0 && At(h, bs, n) + bs <= end <= 8 * words
    ensures n < Capacity(h, bs, end) && At(h, bs, n) / 8 < words && !NotInside(At(h, bs, n) / 8, h, end)
  {
    CapacityIff(h, bs, end, n);
    AtAligned(h, bs, n);
    WordInside(At(h, bs, n), h, end, words);
  }

  lemma WordInside(p: nat, h: nat, end: nat, words: nat)
    requires p % 64 == 0 && h <= p && p + 8 <= end <= 8 * words
    ensures p / 8 < words && !NotInside(p / 8, h, end)
  {
    assert 8 * (p / 8) == p;
  }

  lemma NoneLeft(h: nat, bs: nat, end: nat, n: nat)
    requires 64 <= bs && n <= Capacity(h, bs, end) && At(h, bs, n) + bs > end
    ensures n == Capacity(h, bs, end) && (n == 0 <==> h + bs > end)
  {
    CapacityIff(h, bs, end, n);
    CapacityIff(h, bs, end, 0);
  }

  /** The loop of init ended at the last block that fits; `head` is where the list starts. It writes no
      byte outside the pool. */
  method WriteEndedLinks(mem: array<nat>, h: nat, bs: nat, end: nat) returns (head: nat)
    requires 64 <= bs && h % 64 == 0 && bs % 64 == 0 && end <= 8 * mem.Length
    modifies mem
    ensures Chain(mem[..], head, Blocks(h, bs, Capacity(h, bs, end)))
    ensures forall c :: 0 <= c < mem.Length && NotInside(c, h, end) ==> mem[c] == old(mem[c])
  {
    var curr := h;
    ghost var n := 0;
    while curr + bs <= end
      invariant h <= curr == At(h, bs, n) && n <= Capacity(h, bs, end)
      invariant forall i :: 0 <= i < n ==> EndedAt(mem[..], h, bs, end, i)
      invariant forall c :: 0 <= c < mem.Length && NotInside(c, h, end) ==> mem[c] == old(mem[c])
    {
      ghost var m := mem[..];
      FittingStore(h, bs, end, n, mem.Length);
      StoreLink(mem, curr, EndedLink(curr, bs, end));
      EndedStay(m, mem[..], h, bs, end, n, EndedLink(curr, bs, end));
      curr := curr + bs;
      n := n + 1;
    }
    NoneLeft(h, bs, end, n);
    EndedIsChain(mem[..], h, bs, end, n);
    return if h + bs <= end then h else INVALID;
  }

  lemma Split(start: seq<nat>, got: seq<nat>, left: seq<nat>)
    requires start == got + left && left != []
    ensures start == got + [left[0]] + left[1..]
  {}

  class Pool {
    var head: nat
    const mem: array<nat>
    ghost var all: seq<nat>
    ghost var bs: nat
    ghost var free: seq<nat>
    ghost var held: set<nat>

    ghost predicate Valid()
      reads this, mem
    {
      && BlocksOk(all, bs, mem.Length)
      && Partition(all, free, held)
      && Chain(mem[..], head, free)
    }

    /** init as coded. Its list is described by CodedChain, and CodedChainOverruns says where it goes wrong. */
    constructor Coded(memory: array<nat>, raw: nat, size: nat, blockSize: nat)
      requires raw + size <= 8 * memory.Length && raw + size + Stride(blockSize) + 64 < INVALID
      modifies memory
      ensures mem == memory && head % 64 == 0 && raw <= head < raw + 64 && RightSize(bs, blockSize)
      ensures head == RoundUp(raw) && bs == Stride(blockSize)
      ensures CodedChain(mem[..], head, bs, raw + size)
      ensures forall c :: 0 <= c < mem.Length && Outside(c, raw, raw + size) ==> mem[c] == old(memory[c])
      ensures !Spills(head, bs, raw + size) ==>
                forall c :: 0 <= c < mem.Length && NotInside(c, raw, raw + size) ==> mem[c] == old(memory[c])
      ensures Spills(head, bs, raw + size) ==>
                (raw + size) / 8 < mem.Length && mem[(raw + size) / 8] == INVALID
    {
      mem := memory;
      head := RoundUp(raw);
      var stride := Stride(blockSize);
      bs := stride;
      new;
      WriteLinks(mem, head, stride, raw + size);
    }

    /** A pool over a list of blocks that are all free. */
    constructor (memory: array<nat>, first: nat, ghost blocks: seq<nat>, ghost stride: nat)
      requires BlocksOk(blocks, stride, memory.Length) && Chain(memory[..], first, blocks)
      ensures mem == memory && Valid() && bs == stride && all == free == blocks && held == {}
    {
      mem, head, bs, all, free, held := memory, first, stride, blocks, blocks, {};
      AllFree(blocks, stride, memory.Length);
    }

    /** NULL exactly when nothing is free; otherwise the block at the front of the list. */
    method Alloc() returns (r: nat)
      requires Valid()
      modifies this`head, this`free, this`held
      ensures Valid()
      ensures r == NULL <==> old(free) == []
      ensures r == NULL ==> free == old(free) && held == old(held) && head == old(head)
      ensures r != NULL ==> r == old(free)[0] && r in all && free == old(free)[1..] && held == old(held) + {r}
    {
      EmptyIff(all, bs, mem.Length, mem[..], head, free, held);
      if head == INVALID {
        return NULL;
      }
      PopChain(mem[..], head, free);
      AllocKeeps(all, free, held);
      assert head == free[0] && head in all;
      r := head;
      head := mem[head / 8];
      held := held + {r};
      free := free[1..];
    }

    /** The block goes to the front of the list. */
    method Free(ptr: nat)
      requires Valid() && ptr in held
      modifies this`head, this`free, this`held, mem
      ensures Valid()
      ensures free == [ptr] + old(free) && held == old(held) - {ptr} && head == ptr
      ensures forall c :: 0 <= c < mem.Length && c != ptr / 8 ==> mem[c] == old(mem[c])
    {
      OwnCell(all, bs, mem.Length, ptr);
      WriteKeepsChain(mem[..], head, free, held, all, bs, ptr, ptr / 8, head);
      FreeKeeps(all, free, held, ptr);
      var next := head;
      head := ptr;
      ghost var m := mem[..];
      mem[head / 8] := next;
      assert mem[..] == m[ptr / 8 := next];
      PushChain(mem[..], next, free, ptr);
      free := [ptr] + free;
      held := held - {ptr};
    }

    /** Allocating until NULL hands out every free block once, in list order. */
    method Drain() returns (got: seq<nat>)
      requires Valid()
      modifies this`head, this`free, this`held
      ensures Valid() && free == [] && got == old(free)
    {
      got := [];
      ghost var start := free;
      var more := true;
      while more
        invariant Valid() && start == got + free
        invariant !more ==> free == []
        decreases |free|, more
      {
        ghost var left := free;
        var p := Alloc();
        if p == NULL {
          more := false;
        } else {
          Split(start, got, left);
          got := got + [p];
        }
      }
    }

    /** A client stores any value anywhere inside a block it holds. */
    method ClientWrite(block: nat, c: nat, v: nat)
      requires Valid() && block in held && block <= 8 * c < block + bs
      modifies mem
      ensures Valid()
      ensures mem[..] == old(mem[..])[c := v]
    {
      WriteKeepsChain(mem[..], head, free, held, all, bs, block, c, v);
      ghost var m := mem[..];
      mem[c] := v;
      assert mem[..] == m[c := v];
    }
  }

  method BuildPool(memory: array<nat>, h: nat, stride: nat, raw: nat, end: nat, ghost blockSize: nat)
    returns (pool: Pool)
    requires 64 <= stride && stride % 64 == 0 && h % 64 == 0 && NULL < h && end <= 8 * memory.Length && end < INVALID
    requires raw <= h && blockSize <= stride
    modifies memory
    ensures fresh(pool) && pool.mem == memory && pool.Valid() && pool.bs == stride && pool.held == {}
    ensures pool.free == pool.all == Blocks(h, stride, Capacity(h, stride, end))
              && Serves(pool.all, raw, end, blockSize)
    ensures forall c :: 0 <= c < memory.Length && NotInside(c, raw, end) ==> memory[c] == old(memory[c])
  {
    var first := WriteEndedLinks(memory, h, stride, end);
    ghost var blocks := Blocks(h, stride, Capacity(h, stride, end));
    BlocksAreOk(h, stride, end, memory.Length);
    BlocksServe(h, stride, end, raw, blockSize);
    pool := new Pool(memory, first, blocks, stride);
  }

  /** The first aligned address and the block size. */
  method Align(raw: nat, blockSize: nat) returns (h: nat, stride: nat)
    ensures h % 64 == 0 && raw <= h < raw + 64 && RightSize(stride, blockSize)
  {
    h, stride := RoundUp(raw), Stride(blockSize);
  }

  /** init with the list ended at the last block that fits: all of them free, in address order. */
  method InitEnded(memory: array<nat>, raw: nat, size: nat, blockSize: nat) returns (pool: Pool, h: nat)
    requires NULL < raw && raw + size <= 8 * memory.Length && raw + size < INVALID
    modifies memory
    ensures fresh(pool) && pool.mem == memory && pool.Valid() && pool.held == {}
    ensures h % 64 == 0 && raw <= h < raw + 64 && RightSize(pool.bs, blockSize)
    ensures pool.free == pool.all == Blocks(h, pool.bs, Capacity(h, pool.bs, raw + size))
    ensures Serves(pool.all, raw, raw + size, blockSize)
    ensures forall c :: 0 <= c < memory.Length && NotInside(c, raw, raw + size) ==> memory[c] == old(memory[c])
  {
    var stride;
    h, stride := Align(raw, blockSize);
    pool := BuildPool(memory, h, stride, raw, raw + size, blockSize);
  }

  /** A pool of bytes 64 to 132 with blocks of 64: init overwrites bytes 132 to 136, which are not its own. */
  method SpillExample() returns (memory: array<nat>)
    ensures fresh(memory) && memory.Length == 32 && NotInside(16, 64, 64 + 68) && memory[16] == INVALID
  {
    memory := new nat[32](i => 0);
    var pool := new Pool.Coded(memory, 64, 68, 64);
  }

  /** 1024 bytes from address 64, in blocks of 200 bytes: four blocks, 256 apart. */
  lemma BlocksExample(h: nat, bs: nat)
    requires h % 64 == 0 && 64 <= h < 64 + 64 && RightSize(bs, 200)
    ensures Blocks(h, bs, Capacity(h, bs, 64 + 1024)) == [64, 320, 576, 832]
  {
    assert h == 64 && bs == 256;
    assert Capacity(64, 256, 1088) == 4;
    AtIs(64, 256, 0);
    AtIs(64, 256, 1);
    AtIs(64, 256, 2);
    AtIs(64, 256, 3);
  }
}
