/**
 Enumerating the submasks of a 32-bit mask with `s = (s - 1) & mask`. The count of set bits comes from
 clearing the lowest set bit until none is left; the reference counts and compresses bits one at a time.
 */
module Submasks {

  /** Where the caller wants the number of submasks. */
  class Cell {
    var value: nat
    constructor () { value := 0; }
  }

  const OK := 0
  const NO_COUNT := -1
  const NO_OUT := -2
  const TOO_SMALL := -3

  // ---------------------------------------------------------------------------------------------
  // Reference definitions
  // ---------------------------------------------------------------------------------------------

  function Bit(b: bool): nat { if b then 1 else 0 }

  function Odd(m: bv32): bool { m & 1 == 1 }

  /** The number of set bits. */
  function BitCount(m: bv32): nat
    decreases m
  {
    if m == 0 then 0 else Bit(Odd(m)) + BitCount(m >> 1)
  }

  function Pow2(k: nat): nat { if k == 0 then 1 else 2 * Pow2(k - 1) }

  predicate Submask(s: bv32, m: bv32) { s & m == s }

  /** The bits of s at the set positions of m, read as a number. */
  function Rank(s: bv32, m: bv32): nat
    decreases m
  {
    if m == 0 then 0
    else if Odd(m) then Bit(Odd(s)) + 2 * Rank(s >> 1, m >> 1)
    else Rank(s >> 1, m >> 1)
  }

  // ---------------------------------------------------------------------------------------------
  // Bit-level facts
  // ---------------------------------------------------------------------------------------------

  lemma HalfIsSmaller(m: bv32, h: bv32)
    requires m != 0 && h == m >> 1
    ensures h < m
    ensures Odd(m) || h != 0
  {}

  lemma MaskedIsSmaller(s: bv32, m: bv32)
    requires s != 0
    ensures s - 1 < s && (s - 1) & m <= s - 1
  {}

  lemma MaskedIsSubmask(s: bv32, m: bv32)
    ensures Submask((s - 1) & m, m)
  {}

  lemma NextWhenOdd(s: bv32, m: bv32, next: bv32, sh: bv32, nh: bv32)
    requires Odd(s) && Submask(s, m) && next == (s - 1) & m && sh == s >> 1 && nh == next >> 1
    ensures Odd(m) && !Odd(next) && nh == sh
  {}

  lemma NextHalf(s: bv32, m: bv32)
    requires s != 0 && s & 1 == 0
    ensures ((s - 1) & m) >> 1 == ((s >> 1) - 1) & (m >> 1)
  {}

  lemma NextParity(s: bv32, m: bv32)
    requires s != 0 && s & 1 == 0
    ensures ((s - 1) & m) & 1 == m & 1
  {}

  lemma NextWhenEven(s: bv32, m: bv32, next: bv32, sh: bv32, mh: bv32, nh: bv32)
    requires s != 0 && !Odd(s) && next == (s - 1) & m && sh == s >> 1 && mh == m >> 1 && nh == next >> 1
    ensures nh == (sh - 1) & mh && Odd(next) == Odd(m)
  {
    NextHalf(s, m);
    NextParity(s, m);
  }

  lemma SubmaskHalves(s: bv32, m: bv32, sh: bv32, mh: bv32)
    requires Submask(s, m) && sh == s >> 1 && mh == m >> 1
    ensures Submask(sh, mh) && (Odd(s) ==> Odd(m))
    ensures m == 0 ==> s == 0
  {}

  lemma HalvesDetermine(s: bv32, t: bv32, sh: bv32, th: bv32)
    requires sh == s >> 1 && th == t >> 1
    ensures sh == th && Odd(s) == Odd(t) ==> s == t
  {}

  lemma CountUnfolds(m: bv32, h: bv32)
    requires h == m >> 1
    ensures BitCount(m) == Bit(Odd(m)) + BitCount(h)
  {}

  lemma RankUnfolds(s: bv32, m: bv32, sh: bv32, mh: bv32)
    requires sh == s >> 1 && mh == m >> 1 && m != 0
    ensures Rank(s, m) == if Odd(m) then Bit(Odd(s)) + 2 * Rank(sh, mh) else Rank(sh, mh)
  {}

  // ---------------------------------------------------------------------------------------------
  // Counting
  // ---------------------------------------------------------------------------------------------

  /** Clearing the lowest set bit takes one off the count. */
  lemma {:induction false} ClearLowestCounts(m: bv32, c: bv32)
    requires m != 0 && c == (m - 1) & m
    ensures BitCount(c) == BitCount(m) - 1
    decreases m
  {
    var h, ch := m >> 1, c >> 1;
    HalfIsSmaller(m, h);
    CountUnfolds(m, h);
    CountUnfolds(c, ch);
    if Odd(m) {
      NextWhenOdd(m, m, c, h, ch);
    } else {
      NextWhenEven(m, m, c, h, h, ch);
      ClearLowestCounts(h, ch);
    }
  }

  /** Stepping to the next submask takes one off the rank. */
  lemma {:induction false} NextRank(s: bv32, m: bv32, next: bv32)
    requires s != 0 && Submask(s, m) && next == (s - 1) & m
    ensures Rank(next, m) == Rank(s, m) - 1
    decreases m
  {
    var sh, mh, nh := s >> 1, m >> 1, next >> 1;
    SubmaskHalves(s, m, sh, mh);
    HalfIsSmaller(s, sh);
    HalfIsSmaller(m, mh);
    RankUnfolds(s, m, sh, mh);
    RankUnfolds(next, m, nh, mh);
    if Odd(s) {
      NextWhenOdd(s, m, next, sh, nh);
    } else {
      NextWhenEven(s, m, next, sh, mh, nh);
      NextRank(sh, mh, nh);
    }
  }

  lemma {:induction false} RankOfWhole(m: bv32)
    ensures Rank(m, m) == Pow2(BitCount(m)) - 1
    decreases m
  {
    if m != 0 {
      RankOfWhole(m >> 1);
    }
  }

  lemma {:induction false} RankBounds(s: bv32, m: bv32)
    requires Submask(s, m)
    ensures Rank(s, m) < Pow2(BitCount(m))
    ensures s != 0 ==> Rank(s, m) > 0
    decreases m
  {
    var sh, mh := s >> 1, m >> 1;
    SubmaskHalves(s, m, sh, mh);
    if m != 0 {
      HalfIsSmaller(m, mh);
      CountUnfolds(m, mh);
      RankUnfolds(s, m, sh, mh);
      if s != 0 {
        HalfIsSmaller(s, sh);
      }
      RankBounds(sh, mh);
    }
  }

  /** Different submasks have different ranks. */
  lemma {:induction false} RankInjective(s: bv32, t: bv32, m: bv32)
    requires Submask(s, m) && Submask(t, m) && Rank(s, m) == Rank(t, m)
    ensures s == t
    decreases m
  {
    var sh, th, mh := s >> 1, t >> 1, m >> 1;
    SubmaskHalves(s, m, sh, mh);
    SubmaskHalves(t, m, th, mh);
    if m != 0 {
      HalfIsSmaller(m, mh);
      RankUnfolds(s, m, sh, mh);
      RankUnfolds(t, m, th, mh);
      HalvesDetermine(s, t, sh, th);
      RankInjective(sh, th, mh);
    }
  }

  lemma {:induction false} PowMonotone(i: nat, j: nat)
    requires i <= j
    ensures 1 <= Pow2(i) <= Pow2(j)
  {
    if i < j {
      PowMonotone(i, j - 1);
    } else if i > 0 {
      PowMonotone(i - 1, j - 1);
    }
  }

  // ---------------------------------------------------------------------------------------------
  // The program
  // ---------------------------------------------------------------------------------------------

  /** The popcount loop. */
  method CountBits(mask: bv32) returns (k: nat)
    ensures k == BitCount(mask)
  {
    k := 0;
    var i := mask;
    while i != 0
      invariant k + BitCount(i) == BitCount(mask)
      decreases i
    {
      ghost var was := i;
      i := (i - 1) & i;
      MaskedIsSmaller(was, was);
      ClearLowestCounts(was, i);
      k := k + 1;
    }
  }

  /** Entry j of a run of non-zero submasks that starts at the whole mask has rank total - j. */
  ghost predicate Ranked(mask: bv32, list: seq<bv32>, total: nat) {
    forall j :: 1 <= j < |list| ==> RankedAt(mask, list[j], total - j)
  }

  ghost predicate RankedAt(mask: bv32, s: bv32, r: int) { Submask(s, mask) && s != 0 && Rank(s, mask) == r }

  /** From entry 1 on each entry is below the one before it. */
  ghost predicate Falls(list: seq<bv32>) {
    forall j :: 1 < j < |list| ==> list[j] < list[j - 1]
  }

  ghost predicate AllSubmasks(mask: bv32, list: seq<bv32>) {
    forall s :: s in list <==> Submask(s, mask)
  }

  ghost predicate NoRepeats(list: seq<bv32>) {
    forall i, j :: 0 <= i < j < |list| ==> list[i] != list[j]
  }

  /** A list of 2^k ranked entries after the 0 is the full list of submasks. */
  lemma RankedIsComplete(mask: bv32, list: seq<bv32>)
    requires |list| == Pow2(BitCount(mask)) > 0 && list[0] == 0 && Ranked(mask, list, |list|)
    ensures AllSubmasks(mask, list) && NoRepeats(list)
  {
    forall s ensures s in list <==> Submask(s, mask) {
      if Submask(s, mask) && s != 0 {
        RankBounds(s, mask);
        var j := |list| - Rank(s, mask);
        assert RankedAt(mask, list[j], |list| - j);
        RankInjective(s, list[j], mask);
      }
      if s in list {
        var j :| 0 <= j < |list| && list[j] == s;
        assert j > 0 ==> RankedAt(mask, list[j], |list| - j);
      }
    }
    forall i, j | 0 <= i < j < |list| ensures list[i] != list[j] {
      assert RankedAt(mask, list[j], |list| - j);
      assert i > 0 ==> RankedAt(mask, list[i], |list| - i);
    }
  }

  /** The submask one rank down is the one the loop goes to, and it is smaller. */
  lemma NextByRank(s: bv32, t: bv32, mask: bv32)
    requires s != 0 && Submask(s, mask) && Submask(t, mask) && Rank(t, mask) == Rank(s, mask) - 1
    ensures t == (s - 1) & mask && t < s
  {
    MaskedIsSubmask(s, mask);
    NextRank(s, mask, (s - 1) & mask);
    RankInjective((s - 1) & mask, t, mask);
    MaskedIsSmaller(s, mask);
  }

  lemma RankedFalls(mask: bv32, list: seq<bv32>, total: nat)
    requires Ranked(mask, list, total)
    ensures Falls(list)
  {
    forall j | 1 < j < |list| ensures list[j] < list[j - 1] {
      assert RankedAt(mask, list[j], total - j) && RankedAt(mask, list[j - 1], total - (j - 1));
      NextByRank(list[j - 1], list[j], mask);
    }
  }

  lemma {:induction false} RankOfNone(m: bv32)
    ensures Rank(0, m) == 0
    decreases m
  {
    if m != 0 {
      var z, mh := 0, m >> 1;
      HalfIsSmaller(m, mh);
      RankUnfolds(0, m, z, mh);
      RankOfNone(mh);
    }
  }

  /** What the submask loop keeps: `list` has been written, `s` is next. */
  ghost predicate Progress(mask: bv32, list: seq<bv32>, s: bv32) {
    && |list| > 0 && list[0] == 0
    && Submask(s, mask)
    && |list| + Rank(s, mask) == Pow2(BitCount(mask))
    && Ranked(mask, list, Pow2(BitCount(mask)))
  }

  lemma StartProgress(mask: bv32)
    ensures Progress(mask, [0], mask)
  {
    RankOfWhole(mask);
  }

  lemma KeepProgress(mask: bv32, list: seq<bv32>, s: bv32, next: bv32)
    requires Progress(mask, list, s) && s != 0 && next == (s - 1) & mask
    ensures next < s && Progress(mask, list + [s], next)
  {
    var total := Pow2(BitCount(mask));
    MaskedIsSmaller(s, mask);
    MaskedIsSubmask(s, mask);
    NextRank(s, mask, next);
    forall j | 1 <= j < |list + [s]| ensures RankedAt(mask, (list + [s])[j], total - j) {
      if j < |list| {
        assert RankedAt(mask, list[j], total - j);
      }
    }
  }

  lemma EndProgress(mask: bv32, list: seq<bv32>)
    requires Progress(mask, list, 0)
    ensures |list| == Pow2(BitCount(mask)) && AllSubmasks(mask, list) && NoRepeats(list) && Falls(list)
  {
    RankOfNone(mask);
    RankedFalls(mask, list, |list|);
    RankedIsComplete(mask, list);
  }

  /** The submask loop. */
  method ListSubmasks(mask: bv32, out: array<bv32>) returns (idx: nat)
    requires 1 <= Pow2(BitCount(mask)) <= out.Length
    modifies out
    ensures idx == Pow2(BitCount(mask))
    ensures out[0] == 0 && Falls(out[..idx])
    ensures AllSubmasks(mask, out[..idx]) && NoRepeats(out[..idx])
    ensures out[idx..] == old(out[idx..])
  {
    out[0] := 0;
    idx := 1;
    var s := mask;
    ghost var list := [0];
    StartProgress(mask);
    while s != 0
      invariant Progress(mask, list, s)
      invariant |list| == idx <= out.Length && out[..idx] == list
      invariant out[idx..] == old(out[idx..])
      decreases s
    {
      ghost var was := s;
      RankBounds(s, mask);
      Store(out, idx, s, list);
      idx := idx + 1;
      s := (s - 1) & mask;
      KeepProgress(mask, list, was, s);
      list := list + [was];
    }
    EndProgress(mask, list);
  }

  method Store(out: array<bv32>, idx: nat, s: bv32, ghost list: seq<bv32>)
    requires idx < out.Length && out[..idx] == list
    modifies out
    ensures out[..idx + 1] == list + [s] && out[idx + 1..] == old(out[idx + 1..])
  {
    out[idx] := s;
  }

  /**
   The whole call. `out` and `count` may be NULL. The shift `1 << k` is defined for at most 30 set bits.
   */
  method GenerateSubmasks(mask: bv32, out: array?<bv32>, cap: nat, count: Cell?) returns (rc: int)
    requires out != null ==> cap <= out.Length
    requires count != null && out != null ==> BitCount(mask) <= 30
    modifies out, count
    ensures count == null ==> rc == -1
    ensures count != null && out == null ==>
              if mask != 0 then rc == -2 && count.value == 0 else rc == 0 && count.value == 1
    ensures count != null && out != null && cap < Pow2(BitCount(mask)) ==> rc == -3 && count.value == 0
    ensures out != null && rc != 0 ==> out[..] == old(out[..])
    ensures count != null && out != null && cap >= Pow2(BitCount(mask)) ==>
              && rc == 0
              && count.value == Pow2(BitCount(mask)) <= cap
              && count.value <= 0x4000_0000
              && 0 < count.value && out[0] == 0 && Falls(out[..count.value])
              && AllSubmasks(mask, out[..count.value])
              && NoRepeats(out[..count.value])
              && out[Pow2(BitCount(mask))..] == old(out[Pow2(BitCount(mask))..])
  {
    if count == null {
      return NO_COUNT;
    }
    count.value := 0;
    if out == null && mask != 0 {
      return NO_OUT;
    }
    if out == null && mask == 0 {
      count.value := 1;
      return OK;
    }
    var k := CountBits(mask);
    PowMonotone(0, k);
    if cap < Pow2(k) {
      return TOO_SMALL;
    }
    var idx := ListSubmasks(mask, out);
    count.value := idx;
    IntFits(k);
    return OK;
  }

  /** With at most 30 set bits the C `int` arithmetic does not overflow. */
  lemma IntFits(k: nat)
    requires k <= 30
    ensures Pow2(k) <= 0x4000_0000
  {
    PowMonotone(k, 30);
    assert Pow2(10) == 1024;
    PowAdds(10, 10);
    PowAdds(10, 20);
  }

  lemma {:induction false} PowAdds(i: nat, j: nat)
    ensures Pow2(i + j) == Pow2(i) * Pow2(j)
  {
    if i > 0 {
      PowAdds(i - 1, j);
    }
  }
}
