/**
 The two-level sparse set: a dense array of active values, 65536 pages of 65536 entries each that map
 a value to its dense position, and a count per page that says when a page can be freed.

 Two things differ from the stated intent. A value equal to `universe_size` is admitted. And `ss_clear`
 zeroes LEVEL_SIZE bytes of the page counts, which is only a quarter of them; the other counts stay
 too high, so pages may outlive their last value (never the other way round).
 */
module SparseSet {
  import opened Counting

  const LEVEL_SIZE: nat := 65536
  const WORD: nat := 0x1_0000_0000
  const NONE: nat := 0xFFFF_FFFF
  const COUNTER_BYTES: nat := 4

  datatype Leaf = Null | Leaf(entries: seq<nat>)

  // ---------------------------------------------------------------------------------------------
  // Values: the pages as a map, and their agreement with the dense sequence
  // ---------------------------------------------------------------------------------------------

  function Page(v: nat): nat { v / LEVEL_SIZE }

  function Slot(v: nat): nat { v % LEVEL_SIZE }

  ghost predicate Paged(sparse: seq<Leaf>) {
    |sparse| == LEVEL_SIZE && forall p :: 0 <= p < LEVEL_SIZE && sparse[p].Leaf? ==> |sparse[p].entries| == LEVEL_SIZE
  }

  /** The entry of `v`, or NONE when its page does not exist. */
  ghost function Lookup(sparse: seq<Leaf>, v: nat): nat
    requires Paged(sparse) && v < WORD
  {
    if sparse[Page(v)].Null? then NONE else sparse[Page(v)].entries[Slot(v)]
  }

  /** The pages list exactly the values of `d`, each with its position in `d`. */
  ghost predicate Indexed(d: seq<nat>, sparse: seq<Leaf>) {
    && Paged(sparse)
    && |d| <= NONE
    && (forall i :: 0 <= i < |d| ==> d[i] < WORD && Lookup(sparse, d[i]) == i)
    && (forall v: nat :: v < WORD && Lookup(sparse, v) != NONE ==> Lookup(sparse, v) < |d| && d[Lookup(sparse, v)] == v)
  }

  function InPage(p: nat): nat -> bool { (v: nat) => Page(v) == p }

  /** A page's count is at least the number of its active values, so no page is freed too early. */
  ghost predicate CountsCover(d: seq<nat>, counts: seq<nat>) {
    |counts| == LEVEL_SIZE && forall p :: 0 <= p < LEVEL_SIZE ==> Count(d, InPage(p)) <= counts[p] < WORD
  }

  /** Counts are exact and a page exists exactly when it has an active value. */
  ghost predicate CountsExact(d: seq<nat>, sparse: seq<Leaf>, counts: seq<nat>) {
    && |counts| == LEVEL_SIZE && |sparse| == LEVEL_SIZE
    && forall p :: 0 <= p < LEVEL_SIZE ==> counts[p] == Count(d, InPage(p)) && (sparse[p].Leaf? <==> counts[p] > 0)
  }

  ghost function SetEntry(sparse: seq<Leaf>, v: nat, x: nat): seq<Leaf>
    requires Paged(sparse) && v < WORD && sparse[Page(v)].Leaf?
  {
    sparse[Page(v) := Leaf(sparse[Page(v)].entries[Slot(v) := x])]
  }

  ghost function FreshLeaf(): Leaf { Leaf(seq(LEVEL_SIZE, i => NONE)) }

  lemma SetEntryLookup(sparse: seq<Leaf>, v: nat, x: nat, u: nat)
    requires Paged(sparse) && v < WORD && sparse[Page(v)].Leaf? && u < WORD
    ensures Paged(SetEntry(sparse, v, x))
    ensures Lookup(SetEntry(sparse, v, x), u) == if u == v then x else Lookup(sparse, u)
  {}

  /** Removal by swapping with the last element. */
  function SwapRemove(d: seq<nat>, i: nat): (r: seq<nat>)
    requires i < |d|
    ensures |r| == |d| - 1
  {
    d[i := d[|d| - 1]][..|d| - 1]
  }

  lemma {:induction false} CountAppend(d: seq<nat>, v: nat, p: nat -> bool)
    ensures Count(d + [v], p) == Count(d, p) + if p(v) then 1 else 0
  {
    if d == [] {
      assert d + [v] == [v];
    } else {
      assert (d + [v])[1..] == d[1..] + [v];
      CountAppend(d[1..], v, p);
    }
  }

  lemma CountSwapRemove(d: seq<nat>, i: nat, p: nat -> bool)
    requires i < |d|
    ensures Count(SwapRemove(d, i), p) == Count(d, p) - if p(d[i]) then 1 else 0
  {
    var last, kept := d[|d| - 1], SwapRemove(d, i);
    SwapRemoveAppend(d, i);
    CountUpdate(d, i, last, p);
    CountAppend(kept, last, p);
  }

  lemma SwapRemoveAppend(d: seq<nat>, i: nat)
    requires i < |d|
    ensures SwapRemove(d, i) + [d[|d| - 1]] == d[i := d[|d| - 1]]
  {}

  lemma MembersAreFound(d: seq<nat>, sparse: seq<Leaf>, v: nat)
    requires Indexed(d, sparse) && v < WORD
    ensures v in d <==> Lookup(sparse, v) != NONE
    ensures v in d ==> Lookup(sparse, v) < |d| && d[Lookup(sparse, v)] == v
  {
    if v in d {
      var i :| 0 <= i < |d| && d[i] == v;
    }
  }

  lemma NoDuplicates(d: seq<nat>, sparse: seq<Leaf>, i: nat, j: nat)
    requires Indexed(d, sparse) && i < |d| && j < |d| && d[i] == d[j]
    ensures i == j
  {
    assert Lookup(sparse, d[i]) == i && Lookup(sparse, d[j]) == j;
  }

  lemma FreshLeafIndexed(d: seq<nat>, sparse: seq<Leaf>, p: nat)
    requires Indexed(d, sparse) && p < LEVEL_SIZE && sparse[p].Null?
    ensures Indexed(d, sparse[p := FreshLeaf()])
  {
    var sparse' := sparse[p := FreshLeaf()];
    assert Paged(sparse');
    forall v: nat | v < WORD ensures Lookup(sparse', v) == Lookup(sparse, v) {}
  }

  lemma AddIndexed(d: seq<nat>, sparse: seq<Leaf>, v: nat)
    requires Indexed(d, sparse) && v < WORD && v !in d && sparse[Page(v)].Leaf? && |d| < NONE
    ensures Indexed(d + [v], SetEntry(sparse, v, |d|))
  {
    var sparse' := SetEntry(sparse, v, |d|);
    forall u: nat | u < WORD ensures Paged(sparse') && Lookup(sparse', u) == if u == v then |d| else Lookup(sparse, u) {
      SetEntryLookup(sparse, v, |d|, u);
    }
    assert Paged(sparse');
  }

  lemma RemoveIndexed(d: seq<nat>, sparse: seq<Leaf>, v: nat)
    requires Indexed(d, sparse) && v < WORD && v in d
    ensures var i := Lookup(sparse, v);
            && i < |d| && d[|d| - 1] < WORD && sparse[Page(v)].Leaf? && sparse[Page(d[|d| - 1])].Leaf?
            && var sparse1 := SetEntry(sparse, d[|d| - 1], i);
               Paged(sparse1) && sparse1[Page(v)].Leaf? && Indexed(SwapRemove(d, i), SetEntry(sparse1, v, NONE))
  {
    MembersAreFound(d, sparse, v);
    var i, last := Lookup(sparse, v), d[|d| - 1];
    MembersAreFound(d, sparse, last);
    var sparse1 := SetEntry(sparse, last, i);
    SetEntryLookup(sparse, last, i, v);
    var sparse2 := SetEntry(sparse1, v, NONE);
    forall u: nat | u < WORD
      ensures Paged(sparse2)
      ensures Lookup(sparse2, u) == if u == v then NONE else if u == last then i else Lookup(sparse, u)
    {
      SetEntryLookup(sparse, last, i, u);
      SetEntryLookup(sparse1, v, NONE, u);
    }
    assert Paged(sparse2);
    var d' := SwapRemove(d, i);
    forall k | 0 <= k < |d'| ensures d'[k] < WORD && Lookup(sparse2, d'[k]) == k {
      if k != i {
        assert d'[k] == d[k] && Lookup(sparse, d[k]) == k;
      }
    }
    forall u: nat | u < WORD && Lookup(sparse2, u) != NONE
      ensures Lookup(sparse2, u) < |d'| && d'[Lookup(sparse2, u)] == u
    {
      if u != last {
        assert d[Lookup(sparse, u)] == u;
      }
    }
  }

  /** Freeing a page is safe exactly when none of its values is active. */
  lemma DropIndexed(d: seq<nat>, sparse: seq<Leaf>, p: nat)
    requires Indexed(d, sparse) && p < LEVEL_SIZE
    ensures Indexed(d, sparse[p := Null]) <==> Count(d, InPage(p)) == 0
  {
    var sparse' := sparse[p := Null];
    CountZero(d, InPage(p));
    assert Paged(sparse');
    if Count(d, InPage(p)) == 0 {
      forall v: nat | v < WORD ensures Lookup(sparse', v) == Lookup(sparse, v) {
        MembersAreFound(d, sparse, v);
        assert v in d ==> !InPage(p)(v);
      }
    } else {
      var i := CountWitness(d, InPage(p));
      assert Lookup(sparse', d[i]) == NONE != i;
    }
  }

  /** After a swap-remove from a sequence without duplicates everything but the removed value is left. */
  lemma SwapRemoveElements(d: seq<nat>, i: nat, x: nat)
    requires i < |d| && forall j :: 0 <= j < |d| && d[j] == d[i] ==> j == i
    ensures x in SwapRemove(d, i) <==> x in d && x != d[i]
  {
    var d' := SwapRemove(d, i);
    if x in d && x != d[i] {
      var j :| 0 <= j < |d| && d[j] == x;
      assert d'[if j == |d| - 1 then i else j] == x;
    }
    if x in d' {
      var j :| 0 <= j < |d'| && d'[j] == x;
      assert x == d[if j == i then |d| - 1 else j];
    }
  }

  lemma AddCounts(d: seq<nat>, counts: seq<nat>, v: nat)
    requires CountsCover(d, counts) && v < WORD
    ensures CountsCover(d + [v], counts[Page(v) := (counts[Page(v)] + 1) % WORD]) <==> counts[Page(v)] < NONE
  {
    var d', counts' := d + [v], counts[Page(v) := (counts[Page(v)] + 1) % WORD];
    forall p: nat | p < LEVEL_SIZE ensures Count(d', InPage(p)) == Count(d, InPage(p)) + if p == Page(v) then 1 else 0 {
      CountAppend(d, v, InPage(p));
    }
    if CountsCover(d', counts') {
      assert Count(d', InPage(Page(v))) <= counts'[Page(v)];
    }
  }

  lemma AddExact(d: seq<nat>, sparse: seq<Leaf>, counts: seq<nat>, v: nat, sparse': seq<Leaf>)
    requires CountsExact(d, sparse, counts) && v < WORD && |d| < NONE && |sparse'| == LEVEL_SIZE
    requires sparse'[Page(v)].Leaf? && forall p :: 0 <= p < LEVEL_SIZE && p != Page(v) ==> sparse'[p] == sparse[p]
    ensures CountsExact(d + [v], sparse', counts[Page(v) := (counts[Page(v)] + 1) % WORD])
  {
    var d' := d + [v];
    CountAll(d, InPage(Page(v)));
    forall p: nat | p < LEVEL_SIZE ensures Count(d', InPage(p)) == Count(d, InPage(p)) + if p == Page(v) then 1 else 0 {
      CountAppend(d, v, InPage(p));
    }
  }

  lemma AddedCounts(d: seq<nat>, sparse: seq<Leaf>, counts: seq<nat>, v: nat, sparse': seq<Leaf>)
    requires CountsCover(d, counts) && v < WORD && |d| < NONE && |sparse'| == |sparse| == LEVEL_SIZE
    requires sparse'[Page(v)].Leaf? && forall p :: 0 <= p < LEVEL_SIZE && p != Page(v) ==> sparse'[p] == sparse[p]
    ensures var counts' := counts[Page(v) := (counts[Page(v)] + 1) % WORD];
            && (CountsCover(d + [v], counts') <==> counts[Page(v)] < NONE)
            && (CountsExact(d, sparse, counts) ==> counts[Page(v)] < NONE && CountsExact(d + [v], sparse', counts'))
  {
    AddCounts(d, counts, v);
    if CountsExact(d, sparse, counts) {
      AddExact(d, sparse, counts, v, sparse');
      CountAll(d, InPage(Page(v)));
    }
  }

  lemma RemoveCounts(d: seq<nat>, counts: seq<nat>, i: nat)
    requires CountsCover(d, counts) && i < |d| && d[i] < WORD
    ensures var p := Page(d[i]);
            && 0 < counts[p] && CountsCover(SwapRemove(d, i), counts[p := counts[p] - 1])
            && Count(SwapRemove(d, i), InPage(p)) == Count(d, InPage(p)) - 1
  {
    CountPositive(d, i, InPage(Page(d[i])));
    forall p: nat | p < LEVEL_SIZE
      ensures Count(SwapRemove(d, i), InPage(p)) == Count(d, InPage(p)) - if p == Page(d[i]) then 1 else 0
    {
      CountSwapRemove(d, i, InPage(p));
    }
  }

  lemma RemoveExact(d: seq<nat>, sparse: seq<Leaf>, counts: seq<nat>, i: nat, sparse': seq<Leaf>)
    requires CountsExact(d, sparse, counts) && i < |d| && d[i] < WORD && |sparse'| == LEVEL_SIZE
    requires sparse'[Page(d[i])].Leaf? <==> counts[Page(d[i])] > 1
    requires forall p :: 0 <= p < LEVEL_SIZE && p != Page(d[i]) ==> (sparse'[p].Leaf? <==> sparse[p].Leaf?)
    ensures var p := Page(d[i]); counts[p] > 0 && CountsExact(SwapRemove(d, i), sparse', counts[p := counts[p] - 1])
  {
    CountPositive(d, i, InPage(Page(d[i])));
    forall p: nat | p < LEVEL_SIZE
      ensures Count(SwapRemove(d, i), InPage(p)) == Count(d, InPage(p)) - if p == Page(d[i]) then 1 else 0
    {
      CountSwapRemove(d, i, InPage(p));
    }
  }

  // ---------------------------------------------------------------------------------------------
  // The set
  // ---------------------------------------------------------------------------------------------

  class IdSet {
    const dense: array<nat>
    const sparse: array<Leaf>
    const counts: array<nat>
    var count: nat
    const maxActive: nat
    const universeSize: nat

    ghost predicate Shape()
      reads this
    {
      && dense.Length == maxActive <= NONE && universeSize < WORD
      && sparse.Length == LEVEL_SIZE && counts.Length == LEVEL_SIZE && dense != counts
      && count <= maxActive
    }

    /** The active values in iteration order. */
    ghost function Dense(): seq<nat>
      requires Shape()
      reads this, dense
    {
      dense[..count]
    }

    ghost predicate Valid()
      reads this, dense, sparse, counts
    {
      Shape() && Indexed(Dense(), sparse[..]) && CountsCover(Dense(), counts[..])
    }

    ghost predicate Exact()
      reads this, dense, sparse, counts
    {
      Shape() && CountsExact(Dense(), sparse[..], counts[..])
    }

    constructor (universeSize: nat, maxActive: nat)
      requires universeSize < WORD && maxActive < WORD
      ensures Valid() && Exact() && Dense() == []
      ensures this.universeSize == universeSize && this.maxActive == maxActive
      ensures fresh(dense) && fresh(sparse) && fresh(counts)
    {
      dense := new nat[maxActive];
      sparse := new Leaf[LEVEL_SIZE](i => Null);
      counts := new nat[LEVEL_SIZE](i => 0);
      count := 0;
      this.maxActive := maxActive;
      this.universeSize := universeSize;
    }

    method Contains(v: nat) returns (found: bool)
      requires Valid() && v < WORD
      ensures found <==> v in Dense()
    {
      MembersAreFound(Dense(), sparse[..], v);
      if sparse[Page(v)].Null? {
        return false;
      }
      if sparse[Page(v)].entries[Slot(v)] == NONE {
        return false;
      }
      return true;
    }

    /** Allocate the page when it does not exist. */
    method EnsurePage(p: nat)
      requires Shape() && p < LEVEL_SIZE && Indexed(Dense(), sparse[..])
      modifies sparse
      ensures Indexed(Dense(), sparse[..]) && sparse[p].Leaf?
      ensures forall q :: 0 <= q < LEVEL_SIZE && q != p ==> sparse[q] == old(sparse[q])
    {
      if sparse[p].Null? {
        FreshLeafIndexed(Dense(), sparse[..], p);
        ghost var leaves := sparse[..];
        sparse[p] := Leaf(seq(LEVEL_SIZE, i => NONE));
        assert sparse[..] == leaves[p := FreshLeaf()];
      }
    }

    /** Record `v` at the end of the dense array and in its page. */
    method Append(v: nat)
      requires Shape() && v < WORD && count < maxActive && sparse[Page(v)].Leaf?
      requires Indexed(Dense(), sparse[..]) && v !in Dense()
      modifies this`count, dense, sparse
      ensures Shape() && Dense() == old(Dense()) + [v] && Indexed(Dense(), sparse[..])
      ensures sparse[Page(v)].Leaf? && forall q :: 0 <= q < LEVEL_SIZE && q != Page(v) ==> sparse[q] == old(sparse[q])
    {
      ghost var d, leaves := Dense(), sparse[..];
      AddIndexed(d, leaves, v);
      sparse[Page(v)] := Leaf(sparse[Page(v)].entries[Slot(v) := count]);
      assert sparse[..] == SetEntry(leaves, v, |d|);
      dense[count] := v;
      count := count + 1;
      assert Dense() == d + [v];
    }

    /** Add a value that is absent and admitted. */
    method Insert(v: nat)
      requires Valid() && v < WORD && count < maxActive && v !in Dense()
      modifies this`count, dense, sparse, counts
      ensures Shape() && Indexed(Dense(), sparse[..]) && Dense() == old(Dense()) + [v]
      ensures counts[..] == old(counts[..])[Page(v) := (old(counts[Page(v)]) + 1) % WORD]
      ensures CountsCover(Dense(), counts[..]) <==> old(counts[Page(v)]) < NONE
      ensures old(Exact()) ==> Exact() && old(counts[Page(v)]) < NONE
    {
      ghost var d, leaves, cs := Dense(), sparse[..], counts[..];
      var p := Page(v);
      EnsurePage(p);
      Append(v);
      counts[p] := (counts[p] + 1) % WORD;
      assert counts[..] == cs[p := (cs[p] + 1) % WORD];
      AddedCounts(d, leaves, cs, v, sparse[..]);
    }

    /** Adding appends. The structure stays valid exactly when the page's 32-bit count does not wrap;
        with exact counts it never does. */
    method Add(v: nat) returns (rc: int)
      requires Valid() && v < WORD
      modifies this`count, dense, sparse, counts
      ensures Shape() && Indexed(Dense(), sparse[..])
      ensures v in old(Dense()) ==> rc == 0 && Dense() == old(Dense())
      ensures v !in old(Dense()) && (old(count) >= maxActive || v > universeSize) ==>
                rc == -1 && Dense() == old(Dense())
      ensures v !in old(Dense()) && old(count) < maxActive && v <= universeSize ==>
                rc == 0 && Dense() == old(Dense()) + [v]
      ensures v in old(Dense()) || old(count) >= maxActive || v > universeSize ==> counts[..] == old(counts[..])
      ensures v !in old(Dense()) && old(count) < maxActive && v <= universeSize ==>
                counts[..] == old(counts[..])[Page(v) := (old(counts[Page(v)]) + 1) % WORD]
      ensures Valid() <==> Dense() == old(Dense()) || old(counts[Page(v)]) < NONE
      ensures old(Exact()) ==> Exact() && Valid()
    {
      var present := Contains(v);
      if present {
        return 0;
      }
      if count >= maxActive || v > universeSize {
        return -1;
      }
      ghost var d := Dense();
      Insert(v);
      assert |Dense()| == |d| + 1;
      return 0;
    }

    /** Swap the last value into position `i` of the dense array and both pages. */
    method SwapOut(v: nat, i: nat)
      requires Shape() && v < WORD && Indexed(Dense(), sparse[..]) && v in Dense() && i == Lookup(sparse[..], v)
      modifies this`count, dense, sparse
      ensures Shape() && i < |old(Dense())| && Dense() == SwapRemove(old(Dense()), i) && Indexed(Dense(), sparse[..])
      ensures forall q :: 0 <= q < LEVEL_SIZE ==> (sparse[q].Leaf? <==> old(sparse[q].Leaf?))
    {
      ghost var d, leaves := Dense(), sparse[..];
      RemoveIndexed(d, leaves, v);
      dense[i] := dense[count - 1];
      var moved := dense[i];
      sparse[Page(moved)] := Leaf(sparse[Page(moved)].entries[Slot(moved) := i]);
      assert sparse[..] == SetEntry(leaves, moved, i);
      sparse[Page(v)] := Leaf(sparse[Page(v)].entries[Slot(v) := NONE]);
      assert sparse[..] == SetEntry(SetEntry(leaves, moved, i), v, NONE);
      count := count - 1;
      assert Dense() == SwapRemove(d, i);
    }

    /** Free a page that has no active value. */
    method DropPage(p: nat)
      requires Shape() && p < LEVEL_SIZE && Indexed(Dense(), sparse[..]) && Count(Dense(), InPage(p)) == 0
      modifies sparse
      ensures Indexed(Dense(), sparse[..]) && sparse[..] == old(sparse[..])[p := Null]
    {
      DropIndexed(Dense(), sparse[..], p);
      ghost var before := sparse[..];
      sparse[p] := Null;
      assert sparse[..] == before[p := Null];
    }

    /** Remove an active value, given its position; its page is freed only when none of its values is active. */
    method TakeOut(v: nat, i: nat)
      requires Valid() && v < WORD && i < count && Dense()[i] == v && i == Lookup(sparse[..], v)
      modifies this`count, dense, sparse, counts
      ensures Valid() && (old(Exact()) ==> Exact()) && i < |old(Dense())| && Dense() == SwapRemove(old(Dense()), i)
      ensures 0 < old(counts[Page(v)]) && counts[..] == old(counts[..])[Page(v) := old(counts[Page(v)]) - 1]
    {
      ghost var d, leaves, cs := Dense(), sparse[..], counts[..];
      var p := Page(v);
      RemoveCounts(d, cs, i);
      SwapOut(v, i);
      counts[p] := counts[p] - 1;
      assert counts[..] == cs[p := cs[p] - 1];
      if counts[p] == 0 {
        DropPage(p);
      }
      if CountsExact(d, leaves, cs) {
        RemoveExact(d, leaves, cs, i, sparse[..]);
      }
    }

    /** Removing swaps with the last value. */
    method Remove(v: nat) returns (rc: int)
      requires Valid() && v < WORD
      modifies this`count, dense, sparse, counts
      ensures Valid() && (old(Exact()) ==> Exact())
      ensures v !in old(Dense()) ==> rc == -1 && Dense() == old(Dense()) && counts[..] == old(counts[..])
      ensures v in old(Dense()) ==>
                && rc == 0
                && (exists i ::
                      && 0 <= i < |old(Dense())| && old(Dense())[i] == v
                      && Dense() == SwapRemove(old(Dense()), i))
                && 0 < old(counts[Page(v)]) && counts[..] == old(counts[..])[Page(v) := old(counts[Page(v)]) - 1]
      ensures forall x :: x in Dense() <==> x in old(Dense()) && x != v
    {
      MembersAreFound(Dense(), sparse[..], v);
      var present := Contains(v);
      if !present {
        return -1;
      }
      var i := sparse[Page(v)].entries[Slot(v)];
      RemovedElements(Dense(), sparse[..], i);
      TakeOut(v, i);
      return 0;
    }

    /** Clearing frees every page and forgets every value, but zeroes only the first quarter of the
        counts: they stay exact if and only if no value from 2^30 on was active. */
    method Clear()
      requires Valid()
      modifies this`count, sparse, counts
      ensures Valid() && Dense() == []
      ensures forall p :: 0 <= p < LEVEL_SIZE ==> sparse[p].Null?
      ensures forall p :: 0 <= p < LEVEL_SIZE ==>
                counts[p] == if p < LEVEL_SIZE / COUNTER_BYTES then 0 else old(counts[p])
      ensures old(Exact()) ==> (Exact() <==> forall x :: x in old(Dense()) ==> x < 0x4000_0000)
    {
      ghost var d, cs := Dense(), counts[..];
      for i := 0 to LEVEL_SIZE
        modifies sparse
        invariant forall p :: 0 <= p < i ==> sparse[p].Null?
      {
        if !sparse[i].Null? {
          sparse[i] := Null;
        }
      }
      for i := 0 to LEVEL_SIZE / COUNTER_BYTES
        modifies counts
        invariant forall p :: 0 <= p < LEVEL_SIZE ==> counts[p] == if p < i then 0 else cs[p]
      {
        counts[i] := 0;
      }
      count := 0;
      ClearedExact(d, cs);
    }
  }

  lemma RemovedElements(d: seq<nat>, sparse: seq<Leaf>, i: nat)
    requires Indexed(d, sparse) && i < |d|
    ensures forall x :: x in SwapRemove(d, i) <==> x in d && x != d[i]
  {
    forall j | 0 <= j < |d| && d[j] == d[i] ensures j == i {
      NoDuplicates(d, sparse, i, j);
    }
    forall x: nat ensures x in SwapRemove(d, i) <==> x in d && x != d[i] {
      SwapRemoveElements(d, i, x);
    }
  }

  /** Exact counts are zero from page 16384 on exactly when no value from 2^30 on is active. */
  lemma ClearedExact(d: seq<nat>, counts: seq<nat>)
    requires |counts| == LEVEL_SIZE && forall x :: x in d ==> x < WORD
    ensures (forall p :: 0 <= p < LEVEL_SIZE ==> counts[p] == Count(d, InPage(p))) ==>
              ((forall p :: LEVEL_SIZE / COUNTER_BYTES <= p < LEVEL_SIZE ==> counts[p] == 0)
               <==> forall x :: x in d ==> x < 0x4000_0000)
  {
    if forall p :: 0 <= p < LEVEL_SIZE ==> counts[p] == Count(d, InPage(p)) {
      if forall p :: LEVEL_SIZE / COUNTER_BYTES <= p < LEVEL_SIZE ==> counts[p] == 0 {
        forall x | x in d ensures x < 0x4000_0000 {
          CountZero(d, InPage(Page(x)));
          assert InPage(Page(x))(x);
        }
      }
      if forall x :: x in d ==> x < 0x4000_0000 {
        forall p | LEVEL_SIZE / COUNTER_BYTES <= p < LEVEL_SIZE ensures counts[p] == 0 {
          CountZero(d, InPage(p));
        }
      }
    }
  }

  /** One value, equal to the universe size and so admitted, and a clear: the counts are wrong. */
  method StaleCount() returns (s: IdSet)
    ensures fresh(s) && s.Valid() && s.Dense() == [] && !s.Exact()
  {
    s := new IdSet(0x4000_0000, 1);
    var rc := s.Add(0x4000_0000);
    assert s.Dense() == [0x4000_0000];
    s.Clear();
  }

  // ---------------------------------------------------------------------------------------------
  // Histories, against a plain set
  // ---------------------------------------------------------------------------------------------

  datatype Op = AddOp(v: nat) | RemoveOp(v: nat) | ClearOp

  ghost predicate InDomain(ops: seq<Op>) {
    forall i :: 0 <= i < |ops| && !ops[i].ClearOp? ==> ops[i].v < WORD
  }

  /** An add that goes in: a new value, with room, up to and including the universe size. */
  predicate GoesIn(a: set<nat>, op: Op, universeSize: nat, maxActive: nat) {
    op.AddOp? && op.v !in a && |a| < maxActive && op.v <= universeSize
  }

  function AfterOp(a: set<nat>, op: Op, universeSize: nat, maxActive: nat): set<nat> {
    match op
    case AddOp(v) => if GoesIn(a, op, universeSize, maxActive) then a + {v} else a
    case RemoveOp(v) => a - {v}
    case ClearOp => {}
  }

  /** The plain set that a history of operations leaves. */
  function After(ops: seq<Op>, universeSize: nat, maxActive: nat): set<nat> {
    if ops == [] then {}
    else AfterOp(After(ops[..|ops| - 1], universeSize, maxActive), ops[|ops| - 1], universeSize, maxActive)
  }

  /** How many adds of the history went in. */
  function Insertions(ops: seq<Op>, universeSize: nat, maxActive: nat): nat {
    if ops == [] then 0
    else
      var before := ops[..|ops| - 1];
      Insertions(before, universeSize, maxActive)
      + One(GoesIn(After(before, universeSize, maxActive), ops[|ops| - 1], universeSize, maxActive))
  }

  lemma {:induction false} InsertionsGrow(ops: seq<Op>, i: nat, universeSize: nat, maxActive: nat)
    requires i <= |ops|
    ensures Insertions(ops[..i], universeSize, maxActive) <= Insertions(ops, universeSize, maxActive)
  {
    if i == |ops| {
      assert ops[..i] == ops;
    } else {
      var before := ops[..|ops| - 1];
      InsertionsGrow(before, i, universeSize, maxActive);
      assert before[..i] == ops[..i];
    }
  }

  /** The dense array lists exactly the set. */
  ghost predicate Lists(d: seq<nat>, a: set<nat>) {
    |d| == |a| && forall x :: x in d <==> x in a
  }

  lemma {:induction false} ListSize(d: seq<nat>, a: set<nat>)
    requires (forall i, j :: 0 <= i < j < |d| ==> d[i] != d[j]) && forall x :: x in d <==> x in a
    ensures |d| == |a|
  {
    if d != [] {
      var last := d[|d| - 1];
      assert d == d[..|d| - 1] + [last];
      ListSize(d[..|d| - 1], a - {last});
    } else {
      assert a == {};
    }
  }

  lemma IndexedLists(d: seq<nat>, sparse: seq<Leaf>, a: set<nat>)
    requires Indexed(d, sparse) && forall x :: x in d <==> x in a
    ensures Lists(d, a)
  {
    forall i, j | 0 <= i < j < |d| ensures d[i] != d[j] {
      assert Lookup(sparse, d[i]) == i && Lookup(sparse, d[j]) == j;
    }
    ListSize(d, a);
  }

  ghost predicate CountsAtMost(counts: seq<nat>, n: nat) {
    |counts| == LEVEL_SIZE && forall p :: 0 <= p < LEVEL_SIZE ==> counts[p] <= n
  }

  lemma BumpedAtMost(counts: seq<nat>, p: nat, n: nat)
    requires CountsAtMost(counts, n) && p < LEVEL_SIZE
    ensures n + 1 < WORD ==> counts[p] < NONE && CountsAtMost(counts[p := (counts[p] + 1) % WORD], n + 1)
  {}

  /** One operation does to the structure what it does to the plain set, and no page count gets ahead of
      the number of adds that went in. */
  method Do(s: IdSet, op: Op, ghost a: set<nat>, ghost n: nat)
    requires s.Valid() && Lists(s.Dense(), a) && CountsAtMost(s.counts[..], n) && (!op.ClearOp? ==> op.v < WORD)
    requires GoesIn(a, op, s.universeSize, s.maxActive) ==> n + 1 < WORD
    modifies s, s.dense, s.sparse, s.counts
    ensures s.Valid() && Lists(s.Dense(), AfterOp(a, op, s.universeSize, s.maxActive))
    ensures CountsAtMost(s.counts[..], n + One(GoesIn(a, op, s.universeSize, s.maxActive)))
  {
    match op {
      case AddOp(v) => DoAdd(s, v, a, n);
      case RemoveOp(v) => DoRemove(s, v, a, n);
      case ClearOp => s.Clear();
    }
  }

  method DoAdd(s: IdSet, v: nat, ghost a: set<nat>, ghost n: nat)
    requires s.Valid() && Lists(s.Dense(), a) && CountsAtMost(s.counts[..], n) && v < WORD
    requires GoesIn(a, AddOp(v), s.universeSize, s.maxActive) ==> n + 1 < WORD
    modifies s, s.dense, s.sparse, s.counts
    ensures s.Valid() && Lists(s.Dense(), AfterOp(a, AddOp(v), s.universeSize, s.maxActive))
    ensures CountsAtMost(s.counts[..], n + One(GoesIn(a, AddOp(v), s.universeSize, s.maxActive)))
  {
    BumpedAtMost(s.counts[..], Page(v), n);
    var rc := s.Add(v);
    IndexedLists(s.Dense(), s.sparse[..], AfterOp(a, AddOp(v), s.universeSize, s.maxActive));
  }

  method DoRemove(s: IdSet, v: nat, ghost a: set<nat>, ghost n: nat)
    requires s.Valid() && Lists(s.Dense(), a) && CountsAtMost(s.counts[..], n) && v < WORD
    modifies s, s.dense, s.sparse, s.counts
    ensures s.Valid() && Lists(s.Dense(), a - {v}) && CountsAtMost(s.counts[..], n)
  {
    var rc := s.Remove(v);
    IndexedLists(s.Dense(), s.sparse[..], a - {v});
  }

  /** Any history of adds, removes and clears in which fewer than 2^32 adds go in: the structure is valid
      throughout and ends up listing exactly the plain set, although clear leaves counts behind. */
  method History(universeSize: nat, maxActive: nat, ops: seq<Op>) returns (s: IdSet)
    requires universeSize < WORD && maxActive < WORD && InDomain(ops)
    requires Insertions(ops, universeSize, maxActive) < WORD
    ensures s.Valid() && Lists(s.Dense(), After(ops, universeSize, maxActive))
  {
    s := new IdSet(universeSize, maxActive);
    for i := 0 to |ops|
      invariant s.universeSize == universeSize && s.maxActive == maxActive
      invariant fresh(s) && fresh(s.dense) && fresh(s.sparse) && fresh(s.counts)
      invariant s.Valid() && Lists(s.Dense(), After(ops[..i], universeSize, maxActive))
      invariant CountsAtMost(s.counts[..], Insertions(ops[..i], universeSize, maxActive))
    {
      assert ops[..i + 1][..i] == ops[..i];
      InsertionsGrow(ops, i + 1, universeSize, maxActive);
      Do(s, ops[i], After(ops[..i], universeSize, maxActive), Insertions(ops[..i], universeSize, maxActive));
    }
    assert ops[..|ops|] == ops;
  }
}
