/**
 The log-structured key-value store: puts append to a log, the source's `imap` (here `index`) maps a key
 to the position of its latest entry, and a clean copies the live entries to a fresh log.

 Here no put runs while a clean copies; ConcurrentClean says what happens when one does. A put does not
 check for room, so callers must have some; Fits and FitsIff say when cleaning before each put is enough.
 The fill test `head < capacity * 0.8` is over the reals.
 */
module LogStore {
  datatype Entry = Entry(key: int, value: int)

  // ---------------------------------------------------------------------------------------------
  // The log and index as values
  // ---------------------------------------------------------------------------------------------

  /** Every index position is in the log and holds an entry for its key. */
  ghost predicate Agree(log: seq<Entry>, index: seq<int>) {
    forall k :: 0 <= k < |index| ==> -1 <= index[k] < |log| && (index[k] >= 0 ==> log[index[k]].key == k)
  }

  /** What the store maps. */
  ghost function View(log: seq<Entry>, index: seq<int>): map<int, int>
    requires Agree(log, index)
  {
    map k: int | 0 <= k < |index| && index[k] >= 0 :: log[index[k]].value
  }

  /** No two keys share a log entry. */
  lemma Injective(log: seq<Entry>, index: seq<int>, j: nat, k: nat)
    requires Agree(log, index) && j < |index| && k < |index| && j != k && index[j] >= 0 && index[k] >= 0
    ensures index[j] != index[k]
  {
    assert log[index[j]].key == j && log[index[k]].key == k;
  }

  lemma PutView(log: seq<Entry>, index: seq<int>, key: nat, value: int)
    requires Agree(log, index) && key < |index|
    ensures Agree(log + [Entry(key, value)], index[key := |log|])
    ensures View(log + [Entry(key, value)], index[key := |log|]) == View(log, index)[key := value]
  {
    var log', index' := log + [Entry(key, value)], index[key := |log|];
    forall k | 0 <= k < |index'| ensures -1 <= index'[k] < |log'| && (index'[k] >= 0 ==> log'[index'[k]].key == k) {
      assert -1 <= index[k] < |log|;
    }
    assert View(log', index').Keys == View(log, index)[key := value].Keys;
  }

  ghost function Below(n: nat): (s: set<int>)
    ensures |s| == n && forall x :: x in s <==> 0 <= x < n
  {
    if n == 0 then {} else Below(n - 1) + {n - 1}
  }

  lemma SubsetSize(a: set<int>, b: set<int>)
    requires a <= b
    ensures |a| <= |b|
  {
    assert b == a + (b - a);
    assert |a + (b - a)| == |a| + |b - a|;
  }

  /** The log positions of the live keys below `n`. */
  ghost function Positions(index: seq<int>, n: nat): set<int>
    requires n <= |index|
  {
    set k | 0 <= k < n && index[k] >= 0 :: index[k]
  }

  /** The number of live keys below `n`. */
  ghost function LiveBelow(index: seq<int>, n: nat): nat
    requires n <= |index|
  {
    if n == 0 then 0 else LiveBelow(index, n - 1) + if index[n - 1] >= 0 then 1 else 0
  }

  /** Positions are distinct, so there are no more live keys than log entries. */
  lemma {:induction false} LiveFitInLog(log: seq<Entry>, index: seq<int>, n: nat)
    requires Agree(log, index) && n <= |index|
    ensures LiveBelow(index, n) == |Positions(index, n)| <= |log|
  {
    if n > 0 {
      LiveFitInLog(log, index, n - 1);
      if index[n - 1] >= 0 {
        assert Positions(index, n) == Positions(index, n - 1) + {index[n - 1]};
        forall k | 0 <= k < n - 1 && index[k] >= 0 ensures index[k] != index[n - 1] {
          Injective(log, index, k, n - 1);
        }
      } else {
        assert Positions(index, n) == Positions(index, n - 1);
      }
    }
    SubsetSize(Positions(index, n), Below(|log|));
  }

  /** The number of live keys is the size of the view. */
  lemma {:induction false} LiveIsViewSize(log: seq<Entry>, index: seq<int>, n: nat)
    requires Agree(log, index) && n <= |index|
    ensures LiveBelow(index, n) == |set k: int | 0 <= k < n && index[k] >= 0|
    ensures n == |index| ==> LiveBelow(index, n) == |View(log, index)|
  {
    var keys := set k: int | 0 <= k < n && index[k] >= 0;
    if n > 0 {
      LiveIsViewSize(log, index, n - 1);
      var keys1 := set k: int | 0 <= k < n - 1 && index[k] >= 0;
      assert keys == keys1 + if index[n - 1] >= 0 then {n - 1} else {};
    }
    if n == |index| {
      assert View(log, index).Keys == keys;
    }
  }

  // ---------------------------------------------------------------------------------------------
  // The store
  // ---------------------------------------------------------------------------------------------

  method AppendEntry(buffer: array<Entry>, n: nat, e: Entry)
    requires n < buffer.Length
    modifies buffer
    ensures buffer[..n + 1] == old(buffer[..n]) + [e]
  {
    buffer[n] := e;
  }

  class Store {
    const capacity: nat
    const keyRange: nat
    var buffer: array<Entry>
    var index: array<int>
    var head: nat

    ghost predicate Valid()
      reads this, buffer, index
    {
      && buffer.Length == capacity && index.Length == keyRange && head <= capacity
      && Agree(buffer[..head], index[..])
    }

    ghost function Map(): map<int, int>
      requires Valid()
      reads this, buffer, index
    {
      View(buffer[..head], index[..])
    }

    constructor (capacity: nat, keyRange: nat)
      ensures Valid() && Map() == map[] && head == 0
      ensures this.capacity == capacity && this.keyRange == keyRange && fresh(buffer) && fresh(index)
    {
      this.capacity := capacity;
      this.keyRange := keyRange;
      head := 0;
      buffer := new Entry[capacity](i => Entry(0, 0));
      index := new int[keyRange](i => -1);
    }

    method Put(key: nat, value: int)
      requires Valid() && key < keyRange && head < capacity
      modifies this`head, buffer, index
      ensures Valid() && Map() == old(Map())[key := value]
      ensures head == old(head) + 1
    {
      PutView(buffer[..head], index[..], key, value);
      ghost var log, im := buffer[..head], index[..];
      buffer[head] := Entry(key, value);
      index[key] := head;
      head := head + 1;
      assert buffer[..head] == log + [Entry(key, value)];
      assert index[..] == im[key := |log|];
    }

    /** The last value put, or -1 when there is none. */
    method Get(key: nat) returns (value: int)
      requires Valid() && key < keyRange
      ensures value == if key in Map() then Map()[key] else -1
    {
      var offset := index[key];
      if offset < 0 {
        value := -1;
      } else {
        value := buffer[offset].value;
      }
    }

    /** The copying loop: one entry per live key, in key order. */
    method Compact() returns (newBuffer: array<Entry>, newIndex: array<int>, newHead: nat)
      requires Valid()
      ensures fresh(newBuffer) && fresh(newIndex) && newBuffer.Length == capacity && newIndex.Length == keyRange
      ensures newHead == LiveBelow(index[..], keyRange) <= capacity
      ensures Agree(newBuffer[..newHead], newIndex[..])
      ensures View(newBuffer[..newHead], newIndex[..]) == Map()
    {
      ghost var log, im := buffer[..head], index[..];
      newBuffer := new Entry[capacity](i => Entry(0, 0));
      newIndex := new int[keyRange](i => -1);
      newHead := 0;
      for i := 0 to keyRange
        modifies newBuffer, newIndex
        invariant newHead == LiveBelow(im, i) <= capacity
        invariant forall k :: i <= k < keyRange ==> newIndex[k] == -1
        invariant forall k :: 0 <= k < i ==> Copied(newBuffer[..newHead], newIndex[k], log, im[k])
      {
        LiveFitInLog(log, im, i + 1);
        if index[i] >= 0 {
          AppendEntry(newBuffer, newHead, buffer[index[i]]);
          newIndex[i] := newHead;
          newHead := newHead + 1;
        }
      }
      CopiedView(newBuffer[..newHead], newIndex[..], log, im);
    }

    /** A clean changes no read. When it runs, it leaves exactly one log entry per live key. */
    method Clean()
      requires Valid()
      modifies this
      ensures Valid() && Map() == old(Map())
      ensures old(head) as real < capacity as real * 0.8 ==>
                head == old(head) && buffer == old(buffer) && index == old(index)
      ensures !(old(head) as real < capacity as real * 0.8) ==> head == |Map()| && fresh(buffer) && fresh(index)
    {
      if head as real < capacity as real * 0.8 {
        return;
      }
      var newBuffer, newIndex, newHead := Compact();
      LiveIsViewSize(buffer[..head], index[..], keyRange);
      buffer := newBuffer;
      index := newIndex;
      head := newHead;
    }

    /** A put preceded by a clean needs room only for the entries the clean leaves. */
    method CleanAndPut(key: nat, value: int)
      requires Valid() && key < keyRange && NextHead(capacity, head, |Map()|) < capacity
      modifies this, buffer, index
      ensures Valid() && Map() == old(Map())[key := value]
      ensures head == NextHead(capacity, old(head), |old(Map())|) + 1
      ensures (fresh(buffer) || buffer == old(buffer)) && (fresh(index) || index == old(index))
    {
      Clean();
      Put(key, value);
    }

    /** A history of puts, each preceded by a clean: every put fits, the store maps what the history
        does, and the head is where HeadAfter says. */
    method CleanAndPutAll(keys: seq<nat>, values: seq<int>)
      requires Valid() && head == 0 && Map() == map[] && keyRange < capacity
      requires |keys| == |values| && InRange(keys, keyRange)
      modifies this, buffer, index
      ensures Valid() && Map() == Replay(keys, values) && head == HeadAfter(capacity, keys)
    {
      for i := 0 to |keys|
        invariant Valid() && Map() == Replay(keys[..i], values[..i]) && head == HeadAfter(capacity, keys[..i])
        invariant (fresh(buffer) || buffer == old(buffer)) && (fresh(index) || index == old(index))
      {
        OneMorePut(capacity, keyRange, keys, values, i);
        CleanAndPut(keys[i], values[i]);
      }
      assert keys[..|keys|] == keys && values[..|values|] == values;
    }
  }

  // ---------------------------------------------------------------------------------------------
  // When cleaning before each put is enough
  // ---------------------------------------------------------------------------------------------

  ghost predicate InRange(keys: seq<nat>, keyRange: nat) {
    forall i :: 0 <= i < |keys| ==> keys[i] < keyRange
  }

  /** The plain map: the last value put for each key. */
  ghost function Replay(keys: seq<nat>, values: seq<int>): map<int, int>
    requires |keys| == |values|
  {
    if keys == [] then map[]
    else Replay(keys[..|keys| - 1], values[..|keys| - 1])[keys[|keys| - 1] := values[|keys| - 1]]
  }

  ghost function KeySet(keys: seq<nat>): set<int> {
    if keys == [] then {} else KeySet(keys[..|keys| - 1]) + {keys[|keys| - 1]}
  }

  lemma {:induction false} ReplayKeys(keys: seq<nat>, values: seq<int>)
    requires |keys| == |values|
    ensures Replay(keys, values).Keys == KeySet(keys) && |Replay(keys, values)| == |KeySet(keys)|
  {
    if keys != [] {
      ReplayKeys(keys[..|keys| - 1], values[..|keys| - 1]);
    }
  }

  /** The head after a history of puts, each preceded by a clean. */
  ghost function HeadAfter(capacity: nat, keys: seq<nat>): nat {
    if keys == [] then 0 else Cleaned(capacity, keys[..|keys| - 1]) + 1
  }

  /** The head after that history and one more clean: where the next put goes. */
  ghost function Cleaned(capacity: nat, keys: seq<nat>): nat {
    NextHead(capacity, if keys == [] then 0 else Cleaned(capacity, keys[..|keys| - 1]) + 1, |KeySet(keys)|)
  }

  /** The head after a clean of a store with `live` keys. */
  ghost function NextHead(capacity: nat, head: nat, live: nat): nat {
    if head as real < capacity as real * 0.8 then head else live
  }

  /** Every put of the history is inside the log. */
  ghost predicate Fits(capacity: nat, keys: seq<nat>) {
    forall n :: 0 <= n < |keys| ==> Cleaned(capacity, keys[..n]) < capacity
  }

  lemma {:induction false} KeySetBounded(keys: seq<nat>, keyRange: nat)
    requires InRange(keys, keyRange)
    ensures KeySet(keys) <= Below(keyRange) && |KeySet(keys)| <= keyRange
  {
    if keys != [] {
      KeySetBounded(keys[..|keys| - 1], keyRange);
    }
    SubsetSize(KeySet(keys), Below(keyRange));
  }

  lemma CleanedFits(capacity: nat, keyRange: nat, keys: seq<nat>)
    requires keyRange < capacity && InRange(keys, keyRange)
    ensures Cleaned(capacity, keys) < capacity
  {
    KeySetBounded(keys, keyRange);
  }

  /** What one more clean and put does to a history, and that the put fits. */
  lemma OneMorePut(capacity: nat, keyRange: nat, keys: seq<nat>, values: seq<int>, i: nat)
    requires keyRange < capacity && |keys| == |values| && InRange(keys, keyRange) && i < |keys|
    ensures var h := NextHead(capacity, HeadAfter(capacity, keys[..i]), |Replay(keys[..i], values[..i])|);
            h < capacity && HeadAfter(capacity, keys[..i + 1]) == h + 1
    ensures Replay(keys[..i + 1], values[..i + 1]) == Replay(keys[..i], values[..i])[keys[i] := values[i]]
  {
    CleanedFits(capacity, keyRange, keys[..i]);
    ReplayKeys(keys[..i], values[..i]);
    assert keys[..i + 1][..i] == keys[..i] && values[..i + 1][..i] == values[..i];
  }

  ghost function Ascending(n: nat): seq<nat> { seq(n, i => i) }

  /** A log filled with distinct keys has nothing to clean. */
  lemma {:induction false} DistinctKeysFill(capacity: nat, n: nat)
    ensures KeySet(Ascending(n)) == Below(n) && Cleaned(capacity, Ascending(n)) == n
  {
    if n > 0 {
      DistinctKeysFill(capacity, n - 1);
      assert Ascending(n)[..n - 1] == Ascending(n - 1);
    }
  }

  lemma NoKeys(keys: seq<nat>)
    requires InRange(keys, 0)
    ensures keys == []
  {
    KeySetBounded(keys, 0);
  }

  /** Cleaning before each put keeps every history of puts inside the log if and only if there are
      fewer keys than log entries (or no keys at all). */
  lemma FitsIff(capacity: nat, keyRange: nat)
    ensures (forall keys :: InRange(keys, keyRange) ==> Fits(capacity, keys)) <==> keyRange < capacity || keyRange == 0
  {
    if keyRange < capacity {
      forall keys | InRange(keys, keyRange) ensures Fits(capacity, keys) {
        forall n | 0 <= n < |keys| ensures Cleaned(capacity, keys[..n]) < capacity {
          CleanedFits(capacity, keyRange, keys[..n]);
        }
      }
    } else if keyRange > 0 {
      var keys := Ascending(capacity) + [0];
      assert InRange(keys, keyRange);
      DistinctKeysFill(capacity, capacity);
      assert keys[..capacity] == Ascending(capacity);
      assert !(Cleaned(capacity, keys[..capacity]) < capacity);
      assert !Fits(capacity, keys);
    } else {
      forall keys | InRange(keys, keyRange) ensures Fits(capacity, keys) {
        NoKeys(keys);
      }
    }
  }

  /** Position `q` of the new log holds what position `p` of the old one does; -1 stays -1. */
  ghost predicate Copied(newLog: seq<Entry>, q: int, log: seq<Entry>, p: int) {
    -1 <= q < |newLog| && (q >= 0 <==> p >= 0) && (0 <= p < |log| && q >= 0 ==> newLog[q] == log[p])
  }

  lemma CopiedView(newLog: seq<Entry>, newIndex: seq<int>, log: seq<Entry>, index: seq<int>)
    requires Agree(log, index) && |newIndex| == |index|
    requires forall k :: 0 <= k < |index| ==> Copied(newLog, newIndex[k], log, index[k])
    ensures Agree(newLog, newIndex) && View(newLog, newIndex) == View(log, index)
  {
    forall k | 0 <= k < |index|
      ensures newIndex[k] >= 0 ==> newLog[newIndex[k]] == log[index[k]] && newLog[newIndex[k]].key == k
    {
      assert Copied(newLog, newIndex[k], log, index[k]);
    }
    assert View(newLog, newIndex).Keys == View(log, index).Keys;
  }
}
