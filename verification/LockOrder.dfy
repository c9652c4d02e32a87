/** Locks: who owns a mutex, and why a global lock order rules out deadlock. */
module LockOrder {

  /** The mutex's owner (-1 when free) is exactly the thread inside a critical section. */
  ghost predicate MutexOk<T>(owner: int, threads: seq<T>, critical: T -> bool) {
    && (owner == -1 || (0 <= owner < |threads| && critical(threads[owner])))
    && forall t :: 0 <= t < |threads| && critical(threads[t]) ==> owner == t
  }

  ghost predicate StrictOrder(less: (nat, nat) -> bool) {
    && (forall a: nat :: !less(a, a))
    && (forall a: nat, b: nat, c: nat :: less(a, b) && less(b, c) ==> less(a, c))
  }

  /** `wants[t]` is the lock thread t must take next (-1 for none), `owner[o]` the thread that holds
      lock o (-1 when free). */
  ghost predicate WellFormed(wants: seq<int>, owner: seq<int>) {
    && (forall t :: 0 <= t < |wants| ==> -1 <= wants[t] < |owner|)
    && (forall o :: 0 <= o < |owner| ==> -1 <= owner[o] < |wants|)
  }

  predicate Blocked(wants: seq<int>, owner: seq<int>, t: nat)
    requires t < |wants| && -1 <= wants[t] < |owner|
  {
    wants[t] >= 0 && owner[wants[t]] >= 0
  }

  /** Every lock a thread holds comes before the lock it wants. */
  ghost predicate Ordered(wants: seq<int>, owner: seq<int>, less: (nat, nat) -> bool)
    requires WellFormed(wants, owner)
  {
    forall o :: 0 <= o < |owner| && owner[o] >= 0 && wants[owner[o]] >= 0 ==> less(o, wants[owner[o]])
  }

  ghost function Above(n: nat, less: (nat, nat) -> bool, o: nat): set<nat> {
    set x: nat | x < n && less(o, x)
  }

  /** From any thread, following "waits for the owner of" ends at a thread that is not blocked. */
  lemma {:induction false} SomeoneRuns(wants: seq<int>, owner: seq<int>, less: (nat, nat) -> bool,
                                       t: nat) returns (u: nat)
    requires StrictOrder(less) && WellFormed(wants, owner) && Ordered(wants, owner, less)
    requires t < |wants|
    ensures u < |wants| && !Blocked(wants, owner, u)
    ensures u == t || exists o :: 0 <= o < |owner| && owner[o] == u
    decreases if wants[t] >= 0 then Above(|owner|, less, wants[t]) + {|owner|} else {}
  {
    if !Blocked(wants, owner, t) {
      u := t;
    } else {
      var v := owner[wants[t]];
      if wants[v] < 0 {
        u := v;
      } else {
        assert less(wants[t], wants[v]);
        assert wants[v] in Above(|owner|, less, wants[t]) && wants[v] !in Above(|owner|, less, wants[v]);
        assert Above(|owner|, less, wants[v]) <= Above(|owner|, less, wants[t]);
        u := SomeoneRuns(wants, owner, less, v);
      }
    }
  }
}
