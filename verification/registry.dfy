/**
 The registry of live streaming sessions and its periodic sweep. The registry is
 an ordered sequence of sessions; whether a session is inactive is decided by the
 session itself and is given here as a predicate. The sweep runs only when a
 non-blocking acquisition of the registry lock succeeds, given here as a boolean.

 `Sweep` is the sweep as it is meant to behave: keep the active sessions in
 order and report each removed (inactive) session once. `RemoveIf` and
 `CleanupAsWritten` model what the server's cleanup actually does with
 `std::remove_if`, whose tail after the new end is logged: that tail holds
 moved-from, empty slots for relocated active sessions and loses the inactive
 sessions that were overwritten (see `MovedFromTail`).
 */
module Registry {
  import opened Seqs

  /** Appending a session under the lock: every existing entry stays where it was. */
  function Insert<S>(registry: seq<S>, s: S): (r: seq<S>)
    ensures |r| == |registry| + 1
    ensures r[..|registry|] == registry && r[|registry|] == s
  {
    registry + [s]
  }

  /** What a sweep leaves in the registry and which sessions it reports as removed. */
  datatype SweepOutcome<S> = SweepOutcome(registry: seq<S>, removed: seq<S>)

  /**
   One tick of the cleanup timer. If the lock is not acquired nothing changes and
   nothing is reported; otherwise the registry keeps exactly its active sessions
   and exactly the inactive ones are reported, each as often as it was present.
   */
  function Sweep<S(!new)>(registry: seq<S>, inactive: S -> bool, acquired: bool): (r: SweepOutcome<S>)
    ensures !acquired ==> r.registry == registry && r.removed == []
    ensures acquired ==> forall s :: s in r.registry <==> s in registry && !inactive(s)
    ensures acquired ==> forall s :: s in r.removed <==> s in registry && inactive(s)
    ensures multiset(r.registry) + multiset(r.removed) == multiset(registry)
  {
    if !acquired then SweepOutcome(registry, [])
    else
      FilterMembership(inactive, registry);
      FilterRejectSplit(inactive, registry);
      SweepOutcome(Reject(inactive, registry), Filter(inactive, registry))
  }

  /**
   The sweep keeps the original order: sweeping a registry made of two parts is
   sweeping each part and putting the results side by side.
   */
  lemma SweepAppend<S(!new)>(a: seq<S>, b: seq<S>, inactive: S -> bool, acquired: bool)
    ensures Sweep(a + b, inactive, acquired).registry
         == Sweep(a, inactive, acquired).registry + Sweep(b, inactive, acquired).registry
    ensures Sweep(a + b, inactive, acquired).removed
         == Sweep(a, inactive, acquired).removed + Sweep(b, inactive, acquired).removed
  {
    if acquired {
      RejectAppend(inactive, a, b);
      FilterAppend(inactive, a, b);
    }
  }

  /**
   Sweeping twice with no change of activity in between is sweeping once: after
   a sweep that acquired the lock, the next sweep (acquired or not) removes
   nothing and leaves the registry as it is.
   */
  lemma SweepIdempotent<S(!new)>(registry: seq<S>, inactive: S -> bool, again: bool)
    ensures var once := Sweep(registry, inactive, true);
      Sweep(once.registry, inactive, again) == SweepOutcome(once.registry, [])
  {
    RejectIdempotent(inactive, registry);
  }

  /** When every session is inactive, an acquired sweep empties the registry and
      reports every session, in order. */
  lemma SweepAllInactive<S(!new)>(registry: seq<S>, inactive: S -> bool)
    requires forall s :: s in registry ==> inactive(s)
    ensures Sweep(registry, inactive, true) == SweepOutcome([], registry)
  {
    FilterAll(inactive, registry);
  }

  /**
   A session inserted before a sweep is kept at the end of the swept registry
   if it is active, and reported after the other removed sessions if it is not.
   */
  lemma InsertThenSweep<S(!new)>(registry: seq<S>, s: S, inactive: S -> bool)
    ensures var before := Sweep(registry, inactive, true);
      var after := Sweep(Insert(registry, s), inactive, true);
      && (!inactive(s) ==> after == SweepOutcome(before.registry + [s], before.removed))
      && (inactive(s) ==> after == SweepOutcome(before.registry, before.removed + [s]))
  {
    SweepAppend(registry, [s], inactive, true);
    assert [s][1..] == [];
  }

  // ---------------------------------------------------------------------------
  // The cleanup as the server performs it
  // ---------------------------------------------------------------------------

  /** A slot of the registry's vector: a shared pointer that holds a session or was
      left empty by a move. */
  datatype Slot<S> = Empty | Holds(session: S)

  /**
   What `std::remove_if` leaves after the new end, when it moves elements (as
   libstdc++ does): a slot whose original session was inactive still holds it;
   a slot whose active session was moved forward is empty.
   */
  function MovedTail<S(!new)>(registry: seq<S>, inactive: S -> bool): (tail: seq<Slot<S>>)
    ensures |tail| == |registry| - |Reject(inactive, registry)|
  {
    FilterRejectSplit(inactive, registry);
    var n := |Reject(inactive, registry)|;
    seq(|registry| - n, k requires 0 <= k < |registry| - n =>
      if inactive(registry[n + k]) then Holds(registry[n + k]) else Empty)
  }

  /** The `find_if` that starts `remove_if`: the position of the first inactive session. */
  method FindInactive<S>(registry: seq<S>, inactive: S -> bool) returns (first: nat)
    ensures first <= |registry|
    ensures forall k :: 0 <= k < first ==> !inactive(registry[k])
    ensures first < |registry| ==> inactive(registry[first])
  {
    first := 0;
    while first < |registry| && !inactive(registry[first])
      invariant first <= |registry|
      invariant forall k :: 0 <= k < first ==> !inactive(registry[k])
    {
      first := first + 1;
    }
  }

  lemma RejectStep<S(!new)>(registry: seq<S>, inactive: S -> bool, n: int)
    requires 0 <= n < |registry|
    ensures Reject(inactive, registry[..n + 1]) ==
      Reject(inactive, registry[..n]) + (if inactive(registry[n]) then [] else [registry[n]])
  {
    assert registry[..n + 1] == registry[..n] + [registry[n]];
    RejectAppend(inactive, registry[..n], [registry[n]]);
  }

  /**
   The state of `remove_if` after it has looked at the first `first` slots and
   found at least one inactive session: the `result` slots before the write
   position hold the active sessions seen so far, in order; each slot between
   the write position and `first` still holds its inactive session or was
   emptied by a move; the slots from `first` on are untouched.
   */
  ghost predicate Compacted<S(!new)>(registry: seq<S>, inactive: S -> bool, slots: seq<Slot<S>>, result: int, first: int) {
    && 0 <= result < first <= |registry|
    && |slots| == |registry|
    && result == |Reject(inactive, registry[..first])|
    && (forall k :: 0 <= k < result ==> slots[k] == Holds(Reject(inactive, registry[..first])[k]))
    && (forall k :: result <= k < first ==> slots[k] == (if inactive(registry[k]) then Holds(registry[k]) else Empty))
    && (forall k :: first <= k < |slots| ==> slots[k] == Holds(registry[k]))
  }

  /** One step of the compaction loop: move the slot at `first` forward if its session is active. */
  lemma CompactStep<S(!new)>(registry: seq<S>, inactive: S -> bool, slots: seq<Slot<S>>, result: int, first: int)
    requires Compacted(registry, inactive, slots, result, first)
    requires first < |registry|
    ensures slots[first] == Holds(registry[first])
    ensures !inactive(registry[first]) ==>
      Compacted(registry, inactive, slots[result := slots[first]][first := Empty], result + 1, first + 1)
    ensures inactive(registry[first]) ==> Compacted(registry, inactive, slots, result, first + 1)
  {
    var kept := Reject(inactive, registry[..first]);
    RejectStep(registry, inactive, first);
    if !inactive(registry[first]) {
      var next := slots[result := slots[first]][first := Empty];
      var kept' := kept + [registry[first]];
      forall k | 0 <= k < result + 1
        ensures next[k] == Holds(kept'[k])
      {
      }
    }
  }

  /**
   `std::remove_if` over the registry, step by step as libstdc++ performs it:
   find the first inactive session, then move every later active session
   forward over it, leaving the source slot empty.
   */
  method RemoveIf<S(!new)>(registry: seq<S>, inactive: S -> bool) returns (slots: seq<Slot<S>>, newEnd: nat)
    ensures |slots| == |registry|
    ensures newEnd == |Reject(inactive, registry)|
    ensures forall k :: 0 <= k < newEnd ==> slots[k] == Holds(Reject(inactive, registry)[k])
    ensures slots[newEnd..] == MovedTail(registry, inactive)
  {
    slots := seq(|registry|, k requires 0 <= k < |registry| => Holds(registry[k]));
    var first := FindInactive(registry, inactive);
    RejectAll(inactive, registry[..first]);
    var result := first;
    if first < |registry| {
      RejectStep(registry, inactive, first);
      first := first + 1;
      while first < |registry|
        invariant Compacted(registry, inactive, slots, result, first)
      {
        CompactStep(registry, inactive, slots, result, first);
        if !inactive(slots[first].session) {
          slots := slots[result := slots[first]][first := Empty];
          result := result + 1;
        }
        first := first + 1;
      }
    }
    assert registry[..first] == registry;
    newEnd := result;
  }

  /**
   The cleanup handler as written: when the lock is acquired, run `remove_if`,
   log every slot from the new end on, then erase them. The registry it keeps
   is right; the slots it logs are `MovedTail`, not the removed sessions.
   */
  method CleanupAsWritten<S(!new)>(registry: seq<S>, inactive: S -> bool, acquired: bool)
    returns (kept: seq<S>, logged: seq<Slot<S>>)
    ensures kept == Sweep(registry, inactive, acquired).registry
    ensures !acquired ==> logged == []
    ensures acquired ==> logged == MovedTail(registry, inactive)
  {
    if !acquired {
      return registry, [];
    }
    var slots, newEnd := RemoveIf(registry, inactive);
    logged := slots[newEnd..];
    kept := [];
    var k := 0;
    while k < newEnd
      invariant 0 <= k <= newEnd
      invariant kept == Reject(inactive, registry)[..k]
    {
      kept := kept + [slots[k].session];
      k := k + 1;
    }
  }

  /**
   The discrepancy on the smallest registry that shows it: an inactive session
   followed by an active one. The cleanup logs one slot, which is empty (the
   active session was moved out of it), and never logs the inactive session
   that `Sweep` reports as removed.
   */
  lemma MovedFromTail<S(!new)>(x: S, a: S, inactive: S -> bool)
    requires inactive(x) && !inactive(a)
    ensures MovedTail([x, a], inactive) == [Empty]
    ensures Sweep([x, a], inactive, true).removed == [x]
    ensures Holds(x) !in MovedTail([x, a], inactive)
  {
    assert [x, a][1..] == [a];
    assert [a][1..] == [];
    assert Reject(inactive, [x, a]) == [a];
    var tail := MovedTail([x, a], inactive);
    assert |tail| == 1 && tail[0] == Empty;
  }

  /**
   The cleanup logs an empty slot exactly when some active session comes after
   an inactive one in the registry, that is, whenever `remove_if` has to move
   anything at all. Each such empty slot stands where an inactive session
   should have been reported.
   */
  lemma EmptyLoggedIffMoved<S(!new)>(registry: seq<S>, inactive: S -> bool)
    ensures Empty in MovedTail(registry, inactive) <==>
      exists i, j :: 0 <= i < j < |registry| && inactive(registry[i]) && !inactive(registry[j])
  {
    var n := |Reject(inactive, registry)|;
    var tail := MovedTail(registry, inactive);
    FilterRejectSplit(inactive, registry);
    if Empty in tail {
      var k :| 0 <= k < |tail| && tail[k] == Empty;
      var i := InactiveBefore(registry, inactive, n + k);
    }
    if exists i, j :: 0 <= i < j < |registry| && inactive(registry[i]) && !inactive(registry[j]) {
      var i, j :| 0 <= i < j < |registry| && inactive(registry[i]) && !inactive(registry[j]);
      var p := j;
      if j < n {
        p := ActiveAfter(registry, inactive, i);
      }
      assert tail[p - n] == Empty;
    }
  }

  /** An active session at or past the new end has an inactive session somewhere before it. */
  lemma InactiveBefore<S(!new)>(registry: seq<S>, inactive: S -> bool, q: int) returns (i: int)
    requires |Reject(inactive, registry)| <= q < |registry| && !inactive(registry[q])
    ensures 0 <= i < q && inactive(registry[i])
  {
    if !exists i :: 0 <= i < q && inactive(registry[i]) {
      var head := registry[..q + 1];
      forall x | x in head
        ensures !inactive(x)
      {
        var m :| 0 <= m < |head| && head[m] == x;
      }
      RejectAll(inactive, head);
      assert registry == head + registry[q + 1..];
      RejectAppend(inactive, head, registry[q + 1..]);
      assert false;
    }
    i :| 0 <= i < q && inactive(registry[i]);
  }

  /** An inactive session before the new end forces an active session at or past it. */
  lemma ActiveAfter<S(!new)>(registry: seq<S>, inactive: S -> bool, i: int) returns (p: int)
    requires 0 <= i < |Reject(inactive, registry)| && inactive(registry[i])
    ensures |Reject(inactive, registry)| <= p < |registry| && !inactive(registry[p])
  {
    var n := |Reject(inactive, registry)|;
    FilterRejectSplit(inactive, registry);
    if !exists p :: n <= p < |registry| && !inactive(registry[p]) {
      var tail := registry[n..];
      forall x | x in tail
        ensures inactive(x)
      {
        var m :| 0 <= m < |tail| && tail[m] == x;
      }
      FilterAll(inactive, tail);
      assert registry == registry[..n] + tail;
      RejectAppend(inactive, registry[..n], tail);
      RejectKeepsAll(inactive, registry[..n]);
      assert false;
    }
    p :| n <= p < |registry| && !inactive(registry[p]);
  }
}
