/** With no lease held at any acquisition, the lease-aware cache is the simple policy. */
module LeaseRefinement {
  import opened Common
  import opened Demand
  import opened LeaseCache
  import R = Replay
  import Second = ClockPolicy
  import Segmented = SlruPolicy

  ghost predicate Unleased(slots: seq<Option<Entry>>) {
    forall i :: 0 <= i < |slots| && slots[i].Some? ==> slots[i].value.pins == 0
  }

  ghost function KeysOf(slots: seq<Option<Entry>>): seq<Option<Key>> {
    seq(|slots|, i requires 0 <= i < |slots| => if slots[i].Some? then Some(slots[i].value.key) else None)
  }

  ghost function Bits(slots: seq<Option<Entry>>): seq<bool> {
    seq(|slots|, i requires 0 <= i < |slots| => slots[i].Some? && slots[i].value.referenced)
  }

  ghost function RingOf(s: State): Second.Ring {
    Second.Ring(KeysOf(s.slots), Bits(s.slots), s.lookup, s.hand)
  }

  /** A bounded sweep that selects agrees with the unbounded one: bits, slot and hand. */
  lemma {:induction false} SweepsAgree(slots: seq<Option<Entry>>, hand: nat, steps: nat)
    requires hand < |slots| && Unleased(slots)
    ensures var r := Sweep(Clock, slots, hand, steps);
      && KeysOf(r.slots) == KeysOf(slots)
      && (r.selected.Some? ==>
            && Second.Sweep(Bits(slots), hand) == (Bits(r.slots), r.selected.value)
            && r.hand == Second.NextHand(r.selected.value, |slots|))
    decreases steps
  {
    if steps > 0 && slots[hand].Some? && slots[hand].value.referenced {
      var spent := slots[hand := Some(slots[hand].value.(referenced := false))];
      SweepsAgree(spent, Second.NextHand(hand, |slots|), steps - 1);
      assert Bits(spent) == Bits(slots)[hand := false];
      assert KeysOf(spent) == KeysOf(slots);
    }
  }

  lemma HitRefinesClock(s: State, key: Key, kind: Option<nat>)
    requires Inv(s) && s.policy == Clock && key in s.lookup
    requires Second.Inv(RingOf(s))
    ensures RingOf(Hit(s, key, kind)) == Second.Step(RingOf(s), key)
  {
    var s' := Hit(s, key, kind);
    var ring := Second.Step(RingOf(s), key);
    assert KeysOf(s'.slots) == ring.slots;
    assert Bits(s'.slots) == ring.referenced;
  }

  lemma MissRefinesClock(s: State, key: Key)
    requires Inv(s) && s.policy == Clock && key !in s.lookup && ValidKey(key)
    requires Unleased(s.slots) && Second.Inv(RingOf(s))
    ensures var swept := Select(s);
      && swept.selected.Some? && swept.selected.value < |s.slots| == |swept.slots|
      && RingOf(Admit(s, swept.slots, swept.hand, swept.selected.value, key)) == Second.Step(RingOf(s), key)
  {
    ClockSelects(s);
    InvCounts(s);
    SecondStep(RingOf(s), key);
    var swept := Select(s);
    hide Unleased, Inv, Second.Inv, Second.Step, Second.Sweep, Sweep, Select, Admit, KeysOf, Bits;
    AdmitRing(s, swept.slots, swept.hand, swept.selected.value, key);
  }

  lemma InvCounts(s: State)
    requires Inv(s)
    ensures |s.layerMisses| == LAYERS && s.slots != []
  {
  }

  /** With nothing pinned the bounded sweep selects what the simple one does. */
  lemma ClockSelects(s: State)
    requires Inv(s) && s.policy == Clock && Unleased(s.slots)
    ensures var swept := Select(s);
      && swept.selected.Some? && swept.selected.value < |s.slots| == |swept.slots|
      && KeysOf(swept.slots) == KeysOf(s.slots)
      && Second.Sweep(Bits(s.slots), s.hand) == (Bits(swept.slots), swept.selected.value)
      && swept.hand == Second.NextHand(swept.selected.value, |s.slots|)
  {
    SelectFailsIffAllPinned(s);
    assert !Pinned(s.slots[0]);
    SweepsAgree(s.slots, s.hand, 2 * |s.slots| + 1);
    SelectIsFair(s);
    hide Indexed, Queued, Counters, Sweep, Second.Sweep, KeysOf, Bits;
  }

  lemma SecondStep(ring: Second.Ring, key: Key)
    requires Second.Inv(ring) && key !in ring.lookup && ring.slots != []
    ensures var (referenced, slot) := Second.Sweep(ring.referenced, ring.hand);
      var gone := ring.slots[slot];
      Second.Step(ring, key) ==
        Second.Ring(ring.slots[slot := Some(key)], referenced[slot := true],
                    (if gone.Some? then ring.lookup - {gone.value} else ring.lookup)[key := slot],
                    Second.NextHand(slot, |ring.slots|))
  {
  }

  lemma AdmitRing(s: State, spent: seq<Option<Entry>>, hand: nat, slot: nat, key: Key)
    requires ValidKey(key) && slot < |spent| == |s.slots| && |s.layerMisses| == LAYERS
    requires KeysOf(spent) == KeysOf(s.slots)
    ensures var gone := KeysOf(s.slots)[slot];
      RingOf(Admit(s, spent, hand, slot, key)) ==
        Second.Ring(KeysOf(s.slots)[slot := Some(key)], Bits(spent)[slot := true],
                    (if gone.Some? then s.lookup - {gone.value} else s.lookup)[key := slot], hand)
  {
    var s' := Admit(s, spent, hand, slot, key);
    assert forall i :: 0 <= i < |spent| ==> KeysOf(spent)[i] == KeysOf(s.slots)[i];
    assert KeysOf(s'.slots) == KeysOf(s.slots)[slot := Some(key)];
    assert Bits(s'.slots) == Bits(spent)[slot := true];
  }

  lemma AcquireRefinesClock(s: State, key: Key, kind: Option<nat>)
    requires Inv(s) && s.policy == Clock && ValidKey(key)
    requires Unleased(s.slots) && Second.Inv(RingOf(s))
    ensures Acquired(s, key, kind).1.Some?
    ensures Acquired(s, key, kind).1.value.hit <==> key in s.lookup
    ensures RingOf(Acquired(s, key, kind).0) == Second.Step(RingOf(s), key)
  {
    if key in s.lookup {
      HitRefinesClock(s, key, kind);
    } else {
      MissRefinesClock(s, key);
    }
  }

  /** A full, unleased cache gives up the oldest key on probation. */
  lemma FullSelectsOldest(s: State)
    requires Inv(s) && s.policy == Slru && Unleased(s.slots) && |s.lookup| == |s.slots|
    requires s.probation != []
    ensures s.probation[0] in s.lookup && s.lookup[s.probation[0]] < |s.slots|
    ensures Select(s) == Swept(s.slots, s.hand, Some(s.lookup[s.probation[0]]))
    ensures s.slots[s.lookup[s.probation[0]]].Some?
    ensures s.slots[s.lookup[s.probation[0]]].value.key == s.probation[0]
  {
    QueuedKeysIndexed(s, s.probation);
    var first := s.probation[0];
    assert !Pinned(s.slots[s.lookup[first]]);
  }

  lemma QueuesAfterEviction(s: State, key: Key)
    requires Inv(s) && s.policy == Slru && |s.lookup.Keys| == |s.slots|
    requires key !in s.lookup && s.probation != []
    ensures Segmented.Inv(QueuesOf(s), |s.slots|)
    ensures Segmented.Step(QueuesOf(s), |s.slots|, key) == Segmented.Queues(s.probation[1..] + [key], s.protected)
    ensures Segmented.Without(s.probation, s.probation[0]) == s.probation[1..]
    ensures Segmented.Without(s.protected, s.probation[0]) == s.protected
  {
    QueuesValid(s);
    var q := QueuesOf(s);
    Segmented.ResidentCount(q, |s.slots|);
    assert key !in Segmented.Residents(q);
    assert key !in q.probation && key !in q.protected;
    Segmented.WithoutFirst(s.probation);
    assert s.probation[0] in s.probation;
  }

  lemma QueuesAfterFill(s: State, key: Key)
    requires Inv(s) && s.policy == Slru && |s.lookup.Keys| < |s.slots| && key !in s.lookup
    ensures Segmented.Inv(QueuesOf(s), |s.slots|)
    ensures Segmented.Step(QueuesOf(s), |s.slots|, key) == Segmented.Queues(s.probation + [key], s.protected)
  {
    QueuesValid(s);
    var q := QueuesOf(s);
    Segmented.ResidentCount(q, |s.slots|);
    assert key !in Segmented.Residents(q);
    assert key !in q.probation && key !in q.protected;
  }

  lemma FullMissRefinesSlru(s: State, key: Key)
    requires Inv(s) && s.policy == Slru && key !in s.lookup && ValidKey(key) && Unleased(s.slots)
    requires |s.lookup.Keys| == |s.slots|
    ensures Segmented.Inv(QueuesOf(s), |s.slots|)
    ensures QueuesOf(Acquired(s, key, None).0) == Segmented.Step(QueuesOf(s), |s.slots|, key)
  {
    ProbationNotEmpty(s);
    FullSelectsOldest(s);
    QueuesAfterEviction(s, key);
  }

  /** With a free slot, an SLRU miss fills it and evicts nothing. */
  lemma FillingSelectsEmpty(s: State)
    requires Inv(s) && s.policy == Slru && Unleased(s.slots) && |s.lookup.Keys| < |s.slots|
    ensures Select(s).selected.Some? && Select(s).selected.value < |s.slots| == |Select(s).slots|
    ensures s.slots[Select(s).selected.value].None?
  {
    SelectFailsIffAllPinned(s);
    assert !Pinned(s.slots[0]);
    SweepIsFair(Slru, s.slots, s.hand, 2 * |s.slots| + 1);
  }

  lemma FillingMissRefinesSlru(s: State, key: Key)
    requires Inv(s) && s.policy == Slru && key !in s.lookup && ValidKey(key) && Unleased(s.slots)
    requires |s.lookup.Keys| < |s.slots|
    ensures Segmented.Inv(QueuesOf(s), |s.slots|)
    ensures QueuesOf(Acquired(s, key, None).0) == Segmented.Step(QueuesOf(s), |s.slots|, key)
  {
    FillingSelectsEmpty(s);
    QueuesAfterFill(s, key);
  }

  lemma ProbationNotEmpty(s: State)
    requires Inv(s) && s.policy == Slru && |s.lookup.Keys| == |s.slots|
    ensures s.probation != []
  {
    QueuesValid(s);
    Segmented.ResidentCount(QueuesOf(s), |s.slots|);
  }

  lemma AcquireRefinesSlru(s: State, key: Key)
    requires Inv(s) && s.policy == Slru && ValidKey(key) && Unleased(s.slots)
    ensures Segmented.Inv(QueuesOf(s), |s.slots|)
    ensures QueuesOf(Acquired(s, key, None).0) == Segmented.Step(QueuesOf(s), |s.slots|, key)
  {
    if key in s.lookup {
      HitMovesQueues(s, key, None);
    } else {
      Occupancy(s.slots, s.lookup);
      if |s.lookup.Keys| == |s.slots| {
        FullMissRefinesSlru(s, key);
      } else {
        FillingMissRefinesSlru(s, key);
      }
    }
  }

  /** Pinning and releasing at once changes nothing. */
  lemma PinThenRelease(s: State, key: Key)
    requires Inv(s) && key in s.lookup
    ensures var pinned := Leased(s, key, false).0;
      && Inv(pinned) && Leased(pinned, key, true) == (s, Some(PinsOf(s.slots[s.lookup[key]])))
  {
    LeaseKeepsInv(s, key, false);
    var pinned := Leased(s, key, false).0;
    assert Leased(pinned, key, true).0.slots == s.slots;
  }

  // ---------- whole request streams, with leases taken and released in between ----------

  /** No lease is live when request `i` acquires, unless it acquires a record that is itself leased. */
  ghost predicate IdleAt(requests: seq<R.Request>, i: nat)
    requires i < |requests|
  {
    requests[i].kind == R.Acquire ==>
      requests[i].key in R.Live(requests, i) || R.Live(requests, i) == multiset{}
  }

  ghost predicate AllIdle(requests: seq<R.Request>, n: nat)
    requires n <= |requests|
  {
    forall i {:trigger IdleAt(requests, i)} :: 0 <= i < n ==> IdleAt(requests, i)
  }

  /** A legal stream that never holds two leases at once acquires only while idle. */
  lemma OneLeaseIsIdle(requests: seq<R.Request>, forwards: nat)
    requires R.Legal(requests, forwards, 1)
    ensures AllIdle(requests, |requests|)
  {
    forall i | 0 <= i < |requests|
      ensures IdleAt(requests, i)
    {
      if requests[i].kind == R.Acquire {
        assert R.LegalAt(requests, i, forwards, 1);
        assert R.LegalAt(requests, i + 1, forwards, 1);
        R.PinFollows(requests, forwards, 1, i);
      }
    }
  }

  lemma NothingLiveMeansUnleased(s: State)
    requires Holds(s, multiset{})
    ensures Unleased(s.slots)
  {
  }

  lemma LiveIsResident(s: State, key: Key, live: multiset<Key>)
    requires Holds(s, live) && key in live
    ensures key in s.lookup
  {
  }

  lemma ServedIsValid(s: State, key: Key)
    requires Inv(s) && Acquired(s, key, None).1.Some?
    ensures ValidKey(key)
  {
  }

  /** A step of a stream is a step of the ring when it acquires, and leaves the ring alone otherwise. */
  lemma StepRefinesClock(p: R.Progress, r: R.Request, live: multiset<Key>)
    requires Inv(p.cache) && p.cache.policy == Clock && Holds(p.cache, live) && R.Step(p, r).Ok?
    requires r.kind == R.Acquire ==> r.key in live || live == multiset{}
    requires Second.Inv(RingOf(p.cache))
    ensures RingOf(R.Step(p, r).value.cache)
         == if r.kind == R.Acquire then Second.Step(RingOf(p.cache), r.key) else RingOf(p.cache)
  {
    var s := p.cache;
    if r.kind == R.Acquire {
      ServedIsValid(s, r.key);
      if r.key in live {
        LiveIsResident(s, r.key, live);
        HitRefinesClock(s, r.key, None);
      } else {
        NothingLiveMeansUnleased(s);
        AcquireRefinesClock(s, r.key, None);
      }
    } else {
      LeaseKeepsRing(s, r.key, r.kind == R.Release);
    }
  }

  lemma LeaseKeepsRing(s: State, key: Key, release: bool)
    requires Inv(s)
    ensures RingOf(Leased(s, key, release).0) == RingOf(s) && QueuesOf(Leased(s, key, release).0) == QueuesOf(s)
  {
    var s' := Leased(s, key, release).0;
    assert KeysOf(s'.slots) == KeysOf(s.slots) && Bits(s'.slots) == Bits(s.slots);
  }

  /** CLOCK: the same ring as the simple policy's, bit for bit, after every prefix. */
  lemma {:induction false} RunRefinesClock(requests: seq<R.Request>, n: nat, capacity: nat, forwards: nat)
    requires n <= |requests| && capacity > 0 && R.Fold(requests, n, capacity, Clock, forwards).Ok?
    requires AllIdle(requests, n)
    ensures var keys := R.KeysBetween(requests, 0, n);
      RingOf(R.Fold(requests, n, capacity, Clock, forwards).value.cache) == Second.After(keys, capacity, |keys|)
  {
    hide R.Step, Inv, Holds, R.Live, RingOf;
    if n == 0 {
      FreshRing(capacity);
    } else {
      RunRefinesClock(requests, n - 1, capacity, forwards);
      R.FoldKeepsLeases(requests, n - 1, capacity, Clock, forwards);
      var p, r := R.Fold(requests, n - 1, capacity, Clock, forwards).value, requests[n - 1];
      assert IdleAt(requests, n - 1);
      StepRefinesClock(p, r, R.Live(requests, n - 1));
      if r.kind == R.Acquire {
        Second.AfterNext(R.KeysBetween(requests, 0, n - 1), r.key, capacity);
      } else {
        assert R.KeysBetween(requests, 0, n) == R.KeysBetween(requests, 0, n - 1);
      }
    }
  }

  lemma FreshRing(capacity: nat)
    ensures RingOf(Fresh(capacity, Clock)) == Second.After([], capacity, 0)
  {
    assert RingOf(Fresh(capacity, Clock)) == Second.Empty(capacity);
  }

  lemma StepRefinesSlru(p: R.Progress, r: R.Request, live: multiset<Key>)
    requires Inv(p.cache) && p.cache.policy == Slru && Holds(p.cache, live) && R.Step(p, r).Ok?
    requires r.kind == R.Acquire ==> r.key in live || live == multiset{}
    ensures Segmented.Inv(QueuesOf(p.cache), |p.cache.slots|)
    ensures QueuesOf(R.Step(p, r).value.cache)
         == if r.kind == R.Acquire then Segmented.Step(QueuesOf(p.cache), |p.cache.slots|, r.key) else QueuesOf(p.cache)
  {
    var s := p.cache;
    QueuesValid(s);
    if r.kind == R.Acquire {
      ServedIsValid(s, r.key);
      if r.key in live {
        LiveIsResident(s, r.key, live);
        HitMovesQueues(s, r.key, None);
      } else {
        NothingLiveMeansUnleased(s);
        AcquireRefinesSlru(s, r.key);
      }
    } else {
      LeaseKeepsRing(s, r.key, r.kind == R.Release);
    }
  }

  /** SLRU: the same queues as the simple policy's, in the same order, after every prefix. */
  lemma {:induction false} RunRefinesSlru(requests: seq<R.Request>, n: nat, capacity: nat, forwards: nat)
    requires n <= |requests| && capacity > 0 && R.Fold(requests, n, capacity, Slru, forwards).Ok?
    requires AllIdle(requests, n)
    ensures var keys := R.KeysBetween(requests, 0, n);
      QueuesOf(R.Fold(requests, n, capacity, Slru, forwards).value.cache) == Segmented.After(keys, capacity, |keys|)
  {
    hide R.Step, Inv, Holds, R.Live, QueuesOf, Segmented.Step;
    if n == 0 {
      FreshQueues(capacity);
    } else {
      RunRefinesSlru(requests, n - 1, capacity, forwards);
      R.FoldKeepsLeases(requests, n - 1, capacity, Slru, forwards);
      var p, r := R.Fold(requests, n - 1, capacity, Slru, forwards).value, requests[n - 1];
      assert IdleAt(requests, n - 1);
      StepRefinesSlru(p, r, R.Live(requests, n - 1));
      if r.kind == R.Acquire {
        Segmented.AfterNext(R.KeysBetween(requests, 0, n - 1), r.key, capacity);
      } else {
        assert R.KeysBetween(requests, 0, n) == R.KeysBetween(requests, 0, n - 1);
      }
    }
  }

  lemma FreshQueues(capacity: nat)
    ensures QueuesOf(Fresh(capacity, Slru)) == Segmented.After([], capacity, 0)
  {
  }

  // ---------- so every decision agrees ----------

  ghost function Schedules(keys: seq<Key>, capacity: nat, policy: Policy): (c: Schedule)
    ensures |c| == |keys| + 1
  {
    match policy
    case Clock => Second.Caches(keys, capacity)
    case Slru => Segmented.Caches(keys, capacity)
  }

  lemma ResidentsRefine(requests: seq<R.Request>, n: nat, capacity: nat, policy: Policy, forwards: nat)
    requires n <= |requests| && capacity > 0 && R.Fold(requests, n, capacity, policy, forwards).Ok?
    requires AllIdle(requests, n)
    ensures var keys := R.KeysBetween(requests, 0, n);
      R.Residents(R.Fold(requests, n, capacity, policy, forwards)) == Schedules(keys, capacity, policy)[|keys|]
  {
    hide R.Fold, Inv, Second.Inv;
    R.FoldKeepsLeases(requests, n, capacity, policy, forwards);
    if policy == Clock {
      RunRefinesClock(requests, n, capacity, forwards);
    } else {
      RunRefinesSlru(requests, n, capacity, forwards);
      QueuesValid(R.Fold(requests, n, capacity, policy, forwards).value.cache);
    }
  }

  lemma SchedulesNext(keys: seq<Key>, key: Key, capacity: nat, policy: Policy)
    ensures Schedules(keys + [key], capacity, policy)
         == Schedules(keys, capacity, policy) + [Schedules(keys + [key], capacity, policy)[|keys| + 1]]
  {
    hide Schedules;
    forall i | 0 <= i <= |keys|
      ensures Schedules(keys + [key], capacity, policy)[i] == Schedules(keys, capacity, policy)[i]
    {
      SchedulesPrefix(keys, key, capacity, policy, i);
    }
  }

  lemma SchedulesPrefix(keys: seq<Key>, key: Key, capacity: nat, policy: Policy, i: nat)
    requires i <= |keys|
    ensures Schedules(keys + [key], capacity, policy)[i] == Schedules(keys, capacity, policy)[i]
  {
    hide Second.After, Segmented.After, Segmented.Residents;
    Second.AfterPrefix(keys, [key], capacity, i);
    Segmented.AfterPrefix(keys, [key], capacity, i);
  }

  /** The records resident before every acquisition, and after the last, are those of the simple policy. */
  lemma {:induction false} ResidentsAgree(requests: seq<R.Request>, n: nat, capacity: nat, policy: Policy,
                                          forwards: nat)
    requires n <= |requests| && capacity > 0 && R.Fold(requests, n, capacity, policy, forwards).Ok?
    requires AllIdle(requests, n)
    ensures R.CachesOf(requests, n, capacity, policy, forwards)
         == Schedules(R.KeysBetween(requests, 0, n), capacity, policy)
  {
    hide R.Step, R.Live, Schedules;
    ResidentsRefine(requests, n, capacity, policy, forwards);
    if n == 0 {
      EmptySchedules(capacity, policy);
    } else {
      ResidentsAgree(requests, n - 1, capacity, policy, forwards);
      var keys := R.KeysBetween(requests, 0, n - 1);
      if requests[n - 1].kind == R.Acquire {
        SchedulesNext(keys, requests[n - 1].key, capacity, policy);
      } else {
        assert R.KeysBetween(requests, 0, n) == keys;
      }
    }
  }

  lemma EmptySchedules(capacity: nat, policy: Policy)
    ensures Schedules([], capacity, policy) == [{}]
  {
    assert Second.Empty(capacity).lookup.Keys == {};
    assert Schedules([], capacity, policy)[0] == {};
  }

  /** The counters agree: misses are the simple policy's, hits the other demands. */
  lemma RunCounts(requests: seq<R.Request>, n: nat, capacity: nat, policy: Policy, forwards: nat)
    requires n <= |requests| && capacity > 0 && R.Fold(requests, n, capacity, policy, forwards).Ok?
    requires AllIdle(requests, n)
    ensures var keys := R.KeysBetween(requests, 0, n);
      var cache := R.Fold(requests, n, capacity, policy, forwards).value.cache;
      && cache.misses == Misses(keys, Schedules(keys, capacity, policy), |keys|)
      && cache.hits == |keys| - cache.misses
  {
    hide R.Fold, Schedules, R.CachesOf;
    ResidentsAgree(requests, n, capacity, policy, forwards);
    R.ReplayIsSchedule(requests, n, capacity, policy, forwards);
  }

  /** An outcome tells what happens to the residents: a hit keeps them, a miss loses its victim. */
  lemma OutcomeTells(s: State, key: Key)
    requires Inv(s) && Acquired(s, key, None).1.Some?
    ensures var (s', outcome) := Acquired(s, key, None);
      && (outcome.value.hit <==> key in s.lookup)
      && key in s'.lookup && outcome.value.slot == s'.lookup[key]
      && s.lookup.Keys - s'.lookup.Keys == (if outcome.value.victim == -1 then {} else {outcome.value.victim})
  {
    var (s', outcome) := Acquired(s, key, None);
    if key !in s.lookup {
      SelectIsFair(s);
      var gone := s.slots[outcome.value.slot];
      assert gone.Some? ==> gone.value.key in s.lookup && ValidKey(gone.value.key);
      hide Inv, Select;
      assert s.lookup.Keys - s'.lookup.Keys == if gone.Some? then {gone.value.key} else {};
    }
  }

  /** Each acquisition hits, misses and evicts as the simple policy does on the demands so far. */
  lemma DecisionsAgree(requests: seq<R.Request>, i: nat, capacity: nat, policy: Policy, forwards: nat)
    requires i < |requests| && requests[i].kind == R.Acquire && capacity > 0 && AllIdle(requests, i + 1)
    requires R.Fold(requests, i + 1, capacity, policy, forwards).Ok?
    ensures R.Fold(requests, i, capacity, policy, forwards).Ok?
    ensures Inv(R.Fold(requests, i, capacity, policy, forwards).value.cache)
    ensures var before := R.Fold(requests, i, capacity, policy, forwards).value.cache;
      var outcome := Acquired(before, requests[i].key, None).1;
      var keys := R.KeysBetween(requests, 0, i + 1);
      var caches := Schedules(keys, capacity, policy);
      && outcome.Some?
      && (outcome.value.hit <==> !MissesAt(keys, caches, |keys| - 1))
      && caches[|keys| - 1] - caches[|keys|] == (if outcome.value.victim == -1 then {} else {outcome.value.victim})
  {
    hide Inv, Acquired, Schedules, R.Fold, R.Step;
    R.FoldOkBefore(requests, i, i + 1, capacity, policy, forwards);
    R.FoldLast(requests, i + 1, capacity, policy, forwards);
    var p := R.Fold(requests, i, capacity, policy, forwards).value;
    R.StepAcquires(p, requests[i]);
    OutcomeTells(p.cache, requests[i].key);
    ResidentsRefine(requests, i, capacity, policy, forwards);
    ResidentsRefine(requests, i + 1, capacity, policy, forwards);
    SchedulesNext(R.KeysBetween(requests, 0, i), requests[i].key, capacity, policy);
  }
}
