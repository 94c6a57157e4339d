/** The replay cache with leases: CLOCK or SLRU replacement that never takes a pinned entry. */
module LeaseCache {
  import opened Common
  import opened Demand
  import Second = ClockPolicy
  import Segmented = SlruPolicy

  datatype Policy = Clock | Slru

  datatype Entry = Entry(key: Key, referenced: bool, pins: int)

  datatype State = State(
    policy: Policy, slots: seq<Option<Entry>>, lookup: map<Key, nat>, hand: nat,
    probation: seq<Key>, protected: seq<Key>,
    hits: nat, misses: nat, evictions: nat, readyHits: nat, joins: nat,
    layerHits: seq<nat>, layerMisses: seq<nat>)

  /** victim is -1 when an empty slot was filled or nothing moved. */
  datatype Outcome = Outcome(hit: bool, slot: nat, victim: int)

  function Fresh(capacity: nat, policy: Policy): State {
    State(policy, seq(capacity, _ => None), map[], 0, [], [], 0, 0, 0, 0, 0,
          seq(LAYERS, _ => 0), seq(LAYERS, _ => 0))
  }

  predicate ValidKey(key: Key) {
    0 <= key < LAYERS * EXPERTS
  }

  function Limit(s: State): nat {
    3 * |s.slots| / 4
  }

  // ---------- choosing a slot ----------

  predicate Pinned(e: Option<Entry>) {
    e.Some? && e.value.pins != 0
  }

  datatype Swept = Swept(slots: seq<Option<Entry>>, hand: nat, selected: Option<nat>)

  /** At most `steps` slots from the hand on; a reference bit spared once is spent. */
  function Sweep(policy: Policy, slots: seq<Option<Entry>>, hand: nat, steps: nat): (r: Swept)
    requires hand < |slots|
    ensures |r.slots| == |slots| && r.hand < |slots|
    ensures r.selected.Some? ==> r.selected.value < |slots|
    decreases steps
  {
    if steps == 0 then Swept(slots, hand, None)
    else
      var next := Second.NextHand(hand, |slots|);
      if slots[hand].None? then Swept(slots, next, Some(hand))
      else
        var e := slots[hand].value;
        if policy == Slru || e.pins != 0 then Sweep(policy, slots, next, steps - 1)
        else if e.referenced then Sweep(policy, slots[hand := Some(e.(referenced := false))], next, steps - 1)
        else Swept(slots, next, Some(hand))
  }

  /** The slot of the first queued key without a lease. */
  function FirstUnpinned(slots: seq<Option<Entry>>, lookup: map<Key, nat>, queue: seq<Key>): (r: Option<nat>)
    requires forall i :: 0 <= i < |queue| ==> queue[i] in lookup && lookup[queue[i]] < |slots|
    ensures r.Some? ==> r.value < |slots| && !Pinned(slots[r.value])
    ensures r.None? ==> forall i :: 0 <= i < |queue| ==> Pinned(slots[lookup[queue[i]]])
    ensures r.Some? ==> exists i :: 0 <= i < |queue| && lookup[queue[i]] == r.value
  {
    if queue == [] then None
    else if !Pinned(slots[lookup[queue[0]]]) then Some(lookup[queue[0]])
    else FirstUnpinned(slots, lookup, queue[1..])
  }

  /** Slots and index are mutually inverse, and no lease count is negative. */
  ghost predicate Indexed(slots: seq<Option<Entry>>, lookup: map<Key, nat>) {
    && (forall k :: k in lookup ==> lookup[k] < |slots|)
    && (forall k :: k in lookup ==> slots[lookup[k]].Some? && slots[lookup[k]].value.key == k)
    && (forall i :: 0 <= i < |slots| && slots[i].Some? ==>
          slots[i].value.key in lookup && lookup[slots[i].value.key] == i && slots[i].value.pins >= 0)
  }

  ghost predicate Queued(s: State) {
    match s.policy
    case Clock => s.probation == [] && s.protected == []
    case Slru =>
      && Distinct(s.probation) && Distinct(s.protected)
      && (forall k :: k in s.probation ==> k !in s.protected)
      && Elements(s.probation) + Elements(s.protected) == s.lookup.Keys
      && |s.protected| <= Limit(s)
  }

  ghost predicate Counters(s: State) {
    && |s.layerHits| == LAYERS && |s.layerMisses| == LAYERS
    && s.hits == Sum(s.layerHits)
    && s.misses == Sum(s.layerMisses)
    && s.misses == s.evictions + |s.lookup.Keys|
  }

  ghost predicate Inv(s: State) {
    && s.hand < |s.slots|
    && Indexed(s.slots, s.lookup)
    && Queued(s)
    && Counters(s)
    && (forall k :: k in s.lookup ==> ValidKey(k))
  }

  lemma QueuedKeysIndexed(s: State, queue: seq<Key>)
    requires Inv(s) && Elements(queue) <= s.lookup.Keys
    ensures forall i :: 0 <= i < |queue| ==> queue[i] in s.lookup && s.lookup[queue[i]] < |s.slots|
  {
    forall i | 0 <= i < |queue|
      ensures queue[i] in s.lookup && s.lookup[queue[i]] < |s.slots|
    {
      var k := queue[i];
      assert k in Elements(queue);
    }
  }

  function Select(s: State): Swept
    requires Inv(s)
  {
    if s.policy == Slru && |s.lookup| == |s.slots| then
      QueuedKeysIndexed(s, s.probation);
      QueuedKeysIndexed(s, s.protected);
      var first := FirstUnpinned(s.slots, s.lookup, s.probation);
      Swept(s.slots, s.hand, if first.Some? then first else FirstUnpinned(s.slots, s.lookup, s.protected))
    else Sweep(s.policy, s.slots, s.hand, 2 * |s.slots| + 1)
  }

  // ---------- acquire and lease ----------

  /** Demote protected keys, oldest first, until the segment fits. */
  function Demote(probation: seq<Key>, protected: seq<Key>, limit: nat): (seq<Key>, seq<Key>)
    decreases |protected|
  {
    if |protected| > limit then Demote(probation + [protected[0]], protected[1..], limit)
    else (probation, protected)
  }

  function Hit(s: State, key: Key, kind: Option<nat>): State
    requires ValidKey(key) && key in s.lookup && s.lookup[key] < |s.slots| && s.slots[s.lookup[key]].Some?
    requires |s.layerHits| == LAYERS
  {
    var slot := s.lookup[key];
    var layer := key / EXPERTS;
    var (probation, protected) :=
      if s.policy == Slru then
        Demote(Segmented.Without(s.probation, key), Segmented.Without(s.protected, key) + [key], Limit(s))
      else (s.probation, s.protected);
    s.(slots := s.slots[slot := Some(s.slots[slot].value.(referenced := true))],
       hits := s.hits + 1, layerHits := s.layerHits[layer := s.layerHits[layer] + 1],
       probation := probation, protected := protected,
       readyHits := s.readyHits + (if kind == Some(1) then 1 else 0),
       joins := s.joins + (if kind == Some(2) then 1 else 0))
  }

  function Reindex(lookup: map<Key, nat>, gone: Option<Entry>, key: Key, slot: nat): map<Key, nat> {
    (if gone.Some? then lookup - {gone.value.key} else lookup)[key := slot]
  }

  function Dequeue(queue: seq<Key>, gone: Option<Entry>): seq<Key> {
    if gone.Some? then Segmented.Without(queue, gone.value.key) else queue
  }

  /** Put `key` in `slot`, dropping whatever was there. */
  function Admit(s: State, spent: seq<Option<Entry>>, hand: nat, slot: nat, key: Key): State
    requires ValidKey(key) && slot < |spent| == |s.slots| && |s.layerMisses| == LAYERS
  {
    var gone := s.slots[slot];
    var layer := key / EXPERTS;
    s.(slots := spent[slot := Some(Entry(key, true, 0))], lookup := Reindex(s.lookup, gone, key, slot), hand := hand,
       probation := Dequeue(s.probation, gone) + (if s.policy == Slru then [key] else []),
       protected := Dequeue(s.protected, gone),
       evictions := s.evictions + (if gone.Some? then 1 else 0),
       misses := s.misses + 1, layerMisses := s.layerMisses[layer := s.layerMisses[layer] + 1])
  }

  /** No outcome means the call raised; a failed sweep has still moved the hand. */
  function Acquired(s: State, key: Key, kind: Option<nat>): (State, Option<Outcome>)
    requires Inv(s)
  {
    if !ValidKey(key) then (s, None)
    else if key in s.lookup then (Hit(s, key, kind), Some(Outcome(true, s.lookup[key], -1)))
    else
      var swept := Select(s);
      if swept.selected.None? then (s.(slots := swept.slots, hand := swept.hand), None)
      else
        var slot := swept.selected.value;
        SelectInRange(s);
        (Admit(s, swept.slots, swept.hand, slot, key),
         Some(Outcome(false, slot, if s.slots[slot].Some? then s.slots[slot].value.key else -1)))
  }

  function Leased(s: State, key: Key, release: bool): (State, Option<nat>)
    requires Inv(s)
  {
    if key !in s.lookup then (s, None)
    else
      var slot := s.lookup[key];
      var e := s.slots[slot].value;
      var pins := e.pins + if release then -1 else 1;
      (s.(slots := s.slots[slot := Some(e.(pins := pins))]), if pins >= 0 then Some(pins) else None)
  }

  function PinSum(slots: seq<Option<Entry>>): int {
    if slots == [] then 0
    else
      var last := slots[|slots| - 1];
      PinSum(slots[..|slots| - 1]) + if last.Some? then last.value.pins else 0
  }

  // ---------- the sweep ----------

  /** Steps from the hand to slot `j`. */
  function Distance(hand: nat, j: nat, capacity: nat): nat
    requires hand < capacity && j < capacity
  {
    if hand <= j then j - hand else j - hand + capacity
  }

  lemma {:induction false} SweepFinds(slots: seq<Option<Entry>>, hand: nat, steps: nat, j: nat)
    requires hand < |slots| && j < |slots| && !Pinned(slots[j])
    requires steps > Distance(hand, j, |slots|)
                   + if slots[j].Some? && slots[j].value.referenced then |slots| else 0
    ensures Sweep(Clock, slots, hand, steps).selected.Some?
    decreases steps
  {
    var next := Second.NextHand(hand, |slots|);
    if slots[hand].Some? {
      var e := slots[hand].value;
      if e.pins != 0 {
        SweepFinds(slots, next, steps - 1, j);
      } else if e.referenced {
        SweepFinds(slots[hand := Some(e.(referenced := false))], next, steps - 1, j);
      }
    }
  }

  lemma {:induction false} SweepFindsEmpty(slots: seq<Option<Entry>>, hand: nat, steps: nat, j: nat)
    requires hand < |slots| && j < |slots| && slots[j].None? && steps > Distance(hand, j, |slots|)
    ensures Sweep(Slru, slots, hand, steps).selected.Some?
    decreases steps
  {
    if slots[hand].Some? {
      SweepFindsEmpty(slots, Second.NextHand(hand, |slots|), steps - 1, j);
    }
  }

  /** Nothing but the reference bits of unleased entries differs. */
  ghost predicate OnlySpent(slots: seq<Option<Entry>>, spent: seq<Option<Entry>>) {
    && |spent| == |slots|
    && forall i :: 0 <= i < |slots| ==>
         || spent[i] == slots[i]
         || (slots[i].Some? && slots[i].value.pins == 0 && spent[i] == Some(slots[i].value.(referenced := false)))
  }

  /** A sweep only spends bits of unleased entries, and picks an empty or an unleased, unmarked slot. */
  lemma {:induction false} SweepIsFair(policy: Policy, slots: seq<Option<Entry>>, hand: nat, steps: nat)
    requires hand < |slots|
    ensures var r := Sweep(policy, slots, hand, steps);
      && OnlySpent(slots, r.slots)
      && (r.selected.Some? ==>
            var e := r.slots[r.selected.value];
            e.None? || (policy == Clock && e.value.pins == 0 && !e.value.referenced))
    decreases steps
  {
    if steps > 0 && slots[hand].Some? {
      var e := slots[hand].value;
      var next := Second.NextHand(hand, |slots|);
      if policy == Slru || e.pins != 0 {
        SweepIsFair(policy, slots, next, steps - 1);
      } else if e.referenced {
        SweepIsFair(policy, slots[hand := Some(e.(referenced := false))], next, steps - 1);
      }
    }
  }

  /** Two laps and one step fail exactly when every slot is leased. */
  lemma SweepFailsIffAllPinned(slots: seq<Option<Entry>>, hand: nat)
    requires hand < |slots|
    ensures Sweep(Clock, slots, hand, 2 * |slots| + 1).selected.None?
       <==> forall i :: 0 <= i < |slots| ==> Pinned(slots[i])
  {
    var r := Sweep(Clock, slots, hand, 2 * |slots| + 1);
    if j :| 0 <= j < |slots| && !Pinned(slots[j]) {
      SweepFinds(slots, hand, 2 * |slots| + 1, j);
    } else {
      SweepIsFair(Clock, slots, hand, 2 * |slots| + 1);
    }
  }

  lemma SelectInRange(s: State)
    requires Inv(s)
    ensures var r := Select(s);
      && |r.slots| == |s.slots| && r.hand < |s.slots|
      && (r.selected.Some? ==> r.selected.value < |s.slots|)
  {
  }

  // ---------- occupancy ----------

  ghost function Occupied(slots: seq<Option<Entry>>): set<nat> {
    set i | 0 <= i < |slots| && slots[i].Some?
  }

  lemma {:induction false} OneSlotPerKey(slots: seq<Option<Entry>>, lookup: map<Key, nat>, keys: set<Key>,
                                         places: set<nat>)
    requires Indexed(slots, lookup) && keys <= lookup.Keys && places <= Occupied(slots)
    requires forall k :: k in keys ==> lookup[k] in places
    requires forall i :: i in places ==> slots[i].value.key in keys
    ensures |keys| == |places|
  {
    if keys == {} {
      assert places == {};
    } else {
      var k := AnyOf(keys);
      OneSlotPerKey(slots, lookup, keys - {k}, places - {lookup[k]});
    }
  }

  lemma {:induction false} OccupiedBound(slots: seq<Option<Entry>>)
    ensures |Occupied(slots)| <= |slots|
    ensures |Occupied(slots)| == |slots| <==> forall i :: 0 <= i < |slots| ==> slots[i].Some?
  {
    if slots != [] {
      var n := |slots| - 1;
      OccupiedBound(slots[..n]);
      assert Occupied(slots) == if slots[n].Some? then Occupied(slots[..n]) + {n} else Occupied(slots[..n]);
      assert forall i :: 0 <= i < n ==> slots[..n][i] == slots[i];
    }
  }

  lemma Occupancy(slots: seq<Option<Entry>>, lookup: map<Key, nat>)
    requires Indexed(slots, lookup)
    ensures |lookup.Keys| == |Occupied(slots)| <= |slots|
    ensures |lookup.Keys| == |slots| <==> forall i :: 0 <= i < |slots| ==> slots[i].Some?
  {
    OneSlotPerKey(slots, lookup, lookup.Keys, Occupied(slots));
    OccupiedBound(slots);
  }

  ghost predicate AllPinned(slots: seq<Option<Entry>>) {
    forall i :: 0 <= i < |slots| ==> Pinned(slots[i])
  }

  lemma SelectFailsIffAllPinned(s: State)
    requires Inv(s)
    ensures Select(s).selected.None? <==> AllPinned(s.slots)
  {
    hide Queued, Counters, Indexed;
    if s.policy == Clock {
      SweepFailsIffAllPinned(s.slots, s.hand);
    } else if |s.lookup| == |s.slots| {
      QueueFailsIffAllPinned(s);
    } else {
      EmptySlotIsFound(s);
    }
  }

  lemma EmptySlotIsFound(s: State)
    requires Inv(s) && |s.lookup| != |s.slots|
    ensures !AllPinned(s.slots) && Sweep(Slru, s.slots, s.hand, 2 * |s.slots| + 1).selected.Some?
  {
    hide Queued, Counters;
    Occupancy(s.slots, s.lookup);
    var j :| 0 <= j < |s.slots| && s.slots[j].None?;
    assert !Pinned(s.slots[j]);
    SweepFindsEmpty(s.slots, s.hand, 2 * |s.slots| + 1, j);
  }

  lemma QueueFailsIffAllPinned(s: State)
    requires Inv(s) && s.policy == Slru && |s.lookup| == |s.slots|
    ensures Select(s).selected.None? <==> AllPinned(s.slots)
  {
    Occupancy(s.slots, s.lookup);
    if Select(s).selected.None? {
      forall i | 0 <= i < |s.slots|
        ensures Pinned(s.slots[i])
      {
        var k := s.slots[i].value.key;
        assert k in Elements(s.probation) || k in Elements(s.protected);
        assert s.lookup[k] == i;
      }
    }
  }

  /** The exact condition under which an acquisition raises. */
  lemma AcquireFailsIff(s: State, key: Key, kind: Option<nat>)
    requires Inv(s)
    ensures Acquired(s, key, kind).1.None? <==> !ValidKey(key) || (key !in s.lookup && AllPinned(s.slots))
  {
    SelectFailsIffAllPinned(s);
  }

  /** The slot taken on a miss was empty or unleased; bits of leased entries are untouched. */
  lemma SelectIsFair(s: State)
    requires Inv(s)
    ensures var r := Select(s);
      && |r.slots| == |s.slots| && r.hand < |s.slots|
      && (r.selected.Some? ==> r.selected.value < |s.slots| && !Pinned(s.slots[r.selected.value]))
      && OnlySpent(s.slots, r.slots)
  {
    SweepIsFair(s.policy, s.slots, s.hand, 2 * |s.slots| + 1);
  }

  // ---------- every step keeps the invariant ----------

  ghost function QueuesOf(s: State): Segmented.Queues {
    Segmented.Queues(s.probation, s.protected)
  }

  lemma QueuesValid(s: State)
    requires Inv(s) && s.policy == Slru
    ensures Segmented.Inv(QueuesOf(s), |s.slots|)
    ensures Segmented.Residents(QueuesOf(s)) == s.lookup.Keys
  {
    Occupancy(s.slots, s.lookup);
    DistinctCount(s.probation);
    DistinctCount(s.protected);
    forall k | k in Elements(s.probation)
      ensures k !in Elements(s.protected)
    {
      assert k in s.probation;
    }
    assert |Elements(s.probation) + Elements(s.protected)| == |s.probation| + |s.protected|;
  }

  /** On a hit the lease-aware queues move exactly as the simple segmented policy's do. */
  lemma HitMovesQueues(s: State, key: Key, kind: Option<nat>)
    requires Inv(s) && s.policy == Slru && key in s.lookup
    ensures Segmented.Inv(QueuesOf(s), |s.slots|)
    ensures QueuesOf(Hit(s, key, kind)) == Segmented.Step(QueuesOf(s), |s.slots|, key)
  {
    QueuesValid(s);
    Segmented.WithoutKeepsDistinct(s.protected, key);
    var q := QueuesOf(s);
    var protected := Segmented.Without(s.protected, key) + [key];
    var probation := Segmented.Without(s.probation, key);
    if key in s.protected {
      assert Demote(probation, protected, Limit(s)) == (probation, protected);
    } else if |protected| > Limit(s) {
      assert Demote(probation, protected, Limit(s)) == (probation + [protected[0]], protected[1..]);
    }
  }

  lemma HitKeepsQueues(s: State, key: Key, kind: Option<nat>)
    requires Inv(s) && key in s.lookup
    ensures Queued(Hit(s, key, kind))
  {
    if s.policy == Slru {
      HitMovesQueues(s, key, kind);
      QueuesValid(s);
      Segmented.StepKeepsInv(QueuesOf(s), |s.slots|, key);
    }
  }

  lemma HitKeepsIndex(s: State, key: Key, kind: Option<nat>)
    requires Inv(s) && key in s.lookup
    ensures Indexed(Hit(s, key, kind).slots, s.lookup)
  {
  }

  lemma HitKeepsCounters(s: State, key: Key, kind: Option<nat>)
    requires Inv(s) && key in s.lookup
    ensures Counters(Hit(s, key, kind))
  {
    SumBump(s.layerHits, key / EXPERTS);
  }

  lemma HitKeepsInv(s: State, key: Key, kind: Option<nat>)
    requires Inv(s) && key in s.lookup
    ensures Inv(Hit(s, key, kind))
  {
    HitKeepsIndex(s, key, kind);
    HitKeepsQueues(s, key, kind);
    HitKeepsCounters(s, key, kind);
  }

  lemma AdmitKeepsIndex(slots: seq<Option<Entry>>, spent: seq<Option<Entry>>, lookup: map<Key, nat>, slot: nat,
                        key: Key)
    requires Indexed(slots, lookup) && OnlySpent(slots, spent) && slot < |slots| && key !in lookup
    ensures Indexed(spent[slot := Some(Entry(key, true, 0))], Reindex(lookup, slots[slot], key, slot))
  {
  }

  lemma ReindexKeys(slots: seq<Option<Entry>>, lookup: map<Key, nat>, slot: nat, key: Key)
    requires Indexed(slots, lookup) && slot < |slots| && key !in lookup
    ensures var lookup' := Reindex(lookup, slots[slot], key, slot);
      && lookup'.Keys == (if slots[slot].Some? then lookup.Keys - {slots[slot].value.key} else lookup.Keys) + {key}
      && |lookup'.Keys| == |lookup.Keys| + (if slots[slot].Some? then 0 else 1)
  {
    if slots[slot].Some? {
      var gone := slots[slot].value.key;
      assert gone in lookup.Keys;
      assert |lookup.Keys - {gone}| == |lookup.Keys| - 1;
      assert Reindex(lookup, slots[slot], key, slot).Keys == lookup.Keys - {gone} + {key};
    } else {
      assert Reindex(lookup, slots[slot], key, slot).Keys == lookup.Keys + {key};
    }
  }

  lemma DequeueElements(queue: seq<Key>, gone: Option<Entry>)
    requires Distinct(queue)
    ensures Distinct(Dequeue(queue, gone)) && |Dequeue(queue, gone)| <= |queue|
    ensures Elements(Dequeue(queue, gone)) == if gone.Some? then Elements(queue) - {gone.value.key} else Elements(queue)
  {
    if gone.Some? {
      Segmented.WithoutKeepsDistinct(queue, gone.value.key);
    }
  }

  lemma AdmitKeepsQueues(s: State, spent: seq<Option<Entry>>, hand: nat, slot: nat, key: Key)
    requires Inv(s) && ValidKey(key) && slot < |spent| == |s.slots| && key !in s.lookup
    ensures Queued(Admit(s, spent, hand, slot, key))
  {
    if s.policy == Slru {
      ReindexKeys(s.slots, s.lookup, slot, key);
      AdmitToProbation(s.probation, s.protected, s.slots[slot], key);
    }
  }

  lemma AdmitToProbation(probation: seq<Key>, protected: seq<Key>, gone: Option<Entry>, key: Key)
    requires Distinct(probation) && Distinct(protected) && forall k :: k in probation ==> k !in protected
    requires key !in Elements(probation) + Elements(protected)
    ensures var probation', protected' := Dequeue(probation, gone) + [key], Dequeue(protected, gone);
      && Distinct(probation') && Distinct(protected') && |protected'| <= |protected|
      && (forall k :: k in probation' ==> k !in protected')
      && Elements(probation') + Elements(protected')
         == (if gone.Some? then Elements(probation) + Elements(protected) - {gone.value.key}
             else Elements(probation) + Elements(protected)) + {key}
  {
    DequeueElements(probation, gone);
    DequeueElements(protected, gone);
    assert key !in Elements(probation) && key !in Elements(protected);
    DistinctConcat(Dequeue(probation, gone), [key]);
    assert Elements(Dequeue(probation, gone) + [key]) == Elements(Dequeue(probation, gone)) + {key};
  }

  lemma AdmitKeepsCounters(s: State, spent: seq<Option<Entry>>, hand: nat, slot: nat, key: Key)
    requires Inv(s) && ValidKey(key) && slot < |spent| == |s.slots| && key !in s.lookup
    ensures Counters(Admit(s, spent, hand, slot, key))
  {
    hide Queued;
    ReindexKeys(s.slots, s.lookup, slot, key);
    SumBump(s.layerMisses, key / EXPERTS);
  }

  lemma AdmitKeepsInv(s: State, spent: seq<Option<Entry>>, hand: nat, slot: nat, key: Key)
    requires Inv(s) && ValidKey(key) && slot < |s.slots| && hand < |s.slots| && key !in s.lookup
    requires OnlySpent(s.slots, spent)
    ensures Inv(Admit(s, spent, hand, slot, key))
  {
    ReindexKeys(s.slots, s.lookup, slot, key);
    AdmitKeepsIndex(s.slots, spent, s.lookup, slot, key);
    AdmitKeepsQueues(s, spent, hand, slot, key);
    AdmitKeepsCounters(s, spent, hand, slot, key);
  }

  lemma SpentKeepsInv(s: State, spent: seq<Option<Entry>>, hand: nat)
    requires Inv(s) && OnlySpent(s.slots, spent) && hand < |s.slots|
    ensures Inv(s.(slots := spent, hand := hand))
  {
  }

  /** Every acquisition, successful or not, keeps the index, the queues and the counters consistent. */
  lemma AcquireKeepsInv(s: State, key: Key, kind: Option<nat>)
    requires Inv(s)
    ensures Inv(Acquired(s, key, kind).0)
  {
    SelectIsFair(s);
    var swept := Select(s);
    if !ValidKey(key) {
    } else if key in s.lookup {
      HitKeepsInv(s, key, kind);
    } else if swept.selected.Some? {
      AdmitKeepsInv(s, swept.slots, swept.hand, swept.selected.value, key);
    } else {
      SpentKeepsInv(s, swept.slots, swept.hand);
    }
  }

  lemma LeaseKeepsInv(s: State, key: Key, release: bool)
    requires Inv(s) && Leased(s, key, release).1.Some?
    ensures Inv(Leased(s, key, release).0)
  {
  }

  // ---------- leases ----------

  /** The entries' lease counts are the ledger `live`: one occurrence per lease not yet released. */
  ghost predicate Holds(s: State, live: multiset<Key>) {
    && (forall i :: 0 <= i < |s.slots| && s.slots[i].Some? ==> s.slots[i].value.pins == live[s.slots[i].value.key])
    && (forall k :: k in live ==> k in s.lookup)
    && PinSum(s.slots) == |live|
  }

  function PinsOf(e: Option<Entry>): int {
    if e.Some? then e.value.pins else 0
  }

  lemma {:induction false} PinSumUpdate(slots: seq<Option<Entry>>, i: nat, e: Option<Entry>)
    requires i < |slots|
    ensures PinSum(slots[i := e]) == PinSum(slots) - PinsOf(slots[i]) + PinsOf(e)
  {
    var n := |slots| - 1;
    if i < n {
      PinSumUpdate(slots[..n], i, e);
      assert slots[i := e][..n] == slots[..n][i := e];
    } else {
      assert slots[i := e][..n] == slots[..n];
    }
  }

  lemma {:induction false} PinSumSpent(slots: seq<Option<Entry>>, spent: seq<Option<Entry>>)
    requires OnlySpent(slots, spent)
    ensures PinSum(spent) == PinSum(slots)
  {
    if slots != [] {
      var n := |slots| - 1;
      assert spent[n] == slots[n] || PinsOf(spent[n]) == PinsOf(slots[n]);
      PinSumSpent(slots[..n], spent[..n]);
    }
  }

  ghost function Leaseholders(live: multiset<Key>): set<Key> {
    set k | k in live
  }

  lemma AllPinnedAreLeaseholders(s: State, live: multiset<Key>)
    requires Inv(s) && Holds(s, live)
    ensures Leaseholders(live) <= s.lookup.Keys && |Leaseholders(live)| <= |s.slots|
    ensures AllPinned(s.slots) <==> |Leaseholders(live)| == |s.slots|
    ensures AllPinned(s.slots) ==> Leaseholders(live) == s.lookup.Keys
  {
    Occupancy(s.slots, s.lookup);
    Subset(Leaseholders(live), s.lookup.Keys);
    if AllPinned(s.slots) {
      forall k | k in s.lookup
        ensures k in live
      {
        assert Pinned(s.slots[s.lookup[k]]);
      }
      assert Leaseholders(live) == s.lookup.Keys;
    } else if |Leaseholders(live)| == |s.slots| {
      assert Leaseholders(live) == s.lookup.Keys;
      forall i | 0 <= i < |s.slots|
        ensures Pinned(s.slots[i])
      {
        assert s.slots[i].value.key in Leaseholders(live);
      }
    }
  }

  /** An acquisition is served exactly when its record is leased already or some slot is not. */
  lemma AcquireServedIff(s: State, key: Key, kind: Option<nat>, live: multiset<Key>)
    requires Inv(s) && Holds(s, live) && ValidKey(key)
    ensures Acquired(s, key, kind).1.Some? <==> key in live || |Leaseholders(live)| < |s.slots|
  {
    AcquireFailsIff(s, key, kind);
    AllPinnedAreLeaseholders(s, live);
  }

  lemma PlaceKeepsLeases(s: State, spent: seq<Option<Entry>>, hand: nat, slot: nat, key: Key, live: multiset<Key>)
    requires Inv(s) && ValidKey(key) && slot < |s.slots| && key !in s.lookup
    requires OnlySpent(s.slots, spent) && !Pinned(s.slots[slot])
    requires Holds(s, live)
    ensures Holds(Admit(s, spent, hand, slot, key), live)
  {
    var s' := Admit(s, spent, hand, slot, key);
    PinSumSpent(s.slots, spent);
    PinSumUpdate(spent, slot, Some(Entry(key, true, 0)));
    ReindexKeys(s.slots, s.lookup, slot, key);
    assert key !in live;
    forall k | k in live
      ensures k in s'.lookup
    {
      assert k in s.lookup && k in s.lookup.Keys;
      if s.slots[slot].Some? {
        assert live[s.slots[slot].value.key] == 0;
      }
      assert k in s'.lookup.Keys;
    }
  }

  lemma AcquireKeepsLeases(s: State, key: Key, kind: Option<nat>, live: multiset<Key>)
    requires Inv(s) && Holds(s, live)
    requires Acquired(s, key, kind).1.Some?
    ensures Holds(Acquired(s, key, kind).0, live)
    ensures key in Acquired(s, key, kind).0.lookup
  {
    if key in s.lookup {
      PinSumUpdate(s.slots, s.lookup[key], Some(s.slots[s.lookup[key]].value.(referenced := true)));
    } else {
      SelectIsFair(s);
      var swept := Select(s);
      PlaceKeepsLeases(s, swept.slots, swept.hand, swept.selected.value, key, live);
    }
  }

  /** A leased entry is never the victim: it stays in its slot with its leases. */
  lemma LeasedStayPut(s: State, key: Key, kind: Option<nat>, other: Key)
    requires Inv(s) && other in s.lookup && Pinned(s.slots[s.lookup[other]])
    ensures var (s', outcome) := Acquired(s, key, kind);
      && other in s'.lookup && s'.lookup[other] == s.lookup[other] < |s'.slots|
      && PinsOf(s'.slots[s.lookup[other]]) == PinsOf(s.slots[s.lookup[other]])
      && (outcome.Some? ==> outcome.value.victim != other)
  {
    SelectIsFair(s);
    assert ValidKey(other);
    if ValidKey(key) && key !in s.lookup && Select(s).selected.Some? {
      var swept := Select(s);
      ReindexKeys(s.slots, s.lookup, swept.selected.value, key);
      assert other in s.lookup.Keys;
    }
  }

  /** A pin needs the record resident; a release needs one of its leases still live. */
  lemma LeaseServedIff(s: State, key: Key, release: bool, live: multiset<Key>)
    requires Inv(s) && Holds(s, live)
    ensures Leased(s, key, release).1.Some? <==> key in s.lookup && (release ==> key in live)
  {
    if key in s.lookup {
      assert s.slots[s.lookup[key]].value.pins == live[key];
    }
  }

  lemma LeaseKeepsLeases(s: State, key: Key, release: bool, live: multiset<Key>)
    requires Inv(s) && Holds(s, live)
    requires key in s.lookup && (release ==> key in live)
    ensures Leased(s, key, release).1 == Some(if release then live[key] - 1 else live[key] + 1)
    ensures Holds(Leased(s, key, release).0, if release then live - multiset{key} else live + multiset{key})
  {
    var slot := s.lookup[key];
    PinSumUpdate(s.slots, slot,
                 Some(s.slots[slot].value.(pins := s.slots[slot].value.pins + if release then -1 else 1)));
  }

  lemma {:induction false} PinSumEmpty(n: nat)
    ensures PinSum(seq(n, _ => None)) == 0
  {
    if n > 0 {
      PinSumEmpty(n - 1);
      assert seq<Option<Entry>>(n, _ => None)[..n - 1] == seq<Option<Entry>>(n - 1, _ => None);
    }
  }

  lemma FreshHolds(capacity: nat, policy: Policy)
    requires capacity > 0
    ensures Inv(Fresh(capacity, policy))
    ensures Holds(Fresh(capacity, policy), multiset{})
  {
    SumZero(LAYERS);
    PinSumEmpty(capacity);
  }
}
