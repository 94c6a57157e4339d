/** Which slot an acquisition takes while leases are live, and what it changes besides. */
module LeaseChoice {
  import opened Common
  import opened Demand
  import opened LeaseCache
  import R = Replay
  import Second = ClockPolicy
  import Segmented = SlruPolicy

  // ---------- the choices, without a loop ----------

  /** Nothing stands in the way of this slot: it is empty, or unleased and owed no second chance. */
  ghost predicate Ready(e: Option<Entry>) {
    e.None? || (e.value.pins == 0 && !e.value.referenced)
  }

  ghost predicate SomeReady(slots: seq<Option<Entry>>) {
    exists i :: 0 <= i < |slots| && Ready(slots[i])
  }

  ghost predicate Closer(slots: seq<Option<Entry>>, hand: nat, i: nat, slot: nat)
    requires hand < |slots| && i < |slots| && slot < |slots|
  {
    Distance(hand, i, |slots|) < Distance(hand, slot, |slots|)
  }

  ghost predicate NearestReady(slots: seq<Option<Entry>>, hand: nat, slot: nat)
    requires hand < |slots| && slot < |slots|
  {
    Ready(slots[slot]) && forall i :: 0 <= i < |slots| && Closer(slots, hand, i, slot) ==> !Ready(slots[i])
  }

  ghost predicate NearestUnleased(slots: seq<Option<Entry>>, hand: nat, slot: nat)
    requires hand < |slots| && slot < |slots|
  {
    !Pinned(slots[slot]) && forall i :: 0 <= i < |slots| && Closer(slots, hand, i, slot) ==> Pinned(slots[i])
  }

  ghost predicate NearestEmpty(slots: seq<Option<Entry>>, hand: nat, slot: nat)
    requires hand < |slots| && slot < |slots|
  {
    slots[slot].None? && forall i :: 0 <= i < |slots| && Closer(slots, hand, i, slot) ==> slots[i].Some?
  }

  /** CLOCK: from the hand, the first ready slot; when every unleased entry is owed a chance, the first of those. */
  ghost predicate ClockPicks(slots: seq<Option<Entry>>, hand: nat, slot: nat)
    requires hand < |slots| && slot < |slots|
  {
    if SomeReady(slots) then NearestReady(slots, hand, slot) else NearestUnleased(slots, hand, slot)
  }

  /** The unleased entries passed on the way spend their second chance: all of them when none was ready. */
  ghost predicate ClockSpends(slots: seq<Option<Entry>>, hand: nat, slot: nat, spent: seq<Option<Entry>>)
    requires hand < |slots| && slot < |slots|
  {
    && |spent| == |slots|
    && forall i :: 0 <= i < |slots| ==>
         spent[i] ==
           if slots[i].Some? && slots[i].value.pins == 0 && (Closer(slots, hand, i, slot) || !SomeReady(slots))
           then Some(slots[i].value.(referenced := false)) else slots[i]
  }

  lemma DistanceNext(slots: seq<Option<Entry>>, hand: nat, i: nat)
    requires hand < |slots| && i < |slots|
    ensures Second.NextHand(hand, |slots|) < |slots|
    ensures Distance(Second.NextHand(hand, |slots|), i, |slots|)
         == if i == hand then |slots| - 1 else Distance(hand, i, |slots|) - 1
    ensures (Distance(hand, i, |slots|) == 0 <==> i == hand) && Distance(hand, i, |slots|) < |slots|
  {
  }

  lemma CloserNext(slots: seq<Option<Entry>>, hand: nat)
    requires hand < |slots|
    ensures var next := Second.NextHand(hand, |slots|);
      && next < |slots|
      && (forall i, j :: 0 <= i < |slots| && 0 <= j < |slots| && i != hand && j != hand ==>
            Closer(slots, next, i, j) == Closer(slots, hand, i, j))
      && (forall j :: 0 <= j < |slots| ==> !Closer(slots, hand, j, hand) && Closer(slots, hand, hand, j) == (j != hand))
      && (forall j :: 0 <= j < |slots| ==> !Closer(slots, next, hand, j) && Closer(slots, next, j, hand) == (j != hand))
  {
    forall i | 0 <= i < |slots|
      ensures Distance(Second.NextHand(hand, |slots|), i, |slots|)
           == if i == hand then |slots| - 1 else Distance(hand, i, |slots|) - 1
      ensures (Distance(hand, i, |slots|) == 0 <==> i == hand) && Distance(hand, i, |slots|) < |slots|
    {
      DistanceNext(slots, hand, i);
    }
  }

  /** A leased entry under the hand is passed over. */
  lemma PassLeased(slots: seq<Option<Entry>>, hand: nat, slot: nat, spent: seq<Option<Entry>>)
    requires hand < |slots| && slot < |slots| && Pinned(slots[hand])
    requires var next := Second.NextHand(hand, |slots|);
      next < |slots| && ClockPicks(slots, next, slot) && ClockSpends(slots, next, slot, spent)
    ensures ClockPicks(slots, hand, slot) && ClockSpends(slots, hand, slot, spent)
  {
    CloserNext(slots, hand);
    hide Closer;
    assert slot != hand;
  }

  /** The ring once the entry under the hand has spent its chance. */
  ghost function Unmarked(slots: seq<Option<Entry>>, hand: nat): seq<Option<Entry>>
    requires hand < |slots| && slots[hand].Some?
  {
    slots[hand := Some(slots[hand].value.(referenced := false))]
  }

  /** A marked entry under the hand spends its chance, and is the last in line from then on. */
  lemma PassMarked(slots: seq<Option<Entry>>, hand: nat, slot: nat, spent: seq<Option<Entry>>)
    requires hand < |slots| && slot < |slots| && slots[hand].Some?
    requires slots[hand].value.pins == 0 && slots[hand].value.referenced
    requires var next := Second.NextHand(hand, |slots|);
      next < |slots| && ClockPicks(Unmarked(slots, hand), next, slot)
      && ClockSpends(Unmarked(slots, hand), next, slot, spent)
    ensures ClockPicks(slots, hand, slot) && ClockSpends(slots, hand, slot, spent)
  {
    MarkedIsLast(slots, hand, slot);
    CloserNext(slots, hand);
    CloserSame(slots, Unmarked(slots, hand));
    assert Ready(Unmarked(slots, hand)[hand]);
    assert SomeReady(Unmarked(slots, hand));
    hide Closer, Ready, SomeReady;
  }

  /** So it is taken exactly when nothing was ready. */
  lemma MarkedIsLast(slots: seq<Option<Entry>>, hand: nat, slot: nat)
    requires hand < |slots| && slot < |slots| && slots[hand].Some?
    requires slots[hand].value.pins == 0 && slots[hand].value.referenced
    requires var next := Second.NextHand(hand, |slots|);
      next < |slots| && ClockPicks(Unmarked(slots, hand), next, slot)
    ensures SomeReady(slots) <==> slot != hand
    ensures ClockPicks(slots, hand, slot)
  {
    var marked, next := Unmarked(slots, hand), Second.NextHand(hand, |slots|);
    CloserNext(slots, hand);
    CloserSame(slots, marked);
    hide Closer;
    assert Ready(marked[hand]);
    assert SomeReady(marked);
    if SomeReady(slots) {
      var j :| 0 <= j < |slots| && Ready(slots[j]);
      assert Ready(marked[j]);
      assert Closer(marked, next, j, hand);
      forall i | 0 <= i < |slots| && Closer(slots, hand, i, slot)
        ensures !Ready(slots[i])
      {
        assert i != hand ==> Closer(marked, next, i, slot) && marked[i] == slots[i];
      }
    }
  }

  lemma CloserSame(a: seq<Option<Entry>>, b: seq<Option<Entry>>)
    requires |a| == |b|
    ensures forall hand: nat, i: nat, j: nat {:trigger Closer(b, hand, i, j)} ::
              hand < |a| && i < |a| && j < |a| ==> Closer(a, hand, i, j) == Closer(b, hand, i, j)
  {
  }

  lemma StopsHere(slots: seq<Option<Entry>>, hand: nat)
    requires hand < |slots| && Ready(slots[hand])
    ensures ClockPicks(slots, hand, hand) && ClockSpends(slots, hand, hand, slots)
  {
    CloserNext(slots, hand);
    hide Closer;
    assert SomeReady(slots);
  }

  /** However many steps it may take, a sweep that selects makes that choice. */
  lemma {:induction false} SweepPicks(slots: seq<Option<Entry>>, hand: nat, steps: nat)
    requires hand < |slots| && Sweep(Clock, slots, hand, steps).selected.Some?
    ensures var r := Sweep(Clock, slots, hand, steps);
      && ClockPicks(slots, hand, r.selected.value) && ClockSpends(slots, hand, r.selected.value, r.slots)
      && r.hand == Second.NextHand(r.selected.value, |slots|)
    decreases steps
  {
    hide ClockPicks, ClockSpends;
    var next := Second.NextHand(hand, |slots|);
    var r := Sweep(Clock, slots, hand, steps);
    if slots[hand].None? || (slots[hand].value.pins == 0 && !slots[hand].value.referenced) {
      StopsHere(slots, hand);
    } else if slots[hand].value.pins != 0 {
      SweepPicks(slots, next, steps - 1);
      PassLeased(slots, hand, r.selected.value, r.slots);
    } else {
      SweepPicks(Unmarked(slots, hand), next, steps - 1);
      PassMarked(slots, hand, r.selected.value, r.slots);
    }
  }

  lemma SameDistance(hand: nat, i: nat, j: nat, capacity: nat)
    requires hand < capacity && i < capacity && j < capacity
    ensures Distance(hand, i, capacity) == Distance(hand, j, capacity) <==> i == j
  {
  }

  lemma NotCloser(slots: seq<Option<Entry>>, hand: nat, a: nat, b: nat)
    requires hand < |slots| && a < |slots| && b < |slots|
    requires ClockPicks(slots, hand, a) && ClockPicks(slots, hand, b)
    ensures !Closer(slots, hand, a, b)
  {
  }

  /** The rule names one slot. */
  lemma PicksIsUnique(slots: seq<Option<Entry>>, hand: nat, a: nat, b: nat)
    requires hand < |slots| && a < |slots| && b < |slots|
    requires ClockPicks(slots, hand, a) && ClockPicks(slots, hand, b)
    ensures a == b && !Pinned(slots[a])
  {
    NotCloser(slots, hand, a, b);
    NotCloser(slots, hand, b, a);
    SameDistance(hand, a, b, |slots|);
  }

  /** While filling, SLRU takes the first empty slot from the hand and touches no bit. */
  lemma {:induction false} SweepFillsNearest(slots: seq<Option<Entry>>, hand: nat, steps: nat)
    requires hand < |slots| && Sweep(Slru, slots, hand, steps).selected.Some?
    ensures var r := Sweep(Slru, slots, hand, steps);
      && NearestEmpty(slots, hand, r.selected.value) && r.slots == slots
      && r.hand == Second.NextHand(r.selected.value, |slots|)
    decreases steps
  {
    CloserNext(slots, hand);
    hide Closer;
    if slots[hand].Some? {
      SweepFillsNearest(slots, Second.NextHand(hand, |slots|), steps - 1);
    }
  }

  // ---------- the segmented queues ----------

  /** The order in which SLRU gives up its records: probation, then protected, oldest first. */
  ghost function Line(s: State): seq<Key> {
    s.probation + s.protected
  }

  /** Place `i` in line is the first without a lease. */
  ghost predicate FirstInLine(s: State, i: nat) {
    && i < |Line(s)|
    && (forall j :: 0 <= j <= i ==> Line(s)[j] in s.lookup && s.lookup[Line(s)[j]] < |s.slots|)
    && !Pinned(s.slots[s.lookup[Line(s)[i]]])
    && forall j :: 0 <= j < i ==> Pinned(s.slots[s.lookup[Line(s)[j]]])
  }

  lemma {:induction false} FirstUnpinnedIsFirst(slots: seq<Option<Entry>>, lookup: map<Key, nat>, queue: seq<Key>)
    returns (i: nat)
    requires forall i :: 0 <= i < |queue| ==> queue[i] in lookup && lookup[queue[i]] < |slots|
    requires FirstUnpinned(slots, lookup, queue).Some?
    ensures i < |queue| && lookup[queue[i]] == FirstUnpinned(slots, lookup, queue).value
    ensures !Pinned(slots[lookup[queue[i]]])
    ensures forall j :: 0 <= j < i ==> Pinned(slots[lookup[queue[j]]])
  {
    if !Pinned(slots[lookup[queue[0]]]) {
      i := 0;
    } else {
      var later := FirstUnpinnedIsFirst(slots, lookup, queue[1..]);
      i := later + 1;
      forall j | 0 <= j < i
        ensures Pinned(slots[lookup[queue[j]]])
      {
        assert j > 0 ==> queue[j] == queue[1..][j - 1];
      }
    }
  }

  lemma FirstOfEither(slots: seq<Option<Entry>>, lookup: map<Key, nat>, front: seq<Key>, back: seq<Key>)
    returns (i: nat)
    requires forall i :: 0 <= i < |front| ==> front[i] in lookup && lookup[front[i]] < |slots|
    requires forall i :: 0 <= i < |back| ==> back[i] in lookup && lookup[back[i]] < |slots|
    requires FirstUnpinned(slots, lookup, front).Some? || FirstUnpinned(slots, lookup, back).Some?
    ensures var line := front + back;
      var first := FirstUnpinned(slots, lookup, front);
      && i < |line| && Some(lookup[line[i]]) == (if first.Some? then first else FirstUnpinned(slots, lookup, back))
      && !Pinned(slots[lookup[line[i]]]) && forall j :: 0 <= j < i ==> Pinned(slots[lookup[line[j]]])
  {
    var first := FirstUnpinned(slots, lookup, front);
    if first.Some? {
      i := FirstUnpinnedIsFirst(slots, lookup, front);
    } else {
      var later := FirstUnpinnedIsFirst(slots, lookup, back);
      i := |front| + later;
    }
    hide FirstUnpinned, Pinned;
  }

  /** A full SLRU cache gives up the first record in line without a lease. */
  lemma FullPicksFirstInLine(s: State) returns (i: nat)
    requires Inv(s) && s.policy == Slru && |s.lookup| == |s.slots| && Select(s).selected.Some?
    ensures FirstInLine(s, i) && Select(s) == Swept(s.slots, s.hand, Some(s.lookup[Line(s)[i]]))
  {
    LineIsIndexed(s);
    hide Inv;
    i := FirstOfEither(s.slots, s.lookup, s.probation, s.protected);
    hide FirstUnpinned, Pinned;
  }

  lemma LineIsIndexed(s: State)
    requires Inv(s) && s.policy == Slru
    ensures forall j :: 0 <= j < |s.probation| ==> s.probation[j] in s.lookup && s.lookup[s.probation[j]] < |s.slots|
    ensures forall j :: 0 <= j < |s.protected| ==> s.protected[j] in s.lookup && s.lookup[s.protected[j]] < |s.slots|
    ensures forall j :: 0 <= j < |Line(s)| ==> Line(s)[j] in s.lookup && s.lookup[Line(s)[j]] < |s.slots|
  {
    QueuedKeysIndexed(s, s.probation);
    QueuedKeysIndexed(s, s.protected);
    hide Inv;
  }

  // ---------- a whole acquisition ----------

  /** The slot taken on a miss. */
  ghost predicate Picks(s: State, slot: nat)
    requires s.hand < |s.slots| && slot < |s.slots|
  {
    if s.policy == Clock then ClockPicks(s.slots, s.hand, slot)
    else if |s.lookup| < |s.slots| then NearestEmpty(s.slots, s.hand, slot)
    else exists i: nat :: FirstInLine(s, i) && s.lookup[Line(s)[i]] == slot
  }

  /** What a miss leaves: the record admitted marked and unleased, its victim gone, the rest as the choice left it. */
  ghost predicate Replaces(s: State, key: Key, slot: nat, s': State)
    requires s.hand < |s.slots| && slot < |s.slots|
  {
    var victim := if s.slots[slot].Some? then Some(s.slots[slot].value.key) else None;
    && |s'.slots| == |s.slots| && s'.policy == s.policy
    && s'.slots[slot] == Some(Entry(key, true, 0))
    && (s.policy == Clock ==>
          exists spent :: ClockSpends(s.slots, s.hand, slot, spent) && s'.slots == spent[slot := s'.slots[slot]])
    && (s.policy == Slru ==> s'.slots == s.slots[slot := s'.slots[slot]])
    && s'.hand == (if s.policy == Slru && |s.lookup| == |s.slots| then s.hand else Second.NextHand(slot, |s.slots|))
    && s'.lookup == (map k | k in s.lookup && Some(k) != victim :: s.lookup[k])[key := slot]
    && s'.evictions == s.evictions + (if victim.Some? then 1 else 0)
    && (s.policy == Slru ==>
          && s'.probation == (if victim.Some? then Segmented.Without(s.probation, victim.value) else s.probation)
                             + [key]
          && s'.protected == if victim.Some? then Segmented.Without(s.protected, victim.value) else s.protected)
  }

  lemma SelectPicks(s: State)
    requires Inv(s) && Select(s).selected.Some?
    ensures Select(s).selected.value < |s.slots| == |Select(s).slots|
    ensures var r := Select(s);
      && Picks(s, r.selected.value)
      && (s.policy == Clock ==> ClockSpends(s.slots, s.hand, r.selected.value, r.slots))
      && (s.policy == Slru ==> r.slots == s.slots)
      && r.hand == if s.policy == Slru && |s.lookup| == |s.slots| then s.hand
                   else Second.NextHand(r.selected.value, |s.slots|)
  {
    SelectIsFair(s);
    Occupancy(s.slots, s.lookup);
    if s.policy == Clock {
      SweepPicks(s.slots, s.hand, 2 * |s.slots| + 1);
    } else if |s.lookup| == |s.slots| {
      var i := FullPicksFirstInLine(s);
    } else {
      SweepFillsNearest(s.slots, s.hand, 2 * |s.slots| + 1);
    }
    hide Inv, ClockPicks, ClockSpends, NearestEmpty, FirstInLine, Sweep;
  }

  lemma InvSizes(s: State)
    requires Inv(s)
    ensures s.hand < |s.slots| && |s.layerMisses| == LAYERS
  {
  }

  lemma ReindexIs(lookup: map<Key, nat>, gone: Option<Entry>, key: Key, slot: nat)
    ensures var victim := if gone.Some? then Some(gone.value.key) else None;
      Reindex(lookup, gone, key, slot) == (map k | k in lookup && Some(k) != victim :: lookup[k])[key := slot]
  {
  }

  lemma AdmitReplaces(s: State, r: Swept, key: Key)
    requires Inv(s) && ValidKey(key) && key !in s.lookup && r.selected.Some?
    requires r.selected.value < |s.slots| == |r.slots|
    requires s.policy == Clock ==> ClockSpends(s.slots, s.hand, r.selected.value, r.slots)
    requires s.policy == Slru ==> r.slots == s.slots
    requires r.hand == if s.policy == Slru && |s.lookup| == |s.slots| then s.hand
                       else Second.NextHand(r.selected.value, |s.slots|)
    ensures Replaces(s, key, r.selected.value, Admit(s, r.slots, r.hand, r.selected.value, key))
  {
    var slot := r.selected.value;
    InvSizes(s);
    ReindexIs(s.lookup, s.slots[slot], key, slot);
    hide Inv, ClockSpends, Reindex;
  }

  /**
   * A miss takes exactly the slot the policy's rule names among the unleased, evicts what was there, and changes
   * nothing else but the second chances spent on the way. Leased entries are those of the ledger.
   */
  lemma MissTakes(s: State, key: Key, kind: Option<nat>, live: multiset<Key>)
    requires Inv(s) && Holds(s, live) && key !in s.lookup && Acquired(s, key, kind).1.Some?
    ensures var (s', outcome) := Acquired(s, key, kind);
      var slot := outcome.value.slot;
      && !outcome.value.hit && slot < |s.slots| && Picks(s, slot) && Replaces(s, key, slot, s')
      && outcome.value.victim == (if s.slots[slot].Some? then s.slots[slot].value.key else -1)
      && (s.slots[slot].Some? ==> outcome.value.victim !in live)
    ensures forall i :: 0 <= i < |s.slots| ==>
              (Pinned(s.slots[i]) <==> s.slots[i].Some? && s.slots[i].value.key in live)
    ensures forall k :: k in s.lookup ==> s.lookup[k] < |s.slots| && (Pinned(s.slots[s.lookup[k]]) <==> k in live)
  {
    SelectPicks(s);
    SelectIsFair(s);
    AdmitReplaces(s, Select(s), key);
    hide Select, Picks, Replaces, Admit, Queued, Counters;
  }

  lemma FullIsOccupied(s: State)
    requires Inv(s) && |s.lookup| == |s.slots|
    ensures forall i :: 0 <= i < |s.slots| ==> s.slots[i].Some?
    ensures forall k :: k in s.lookup ==> s.lookup[k] < |s.slots| && s.slots[s.lookup[k]].Some?
                                          && s.slots[s.lookup[k]].value.key == k
  {
    Occupancy(s.slots, s.lookup);
    hide Queued, Counters;
  }

  lemma LineOfPick(s: State, slot: nat, live: multiset<Key>) returns (i: nat)
    requires s.hand < |s.slots| && slot < |s.slots| && s.policy == Slru && |s.lookup| == |s.slots| && Picks(s, slot)
    requires forall k :: k in s.lookup ==> s.lookup[k] < |s.slots| && s.slots[s.lookup[k]].Some?
                                           && s.slots[s.lookup[k]].value.key == k
    requires forall k :: k in s.lookup ==> (Pinned(s.slots[s.lookup[k]]) <==> k in live)
    ensures i < |Line(s)| && s.slots[slot].Some? && Line(s)[i] == s.slots[slot].value.key
    ensures Line(s)[i] !in live && forall j :: 0 <= j < i ==> Line(s)[j] in live
  {
    i :| FirstInLine(s, i) && s.lookup[Line(s)[i]] == slot;
    var victim := Line(s)[i];
    assert victim in s.lookup && s.slots[s.lookup[victim]].Some?;
    assert victim !in live;
    forall j | 0 <= j < i
      ensures Line(s)[j] in live
    {
      var older := Line(s)[j];
      assert older in s.lookup && Pinned(s.slots[s.lookup[older]]);
      assert older in live;
    }
  }

  /** With a full SLRU cache, every record ahead of the victim in line is leased. */
  lemma OlderThanVictimAreLeased(s: State, key: Key, kind: Option<nat>, live: multiset<Key>) returns (i: nat)
    requires Inv(s) && Holds(s, live) && s.policy == Slru && |s.lookup| == |s.slots|
    requires key !in s.lookup && Acquired(s, key, kind).1.Some?
    ensures i < |Line(s)| && Line(s)[i] == Acquired(s, key, kind).1.value.victim
    ensures Line(s)[i] !in live && forall j :: 0 <= j < i ==> Line(s)[j] in live
  {
    FullIsOccupied(s);
    hide Inv, Acquired, Replaces, Holds, FirstInLine;
    MissTakes(s, key, kind, live);
    i := LineOfPick(s, Acquired(s, key, kind).1.value.slot, live);
  }

  /** A hit marks its entry and moves nothing but its own key through the queues. */
  lemma HitMarks(s: State, key: Key, kind: Option<nat>)
    requires Inv(s) && key in s.lookup
    ensures var (s', outcome) := Acquired(s, key, kind);
      var slot := s.lookup[key];
      && outcome == Some(Outcome(true, slot, -1)) && slot < |s.slots| && s.slots[slot].Some?
      && s'.slots == s.slots[slot := Some(Entry(key, true, s.slots[slot].value.pins))]
      && s'.lookup == s.lookup && s'.hand == s.hand && s'.evictions == s.evictions && s'.policy == s.policy
      && (s.policy == Slru ==>
            Segmented.Inv(QueuesOf(s), |s.slots|) && QueuesOf(s') == Segmented.Step(QueuesOf(s), |s.slots|, key))
  {
    assert ValidKey(key);
    if s.policy == Slru {
      HitMovesQueues(s, key, kind);
    }
  }

  // ---------- over whole streams ----------

  /** Whatever leases are live, each acquisition of a replay that misses makes the choice the rule names. */
  lemma ReplayTakes(requests: seq<R.Request>, n: nat, capacity: nat, policy: Policy, forwards: nat)
    requires n < |requests| && requests[n].kind == R.Acquire && capacity > 0
    requires R.Fold(requests, n + 1, capacity, policy, forwards).Ok?
    requires R.Fold(requests, n, capacity, policy, forwards).Ok? ==>
      requests[n].key !in R.Fold(requests, n, capacity, policy, forwards).value.cache.lookup
    ensures R.Fold(requests, n, capacity, policy, forwards).Ok?
    ensures var s := R.Fold(requests, n, capacity, policy, forwards).value.cache;
      var s' := R.Fold(requests, n + 1, capacity, policy, forwards).value.cache;
      && Inv(s) && Holds(s, R.Live(requests, n)) && requests[n].key in s'.lookup
      && s'.lookup[requests[n].key] < |s.slots| == |s'.slots| == capacity
      && Picks(s, s'.lookup[requests[n].key]) && Replaces(s, requests[n].key, s'.lookup[requests[n].key], s')
      && !Pinned(s.slots[s'.lookup[requests[n].key]])
  {
    hide Inv, Holds, R.Live, R.Fold, R.Step;
    R.FoldOkBefore(requests, n, n + 1, capacity, policy, forwards);
    R.FoldLast(requests, n + 1, capacity, policy, forwards);
    R.FoldKeepsLeases(requests, n, capacity, policy, forwards);
    R.FoldKeepsLeases(requests, n + 1, capacity, policy, forwards);
    var p := R.Fold(requests, n, capacity, policy, forwards).value;
    R.StepAcquires(p, requests[n]);
    MissTakes(p.cache, requests[n].key, None, R.Live(requests, n));
    hide Acquired, Picks;
    MissedKeyIsThere(p.cache, requests[n].key, Acquired(p.cache, requests[n].key, None).1.value.slot,
                     Acquired(p.cache, requests[n].key, None).0);
    SelectIsFair(p.cache);
  }

  lemma MissedKeyIsThere(s: State, key: Key, slot: nat, s': State)
    requires s.hand < |s.slots| && slot < |s.slots| && Replaces(s, key, slot, s')
    ensures key in s'.lookup && s'.lookup[key] == slot
  {
  }
}
