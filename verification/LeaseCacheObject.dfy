/** The replay cache as the object it is: arrays, an index and queues updated in place. */
module LeaseCacheObject {
  import opened Common
  import opened Demand
  import opened LeaseCache
  import Second = ClockPolicy
  import Segmented = SlruPolicy

  class Cache {
    const policy: Policy
    const slots: array<Option<Entry>>
    const layerHits: array<nat>
    const layerMisses: array<nat>
    var lookup: map<Key, nat>
    var hand: nat
    var probation: seq<Key>
    var protected: seq<Key>
    var hits: nat
    var misses: nat
    var evictions: nat
    var readyHits: nat
    var joins: nat

    ghost function Value(): State
      reads this, slots, layerHits, layerMisses
    {
      State(policy, slots[..], lookup, hand, probation, protected,
                  hits, misses, evictions, readyHits, joins, layerHits[..], layerMisses[..])
    }

    ghost predicate Valid()
      reads this, slots, layerHits, layerMisses
    {
      layerHits != layerMisses && Inv(Value())
    }

    constructor (capacity: nat, policy: Policy)
      requires 1 <= capacity <= 4096
      ensures Valid() && Value() == Fresh(capacity, policy)
      ensures fresh(slots) && fresh(layerHits) && fresh(layerMisses)
    {
      this.policy := policy;
      slots := new Option<Entry>[capacity](_ => None);
      layerHits := new nat[LAYERS](_ => 0);
      layerMisses := new nat[LAYERS](_ => 0);
      lookup, hand, probation, protected := map[], 0, [], [];
      hits, misses, evictions, readyHits, joins := 0, 0, 0, 0, 0;
      new;
      FreshHolds(capacity, policy);
      assert slots[..] == Fresh(capacity, policy).slots;
      assert layerHits[..] == Fresh(capacity, policy).layerHits;
      assert layerMisses[..] == Fresh(capacity, policy).layerMisses;
    }

    method DemoteOverflow()
      modifies this`probation, this`protected
      ensures (probation, protected) == Demote(old(probation), old(protected), 3 * slots.Length / 4)
    {
      while |protected| > 3 * slots.Length / 4
        invariant Demote(probation, protected, 3 * slots.Length / 4)
               == Demote(old(probation), old(protected), 3 * slots.Length / 4)
        decreases |protected|
      {
        var demoted := protected[0];
        protected := protected[1..];
        probation := probation + [demoted];
      }
    }

    method Touch(key: Key)
      modifies this`probation, this`protected
      ensures (probation, protected)
           == if policy == Slru then
                Demote(Segmented.Without(old(probation), key), Segmented.Without(old(protected), key) + [key],
                       3 * slots.Length / 4)
              else (old(probation), old(protected))
    {
      if policy == Slru {
        probation := Segmented.Without(probation, key);
        protected := Segmented.Without(protected, key) + [key];
        DemoteOverflow();
      }
    }

    method CountHit(layer: nat, kind: Option<nat>)
      requires layer < layerHits.Length
      modifies this`hits, this`readyHits, this`joins, layerHits
      ensures hits == old(hits) + 1
      ensures layerHits[..] == old(layerHits[..])[layer := old(layerHits[layer]) + 1]
      ensures readyHits == old(readyHits) + if kind == Some(1) then 1 else 0
      ensures joins == old(joins) + if kind == Some(2) then 1 else 0
    {
      hits := hits + 1;
      layerHits[layer] := layerHits[layer] + 1;
      if kind == Some(1) {
        readyHits := readyHits + 1;
      } else if kind == Some(2) {
        joins := joins + 1;
      }
    }

    method RecordHit(key: Key, kind: Option<nat>)
      requires ValidKey(key) && key in lookup && lookup[key] < slots.Length && slots[lookup[key]].Some?
      requires layerHits.Length == LAYERS && layerHits != layerMisses
      modifies this, slots, layerHits
      ensures Value() == Hit(old(Value()), key, kind)
    {
      ghost var was := Value();
      var slot := lookup[key];
      slots[slot] := Some(slots[slot].value.(referenced := true));
      assert slots[..] == was.slots[slot := Some(was.slots[slot].value.(referenced := true))];
      CountHit(key / EXPERTS, kind);
      Touch(key);
    }

    method FindUnpinned(queue: seq<Key>) returns (selected: Option<nat>)
      requires forall i :: 0 <= i < |queue| ==> queue[i] in lookup && lookup[queue[i]] < slots.Length
      ensures selected == FirstUnpinned(slots[..], lookup, queue)
    {
      var i := 0;
      while i < |queue|
        invariant i <= |queue|
        invariant FirstUnpinned(slots[..], lookup, queue) == FirstUnpinned(slots[..], lookup, queue[i..])
      {
        if !Pinned(slots[lookup[queue[i]]]) {
          return Some(lookup[queue[i]]);
        }
        i := i + 1;
      }
      return None;
    }

    method SweepSlots() returns (selected: Option<nat>)
      requires hand < slots.Length
      modifies this`hand, slots
      ensures hand < slots.Length
      ensures Swept(slots[..], hand, selected)
           == Sweep(policy, old(slots[..]), old(hand), 2 * slots.Length + 1)
    {
      var steps: nat := 2 * slots.Length + 1;
      while steps > 0
        invariant hand < slots.Length
        invariant Sweep(policy, slots[..], hand, steps)
               == Sweep(policy, old(slots[..]), old(hand), 2 * slots.Length + 1)
      {
        ghost var before, at := slots[..], hand;
        var slot := hand;
        Second.NextHandIsMod(hand, slots.Length);
        hand := (hand + 1) % slots.Length;
        steps := steps - 1;
        if slots[slot].Some? {
          if policy == Slru || slots[slot].value.pins != 0 {
            continue;
          }
          if slots[slot].value.referenced {
            slots[slot] := Some(slots[slot].value.(referenced := false));
            assert slots[..] == before[at := Some(before[at].value.(referenced := false))];
            continue;
          }
        }
        return Some(slot);
      }
      return None;
    }

    method Choose() returns (selected: Option<nat>)
      requires Valid()
      modifies this`hand, slots
      ensures Swept(slots[..], hand, selected) == Select(old(Value()))
    {
      if policy == Slru && |lookup| == slots.Length {
        QueuedKeysIndexed(Value(), probation);
        QueuedKeysIndexed(Value(), protected);
        selected := FindUnpinned(probation);
        if selected.None? {
          selected := FindUnpinned(protected);
        }
      } else {
        selected := SweepSlots();
      }
    }

    method Drop(victim: Key)
      modifies this`lookup, this`probation, this`protected, this`evictions
      ensures lookup == old(lookup) - {victim} && evictions == old(evictions) + 1
      ensures probation == Segmented.Without(old(probation), victim)
      ensures protected == Segmented.Without(old(protected), victim)
    {
      lookup := lookup - {victim};
      probation := Segmented.Without(probation, victim);
      protected := Segmented.Without(protected, victim);
      evictions := evictions + 1;
    }

    method CountMiss(layer: nat)
      requires layer < layerMisses.Length
      modifies this`misses, layerMisses
      ensures misses == old(misses) + 1
      ensures layerMisses[..] == old(layerMisses[..])[layer := old(layerMisses[layer]) + 1]
    {
      misses := misses + 1;
      layerMisses[layer] := layerMisses[layer] + 1;
    }

    method Fill(slot: nat, key: Key, ghost was: State)
      requires ValidKey(key) && slot < slots.Length == |was.slots|
      requires layerHits != layerMisses && layerMisses.Length == LAYERS == |was.layerMisses|
      requires Value() == was.(slots := slots[..], hand := hand)
      requires slots[slot].Some? == was.slots[slot].Some?
      requires slots[slot].Some? ==> slots[slot].value.key == was.slots[slot].value.key
      modifies this, slots, layerMisses
      ensures Value() == Admit(was, old(slots[..]), old(hand), slot, key)
    {
      ghost var spent := slots[..];
      if slots[slot].Some? {
        Drop(slots[slot].value.key);
      }
      slots[slot] := Some(Entry(key, true, 0));
      assert slots[..] == spent[slot := Some(Entry(key, true, 0))];
      lookup := lookup[key := slot];
      if policy == Slru {
        probation := probation + [key];
      }
      assert layerMisses[..] == was.layerMisses;
      CountMiss(key / EXPERTS);
    }

    method Acquire(key: Key, kind: Option<nat>) returns (outcome: Option<Outcome>)
      requires Valid()
      modifies this, slots, layerHits, layerMisses
      ensures Valid()
      ensures (Value(), outcome) == Acquired(old(Value()), key, kind)
    {
      ghost var was := Value();
      AcquireKeepsInv(was, key, kind);
      SelectIsFair(was);
      if !ValidKey(key) {
        return None;
      }
      if key in lookup {
        var slot := lookup[key];
        assert |was.layerHits| == LAYERS && layerHits[..] == was.layerHits;
        RecordHit(key, kind);
        return Some(Outcome(true, slot, -1));
      }
      var selected := Choose();
      if selected.None? {
        return None;
      }
      var slot := selected.value;
      var victim := if slots[slot].Some? then slots[slot].value.key else -1;
      assert |was.layerMisses| == LAYERS && layerMisses[..] == was.layerMisses;
      Fill(slot, key, was);
      return Some(Outcome(false, slot, victim));
    }

    /** The entry's new lease count, or nothing when the call raises. */
    method Lease(key: Key, release: bool) returns (pins: Option<nat>)
      requires Valid()
      modifies slots
      ensures (Value(), pins) == Leased(old(Value()), key, release)
      ensures pins.Some? ==> Valid()
    {
      if key !in lookup {
        return None;
      }
      ghost var was := Value();
      var slot := lookup[key];
      var count := slots[slot].value.pins + if release then -1 else 1;
      slots[slot] := Some(slots[slot].value.(pins := count));
      assert Value() == Leased(was, key, release).0;
      if count < 0 {
        return None;
      }
      LeaseKeepsInv(was, key, release);
      return Some(count);
    }

    method Pins() returns (sum: int)
      ensures sum == PinSum(slots[..])
    {
      sum := 0;
      for i := 0 to slots.Length
        invariant sum == PinSum(slots[..i])
      {
        assert slots[..i + 1][..i] == slots[..i];
        if slots[i].Some? {
          sum := sum + slots[i].value.pins;
        }
      }
      assert slots[..slots.Length] == slots[..];
    }
  }
}
