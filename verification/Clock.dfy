/** Second chance over a fixed ring of slots, and the queue it stands for. */
module ClockPolicy {
  import opened Common
  import opened Demand

  datatype Ring = Ring(slots: seq<Option<Key>>, referenced: seq<bool>, lookup: map<Key, nat>, hand: nat)

  function NextHand(hand: nat, capacity: nat): nat {
    if hand + 1 == capacity then 0 else hand + 1
  }

  lemma NextHandIsMod(hand: nat, capacity: nat)
    requires hand < capacity
    ensures (hand + 1) % capacity == NextHand(hand, capacity)
  {
  }

  ghost function Marked(referenced: seq<bool>): set<nat> {
    set i | 0 <= i < |referenced| && referenced[i]
  }

  lemma ClearUnmarks(referenced: seq<bool>, i: nat)
    requires i < |referenced| && referenced[i]
    ensures |Marked(referenced[i := false])| < |Marked(referenced)|
  {
    assert Marked(referenced[i := false]) == Marked(referenced) - {i};
  }

  /** Clear reference bits from the hand on until one is found clear. */
  function Sweep(referenced: seq<bool>, hand: nat): (r: (seq<bool>, nat))
    requires hand < |referenced|
    ensures |r.0| == |referenced| && r.1 < |r.0| && !r.0[r.1]
    decreases |Marked(referenced)|
  {
    if referenced[hand] then
      ClearUnmarks(referenced, hand);
      Sweep(referenced[hand := false], NextHand(hand, |referenced|))
    else (referenced, hand)
  }

  /** Slots and index agree; until the ring is full the hand is at the first empty slot. */
  ghost predicate Inv(s: Ring) {
    && |s.slots| == |s.referenced|
    && |s.lookup.Keys| <= |s.slots|
    && (|s.slots| > 0 ==> s.hand < |s.slots|)
    && (|s.lookup.Keys| < |s.slots| ==> s.hand == |s.lookup.Keys|)
    && (forall i :: 0 <= i < |s.slots| ==> (s.slots[i].Some? <==> i < |s.lookup.Keys|))
    && (forall i :: 0 <= i < |s.slots| && s.slots[i].None? ==> !s.referenced[i])
    && (forall i :: 0 <= i < |s.slots| && s.slots[i].Some? ==>
          s.slots[i].value in s.lookup && s.lookup[s.slots[i].value] == i)
    && (forall k :: k in s.lookup ==> s.lookup[k] < |s.slots| && s.slots[s.lookup[k]] == Some(k))
  }

  function Empty(capacity: nat): Ring {
    Ring(seq(capacity, _ => None), seq(capacity, _ => false), map[], 0)
  }

  function Step(s: Ring, key: Key): (s': Ring)
    requires Inv(s)
    ensures |s'.slots| == |s.slots|
  {
    if key in s.lookup then s.(referenced := s.referenced[s.lookup[key] := true])
    else if s.slots == [] then s
    else
      var (referenced, slot) := Sweep(s.referenced, s.hand);
      var lookup := if s.slots[slot].Some? then s.lookup - {s.slots[slot].value} else s.lookup;
      Ring(s.slots[slot := Some(key)], referenced[slot := true], lookup[key := slot], NextHand(slot, |s.slots|))
  }

  lemma {:induction false} SweepOnlyClears(referenced: seq<bool>, hand: nat)
    requires hand < |referenced|
    ensures forall i :: 0 <= i < |referenced| && !referenced[i] ==> !Sweep(referenced, hand).0[i]
    decreases |Marked(referenced)|
  {
    if referenced[hand] {
      ClearUnmarks(referenced, hand);
      SweepOnlyClears(referenced[hand := false], NextHand(hand, |referenced|));
    }
  }

  /** The residents change lazily: all kept on a hit, one evicted only when the ring is full. */
  lemma AccessKeepsInv(s: Ring, key: Key)
    requires Inv(s)
    ensures Inv(Step(s, key))
    ensures LazyStep(s.lookup.Keys, key, Step(s, key).lookup.Keys, |s.slots|)
  {
    var s' := Step(s, key);
    if key in s.lookup {
      assert s'.lookup.Keys == s.lookup.Keys;
    } else if s.slots != [] {
      SweepOnlyClears(s.referenced, s.hand);
      var slot := Sweep(s.referenced, s.hand).1;
      if |s.lookup.Keys| < |s.slots| {
        assert slot == s.hand;
        assert s'.lookup.Keys == s.lookup.Keys + {key};
      } else {
        var victim := s.slots[slot].value;
        assert s'.lookup.Keys == s.lookup.Keys - {victim} + {key};
        assert |s'.lookup.Keys| == |s.slots|;
      }
    } else {
      assert s.lookup.Keys == {};
    }
  }

  function After(keys: seq<Key>, capacity: nat, n: nat): (s: Ring)
    requires n <= |keys|
    ensures Inv(s) && |s.slots| == capacity
  {
    if n == 0 then Empty(capacity)
    else
      var before := After(keys, capacity, n - 1);
      AccessKeepsInv(before, keys[n - 1]);
      Step(before, keys[n - 1])
  }

  lemma {:induction false} AfterPrefix(keys: seq<Key>, more: seq<Key>, capacity: nat, n: nat)
    requires n <= |keys|
    ensures After(keys + more, capacity, n) == After(keys, capacity, n)
  {
    hide Inv, Step, Sweep;
    if n > 0 {
      AfterPrefix(keys, more, capacity, n - 1);
      assert (keys + more)[n - 1] == keys[n - 1];
    }
  }

  lemma AfterNext(keys: seq<Key>, key: Key, capacity: nat)
    ensures After(keys + [key], capacity, |keys| + 1) == Step(After(keys, capacity, |keys|), key)
  {
    AfterPrefix(keys, [key], capacity, |keys|);
  }

  ghost function Caches(keys: seq<Key>, capacity: nat): Schedule {
    seq(|keys| + 1, i requires 0 <= i <= |keys| => After(keys, capacity, i).lookup.Keys)
  }

  lemma StepIsLazy(keys: seq<Key>, capacity: nat, i: nat)
    requires i < |keys|
    ensures LazyStep(Caches(keys, capacity)[i], keys[i], Caches(keys, capacity)[i + 1], capacity)
  {
    AccessKeepsInv(After(keys, capacity, i), keys[i]);
  }

  lemma CachesAreLazy(keys: seq<Key>, capacity: nat)
    ensures IsLazy(keys, capacity, Caches(keys, capacity))
    ensures IsSchedule(keys, capacity, Caches(keys, capacity))
  {
    var caches := Caches(keys, capacity);
    assert caches[0] == {};
    forall i | 0 <= i < |keys|
      ensures LazyStep(caches[i], keys[i], caches[i + 1], capacity)
    {
      StepIsLazy(keys, capacity, i);
    }
    LazyIsSchedule(keys, capacity, caches);
  }

  // ---------- the second-chance queue ----------

  datatype Chance = Chance(key: Key, referenced: bool)

  function Spent(q: seq<Chance>): (r: seq<Chance>)
    ensures |r| == |q|
    ensures forall i :: 0 <= i < |q| ==> r[i] == Chance(q[i].key, false)
  {
    seq(|q|, i requires 0 <= i < |q| => Chance(q[i].key, false))
  }

  /** How many entries at the front are still owed their second chance. */
  function Owed(q: seq<Chance>): (n: nat)
    ensures n <= |q|
    ensures forall i :: 0 <= i < n ==> q[i].referenced
    ensures n < |q| ==> !q[n].referenced
  {
    if q == [] || !q[0].referenced then 0 else 1 + Owed(q[1..])
  }

  /** Entries owed a second chance spend it and go to the back. */
  function Requeued(q: seq<Chance>): seq<Chance> {
    q[Owed(q)..] + Spent(q[..Owed(q)])
  }

  ghost predicate Queued(q: seq<Chance>, key: Key) {
    exists i :: 0 <= i < |q| && q[i].key == key
  }

  /** The queue's whole rule: mark on a hit, else drop the head that is owed nothing and append. */
  ghost predicate QueueStep(q: seq<Chance>, key: Key, q': seq<Chance>, capacity: nat) {
    if Queued(q, key) then
      exists i :: 0 <= i < |q| && q[i].key == key && q' == q[i := Chance(key, true)]
    else if capacity == 0 then q' == q
    else if |q| < capacity then q' == q + [Chance(key, true)]
    else q' == Requeued(q)[1..] + [Chance(key, true)]
  }

  function Part(s: Ring, lo: nat, hi: nat): seq<Chance>
    requires lo <= hi <= |s.slots| == |s.referenced|
    requires forall i :: lo <= i < hi ==> s.slots[i].Some?
  {
    seq(hi - lo, i requires 0 <= i < hi - lo => Chance(s.slots[lo + i].value, s.referenced[lo + i]))
  }

  /** Oldest first: from the hand round to the hand, or from slot 0 while filling. */
  ghost function QueueOf(s: Ring): seq<Chance>
    requires Inv(s)
  {
    if |s.lookup.Keys| < |s.slots| then Part(s, 0, s.hand)
    else if s.slots == [] then []
    else Part(s, s.hand, |s.slots|) + Part(s, 0, s.hand)
  }

  ghost predicate Full(s: Ring) {
    && |s.slots| == |s.referenced|
    && s.hand < |s.slots|
    && forall i :: 0 <= i < |s.slots| ==> s.slots[i].Some?
  }

  ghost function Rotated(s: Ring): seq<Chance>
    requires Full(s)
  {
    Part(s, s.hand, |s.slots|) + Part(s, 0, s.hand)
  }

  lemma PassOver(s: Ring)
    requires Full(s) && s.referenced[s.hand]
    ensures var s' := s.(referenced := s.referenced[s.hand := false], hand := NextHand(s.hand, |s.slots|));
            Full(s') && Rotated(s') == Rotated(s)[1..] + [Chance(s.slots[s.hand].value, false)]
  {
  }

  lemma RequeueOne(q: seq<Chance>)
    requires q != [] && q[0].referenced
    ensures Requeued(q[1..] + [Chance(q[0].key, false)]) == Requeued(q)
  {
    var c := Chance(q[0].key, false);
    var rest := q[1..];
    OwedPrefix(rest, c);
    var n := Owed(rest);
    SpentFirst(q, n + 1);
    assert Owed(q) == n + 1;
    hide Owed, Spent;
    assert (rest + [c])[n..] == rest[n..] + [c] && (rest + [c])[..n] == rest[..n];
    assert rest[n..] == q[n + 1..];
    assert rest[n..] + [c] + Spent(rest[..n]) == rest[n..] + ([c] + Spent(rest[..n]));
  }

  lemma SpentFirst(q: seq<Chance>, n: nat)
    requires 0 < n <= |q|
    ensures Spent(q[..n]) == [Chance(q[0].key, false)] + Spent(q[1..][..n - 1])
  {
  }

  lemma {:induction false} OwedPrefix(q: seq<Chance>, c: Chance)
    requires !c.referenced
    ensures Owed(q + [c]) == Owed(q)
  {
    if q != [] && q[0].referenced {
      assert (q + [c])[1..] == q[1..] + [c];
      OwedPrefix(q[1..], c);
    }
  }

  lemma {:induction false} SweepRequeues(s: Ring)
    requires Full(s)
    ensures var (referenced, hand) := Sweep(s.referenced, s.hand);
            Rotated(s.(referenced := referenced, hand := hand)) == Requeued(Rotated(s))
    decreases |Marked(s.referenced)|
  {
    var q := Rotated(s);
    if s.referenced[s.hand] {
      ClearUnmarks(s.referenced, s.hand);
      PassOver(s);
      RequeueOne(q);
      SweepRequeues(s.(referenced := s.referenced[s.hand := false], hand := NextHand(s.hand, |s.slots|)));
    } else {
      assert Owed(q) == 0;
      assert q[0..] == q;
      assert Requeued(q) == q;
    }
  }

  /** Where the entry of ring slot `slot` stands in the queue. */
  ghost function Place(s: Ring, slot: nat): nat
    requires Inv(s) && slot < |s.lookup.Keys|
  {
    if |s.lookup.Keys| < |s.slots| then slot
    else if slot >= s.hand then slot - s.hand
    else |s.slots| - s.hand + slot
  }

  lemma QueueAt(s: Ring, slot: nat)
    requires Inv(s) && slot < |s.lookup.Keys|
    ensures Place(s, slot) < |QueueOf(s)| == |s.lookup.Keys|
    ensures s.slots[slot].Some?
    ensures QueueOf(s)[Place(s, slot)] == Chance(s.slots[slot].value, s.referenced[slot])
  {
  }

  lemma OnlyResidentsQueued(s: Ring, i: nat)
    requires Inv(s) && i < |QueueOf(s)|
    ensures QueueOf(s)[i].key in s.lookup
  {
    var slot := if |s.lookup.Keys| < |s.slots| then i
                else if i < |s.slots| - s.hand then i + s.hand
                else i - (|s.slots| - s.hand);
    QueueAt(s, slot);
  }

  lemma QueuedIffResident(s: Ring, key: Key)
    requires Inv(s)
    ensures Queued(QueueOf(s), key) <==> key in s.lookup
  {
    if key in s.lookup {
      QueueAt(s, s.lookup[key]);
    } else if Queued(QueueOf(s), key) {
      var i :| 0 <= i < |QueueOf(s)| && QueueOf(s)[i].key == key;
      OnlyResidentsQueued(s, i);
    }
  }

  lemma PartMarked(s: Ring, slot: nat, lo: nat, hi: nat)
    requires lo <= hi <= |s.slots| == |s.referenced| && slot < |s.slots|
    requires forall i :: lo <= i < hi ==> s.slots[i].Some?
    ensures var marked := Part(s.(referenced := s.referenced[slot := true]), lo, hi);
            if lo <= slot < hi then marked == Part(s, lo, hi)[slot - lo := Chance(s.slots[slot].value, true)]
            else marked == Part(s, lo, hi)
  {
  }

  lemma HitStepsQueue(s: Ring, key: Key)
    requires Inv(s) && key in s.lookup
    ensures Inv(Step(s, key)) && Place(s, s.lookup[key]) < |QueueOf(s)|
    ensures QueueOf(Step(s, key)) == QueueOf(s)[Place(s, s.lookup[key]) := Chance(key, true)]
  {
    AccessKeepsInv(s, key);
    var slot := s.lookup[key];
    QueueAt(s, slot);
    PartMarked(s, slot, 0, s.hand);
    if |s.lookup.Keys| == |s.slots| {
      PartMarked(s, slot, s.hand, |s.slots|);
    }
  }

  /** CLOCK is the second-chance queue: same residents, same order, same bits, after any access. */
  lemma AccessStepsQueue(s: Ring, key: Key)
    requires Inv(s)
    ensures Inv(Step(s, key))
    ensures QueueStep(QueueOf(s), key, QueueOf(Step(s, key)), |s.slots|)
  {
    AccessKeepsInv(s, key);
    QueuedIffResident(s, key);
    if key in s.lookup {
      HitStepsQueue(s, key);
      QueueAt(s, s.lookup[key]);
    } else if s.slots == [] {
    } else if |s.lookup.Keys| < |s.slots| {
      FillStepsQueue(s, key);
    } else {
      EvictStepsQueue(s, key);
    }
  }

  /** A ring that is not full takes the record at the hand, which is its first empty slot. */
  lemma FillShape(s: Ring, key: Key)
    requires Inv(s) && key !in s.lookup && |s.lookup.Keys| < |s.slots|
    ensures var s' := Step(s, key);
      && s.hand == |s.lookup.Keys| < |s.slots| && |s'.lookup.Keys| == |s.lookup.Keys| + 1
      && |s'.slots| == |s'.referenced| == |s.slots| && |s.referenced| == |s.slots|
      && (forall i :: 0 <= i < s.hand ==>
            s.slots[i].Some? && s'.slots[i] == s.slots[i] && s'.referenced[i] == s.referenced[i])
      && s'.slots[s.hand] == Some(key) && s'.referenced[s.hand]
      && s'.hand == NextHand(s.hand, |s.slots|)
      && (|s'.lookup.Keys| == |s.slots| ==> s'.hand == 0)
  {
    var s' := Step(s, key);
    assert s'.lookup.Keys == s.lookup.Keys + {key};
  }

  lemma FillStepsQueue(s: Ring, key: Key)
    requires Inv(s) && key !in s.lookup && |s.lookup.Keys| < |s.slots|
    ensures Inv(Step(s, key))
    ensures QueueOf(Step(s, key)) == QueueOf(s) + [Chance(key, true)]
  {
    AccessKeepsInv(s, key);
    var s' := Step(s, key);
    FillShape(s, key);
    hide Step, Inv, LazyStep;
    assert Part(s', 0, s.hand + 1) == Part(s, 0, s.hand) + [Chance(key, true)];
  }

  lemma ReplaceHead(s: Ring, key: Key)
    requires Full(s)
    ensures var s' := s.(slots := s.slots[s.hand := Some(key)], referenced := s.referenced[s.hand := true],
                         hand := NextHand(s.hand, |s.slots|));
            Full(s') && Rotated(s') == Rotated(s)[1..] + [Chance(key, true)]
  {
  }

  lemma EvictStepsQueue(s: Ring, key: Key)
    requires Inv(s) && key !in s.lookup && |s.lookup.Keys| == |s.slots| > 0
    ensures Inv(Step(s, key))
    ensures QueueOf(Step(s, key)) == Requeued(QueueOf(s))[1..] + [Chance(key, true)]
  {
    AccessKeepsInv(s, key);
    SweepRequeues(s);
    var (referenced, slot) := Sweep(s.referenced, s.hand);
    var swept := s.(referenced := referenced, hand := slot);
    ReplaceHead(swept, key);
    var s' := Step(s, key);
    assert s'.lookup.Keys == s.lookup.Keys - {s.slots[slot].value} + {key};
    RotatedIgnoresLookup(s', swept.(slots := swept.slots[slot := Some(key)], referenced := referenced[slot := true],
                                    hand := NextHand(slot, |s.slots|)));
  }

  lemma RotatedIgnoresLookup(a: Ring, b: Ring)
    requires Full(a) && b == a.(lookup := b.lookup)
    ensures Rotated(a) == Rotated(b)
  {
  }

  class Clock {
    var slots: array<Option<Key>>
    var referenced: array<bool>
    var lookup: map<Key, nat>
    var hand: nat

    ghost function State(): Ring
      reads this, slots, referenced
    {
      Ring(slots[..], referenced[..], lookup, hand)
    }

    ghost predicate Valid()
      reads this, slots, referenced
    {
      Inv(State())
    }

    constructor (capacity: nat)
      ensures Valid() && State() == Empty(capacity)
      ensures fresh(slots) && fresh(referenced)
    {
      slots := new Option<Key>[capacity](_ => None);
      referenced := new bool[capacity](_ => false);
      lookup := map[];
      hand := 0;
    }

    method Advance()
      requires 0 < slots.Length == referenced.Length && hand < slots.Length
      modifies this`hand, referenced
      ensures hand < slots.Length
      ensures (referenced[..], hand) == Sweep(old(referenced[..]), old(hand))
    {
      while referenced[hand]
        invariant hand < slots.Length
        invariant Sweep(referenced[..], hand) == Sweep(old(referenced[..]), old(hand))
        decreases |Marked(referenced[..])|
      {
        ghost var bits, at := referenced[..], hand;
        ClearUnmarks(bits, at);
        referenced[hand] := false;
        assert referenced[..] == bits[at := false];
        NextHandIsMod(at, slots.Length);
        hand := (hand + 1) % slots.Length;
      }
    }

    method Replace(key: Key)
      requires 0 < slots.Length == referenced.Length && hand < slots.Length
      modifies this`lookup, this`hand, slots, referenced
      ensures slots[..] == old(slots[..])[old(hand) := Some(key)]
      ensures referenced[..] == old(referenced[..])[old(hand) := true]
      ensures var gone := old(slots[hand]);
        lookup == (if gone.Some? then old(lookup) - {gone.value} else old(lookup))[key := old(hand)]
      ensures hand == NextHand(old(hand), slots.Length)
    {
      var slot := hand;
      if slots[slot].Some? {
        lookup := lookup - {slots[slot].value};
      }
      slots[slot] := Some(key);
      lookup := lookup[key := slot];
      referenced[slot] := true;
      NextHandIsMod(slot, slots.Length);
      hand := (slot + 1) % slots.Length;
    }

    method Access(key: Key) returns (hit: bool)
      requires Valid()
      modifies this`lookup, this`hand, slots, referenced
      ensures Valid()
      ensures hit == (key in old(lookup))
      ensures State() == Step(old(State()), key)
    {
      AccessKeepsInv(State(), key);
      if key in lookup {
        referenced[lookup[key]] := true;
        return true;
      }
      hit := false;
      if slots.Length == 0 {
        return;
      }
      Advance();
      Replace(key);
    }
  }
}
