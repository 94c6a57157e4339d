/**
 Demand schedules for one fixed access order, and why evicting the resident whose next use is
 farthest away loses to none of them.
 */
module Demand {

  type Key = int

  /** caches[i] is what is resident just before access i. */
  type Schedule = seq<set<Key>>

  /** One access under mandatory admission: nothing but the demanded record may enter, and it must. */
  ghost predicate Admits(before: set<Key>, key: Key, after: set<Key>, capacity: nat) {
    && |after| <= capacity
    && after <= before + {key}
    && (capacity > 0 ==> key in after)
  }

  ghost predicate IsSchedule(keys: seq<Key>, capacity: nat, caches: Schedule) {
    && |caches| == |keys| + 1
    && caches[0] == {}
    && forall i :: 0 <= i < |keys| ==> Admits(caches[i], keys[i], caches[i + 1], capacity)
  }

  ghost predicate MissesAt(keys: seq<Key>, caches: Schedule, i: nat)
    requires i < |keys| < |caches|
  {
    keys[i] !in caches[i]
  }

  ghost function Misses(keys: seq<Key>, caches: Schedule, upto: nat): (count: nat)
    requires upto <= |keys| < |caches|
  {
    if upto == 0 then 0
    else Misses(keys, caches, upto - 1) + if MissesAt(keys, caches, upto - 1) then 1 else 0
  }

  /** Which of the first `n` demands hit. */
  ghost function Hits(keys: seq<Key>, caches: Schedule, n: nat): (hits: seq<bool>)
    requires n <= |keys| < |caches|
    ensures |hits| == n
  {
    if n == 0 then [] else Hits(keys, caches, n - 1) + [!MissesAt(keys, caches, n - 1)]
  }

  lemma {:induction false} HitsAt(keys: seq<Key>, caches: Schedule, n: nat, i: nat)
    requires i < n <= |keys| < |caches|
    ensures Hits(keys, caches, n)[i] == !MissesAt(keys, caches, i)
  {
    if i < n - 1 {
      HitsAt(keys, caches, n - 1, i);
    }
  }

  /** The first position at or after `from` that demands `x`, or the length of the sequence. */
  function NextUse(keys: seq<Key>, from: nat, x: Key): (at: nat)
    requires from <= |keys|
    ensures from <= at <= |keys|
    ensures forall j :: from <= j < at ==> keys[j] != x
    ensures at < |keys| ==> keys[at] == x
    decreases |keys| - from
  {
    if from == |keys| || keys[from] == x then from else NextUse(keys, from + 1, x)
  }

  /** Evict a resident whose next use is last; which one, among equals, is left open. */
  ghost predicate FarthestStep(keys: seq<Key>, i: nat, before: set<Key>, after: set<Key>, capacity: nat)
    requires i < |keys|
  {
    if capacity == 0 then after == {}
    else if keys[i] in before then after == before
    else if |before| < capacity then after == before + {keys[i]}
    else exists v ::
      && v in before
      && (forall w :: w in before ==> NextUse(keys, i, w) <= NextUse(keys, i, v))
      && after == before - {v} + {keys[i]}
  }

  ghost predicate EvictsFarthest(keys: seq<Key>, capacity: nat, caches: Schedule) {
    && |caches| == |keys| + 1
    && caches[0] == {}
    && forall i :: 0 <= i < |keys| ==> FarthestStep(keys, i, caches[i], caches[i + 1], capacity)
  }

  /** The residents of `cache` that position `i` and later demand before position `t`. */
  ghost function Within(keys: seq<Key>, i: nat, cache: set<Key>, t: nat): set<Key>
    requires i <= |keys|
  {
    set x | x in cache && NextUse(keys, i, x) < t
  }

  /** Before horizon `t`, `own` has at most `lag` fewer useful residents than `other`. */
  ghost predicate TrailsAt(keys: seq<Key>, i: nat, own: set<Key>, other: set<Key>, lag: int, t: nat)
    requires i <= |keys|
  {
    |Within(keys, i, other, t)| <= |Within(keys, i, own, t)| + lag
  }

  ghost predicate Trails(keys: seq<Key>, i: nat, own: set<Key>, other: set<Key>, lag: int)
    requires i <= |keys|
  {
    forall t: nat :: TrailsAt(keys, i, own, other, lag, t)
  }

  lemma WithinAfter(keys: seq<Key>, i: nat, cache: set<Key>, t: nat)
    requires i < |keys|
    ensures |Within(keys, i + 1, cache, t)|
         == |Within(keys, i, cache - {keys[i]}, t)|
          + (if keys[i] in cache && NextUse(keys, i + 1, keys[i]) < t then 1 else 0)
    ensures |Within(keys, i, cache, t)|
         == |Within(keys, i, cache - {keys[i]}, t)| + (if keys[i] in cache && i < t then 1 else 0)
  {
    var k := keys[i];
    var rest := Within(keys, i, cache - {k}, t);
    assert Within(keys, i + 1, cache, t)
        == if k in cache && NextUse(keys, i + 1, k) < t then rest + {k} else rest;
    assert Within(keys, i, cache, t) == if k in cache && i < t then rest + {k} else rest;
  }

  lemma WithinMonotone(keys: seq<Key>, i: nat, small: set<Key>, large: set<Key>, t: nat)
    requires i <= |keys| && small <= large
    ensures |Within(keys, i, small, t)| <= |Within(keys, i, large, t)| <= |large|
  {
    Subset(Within(keys, i, small, t), Within(keys, i, large, t));
    Subset(Within(keys, i, large, t), large);
  }

  ghost function AnyOf<T>(s: set<T>): (x: T)
    requires s != {}
    ensures x in s
  {
    var x :| x in s;
    x
  }

  ghost function AnyIn<T>(m: multiset<T>): (x: T)
    requires |m| > 0
    ensures x in m
  {
    var x :| x in m;
    x
  }

  lemma {:induction false} Subset<T>(small: set<T>, large: set<T>)
    requires small <= large
    ensures |small| <= |large|
    ensures |small| == |large| ==> small == large
  {
    if small != {} {
      var x :| x in small;
      Subset(small - {x}, large - {x});
    }
  }

  /** One access costs the farthest-use rule no more, once what it trails by is counted. */
  lemma StepKeepsTrail(keys: seq<Key>, i: nat, own: set<Key>, own': set<Key>, capacity: nat,
                       other: set<Key>, other': set<Key>, otherCapacity: nat, lag: nat)
    requires i < |keys| && |own| <= capacity && 0 < otherCapacity <= capacity
    requires FarthestStep(keys, i, own, own', capacity)
    requires Admits(other, keys[i], other', otherCapacity)
    requires Trails(keys, i, own, other, lag)
    ensures |own'| <= capacity
    ensures var lag' := lag + (if keys[i] in other then 0 else 1) - (if keys[i] in own then 0 else 1);
            lag' >= 0 && Trails(keys, i + 1, own', other', lag')
  {
    var k := keys[i];
    var lag' := lag + (if k in other then 0 else 1) - (if k in own then 0 else 1);
    if k in other && k !in own {
      assert TrailsAt(keys, i, own, other, lag, i + 1);
      assert k in Within(keys, i, other, i + 1);
      assert Within(keys, i, own, i + 1) == {};
    }
    var next := i + 1;
    forall t: nat
      ensures TrailsAt(keys, next, own', other', lag', t)
    {
      assert TrailsAt(keys, i, own, other, lag, t);
      TrailAtHorizon(keys, i, own, own', capacity, other, other', otherCapacity, lag, t);
    }
  }

  /** Apart from the demanded key, a horizon loses nothing unless it already reaches past every resident. */
  lemma RestKept(keys: seq<Key>, i: nat, own: set<Key>, own': set<Key>, capacity: nat, t: nat)
    requires i < |keys| && 0 < capacity
    requires FarthestStep(keys, i, own, own', capacity)
    ensures keys[i] in own'
    ensures |Within(keys, i, own' - {keys[i]}, t)| == |Within(keys, i, own - {keys[i]}, t)|
         || |Within(keys, i, own' - {keys[i]}, t)| >= capacity - 1
  {
    var k := keys[i];
    if k in own || |own| < capacity {
      assert own' - {k} == own - {k};
    } else {
      var v :| && v in own
               && (forall w :: w in own ==> NextUse(keys, i, w) <= NextUse(keys, i, v))
               && own' == own - {v} + {k};
      assert own' - {k} == own - {v};
      if t <= NextUse(keys, i, v) {
        assert Within(keys, i, own - {v}, t) == Within(keys, i, own - {k}, t);
      } else {
        assert Within(keys, i, own - {v}, t) == own - {v};
      }
    }
  }

  lemma TrailAtHorizon(keys: seq<Key>, i: nat, own: set<Key>, own': set<Key>, capacity: nat,
                       other: set<Key>, other': set<Key>, otherCapacity: nat, lag: nat, t: nat)
    requires i < |keys| && 0 < otherCapacity <= capacity
    requires FarthestStep(keys, i, own, own', capacity)
    requires Admits(other, keys[i], other', otherCapacity)
    requires TrailsAt(keys, i, own, other, lag, t)
    requires keys[i] in other && keys[i] !in own ==> lag >= 1
    ensures TrailsAt(keys, i + 1, own', other',
                     lag + (if keys[i] in other then 0 else 1) - (if keys[i] in own then 0 else 1), t)
  {
    var k := keys[i];
    WithinAfter(keys, i, other, t);
    WithinAfter(keys, i, own, t);
    WithinAfter(keys, i, other', t);
    WithinAfter(keys, i, own', t);
    WithinMonotone(keys, i, other' - {k}, other - {k}, t);
    WithinMonotone(keys, i, other' - {k}, other' - {k}, t);
    RestKept(keys, i, own, own', capacity, t);
    if t <= i {
      assert Within(keys, i, other - {k}, t) == {};
    }
  }

  lemma TrailStarts(keys: seq<Key>)
    ensures Trails(keys, 0, {}, {}, 0)
  {
  }

  /** The farthest-use rule is never behind, at any prefix, for any schedule of no more slots. */
  lemma {:induction false} FarthestLeads(keys: seq<Key>, capacity: nat, caches: Schedule,
                                         otherCapacity: nat, other: Schedule, upto: nat)
    requires EvictsFarthest(keys, capacity, caches)
    requires IsSchedule(keys, otherCapacity, other)
    requires 0 < otherCapacity <= capacity && upto <= |keys|
    ensures |caches[upto]| <= capacity
    ensures Misses(keys, caches, upto) <= Misses(keys, other, upto)
    ensures Trails(keys, upto, caches[upto], other[upto],
                   Misses(keys, other, upto) - Misses(keys, caches, upto))
  {
    hide Trails, FarthestStep, Admits;
    if upto == 0 {
      TrailStarts(keys);
    } else {
      FarthestLeads(keys, capacity, caches, otherCapacity, other, upto - 1);
      assert FarthestStep(keys, upto - 1, caches[upto - 1], caches[upto], capacity);
      assert Admits(other[upto - 1], keys[upto - 1], other[upto], otherCapacity);
      StepKeepsTrail(keys, upto - 1, caches[upto - 1], caches[upto], capacity,
                     other[upto - 1], other[upto], otherCapacity,
                     Misses(keys, other, upto - 1) - Misses(keys, caches, upto - 1));
    }
  }

  /** With no slots, or more generally against fewer slots, evicting farthest is still minimal. */
  lemma FarthestIsMinimal(keys: seq<Key>, capacity: nat, caches: Schedule,
                          otherCapacity: nat, other: Schedule, upto: nat)
    requires EvictsFarthest(keys, capacity, caches)
    requires IsSchedule(keys, otherCapacity, other)
    requires otherCapacity <= capacity && upto <= |keys|
    ensures Misses(keys, caches, upto) <= Misses(keys, other, upto)
  {
    if otherCapacity > 0 {
      FarthestLeads(keys, capacity, caches, otherCapacity, other, upto);
    } else {
      NoSlotsMissAll(keys, other, upto);
      MissesAtMost(keys, caches, upto);
    }
  }

  lemma {:induction false} MissesAtMost(keys: seq<Key>, caches: Schedule, upto: nat)
    requires upto <= |keys| < |caches|
    ensures Misses(keys, caches, upto) <= upto
  {
    if upto > 0 {
      MissesAtMost(keys, caches, upto - 1);
    }
  }

  lemma {:induction false} NoSlotsMissAll(keys: seq<Key>, caches: Schedule, upto: nat)
    requires IsSchedule(keys, 0, caches) && upto <= |keys|
    ensures Misses(keys, caches, upto) == upto
  {
    if upto > 0 {
      NoSlotsMissAll(keys, caches, upto - 1);
      if upto > 1 {
        assert Admits(caches[upto - 2], keys[upto - 2], caches[upto - 1], 0);
      }
    }
  }

  /** Admission made optional. */
  ghost predicate BypassStep(before: set<Key>, key: Key, after: set<Key>, capacity: nat) {
    |after| <= capacity && after <= before + {key}
  }

  /** Without mandatory admission the claim fails: one slot, keys 1 2 1, and simply not admitting 2. */
  lemma BypassingBeatsFarthest()
    ensures exists keys: seq<Key>, caches: Schedule, bypass: Schedule ::
      && EvictsFarthest(keys, 1, caches)
      && |bypass| == |keys| + 1 && bypass[0] == {}
      && (forall i :: 0 <= i < |keys| ==> BypassStep(bypass[i], keys[i], bypass[i + 1], 1))
      && Misses(keys, bypass, |keys|) < Misses(keys, caches, |keys|)
  {
    var keys: seq<Key> := [1, 2, 1];
    var caches: Schedule := [{}, {1}, {2}, {1}];
    var bypass: Schedule := [{}, {1}, {1}, {1}];
    assert {1} - {1} + {2} == {2} && {2} - {2} + {1} == {1};
    assert FarthestStep(keys, 1, {1}, {2}, 1);
    assert FarthestStep(keys, 2, {2}, {1}, 1);
    assert EvictsFarthest(keys, 1, caches);
    assert Misses(keys, bypass, 1) == 1 && Misses(keys, caches, 1) == 1;
    assert Misses(keys, bypass, 2) == 2 && Misses(keys, caches, 2) == 2;
    assert Misses(keys, bypass, 3) == 2 && Misses(keys, caches, 3) == 3;
    assert forall i :: 0 <= i < |keys| ==> BypassStep(bypass[i], keys[i], bypass[i + 1], 1);
  }

  /** What all three policies do: keep everything on a hit, and evict exactly one when full. */
  ghost predicate LazyStep(before: set<Key>, key: Key, after: set<Key>, capacity: nat) {
    if capacity == 0 then after == {}
    else if key in before then after == before
    else if |before| < capacity then after == before + {key}
    else exists v :: v in before && after == before - {v} + {key}
  }

  lemma EvictingIsLazy(before: set<Key>, key: Key, after: set<Key>, capacity: nat, victim: Key)
    requires key !in before && |before| == capacity > 0
    requires victim in before && after == before - {victim} + {key}
    ensures LazyStep(before, key, after, capacity)
  {
  }

  ghost predicate IsLazy(keys: seq<Key>, capacity: nat, caches: Schedule) {
    && |caches| == |keys| + 1
    && caches[0] == {}
    && forall i :: 0 <= i < |keys| ==> LazyStep(caches[i], keys[i], caches[i + 1], capacity)
  }

  lemma FarthestIsLazy(keys: seq<Key>, capacity: nat, caches: Schedule)
    requires EvictsFarthest(keys, capacity, caches)
    ensures IsLazy(keys, capacity, caches)
  {
    forall i | 0 <= i < |keys|
      ensures LazyStep(caches[i], keys[i], caches[i + 1], capacity)
    {
      assert FarthestStep(keys, i, caches[i], caches[i + 1], capacity);
    }
  }

  lemma {:induction false} LazyFits(keys: seq<Key>, capacity: nat, caches: Schedule, upto: nat)
    requires IsLazy(keys, capacity, caches) && upto <= |keys|
    ensures |caches[upto]| <= capacity
  {
    if upto > 0 {
      LazyFits(keys, capacity, caches, upto - 1);
      assert LazyStep(caches[upto - 1], keys[upto - 1], caches[upto], capacity);
    }
  }

  lemma LazyIsSchedule(keys: seq<Key>, capacity: nat, caches: Schedule)
    requires IsLazy(keys, capacity, caches)
    ensures IsSchedule(keys, capacity, caches)
  {
    forall i | 0 <= i < |keys|
      ensures Admits(caches[i], keys[i], caches[i + 1], capacity)
    {
      LazyFits(keys, capacity, caches, i);
      LazyFits(keys, capacity, caches, i + 1);
      assert LazyStep(caches[i], keys[i], caches[i + 1], capacity);
    }
  }

  ghost function Demanded(keys: seq<Key>, upto: nat): set<Key>
    requires upto <= |keys|
  {
    set j | 0 <= j < upto :: keys[j]
  }

  lemma DemandedNext(keys: seq<Key>, upto: nat)
    requires upto < |keys|
    ensures Demanded(keys, upto + 1) == Demanded(keys, upto) + {keys[upto]}
  {
  }

  /** Every distinct record is a compulsory miss of a cold start, whatever the schedule. */
  lemma {:induction false} CompulsoryMisses(keys: seq<Key>, capacity: nat, caches: Schedule, upto: nat)
    requires IsSchedule(keys, capacity, caches) && upto <= |keys|
    ensures caches[upto] <= Demanded(keys, upto)
    ensures Misses(keys, caches, upto) >= |Demanded(keys, upto)|
  {
    hide Demanded, Admits;
    if upto == 0 {
      NothingDemanded(keys);
    } else {
      CompulsoryMisses(keys, capacity, caches, upto - 1);
      DemandedNext(keys, upto - 1);
      assert Admits(caches[upto - 1], keys[upto - 1], caches[upto], capacity);
      AdmitsNoMore(caches[upto - 1], keys[upto - 1], caches[upto], capacity, Demanded(keys, upto - 1));
    }
  }

  /** Residents are among the demanded, and a demand met by a resident is no new one. */
  lemma AdmitsNoMore(before: set<Key>, key: Key, after: set<Key>, capacity: nat, demanded: set<Key>)
    requires Admits(before, key, after, capacity) && before <= demanded
    ensures after <= demanded + {key}
    ensures |demanded + {key}| <= |demanded| + if key in before then 0 else 1
  {
    if key in demanded {
      assert demanded + {key} == demanded;
    } else {
      assert |demanded + {key}| == |demanded| + 1;
    }
  }

  /** ... and there is no other miss once the distinct records fit. */
  lemma {:induction false} OnlyCompulsoryMisses(keys: seq<Key>, capacity: nat, caches: Schedule, upto: nat)
    requires IsLazy(keys, capacity, caches) && upto <= |keys|
    requires |Demanded(keys, |keys|)| <= capacity
    ensures caches[upto] == Demanded(keys, upto)
    ensures Misses(keys, caches, upto) == |Demanded(keys, upto)|
  {
    hide Demanded, IsLazy;
    if upto == 0 {
      NothingDemanded(keys);
      LazyStarts(keys, capacity, caches);
    } else {
      OnlyCompulsoryMisses(keys, capacity, caches, upto - 1);
      OnlyCompulsoryMiss(keys, capacity, caches, upto);
    }
  }

  lemma NothingDemanded(keys: seq<Key>)
    ensures Demanded(keys, 0) == {}
  {
  }

  lemma LazyStarts(keys: seq<Key>, capacity: nat, caches: Schedule)
    requires IsLazy(keys, capacity, caches)
    ensures caches[0] == {}
  {
  }

  lemma OnlyCompulsoryMiss(keys: seq<Key>, capacity: nat, caches: Schedule, upto: nat)
    requires IsLazy(keys, capacity, caches) && 0 < upto <= |keys|
    requires |Demanded(keys, |keys|)| <= capacity && caches[upto - 1] == Demanded(keys, upto - 1)
    ensures caches[upto] == Demanded(keys, upto)
    ensures |caches[upto]| == |caches[upto - 1]| + if MissesAt(keys, caches, upto - 1) then 1 else 0
  {
    var before, key := caches[upto - 1], keys[upto - 1];
    assert LazyStep(before, key, caches[upto], capacity);
    hide Demanded, LazyStep, IsLazy;
    DemandedNext(keys, upto - 1);
    DemandedGrows(keys, upto);
    Subset(before + {key}, Demanded(keys, |keys|));
    RoomMeansKept(before, key, caches[upto], capacity);
  }

  lemma DemandedGrows(keys: seq<Key>, upto: nat)
    requires upto <= |keys|
    ensures Demanded(keys, upto) <= Demanded(keys, |keys|)
  {
  }

  /** With room for the demanded key nothing is evicted. */
  lemma RoomMeansKept(before: set<Key>, key: Key, after: set<Key>, capacity: nat)
    requires LazyStep(before, key, after, capacity) && |before + {key}| <= capacity
    ensures after == before + {key}
    ensures |after| == |before| + if key in before then 0 else 1
  {
    if key in before {
      assert before + {key} == before;
    } else {
      assert |before + {key}| == |before| + 1;
    }
  }
}
