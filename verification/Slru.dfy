/** Probation and protected queues, oldest first. */
module SlruPolicy {
  import opened Common
  import opened Demand

  datatype Queues = Queues(probation: seq<Key>, protected: seq<Key>)

  function ProtectedLimit(capacity: nat): nat {
    3 * capacity / 4
  }

  /** `s` without `key`; an ordered dictionary holds a key at most once. */
  function Without(s: seq<Key>, key: Key): (r: seq<Key>)
    ensures key !in r
    ensures key !in s ==> r == s
    ensures forall k :: k in r <==> k in s && k != key
    ensures |r| <= |s|
  {
    if s == [] then []
    else if s[0] == key then Without(s[1..], key)
    else [s[0]] + Without(s[1..], key)
  }

  lemma {:induction false} WithoutKeepsDistinct(s: seq<Key>, key: Key)
    requires Distinct(s)
    ensures Distinct(Without(s, key))
    ensures |Without(s, key)| == if key in s then |s| - 1 else |s|
  {
    if s != [] {
      assert s == [s[0]] + s[1..];
      DistinctConcat([s[0]], s[1..]);
      WithoutKeepsDistinct(s[1..], key);
      DistinctConcat([s[0]], Without(s[1..], key));
    }
  }

  lemma {:induction false} WithoutConcat(a: seq<Key>, b: seq<Key>, key: Key)
    ensures Without(a + b, key) == Without(a, key) + Without(b, key)
  {
    if a == [] {
      assert a + b == b;
    } else {
      assert (a + b)[1..] == a[1..] + b;
      WithoutConcat(a[1..], b, key);
    }
  }

  ghost predicate Inv(s: Queues, capacity: nat) {
    && Distinct(s.probation)
    && Distinct(s.protected)
    && (forall k :: k in s.probation ==> k !in s.protected)
    && |s.protected| <= ProtectedLimit(capacity)
    && |s.probation| + |s.protected| <= capacity
  }

  /** Promote `key`, demoting the protected key hit longest ago if the segment overflows. */
  function Promote(s: Queues, capacity: nat, key: Key): Queues {
    var probation := Without(s.probation, key);
    var protected := s.protected + [key];
    if |protected| > ProtectedLimit(capacity) then Queues(probation + [protected[0]], protected[1..])
    else Queues(probation, protected)
  }

  function Step(s: Queues, capacity: nat, key: Key): Queues
    requires Inv(s, capacity)
  {
    if key in s.protected then s.(protected := Without(s.protected, key) + [key])
    else if key in s.probation then Promote(s, capacity, key)
    else if capacity == 0 then s
    else if |s.protected| + |s.probation| == capacity then s.(probation := s.probation[1..] + [key])
    else s.(probation := s.probation + [key])
  }

  ghost function Residents(s: Queues): set<Key> {
    Elements(s.probation) + Elements(s.protected)
  }

  lemma ResidentCount(s: Queues, capacity: nat)
    requires Inv(s, capacity)
    ensures |Residents(s)| == |s.probation| + |s.protected|
  {
    DistinctCount(s.probation);
    DistinctCount(s.protected);
    forall k | k in Elements(s.probation)
      ensures k !in Elements(s.protected)
    {
      assert k in s.probation;
    }
  }

  lemma PromoteKeepsInv(s: Queues, capacity: nat, key: Key)
    requires Inv(s, capacity) && key in s.probation
    ensures Inv(Promote(s, capacity, key), capacity)
    ensures Residents(Promote(s, capacity, key)) == Residents(s)
  {
    WithoutKeepsDistinct(s.probation, key);
    var probation := Without(s.probation, key);
    var protected := s.protected + [key];
    DistinctConcat(s.protected, [key]);
    if |protected| > ProtectedLimit(capacity) {
      var first, rest := protected[0], protected[1..];
      assert protected == [first] + rest;
      DistinctConcat([first], rest);
      DistinctConcat(probation, [first]);
      assert forall k :: k in protected <==> k == first || k in rest;
    }
  }

  lemma StepKeepsInv(s: Queues, capacity: nat, key: Key)
    requires Inv(s, capacity)
    ensures Inv(Step(s, capacity, key), capacity)
    ensures LazyStep(Residents(s), key, Residents(Step(s, capacity, key)), capacity)
  {
    ResidentCount(s, capacity);
    assert key in Residents(s) <==> key in s.protected || key in s.probation;
    if key in s.protected {
      TouchKeepsInv(s, capacity, key);
    } else if key in s.probation {
      PromoteKeepsInv(s, capacity, key);
    } else if capacity == 0 {
      assert Residents(s) == {};
    } else if |s.protected| + |s.probation| == capacity {
      EvictOldest(s, capacity, key);
      EvictingIsLazy(Residents(s), key, Residents(Step(s, capacity, key)), capacity, s.probation[0]);
    } else {
      AdmitKeepsInv(s, capacity, key);
    }
  }

  lemma TouchKeepsInv(s: Queues, capacity: nat, key: Key)
    requires Inv(s, capacity) && key in s.protected
    ensures Inv(Step(s, capacity, key), capacity)
    ensures Residents(Step(s, capacity, key)) == Residents(s)
  {
    WithoutKeepsDistinct(s.protected, key);
    DistinctConcat(Without(s.protected, key), [key]);
  }

  lemma AdmitKeepsInv(s: Queues, capacity: nat, key: Key)
    requires Inv(s, capacity) && key !in s.probation && key !in s.protected
    requires |s.protected| + |s.probation| < capacity
    ensures Inv(Step(s, capacity, key), capacity)
    ensures Residents(Step(s, capacity, key)) == Residents(s) + {key}
  {
    DistinctConcat(s.probation, [key]);
  }

  /** The protected segment never takes every slot, so a full cache can always evict from probation. */
  lemma EvictOldest(s: Queues, capacity: nat, key: Key)
    requires Inv(s, capacity) && key !in Residents(s)
    requires 0 < capacity == |s.protected| + |s.probation|
    ensures s.probation != []
    ensures Inv(Step(s, capacity, key), capacity)
    ensures Residents(Step(s, capacity, key)) == Residents(s) - {s.probation[0]} + {key}
  {
    var first, rest := s.probation[0], s.probation[1..];
    assert s.probation == [first] + rest;
    DistinctConcat([first], rest);
    DistinctConcat(rest, [key]);
    assert forall k :: k in s.probation <==> k == first || k in rest;
    assert key !in s.probation && key !in s.protected;
  }

  function After(keys: seq<Key>, capacity: nat, n: nat): (s: Queues)
    requires n <= |keys|
    ensures Inv(s, capacity)
  {
    if n == 0 then Queues([], [])
    else
      var before := After(keys, capacity, n - 1);
      StepKeepsInv(before, capacity, keys[n - 1]);
      Step(before, capacity, keys[n - 1])
  }

  lemma {:induction false} AfterPrefix(keys: seq<Key>, more: seq<Key>, capacity: nat, n: nat)
    requires n <= |keys|
    ensures After(keys + more, capacity, n) == After(keys, capacity, n)
  {
    hide Inv, Step;
    if n > 0 {
      AfterPrefix(keys, more, capacity, n - 1);
      assert (keys + more)[n - 1] == keys[n - 1];
    }
  }

  lemma AfterNext(keys: seq<Key>, key: Key, capacity: nat)
    ensures After(keys + [key], capacity, |keys| + 1) == Step(After(keys, capacity, |keys|), capacity, key)
  {
    AfterPrefix(keys, [key], capacity, |keys|);
  }

  ghost function Caches(keys: seq<Key>, capacity: nat): Schedule {
    seq(|keys| + 1, i requires 0 <= i <= |keys| => Residents(After(keys, capacity, i)))
  }

  lemma StepIsLazy(keys: seq<Key>, capacity: nat, i: nat)
    requires i < |keys|
    ensures LazyStep(Caches(keys, capacity)[i], keys[i], Caches(keys, capacity)[i + 1], capacity)
  {
    StepKeepsInv(After(keys, capacity, i), capacity, keys[i]);
  }

  lemma CachesAreLazy(keys: seq<Key>, capacity: nat)
    ensures IsLazy(keys, capacity, Caches(keys, capacity))
    ensures IsSchedule(keys, capacity, Caches(keys, capacity))
  {
    var caches := Caches(keys, capacity);
    assert caches[0] == {};
    forall i | 0 <= i < |keys|
      ensures LazyStep(caches[i], keys[i], caches[i + 1], capacity)
    {
      StepIsLazy(keys, capacity, i);
    }
    LazyIsSchedule(keys, capacity, caches);
  }

  // ---------- what the protected segment holds ----------

  /** The demands among the first `n` that hit, in order. */
  ghost function HitKeys(keys: seq<Key>, capacity: nat, n: nat): seq<Key>
    requires n <= |keys|
  {
    if n == 0 then []
    else
      HitKeys(keys, capacity, n - 1)
      + if keys[n - 1] in Residents(After(keys, capacity, n - 1)) then [keys[n - 1]] else []
  }

  /** Each key once, ordered by its last appearance. */
  ghost function ByLastUse(history: seq<Key>): (r: seq<Key>)
    ensures forall k :: k in r <==> k in history
  {
    if history == [] then []
    else
      var k := history[|history| - 1];
      assert forall x :: x in history <==> x == k || x in history[..|history| - 1];
      Without(ByLastUse(history[..|history| - 1]), k) + [k]
  }

  ghost function Newest(s: seq<Key>, n: nat): seq<Key> {
    if |s| <= n then s else s[|s| - n..]
  }

  lemma {:induction false} ByLastUseDistinct(history: seq<Key>)
    ensures Distinct(ByLastUse(history))
  {
    if history != [] {
      var front := history[..|history| - 1];
      ByLastUseDistinct(front);
      WithoutKeepsDistinct(ByLastUse(front), history[|history| - 1]);
    }
  }

  /** `recent` with `key` moved or added to the end, at most `n` kept. */
  ghost function Used(recent: seq<Key>, n: nat, key: Key): seq<Key> {
    if key in recent then Without(recent, key) + [key]
    else if |recent| >= n then (recent + [key])[1..]
    else recent + [key]
  }

  lemma NewestSuffix(front: seq<Key>, back: seq<Key>, n: nat)
    requires |back| == n || (|back| < n && front == [])
    ensures Newest(front + back, n) == back
  {
  }

  lemma NotInFront(front: seq<Key>, back: seq<Key>, key: Key)
    requires Distinct(front + back) && key in back
    ensures key !in front
  {
    DistinctConcat(front, back);
  }

  lemma MovedIsNewest(front: seq<Key>, recent: seq<Key>, n: nat, key: Key)
    requires Distinct(recent) && key in recent && key !in front
    requires |recent| == n || (|recent| < n && front == [])
    ensures Newest(front + Without(recent, key) + [key], n) == Without(recent, key) + [key]
  {
    WithoutKeepsDistinct(recent, key);
    var moved := Without(recent, key) + [key];
    NewestSuffix(front, moved, n);
    assert front + Without(recent, key) + [key] == front + moved;
  }

  lemma AddedIsNewest(front: seq<Key>, recent: seq<Key>, n: nat, key: Key)
    requires |recent| == n || (|recent| < n && front == [])
    ensures Newest(front + recent + [key], n) == if |recent| >= n then (recent + [key])[1..] else recent + [key]
  {
    var moved := recent + [key];
    if |recent| == n {
      NewestSuffix(front + [moved[0]], moved[1..], n);
      assert front + recent + [key] == (front + [moved[0]]) + moved[1..];
    } else {
      NewestSuffix(front, moved, n);
      assert front + recent + [key] == front + moved;
    }
  }

  lemma UsedFront(front: seq<Key>, recent: seq<Key>, n: nat, key: Key)
    requires Distinct(front + recent)
    requires |recent| == n || (|recent| < n && front == [])
    ensures Newest(Without(front, key) + Without(recent, key) + [key], n) == Used(recent, n, key)
  {
    DistinctConcat(front, recent);
    if key in recent {
      NotInFront(front, recent, key);
      MovedIsNewest(front, recent, n, key);
    } else {
      AddedIsNewest(Without(front, key), recent, n, key);
    }
  }

  /** Moving `key` to the end keeps the newest entries the newest. */
  lemma NewestAfterUse(s: seq<Key>, n: nat, key: Key)
    requires Distinct(s)
    ensures Newest(Without(s, key) + [key], n) == Used(Newest(s, n), n, key)
  {
    var recent := Newest(s, n);
    var front := s[..|s| - |recent|];
    assert s == front + recent;
    WithoutConcat(front, recent, key);
    UsedFront(front, recent, n, key);
  }

  lemma HitUsesProtected(s: Queues, capacity: nat, key: Key)
    requires Inv(s, capacity)
    ensures Step(s, capacity, key).protected
         == if key in Residents(s) then Used(s.protected, ProtectedLimit(capacity), key) else s.protected
  {
  }

  lemma ByLastUseOfNext(history: seq<Key>, key: Key)
    ensures ByLastUse(history + [key]) == Without(ByLastUse(history), key) + [key]
  {
    assert (history + [key])[..|history|] == history;
  }

  /** The protected segment is exactly the distinct keys hit most recently, as many as fit. */
  lemma {:induction false} ProtectedIsMostRecentlyHit(keys: seq<Key>, capacity: nat, n: nat)
    requires n <= |keys|
    ensures After(keys, capacity, n).protected
         == Newest(ByLastUse(HitKeys(keys, capacity, n)), ProtectedLimit(capacity))
  {
    hide Inv, Step, Newest, ByLastUse, Residents;
    if n == 0 {
      NothingHit(capacity);
    } else {
      ProtectedIsMostRecentlyHit(keys, capacity, n - 1);
      StepUsesProtected(After(keys, capacity, n - 1), capacity, keys[n - 1], HitKeys(keys, capacity, n - 1));
      var history := HitKeys(keys, capacity, n - 1);
      assert history + [] == history;
    }
  }

  lemma NothingHit(capacity: nat)
    ensures Newest(ByLastUse([]), ProtectedLimit(capacity)) == []
  {
  }

  lemma StepUsesProtected(before: Queues, capacity: nat, key: Key, history: seq<Key>)
    requires Inv(before, capacity) && before.protected == Newest(ByLastUse(history), ProtectedLimit(capacity))
    ensures Step(before, capacity, key).protected
         == Newest(ByLastUse(if key in Residents(before) then history + [key] else history), ProtectedLimit(capacity))
  {
    HitUsesProtected(before, capacity, key);
    ByLastUseOfNext(history, key);
    ByLastUseDistinct(history);
    hide *;
    NewestAfterUse(ByLastUse(history), ProtectedLimit(capacity), key);
  }

  // ---------- what the probation segment holds ----------

  /** The members of `s` in `kept`, in their order. */
  ghost function Among(s: seq<Key>, kept: set<Key>): seq<Key> {
    if s == [] then []
    else Among(s[..|s| - 1], kept) + if s[|s| - 1] in kept then [s[|s| - 1]] else []
  }

  /** Who enters probation when `s` becomes `s'`: a record admitted, or one that a hit pushes out of protected. */
  ghost function Entering(s: Queues, s': Queues, key: Key): seq<Key> {
    if key in Residents(s) then
      Among(s.protected + [key], Elements(s.protected) + {key} - Elements(s'.protected))
    else if key in Residents(s') then [key]
    else []
  }

  /** The records that entered probation during the first `n` demands, one after the other. */
  ghost function Arrivals(keys: seq<Key>, capacity: nat, n: nat): seq<Key>
    requires n <= |keys|
  {
    if n == 0 then []
    else
      Arrivals(keys, capacity, n - 1)
      + Entering(After(keys, capacity, n - 1), After(keys, capacity, n), keys[n - 1])
  }

  lemma {:induction false} AmongSame(s: seq<Key>, a: set<Key>, b: set<Key>)
    requires forall i :: 0 <= i < |s| ==> (s[i] in a <==> s[i] in b)
    ensures Among(s, a) == Among(s, b)
  {
    if s != [] {
      AmongSame(s[..|s| - 1], a, b);
    }
  }

  lemma {:induction false} AmongNone(s: seq<Key>, kept: set<Key>)
    requires forall i :: 0 <= i < |s| ==> s[i] !in kept
    ensures Among(s, kept) == []
  {
    if s != [] {
      AmongNone(s[..|s| - 1], kept);
    }
  }

  lemma {:induction false} AmongConcat(s: seq<Key>, more: seq<Key>, kept: set<Key>)
    ensures Among(s + more, kept) == Among(s, kept) + Among(more, kept)
  {
    if more == [] {
      assert s + more == s;
    } else {
      var n := |more| - 1;
      assert (s + more)[..|s| + n] == s + more[..n];
      AmongConcat(s, more[..n], kept);
    }
  }

  /** Taking a member out of the set takes it out of the sequence. */
  lemma {:induction false} AmongLess(s: seq<Key>, kept: set<Key>, key: Key)
    ensures Among(s, kept - {key}) == Without(Among(s, kept), key)
  {
    if s != [] {
      var n := |s| - 1;
      AmongLess(s[..n], kept, key);
      WithoutConcat(Among(s[..n], kept), if s[n] in kept then [s[n]] else [], key);
    }
  }

  /** Where a key stands in the sequence does not matter to a set without it. */
  lemma {:induction false} AmongWithout(s: seq<Key>, kept: set<Key>, key: Key)
    requires key !in kept
    ensures Among(Without(s, key), kept) == Among(s, kept)
  {
    if s != [] {
      var n := |s| - 1;
      AmongWithout(s[..n], kept, key);
      WithoutConcat(s[..n], [s[n]], key);
      assert s[..n] + [s[n]] == s;
      AmongConcat(Without(s[..n], key), Without([s[n]], key), kept);
      AmongConcat(s[..n], [s[n]], kept);
    }
  }

  lemma AmongSingle(key: Key, kept: set<Key>)
    ensures Among([key], kept) == if key in kept then [key] else []
  {
    assert [key][..0] == [];
  }

  /** A newcomer comes last. */
  lemma AmongArrival(history: seq<Key>, kept: set<Key>, key: Key)
    requires key !in kept
    ensures Among(ByLastUse(history + [key]), kept + {key}) == Among(ByLastUse(history), kept) + [key]
  {
    ByLastUseOfNext(history, key);
    var before := Without(ByLastUse(history), key);
    AmongConcat(before, [key], kept + {key});
    AmongSame(before, kept + {key}, kept);
    AmongWithout(ByLastUse(history), kept, key);
    AmongSingle(key, kept + {key});
  }

  lemma WithoutFirst(s: seq<Key>)
    requires Distinct(s) && s != []
    ensures Without(s, s[0]) == s[1..] && Elements(s[1..]) == Elements(s) - {s[0]}
  {
    assert s == [s[0]] + s[1..];
    DistinctConcat([s[0]], s[1..]);
  }

  lemma FirstOfDistinct(s: seq<Key>)
    requires Distinct(s) && s != []
    ensures Among(s, Elements(s) - Elements(s[1..])) == [s[0]]
  {
    WithoutFirst(s);
    var first := Elements(s) - Elements(s[1..]);
    assert first == {s[0]};
    assert s == [s[0]] + s[1..];
    DistinctConcat([s[0]], s[1..]);
    AmongConcat([s[0]], s[1..], first);
    AmongSingle(s[0], first);
    AmongNone(s[1..], first);
  }

  /** The probation segment is the residents outside the protected one, by arrival. */
  ghost predicate ByArrival(s: Queues, arrivals: seq<Key>) {
    s.probation == Among(ByLastUse(arrivals), Elements(s.probation))
  }

  lemma TouchKeepsArrival(s: Queues, capacity: nat, key: Key, arrivals: seq<Key>)
    requires Inv(s, capacity) && ByArrival(s, arrivals) && key in s.protected
    ensures var s' := Step(s, capacity, key);
      Entering(s, s', key) == [] && ByArrival(s', arrivals)
  {
    AmongNone(s.protected + [key], {});
    assert Elements(s.protected) + {key} - Elements(Without(s.protected, key) + [key]) == {};
  }

  /** What a promotion does to the queues, and whom it demotes. */
  lemma PromotionShape(s: Queues, capacity: nat, key: Key)
    requires Inv(s, capacity) && key in s.probation && key !in s.protected
    ensures var s' := Step(s, capacity, key);
      var protected := s.protected + [key];
      var rest := Elements(s.probation) - {key};
      && Distinct(protected)
      && if |protected| > ProtectedLimit(capacity) then
           && s'.probation == Without(s.probation, key) + [protected[0]] && Entering(s, s', key) == [protected[0]]
           && protected[0] !in rest && Elements(s'.probation) == rest + {protected[0]}
         else
           && s'.probation == Without(s.probation, key) && Entering(s, s', key) == []
           && Elements(s'.probation) == rest
  {
    var s' := Step(s, capacity, key);
    var protected := s.protected + [key];
    DistinctConcat(s.protected, [key]);
    assert Elements(protected) == Elements(s.protected) + {key};
    assert key in Residents(s);
    if |protected| > ProtectedLimit(capacity) {
      FirstOfDistinct(protected);
      assert protected[0] == key || protected[0] in s.protected;
    } else {
      AmongNone(protected, Elements(protected) - Elements(protected));
    }
  }

  lemma PromotionKeepsArrival(s: Queues, capacity: nat, key: Key, arrivals: seq<Key>)
    requires Inv(s, capacity) && ByArrival(s, arrivals) && key in s.probation && key !in s.protected
    ensures var s' := Step(s, capacity, key);
      ByArrival(s', arrivals + Entering(s, s', key))
  {
    PromotionShape(s, capacity, key);
    hide Step, Entering, Inv, Among, Elements, Distinct;
    AmongLess(ByLastUse(arrivals), Elements(s.probation), key);
    assert arrivals + [] == arrivals;
    if |s.protected + [key]| > ProtectedLimit(capacity) {
      AmongArrival(arrivals, Elements(s.probation) - {key}, (s.protected + [key])[0]);
    }
  }

  lemma MissKeepsArrival(s: Queues, capacity: nat, key: Key, arrivals: seq<Key>)
    requires Inv(s, capacity) && ByArrival(s, arrivals) && key !in s.probation && key !in s.protected
    ensures var s' := Step(s, capacity, key);
      ByArrival(s', arrivals + Entering(s, s', key))
  {
    var s' := Step(s, capacity, key);
    assert key !in Residents(s);
    if capacity == 0 {
      assert arrivals + [] == arrivals;
    } else {
      assert key in s'.probation && key in Residents(s');
      if |s.protected| + |s.probation| == capacity {
        WithoutFirst(s.probation);
        AmongLess(ByLastUse(arrivals), Elements(s.probation), s.probation[0]);
        assert Elements(s'.probation) == Elements(s.probation) - {s.probation[0]} + {key};
        AmongArrival(arrivals, Elements(s.probation) - {s.probation[0]}, key);
      } else {
        assert Elements(s'.probation) == Elements(s.probation) + {key};
        AmongArrival(arrivals, Elements(s.probation), key);
      }
    }
  }

  lemma StepKeepsArrival(s: Queues, capacity: nat, key: Key, arrivals: seq<Key>)
    requires Inv(s, capacity) && ByArrival(s, arrivals)
    ensures ByArrival(Step(s, capacity, key), arrivals + Entering(s, Step(s, capacity, key), key))
  {
    hide Inv, Step, Entering, ByArrival;
    assert arrivals + [] == arrivals;
    if key in s.protected {
      TouchKeepsArrival(s, capacity, key, arrivals);
    } else if key in s.probation {
      PromotionKeepsArrival(s, capacity, key, arrivals);
    } else {
      MissKeepsArrival(s, capacity, key, arrivals);
    }
  }

  /** Probation holds the other residents in the order they last entered it, so a full miss evicts the longest there. */
  lemma ProbationIsByArrival(keys: seq<Key>, capacity: nat, n: nat)
    requires n <= |keys|
    ensures var s := After(keys, capacity, n);
      s.probation == Among(ByLastUse(Arrivals(keys, capacity, n)), Residents(s) - Elements(s.protected))
  {
    AfterByArrival(keys, capacity, n);
    ProbationIsTheRest(After(keys, capacity, n), capacity);
  }

  lemma ProbationIsTheRest(s: Queues, capacity: nat)
    requires Inv(s, capacity)
    ensures Residents(s) - Elements(s.protected) == Elements(s.probation)
  {
    forall k | k in Elements(s.probation)
      ensures k !in Elements(s.protected)
    {
      assert k in s.probation;
    }
  }

  lemma {:induction false} AfterByArrival(keys: seq<Key>, capacity: nat, n: nat)
    requires n <= |keys|
    ensures ByArrival(After(keys, capacity, n), Arrivals(keys, capacity, n))
  {
    hide Inv, Step, Entering;
    if n > 0 {
      AfterByArrival(keys, capacity, n - 1);
      hide ByArrival;
      StepKeepsArrival(After(keys, capacity, n - 1), capacity, keys[n - 1], Arrivals(keys, capacity, n - 1));
    }
  }

  class SegmentedLru {
    const capacity: nat
    const protectedLimit: nat
    var probation: seq<Key>
    var protected: seq<Key>

    ghost function State(): Queues
      reads this
    {
      Queues(probation, protected)
    }

    ghost predicate Valid()
      reads this
    {
      Inv(State(), capacity) && protectedLimit == ProtectedLimit(capacity)
    }

    constructor (capacity: nat)
      ensures Valid() && this.capacity == capacity && State() == Queues([], [])
    {
      this.capacity := capacity;
      protectedLimit := 3 * capacity / 4;
      probation := [];
      protected := [];
    }

    method Access(key: Key) returns (hit: bool)
      requires Valid()
      modifies this
      ensures Valid()
      ensures hit == (key in old(Residents(State())))
      ensures State() == Step(old(State()), capacity, key)
    {
      StepKeepsInv(State(), capacity, key);
      if key in protected {
        protected := Without(protected, key) + [key];
        return true;
      }
      if key in probation {
        probation := Without(probation, key);
        protected := protected + [key];
        if |protected| > protectedLimit {
          var demoted := protected[0];
          protected := protected[1..];
          probation := probation + [demoted];
        }
        return true;
      }
      hit := false;
      if capacity == 0 {
        return;
      }
      if |protected| + |probation| == capacity {
        probation := probation[1..];
      }
      probation := probation + [key];
    }
  }
}
