/** The future-aware policy: resident next uses, and a lazily cleaned, bounded heap over them. */
module BeladyPolicy {
  import opened Demand

  /** A heap item, compared as Python compares the tuple (-next, key). */
  datatype Item = Item(negativeNext: int, key: Key)

  function ItemFor(key: Key, next: nat): Item {
    Item(0 - next, key)
  }

  predicate AtMost(a: Item, b: Item) {
    a.negativeNext < b.negativeNext || (a.negativeNext == b.negativeNext && a.key <= b.key)
  }

  ghost predicate IsVictim(resident: map<Key, nat>, v: Key) {
    && v in resident
    && forall w :: w in resident ==> resident[w] < resident[v] || (resident[w] == resident[v] && v <= w)
  }

  lemma {:induction false} VictimExists(resident: map<Key, nat>)
    requires |resident.Keys| > 0
    ensures exists v :: IsVictim(resident, v)
  {
    var k := AnyOf(resident.Keys);
    var rest := resident - {k};
    assert resident.Keys == rest.Keys + {k};
    if |rest.Keys| == 0 {
      assert rest.Keys == {};
      assert IsVictim(resident, k);
    } else {
      VictimExists(rest);
      var v :| IsVictim(rest, v);
      if resident[k] < resident[v] || (resident[k] == resident[v] && v <= k) {
        assert IsVictim(resident, v);
      } else {
        assert IsVictim(resident, k);
      }
    }
  }

  /** The resident used last; the smallest key among those never used again. */
  ghost function Victim(resident: map<Key, nat>): (v: Key)
    requires |resident.Keys| > 0
    ensures IsVictim(resident, v)
    ensures forall w :: IsVictim(resident, w) ==> w == v
  {
    VictimExists(resident);
    var v :| IsVictim(resident, v);
    v
  }

  ghost function AfterAccess(resident: map<Key, nat>, capacity: nat, key: Key, next: nat): map<Key, nat> {
    if capacity == 0 then resident
    else if key in resident || |resident.Keys| != capacity then resident[key := next]
    else (resident - {Victim(resident)})[key := next]
  }

  /** Next uses of the residents after the first `n` demands. */
  ghost function ResidentAfter(keys: seq<Key>, capacity: nat, n: nat): map<Key, nat>
    requires n <= |keys|
  {
    if n == 0 then map[]
    else AfterAccess(ResidentAfter(keys, capacity, n - 1), capacity, keys[n - 1], NextUse(keys, n, keys[n - 1]))
  }

  ghost function Caches(keys: seq<Key>, capacity: nat): Schedule {
    seq(|keys| + 1, i requires 0 <= i <= |keys| => ResidentAfter(keys, capacity, i).Keys)
  }

  lemma {:induction false} ResidentNextUses(keys: seq<Key>, capacity: nat, n: nat)
    requires n <= |keys|
    ensures var r := ResidentAfter(keys, capacity, n);
            |r.Keys| <= capacity && forall w :: w in r ==> r[w] == NextUse(keys, n, w)
  {
    if n > 0 {
      ResidentNextUses(keys, capacity, n - 1);
      var before, key := ResidentAfter(keys, capacity, n - 1), keys[n - 1];
      hide AfterAccess, NextUse;
      AccessFits(before, capacity, key, NextUse(keys, n, key));
      forall w | w in before && w != key
        ensures NextUse(keys, n, w) == NextUse(keys, n - 1, w)
      {
        LaterUse(keys, n - 1, w);
      }
    }
  }

  lemma LaterUse(keys: seq<Key>, i: nat, w: Key)
    requires i < |keys| && keys[i] != w
    ensures NextUse(keys, i, w) == NextUse(keys, i + 1, w)
  {
  }

  /** An access records the next use of its key, keeps the others', and never holds more than the slots. */
  lemma AccessFits(before: map<Key, nat>, capacity: nat, key: Key, next: nat)
    requires |before.Keys| <= capacity
    ensures var after := AfterAccess(before, capacity, key, next);
      && |after.Keys| <= capacity && (key in after ==> after[key] == next)
      && forall w :: w in after && w != key ==> w in before && after[w] == before[w]
  {
    var after := AfterAccess(before, capacity, key, next);
    if capacity == 0 {
      assert before.Keys == {};
    } else if key in before {
      assert after.Keys == before.Keys;
    } else if |before.Keys| < capacity {
      assert after.Keys == before.Keys + {key};
    } else {
      assert after.Keys == before.Keys - {Victim(before)} + {key};
    }
  }

  lemma AccessEvictsFarthest(keys: seq<Key>, capacity: nat, i: nat, before: map<Key, nat>, after: map<Key, nat>)
    requires i < |keys| && |before.Keys| <= capacity
    requires forall w :: w in before ==> before[w] == NextUse(keys, i, w)
    requires after == AfterAccess(before, capacity, keys[i], NextUse(keys, i + 1, keys[i]))
    ensures FarthestStep(keys, i, before.Keys, after.Keys, capacity)
  {
    if capacity == 0 {
    } else if keys[i] in before {
      assert after.Keys == before.Keys;
    } else if |before.Keys| < capacity {
      assert after.Keys == before.Keys + {keys[i]};
    } else {
      assert after.Keys == before.Keys - {Victim(before)} + {keys[i]};
    }
  }

  lemma EvictsFarthestAt(keys: seq<Key>, capacity: nat, i: nat)
    requires i < |keys|
    ensures FarthestStep(keys, i, ResidentAfter(keys, capacity, i).Keys, ResidentAfter(keys, capacity, i + 1).Keys,
                         capacity)
  {
    hide FarthestStep, AfterAccess, NextUse;
    ResidentNextUses(keys, capacity, i);
    AccessEvictsFarthest(keys, capacity, i, ResidentAfter(keys, capacity, i), ResidentAfter(keys, capacity, i + 1));
  }

  lemma StartsEmpty(keys: seq<Key>, capacity: nat)
    ensures Caches(keys, capacity)[0] == {}
  {
  }

  /** Driven over a whole sequence, the policy evicts the resident whose next use is farthest. */
  lemma EvictsFarthestResident(keys: seq<Key>, capacity: nat)
    ensures EvictsFarthest(keys, capacity, Caches(keys, capacity))
  {
    hide FarthestStep, ResidentAfter;
    var caches := Caches(keys, capacity);
    assert caches[0] == {} by { StartsEmpty(keys, capacity); }
    forall i | 0 <= i < |keys|
      ensures FarthestStep(keys, i, caches[i], caches[i + 1], capacity)
    {
      EvictsFarthestAt(keys, capacity, i);
    }
  }

  /** MIN: no mandatory-admission schedule with as many slots, or fewer, misses less at any prefix. */
  lemma BeladyIsMinimal(keys: seq<Key>, capacity: nat, otherCapacity: nat, other: Schedule, upto: nat)
    requires IsSchedule(keys, otherCapacity, other)
    requires otherCapacity <= capacity && upto <= |keys|
    ensures Misses(keys, Caches(keys, capacity), upto) <= Misses(keys, other, upto)
  {
    EvictsFarthestResident(keys, capacity);
    FarthestIsMinimal(keys, capacity, Caches(keys, capacity), otherCapacity, other, upto);
  }

  lemma CachesAreLazy(keys: seq<Key>, capacity: nat)
    ensures IsLazy(keys, capacity, Caches(keys, capacity))
    ensures IsSchedule(keys, capacity, Caches(keys, capacity))
  {
    EvictsFarthestResident(keys, capacity);
    FarthestIsLazy(keys, capacity, Caches(keys, capacity));
    LazyIsSchedule(keys, capacity, Caches(keys, capacity));
  }

  lemma MoreSlotsNeverMissMore(keys: seq<Key>, fewer: nat, more: nat, upto: nat)
    requires fewer <= more && upto <= |keys|
    ensures Misses(keys, Caches(keys, more), upto) <= Misses(keys, Caches(keys, fewer), upto)
  {
    CachesAreLazy(keys, fewer);
    BeladyIsMinimal(keys, more, fewer, Caches(keys, fewer), upto);
  }

  ghost predicate IsLeast(heap: multiset<Item>, e: Item) {
    e in heap && forall f :: f in heap ==> AtMost(e, f)
  }

  lemma {:induction false} LeastExists(heap: multiset<Item>)
    requires |heap| > 0
    ensures exists e :: IsLeast(heap, e)
  {
    var k :| k in heap;
    var rest := heap - multiset{k};
    assert forall f :: f in heap ==> f == k || f in rest;
    AtMostIsTotal(k, k);
    if |rest| == 0 {
      hide AtMost;
      assert IsLeast(heap, k);
    } else {
      LeastExists(rest);
      var e :| IsLeast(rest, e);
      AtMostIsTotal(e, k);
      hide AtMost;
      if AtMost(e, k) {
        assert IsLeast(heap, e);
      } else {
        forall f | f in heap
          ensures AtMost(k, f)
        {
          if f in rest {
            AtMostIsTransitive(k, e, f);
          }
        }
        assert IsLeast(heap, k);
      }
    }
  }

  lemma AtMostIsTotal(a: Item, b: Item)
    ensures AtMost(a, b) || AtMost(b, a)
  {
  }

  lemma AtMostIsTransitive(a: Item, b: Item, c: Item)
    requires AtMost(a, b) && AtMost(b, c)
    ensures AtMost(a, c)
  {
  }

  /** What `heapq.heappop` promises. */
  method PopLeast(heap: multiset<Item>) returns (least: Item, rest: multiset<Item>)
    requires |heap| > 0
    ensures IsLeast(heap, least)
    ensures rest == heap - multiset{least}
  {
    LeastExists(heap);
    least :| least in heap && forall f :: f in heap ==> AtMost(least, f);
    rest := heap - multiset{least};
  }

  function Items(resident: map<Key, nat>): set<Item> {
    set k | k in resident :: ItemFor(k, resident[k])
  }

  lemma {:induction false} ItemsCount(resident: map<Key, nat>)
    ensures |Items(resident)| == |resident.Keys|
  {
    if |resident.Keys| > 0 {
      var k := AnyOf(resident.Keys);
      var rest := resident - {k};
      assert resident.Keys == rest.Keys + {k};
      ItemsCount(rest);
      assert Items(resident) == Items(rest) + {ItemFor(k, resident[k])};
    } else {
      assert resident.Keys == {};
      assert Items(resident) == {};
    }
  }

  /** The next demand of every key demanded in keys[from..]. */
  ghost predicate IsFuture(keys: seq<Key>, from: nat, future: map<Key, nat>)
    requires from <= |keys|
  {
    forall k :: NextUse(keys, from, k) == if k in future then future[k] else |keys|
  }

  method NextUses(keys: seq<Key>) returns (uses: seq<nat>)
    ensures |uses| == |keys|
    ensures forall i :: 0 <= i < |keys| ==> uses[i] == NextUse(keys, i + 1, keys[i])
  {
    uses := seq(|keys|, _ => |keys|);
    var future: map<Key, nat> := map[];
    var i := |keys|;
    while i > 0
      invariant 0 <= i <= |keys| == |uses|
      invariant IsFuture(keys, i, future)
      invariant forall j :: i <= j < |keys| ==> uses[j] == NextUse(keys, j + 1, keys[j])
    {
      i := i - 1;
      var key := keys[i];
      assert NextUse(keys, i + 1, key) == if key in future then future[key] else |keys|;
      uses := uses[i := if key in future then future[key] else |keys|];
      future := future[key := i];
    }
  }

  class Belady {
    const capacity: nat
    const next: seq<nat>
    var resident: map<Key, nat>
    var heap: multiset<Item>

    /** Every resident's current item is on the heap; whatever else is there is stale. */
    ghost predicate Valid()
      reads this
    {
      && |resident.Keys| <= capacity
      && (forall k :: k in resident ==> ItemFor(k, resident[k]) in heap)
      && |heap| <= 2 * (if capacity == 0 then 1 else capacity)
    }

    constructor (capacity: nat, sequence: seq<Key>)
      ensures Valid() && this.capacity == capacity && resident == map[] && heap == multiset{}
      ensures |next| == |sequence|
      ensures forall i :: 0 <= i < |sequence| ==> next[i] == NextUse(sequence, i + 1, sequence[i])
    {
      var uses := NextUses(sequence);
      this.capacity := capacity;
      next := uses;
      resident := map[];
      heap := multiset{};
    }

    /** Pop until an item is some resident's current one; that resident leaves. */
    method Evict()
      requires Valid() && 0 < capacity == |resident.Keys|
      modifies this
      ensures Valid()
      ensures resident == old(resident) - {Victim(old(resident))}
      ensures |heap| < |old(heap)|
    {
      while true
        invariant resident == old(resident) && |heap| <= |old(heap)|
        invariant Valid()
        decreases |heap|
      {
        ghost var some := AnyOf(resident.Keys);
        assert ItemFor(some, resident[some]) in heap;
        var least, rest := PopLeast(heap);
        heap := rest;
        var victim := least.key;
        if victim in resident && resident[victim] == 0 - least.negativeNext {
          forall w | w in resident
            ensures resident[w] < resident[victim] || (resident[w] == resident[victim] && victim <= w)
          {
            assert AtMost(least, ItemFor(w, resident[w]));
          }
          assert IsVictim(resident, victim);
          resident := resident - {victim};
          break;
        }
      }
    }

    method Access(key: Key, position: nat) returns (hit: bool)
      requires Valid() && position < |next|
      modifies this
      ensures Valid()
      ensures hit == (key in old(resident))
      ensures resident == AfterAccess(old(resident), capacity, key, next[position])
    {
      hit := key in resident;
      if capacity == 0 {
        return;
      }
      if !hit && |resident| == capacity {
        Evict();
      }
      Record(key, next[position]);
    }

    /** Push the new item, and rebuild the heap when stale items outnumber the slots. */
    method Record(key: Key, use: nat)
      requires Valid() && 0 < capacity
      requires key in resident || |resident.Keys| < capacity
      modifies this
      ensures Valid()
      ensures resident == old(resident)[key := use]
    {
      var before := resident;
      resident := resident[key := use];
      assert resident.Keys == before.Keys + {key};
      heap := heap + multiset{ItemFor(key, use)};
      if |heap| > 2 * capacity {
        heap := multiset(Items(resident));
        ItemsCount(resident);
      }
    }
  }
}
