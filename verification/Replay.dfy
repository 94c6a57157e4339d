/** Replaying an accepted stream of acquire, pin and release requests at any capacity and policy. */
module Replay {
  import opened Common
  import opened Demand
  import opened LeaseCache
  import Oracle = BeladyPolicy
  import Objects = LeaseCacheObject

  datatype Kind = Acquire | Pin | Release

  datatype Request = Request(kind: Kind, key: Key, forward: nat)

  /** The replayed cache, and one tally per forward. */
  datatype Progress = Progress(cache: State, blocks: seq<Tally>)

  datatype Answer = Answer(blocks: seq<Tally>, decodeHits: nat, decodeMisses: nat, readBytes: nat, hitFraction: real)

  function Counted(blocks: seq<Tally>, forward: nat, hit: bool): seq<Tally>
    requires forward < |blocks|
  {
    blocks[forward := Plus(blocks[forward], hit)]
  }

  function Step(p: Progress, r: Request): (r': Result<Progress>)
    requires Inv(p.cache)
  {
    if r.kind == Acquire then
      var (cache, outcome) := Acquired(p.cache, r.key, None);
      if outcome.None? || r.forward >= |p.blocks| then Err
      else Ok(Progress(cache, Counted(p.blocks, r.forward, outcome.value.hit)))
    else
      var (cache, pins) := Leased(p.cache, r.key, r.kind == Release);
      if pins.None? then Err else Ok(p.(cache := cache))
  }

  lemma StepKeepsInv(p: Progress, r: Request)
    requires Inv(p.cache)
    ensures Step(p, r).Ok? ==> Inv(Step(p, r).value.cache)
  {
    if r.kind == Acquire {
      AcquireKeepsInv(p.cache, r.key, None);
    } else if Leased(p.cache, r.key, r.kind == Release).1.Some? {
      LeaseKeepsInv(p.cache, r.key, r.kind == Release);
    }
  }

  lemma StepAcquires(p: Progress, r: Request)
    requires Inv(p.cache) && r.kind == Acquire && Step(p, r).Ok?
    ensures Acquired(p.cache, r.key, None).1.Some? && Step(p, r).value.cache == Acquired(p.cache, r.key, None).0
  {
  }

  function Start(capacity: nat, policy: Policy, forwards: nat): Progress {
    Progress(Fresh(capacity, policy), seq(forwards, _ => Tally(0, 0)))
  }

  /** A request after an error is never reached. */
  ghost function Advance(before: Result<Progress>, r: Request): Result<Progress> {
    if before.Ok? && Inv(before.value.cache) then Step(before.value, r) else Err
  }

  /** The first `n` requests, or an error as soon as one raises. */
  ghost function Fold(requests: seq<Request>, n: nat, capacity: nat, policy: Policy, forwards: nat): Result<Progress>
    requires n <= |requests|
  {
    if n == 0 then Ok(Start(capacity, policy, forwards))
    else Advance(Fold(requests, n - 1, capacity, policy, forwards), requests[n - 1])
  }

  function HitSum(blocks: seq<Tally>): nat {
    if blocks == [] then 0 else HitSum(blocks[..|blocks| - 1]) + blocks[|blocks| - 1].hits
  }

  function MissSum(blocks: seq<Tally>): nat {
    if blocks == [] then 0 else MissSum(blocks[..|blocks| - 1]) + blocks[|blocks| - 1].misses
  }

  /** Totals leave the first forward, the prefill, out; with no demand after it there is no fraction. */
  function Finish(p: Progress): Result<Answer> {
    if PinSum(p.cache.slots) != 0 || p.blocks == [] then Err
    else
      var hits, misses := HitSum(p.blocks[1..]), MissSum(p.blocks[1..]);
      var share := HitFraction(hits, misses);
      if share.None? then Err else Ok(Answer(p.blocks, hits, misses, misses * PAYLOAD_BYTES, share.value))
  }

  ghost function Simulation(requests: seq<Request>, forwards: nat, capacity: nat, policy: Policy): Result<Answer> {
    if !(1 <= capacity <= 4096) then Err
    else
      var end := Fold(requests, |requests|, capacity, policy, forwards);
      if end.Err? then Err else Finish(end.value)
  }

  method Simulate(requests: seq<Request>, forwards: nat, capacity: nat, policy: Policy) returns (answer: Result<Answer>)
    ensures answer == Simulation(requests, forwards, capacity, policy)
  {
    hide Step, Inv;
    if !(1 <= capacity <= 4096) {
      return Err;
    }
    var cache := new Objects.Cache(capacity, policy);
    var blocks := seq(forwards, _ => Tally(0, 0));
    var ok := true;
    var i := 0;
    while i < |requests| && ok
      invariant i <= |requests|
      invariant fresh(cache) && fresh(cache.slots) && fresh(cache.layerHits) && fresh(cache.layerMisses)
      invariant ok ==> cache.Valid()
      invariant ok ==> Fold(requests, i, capacity, policy, forwards) == Ok(Progress(cache.Value(), blocks))
      invariant !ok ==> Fold(requests, i, capacity, policy, forwards).Err?
      decreases |requests| - i
    {
      ok, blocks := SimulateOne(cache, blocks, requests[i]);
      i := i + 1;
    }
    if !ok {
      FoldStaysErr(requests, i, |requests|, capacity, policy, forwards);
      return Err;
    }
    var pins := cache.Pins();
    if pins != 0 || blocks == [] {
      return Err;
    }
    var hits, misses := HitSum(blocks[1..]), MissSum(blocks[1..]);
    var share := HitFraction(hits, misses);
    answer := if share.None? then Err else Ok(Answer(blocks, hits, misses, misses * PAYLOAD_BYTES, share.value));
  }

  method SimulateOne(cache: Objects.Cache, blocks: seq<Tally>, r: Request) returns (ok: bool, blocks': seq<Tally>)
    requires cache.Valid()
    modifies cache, cache.slots, cache.layerHits, cache.layerMisses
    ensures ok <==> Step(Progress(old(cache.Value()), blocks), r).Ok?
    ensures ok ==> cache.Valid()
    ensures ok ==> Step(Progress(old(cache.Value()), blocks), r) == Ok(Progress(cache.Value(), blocks'))
  {
    blocks' := blocks;
    if r.kind == Acquire {
      var outcome := cache.Acquire(r.key, None);
      ok := outcome.Some? && r.forward < |blocks|;
      if ok {
        blocks' := Counted(blocks, r.forward, outcome.value.hit);
      }
    } else {
      var pins := cache.Lease(r.key, r.kind == Release);
      ok := pins.Some?;
    }
  }

  lemma {:induction false} FoldStaysErr(requests: seq<Request>, n: nat, m: nat, capacity: nat, policy: Policy,
                                        forwards: nat)
    requires n <= m <= |requests|
    requires Fold(requests, n, capacity, policy, forwards).Err?
    ensures Fold(requests, m, capacity, policy, forwards).Err?
  {
    hide Step;
    if n < m {
      FoldStaysErr(requests, n, m - 1, capacity, policy, forwards);
    }
  }

  // ---------- the lease protocol ----------

  ghost function LiveAfter(live: multiset<Key>, r: Request): multiset<Key> {
    match r.kind
    case Acquire => live
    case Pin => live + multiset{r.key}
    case Release => live - multiset{r.key}
  }

  /** One occurrence per lease taken and not yet released by the first `n` requests. */
  ghost function Live(requests: seq<Request>, n: nat): multiset<Key>
    requires n <= |requests|
  {
    if n == 0 then multiset{} else LiveAfter(Live(requests, n - 1), requests[n - 1])
  }

  lemma StepKeepsLeases(p: Progress, r: Request, live: multiset<Key>)
    requires Inv(p.cache) && Holds(p.cache, live) && Step(p, r).Ok?
    ensures var s := Step(p, r).value.cache;
      Inv(s) && |s.slots| == |p.cache.slots| && s.policy == p.cache.policy && Holds(s, LiveAfter(live, r))
  {
    StepKeepsInv(p, r);
    SelectIsFair(p.cache);
    if r.kind == Acquire {
      AcquireKeepsLeases(p.cache, r.key, None, live);
    } else {
      LeaseServedIff(p.cache, r.key, r.kind == Release, live);
      LeaseKeepsLeases(p.cache, r.key, r.kind == Release, live);
    }
  }

  /** However far a stream replays, the pins are the leases it has taken and not released. */
  lemma {:induction false} FoldKeepsLeases(requests: seq<Request>, n: nat, capacity: nat, policy: Policy, forwards: nat)
    requires n <= |requests| && capacity > 0 && Fold(requests, n, capacity, policy, forwards).Ok?
    ensures var s := Fold(requests, n, capacity, policy, forwards).value.cache;
      Inv(s) && |s.slots| == capacity && s.policy == policy && Holds(s, Live(requests, n))
  {
    hide Step, Inv, Holds;
    if n == 0 {
      FreshHolds(capacity, policy);
    } else {
      FoldKeepsLeases(requests, n - 1, capacity, policy, forwards);
      StepKeepsLeases(Fold(requests, n - 1, capacity, policy, forwards).value, requests[n - 1], Live(requests, n - 1));
    }
  }

  /** What a request owes the protocol, given those around it, when at most `window` leases may live. */
  ghost predicate LegalAt(requests: seq<Request>, i: nat, forwards: nat, window: nat)
    requires i < |requests|
  {
    var r := requests[i];
    r.forward < forwards &&
    match r.kind
    case Acquire => ValidKey(r.key) && i + 1 < |requests| && requests[i + 1].kind == Pin && requests[i + 1].key == r.key
    case Pin =>
      && i > 0 && requests[i - 1].kind == Acquire && requests[i - 1].key == r.key
      && |Live(requests, i + 1)| <= window
    case Release => r.key in Live(requests, i)
  }

  /** Every acquisition is pinned at once, no more than `window` leases live, and all are released. */
  ghost predicate Legal(requests: seq<Request>, forwards: nat, window: nat) {
    && (forall i {:trigger LegalAt(requests, i, forwards, window)} ::
          0 <= i < |requests| ==> LegalAt(requests, i, forwards, window))
    && Live(requests, |requests|) == multiset{}
  }

  ghost predicate InStep(p: Progress, requests: seq<Request>, n: nat, capacity: nat, policy: Policy, forwards: nat)
    requires n <= |requests|
  {
    && Inv(p.cache) && |p.cache.slots| == capacity && p.cache.policy == policy
    && Holds(p.cache, Live(requests, n))
    && |p.blocks| == forwards
    && (n > 0 && requests[n - 1].kind == Acquire ==> requests[n - 1].key in p.cache.lookup)
  }

  /** Whether `capacity` slots can serve request `i`: its record is leased, or not all of them are. */
  ghost predicate Served(requests: seq<Request>, i: nat, capacity: nat)
    requires i < |requests|
  {
    requests[i].kind == Acquire ==>
      requests[i].key in Live(requests, i) || |Leaseholders(Live(requests, i))| < capacity
  }

  lemma AcquireInStep(p: Progress, requests: seq<Request>, n: nat, capacity: nat, policy: Policy, forwards: nat)
    requires n < |requests| && InStep(p, requests, n, capacity, policy, forwards)
    requires requests[n].kind == Acquire && ValidKey(requests[n].key) && requests[n].forward < forwards
    ensures Step(p, requests[n]).Ok? <==> Served(requests, n, capacity)
    ensures Step(p, requests[n]).Ok? ==>
              InStep(Step(p, requests[n]).value, requests, n + 1, capacity, policy, forwards)
  {
    var r := requests[n];
    AcquireServedIff(p.cache, r.key, None, Live(requests, n));
    if Step(p, r).Ok? {
      AcquireKeepsInv(p.cache, r.key, None);
      AcquireKeepsLeases(p.cache, r.key, None, Live(requests, n));
      SelectIsFair(p.cache);
    }
  }

  lemma LeaseInStep(p: Progress, requests: seq<Request>, n: nat, capacity: nat, policy: Policy, forwards: nat)
    requires n < |requests| && InStep(p, requests, n, capacity, policy, forwards)
    requires requests[n].kind == Pin ==> requests[n].key in p.cache.lookup
    requires requests[n].kind == Release ==> requests[n].key in Live(requests, n)
    requires requests[n].kind != Acquire
    ensures Step(p, requests[n]).Ok?
    ensures InStep(Step(p, requests[n]).value, requests, n + 1, capacity, policy, forwards)
  {
    var r := requests[n];
    LeaseKeepsLeases(p.cache, r.key, r.kind == Release, Live(requests, n));
    LeaseKeepsInv(p.cache, r.key, r.kind == Release);
  }

  lemma StartInStep(requests: seq<Request>, capacity: nat, policy: Policy, forwards: nat)
    requires 0 < capacity
    ensures InStep(Start(capacity, policy, forwards), requests, 0, capacity, policy, forwards)
  {
    hide Inv;
    FreshHolds(capacity, policy);
  }

  lemma StepInStep(p: Progress, requests: seq<Request>, n: nat, capacity: nat, policy: Policy, forwards: nat,
                   window: nat)
    requires n < |requests| && InStep(p, requests, n, capacity, policy, forwards)
    requires LegalAt(requests, n, forwards, window)
    ensures Inv(p.cache)
    ensures Step(p, requests[n]).Ok? <==> Served(requests, n, capacity)
    ensures Step(p, requests[n]).Ok? ==>
              InStep(Step(p, requests[n]).value, requests, n + 1, capacity, policy, forwards)
  {
    hide Step, Inv, Served, Live;
    if requests[n].kind == Acquire {
      AcquireInStep(p, requests, n, capacity, policy, forwards);
    } else {
      LeaseInStep(p, requests, n, capacity, policy, forwards);
      LeasesAlwaysServed(requests, n, capacity);
    }
  }

  /** A legal stream replays exactly as far as its acquisitions can be served, under either policy. */
  lemma {:induction false} ReplaysIffServed(requests: seq<Request>, forwards: nat, window: nat, n: nat, capacity: nat,
                                            policy: Policy)
    requires Legal(requests, forwards, window) && n <= |requests| && 0 < capacity
    ensures var r := Fold(requests, n, capacity, policy, forwards);
      && (r.Ok? <==> forall i :: 0 <= i < n ==> Served(requests, i, capacity))
      && (r.Ok? ==> InStep(r.value, requests, n, capacity, policy, forwards))
  {
    hide Step, Inv, Served, LegalAt, Live, InStep;
    if n == 0 {
      StartInStep(requests, capacity, policy, forwards);
    } else {
      ReplaysIffServed(requests, forwards, window, n - 1, capacity, policy);
      var before := Fold(requests, n - 1, capacity, policy, forwards);
      assert LegalAt(requests, n - 1, forwards, window);
      if before.Ok? {
        StepInStep(before.value, requests, n - 1, capacity, policy, forwards, window);
      }
    }
  }

  lemma LeasesAlwaysServed(requests: seq<Request>, i: nat, capacity: nat)
    requires i < |requests| && requests[i].kind != Acquire
    ensures Served(requests, i, capacity)
  {
  }

  lemma {:induction false} FewerHoldersThanLeases(live: multiset<Key>)
    ensures |Leaseholders(live)| <= |live|
    decreases |live|
  {
    if |live| > 0 {
      var k := AnyIn(live);
      var rest := live - multiset{k};
      FewerHoldersThanLeases(rest);
      assert Leaseholders(live) == Leaseholders(rest) + {k};
    } else {
      assert Leaseholders(live) == {};
    }
  }

  /** As many slots as the lease window always serve: the pin that follows is already counted in it. */
  lemma WindowServes(requests: seq<Request>, forwards: nat, window: nat, i: nat, capacity: nat)
    requires Legal(requests, forwards, window) && i < |requests| && window <= capacity
    ensures Served(requests, i, capacity)
  {
    if requests[i].kind == Acquire {
      assert LegalAt(requests, i, forwards, window);
      assert LegalAt(requests, i + 1, forwards, window);
      assert Live(requests, i + 1) == Live(requests, i);
      assert |Live(requests, i + 2)| == |Live(requests, i)| + 1;
      FewerHoldersThanLeases(Live(requests, i));
    }
  }

  /** Before request `i`, no more records are leased than there are slots. */
  ghost predicate Fits(requests: seq<Request>, i: nat, capacity: nat)
    requires i <= |requests|
  {
    |Leaseholders(Live(requests, i))| <= capacity
  }

  lemma LeaseholdersNext(live: multiset<Key>, key: Key)
    ensures Leaseholders(live + multiset{key}) == Leaseholders(live) + {key}
    ensures Leaseholders(live - multiset{key}) <= Leaseholders(live)
  {
  }

  /** An acquisition and the pin that must follow it. */
  lemma PinFollows(requests: seq<Request>, forwards: nat, window: nat, i: nat)
    requires Legal(requests, forwards, window) && i < |requests| && requests[i].kind == Acquire
    ensures i + 2 <= |requests| && Live(requests, i + 1) == Live(requests, i)
    ensures Live(requests, i + 2) == Live(requests, i) + multiset{requests[i].key}
  {
    assert LegalAt(requests, i, forwards, window);
  }

  lemma ServedIfFits(requests: seq<Request>, forwards: nat, window: nat, i: nat, capacity: nat)
    requires Legal(requests, forwards, window) && i < |requests|
    requires forall j :: 0 <= j <= |requests| ==> Fits(requests, j, capacity)
    ensures Served(requests, i, capacity)
  {
    if requests[i].kind == Acquire {
      PinFollows(requests, forwards, window, i);
      LeaseholdersNext(Live(requests, i), requests[i].key);
      assert Fits(requests, i + 2, capacity);
      hide Live, Legal;
    }
  }

  lemma {:induction false} FitsIfServed(requests: seq<Request>, forwards: nat, window: nat, i: nat, capacity: nat)
    requires Legal(requests, forwards, window) && i <= |requests|
    requires forall j :: 0 <= j < i ==> Served(requests, j, capacity)
    ensures Fits(requests, i, capacity)
  {
    hide Live, Legal, Served, Leaseholders;
    if i == 0 {
      NothingFits(requests, capacity);
    } else {
      FitsIfServed(requests, forwards, window, i - 1, capacity);
      if requests[i - 1].kind == Pin {
        PinWasServed(requests, forwards, window, i - 1, capacity);
      }
      LiveLast(requests, i);
      FitsNext(Live(requests, i - 1), requests[i - 1], capacity);
    }
  }

  lemma NothingFits(requests: seq<Request>, capacity: nat)
    ensures Fits(requests, 0, capacity)
  {
    assert Leaseholders(multiset{}) == {};
  }

  lemma LiveLast(requests: seq<Request>, i: nat)
    requires 0 < i <= |requests|
    ensures Live(requests, i) == LiveAfter(Live(requests, i - 1), requests[i - 1])
  {
  }

  /** A pin follows its acquisition: served, that found its record leased or a slot to spare. */
  lemma PinWasServed(requests: seq<Request>, forwards: nat, window: nat, i: nat, capacity: nat)
    requires Legal(requests, forwards, window) && i < |requests| && requests[i].kind == Pin
    requires forall j :: 0 <= j < i ==> Served(requests, j, capacity)
    ensures requests[i].key in Live(requests, i) || |Leaseholders(Live(requests, i))| < capacity
  {
    assert LegalAt(requests, i, forwards, window);
    assert Served(requests, i - 1, capacity);
    LiveLast(requests, i);
    hide Live;
  }

  lemma FitsNext(live: multiset<Key>, r: Request, capacity: nat)
    requires |Leaseholders(live)| <= capacity
    requires r.kind == Pin ==> r.key in live || |Leaseholders(live)| < capacity
    ensures |Leaseholders(LiveAfter(live, r))| <= capacity
  {
    LeaseholdersNext(live, r.key);
    Subset(Leaseholders(live - multiset{r.key}), Leaseholders(live));
    assert r.key in live ==> Leaseholders(live) + {r.key} == Leaseholders(live);
    hide Leaseholders;
  }

  /** A legal stream is served throughout exactly when the records leased at once never outnumber the slots. */
  lemma ServedIffFits(requests: seq<Request>, forwards: nat, window: nat, capacity: nat)
    requires Legal(requests, forwards, window)
    ensures (forall i :: 0 <= i < |requests| ==> Served(requests, i, capacity))
       <==> (forall i :: 0 <= i <= |requests| ==> Fits(requests, i, capacity))
  {
    hide Legal, Served, Fits;
    if forall i :: 0 <= i < |requests| ==> Served(requests, i, capacity) {
      forall i | 0 <= i <= |requests|
        ensures Fits(requests, i, capacity)
      {
        FitsIfServed(requests, forwards, window, i, capacity);
      }
    }
    if forall i :: 0 <= i <= |requests| ==> Fits(requests, i, capacity) {
      forall i | 0 <= i < |requests|
        ensures Served(requests, i, capacity)
      {
        ServedIfFits(requests, forwards, window, i, capacity);
      }
    }
  }

  // ---------- what every replay conserves ----------

  ghost function Demands(requests: seq<Request>, n: nat, forward: nat): nat
    requires n <= |requests|
  {
    if n == 0 then 0
    else
      Demands(requests, n - 1, forward)
      + if requests[n - 1].kind == Acquire && requests[n - 1].forward == forward then 1 else 0
  }

  lemma StepConserves(p: Progress, r: Request)
    requires Inv(p.cache) && Step(p, r).Ok?
    ensures var p' := Step(p, r).value;
      && |p'.blocks| == |p.blocks|
      && (r.kind == Acquire ==> r.forward < |p.blocks|)
      && forall f :: 0 <= f < |p.blocks| ==>
           p'.blocks[f].hits + p'.blocks[f].misses
           == p.blocks[f].hits + p.blocks[f].misses + (if r.kind == Acquire && r.forward == f then 1 else 0)
  {
  }

  /** Whatever the capacity and policy, a forward's hits and misses add up to its demands. */
  lemma {:induction false} ForwardsConserved(requests: seq<Request>, n: nat, capacity: nat, policy: Policy,
                                             forwards: nat)
    requires n <= |requests| && Fold(requests, n, capacity, policy, forwards).Ok?
    ensures var blocks := Fold(requests, n, capacity, policy, forwards).value.blocks;
      |blocks| == forwards
      && forall f :: 0 <= f < forwards ==> blocks[f].hits + blocks[f].misses == Demands(requests, n, f)
  {
    hide Step, Inv;
    if n > 0 {
      ForwardsConserved(requests, n - 1, capacity, policy, forwards);
      StepConserves(Fold(requests, n - 1, capacity, policy, forwards).value, requests[n - 1]);
    }
  }

  lemma {:induction false} SumsPositive(blocks: seq<Tally>, i: nat)
    requires i < |blocks| && blocks[i].hits + blocks[i].misses > 0
    ensures HitSum(blocks) + MissSum(blocks) > 0
  {
    if i < |blocks| - 1 {
      SumsPositive(blocks[..|blocks| - 1], i);
    }
  }

  /** A legal stream with a demand after the prefill has an answer exactly when it is always served. */
  lemma AnswersIffServed(requests: seq<Request>, forwards: nat, window: nat, f: nat, capacity: nat, policy: Policy)
    requires Legal(requests, forwards, window)
    requires 0 < f < forwards && Demands(requests, |requests|, f) > 0
    requires 1 <= capacity <= 4096
    ensures Simulation(requests, forwards, capacity, policy).Ok?
       <==> forall i :: 0 <= i < |requests| ==> Served(requests, i, capacity)
    ensures window <= capacity ==> Simulation(requests, forwards, capacity, policy).Ok?
  {
    hide Fold, Inv, Served;
    ReplaysIffServed(requests, forwards, window, |requests|, capacity, policy);
    var end := Fold(requests, |requests|, capacity, policy, forwards);
    if end.Ok? {
      ForwardsConserved(requests, |requests|, capacity, policy, forwards);
      SumsPositive(end.value.blocks[1..], f - 1);
    }
    if window <= capacity {
      forall i | 0 <= i < |requests|
        ensures Served(requests, i, capacity)
      {
        WindowServes(requests, forwards, window, i, capacity);
      }
    }
  }

  // ---------- no replay beats the oracle on its own demand order ----------

  ghost function KeysBetween(requests: seq<Request>, m: nat, n: nat): seq<Key>
    requires m <= n <= |requests|
    decreases n
  {
    if n == m then []
    else KeysBetween(requests, m, n - 1) + if requests[n - 1].kind == Acquire then [requests[n - 1].key] else []
  }

  ghost function Residents(p: Result<Progress>): set<Key> {
    if p.Ok? then p.value.cache.lookup.Keys else {}
  }

  /** The residents before each acquisition and after the last. */
  ghost function CachesOf(requests: seq<Request>, n: nat, capacity: nat, policy: Policy, forwards: nat): Schedule
    requires n <= |requests|
  {
    if n == 0 then [{}]
    else
      CachesOf(requests, n - 1, capacity, policy, forwards)
      + if requests[n - 1].kind == Acquire then [Residents(Fold(requests, n, capacity, policy, forwards))] else []
  }

  lemma StepMovesResidents(p: Progress, r: Request)
    requires Inv(p.cache) && Step(p, r).Ok?
    ensures var p' := Step(p, r).value;
      && Inv(p'.cache) && |p'.cache.slots| == |p.cache.slots|
      && (r.kind != Acquire ==>
            p'.cache.lookup == p.cache.lookup && p'.cache.hits == p.cache.hits && p'.cache.misses == p.cache.misses)
      && (r.kind == Acquire ==>
            && Admits(p.cache.lookup.Keys, r.key, p'.cache.lookup.Keys, |p.cache.slots|)
            && (r.key in p.cache.lookup.Keys ==> p'.cache.lookup == p.cache.lookup)
            && p'.cache.hits == p.cache.hits + (if r.key in p.cache.lookup.Keys then 1 else 0)
            && p'.cache.misses == p.cache.misses + (if r.key in p.cache.lookup.Keys then 0 else 1))
  {
    StepKeepsInv(p, r);
    if r.kind == Acquire {
      AcquireMovesResidents(p.cache, r.key);
    }
  }

  lemma AcquireMovesResidents(s: State, key: Key)
    requires Inv(s) && Acquired(s, key, None).1.Some?
    ensures var s' := Acquired(s, key, None).0;
      && |s'.slots| == |s.slots|
      && Admits(s.lookup.Keys, key, s'.lookup.Keys, |s.slots|)
      && (key in s.lookup.Keys ==> s'.lookup == s.lookup)
      && s'.hits == s.hits + (if key in s.lookup.Keys then 1 else 0)
      && s'.misses == s.misses + (if key in s.lookup.Keys then 0 else 1)
  {
    AcquireKeepsInv(s, key, None);
    var s' := Acquired(s, key, None).0;
    Occupancy(s'.slots, s'.lookup);
    SelectIsFair(s);
    if key !in s.lookup {
      ReindexKeys(s.slots, s.lookup, Select(s).selected.value, key);
    }
  }

  lemma {:induction false} MissesOfPrefix(keys: seq<Key>, caches: Schedule, more: seq<Key>, later: Schedule, upto: nat)
    requires upto <= |keys| < |caches| && |more| == |later|
    ensures Misses(keys + more, caches + later, upto) == Misses(keys, caches, upto)
  {
    if upto > 0 {
      MissesOfPrefix(keys, caches, more, later, upto - 1);
      assert (keys + more)[upto - 1] == keys[upto - 1] && (caches + later)[upto - 1] == caches[upto - 1];
    }
  }

  lemma ExtendSchedule(keys: seq<Key>, capacity: nat, caches: Schedule, key: Key, after: set<Key>)
    requires IsSchedule(keys, capacity, caches) && Admits(caches[|keys|], key, after, capacity)
    ensures IsSchedule(keys + [key], capacity, caches + [after])
    ensures Misses(keys + [key], caches + [after], |keys| + 1)
         == Misses(keys, caches, |keys|) + if key in caches[|keys|] then 0 else 1
  {
    var keys', caches' := keys + [key], caches + [after];
    forall i | 0 <= i < |keys'|
      ensures Admits(caches'[i], keys'[i], caches'[i + 1], capacity)
    {
      if i < |keys| {
        assert Admits(caches[i], keys[i], caches[i + 1], capacity);
      }
    }
    MissesOfPrefix(keys, caches, [key], [after], |keys|);
  }

  /** Under any leases, a replay's residents form a mandatory-admission schedule of its own demands. */
  lemma {:induction false} ReplayIsSchedule(requests: seq<Request>, n: nat, capacity: nat, policy: Policy,
                                            forwards: nat)
    requires n <= |requests| && capacity > 0 && Fold(requests, n, capacity, policy, forwards).Ok?
    ensures var p := Fold(requests, n, capacity, policy, forwards);
            var keys, caches := KeysBetween(requests, 0, n), CachesOf(requests, n, capacity, policy, forwards);
      && Inv(p.value.cache) && |p.value.cache.slots| == capacity
      && IsSchedule(keys, capacity, caches)
      && caches[|keys|] == Residents(p)
      && Misses(keys, caches, |keys|) == p.value.cache.misses
      && p.value.cache.hits + p.value.cache.misses == |keys|
  {
    hide Step, Inv, IsSchedule, Admits;
    if n == 0 {
      FreshHolds(capacity, policy);
      EmptySchedule(capacity);
    } else {
      ReplayIsSchedule(requests, n - 1, capacity, policy, forwards);
      var p, r := Fold(requests, n - 1, capacity, policy, forwards).value, requests[n - 1];
      StepMovesResidents(p, r);
      if r.kind == Acquire {
        ExtendSchedule(KeysBetween(requests, 0, n - 1), capacity, CachesOf(requests, n - 1, capacity, policy, forwards),
                       r.key, Residents(Fold(requests, n, capacity, policy, forwards)));
      } else {
        assert KeysBetween(requests, 0, n) == KeysBetween(requests, 0, n - 1);
        assert CachesOf(requests, n, capacity, policy, forwards)
            == CachesOf(requests, n - 1, capacity, policy, forwards);
      }
    }
  }

  lemma EmptySchedule(capacity: nat)
    ensures IsSchedule([], capacity, [{}])
  {
  }

  /** Belady over the captured order reads no more than any lease-aware replay of it. */
  lemma OracleBoundsReplay(requests: seq<Request>, capacity: nat, policy: Policy, forwards: nat)
    requires capacity > 0 && Fold(requests, |requests|, capacity, policy, forwards).Ok?
    ensures var keys := KeysBetween(requests, 0, |requests|);
      Misses(keys, Oracle.Caches(keys, capacity), |keys|)
      <= Fold(requests, |requests|, capacity, policy, forwards).value.cache.misses
  {
    hide Fold;
    ReplayIsSchedule(requests, |requests|, capacity, policy, forwards);
    var keys := KeysBetween(requests, 0, |requests|);
    Oracle.BeladyIsMinimal(keys, capacity, capacity, CachesOf(requests, |requests|, capacity, policy, forwards),
                           |keys|);
  }

  // ---------- what an answer counts ----------

  /** The acquisitions of the forwards after the first. */
  ghost function LaterDemands(requests: seq<Request>, n: nat): nat
    requires n <= |requests|
  {
    if n == 0 then 0
    else LaterDemands(requests, n - 1) + if requests[n - 1].kind == Acquire && requests[n - 1].forward > 0 then 1 else 0
  }

  /** The acquisitions of one forward that found their record resident. */
  ghost function Found(requests: seq<Request>, n: nat, forward: nat, capacity: nat, policy: Policy, forwards: nat): nat
    requires n <= |requests|
  {
    if n == 0 then 0
    else
      var r := requests[n - 1];
      Found(requests, n - 1, forward, capacity, policy, forwards)
      + if r.kind == Acquire && r.forward == forward
           && r.key in Residents(Fold(requests, n - 1, capacity, policy, forwards)) then 1 else 0
  }

  lemma {:induction false} HitSumBump(blocks: seq<Tally>, f: nat, hit: bool)
    requires f < |blocks|
    ensures HitSum(Counted(blocks, f, hit)) == HitSum(blocks) + if hit then 1 else 0
    ensures MissSum(Counted(blocks, f, hit)) == MissSum(blocks) + if hit then 0 else 1
  {
    var n := |blocks| - 1;
    if f < n {
      HitSumBump(blocks[..n], f, hit);
      assert Counted(blocks, f, hit)[..n] == Counted(blocks[..n], f, hit);
    } else {
      assert Counted(blocks, f, hit)[..n] == blocks[..n];
    }
  }

  lemma {:induction false} SumsSplitFirst(blocks: seq<Tally>)
    requires blocks != []
    ensures HitSum(blocks) == blocks[0].hits + HitSum(blocks[1..])
    ensures MissSum(blocks) == blocks[0].misses + MissSum(blocks[1..])
  {
    var n := |blocks| - 1;
    if n > 0 {
      SumsSplitFirst(blocks[..n]);
      assert blocks[..n][1..] == blocks[1..][..n - 1];
    }
  }

  lemma StepCounts(p: Progress, r: Request)
    requires Inv(p.cache) && Step(p, r).Ok?
    ensures var p' := Step(p, r).value;
      && p'.cache.hits - HitSum(p'.blocks) == p.cache.hits - HitSum(p.blocks)
      && p'.cache.misses - MissSum(p'.blocks) == p.cache.misses - MissSum(p.blocks)
      && |p'.blocks| == |p.blocks|
      && forall f :: 0 <= f < |p.blocks| ==>
           p'.blocks[f].hits == p.blocks[f].hits
             + if r.kind == Acquire && r.forward == f && r.key in p.cache.lookup.Keys then 1 else 0
  {
    StepMovesResidents(p, r);
    if r.kind == Acquire {
      var hit := Acquired(p.cache, r.key, None).1.value.hit;
      HitSumBump(p.blocks, r.forward, hit);
      assert hit <==> r.key in p.cache.lookup.Keys;
      hide Acquired, HitSum, MissSum;
    }
  }

  lemma {:induction false} ZeroSums(n: nat)
    ensures HitSum(seq(n, _ => Tally(0, 0))) == 0 && MissSum(seq(n, _ => Tally(0, 0))) == 0
  {
    if n > 0 {
      ZeroSums(n - 1);
      assert seq(n, _ => Tally(0, 0))[..n - 1] == seq(n - 1, _ => Tally(0, 0));
    }
  }

  /** The forwards' counts add up to the cache's, and each forward's hits are its demands found resident. */
  lemma {:induction false} FoldCounts(requests: seq<Request>, n: nat, capacity: nat, policy: Policy, forwards: nat)
    requires n <= |requests| && Fold(requests, n, capacity, policy, forwards).Ok?
    ensures var p := Fold(requests, n, capacity, policy, forwards).value;
      && |p.blocks| == forwards && p.cache.hits == HitSum(p.blocks) && p.cache.misses == MissSum(p.blocks)
      && forall f {:trigger p.blocks[f]} :: 0 <= f < forwards ==>
           p.blocks[f].hits == Found(requests, n, f, capacity, policy, forwards)
  {
    hide Step, Inv, HitSum, MissSum;
    if n == 0 {
      ZeroSums(forwards);
    } else {
      FoldCounts(requests, n - 1, capacity, policy, forwards);
      StepCounts(Fold(requests, n - 1, capacity, policy, forwards).value, requests[n - 1]);
    }
  }

  lemma {:induction false} LaterAreNotFirst(requests: seq<Request>, n: nat)
    requires n <= |requests|
    ensures LaterDemands(requests, n) + Demands(requests, n, 0) == |KeysBetween(requests, 0, n)|
  {
    if n > 0 {
      LaterAreNotFirst(requests, n - 1);
    }
  }

  lemma FinishCounts(p: Progress)
    requires Finish(p).Ok?
    ensures p.blocks != []
    ensures var answer := Finish(p).value;
      && answer.blocks == p.blocks
      && answer.decodeHits == HitSum(p.blocks) - p.blocks[0].hits
      && answer.decodeMisses == MissSum(p.blocks) - p.blocks[0].misses
      && answer.decodeHits + answer.decodeMisses > 0
      && answer.readBytes == answer.decodeMisses * PAYLOAD_BYTES
      && answer.hitFraction * (answer.decodeHits + answer.decodeMisses) as real == answer.decodeHits as real
  {
    SumsSplitFirst(p.blocks);
    hide HitSum, MissSum, PinSum;
  }

  /**
   * An answer counts every demand after the prefill once: its hits and misses are the cache's own without those of
   * the prefill, its bytes those of its misses, and its fraction the share of its hits.
   */
  lemma AnswerCounts(requests: seq<Request>, forwards: nat, capacity: nat, policy: Policy)
    requires Simulation(requests, forwards, capacity, policy).Ok?
    ensures Fold(requests, |requests|, capacity, policy, forwards).Ok?
    ensures var cache := Fold(requests, |requests|, capacity, policy, forwards).value.cache;
      var answer := Simulation(requests, forwards, capacity, policy).value;
      && |answer.blocks| == forwards > 0
      && answer.decodeHits == cache.hits - answer.blocks[0].hits
      && answer.decodeMisses == cache.misses - answer.blocks[0].misses
      && answer.decodeHits + answer.decodeMisses == LaterDemands(requests, |requests|) > 0
      && answer.readBytes == answer.decodeMisses * PAYLOAD_BYTES
      && answer.hitFraction * LaterDemands(requests, |requests|) as real == answer.decodeHits as real
      && (forall f {:trigger answer.blocks[f]} :: 0 <= f < forwards ==>
            && answer.blocks[f].hits == Found(requests, |requests|, f, capacity, policy, forwards)
            && answer.blocks[f].hits + answer.blocks[f].misses == Demands(requests, |requests|, f))
  {
    hide Fold, Inv, HitSum, MissSum, Found, Demands, LaterDemands, KeysBetween, Finish, CachesOf;
    var n := |requests|;
    FoldCounts(requests, n, capacity, policy, forwards);
    FinishCounts(Fold(requests, n, capacity, policy, forwards).value);
    ForwardsConserved(requests, n, capacity, policy, forwards);
    ReplayIsSchedule(requests, n, capacity, policy, forwards);
    LaterAreNotFirst(requests, n);
    hide IsSchedule, Misses;
    assert Simulation(requests, forwards, capacity, policy)
      == Finish(Fold(requests, n, capacity, policy, forwards).value);
    var total := LaterDemands(requests, n);
    var answer := Simulation(requests, forwards, capacity, policy).value;
    assert answer.decodeHits + answer.decodeMisses == total;
  }

  // ---------- hit-first order ----------

  ghost function HitsSince(requests: seq<Request>, m: nat, n: nat, capacity: nat, policy: Policy, forwards: nat): int
    requires m <= n <= |requests|
    requires Fold(requests, m, capacity, policy, forwards).Ok? && Fold(requests, n, capacity, policy, forwards).Ok?
  {
    Fold(requests, n, capacity, policy, forwards).value.cache.hits
    - Fold(requests, m, capacity, policy, forwards).value.cache.hits
  }

  lemma {:induction false} FoldOkBefore(requests: seq<Request>, m: nat, n: nat, capacity: nat, policy: Policy,
                                        forwards: nat)
    requires m <= n <= |requests| && Fold(requests, n, capacity, policy, forwards).Ok?
    ensures Fold(requests, m, capacity, policy, forwards).Ok?
  {
    if Fold(requests, m, capacity, policy, forwards).Err? {
      FoldStaysErr(requests, m, n, capacity, policy, forwards);
    }
  }

  /** One more distinct demand on top of `before`. */
  lemma AskedNext(entry: set<Key>, before: seq<Key>, key: Key)
    requires Distinct(before + [key])
    ensures Distinct(before) && key !in Elements(before)
    ensures Elements(before + [key]) == Elements(before) + {key}
    ensures |entry * Elements(before + [key])| == |entry * Elements(before)| + if key in entry then 1 else 0
  {
    DistinctConcat(before, [key]);
    assert Elements(before + [key]) == Elements(before) + {key};
    if key in entry {
      assert entry * (Elements(before) + {key}) == entry * Elements(before) + {key};
    } else {
      assert entry * (Elements(before) + {key}) == entry * Elements(before);
    }
  }

  /** Distinct demands hit at most once per record already resident, in any order and under any leases. */
  lemma {:induction false} HitsAtMostResident(requests: seq<Request>, m: nat, n: nat, capacity: nat, policy: Policy,
                                              forwards: nat)
    requires m <= n <= |requests| && Fold(requests, n, capacity, policy, forwards).Ok?
    requires Distinct(KeysBetween(requests, m, n))
    ensures Fold(requests, m, capacity, policy, forwards).Ok?
    ensures var entry := Residents(Fold(requests, m, capacity, policy, forwards));
            var asked := Elements(KeysBetween(requests, m, n));
      && Residents(Fold(requests, n, capacity, policy, forwards)) <= entry + asked
      && HitsSince(requests, m, n, capacity, policy, forwards) <= |entry * asked|
  {
    hide Step, Inv;
    FoldOkBefore(requests, m, n, capacity, policy, forwards);
    if m < n {
      var r := requests[n - 1];
      var before := KeysBetween(requests, m, n - 1);
      if r.kind == Acquire {
        AskedNext(Residents(Fold(requests, m, capacity, policy, forwards)), before, r.key);
      } else {
        assert KeysBetween(requests, m, n) == before;
      }
      HitsAtMostResident(requests, m, n - 1, capacity, policy, forwards);
      StepMovesResidents(Fold(requests, n - 1, capacity, policy, forwards).value, r);
    }
  }

  /** `order` lists what `entry` holds first, each record once. */
  ghost predicate HitFirst(order: seq<Key>, resident: nat, entry: set<Key>) {
    && resident <= |order| && Distinct(order)
    && (forall i :: 0 <= i < resident ==> order[i] in entry)
    && (forall i :: resident <= i < |order| ==> order[i] !in entry)
  }

  /** In hit-first order each record resident at entry is a hit, whatever leases come and go. */
  lemma {:induction false} HitFirstHitsAll(requests: seq<Request>, m: nat, n: nat, order: seq<Key>, resident: nat,
                                           capacity: nat, policy: Policy, forwards: nat)
    requires m <= n <= |requests| && Fold(requests, n, capacity, policy, forwards).Ok?
    requires KeysBetween(requests, m, n) <= order
    requires HitFirst(order, resident, Residents(Fold(requests, m, capacity, policy, forwards)))
    ensures Fold(requests, m, capacity, policy, forwards).Ok?
    ensures var asked := |KeysBetween(requests, m, n)|;
            var entry := Residents(Fold(requests, m, capacity, policy, forwards));
            var now := Residents(Fold(requests, n, capacity, policy, forwards));
      && HitsSince(requests, m, n, capacity, policy, forwards) == (if asked <= resident then asked else resident)
      && (asked <= resident ==> now == entry)
      && now <= entry + Elements(KeysBetween(requests, m, n))
  {
    hide Step, Inv, HitFirst, Elements, Fold;
    FoldOkBefore(requests, m, n, capacity, policy, forwards);
    if m < n {
      var r := requests[n - 1];
      var before := KeysBetween(requests, m, n - 1);
      assert KeysBetween(requests, m, n) == if r.kind == Acquire then before + [r.key] else before;
      FoldOkBefore(requests, n - 1, n, capacity, policy, forwards);
      HitFirstHitsAll(requests, m, n - 1, order, resident, capacity, policy, forwards);
      FoldLast(requests, n, capacity, policy, forwards);
      StepMovesResidents(Fold(requests, n - 1, capacity, policy, forwards).value, r);
      if r.kind == Acquire {
        var entry := Residents(Fold(requests, m, capacity, policy, forwards));
        AskedInOrder(order, resident, entry, before, r.key);
        var p := Fold(requests, n - 1, capacity, policy, forwards);
        AdmitsMore(Residents(p), r.key, Residents(Fold(requests, n, capacity, policy, forwards)),
                   |p.value.cache.slots|);
      }
    }
  }

  lemma FoldLast(requests: seq<Request>, n: nat, capacity: nat, policy: Policy, forwards: nat)
    requires 0 < n <= |requests| && Fold(requests, n, capacity, policy, forwards).Ok?
    ensures var before := Fold(requests, n - 1, capacity, policy, forwards);
      && before.Ok? && Inv(before.value.cache)
      && Step(before.value, requests[n - 1]) == Fold(requests, n, capacity, policy, forwards)
  {
  }

  lemma AdmitsMore(before: set<Key>, key: Key, after: set<Key>, capacity: nat)
    requires Admits(before, key, after, capacity)
    ensures after <= before + {key}
  {
  }

  /** The next record in hit-first order was resident at entry exactly while hits remain, and was not asked before. */
  lemma AskedInOrder(order: seq<Key>, resident: nat, entry: set<Key>, before: seq<Key>, key: Key)
    requires HitFirst(order, resident, entry) && before + [key] <= order
    ensures key in entry <==> |before| < resident
    ensures key !in Elements(before) && Elements(before + [key]) == Elements(before) + {key}
  {
    assert (before + [key])[|before|] == key == order[|before|];
    NotAskedBefore(order, before, key);
  }

  lemma NotAskedBefore(order: seq<Key>, before: seq<Key>, key: Key)
    requires Distinct(order) && before + [key] <= order
    ensures key !in Elements(before)
  {
    forall i | 0 <= i < |before|
      ensures before[i] != key
    {
      assert order[i] != order[|before|];
    }
  }

  lemma HitFirstResidents(order: seq<Key>, resident: nat, entry: set<Key>)
    requires HitFirst(order, resident, entry)
    ensures |entry * Elements(order)| == resident
  {
    var first := order[..resident];
    forall x | x in entry * Elements(order)
      ensures x in Elements(first)
    {
      var i :| 0 <= i < |order| && order[i] == x;
      assert i < resident;
      assert first[i] == x;
    }
    forall x | x in Elements(first)
      ensures x in entry * Elements(order)
    {
      var i :| 0 <= i < |first| && first[i] == x;
      assert order[i] in entry && order[i] in order;
    }
    assert entry * Elements(order) == Elements(first);
    DistinctCount(first);
  }

  /** So no other order of the same records, with leases of its own, hits more often from the same state. */
  lemma HitFirstIsBest(requests: seq<Request>, m: nat, other: seq<Request>, resident: nat,
                       capacity: nat, policy: Policy, forwards: nat)
    requires m <= |requests| && m <= |other| && requests[..m] == other[..m]
    requires Fold(requests, |requests|, capacity, policy, forwards).Ok?
    requires Fold(other, |other|, capacity, policy, forwards).Ok?
    requires var order := KeysBetween(requests, m, |requests|);
      && HitFirst(order, resident, Residents(Fold(requests, m, capacity, policy, forwards)))
      && Distinct(KeysBetween(other, m, |other|))
      && Elements(KeysBetween(other, m, |other|)) == Elements(order)
    ensures Fold(requests, m, capacity, policy, forwards).Ok? && Fold(other, m, capacity, policy, forwards).Ok?
    ensures HitsSince(other, m, |other|, capacity, policy, forwards)
         <= HitsSince(requests, m, |requests|, capacity, policy, forwards) == resident
  {
    hide Step, Inv;
    SamePrefix(requests, other, m, capacity, policy, forwards);
    var order := KeysBetween(requests, m, |requests|);
    HitFirstHitsAll(requests, m, |requests|, order, resident, capacity, policy, forwards);
    HitFirstResidents(order, resident, Residents(Fold(requests, m, capacity, policy, forwards)));
    HitsAtMostResident(other, m, |other|, capacity, policy, forwards);
  }

  lemma {:induction false} SamePrefix(a: seq<Request>, b: seq<Request>, m: nat, capacity: nat, policy: Policy,
                                      forwards: nat)
    requires m <= |a| && m <= |b| && a[..m] == b[..m]
    ensures Fold(a, m, capacity, policy, forwards) == Fold(b, m, capacity, policy, forwards)
  {
    hide Step, Inv;
    if m > 0 {
      assert a[..m - 1] == a[..m][..m - 1] && b[..m - 1] == b[..m][..m - 1];
      assert a[m - 1] == a[..m][m - 1] == b[m - 1];
      SamePrefix(a, b, m - 1, capacity, policy, forwards);
    }
  }
}
