/** Exactly which captures the checker accepts: those whose every event tells what a CLOCK run did there. */
module Captures {
  import opened Common
  import opened Demand
  import opened LeaseCache
  import opened LeaseChoice
  import opened Decode
  import opened Accepted
  import R = Replay

  // ---------- the order of a layer's demands ----------

  /** The first `k` experts are resident and the others are not, each part ascending. */
  ghost predicate SplitAt(selected: seq<int>, k: nat, layer: nat, lookup: map<Key, nat>) {
    && k <= |selected| && Increasing(selected[..k]) && Increasing(selected[k..])
    && (forall i :: 0 <= i < k ==> layer * EXPERTS + selected[i] in lookup)
    && forall i :: k <= i < |selected| ==> layer * EXPERTS + selected[i] !in lookup
  }

  /** The routed experts, ascending; up to 32 tokens, those resident now come first. */
  ghost predicate InDemandOrder(selected: seq<int>, layer: nat, tokens: int, routes: seq<int>, lookup: map<Key, nat>) {
    && (forall e :: e in selected <==> e in routes)
    && if tokens > 32 then Increasing(selected) else exists k: nat :: SplitAt(selected, k, layer, lookup)
  }

  ghost function Kept(experts: seq<int>, layer: nat, lookup: map<Key, nat>, resident: bool): seq<int> {
    if experts == [] then []
    else
      var last := experts[|experts| - 1];
      Kept(experts[..|experts| - 1], layer, lookup, resident)
      + if (layer * EXPERTS + last in lookup) == resident then [last] else []
  }

  lemma KeysForConcat(layer: nat, a: seq<int>, b: seq<int>)
    ensures KeysFor(layer, a + b) == KeysFor(layer, a) + KeysFor(layer, b)
  {
  }

  lemma KeysForInjective(layer: nat, a: seq<int>, b: seq<int>)
    ensures KeysFor(layer, a) == KeysFor(layer, b) <==> a == b
  {
    if KeysFor(layer, a) == KeysFor(layer, b) {
      assert |a| == |KeysFor(layer, a)| == |b|;
      forall i | 0 <= i < |a|
        ensures a[i] == b[i]
      {
        assert KeysFor(layer, a)[i] == KeysFor(layer, b)[i];
      }
    }
  }

  lemma {:induction false} ChosenAreKept(layer: nat, experts: seq<int>, lookup: map<Key, nat>, resident: bool)
    ensures Chosen(KeysFor(layer, experts), lookup, resident)
         == KeysFor(layer, Kept(experts, layer, lookup, resident))
  {
    var keys := KeysFor(layer, experts);
    if experts != [] {
      var n := |experts| - 1;
      ChosenAreKept(layer, experts[..n], lookup, resident);
      assert keys[..n] == KeysFor(layer, experts[..n]);
      var last := if (layer * EXPERTS + experts[n] in lookup) == resident then [experts[n]] else [];
      KeysForConcat(layer, Kept(experts[..n], layer, lookup, resident), last);
    }
  }

  lemma AppendIncreasing(s: seq<int>, x: int)
    requires Increasing(s) && forall e :: e in s ==> e < x
    ensures Increasing(s + [x])
  {
    assert forall i :: 0 <= i < |s| ==> s[i] in s;
  }

  lemma {:induction false} KeptAre(experts: seq<int>, layer: nat, lookup: map<Key, nat>, resident: bool)
    requires Increasing(experts)
    ensures var kept := Kept(experts, layer, lookup, resident);
      Increasing(kept) && forall e :: e in kept <==> e in experts && (layer * EXPERTS + e in lookup) == resident
  {
    if experts != [] {
      FrontIsLess(experts);
      var front, last := experts[..|experts| - 1], experts[|experts| - 1];
      hide Increasing;
      KeptAre(front, layer, lookup, resident);
      if (layer * EXPERTS + last in lookup) == resident {
        AppendIncreasing(Kept(front, layer, lookup, resident), last);
      }
    }
  }

  /** What the checker compares with is the one sequence in demand order. */
  lemma DemandOrderIff(selected: seq<int>, layer: nat, tokens: int, routes: seq<int>, lookup: map<Key, nat>)
    ensures KeysFor(layer, selected) == DemandOrder(layer, tokens, routes, lookup)
       <==> InDemandOrder(selected, layer, tokens, routes, lookup)
  {
    var experts := Ascending(routes);
    AscendingSorts(routes);
    assert forall e :: e in experts <==> e in Elements(experts);
    assert forall e :: e in routes <==> e in Elements(routes);
    if tokens > 32 {
      KeysForInjective(layer, selected, experts);
      if InDemandOrder(selected, layer, tokens, routes, lookup) {
        IncreasingIsUnique(selected, experts);
      }
    } else {
      var hits, rest := Kept(experts, layer, lookup, true), Kept(experts, layer, lookup, false);
      ChosenAreKept(layer, experts, lookup, true);
      ChosenAreKept(layer, experts, lookup, false);
      KeysForConcat(layer, hits, rest);
      KeysForInjective(layer, selected, hits + rest);
      KeptAre(experts, layer, lookup, true);
      KeptAre(experts, layer, lookup, false);
      hide Ascending, Elements, Kept, Chosen;
      SplitIsUnique(selected, layer, routes, lookup, hits, rest);
    }
  }

  lemma SplitIsUnique(selected: seq<int>, layer: nat, routes: seq<int>, lookup: map<Key, nat>, hits: seq<int>,
                      rest: seq<int>)
    requires Increasing(hits) && forall e :: e in hits <==> e in routes && layer * EXPERTS + e in lookup
    requires Increasing(rest) && forall e :: e in rest <==> e in routes && layer * EXPERTS + e !in lookup
    ensures selected == hits + rest
       <==> (forall e :: e in selected <==> e in routes) && exists k: nat :: SplitAt(selected, k, layer, lookup)
  {
    if selected == hits + rest {
      assert selected[..|hits|] == hits && selected[|hits|..] == rest;
      assert forall i :: 0 <= i < |hits| ==> selected[i] in hits;
      assert forall i :: |hits| <= i < |selected| ==> selected[i] in rest;
      assert SplitAt(selected, |hits|, layer, lookup);
    }
    if (forall e :: e in selected <==> e in routes) && exists k: nat :: SplitAt(selected, k, layer, lookup) {
      var k: nat :| SplitAt(selected, k, layer, lookup);
      PartIs(selected, k, layer, routes, lookup);
      IncreasingIsUnique(selected[..k], hits);
      IncreasingIsUnique(selected[k..], rest);
      assert selected == selected[..k] + selected[k..];
    }
  }

  lemma PartIs(selected: seq<int>, k: nat, layer: nat, routes: seq<int>, lookup: map<Key, nat>)
    requires SplitAt(selected, k, layer, lookup) && forall e :: e in selected <==> e in routes
    ensures forall e :: e in selected[..k] <==> e in routes && layer * EXPERTS + e in lookup
    ensures forall e :: e in selected[k..] <==> e in routes && layer * EXPERTS + e !in lookup
  {
    forall e
      ensures e in selected[..k] <==> e in selected && layer * EXPERTS + e in lookup
      ensures e in selected[k..] <==> e in selected && layer * EXPERTS + e !in lookup
    {
      if e in selected {
        var i :| 0 <= i < |selected| && selected[i] == e;
        if i < k {
          assert selected[..k][i] == e;
        } else {
          assert selected[k..][i - k] == e;
        }
      }
      if e in selected[..k] {
        var i :| 0 <= i < k && selected[..k][i] == e;
        assert selected[i] == e;
      }
      if e in selected[k..] {
        var i :| 0 <= i < |selected| - k && selected[k..][i] == e;
        assert selected[k + i] == e;
      }
    }
  }

  // ---------- what the events themselves tell ----------

  ghost function ForwardsEnded(events: seq<Event>, n: nat): nat
    requires n <= |events|
  {
    if n == 0 then 0 else ForwardsEnded(events, n - 1) + if events[n - 1].ForwardEnd? then 1 else 0
  }

  /** A forward has begun and not ended. */
  ghost predicate InForward(events: seq<Event>, n: nat)
    requires n <= |events|
  {
    n > 0 && (events[n - 1].ForwardBegin? || (!events[n - 1].ForwardEnd? && InForward(events, n - 1)))
  }

  /** Layers, and snapshots, since the forward began. */
  ghost function LayersBegun(events: seq<Event>, n: nat): nat
    requires n <= |events|
  {
    if n == 0 || events[n - 1].ForwardBegin? then 0
    else LayersBegun(events, n - 1) + if events[n - 1].Layer? then 1 else 0
  }

  ghost function SnapshotsSince(events: seq<Event>, n: nat): nat
    requires n <= |events|
  {
    if n == 0 || events[n - 1].ForwardBegin? then 0
    else SnapshotsSince(events, n - 1) + if events[n - 1].Snapshot? then 1 else 0
  }

  /** The records the last layer selected, and how many of them have been acquired. */
  ghost function Wanted(events: seq<Event>, n: nat): seq<Key>
    requires n <= |events|
  {
    if n == 0 || events[n - 1].ForwardBegin? then []
    else if events[n - 1].Layer? then KeysFor(LayersBegun(events, n - 1), events[n - 1].selected)
    else Wanted(events, n - 1)
  }

  ghost function AcquiredSince(events: seq<Event>, n: nat): nat
    requires n <= |events|
  {
    if n == 0 || events[n - 1].ForwardBegin? || events[n - 1].Layer? then 0
    else AcquiredSince(events, n - 1) + if events[n - 1].AcquireRecord? then 1 else 0
  }

  ghost predicate AllAcquired(events: seq<Event>, n: nat)
    requires n <= |events|
  {
    AcquiredSince(events, n) == |Wanted(events, n)|
  }

  /** The acquisitions, pins and releases, each with the forward it happened in. */
  ghost function Requests(events: seq<Event>, n: nat): seq<R.Request>
    requires n <= |events|
  {
    if n == 0 then []
    else
      var e, f := events[n - 1], ForwardsEnded(events, n - 1);
      Requests(events, n - 1) +
      match e
      case AcquireRecord(key, _, _, _) => [R.Request(R.Acquire, key, f)]
      case Lease(release, key, _, _) => [R.Request(if release then R.Release else R.Pin, key, f)]
      case _ => []
  }

  ghost function LiveAt(events: seq<Event>, n: nat): multiset<Key>
    requires n <= |events|
  {
    R.Live(Requests(events, n), |Requests(events, n)|)
  }

  ghost function SnapshotsTaken(events: seq<Event>, n: nat): nat
    requires n <= |events|
  {
    if n == 0 then 0 else SnapshotsTaken(events, n - 1) + if events[n - 1].Snapshot? then 1 else 0
  }

  function Bump(counts: seq<nat>, i: int, counted: bool): seq<nat> {
    if counted && 0 <= i < |counts| then counts[i := counts[i] + 1] else counts
  }

  /** The acquisitions by kind, victim and layer. */
  ghost function StatsTold(events: seq<Event>, n: nat): Stats
    requires n <= |events|
  {
    if n == 0 then Stats(0, 0, 0, 0, 0, seq(LAYERS, _ => 0), seq(LAYERS, _ => 0))
    else
      var t, e := StatsTold(events, n - 1), events[n - 1];
      if !e.AcquireRecord? then t
      else
        Stats(t.hits + (if e.kind != 0 then 1 else 0), t.misses + (if e.kind == 0 then 1 else 0),
              t.evictions + (if e.victim != -1 then 1 else 0),
              t.readyHits + (if e.kind == 1 then 1 else 0), t.joins + (if e.kind == 2 then 1 else 0),
              Bump(t.layerHits, e.key / EXPERTS, e.kind != 0), Bump(t.layerMisses, e.key / EXPERTS, e.kind == 0))
  }

  /** The cache a CLOCK replay of these requests has at that point. */
  ghost function CacheAt(w: Workload, events: seq<Event>, n: nat): State
    requires n <= |events|
  {
    var requests := Requests(events, n);
    var end := R.Fold(requests, |requests|, w.capacity, Clock, |w.patterns|);
    if end.Ok? then end.value.cache else Fresh(w.capacity, Clock)
  }

  // ---------- when an event is true of that run ----------

  ghost predicate AwaitsPin(events: seq<Event>, n: nat)
    requires n <= |events|
  {
    n > 0 && events[n - 1].AcquireRecord?
  }

  ghost predicate BeginTold(w: Workload, events: seq<Event>, n: nat)
    requires n < |events| && events[n].ForwardBegin?
  {
    var e, f := events[n], ForwardsEnded(events, n);
    && !InForward(events, n) && LiveAt(events, n) == multiset{} && f < |w.patterns|
    && e.offset == w.patterns[f].offset && e.tokens == w.patterns[f].tokens && e.phase == w.patterns[f].phase
    && e.input == Slice(w.prompt + w.continuation, e.offset, e.tokens)
  }

  /** The next of 48 layers, ten distinct experts a token, its records in demand order. */
  ghost predicate LayerTold(w: Workload, events: seq<Event>, n: nat)
    requires n < |events| && events[n].Layer?
  {
    var e, f := events[n], ForwardsEnded(events, n);
    && InForward(events, n) && LiveAt(events, n) == multiset{} && AllAcquired(events, n) && f < |w.patterns|
    && e.layer == LayersBegun(events, n) < LAYERS
    && e.offset == w.patterns[f].offset && e.tokens == w.patterns[f].tokens && TopRoutes(e.routes, e.tokens)
    && (forall i :: 0 <= i < |e.selected| ==> 0 <= e.selected[i] < EXPERTS)
    && InDemandOrder(e.selected, e.layer, e.tokens, e.routes, CacheAt(w, events, n).lookup)
  }

  /** A resident record is found in its slot; an absent one goes where CLOCK's rule says, its victim named. */
  ghost predicate OutcomeTold(c: State, e: Event)
    requires e.AcquireRecord?
  {
    if e.key in c.lookup then (e.kind == 1 || e.kind == 2) && e.slot == c.lookup[e.key] && e.victim == -1
    else
      && e.kind == 0 && 0 <= e.slot < |c.slots| && c.hand < |c.slots| && ClockPicks(c.slots, c.hand, e.slot)
      && e.victim == if c.slots[e.slot].Some? then c.slots[e.slot].value.key else -1
  }

  /** The next record of the layer, with the outcome of the run. */
  ghost predicate AcquisitionTold(w: Workload, events: seq<Event>, n: nat)
    requires n < |events| && events[n].AcquireRecord?
  {
    var e, c := events[n], CacheAt(w, events, n);
    && InForward(events, n) && AcquiredSince(events, n) < |Wanted(events, n)|
    && e.key == Wanted(events, n)[AcquiredSince(events, n)]
    && OutcomeTold(c, e)
  }

  /** A pin of the record just acquired, or a release of a live lease, with the leases that leaves. */
  ghost predicate LeaseTold(events: seq<Event>, n: nat)
    requires n < |events| && events[n].Lease?
  {
    var e := events[n];
    && (if e.release then e.key in LiveAt(events, n) && e.ready == Some(true)
        else AwaitsPin(events, n) && e.key == events[n - 1].key && e.ready == None)
    && e.pins == LiveAt(events, n + 1)[e.key] && |LiveAt(events, n + 1)| <= 32
  }

  ghost predicate SnapshotTold(w: Workload, events: seq<Event>, n: nat)
    requires n < |events| && events[n].Snapshot?
  {
    var e, c := events[n], CacheAt(w, events, n);
    && LiveAt(events, n) == multiset{} && e.hand == c.hand && e.slots == c.slots && e.stats == StatsTold(events, n)
    && (InForward(events, n) ==> LayersBegun(events, n) == LAYERS && AllAcquired(events, n))
  }

  ghost predicate EndTold(w: Workload, events: seq<Event>, n: nat)
    requires n < |events| && events[n].ForwardEnd?
  {
    var f := ForwardsEnded(events, n);
    && InForward(events, n) && LayersBegun(events, n) == LAYERS && AllAcquired(events, n)
    && SnapshotsSince(events, n) >= 1 && LiveAt(events, n) == multiset{} && f < |w.patterns|
    && events[n].position == w.patterns[f].offset + w.patterns[f].tokens
  }

  /** Event `n` tells what a CLOCK run of the workload did there. */
  ghost predicate Told(w: Workload, events: seq<Event>, n: nat)
    requires n < |events|
  {
    && (AwaitsPin(events, n) ==> events[n].Lease? && !events[n].release)
    && match events[n]
       case ForwardBegin(_, _, _, _) => BeginTold(w, events, n)
       case Layer(_, _, _, _, _) => LayerTold(w, events, n)
       case AcquireRecord(_, _, _, _) => AcquisitionTold(w, events, n)
       case Lease(_, _, _, _) => LeaseTold(events, n)
       case Snapshot(_, _, _) => SnapshotTold(w, events, n)
       case ForwardEnd(_) => EndTold(w, events, n)
       case Unknown => false
  }

  ghost predicate AllTold(w: Workload, events: seq<Event>, n: nat)
    requires n <= |events|
  {
    forall i :: 0 <= i < n ==> Told(w, events, i)
  }

  // ---------- the checker follows ----------

  ghost predicate Mirrors(w: Workload, events: seq<Event>, n: nat, b: Book, s: State)
    requires n <= |events|
  {
    && b.requests == Requests(events, n) && |b.forwards| == ForwardsEnded(events, n)
    && b.pending == (if AwaitsPin(events, n) then Some(events[n - 1].key) else None)
    && b.snapshots == SnapshotsTaken(events, n)
    && StatsTold(events, n) == Stats(s.hits, s.misses, s.evictions, s.readyHits, s.joins, s.layerHits, s.layerMisses)
    && (AwaitsPin(events, n) ==> events[n - 1].key in s.lookup)
    && (forall i :: 0 <= i < |Wanted(events, n)| ==> ValidKey(Wanted(events, n)[i]))
    && b.active.Some? == InForward(events, n)
    && (b.active.Some? ==>
          var a, f := b.active.value, ForwardsEnded(events, n);
          && f < |w.patterns| && a.offset == w.patterns[f].offset && a.tokens == w.patterns[f].tokens
          && a.layers == LayersBegun(events, n) && a.selected == Wanted(events, n)
          && a.index == AcquiredSince(events, n) && a.snapshots == SnapshotsSince(events, n))
  }

  /** The checker's cache is the replay's. */
  ghost predicate SameCache(w: Workload, events: seq<Event>, n: nat, s: State)
    requires n <= |events|
  {
    && Inv(s) && s.policy == Clock && |s.slots| == w.capacity && Holds(s, LiveAt(events, n))
    && CacheAt(w, events, n) == Forget(s)
  }

  lemma SoundMeansSame(w: Workload, events: seq<Event>, n: nat, b: Book, s: State)
    requires n <= |events| && Sound(w, b, s) && Mirrors(w, events, n, b, s)
    ensures SameCache(w, events, n, s) && b.maxPins <= 32
  {
    hide Inv, Holds, LegalSoFar, BlocksMatch, Busy, Forget;
  }

  lemma NothingLive(s: State, live: multiset<Key>)
    requires Holds(s, live)
    ensures PinSum(s.slots) == 0 <==> live == multiset{}
  {
  }

  lemma NoRequest(events: seq<Event>, n: nat)
    requires n < |events| && !events[n].AcquireRecord? && !events[n].Lease?
    ensures Requests(events, n + 1) == Requests(events, n) && StatsTold(events, n + 1) == StatsTold(events, n)
  {
  }

  lemma BeginOpens(events: seq<Event>, n: nat)
    requires n < |events| && events[n].ForwardBegin?
    ensures InForward(events, n + 1) && LayersBegun(events, n + 1) == 0 && Wanted(events, n + 1) == []
    ensures AcquiredSince(events, n + 1) == 0 && SnapshotsSince(events, n + 1) == 0
    ensures ForwardsEnded(events, n + 1) == ForwardsEnded(events, n)
    ensures SnapshotsTaken(events, n + 1) == SnapshotsTaken(events, n)
  {
  }

  lemma BeginFollows(w: Workload, events: seq<Event>, n: nat, b: Book, s: State)
    requires n < |events| && events[n].ForwardBegin? && Mirrors(w, events, n, b, s) && SameCache(w, events, n, s)
    ensures Check(w, b, s, events[n]).Ok? <==> Told(w, events, n)
    ensures Told(w, events, n) ==>
      Mirrors(w, events, n + 1, Check(w, b, s, events[n]).value.0, Check(w, b, s, events[n]).value.1)
  {
    NothingLive(s, LiveAt(events, n));
    NoRequest(events, n);
    BeginOpens(events, n);
    hide Inv, Holds, LiveAt, PinSum, Slice, CacheAt, Requests, StatsTold, InForward, LayersBegun, Wanted,
      AcquiredSince, SnapshotsSince, ForwardsEnded, SnapshotsTaken;
  }

  /** A layer event is accepted exactly when it is the open forward's next and lists its demands in order. */
  lemma LayerIff(b: Book, pins: int, lookup: map<Key, nat>, e: Event)
    requires e.Layer?
    ensures BeginLayer(b, pins, lookup, e).Ok? <==>
      && b.active.Some? && pins == 0
      && var a := b.active.value;
         && a.index == |a.selected| && e.layer == a.layers < LAYERS && e.offset == a.offset && e.tokens == a.tokens
         && TopRoutes(e.routes, e.tokens)
         && (forall i :: 0 <= i < |e.selected| ==> 0 <= e.selected[i] < EXPERTS)
         && InDemandOrder(e.selected, e.layer, e.tokens, e.routes, lookup)
    ensures BeginLayer(b, pins, lookup, e).Ok? ==>
              BeginLayer(b, pins, lookup, e).value ==
                b.(active := Some(b.active.value.(layers := b.active.value.layers + 1, index := 0,
                                                  selected := KeysFor(b.active.value.layers, e.selected))))
  {
    if b.active.Some? {
      DemandOrderIff(e.selected, b.active.value.layers, e.tokens, e.routes, lookup);
    }
    hide TopRoutes, InDemandOrder, DemandOrder, KeysFor;
  }

  lemma LayerMirrors(w: Workload, events: seq<Event>, n: nat, b: Book, s: State)
    requires n < |events| && events[n].Layer? && Mirrors(w, events, n, b, s) && b.active.Some? && b.pending.None?
    requires events[n].layer == LayersBegun(events, n) < LAYERS
    requires forall i :: 0 <= i < |events[n].selected| ==> 0 <= events[n].selected[i] < EXPERTS
    ensures var a := b.active.value;
      Mirrors(w, events, n + 1,
              b.(active := Some(a.(layers := a.layers + 1, index := 0,
                                   selected := KeysFor(a.layers, events[n].selected)))), s)
  {
    NoRequest(events, n);
    hide Requests, StatsTold;
  }

  lemma LayerFollows(w: Workload, events: seq<Event>, n: nat, b: Book, s: State)
    requires n < |events| && events[n].Layer? && Mirrors(w, events, n, b, s) && SameCache(w, events, n, s)
    ensures Check(w, b, s, events[n]).Ok? <==> Told(w, events, n)
    ensures Told(w, events, n) ==>
      Mirrors(w, events, n + 1, Check(w, b, s, events[n]).value.0, Check(w, b, s, events[n]).value.1)
  {
    NothingLive(s, LiveAt(events, n));
    LayerIff(b, PinSum(s.slots), s.lookup, events[n]);
    hide Inv, Holds, LiveAt, PinSum, TopRoutes, InDemandOrder, BeginLayer, CacheAt, Requests, StatsTold, KeysFor,
      LayersBegun, Wanted, ForwardsEnded, SnapshotsSince, SnapshotsTaken, InForward, AcquiredSince;
    if Told(w, events, n) {
      LayerMirrors(w, events, n, b, s);
    }
  }

  lemma SnapshotAdds(events: seq<Event>, n: nat)
    requires n < |events| && events[n].Snapshot?
    ensures InForward(events, n + 1) == InForward(events, n)
    ensures LayersBegun(events, n + 1) == LayersBegun(events, n) && Wanted(events, n + 1) == Wanted(events, n)
    ensures AcquiredSince(events, n + 1) == AcquiredSince(events, n)
    ensures ForwardsEnded(events, n + 1) == ForwardsEnded(events, n)
    ensures SnapshotsSince(events, n + 1) == SnapshotsSince(events, n) + 1
    ensures SnapshotsTaken(events, n + 1) == SnapshotsTaken(events, n) + 1
  {
  }

  lemma SnapshotFollows(w: Workload, events: seq<Event>, n: nat, b: Book, s: State)
    requires n < |events| && events[n].Snapshot? && Mirrors(w, events, n, b, s) && SameCache(w, events, n, s)
    ensures Check(w, b, s, events[n]).Ok? <==> Told(w, events, n)
    ensures Told(w, events, n) ==>
      Mirrors(w, events, n + 1, Check(w, b, s, events[n]).value.0, Check(w, b, s, events[n]).value.1)
  {
    hide Inv, Holds, LiveAt, PinSum, CacheAt, Requests, StatsTold, InForward, LayersBegun, Wanted, AcquiredSince,
      SnapshotsSince, ForwardsEnded, SnapshotsTaken;
    NothingLive(s, LiveAt(events, n));
    NoRequest(events, n);
    SnapshotAdds(events, n);
  }

  lemma EndCloses(events: seq<Event>, n: nat)
    requires n < |events| && events[n].ForwardEnd?
    ensures !InForward(events, n + 1)
    ensures ForwardsEnded(events, n + 1) == ForwardsEnded(events, n) + 1
    ensures SnapshotsTaken(events, n + 1) == SnapshotsTaken(events, n) && Wanted(events, n + 1) == Wanted(events, n)
  {
  }

  lemma EndFollows(w: Workload, events: seq<Event>, n: nat, b: Book, s: State)
    requires n < |events| && events[n].ForwardEnd? && Mirrors(w, events, n, b, s) && SameCache(w, events, n, s)
    ensures Check(w, b, s, events[n]).Ok? <==> Told(w, events, n)
    ensures Told(w, events, n) ==>
      Mirrors(w, events, n + 1, Check(w, b, s, events[n]).value.0, Check(w, b, s, events[n]).value.1)
  {
    hide Inv, Holds, LiveAt, PinSum, CacheAt, Requests, StatsTold, InForward, LayersBegun, Wanted, AcquiredSince,
      SnapshotsSince, ForwardsEnded, SnapshotsTaken;
    NothingLive(s, LiveAt(events, n));
    NoRequest(events, n);
    EndCloses(events, n);
  }

  lemma OutcomeToldIff(s: State, e: Event, live: multiset<Key>)
    requires Inv(s) && s.policy == Clock && Holds(s, live) && e.AcquireRecord? && Between(e.kind, 0, 2)
    requires ValidKey(e.key)
    ensures var outcome := Acquired(s, e.key, Some(e.kind)).1;
      OutcomeTold(s, e) <==>
        && Between(e.slot, 0, |s.slots| - 1) && Between(e.victim, -1, LAYERS * EXPERTS - 1)
        && outcome.Some? && outcome == Some(Outcome(e.kind != 0, e.slot, e.victim))
  {
    var outcome := Acquired(s, e.key, Some(e.kind)).1;
    if e.key in s.lookup {
      HitMarks(s, e.key, Some(e.kind));
    } else {
      AcquireFailsIff(s, e.key, Some(e.kind));
      if outcome.Some? {
        MissTakes(s, e.key, Some(e.kind), live);
        if s.slots[outcome.value.slot].Some? {
          VictimIsValid(s, outcome.value.slot);
        }
      }
      hide Inv, Acquired, Holds, Replaces, ClockPicks;
      if OutcomeTold(s, e) {
        PickedIsUnleased(s, e.slot);
        if outcome.Some? {
          PicksIsUnique(s.slots, s.hand, e.slot, outcome.value.slot);
        }
      }
    }
  }

  lemma VictimIsValid(s: State, slot: nat)
    requires Inv(s) && slot < |s.slots| && s.slots[slot].Some?
    ensures 0 <= s.slots[slot].value.key < LAYERS * EXPERTS
  {
  }

  lemma PickedIsUnleased(s: State, slot: nat)
    requires s.hand < |s.slots| && slot < |s.slots| && ClockPicks(s.slots, s.hand, slot)
    ensures !AllPinned(s.slots)
  {
    PicksIsUnique(s.slots, s.hand, slot, slot);
  }

  /** What an outcome adds to the counters. */
  ghost predicate Counts(s: State, key: Key, kind: nat, o: Outcome, s': State) {
    && s'.hits == s.hits + (if o.hit then 1 else 0) && s'.misses == s.misses + (if o.hit then 0 else 1)
    && s'.evictions == s.evictions + (if o.victim != -1 then 1 else 0)
    && s'.readyHits == s.readyHits + (if o.hit && kind == 1 then 1 else 0)
    && s'.joins == s.joins + (if o.hit && kind == 2 then 1 else 0)
    && s'.layerHits == Bump(s.layerHits, key / EXPERTS, o.hit)
    && s'.layerMisses == Bump(s.layerMisses, key / EXPERTS, !o.hit)
  }

  lemma HitCounts(s: State, key: Key, kind: nat)
    requires Inv(s) && key in s.lookup
    ensures ValidKey(key) && Counts(s, key, kind, Outcome(true, s.lookup[key], -1), Hit(s, key, Some(kind)))
  {
    assert |s.layerHits| == LAYERS;
    hide Queued, Demote;
  }

  lemma AdmitCounts(s: State, spent: seq<Option<Entry>>, hand: nat, slot: nat, key: Key, kind: nat)
    requires Inv(s) && ValidKey(key) && slot < |spent| == |s.slots|
    ensures |s.layerMisses| == LAYERS
    ensures Counts(s, key, kind, Outcome(false, slot, if s.slots[slot].Some? then s.slots[slot].value.key else -1),
                   Admit(s, spent, hand, slot, key))
  {
    hide Inv, Dequeue, Reindex;
    InvSizes(s);
    if s.slots[slot].Some? {
      VictimIsValid(s, slot);
    }
  }

  lemma CountersFollow(s: State, key: Key, kind: nat)
    requires Inv(s) && Acquired(s, key, Some(kind)).1.Some?
    ensures ValidKey(key)
    ensures Counts(s, key, kind, Acquired(s, key, Some(kind)).1.value, Acquired(s, key, Some(kind)).0)
  {
    if key in s.lookup {
      HitCounts(s, key, kind);
    } else {
      SelectIsFair(s);
      AdmitCounts(s, Select(s).slots, Select(s).hand, Select(s).selected.value, key, kind);
    }
    hide Inv, Counts, Select, Hit, Admit;
  }

  lemma AcquireTellsStats(events: seq<Event>, n: nat)
    requires n < |events| && events[n].AcquireRecord?
    ensures var t, e := StatsTold(events, n), events[n];
      StatsTold(events, n + 1) ==
        Stats(t.hits + (if e.kind != 0 then 1 else 0), t.misses + (if e.kind == 0 then 1 else 0),
              t.evictions + (if e.victim != -1 then 1 else 0),
              t.readyHits + (if e.kind == 1 then 1 else 0), t.joins + (if e.kind == 2 then 1 else 0),
              Bump(t.layerHits, e.key / EXPERTS, e.kind != 0), Bump(t.layerMisses, e.key / EXPERTS, e.kind == 0))
    ensures Requests(events, n + 1)
         == Requests(events, n) + [R.Request(R.Acquire, events[n].key, ForwardsEnded(events, n))]
  {
  }

  /** The checker accepts an acquisition exactly when it is the next record's and carries the outcome. */
  lemma AcquisitionIff(w: Workload, b: Book, s: State, e: Event, live: multiset<Key>)
    requires Inv(s) && s.policy == Clock && Holds(s, live) && e.AcquireRecord? && b.pending.None?
    requires b.active.Some? ==> forall i :: 0 <= i < |b.active.value.selected| ==> ValidKey(b.active.value.selected[i])
    ensures Check(w, b, s, e).Ok? <==>
      && b.active.Some? && b.active.value.index < |b.active.value.selected|
      && e.key == b.active.value.selected[b.active.value.index] && OutcomeTold(s, e)
    ensures Check(w, b, s, e).Ok? ==> Between(e.kind, 0, 2)
    ensures Check(w, b, s, e).Ok? ==>
              Acquired(s, e.key, Some(e.kind)).1 == Some(Outcome(e.kind != 0, e.slot, e.victim))
  {
    if b.active.Some? && b.active.value.index < |b.active.value.selected|
       && e.key == b.active.value.selected[b.active.value.index] {
      assert ValidKey(e.key);
      if Between(e.kind, 0, 2) {
        OutcomeToldIff(s, e, live);
      }
      hide Inv, Holds, Acquired, ClockPicks;
    }
  }

  /** A request opens and closes nothing. */
  lemma RequestStays(events: seq<Event>, n: nat)
    requires n < |events| && (events[n].AcquireRecord? || events[n].Lease?)
    ensures InForward(events, n + 1) == InForward(events, n)
    ensures ForwardsEnded(events, n + 1) == ForwardsEnded(events, n)
    ensures LayersBegun(events, n + 1) == LayersBegun(events, n) && Wanted(events, n + 1) == Wanted(events, n)
    ensures SnapshotsSince(events, n + 1) == SnapshotsSince(events, n)
    ensures SnapshotsTaken(events, n + 1) == SnapshotsTaken(events, n)
    ensures AcquiredSince(events, n + 1) == AcquiredSince(events, n) + if events[n].AcquireRecord? then 1 else 0
  {
  }

  lemma AcquisitionMirrors(w: Workload, events: seq<Event>, n: nat, b: Book, s: State, s': State, o: Outcome)
    requires n < |events| && events[n].AcquireRecord? && Mirrors(w, events, n, b, s) && b.active.Some?
    requires Between(events[n].kind, 0, 2) && Counts(s, events[n].key, events[n].kind, o, s')
    requires o == Outcome(events[n].kind != 0, o.slot, events[n].victim) && events[n].key in s'.lookup
    ensures var a, e := b.active.value, events[n];
      Mirrors(w, events, n + 1,
              b.(active := Some(a.(index := a.index + 1, demands := a.demands + [e.key])), pending := Some(e.key),
                 requests := b.requests + [R.Request(R.Acquire, e.key, |b.forwards|)]), s')
  {
    RequestStays(events, n);
    AcquireTellsStats(events, n);
    hide Requests, StatsTold, InForward, ForwardsEnded, LayersBegun, Wanted, SnapshotsSince, SnapshotsTaken,
      AcquiredSince, Bump;
  }

  lemma AcquisitionFollows(w: Workload, events: seq<Event>, n: nat, b: Book, s: State)
    requires n < |events| && events[n].AcquireRecord? && Mirrors(w, events, n, b, s) && SameCache(w, events, n, s)
    ensures Check(w, b, s, events[n]).Ok? <==> Told(w, events, n)
    ensures Told(w, events, n) ==>
      Mirrors(w, events, n + 1, Check(w, b, s, events[n]).value.0, Check(w, b, s, events[n]).value.1)
  {
    var e := events[n];
    if b.pending.None? {
      AcquisitionIff(w, b, s, e, LiveAt(events, n));
      ToldAcquisition(w, events, n, s);
      if Check(w, b, s, e).Ok? {
        AcquireChecked(w, b, s, e);
        CountersFollow(s, e.key, e.kind);
        AcquireKeepsLeases(s, e.key, Some(e.kind), LiveAt(events, n));
        var (s', o) := Acquired(s, e.key, Some(e.kind));
        AcquisitionMirrors(w, events, n, b, s, s', o.value);
      }
      hide Inv, Holds, Acquired, Check, LiveAt, Requests, StatsTold, CacheAt, OutcomeTold, AcquisitionTold,
        Wanted, InForward, AcquiredSince, Counts, LayersBegun, ForwardsEnded, SnapshotsSince, SnapshotsTaken;
    } else {
      hide Inv, Holds, Acquired, LiveAt, Requests, StatsTold, CacheAt, AcquisitionTold, Wanted, InForward,
        AcquiredSince;
    }
  }

  lemma ToldAcquisition(w: Workload, events: seq<Event>, n: nat, s: State)
    requires n < |events| && events[n].AcquireRecord? && CacheAt(w, events, n) == Forget(s)
    ensures AcquisitionTold(w, events, n) <==>
      && InForward(events, n) && AcquiredSince(events, n) < |Wanted(events, n)|
      && events[n].key == Wanted(events, n)[AcquiredSince(events, n)] && OutcomeTold(s, events[n])
  {
    hide CacheAt, ClockPicks, InForward, Wanted, AcquiredSince;
  }

  lemma LeaseTellsRequest(events: seq<Event>, n: nat)
    requires n < |events| && events[n].Lease?
    ensures var e := events[n];
      && Requests(events, n + 1)
         == Requests(events, n) + [R.Request(if e.release then R.Release else R.Pin, e.key, ForwardsEnded(events, n))]
      && StatsTold(events, n + 1) == StatsTold(events, n)
  {
  }

  lemma LeaseTellsLive(events: seq<Event>, n: nat)
    requires n < |events| && events[n].Lease?
    ensures var e := events[n];
      && Requests(events, n + 1)
         == Requests(events, n) + [R.Request(if e.release then R.Release else R.Pin, e.key, ForwardsEnded(events, n))]
      && LiveAt(events, n + 1)
         == (if e.release then LiveAt(events, n) - multiset{e.key} else LiveAt(events, n) + multiset{e.key})
      && StatsTold(events, n + 1) == StatsTold(events, n)
  {
    var e := events[n];
    LeaseTellsRequest(events, n);
    LiveNext(Requests(events, n), R.Request(if e.release then R.Release else R.Pin, e.key, ForwardsEnded(events, n)));
    hide R.Live, Requests, StatsTold, ForwardsEnded;
  }

  lemma AtMostAll(m: multiset<Key>, k: Key)
    ensures m[k] <= |m|
  {
    assert m == m[k := 0] + multiset{}[k := m[k]];
  }

  lemma LeaseCheckedIff(w: Workload, b: Book, s: State, e: Event)
    requires Inv(s) && e.Lease? && b.maxPins <= 32
    ensures Check(w, b, s, e).Ok? <==>
      && (b.pending.Some? ==> !e.release) && MayLease(b, e)
      && Leased(s, e.key, e.release).1 == Some(e.pins)
      && PinSum(Leased(s, e.key, e.release).0.slots) <= 32
  {
    hide Inv, Leased, PinSum, MayLease;
  }

  /** A lease event is accepted exactly when it pins what is pending, or releases what is live, and counts right. */
  lemma LeaseIff(w: Workload, b: Book, s: State, e: Event, live: multiset<Key>)
    requires Inv(s) && Holds(s, live) && e.Lease? && b.maxPins <= 32
    requires b.pending.Some? ==> b.pending.value in s.lookup
    ensures var after := if e.release then live - multiset{e.key} else live + multiset{e.key};
      Check(w, b, s, e).Ok? <==>
        && (b.pending.Some? ==> !e.release)
        && (if e.release then e.key in live && e.ready == Some(true) else b.pending == Some(e.key) && e.ready == None)
        && e.pins == after[e.key] && |after| <= 32
  {
    var after := if e.release then live - multiset{e.key} else live + multiset{e.key};
    AtMostAll(after, e.key);
    LeaseCheckedIff(w, b, s, e);
    LeaseServedIff(s, e.key, e.release, live);
    LiveIsResident(s, e.key, live);
    if e.key in s.lookup && (e.release ==> e.key in live) {
      LeaseKeepsLeases(s, e.key, e.release, live);
      LedgerTotal(Leased(s, e.key, e.release).0, after);
      ResidentIsValid(s, e.key);
    }
    hide Inv, Holds, Leased, PinSum, Check;
  }

  lemma LedgerTotal(s: State, live: multiset<Key>)
    requires Holds(s, live)
    ensures PinSum(s.slots) == |live|
  {
  }

  lemma LiveIsResident(s: State, key: Key, live: multiset<Key>)
    requires Holds(s, live)
    ensures key in live ==> key in s.lookup
  {
  }

  lemma ResidentIsValid(s: State, key: Key)
    requires Inv(s) && key in s.lookup
    ensures ValidKey(key)
  {
  }

  lemma LeaseFollows(w: Workload, events: seq<Event>, n: nat, b: Book, s: State)
    requires n < |events| && events[n].Lease? && Mirrors(w, events, n, b, s) && SameCache(w, events, n, s)
    requires b.maxPins <= 32
    ensures Check(w, b, s, events[n]).Ok? <==> Told(w, events, n)
    ensures Told(w, events, n) ==>
      Mirrors(w, events, n + 1, Check(w, b, s, events[n]).value.0, Check(w, b, s, events[n]).value.1)
  {
    var e := events[n];
    RequestStays(events, n);
    hide Inv, Holds, Leased, Check, LiveAt, Requests, StatsTold, CacheAt, InForward, ForwardsEnded, LayersBegun,
      Wanted, SnapshotsSince, SnapshotsTaken, AcquiredSince;
    LeaseIff(w, b, s, e, LiveAt(events, n));
    LeaseTellsLive(events, n);
    if Check(w, b, s, e).Ok? {
      LeaseChecked(w, b, s, e);
      LeaseCounters(s, e.key, e.release);
      PendingCleared(w, b, s, e);
    }
  }

  lemma LeaseCounters(s: State, key: Key, release: bool)
    requires Inv(s)
    ensures var s' := Leased(s, key, release).0;
      && s'.hits == s.hits && s'.misses == s.misses && s'.evictions == s.evictions && s'.readyHits == s.readyHits
      && s'.joins == s.joins && s'.layerHits == s.layerHits && s'.layerMisses == s.layerMisses
  {
  }

  lemma PendingCleared(w: Workload, b: Book, s: State, e: Event)
    requires Inv(s) && e.Lease? && Check(w, b, s, e).Ok?
    ensures Check(w, b, s, e).value.0.pending.None?
  {
    hide Inv, Leased;
  }

  /** One event: accepted exactly when told, and then book and cache are again what the events tell. */
  lemma EventFollows(w: Workload, events: seq<Event>, n: nat, b: Book, s: State)
    requires n < |events| && Mirrors(w, events, n, b, s) && SameCache(w, events, n, s) && b.maxPins <= 32
    ensures Check(w, b, s, events[n]).Ok? <==> Told(w, events, n)
    ensures Told(w, events, n) ==>
      Mirrors(w, events, n + 1, Check(w, b, s, events[n]).value.0, Check(w, b, s, events[n]).value.1)
  {
    match events[n]
    case ForwardBegin(_, _, _, _) => BeginFollows(w, events, n, b, s);
    case Layer(_, _, _, _, _) => LayerFollows(w, events, n, b, s);
    case AcquireRecord(_, _, _, _) => AcquisitionFollows(w, events, n, b, s);
    case Lease(_, _, _, _) => LeaseFollows(w, events, n, b, s);
    case Snapshot(_, _, _) => SnapshotFollows(w, events, n, b, s);
    case ForwardEnd(_) => EndFollows(w, events, n, b, s);
    case Unknown => UnknownIsRejected(w, b, s, events[n]);
  }

  lemma UnknownIsRejected(w: Workload, b: Book, s: State, e: Event)
    requires Inv(s) && e.Unknown?
    ensures Check(w, b, s, e).Err?
  {
  }

  lemma StartMirrors(w: Workload, events: seq<Event>)
    ensures Mirrors(w, events, 0, BLANK, Fresh(w.capacity, Clock))
  {
  }

  /** The checker accepts a prefix exactly when each of its events is told, and its book holds what they tell. */
  lemma {:induction false} FoldIffTold(w: Workload, events: seq<Event>, n: nat)
    requires Covers(w) && n <= |events|
    ensures Fold(w, events, n).Ok? <==> AllTold(w, events, n)
    ensures Fold(w, events, n).Ok? ==>
              Mirrors(w, events, n, Fold(w, events, n).value.0, Fold(w, events, n).value.1)
  {
    hide Check, Inv, Covers, Told, Mirrors, Sound;
    if n == 0 {
      StartMirrors(w, events);
    } else {
      FoldIffTold(w, events, n - 1);
      AllToldNext(w, events, n - 1);
      if Fold(w, events, n - 1).Ok? {
        FoldIsSound(w, events, n - 1);
        var (b, s) := Fold(w, events, n - 1).value;
        SoundMeansSame(w, events, n - 1, b, s);
        SameIsInv(w, events, n - 1, s);
        hide SameCache, AllTold;
        EventFollows(w, events, n - 1, b, s);
      }
    }
  }

  lemma SameIsInv(w: Workload, events: seq<Event>, n: nat, s: State)
    requires n <= |events| && SameCache(w, events, n, s)
    ensures Inv(s)
  {
  }

  lemma AllToldNext(w: Workload, events: seq<Event>, n: nat)
    requires n < |events|
    ensures AllTold(w, events, n + 1) <==> AllTold(w, events, n) && Told(w, events, n)
  {
    hide Told;
  }

  /** Everything is closed: as many forwards as expected, none open, no pin awaited and no lease live. */
  ghost predicate Finished(w: Workload, events: seq<Event>) {
    var n := |events|;
    && !InForward(events, n) && !AwaitsPin(events, n) && ForwardsEnded(events, n) == |w.patterns|
    && LiveAt(events, n) == multiset{}
  }

  /**
   * A capture is accepted exactly when it is the true record of a CLOCK run of its workload: every event tells what
   * that run did, and the run is complete. What is recorded of it is what the events tell.
   */
  lemma AcceptedIffTold(w: Workload, events: seq<Event>)
    ensures Decoded(w, events).Ok? <==>
      |events| + 2 <= 100000 && Covers(w) && AllTold(w, events, |events|) && Finished(w, events)
    ensures Decoded(w, events).Ok? ==>
      var trace := Decoded(w, events).value;
      && trace.capacity == w.capacity && trace.requests == Requests(events, |events|)
      && |trace.forwards| == |w.patterns| && trace.snapshots == SnapshotsTaken(events, |events|)
  {
    if |events| + 2 <= 100000 && Covers(w) {
      hide Fold, Inv, Covers, AllTold, Told, Sound;
      FoldIffTold(w, events, |events|);
      if Fold(w, events, |events|).Ok? {
        FoldIsSound(w, events, |events|);
        var (b, s) := Fold(w, events, |events|).value;
        SoundMeansSame(w, events, |events|, b, s);
        NothingLive(s, LiveAt(events, |events|));
        hide LiveAt, Holds, Requests, CacheAt, StatsTold, InForward, Wanted, ForwardsEnded, PinSum;
      }
    }
  }

  // ---------- what each forward records ----------

  /** The records acquired in forward `f`, in order, and how many of the acquisitions hit. */
  ghost function DemandsTold(events: seq<Event>, n: nat, f: nat): seq<Key>
    requires n <= |events|
  {
    if n == 0 then []
    else
      DemandsTold(events, n - 1, f)
      + if events[n - 1].AcquireRecord? && ForwardsEnded(events, n - 1) == f then [events[n - 1].key] else []
  }

  ghost function HitsTold(events: seq<Event>, n: nat, f: nat): nat
    requires n <= |events|
  {
    if n == 0 then 0
    else
      HitsTold(events, n - 1, f)
      + if events[n - 1].AcquireRecord? && ForwardsEnded(events, n - 1) == f && events[n - 1].kind != 0 then 1 else 0
  }

  lemma {:induction false} NothingYet(events: seq<Event>, n: nat, f: nat)
    requires n <= |events| && f > ForwardsEnded(events, n)
    ensures DemandsTold(events, n, f) == [] && HitsTold(events, n, f) == 0
  {
    if n > 0 {
      NothingYet(events, n - 1, f);
    }
  }

  ghost predicate ForwardTold(w: Workload, events: seq<Event>, n: nat, f: nat, done: Forward)
    requires n <= |events|
  {
    && f < |w.patterns| && done.offset == w.patterns[f].offset && done.tokens == w.patterns[f].tokens
    && done.demands == DemandsTold(events, n, f)
    && done.hits == HitsTold(events, n, f) && done.misses == |done.demands| - done.hits
  }

  /** Finished forwards hold what the events tell of them; the open one is still collecting. */
  ghost predicate Recounts(w: Workload, events: seq<Event>, n: nat, b: Book, s: State)
    requires n <= |events|
  {
    var f := |b.forwards|;
    && (forall g :: 0 <= g < f ==> ForwardTold(w, events, n, g, b.forwards[g]))
    && if b.active.None? then DemandsTold(events, n, f) == [] && HitsTold(events, n, f) == 0
       else
         var a := b.active.value;
         && a.demands == DemandsTold(events, n, f) && s.hits - a.hitsBefore == HitsTold(events, n, f)
         && s.misses - a.missesBefore == |a.demands| - HitsTold(events, n, f)
  }

  lemma TellsOneMore(events: seq<Event>, n: nat)
    requires n < |events|
    ensures forall f: nat {:trigger DemandsTold(events, n + 1, f)} ::
              DemandsTold(events, n + 1, f) == DemandsTold(events, n, f)
                + (if events[n].AcquireRecord? && ForwardsEnded(events, n) == f then [events[n].key] else [])
    ensures forall f: nat {:trigger HitsTold(events, n + 1, f)} ::
              HitsTold(events, n + 1, f) == HitsTold(events, n, f)
                + (if events[n].AcquireRecord? && ForwardsEnded(events, n) == f && events[n].kind != 0 then 1 else 0)
  {
  }

  lemma AcquisitionRecounts(w: Workload, events: seq<Event>, n: nat, b: Book, s: State)
    requires n < |events| && Inv(s) && events[n].AcquireRecord? && Recounts(w, events, n, b, s)
    requires |b.forwards| == ForwardsEnded(events, n) && Check(w, b, s, events[n]).Ok?
    requires events[n].kind >= 0
    requires var o := Acquired(s, events[n].key, Some(events[n].kind)).1;
      o.Some? ==> o.value.hit == (events[n].kind != 0)
    ensures Recounts(w, events, n + 1, Check(w, b, s, events[n]).value.0, Check(w, b, s, events[n]).value.1)
  {
    hide Inv, Check, Acquired, DemandsTold, HitsTold, ForwardsEnded, Bump;
    var e := events[n];
    TellsOneMore(events, n);
    AcquireChecked(w, b, s, e);
    CountersFollow(s, e.key, e.kind);
  }

  lemma OtherRecounts(w: Workload, events: seq<Event>, n: nat, b: Book, s: State)
    requires n < |events| && Inv(s) && !events[n].AcquireRecord? && !events[n].Lease?
    requires Mirrors(w, events, n, b, s) && Recounts(w, events, n, b, s) && Check(w, b, s, events[n]).Ok?
    ensures Recounts(w, events, n + 1, Check(w, b, s, events[n]).value.0, Check(w, b, s, events[n]).value.1)
  {
    hide Inv, Check, DemandsTold, HitsTold, ForwardsEnded, PinSum, DemandOrder, TopRoutes, Requests, StatsTold,
      InForward, Wanted, LayersBegun, SnapshotsSince, SnapshotsTaken, AcquiredSince, SnapshotMatches;
    TellsOneMore(events, n);
    OtherChecked(w, b, s, events[n]);
    NothingYet(events, n, |b.forwards| + 1);
  }

  lemma LeaseRecounts(w: Workload, events: seq<Event>, n: nat, b: Book, s: State)
    requires n < |events| && Inv(s) && events[n].Lease?
    requires Recounts(w, events, n, b, s) && Check(w, b, s, events[n]).Ok?
    ensures Recounts(w, events, n + 1, Check(w, b, s, events[n]).value.0, Check(w, b, s, events[n]).value.1)
  {
    TellsOneMore(events, n);
    LeaseChecked(w, b, s, events[n]);
    hide Inv, Check, DemandsTold, HitsTold, ForwardsEnded;
  }

  lemma {:induction false} FoldRecounts(w: Workload, events: seq<Event>, n: nat)
    requires Covers(w) && n <= |events| && Fold(w, events, n).Ok?
    ensures Recounts(w, events, n, Fold(w, events, n).value.0, Fold(w, events, n).value.1)
  {
    hide Check, Inv, Covers, Mirrors, Recounts, Sound;
    if n == 0 {
      StartRecounts(w, events);
    } else {
      FoldRecounts(w, events, n - 1);
      FoldIffTold(w, events, n - 1);
      FoldIsSound(w, events, n - 1);
      var (b, s) := Fold(w, events, n - 1).value;
      var e := events[n - 1];
      if e.AcquireRecord? {
        SoundMeansSame(w, events, n - 1, b, s);
        AcquisitionHits(w, events, n - 1, b, s);
        AcquisitionRecounts(w, events, n - 1, b, s);
      } else if e.Lease? {
        LeaseRecounts(w, events, n - 1, b, s);
      } else {
        OtherRecounts(w, events, n - 1, b, s);
      }
    }
  }

  lemma StartRecounts(w: Workload, events: seq<Event>)
    ensures Recounts(w, events, 0, BLANK, Fresh(w.capacity, Clock))
  {
  }

  lemma AcquisitionHits(w: Workload, events: seq<Event>, n: nat, b: Book, s: State)
    requires n < |events| && events[n].AcquireRecord? && Mirrors(w, events, n, b, s) && SameCache(w, events, n, s)
    requires Check(w, b, s, events[n]).Ok?
    ensures |b.forwards| == ForwardsEnded(events, n) && events[n].kind >= 0
    ensures var o := Acquired(s, events[n].key, Some(events[n].kind)).1;
      o.Some? && o.value.hit == (events[n].kind != 0)
  {
    hide Inv, Holds, Acquired, LiveAt, Requests, StatsTold, CacheAt;
    AcquireChecked(w, b, s, events[n]);
    AcquisitionIff(w, b, s, events[n], LiveAt(events, n));
    hide Check;
  }

  /** Every forward of an accepted capture is recorded with its records in order and its hits and misses. */
  lemma ForwardsAreTold(w: Workload, events: seq<Event>, f: nat)
    requires Decoded(w, events).Ok? && f < |Decoded(w, events).value.forwards|
    ensures ForwardTold(w, events, |events|, f, Decoded(w, events).value.forwards[f])
  {
    hide Fold, Covers, ForwardTold;
    FoldRecounts(w, events, |events|);
    hide DemandsTold, HitsTold;
  }
}
