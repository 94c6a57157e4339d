/** Counting hits and misses of each policy over cold-start segments. */
module Counts {
  import opened Common
  import opened Demand
  import Oracle = BeladyPolicy
  import Second = ClockPolicy
  import Segmented = SlruPolicy

  datatype Policy = Clock | SegmentedLru | Belady

  datatype Owner = Owner(requestId: nat, phase: Option<string>)

  /** Accesses start..end of a segment belong to one request in one phase. */
  datatype Span = Span(start: nat, end: nat, owner: Owner)

  /** No spans when the capture carries no explicit boundaries. */
  datatype Segment = Segment(accesses: seq<Key>, spans: seq<Span>)

  datatype Answer = Answer(hits: nat, misses: nat, missBytes: nat, hitFraction: Option<real>,
                           layers: seq<Tally>, phases: map<Owner, Tally>)

  ghost predicate Tiles(spans: seq<Span>, length: nat) {
    if spans == [] then length == 0
    else
      var last := spans[|spans| - 1];
      last.start < last.end == length && Tiles(spans[..|spans| - 1], last.start)
  }

  ghost predicate WellFormed(segment: Segment) {
    && (forall i :: 0 <= i < |segment.accesses| ==> 0 <= segment.accesses[i] < LAYERS * EXPERTS)
    && (segment.spans != [] ==> Tiles(segment.spans, |segment.accesses|))
  }

  ghost function Caches(policy: Policy, keys: seq<Key>, capacity: nat): (c: Schedule)
    ensures |c| == |keys| + 1
  {
    match policy
    case Clock => Second.Caches(keys, capacity)
    case SegmentedLru => Segmented.Caches(keys, capacity)
    case Belady => Oracle.Caches(keys, capacity)
  }

  lemma PolicyIsLazy(policy: Policy, keys: seq<Key>, capacity: nat)
    ensures IsLazy(keys, capacity, Caches(policy, keys, capacity))
    ensures IsSchedule(keys, capacity, Caches(policy, keys, capacity))
  {
    match policy
    case Clock => Second.CachesAreLazy(keys, capacity);
    case SegmentedLru => Segmented.CachesAreLazy(keys, capacity);
    case Belady => Oracle.CachesAreLazy(keys, capacity);
  }

  // ---------- one segment through one policy object ----------

  lemma ClockHit(keys: seq<Key>, capacity: nat, i: nat)
    requires i < |keys|
    ensures !MissesAt(keys, Caches(Clock, keys, capacity), i) <==> keys[i] in Second.After(keys, capacity, i).lookup
    ensures Second.After(keys, capacity, i + 1) == Second.Step(Second.After(keys, capacity, i), keys[i])
  {
  }

  lemma ClockStart(keys: seq<Key>, capacity: nat)
    ensures Second.After(keys, capacity, 0) == Second.Empty(capacity)
  {
  }

  lemma SlruHit(keys: seq<Key>, capacity: nat, i: nat)
    requires i < |keys|
    ensures !MissesAt(keys, Caches(SegmentedLru, keys, capacity), i)
       <==> keys[i] in Segmented.Residents(Segmented.After(keys, capacity, i))
    ensures Segmented.After(keys, capacity, i + 1)
         == Segmented.Step(Segmented.After(keys, capacity, i), capacity, keys[i])
  {
  }

  lemma BeladyHit(keys: seq<Key>, capacity: nat, i: nat)
    requires i < |keys|
    ensures !MissesAt(keys, Caches(Belady, keys, capacity), i) <==> keys[i] in Oracle.ResidentAfter(keys, capacity, i)
  {
  }

  method ReplayClock(keys: seq<Key>, capacity: nat) returns (hits: seq<bool>)
    ensures hits == Hits(keys, Caches(Clock, keys, capacity), |keys|)
  {
    hide Second.Inv, Second.Step, Second.After;
    var cache := new Second.Clock(capacity);
    ClockStart(keys, capacity);
    ghost var caches := Caches(Clock, keys, capacity);
    hits := [];
    for i := 0 to |keys|
      invariant fresh(cache) && fresh(cache.slots) && fresh(cache.referenced) && cache.Valid()
      invariant cache.State() == Second.After(keys, capacity, i)
      invariant hits == Hits(keys, caches, i)
    {
      ClockHit(keys, capacity, i);
      var hit := cache.Access(keys[i]);
      hits := hits + [hit];
    }
  }

  method ReplaySlru(keys: seq<Key>, capacity: nat) returns (hits: seq<bool>)
    ensures hits == Hits(keys, Caches(SegmentedLru, keys, capacity), |keys|)
  {
    var cache := new Segmented.SegmentedLru(capacity);
    ghost var caches := Caches(SegmentedLru, keys, capacity);
    hits := [];
    for i := 0 to |keys|
      invariant fresh(cache) && cache.Valid()
      invariant cache.State() == Segmented.After(keys, capacity, i) && cache.capacity == capacity
      invariant hits == Hits(keys, caches, i)
    {
      SlruHit(keys, capacity, i);
      var hit := cache.Access(keys[i]);
      hits := hits + [hit];
    }
  }

  method ReplayBelady(keys: seq<Key>, capacity: nat) returns (hits: seq<bool>)
    ensures hits == Hits(keys, Caches(Belady, keys, capacity), |keys|)
  {
    var cache := new Oracle.Belady(capacity, keys);
    ghost var uses := cache.next;
    ghost var caches := Caches(Belady, keys, capacity);
    hits := [];
    for i := 0 to |keys|
      invariant fresh(cache) && cache.Valid()
      invariant cache.resident == Oracle.ResidentAfter(keys, capacity, i) && cache.capacity == capacity
      invariant cache.next == uses
      invariant hits == Hits(keys, caches, i)
    {
      BeladyHit(keys, capacity, i);
      var hit := cache.Access(keys[i], i);
      hits := hits + [hit];
    }
  }

  // ---------- the log of everything counted ----------

  datatype Access = Access(layer: nat, hit: bool, owner: Option<Owner>)

  /** The span that covers `position`, searching from `first` on. */
  function SpanOf(spans: seq<Span>, position: nat, first: nat): (index: nat)
    requires first < |spans| && position < spans[|spans| - 1].end
    ensures first <= index < |spans|
    ensures position < spans[index].end
    ensures forall j :: first <= j < index ==> spans[j].end <= position
    decreases |spans| - first
  {
    if spans[first].end <= position then SpanOf(spans, position, first + 1) else first
  }

  ghost function OwnerAt(segment: Segment, position: nat): Option<Owner>
    requires WellFormed(segment) && position < |segment.accesses|
  {
    if segment.spans == [] then None else Some(segment.spans[SpanOf(segment.spans, position, 0)].owner)
  }

  lemma {:induction false} TilesEndsGrow(spans: seq<Span>, length: nat, j: nat)
    requires Tiles(spans, length) && j < |spans|
    ensures spans[j].start < spans[j].end <= length
    ensures spans[j].start == if j == 0 then 0 else spans[j - 1].end
    ensures j + 1 < |spans| ==> spans[j].end < length
  {
    if j < |spans| - 1 {
      TilesEndsGrow(spans[..|spans| - 1], spans[|spans| - 1].start, j);
    } else if j > 0 {
      TilesEndsGrow(spans[..|spans| - 1], spans[|spans| - 1].start, j - 1);
    }
  }

  /** Spans that tile a segment give each position to the one span around it. */
  lemma SpanOfIsAround(spans: seq<Span>, length: nat, position: nat)
    requires Tiles(spans, length) && position < length
    ensures var i := SpanOf(spans, position, 0); spans[i].start <= position < spans[i].end
    ensures forall j :: 0 <= j < |spans| && spans[j].start <= position < spans[j].end ==>
      j == SpanOf(spans, position, 0)
  {
    var i := SpanOf(spans, position, 0);
    TilesEndsGrow(spans, length, i);
    forall j | 0 <= j < |spans| && spans[j].start <= position < spans[j].end
      ensures j == i
    {
      if j > i {
        StartsAfter(spans, length, i, j);
      }
    }
  }

  lemma {:induction false} StartsAfter(spans: seq<Span>, length: nat, i: nat, j: nat)
    requires Tiles(spans, length) && i < j < |spans|
    ensures spans[i].end <= spans[j].start
  {
    TilesEndsGrow(spans, length, j);
    if i + 1 < j {
      StartsAfter(spans, length, i, j - 1);
      TilesEndsGrow(spans, length, j - 1);
    }
  }

  ghost function LogOf(segment: Segment, caches: Schedule, n: nat): seq<Access>
    requires WellFormed(segment) && n <= |segment.accesses| < |caches|
  {
    if n == 0 then []
    else LogOf(segment, caches, n - 1) +
         [Access(segment.accesses[n - 1] / EXPERTS, !MissesAt(segment.accesses, caches, n - 1),
                 OwnerAt(segment, n - 1))]
  }

  ghost predicate AllWellFormed(segments: seq<Segment>) {
    forall i :: 0 <= i < |segments| ==> WellFormed(segments[i])
  }

  /** Every access of every segment in order, each segment starting cold. */
  ghost function Log(policy: Policy, segments: seq<Segment>, capacity: nat): seq<Access>
    requires AllWellFormed(segments)
  {
    if segments == [] then []
    else
      var last := segments[|segments| - 1];
      Log(policy, segments[..|segments| - 1], capacity)
      + LogOf(last, Caches(policy, last.accesses, capacity), |last.accesses|)
  }

  ghost function Total(log: seq<Access>): Tally {
    if log == [] then Tally(0, 0)
    else Plus(Total(log[..|log| - 1]), log[|log| - 1].hit)
  }

  ghost function OnLayer(log: seq<Access>, layer: nat): Tally {
    if log == [] then Tally(0, 0)
    else
      var front, last := log[..|log| - 1], log[|log| - 1];
      if last.layer == layer then Plus(OnLayer(front, layer), last.hit) else OnLayer(front, layer)
  }

  ghost function OwnedBy(log: seq<Access>, owner: Owner): Tally {
    if log == [] then Tally(0, 0)
    else
      var front, last := log[..|log| - 1], log[|log| - 1];
      if last.owner == Some(owner) then Plus(OwnedBy(front, owner), last.hit) else OwnedBy(front, owner)
  }

  function Add(a: Tally, b: Tally): Tally {
    Tally(a.hits + b.hits, a.misses + b.misses)
  }

  function LayerSum(layers: seq<Tally>): Tally {
    if layers == [] then Tally(0, 0)
    else Add(LayerSum(layers[..|layers| - 1]), layers[|layers| - 1])
  }

  ghost function PhaseSum(phases: map<Owner, Tally>, owners: set<Owner>): Tally
    requires owners <= phases.Keys
    decreases owners
  {
    if owners == {} then Tally(0, 0)
    else
      var o := AnyOf(owners);
      Add(PhaseSum(phases, owners - {o}), phases[o])
  }

  /** What the counters must say about a log: each layer, each request and phase, and nothing else. */
  ghost predicate Records(log: seq<Access>, layers: seq<Tally>, phases: map<Owner, Tally>) {
    LayersRecord(log, layers) && PhasesRecord(log, phases)
  }

  ghost predicate LayersRecord(log: seq<Access>, layers: seq<Tally>) {
    |layers| == LAYERS && forall l :: 0 <= l < LAYERS ==> layers[l] == OnLayer(log, l)
  }

  ghost predicate PhasesRecord(log: seq<Access>, phases: map<Owner, Tally>) {
    && (forall o :: o in phases <==> exists i :: 0 <= i < |log| && log[i].owner == Some(o))
    && (forall o :: o in phases ==> phases[o] == OwnedBy(log, o))
  }

  lemma LayersRecorded(log: seq<Access>, layers: seq<Tally>, access: Access)
    requires LayersRecord(log, layers) && access.layer < LAYERS
    ensures LayersRecord(log + [access], layers[access.layer := Plus(layers[access.layer], access.hit)])
  {
    assert (log + [access])[..|log|] == log;
  }

  lemma PhasesRecorded(log: seq<Access>, phases: map<Owner, Tally>, access: Access)
    requires PhasesRecord(log, phases)
    ensures PhasesRecord(log + [access],
              if access.owner.None? then phases
              else
                var o := access.owner.value;
                phases[o := Plus(if o in phases then phases[o] else Tally(0, 0), access.hit)])
  {
    var log' := log + [access];
    assert log'[..|log|] == log;
    assert forall i :: 0 <= i < |log| ==> log'[i] == log[i];
    assert log'[|log|] == access;
    if access.owner.Some? && access.owner.value !in phases {
      NeverOwned(log, access.owner.value);
    }
  }

  method Bump(layers: seq<Tally>, phases: map<Owner, Tally>, layer: nat, hit: bool, owner: Option<Owner>,
              ghost log: seq<Access>)
    returns (layers': seq<Tally>, phases': map<Owner, Tally>)
    requires Records(log, layers, phases) && layer < LAYERS
    ensures Records(log + [Access(layer, hit, owner)], layers', phases')
  {
    ghost var access := Access(layer, hit, owner);
    LayersRecorded(log, layers, access);
    PhasesRecorded(log, phases, access);
    hide OnLayer, OwnedBy;
    layers' := layers[layer := Plus(layers[layer], hit)];
    phases' := phases;
    if owner.Some? {
      var o := owner.value;
      var p := if o in phases then phases[o] else Tally(0, 0);
      phases' := phases[o := Plus(p, hit)];
    }
  }

  lemma {:induction false} NeverOwned(log: seq<Access>, owner: Owner)
    requires forall i :: 0 <= i < |log| ==> log[i].owner != Some(owner)
    ensures OwnedBy(log, owner) == Tally(0, 0)
  {
    if log != [] {
      NeverOwned(log[..|log| - 1], owner);
    }
  }

  method Replay(policy: Policy, keys: seq<Key>, capacity: nat) returns (hits: seq<bool>)
    ensures hits == Hits(keys, Caches(policy, keys, capacity), |keys|)
  {
    match policy
    case Clock => hits := ReplayClock(keys, capacity);
    case SegmentedLru => hits := ReplaySlru(keys, capacity);
    case Belady => hits := ReplayBelady(keys, capacity);
  }

  /** What is reported of the counters. */
  function Answered(total: Tally, layers: seq<Tally>, phases: map<Owner, Tally>): Answer {
    Answer(total.hits, total.misses, total.misses * PAYLOAD_BYTES, HitFraction(total.hits, total.misses),
           layers, phases)
  }

  /** Drive each segment from a cold cache and count, per layer and per request and phase. */
  method Count(segments: seq<Segment>, capacity: nat, policy: Policy) returns (answer: Answer)
    requires AllWellFormed(segments)
    ensures Records(Log(policy, segments, capacity), answer.layers, answer.phases)
    ensures Tally(answer.hits, answer.misses) == Total(Log(policy, segments, capacity))
    ensures answer.missBytes == SegmentMisses(policy, segments, capacity) * PAYLOAD_BYTES
    ensures answer.hits + answer.misses == Demands(segments)
    ensures answer.hitFraction == HitFraction(answer.hits, answer.misses)
  {
    var layers := seq(LAYERS, _ => Tally(0, 0));
    var phases: map<Owner, Tally> := map[];
    ghost var log: seq<Access> := [];
    for s := 0 to |segments|
      invariant log == Log(policy, segments[..s], capacity)
      invariant Counted(log, layers, phases)
    {
      assert segments[..s + 1][..s] == segments[..s];
      var hits := Replay(policy, segments[s].accesses, capacity);
      ghost var caches := Caches(policy, segments[s].accesses, capacity);
      layers, phases := CountSegment(segments[s], hits, caches, layers, phases, log);
      log := log + LogOf(segments[s], caches, |segments[s].accesses|);
    }
    assert segments[..|segments|] == segments;
    LayersSumToTotal(log, layers);
    var total := LayerSum(layers);
    TotalsAreMisses(policy, segments, capacity);
    answer := Answered(total, layers, phases);
  }

  /** Every span before `index` ends at or before `position`. */
  ghost predicate Passed(spans: seq<Span>, position: nat, index: nat) {
    index < |spans| && forall j :: 0 <= j < index ==> spans[j].end <= position
  }

  method AdvanceSpan(spans: seq<Span>, position: nat, from: nat) returns (index: nat)
    requires Passed(spans, position, from)
    requires position < spans[|spans| - 1].end
    ensures Passed(spans, position, index) && index == SpanOf(spans, position, 0)
  {
    index := from;
    while spans[index].end <= position
      invariant Passed(spans, position, index)
      decreases |spans| - index
    {
      index := index + 1;
    }
  }

  method CountAccess(segment: Segment, position: nat, spanIndex: nat, hit: bool,
                     layers: seq<Tally>, phases: map<Owner, Tally>, ghost log: seq<Access>)
    returns (layers': seq<Tally>, phases': map<Owner, Tally>, spanIndex': nat)
    requires WellFormed(segment) && position < |segment.accesses|
    requires segment.spans != [] ==> Passed(segment.spans, position, spanIndex)
    requires Counted(log, layers, phases)
    ensures segment.spans != [] ==> Passed(segment.spans, position + 1, spanIndex')
    ensures Counted(log + [Access(segment.accesses[position] / EXPERTS, hit, OwnerAt(segment, position))],
                    layers', phases')
  {
    var owner := None;
    spanIndex' := spanIndex;
    if segment.spans != [] {
      spanIndex' := AdvanceSpan(segment.spans, position, spanIndex);
      owner := Some(segment.spans[spanIndex'].owner);
    }
    layers', phases' := Bump(layers, phases, segment.accesses[position] / EXPERTS, hit, owner, log);
  }

  ghost predicate Counted(log: seq<Access>, layers: seq<Tally>, phases: map<Owner, Tally>) {
    Records(log, layers, phases) && LayersValid(log)
  }

  method CountSegment(segment: Segment, hits: seq<bool>, ghost caches: Schedule,
                      layers: seq<Tally>, phases: map<Owner, Tally>, ghost log: seq<Access>)
    returns (layers': seq<Tally>, phases': map<Owner, Tally>)
    requires WellFormed(segment) && |segment.accesses| < |caches|
    requires hits == Hits(segment.accesses, caches, |segment.accesses|)
    requires Counted(log, layers, phases)
    ensures Counted(log + LogOf(segment, caches, |segment.accesses|), layers', phases')
  {
    layers', phases' := layers, phases;
    var spanIndex := 0;
    ghost var counted: seq<Access> := [];
    assert log + counted == log;
    for position := 0 to |segment.accesses|
      invariant counted == LogOf(segment, caches, position)
      invariant Counted(log + counted, layers', phases')
      invariant segment.spans != [] ==> Passed(segment.spans, position, spanIndex)
    {
      HitsAt(segment.accesses, caches, |segment.accesses|, position);
      ghost var next := [Access(segment.accesses[position] / EXPERTS, hits[position], OwnerAt(segment, position))];
      layers', phases', spanIndex :=
        CountAccess(segment, position, spanIndex, hits[position], layers', phases', log + counted);
      assert log + counted + next == log + (counted + next);
      counted := counted + next;
    }
  }

  // ---------- sums ----------

  ghost predicate LayersValid(log: seq<Access>) {
    forall i :: 0 <= i < |log| ==> log[i].layer < LAYERS
  }

  lemma {:induction false} LayerSumBump(layers: seq<Tally>, layer: nat, hit: bool)
    requires layer < |layers|
    ensures LayerSum(layers[layer := Plus(layers[layer], hit)]) == Plus(LayerSum(layers), hit)
  {
    var front := layers[..|layers| - 1];
    var bumped := layers[layer := Plus(layers[layer], hit)];
    if layer < |front| {
      LayerSumBump(front, layer, hit);
      assert bumped[..|bumped| - 1] == front[layer := Plus(front[layer], hit)];
    } else {
      assert bumped[..|bumped| - 1] == front;
    }
  }

  lemma {:induction false} LayerSumZero(layers: seq<Tally>, n: nat)
    requires n <= |layers|
    requires forall l :: 0 <= l < n ==> layers[l] == Tally(0, 0)
    ensures LayerSum(layers[..n]) == Tally(0, 0)
  {
    if n > 0 {
      LayerSumZero(layers, n - 1);
      var front := layers[..n];
      assert front[..n - 1] == layers[..n - 1];
      assert front[n - 1] == Tally(0, 0);
    }
  }

  /** The per-layer counters add up to the totals. */
  lemma {:induction false} LayersSumToTotal(log: seq<Access>, layers: seq<Tally>)
    requires LayersValid(log) && |layers| == LAYERS
    requires forall l :: 0 <= l < LAYERS ==> layers[l] == OnLayer(log, l)
    ensures LayerSum(layers) == Total(log)
  {
    if log == [] {
      LayerSumZero(layers, LAYERS);
      assert layers[..LAYERS] == layers;
    } else {
      var front, last := log[..|log| - 1], log[|log| - 1];
      var before := seq(LAYERS, l requires 0 <= l < LAYERS => OnLayer(front, l));
      LayersSumToTotal(front, before);
      LayerSumBump(before, last.layer, last.hit);
      assert layers == before[last.layer := Plus(before[last.layer], last.hit)];
    }
  }

  ghost function OwnerSum(log: seq<Access>, owners: set<Owner>): Tally
    decreases owners
  {
    if owners == {} then Tally(0, 0)
    else
      var o := AnyOf(owners);
      Add(OwnerSum(log, owners - {o}), OwnedBy(log, o))
  }

  lemma {:induction false} OwnerSumNext(log: seq<Access>, owners: set<Owner>)
    requires log != []
    ensures OwnerSum(log, owners)
         == if log[|log| - 1].owner.Some? && log[|log| - 1].owner.value in owners
            then Plus(OwnerSum(log[..|log| - 1], owners), log[|log| - 1].hit)
            else OwnerSum(log[..|log| - 1], owners)
    decreases owners
  {
    if owners != {} {
      OwnerSumNext(log, owners - {AnyOf(owners)});
    }
  }

  lemma {:induction false} OwnerSumEmpty(log: seq<Access>, owners: set<Owner>)
    requires log == []
    ensures OwnerSum(log, owners) == Tally(0, 0)
    decreases owners
  {
    if owners != {} {
      var o := AnyOf(owners);
      OwnerSumEmpty(log, owners - {o});
      assert OwnedBy(log, o) == Tally(0, 0);
    }
  }

  lemma {:induction false} OwnersCoverLog(log: seq<Access>, owners: set<Owner>)
    requires forall i :: 0 <= i < |log| ==> log[i].owner.Some? && log[i].owner.value in owners
    ensures OwnerSum(log, owners) == Total(log)
  {
    if log == [] {
      OwnerSumEmpty(log, owners);
    } else {
      OwnersCoverLog(log[..|log| - 1], owners);
      OwnerSumNext(log, owners);
    }
  }

  lemma {:induction false} PhaseSumIsOwnerSum(log: seq<Access>, layers: seq<Tally>, phases: map<Owner, Tally>,
                                              owners: set<Owner>)
    requires Records(log, layers, phases) && owners <= phases.Keys
    ensures PhaseSum(phases, owners) == OwnerSum(log, owners)
    decreases owners
  {
    if owners != {} {
      PhaseSumIsOwnerSum(log, layers, phases, owners - {AnyOf(owners)});
    }
  }

  /** When every access belongs to a span, the request and phase counters partition the totals. */
  lemma PhasesSumToTotal(log: seq<Access>, layers: seq<Tally>, phases: map<Owner, Tally>)
    requires Records(log, layers, phases)
    requires forall i :: 0 <= i < |log| ==> log[i].owner.Some?
    ensures PhaseSum(phases, phases.Keys) == Total(log)
  {
    PhaseSumIsOwnerSum(log, layers, phases, phases.Keys);
    OwnersCoverLog(log, phases.Keys);
  }

  lemma {:induction false} LogOfIsOwned(segment: Segment, caches: Schedule, n: nat)
    requires WellFormed(segment) && n <= |segment.accesses| < |caches|
    ensures LayersValid(LogOf(segment, caches, n))
    ensures segment.spans != [] ==> AllOwned(LogOf(segment, caches, n))
  {
    if n > 0 {
      LogOfIsOwned(segment, caches, n - 1);
    }
  }

  ghost predicate AllOwned(log: seq<Access>) {
    forall i :: 0 <= i < |log| ==> log[i].owner.Some?
  }

  /** Segments with spans leave no access without a layer or an owner. */
  lemma {:induction false} LogIsOwned(policy: Policy, segments: seq<Segment>, capacity: nat)
    requires AllWellFormed(segments)
    ensures LayersValid(Log(policy, segments, capacity))
    ensures (forall i :: 0 <= i < |segments| ==> segments[i].spans != []) ==> AllOwned(Log(policy, segments, capacity))
  {
    if segments != [] {
      var front, last := segments[..|segments| - 1], segments[|segments| - 1];
      LogIsOwned(policy, front, capacity);
      LogOfIsOwned(last, Caches(policy, last.accesses, capacity), |last.accesses|);
      hide LogOf, WellFormed, Caches;
    }
  }

  // ---------- comparing policies and budgets ----------

  ghost function SegmentMisses(policy: Policy, segments: seq<Segment>, capacity: nat): nat {
    if segments == [] then 0
    else
      var keys := segments[|segments| - 1].accesses;
      SegmentMisses(policy, segments[..|segments| - 1], capacity) + Misses(keys, Caches(policy, keys, capacity), |keys|)
  }

  ghost function Demands(segments: seq<Segment>): nat {
    if segments == [] then 0
    else Demands(segments[..|segments| - 1]) + |segments[|segments| - 1].accesses|
  }

  ghost function CompulsoryTotal(segments: seq<Segment>): nat {
    if segments == [] then 0
    else
      var keys := segments[|segments| - 1].accesses;
      CompulsoryTotal(segments[..|segments| - 1]) + |Demanded(keys, |keys|)|
  }

  lemma {:induction false} TotalConcat(a: seq<Access>, b: seq<Access>)
    ensures Total(a + b) == Add(Total(a), Total(b))
  {
    if b == [] {
      assert a + b == a;
    } else {
      var front, last := b[..|b| - 1], b[|b| - 1];
      var c := a + b;
      assert c[..|c| - 1] == a + front;
      assert c[|c| - 1] == last;
      TotalConcat(a, front);
    }
  }

  lemma {:induction false} TotalOfSegment(segment: Segment, caches: Schedule, n: nat)
    requires WellFormed(segment) && n <= |segment.accesses| < |caches|
    ensures var t := Total(LogOf(segment, caches, n));
            t.misses == Misses(segment.accesses, caches, n) && t.hits + t.misses == n
  {
    if n > 0 {
      TotalOfSegment(segment, caches, n - 1);
      var log := LogOf(segment, caches, n);
      assert log[..|log| - 1] == LogOf(segment, caches, n - 1);
    }
  }

  /** The counted totals are the misses of the policy's own schedules, and no demand goes uncounted. */
  lemma {:induction false} TotalsAreMisses(policy: Policy, segments: seq<Segment>, capacity: nat)
    requires AllWellFormed(segments)
    ensures var t := Total(Log(policy, segments, capacity));
            t.misses == SegmentMisses(policy, segments, capacity) && t.hits + t.misses == Demands(segments)
  {
    if segments != [] {
      var front, last := segments[..|segments| - 1], segments[|segments| - 1];
      TotalsAreMisses(policy, front, capacity);
      var caches := Caches(policy, last.accesses, capacity);
      TotalOfSegment(last, caches, |last.accesses|);
      TotalConcat(Log(policy, front, capacity), LogOf(last, caches, |last.accesses|));
    }
  }

  /** The oracle reads no more than any policy does with as many slots or fewer. */
  lemma {:induction false} OracleReadsLeast(policy: Policy, segments: seq<Segment>, fewer: nat, capacity: nat)
    requires fewer <= capacity
    ensures SegmentMisses(Belady, segments, capacity) <= SegmentMisses(policy, segments, fewer)
  {
    if segments != [] {
      OracleReadsLeast(policy, segments[..|segments| - 1], fewer, capacity);
      var keys := segments[|segments| - 1].accesses;
      PolicyIsLazy(policy, keys, fewer);
      Oracle.BeladyIsMinimal(keys, capacity, fewer, Caches(policy, keys, fewer), |keys|);
    }
  }

  /** Compulsory misses bound every policy from below, and are all there is once a segment fits. */
  lemma {:induction false} CompulsoryBound(policy: Policy, segments: seq<Segment>, capacity: nat)
    ensures SegmentMisses(policy, segments, capacity) >= CompulsoryTotal(segments)
    ensures (forall i :: 0 <= i < |segments| ==> |Demanded(segments[i].accesses, |segments[i].accesses|)| <= capacity)
        ==> SegmentMisses(policy, segments, capacity) == CompulsoryTotal(segments)
  {
    if segments != [] {
      CompulsoryBound(policy, segments[..|segments| - 1], capacity);
      var keys := segments[|segments| - 1].accesses;
      var caches := Caches(policy, keys, capacity);
      PolicyIsLazy(policy, keys, capacity);
      CompulsoryMisses(keys, capacity, caches, |keys|);
      if |Demanded(keys, |keys|)| <= capacity {
        OnlyCompulsoryMisses(keys, capacity, caches, |keys|);
      }
    }
  }

  const SLOT_BYTES: nat := 2768896

  function Slots(mib: nat): nat {
    mib * 1048576 / SLOT_BYTES
  }

  /** As many slots as fit the budget, and what they leave of it. */
  lemma SlotsFillBudget(mib: nat)
    ensures Slots(mib) * SLOT_BYTES <= mib * 1048576 < (Slots(mib) + 1) * SLOT_BYTES
  {
  }

  method CurvePoint(segments: seq<Segment>, mib: nat)
    returns (slots: nat, unused: nat, clock: Answer, segmented: Answer, oracle: Answer, clockMinusOracleReadBytes: int)
    requires AllWellFormed(segments)
    ensures slots * SLOT_BYTES + unused == mib * 1048576 && unused < SLOT_BYTES
    ensures clock.misses == SegmentMisses(Clock, segments, slots)
    ensures segmented.misses == SegmentMisses(SegmentedLru, segments, slots)
    ensures oracle.misses == SegmentMisses(Belady, segments, slots)
    ensures oracle.misses <= segmented.misses
    ensures 0 <= clockMinusOracleReadBytes == (clock.misses - oracle.misses) * PAYLOAD_BYTES
  {
    slots, unused := Slots(mib), mib * 1048576 % SLOT_BYTES;
    SlotsFillBudget(mib);
    hide Slots;
    clock := Count(segments, slots, Clock);
    segmented := Count(segments, slots, SegmentedLru);
    oracle := Count(segments, slots, Belady);
    clockMinusOracleReadBytes := clock.misses * PAYLOAD_BYTES - oracle.misses * PAYLOAD_BYTES;
    TotalsAreMisses(Clock, segments, slots);
    TotalsAreMisses(SegmentedLru, segments, slots);
    TotalsAreMisses(Belady, segments, slots);
    OracleReadsLeast(Clock, segments, slots, slots);
    OracleReadsLeast(SegmentedLru, segments, slots, slots);
  }

  /** Along the curve, a larger budget never makes the oracle read more. */
  lemma LargerBudgetNeverReadsMore(segments: seq<Segment>, small: nat, large: nat)
    requires small <= large
    ensures Slots(small) <= Slots(large)
    ensures SegmentMisses(Belady, segments, Slots(large)) <= SegmentMisses(Belady, segments, Slots(small))
  {
    OracleReadsLeast(Belady, segments, Slots(small), Slots(large));
  }
}
