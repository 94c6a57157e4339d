/** Checking a captured event trace against the CLOCK cache it must reproduce. */
module Decode {
  import opened Common
  import opened Demand
  import opened LeaseCache
  import Objects = LeaseCacheObject
  import R = Replay

  datatype Pattern = Pattern(offset: int, tokens: int, phase: string)

  datatype Workload = Workload(capacity: nat, patterns: seq<Pattern>, prompt: seq<int>, continuation: seq<int>)

  datatype Stats = Stats(hits: int, misses: int, evictions: int, readyHits: int, joins: int,
                         layerHits: seq<nat>, layerMisses: seq<nat>)

  datatype Event =
    | ForwardBegin(offset: int, tokens: int, input: seq<int>, phase: string)
    | Layer(layer: int, offset: int, tokens: int, routes: seq<int>, selected: seq<int>)
    | AcquireRecord(key: int, slot: int, victim: int, kind: int)
    | Lease(release: bool, key: int, pins: int, ready: Option<bool>)
    | Snapshot(hand: int, slots: seq<Option<Entry>>, stats: Stats)
    | ForwardEnd(position: int)
    | Unknown

  datatype Active = Active(offset: int, tokens: int, layers: nat, selected: seq<Key>, index: nat,
                           hitsBefore: nat, missesBefore: nat, demands: seq<Key>, snapshots: nat)

  datatype Forward = Forward(offset: int, tokens: int, hits: int, misses: int, demands: seq<Key>)

  /** Everything the checker keeps besides the cache. */
  datatype Book = Book(forwards: seq<Forward>, active: Option<Active>, pending: Option<Key>,
                       requests: seq<R.Request>, maxPins: nat, snapshots: nat)

  datatype Trace = Trace(capacity: nat, requests: seq<R.Request>, forwards: seq<Forward>, maxPins: nat, snapshots: nat)

  predicate Between(x: int, low: int, high: int) {
    low <= x <= high
  }

  // ---------- the workload ----------

  function Position(patterns: seq<Pattern>, n: nat): int
    requires n <= |patterns|
  {
    if n == 0 then 0 else Position(patterns, n - 1) + patterns[n - 1].tokens
  }

  predicate Covers(w: Workload) {
    && Between(w.capacity, 1, 4096)
    && Between(|w.patterns|, 2, 65)
    && (forall i :: 0 <= i < |w.patterns| ==>
          && Between(w.patterns[i].offset, 0, 8191) && Between(w.patterns[i].tokens, 1, 128)
          && w.patterns[i].offset == Position(w.patterns, i)
          && w.patterns[i].phase == if i == 0 then "prefill" else "decode")
    && Position(w.patterns, |w.patterns|) == |w.prompt| + |w.continuation|
    && w.patterns[0].tokens == |w.prompt|
  }

  function Slice(s: seq<int>, at: int, count: int): seq<int> {
    if 0 <= at <= at + count <= |s| then s[at..at + count] else []
  }

  // ---------- one event ----------

  function BeginForward(w: Workload, b: Book, pins: int, hits: nat, misses: nat, e: Event): Result<Book>
    requires e.ForwardBegin?
  {
    if b.active.Some? || pins != 0 || |b.forwards| >= |w.patterns| then Err
    else
      var p := w.patterns[|b.forwards|];
      if e.offset != p.offset || e.tokens != p.tokens || e.phase != p.phase
         || e.input != Slice(w.prompt + w.continuation, p.offset, p.tokens) then Err
      else Ok(b.(active := Some(Active(p.offset, p.tokens, 0, [], 0, hits, misses, [], 0))))
  }

  function KeysFor(layer: nat, experts: seq<int>): (keys: seq<Key>)
    ensures |keys| == |experts|
  {
    seq(|experts|, i requires 0 <= i < |experts| => layer * EXPERTS + experts[i])
  }

  function Chosen(keys: seq<Key>, lookup: map<Key, nat>, resident: bool): seq<Key> {
    if keys == [] then []
    else Chosen(keys[..|keys| - 1], lookup, resident)
         + if (keys[|keys| - 1] in lookup) == resident then [keys[|keys| - 1]] else []
  }

  /** Ascending records; for at most 32 tokens, those resident now come first. */
  function DemandOrder(layer: nat, tokens: int, routes: seq<int>, lookup: map<Key, nat>): seq<Key> {
    var keys := KeysFor(layer, Ascending(routes));
    if tokens > 32 then keys else Chosen(keys, lookup, true) + Chosen(keys, lookup, false)
  }

  function BeginLayer(b: Book, pins: int, lookup: map<Key, nat>, e: Event): Result<Book>
    requires e.Layer?
  {
    if b.active.None? || pins != 0 then Err
    else
      var a := b.active.value;
      if a.index != |a.selected| || a.layers >= LAYERS || e.layer != a.layers || e.offset != a.offset
         || e.tokens != a.tokens || !TopRoutes(e.routes, a.tokens) then Err
      else if (forall i :: 0 <= i < |e.selected| ==> 0 <= e.selected[i] < EXPERTS)
              && KeysFor(a.layers, e.selected) == DemandOrder(a.layers, a.tokens, e.routes, lookup) then
        Ok(b.(active := Some(a.(layers := a.layers + 1, selected := KeysFor(a.layers, e.selected), index := 0))))
      else Err
  }

  predicate MayAcquire(b: Book, capacity: nat, e: Event)
    requires e.AcquireRecord?
  {
    && b.active.Some?
    && b.active.value.index < |b.active.value.selected|
    && e.key == b.active.value.selected[b.active.value.index]
    && Between(e.kind, 0, 2) && Between(e.slot, 0, capacity - 1) && Between(e.victim, -1, LAYERS * EXPERTS - 1)
  }

  function RecordAcquire(b: Book, outcome: Outcome, e: Event): Result<Book>
    requires e.AcquireRecord? && b.active.Some?
  {
    if outcome != Outcome(e.kind != 0, outcome.slot, e.victim) || outcome.slot != e.slot then Err
    else
      var a := b.active.value;
      Ok(b.(active := Some(a.(index := a.index + 1, demands := a.demands + [e.key])), pending := Some(e.key),
            requests := b.requests + [R.Request(R.Acquire, e.key, |b.forwards|)]))
  }

  predicate MayLease(b: Book, e: Event)
    requires e.Lease?
  {
    && ValidKey(e.key) && Between(e.pins, 0, 32)
    && (!e.release ==> b.pending == Some(e.key))
    && e.ready == if e.release then Some(true) else None
  }

  function RecordLease(b: Book, count: nat, pins: int, e: Event): Result<Book>
    requires e.Lease?
  {
    var maxPins := if pins > b.maxPins then pins else b.maxPins;
    if count != e.pins || maxPins > 32 then Err
    else Ok(b.(maxPins := maxPins, pending := if e.release then b.pending else None,
               requests := b.requests + [R.Request(if e.release then R.Release else R.Pin, e.key, |b.forwards|)]))
  }

  predicate SnapshotMatches(s: State, pins: int, e: Event)
    requires e.Snapshot?
  {
    && s.policy == Clock && pins == 0
    && e.hand == s.hand && e.slots == s.slots
    && e.stats == Stats(s.hits, s.misses, s.evictions, s.readyHits, s.joins, s.layerHits, s.layerMisses)
  }

  predicate LayersDone(a: Active) {
    a.layers == LAYERS && a.index == |a.selected|
  }

  function RecordSnapshot(b: Book, matches: bool): Result<Book> {
    if !matches || (b.active.Some? && !LayersDone(b.active.value)) then Err
    else
      Ok(b.(snapshots := b.snapshots + 1,
            active := if b.active.None? then None
                      else Some(b.active.value.(snapshots := b.active.value.snapshots + 1))))
  }

  function EndForward(b: Book, pins: int, hits: nat, misses: nat, e: Event): Result<Book>
    requires e.ForwardEnd?
  {
    if b.active.None? || pins != 0 then Err
    else
      var a := b.active.value;
      if !LayersDone(a) || a.snapshots < 1 || e.position != a.offset + a.tokens then Err
      else
        var done := Forward(a.offset, a.tokens, hits - a.hitsBefore, misses - a.missesBefore, a.demands);
        Ok(b.(forwards := b.forwards + [done], active := None))
  }

  /** The book and the cache after one event, or an error when the checker would reject it. */
  function Check(w: Workload, b: Book, s: State, e: Event): Result<(Book, State)>
    requires Inv(s)
  {
    var pins := PinSum(s.slots);
    if b.pending.Some? && !(e.Lease? && !e.release) then Err
    else match e {
      case ForwardBegin(_, _, _, _) => var b' :- BeginForward(w, b, pins, s.hits, s.misses, e); Ok((b', s))
      case Layer(_, _, _, _, _) => var b' :- BeginLayer(b, pins, s.lookup, e); Ok((b', s))
      case AcquireRecord(_, _, _, _) =>
        if !MayAcquire(b, |s.slots|, e) then Err
        else
          var (s', outcome) := Acquired(s, e.key, Some(e.kind));
          if outcome.None? then Err
          else var b' :- RecordAcquire(b, outcome.value, e); Ok((b', s'))
      case Lease(_, _, _, _) =>
        if !MayLease(b, e) then Err
        else
          var (s', count) := Leased(s, e.key, e.release);
          if count.None? then Err
          else var b' :- RecordLease(b, count.value, PinSum(s'.slots), e); Ok((b', s'))
      case Snapshot(_, _, _) => var b' :- RecordSnapshot(b, SnapshotMatches(s, pins, e)); Ok((b', s))
      case ForwardEnd(_) => var b' :- EndForward(b, pins, s.hits, s.misses, e); Ok((b', s))
      case Unknown => Err
    }
  }

  const BLANK := Book([], None, None, [], 0, 0)

  ghost function Proceed(w: Workload, before: Result<(Book, State)>, e: Event): Result<(Book, State)> {
    if before.Ok? && Inv(before.value.1) then Check(w, before.value.0, before.value.1, e) else Err
  }

  ghost function Fold(w: Workload, events: seq<Event>, n: nat): Result<(Book, State)>
    requires n <= |events|
  {
    if n == 0 then Ok((BLANK, Fresh(w.capacity, Clock)))
    else Proceed(w, Fold(w, events, n - 1), events[n - 1])
  }

  function Close(w: Workload, b: Book, s: State): Result<Trace> {
    if b.active.Some? || b.pending.Some? || |b.forwards| != |w.patterns| || PinSum(s.slots) != 0 then Err
    else Ok(Trace(w.capacity, b.requests, b.forwards, b.maxPins, b.snapshots))
  }

  /** `events` are those between the opening and closing lines, which count towards the limit. */
  ghost function Decoded(w: Workload, events: seq<Event>): Result<Trace> {
    if |events| + 2 > 100000 || !Covers(w) then Err
    else
      var end := Fold(w, events, |events|);
      if end.Err? then Err else Close(w, end.value.0, end.value.1)
  }

  method DecodeTrace(w: Workload, events: seq<Event>) returns (trace: Result<Trace>)
    ensures trace == Decoded(w, events)
  {
    hide Check, Inv;
    if |events| + 2 > 100000 || !Covers(w) {
      return Err;
    }
    var cache := new Objects.Cache(w.capacity, Clock);
    var book := BLANK;
    var ok := true;
    var i := 0;
    while i < |events| && ok
      invariant i <= |events|
      invariant fresh(cache) && fresh(cache.slots) && fresh(cache.layerHits) && fresh(cache.layerMisses)
      invariant ok ==> cache.Valid() && Fold(w, events, i) == Ok((book, cache.Value()))
      invariant !ok ==> Fold(w, events, i).Err?
      decreases |events| - i
    {
      var next := CheckOne(w, cache, book, events[i]);
      ok := next.Ok?;
      if ok {
        book := next.value;
      }
      i := i + 1;
    }
    if !ok {
      FoldStaysErr(w, events, i, |events|);
      return Err;
    }
    var pins := cache.Pins();
    if book.active.Some? || book.pending.Some? || |book.forwards| != |w.patterns| || pins != 0 {
      return Err;
    }
    trace := Ok(Trace(w.capacity, book.requests, book.forwards, book.maxPins, book.snapshots));
  }

  method CheckOne(w: Workload, cache: Objects.Cache, b: Book, e: Event) returns (b': Result<Book>)
    requires cache.Valid()
    modifies cache, cache.slots, cache.layerHits, cache.layerMisses
    ensures b'.Ok? <==> Check(w, b, old(cache.Value()), e).Ok?
    ensures b'.Ok? ==> cache.Valid() && Check(w, b, old(cache.Value()), e) == Ok((b'.value, cache.Value()))
  {
    hide BeginForward, BeginLayer, RecordAcquire, RecordLease, EndForward, RecordSnapshot, Acquired;
    if b.pending.Some? && !(e.Lease? && !e.release) {
      return Err;
    }
    match e
    case ForwardBegin(_, _, _, _) =>
      var pins := cache.Pins();
      b' := BeginForward(w, b, pins, cache.hits, cache.misses, e);
    case Layer(_, _, _, _, _) =>
      var pins := cache.Pins();
      b' := BeginLayer(b, pins, cache.lookup, e);
    case AcquireRecord(_, _, _, _) =>
      b' := CheckAcquire(cache, b, e);
    case Lease(_, _, _, _) =>
      b' := CheckLease(cache, b, e);
    case Snapshot(_, _, _) =>
      var pins := cache.Pins();
      b' := RecordSnapshot(b,
        cache.policy == Clock && pins == 0 && e.hand == cache.hand && e.slots == cache.slots[..]
        && e.stats == Stats(cache.hits, cache.misses, cache.evictions, cache.readyHits, cache.joins,
                            cache.layerHits[..], cache.layerMisses[..]));
    case ForwardEnd(_) =>
      var pins := cache.Pins();
      b' := EndForward(b, pins, cache.hits, cache.misses, e);
    case Unknown =>
      b' := Err;
  }

  method CheckAcquire(cache: Objects.Cache, b: Book, e: Event) returns (b': Result<Book>)
    requires cache.Valid() && e.AcquireRecord?
    modifies cache, cache.slots, cache.layerHits, cache.layerMisses
    ensures b'.Ok? <==>
      && MayAcquire(b, cache.slots.Length, e)
      && var outcome := Acquired(old(cache.Value()), e.key, Some(e.kind)).1;
         outcome.Some? && RecordAcquire(b, outcome.value, e).Ok?
    ensures b'.Ok? ==>
      var (s, outcome) := Acquired(old(cache.Value()), e.key, Some(e.kind));
      cache.Valid() && cache.Value() == s && b' == RecordAcquire(b, outcome.value, e)
  {
    if !MayAcquire(b, cache.slots.Length, e) {
      return Err;
    }
    var outcome := cache.Acquire(e.key, Some(e.kind));
    if outcome.None? {
      return Err;
    }
    b' := RecordAcquire(b, outcome.value, e);
  }

  method CheckLease(cache: Objects.Cache, b: Book, e: Event) returns (b': Result<Book>)
    requires cache.Valid() && e.Lease?
    modifies cache.slots
    ensures b'.Ok? <==>
      && MayLease(b, e)
      && var (s, count) := Leased(old(cache.Value()), e.key, e.release);
         count.Some? && RecordLease(b, count.value, PinSum(s.slots), e).Ok?
    ensures b'.Ok? ==>
      var (s, count) := Leased(old(cache.Value()), e.key, e.release);
      cache.Valid() && cache.Value() == s && b' == RecordLease(b, count.value, PinSum(s.slots), e)
  {
    if !MayLease(b, e) {
      return Err;
    }
    var count := cache.Lease(e.key, e.release);
    if count.None? {
      return Err;
    }
    var pins := cache.Pins();
    b' := RecordLease(b, count.value, pins, e);
  }

  lemma {:induction false} FoldStaysErr(w: Workload, events: seq<Event>, n: nat, m: nat)
    requires n <= m <= |events| && Fold(w, events, n).Err?
    ensures Fold(w, events, m).Err?
  {
    hide Check, Inv;
    if n < m {
      FoldStaysErr(w, events, n, m - 1);
    }
  }
}
