/** What an accepted trace guarantees about every replay of its requests. */
module Accepted {
  import opened Common
  import opened Demand
  import opened LeaseCache
  import opened Decode
  import R = Replay

  // ---------- appending requests ----------

  lemma {:induction false} LivePrefix(requests: seq<R.Request>, r: R.Request, n: nat)
    requires n <= |requests|
    ensures R.Live(requests + [r], n) == R.Live(requests, n)
  {
    hide R.LiveAfter;
    if n > 0 {
      assert (requests + [r])[n - 1] == requests[n - 1];
      LivePrefix(requests, r, n - 1);
    }
  }

  lemma LiveNext(requests: seq<R.Request>, r: R.Request)
    ensures R.Live(requests + [r], |requests| + 1) == R.LiveAfter(R.Live(requests, |requests|), r)
  {
    LivePrefix(requests, r, |requests|);
  }

  lemma LegalAtPrefix(requests: seq<R.Request>, r: R.Request, i: nat, forwards: nat, window: nat, window': nat)
    requires i < |requests| && window <= window'
    requires R.LegalAt(requests, i, forwards, window)
    ensures R.LegalAt(requests + [r], i, forwards, window')
  {
    LivePrefix(requests, r, i);
    LivePrefix(requests, r, i + 1);
    var longer := requests + [r];
    assert longer[i] == requests[i];
    assert i > 0 ==> longer[i - 1] == requests[i - 1];
    assert i + 1 < |requests| ==> longer[i + 1] == requests[i + 1];
  }

  /** Legal up to a last acquisition that still awaits its pin. */
  ghost predicate LegalSoFar(requests: seq<R.Request>, pending: Option<Key>, forwards: nat, window: nat) {
    && (forall i {:trigger R.LegalAt(requests, i, forwards, window)} ::
          0 <= i < |requests| && !(pending.Some? && i == |requests| - 1) ==> R.LegalAt(requests, i, forwards, window))
    && (pending.Some? ==>
          && requests != []
          && var last := requests[|requests| - 1];
             last.kind == R.Acquire && last.key == pending.value && ValidKey(last.key) && last.forward < forwards)
  }

  lemma AppendAcquire(requests: seq<R.Request>, key: Key, f: nat, forwards: nat, window: nat)
    requires LegalSoFar(requests, None, forwards, window) && ValidKey(key) && f < forwards
    ensures LegalSoFar(requests + [R.Request(R.Acquire, key, f)], Some(key), forwards, window)
  {
    var longer := requests + [R.Request(R.Acquire, key, f)];
    forall i {:trigger R.LegalAt(longer, i, forwards, window)} | 0 <= i < |requests|
      ensures R.LegalAt(longer, i, forwards, window)
    {
      assert R.LegalAt(requests, i, forwards, window);
      LegalAtPrefix(requests, longer[|requests|], i, forwards, window, window);
    }
  }

  lemma AppendPin(requests: seq<R.Request>, key: Key, f: nat, forwards: nat, window: nat, window': nat)
    requires LegalSoFar(requests, Some(key), forwards, window) && window <= window' && f < forwards
    requires |R.Live(requests, |requests|)| + 1 <= window'
    ensures LegalSoFar(requests + [R.Request(R.Pin, key, f)], None, forwards, window')
  {
    var longer := requests + [R.Request(R.Pin, key, f)];
    PinLegal(requests, key, f, forwards, window');
    hide R.LegalAt, R.Live;
    forall i {:trigger R.LegalAt(longer, i, forwards, window')} | 0 <= i < |longer|
      ensures R.LegalAt(longer, i, forwards, window')
    {
      if i < |requests| - 1 {
        assert R.LegalAt(requests, i, forwards, window);
        LegalAtPrefix(requests, longer[|requests|], i, forwards, window, window');
      }
    }
  }

  /** The pin makes the acquisition before it legal, and is legal itself. */
  lemma PinLegal(requests: seq<R.Request>, key: Key, f: nat, forwards: nat, window: nat)
    requires requests != [] && f < forwards && |R.Live(requests, |requests|)| + 1 <= window
    requires var last := requests[|requests| - 1];
      last.kind == R.Acquire && last.key == key && ValidKey(key) && last.forward < forwards
    ensures var longer := requests + [R.Request(R.Pin, key, f)];
      R.LegalAt(longer, |requests| - 1, forwards, window) && R.LegalAt(longer, |requests|, forwards, window)
  {
    LivePrefix(requests, R.Request(R.Pin, key, f), |requests|);
  }

  lemma ReleaseLegal(requests: seq<R.Request>, key: Key, f: nat, forwards: nat, window: nat)
    requires f < forwards && key in R.Live(requests, |requests|)
    ensures R.LegalAt(requests + [R.Request(R.Release, key, f)], |requests|, forwards, window)
  {
    LivePrefix(requests, R.Request(R.Release, key, f), |requests|);
  }

  lemma AppendRelease(requests: seq<R.Request>, key: Key, f: nat, forwards: nat, window: nat, window': nat)
    requires LegalSoFar(requests, None, forwards, window) && window <= window' && f < forwards
    requires key in R.Live(requests, |requests|)
    ensures LegalSoFar(requests + [R.Request(R.Release, key, f)], None, forwards, window')
  {
    hide R.LegalAt, R.Live;
    var longer := requests + [R.Request(R.Release, key, f)];
    ReleaseLegal(requests, key, f, forwards, window');
    forall i {:trigger R.LegalAt(longer, i, forwards, window')} | 0 <= i < |longer|
      ensures R.LegalAt(longer, i, forwards, window')
    {
      if i < |requests| {
        assert R.LegalAt(requests, i, forwards, window);
        LegalAtPrefix(requests, longer[|requests|], i, forwards, window, window');
      }
    }
  }

  // ---------- the lease protocol of an accepted prefix ----------

  ghost predicate Protocol(w: Workload, b: Book, s: State) {
    && Inv(s) && s.policy == Clock && |s.slots| == w.capacity
    && Holds(s, R.Live(b.requests, |b.requests|))
    && LegalSoFar(b.requests, b.pending, |w.patterns|, b.maxPins)
    && b.maxPins <= 32
    && |b.forwards| <= |w.patterns|
    && (b.active.Some? ==> |b.forwards| < |w.patterns|)
    && (b.active.None? ==> R.Live(b.requests, |b.requests|) == multiset{} && b.pending.None?)
  }

  lemma NoPinsNoLeases(s: State, live: multiset<Key>)
    requires Holds(s, live) && PinSum(s.slots) == 0
    ensures live == multiset{}
  {
  }

  lemma AcquireKeepsProtocol(w: Workload, b: Book, s: State, e: Event)
    requires Protocol(w, b, s) && e.AcquireRecord? && Check(w, b, s, e).Ok?
    ensures Protocol(w, Check(w, b, s, e).value.0, Check(w, b, s, e).value.1)
  {
    hide R.LegalAt, LegalSoFar, R.Live, Holds, Inv;
    var live := R.Live(b.requests, |b.requests|);
    var r := R.Request(R.Acquire, e.key, |b.forwards|);
    AcquireKeepsInv(s, e.key, Some(e.kind));
    AcquireKeepsLeases(s, e.key, Some(e.kind), live);
    AcquireFailsIff(s, e.key, Some(e.kind));
    SelectIsFair(s);
    AppendAcquire(b.requests, e.key, |b.forwards|, |w.patterns|, b.maxPins);
    LiveNext(b.requests, r);
  }

  lemma LeasedKeyLives(s: State, key: Key, live: multiset<Key>)
    requires Inv(s) && Holds(s, live) && Leased(s, key, true).1.Some?
    ensures key in s.lookup && key in live
  {
    assert s.slots[s.lookup[key]].value.pins == live[key];
  }

  lemma LeasedShape(s: State, key: Key, release: bool)
    requires Inv(s)
    ensures |Leased(s, key, release).0.slots| == |s.slots|
  {
  }

  lemma ReleaseChecked(w: Workload, b: Book, s: State, e: Event)
    requires Inv(s) && e.Lease? && e.release && Check(w, b, s, e).Ok?
    ensures Leased(s, e.key, true).1.Some? && Check(w, b, s, e).value.1 == Leased(s, e.key, true).0
    ensures b.pending.None? && b.maxPins <= Check(w, b, s, e).value.0.maxPins <= 32
    ensures Check(w, b, s, e).value.0
         == b.(maxPins := Check(w, b, s, e).value.0.maxPins,
               requests := b.requests + [R.Request(R.Release, e.key, |b.forwards|)])
  {
  }

  lemma ReleaseKeepsProtocol(w: Workload, b: Book, s: State, e: Event)
    requires Protocol(w, b, s) && e.Lease? && e.release && b.active.Some? && Check(w, b, s, e).Ok?
    ensures Protocol(w, Check(w, b, s, e).value.0, Check(w, b, s, e).value.1)
  {
    hide Check, Inv, Holds, LegalSoFar, R.Live;
    var live := R.Live(b.requests, |b.requests|);
    var (b', s') := Check(w, b, s, e).value;
    ReleaseChecked(w, b, s, e);
    LeasedKeyLives(s, e.key, live);
    LeasedShape(s, e.key, true);
    LeaseKeepsInv(s, e.key, true);
    LeaseKeepsLeases(s, e.key, true, live);
    LiveNext(b.requests, R.Request(R.Release, e.key, |b.forwards|));
    AppendRelease(b.requests, e.key, |b.forwards|, |w.patterns|, b.maxPins, b'.maxPins);
  }

  lemma PinChecked(w: Workload, b: Book, s: State, e: Event, live: multiset<Key>)
    requires Inv(s) && Holds(s, live) && e.Lease? && !e.release && Check(w, b, s, e).Ok?
    ensures Leased(s, e.key, false).1.Some? && Check(w, b, s, e).value.1 == Leased(s, e.key, false).0
    ensures b.pending == Some(e.key) && b.maxPins <= Check(w, b, s, e).value.0.maxPins <= 32
    ensures |live| + 1 <= Check(w, b, s, e).value.0.maxPins
    ensures Check(w, b, s, e).value.0
         == b.(maxPins := Check(w, b, s, e).value.0.maxPins, pending := None,
               requests := b.requests + [R.Request(R.Pin, e.key, |b.forwards|)])
  {
    hide Inv;
    LeaseKeepsLeases(s, e.key, false, live);
  }

  lemma PinKeepsProtocol(w: Workload, b: Book, s: State, e: Event)
    requires Protocol(w, b, s) && e.Lease? && !e.release && b.active.Some? && Check(w, b, s, e).Ok?
    ensures Protocol(w, Check(w, b, s, e).value.0, Check(w, b, s, e).value.1)
  {
    hide Check, Inv, Holds, LegalSoFar, R.Live;
    var live := R.Live(b.requests, |b.requests|);
    var (b', s') := Check(w, b, s, e).value;
    PinChecked(w, b, s, e, live);
    LeasedShape(s, e.key, false);
    LeaseKeepsInv(s, e.key, false);
    LeaseKeepsLeases(s, e.key, false, live);
    LiveNext(b.requests, R.Request(R.Pin, e.key, |b.forwards|));
    AppendPin(b.requests, e.key, |b.forwards|, |w.patterns|, b.maxPins, b'.maxPins);
  }

  lemma CheckKeepsProtocol(w: Workload, b: Book, s: State, e: Event)
    requires Protocol(w, b, s) && Check(w, b, s, e).Ok?
    ensures Protocol(w, Check(w, b, s, e).value.0, Check(w, b, s, e).value.1)
  {
    hide Check, Inv, Holds, LegalSoFar, R.Live, BeginLayer, PinSum;
    if e.AcquireRecord? {
      AcquireKeepsProtocol(w, b, s, e);
    } else if e.Lease? {
      if b.active.None? {
        NoLeaseBetweenForwards(w, b, s, e);
      }
      if e.release {
        ReleaseKeepsProtocol(w, b, s, e);
      } else {
        PinKeepsProtocol(w, b, s, e);
      }
    } else {
      OtherChecked(w, b, s, e);
      OtherMovesOnly(w, b, s, e);
      if e.ForwardEnd? {
        NoPinsNoLeases(s, R.Live(b.requests, |b.requests|));
      }
    }
  }

  /** Other events open a forward, finish the open one with nothing pinned, or leave it open. */
  lemma OtherMovesOnly(w: Workload, b: Book, s: State, e: Event)
    requires Inv(s) && !e.AcquireRecord? && !e.Lease? && Check(w, b, s, e).Ok?
    ensures var b' := Check(w, b, s, e).value.0;
      if e.ForwardBegin? then
        b.active.None? && b'.active.Some? && b'.forwards == b.forwards && |b.forwards| < |w.patterns|
      else if e.ForwardEnd? then
        b.active.Some? && b'.active.None? && |b'.forwards| == |b.forwards| + 1 && PinSum(s.slots) == 0
      else b'.active.Some? == b.active.Some? && b'.forwards == b.forwards
  {
    OtherChecked(w, b, s, e);
    hide Check, Inv, DemandOrder, TopRoutes, PinSum;
  }

  /** Between forwards nothing is leased, so a pin or a release there is rejected. */
  lemma NoLeaseBetweenForwards(w: Workload, b: Book, s: State, e: Event)
    requires Protocol(w, b, s) && e.Lease? && b.active.None?
    ensures Check(w, b, s, e).Err?
  {
    if e.release && e.key in s.lookup {
      assert s.slots[s.lookup[e.key]].value.pins == 0;
    }
  }

  // ---------- the recorded run ----------

  /** Replays do not know which hits were ready or joined a read. */
  function Forget(s: State): State {
    s.(readyHits := 0, joins := 0)
  }

  lemma ForgetKeepsInv(s: State)
    requires Inv(s)
    ensures Inv(Forget(s)) && Select(Forget(s)) == Select(s)
  {
  }

  lemma ForgetAcquired(s: State, key: Key, kind: Option<nat>)
    requires Inv(s)
    ensures Inv(Forget(s))
    ensures Acquired(Forget(s), key, None) == (Forget(Acquired(s, key, kind).0), Acquired(s, key, kind).1)
  {
    hide Inv, Select;
    ForgetKeepsInv(s);
    SelectIsFair(s);
    AcquireKeepsInv(s, key, kind);
    if ValidKey(key) {
      if key in s.lookup {
        ForgetHit(s, key, kind);
      } else if Select(s).selected.Some? {
        ForgetAdmit(s, key);
      }
    }
  }

  lemma ForgetHit(s: State, key: Key, kind: Option<nat>)
    requires Inv(s) && key in s.lookup && ValidKey(key)
    ensures Hit(Forget(s), key, None) == Forget(Hit(s, key, kind))
  {
  }

  lemma ForgetAdmit(s: State, key: Key)
    requires Inv(s) && ValidKey(key) && Select(s).selected.Some?
    ensures Select(s).selected.value < |Select(s).slots| == |s.slots|
    ensures Admit(Forget(s), Select(s).slots, Select(s).hand, Select(s).selected.value, key)
         == Forget(Admit(s, Select(s).slots, Select(s).hand, Select(s).selected.value, key))
  {
    SelectIsFair(s);
  }

  lemma ForgetLeased(s: State, key: Key, release: bool)
    requires Inv(s)
    ensures Inv(Forget(s))
    ensures Leased(Forget(s), key, release) == (Forget(Leased(s, key, release).0), Leased(s, key, release).1)
  {
  }

  lemma FoldNext(requests: seq<R.Request>, r: R.Request, capacity: nat, policy: Policy, forwards: nat)
    ensures R.Fold(requests + [r], |requests| + 1, capacity, policy, forwards)
         == R.Advance(R.Fold(requests, |requests|, capacity, policy, forwards), r)
  {
    hide R.Advance;
    var longer := requests + [r];
    assert longer[..|requests|] == requests[..|requests|];
    R.SamePrefix(longer, requests, |requests|, capacity, policy, forwards);
  }

  /** Finished forwards carry their counts; the open one is still counting; later ones are untouched. */
  ghost predicate BlocksMatch(blocks: seq<Tally>, b: Book, hits: nat, misses: nat, forwards: nat) {
    && |blocks| == forwards
    && |b.forwards| + (if b.active.Some? then 1 else 0) <= forwards
    && (forall f :: 0 <= f < |b.forwards| ==>
          blocks[f].hits == b.forwards[f].hits && blocks[f].misses == b.forwards[f].misses)
    && (b.active.Some? ==>
          && blocks[|b.forwards|].hits == hits - b.active.value.hitsBefore
          && blocks[|b.forwards|].misses == misses - b.active.value.missesBefore)
    && (forall f :: |b.forwards| + (if b.active.Some? then 1 else 0) <= f < forwards ==> blocks[f] == Tally(0, 0))
  }

  ghost predicate Recorded(w: Workload, b: Book, s: State) {
    var p := R.Fold(b.requests, |b.requests|, w.capacity, Clock, |w.patterns|);
    p.Ok? && p.value.cache == Forget(s) && BlocksMatch(p.value.blocks, b, s.hits, s.misses, |w.patterns|)
  }

  lemma AcquireStepRecorded(p: R.Progress, s: State, key: Key, kind: Option<nat>, forward: nat)
    requires Inv(s) && p.cache == Forget(s) && forward < |p.blocks| && Acquired(s, key, kind).1.Some?
    ensures Inv(p.cache)
    ensures var (s', outcome) := Acquired(s, key, kind);
      && R.Step(p, R.Request(R.Acquire, key, forward))
         == Ok(R.Progress(Forget(s'), R.Counted(p.blocks, forward, outcome.value.hit)))
      && s'.hits == s.hits + (if outcome.value.hit then 1 else 0)
      && s'.misses == s.misses + (if outcome.value.hit then 0 else 1)
  {
    ForgetAcquired(s, key, kind);
  }

  lemma CountedMatches(blocks: seq<Tally>, b: Book, b': Book, hits: nat, misses: nat, forwards: nat, hit: bool)
    requires BlocksMatch(blocks, b, hits, misses, forwards) && b.active.Some? && b'.active.Some?
    requires b'.forwards == b.forwards
    requires b'.active.value.hitsBefore == b.active.value.hitsBefore
    requires b'.active.value.missesBefore == b.active.value.missesBefore
    ensures BlocksMatch(R.Counted(blocks, |b.forwards|, hit), b',
                        hits + (if hit then 1 else 0), misses + (if hit then 0 else 1), forwards)
  {
  }

  lemma AcquireChecked(w: Workload, b: Book, s: State, e: Event)
    requires Inv(s) && e.AcquireRecord? && Check(w, b, s, e).Ok?
    ensures Between(e.kind, 0, 2)
    ensures b.active.Some? && b.pending.None? && Acquired(s, e.key, Some(e.kind)).1.Some?
    ensures b.active.value.index < |b.active.value.selected| && e.key == b.active.value.selected[b.active.value.index]
    ensures Check(w, b, s, e).value.1 == Acquired(s, e.key, Some(e.kind)).0
    ensures var a := b.active.value;
      Check(w, b, s, e).value.0
      == b.(active := Some(a.(index := a.index + 1, demands := a.demands + [e.key])), pending := Some(e.key),
            requests := b.requests + [R.Request(R.Acquire, e.key, |b.forwards|)])
  {
  }

  lemma AcquireKeepsRecord(w: Workload, b: Book, s: State, e: Event)
    requires Inv(s) && Recorded(w, b, s) && e.AcquireRecord? && Check(w, b, s, e).Ok?
    ensures Recorded(w, Check(w, b, s, e).value.0, Check(w, b, s, e).value.1)
  {
    hide Check, Inv, R.Step, BlocksMatch, Acquired;
    AcquireChecked(w, b, s, e);
    var p := R.Fold(b.requests, |b.requests|, w.capacity, Clock, |w.patterns|).value;
    BlocksFit(p.blocks, b, s.hits, s.misses, |w.patterns|);
    FoldNext(b.requests, R.Request(R.Acquire, e.key, |b.forwards|), w.capacity, Clock, |w.patterns|);
    AcquireStepRecorded(p, s, e.key, Some(e.kind), |b.forwards|);
    CountedMatches(p.blocks, b, Check(w, b, s, e).value.0, s.hits, s.misses, |w.patterns|,
                   Acquired(s, e.key, Some(e.kind)).1.value.hit);
  }

  lemma BlocksFit(blocks: seq<Tally>, b: Book, hits: nat, misses: nat, forwards: nat)
    requires BlocksMatch(blocks, b, hits, misses, forwards) && b.active.Some?
    ensures |b.forwards| < |blocks|
  {
  }

  lemma LeaseChecked(w: Workload, b: Book, s: State, e: Event)
    requires Inv(s) && e.Lease? && Check(w, b, s, e).Ok?
    ensures Leased(s, e.key, e.release).1.Some? && Check(w, b, s, e).value.1 == Leased(s, e.key, e.release).0
    ensures Check(w, b, s, e).value.0
         == b.(maxPins := Check(w, b, s, e).value.0.maxPins, pending := Check(w, b, s, e).value.0.pending,
               requests := b.requests + [R.Request(if e.release then R.Release else R.Pin, e.key, |b.forwards|)])
    ensures Check(w, b, s, e).value.1.hits == s.hits && Check(w, b, s, e).value.1.misses == s.misses
    ensures Check(w, b, s, e).value.1.lookup == s.lookup
  {
  }

  lemma LeaseKeepsRecord(w: Workload, b: Book, s: State, e: Event)
    requires Inv(s) && Recorded(w, b, s) && e.Lease? && Check(w, b, s, e).Ok?
    ensures Recorded(w, Check(w, b, s, e).value.0, Check(w, b, s, e).value.1)
  {
    hide Check, Inv, Acquired, Leased;
    LeaseChecked(w, b, s, e);
    ForgetLeased(s, e.key, e.release);
    FoldNext(b.requests, R.Request(if e.release then R.Release else R.Pin, e.key, |b.forwards|),
             w.capacity, Clock, |w.patterns|);
  }

  lemma OtherChecked(w: Workload, b: Book, s: State, e: Event)
    requires Inv(s) && !e.AcquireRecord? && !e.Lease? && Check(w, b, s, e).Ok?
    ensures b.pending.None?
    ensures var (b', s') := Check(w, b, s, e).value;
      && s' == s && b'.requests == b.requests && b'.pending == b.pending && b'.maxPins == b.maxPins
      && match e
         case ForwardBegin(_, _, _, _) => BeginForward(w, b, PinSum(s.slots), s.hits, s.misses, e) == Ok(b')
         case Layer(_, _, _, _, _) => BeginLayer(b, PinSum(s.slots), s.lookup, e) == Ok(b')
         case Snapshot(_, _, _) => RecordSnapshot(b, SnapshotMatches(s, PinSum(s.slots), e)) == Ok(b')
         case ForwardEnd(_) => EndForward(b, PinSum(s.slots), s.hits, s.misses, e) == Ok(b')
         case _ => false
  {
  }

  lemma BeginKeepsBlocks(w: Workload, b: Book, pins: int, hits: nat, misses: nat, e: Event, blocks: seq<Tally>)
    requires e.ForwardBegin? && BeginForward(w, b, pins, hits, misses, e).Ok?
    requires BlocksMatch(blocks, b, hits, misses, |w.patterns|)
    ensures BlocksMatch(blocks, BeginForward(w, b, pins, hits, misses, e).value, hits, misses, |w.patterns|)
  {
  }

  lemma LayerKeepsBlocks(b: Book, pins: int, lookup: map<Key, nat>, e: Event, blocks: seq<Tally>,
                         hits: nat, misses: nat, forwards: nat)
    requires e.Layer? && BeginLayer(b, pins, lookup, e).Ok? && BlocksMatch(blocks, b, hits, misses, forwards)
    ensures BlocksMatch(blocks, BeginLayer(b, pins, lookup, e).value, hits, misses, forwards)
  {
  }

  lemma SnapshotKeepsBlocks(b: Book, matches: bool, blocks: seq<Tally>, hits: nat, misses: nat, forwards: nat)
    requires RecordSnapshot(b, matches).Ok? && BlocksMatch(blocks, b, hits, misses, forwards)
    ensures BlocksMatch(blocks, RecordSnapshot(b, matches).value, hits, misses, forwards)
  {
  }

  lemma EndKeepsBlocks(b: Book, pins: int, hits: nat, misses: nat, e: Event, blocks: seq<Tally>, forwards: nat)
    requires e.ForwardEnd? && EndForward(b, pins, hits, misses, e).Ok? && BlocksMatch(blocks, b, hits, misses, forwards)
    ensures BlocksMatch(blocks, EndForward(b, pins, hits, misses, e).value, hits, misses, forwards)
  {
  }

  lemma CheckKeepsRecord(w: Workload, b: Book, s: State, e: Event)
    requires Inv(s) && Recorded(w, b, s) && Check(w, b, s, e).Ok?
    ensures Recorded(w, Check(w, b, s, e).value.0, Check(w, b, s, e).value.1)
  {
    hide Check, Inv, R.Fold, BlocksMatch, BeginForward, BeginLayer, RecordSnapshot, EndForward;
    if e.AcquireRecord? {
      AcquireKeepsRecord(w, b, s, e);
    } else if e.Lease? {
      LeaseKeepsRecord(w, b, s, e);
    } else {
      OtherChecked(w, b, s, e);
      var blocks := R.Fold(b.requests, |b.requests|, w.capacity, Clock, |w.patterns|).value.blocks;
      match e
      case ForwardBegin(_, _, _, _) => BeginKeepsBlocks(w, b, PinSum(s.slots), s.hits, s.misses, e, blocks);
      case Layer(_, _, _, _, _) =>
        LayerKeepsBlocks(b, PinSum(s.slots), s.lookup, e, blocks, s.hits, s.misses, |w.patterns|);
      case Snapshot(_, _, _) =>
        SnapshotKeepsBlocks(b, SnapshotMatches(s, PinSum(s.slots), e), blocks, s.hits, s.misses, |w.patterns|);
      case ForwardEnd(_) => EndKeepsBlocks(b, PinSum(s.slots), s.hits, s.misses, e, blocks, |w.patterns|);
      case Unknown =>
    }
  }

  // ---------- how much each forward demands ----------

  lemma {:induction false} DemandsPrefix(requests: seq<R.Request>, r: R.Request, n: nat, f: nat)
    requires n <= |requests|
    ensures R.Demands(requests + [r], n, f) == R.Demands(requests, n, f)
  {
    if n > 0 {
      assert (requests + [r])[n - 1] == requests[n - 1];
      DemandsPrefix(requests, r, n - 1, f);
    }
  }

  lemma DemandsNext(requests: seq<R.Request>, r: R.Request, f: nat)
    ensures R.Demands(requests + [r], |requests| + 1, f)
         == R.Demands(requests, |requests|, f) + if r.kind == R.Acquire && r.forward == f then 1 else 0
  {
    DemandsPrefix(requests, r, |requests|, f);
  }

  ghost function DemandsOf(b: Book, f: nat): nat {
    R.Demands(b.requests, |b.requests|, f)
  }

  /** Ten distinct experts a layer, forty-eight layers a forward. */
  ghost predicate Busy(w: Workload, b: Book) {
    && (forall f {:trigger DemandsOf(b, f)} :: 0 <= f < |b.forwards| ==> DemandsOf(b, f) >= LAYERS * TOP_K)
    && (b.active.Some? ==>
          var a := b.active.value;
          && a.tokens >= 1 && a.index <= |a.selected|
          && if a.layers == 0 then a.selected == []
             else |a.selected| >= TOP_K && DemandsOf(b, |b.forwards|) >= TOP_K * (a.layers - 1) + a.index)
  }

  lemma {:induction false} ChosenSplit(keys: seq<Key>, lookup: map<Key, nat>)
    ensures |Chosen(keys, lookup, true)| + |Chosen(keys, lookup, false)| == |keys|
  {
    if keys != [] {
      ChosenSplit(keys[..|keys| - 1], lookup);
    }
  }

  lemma LayerDemandsTen(layer: nat, tokens: int, routes: seq<int>, lookup: map<Key, nat>)
    requires TopRoutes(routes, tokens) && tokens >= 1
    ensures |DemandOrder(layer, tokens, routes, lookup)| >= TOP_K
  {
    var group := routes[0 * TOP_K..1 * TOP_K];
    assert |Ascending(group)| == TOP_K;
    AscendingSorts(group);
    AscendingSorts(routes);
    IncreasingIsDistinct(Ascending(group));
    IncreasingIsDistinct(Ascending(routes));
    forall x | x in Elements(group)
      ensures x in Elements(routes)
    {
      var i :| 0 <= i < |group| && group[i] == x;
      assert routes[i] == x;
    }
    Subset(Elements(group), Elements(routes));
    ChosenSplit(KeysFor(layer, Ascending(routes)), lookup);
  }

  lemma LayerKeepsBusy(w: Workload, b: Book, pins: int, lookup: map<Key, nat>, e: Event)
    requires Busy(w, b) && e.Layer? && BeginLayer(b, pins, lookup, e).Ok?
    ensures Busy(w, BeginLayer(b, pins, lookup, e).value)
  {
    hide Ascending, R.Demands;
    var a := b.active.value;
    LayerDemandsTen(a.layers, a.tokens, e.routes, lookup);
    var b' := BeginLayer(b, pins, lookup, e).value;
    assert forall f {:trigger DemandsOf(b', f)} :: DemandsOf(b', f) == DemandsOf(b, f);
  }

  lemma BeginKeepsBusy(w: Workload, b: Book, pins: int, hits: nat, misses: nat, e: Event)
    requires Busy(w, b) && Covers(w) && e.ForwardBegin? && BeginForward(w, b, pins, hits, misses, e).Ok?
    ensures Busy(w, BeginForward(w, b, pins, hits, misses, e).value)
  {
    hide R.Demands, Position;
    var b' := BeginForward(w, b, pins, hits, misses, e).value;
    assert forall f {:trigger DemandsOf(b', f)} :: DemandsOf(b', f) == DemandsOf(b, f);
  }

  lemma SnapshotKeepsBusy(w: Workload, b: Book, matches: bool)
    requires Busy(w, b) && RecordSnapshot(b, matches).Ok?
    ensures Busy(w, RecordSnapshot(b, matches).value)
  {
    hide R.Demands;
    var b' := RecordSnapshot(b, matches).value;
    assert forall f {:trigger DemandsOf(b', f)} :: DemandsOf(b', f) == DemandsOf(b, f);
  }

  lemma EndKeepsBusy(w: Workload, b: Book, pins: int, hits: nat, misses: nat, e: Event)
    requires Busy(w, b) && e.ForwardEnd? && EndForward(b, pins, hits, misses, e).Ok?
    ensures Busy(w, EndForward(b, pins, hits, misses, e).value)
  {
    hide R.Demands;
    var b' := EndForward(b, pins, hits, misses, e).value;
    assert forall f {:trigger DemandsOf(b', f)} :: DemandsOf(b', f) == DemandsOf(b, f);
  }

  lemma AcquireKeepsBusy(w: Workload, b: Book, s: State, e: Event)
    requires Inv(s) && Busy(w, b) && e.AcquireRecord? && Check(w, b, s, e).Ok?
    ensures Busy(w, Check(w, b, s, e).value.0)
  {
    hide Check, R.Demands, Inv;
    AcquireChecked(w, b, s, e);
    var r := R.Request(R.Acquire, e.key, |b.forwards|);
    var b' := Check(w, b, s, e).value.0;
    forall f: nat {:trigger DemandsOf(b', f)}
      ensures DemandsOf(b', f) == DemandsOf(b, f) + if f == |b.forwards| then 1 else 0
    {
      DemandsNext(b.requests, r, f);
    }
  }

  lemma LeaseKeepsBusy(w: Workload, b: Book, s: State, e: Event)
    requires Inv(s) && Busy(w, b) && e.Lease? && Check(w, b, s, e).Ok?
    ensures Busy(w, Check(w, b, s, e).value.0)
  {
    hide Check, R.Demands, Inv;
    LeaseChecked(w, b, s, e);
    var r := R.Request(if e.release then R.Release else R.Pin, e.key, |b.forwards|);
    var b' := Check(w, b, s, e).value.0;
    forall f: nat {:trigger DemandsOf(b', f)}
      ensures DemandsOf(b', f) == DemandsOf(b, f)
    {
      DemandsNext(b.requests, r, f);
    }
  }

  lemma CheckKeepsBusy(w: Workload, b: Book, s: State, e: Event)
    requires Inv(s) && Covers(w) && Busy(w, b) && Check(w, b, s, e).Ok?
    ensures Busy(w, Check(w, b, s, e).value.0)
  {
    hide Check, Inv, Covers, Busy, BeginForward, BeginLayer, RecordSnapshot, EndForward;
    if e.AcquireRecord? {
      AcquireKeepsBusy(w, b, s, e);
    } else if e.Lease? {
      LeaseKeepsBusy(w, b, s, e);
    } else {
      OtherChecked(w, b, s, e);
      match e
      case ForwardBegin(_, _, _, _) => BeginKeepsBusy(w, b, PinSum(s.slots), s.hits, s.misses, e);
      case Layer(_, _, _, _, _) => LayerKeepsBusy(w, b, PinSum(s.slots), s.lookup, e);
      case Snapshot(_, _, _) => SnapshotKeepsBusy(w, b, SnapshotMatches(s, PinSum(s.slots), e));
      case ForwardEnd(_) => EndKeepsBusy(w, b, PinSum(s.slots), s.hits, s.misses, e);
      case Unknown =>
    }
  }

  // ---------- accepted traces ----------

  ghost predicate Sound(w: Workload, b: Book, s: State) {
    Protocol(w, b, s) && Recorded(w, b, s) && Busy(w, b)
  }

  lemma StartIsSound(w: Workload)
    requires Covers(w)
    ensures Sound(w, BLANK, Fresh(w.capacity, Clock))
  {
    FreshHolds(w.capacity, Clock);
    assert Forget(Fresh(w.capacity, Clock)) == Fresh(w.capacity, Clock);
  }

  /** Every prefix the checker accepts obeys the lease protocol and is its own replay so far. */
  lemma {:induction false} FoldIsSound(w: Workload, events: seq<Event>, n: nat)
    requires Covers(w) && n <= |events| && Fold(w, events, n).Ok?
    ensures Sound(w, Fold(w, events, n).value.0, Fold(w, events, n).value.1)
  {
    hide Check, Covers, Recorded, Busy;
    if n == 0 {
      StartIsSound(w);
    } else {
      FoldIsSound(w, events, n - 1);
      var (b, s) := Fold(w, events, n - 1).value;
      var e := events[n - 1];
      CheckKeepsProtocol(w, b, s, e);
      CheckKeepsRecord(w, b, s, e);
      CheckKeepsBusy(w, b, s, e);
    }
  }

  /** An accepted trace is a legal request stream for the window it reports, busy in every forward. */
  lemma AcceptedIsLegal(w: Workload, events: seq<Event>)
    requires Decoded(w, events).Ok?
    ensures var trace := Decoded(w, events).value;
      && R.Legal(trace.requests, |trace.forwards|, trace.maxPins) && trace.maxPins <= 32
      && |trace.forwards| == |w.patterns| >= 2
      && forall f {:trigger R.Demands(trace.requests, |trace.requests|, f)} ::
           0 <= f < |trace.forwards| ==> R.Demands(trace.requests, |trace.requests|, f) >= LAYERS * TOP_K
  {
    hide Fold, Recorded, Inv;
    FoldIsSound(w, events, |events|);
    var (b, s) := Fold(w, events, |events|).value;
    NoPinsNoLeases(s, R.Live(b.requests, |b.requests|));
    forall f {:trigger R.Demands(b.requests, |b.requests|, f)} | 0 <= f < |b.forwards|
      ensures R.Demands(b.requests, |b.requests|, f) >= LAYERS * TOP_K
    {
      assert DemandsOf(b, f) >= LAYERS * TOP_K;
    }
  }

  /** At the captured capacity CLOCK replays to exactly the counts recorded forward by forward. */
  lemma CapturedReplayIsExact(w: Workload, events: seq<Event>)
    requires Decoded(w, events).Ok?
    ensures var trace := Decoded(w, events).value;
            var answer := R.Simulation(trace.requests, |trace.forwards|, trace.capacity, Clock);
      && answer.Ok? && |answer.value.blocks| == |trace.forwards|
      && forall f :: 0 <= f < |trace.forwards| ==>
           && answer.value.blocks[f].hits == trace.forwards[f].hits
           && answer.value.blocks[f].misses == trace.forwards[f].misses
  {
    hide Fold, R.Fold, Protocol, Busy;
    FoldIsSound(w, events, |events|);
    var (b, s) := Fold(w, events, |events|).value;
    var trace := Decoded(w, events).value;
    AcceptedIsLegal(w, events);
    assert R.Demands(trace.requests, |trace.requests|, 1) >= LAYERS * TOP_K;
    var end := R.Fold(b.requests, |b.requests|, w.capacity, Clock, |w.patterns|);
    R.ForwardsConserved(b.requests, |b.requests|, w.capacity, Clock, |w.patterns|);
    R.SumsPositive(end.value.blocks[1..], 0);
  }

  // ---------- hits of one layer ----------

  lemma {:induction false} ChosenIs(keys: seq<Key>, lookup: map<Key, nat>, resident: bool)
    requires Distinct(keys)
    ensures var chosen := Chosen(keys, lookup, resident);
      && Distinct(chosen) && Elements(chosen) <= Elements(keys)
      && forall i :: 0 <= i < |chosen| ==> (chosen[i] in lookup) == resident
  {
    if keys != [] {
      var front, last := keys[..|keys| - 1], keys[|keys| - 1];
      assert keys == front + [last];
      DistinctConcat(front, [last]);
      ChosenIs(front, lookup, resident);
      var chosen := Chosen(front, lookup, resident);
      assert last !in Elements(front);
      assert last !in Elements(chosen);
      DistinctConcat(chosen, [last]);
      assert Elements(front + [last]) == Elements(front) + {last};
      assert Elements(chosen + [last]) == Elements(chosen) + {last};
    }
  }

  /** The checked order is hit-first: each record once, the residents of that moment leading. */
  lemma OrderIsHitFirst(layer: nat, tokens: int, routes: seq<int>, lookup: map<Key, nat>)
    requires tokens <= 32
    ensures var order := DemandOrder(layer, tokens, routes, lookup);
      R.HitFirst(order, |Chosen(KeysFor(layer, Ascending(routes)), lookup, true)|, lookup.Keys)
  {
    var experts := Ascending(routes);
    AscendingSorts(routes);
    var keys := KeysFor(layer, experts);
    forall i, j | 0 <= i < j < |keys|
      ensures keys[i] != keys[j]
    {
      assert experts[i] < experts[j];
    }
    ChosenIs(keys, lookup, true);
    ChosenIs(keys, lookup, false);
    var hits, rest := Chosen(keys, lookup, true), Chosen(keys, lookup, false);
    forall x | x in hits
      ensures x !in rest
    {
      assert x in lookup;
    }
    DistinctConcat(hits, rest);
  }

  /** Events n..j only acquire, pin and release. */
  ghost predicate OnlyDemands(events: seq<Event>, from: nat, j: nat)
    requires j <= |events|
  {
    forall k :: from <= k < j ==> events[k].AcquireRecord? || events[k].Lease?
  }

  /** The book after the demands of a layer that began at `b`. */
  ghost predicate WithinLayer(b: Book, later: Book) {
    && b.active.Some? && later.active.Some?
    && later.active.value.selected == b.active.value.selected
    && later.active.value.index <= |b.active.value.selected|
    && |b.requests| <= |later.requests| && later.requests[..|b.requests|] == b.requests
    && R.KeysBetween(later.requests, |b.requests|, |later.requests|)
       == b.active.value.selected[..later.active.value.index]
  }

  lemma {:induction false} KeysBetweenPrefix(requests: seq<R.Request>, r: R.Request, m: nat, n: nat)
    requires m <= n <= |requests|
    ensures R.KeysBetween(requests + [r], m, n) == R.KeysBetween(requests, m, n)
    decreases n
  {
    if m < n {
      assert (requests + [r])[n - 1] == requests[n - 1];
      KeysBetweenPrefix(requests, r, m, n - 1);
    }
  }

  lemma ExtendLayer(b: Book, before: Book, after: Book, r: R.Request)
    requires WithinLayer(b, before) && after.active.Some? && after.requests == before.requests + [r]
    requires after.active.value.selected == before.active.value.selected
    requires if r.kind == R.Acquire then
               && before.active.value.index < |before.active.value.selected|
               && r.key == before.active.value.selected[before.active.value.index]
               && after.active.value.index == before.active.value.index + 1
             else after.active.value.index == before.active.value.index
    ensures WithinLayer(b, after)
  {
    var m, n := |b.requests|, |before.requests|;
    KeysBetweenPrefix(before.requests, r, m, n);
    assert after.requests[..m] == before.requests[..m];
    var selected, i := b.active.value.selected, before.active.value.index;
    assert R.KeysBetween(after.requests, m, n + 1)
        == selected[..i] + if r.kind == R.Acquire then [r.key] else [];
    if r.kind == R.Acquire {
      assert selected[..i + 1] == selected[..i] + [selected[i]];
    }
  }

  lemma DemandExtendsLayer(w: Workload, b: Book, before: Book, s: State, e: Event)
    requires WithinLayer(b, before) && Inv(s) && Check(w, before, s, e).Ok? && (e.AcquireRecord? || e.Lease?)
    ensures WithinLayer(b, Check(w, before, s, e).value.0)
  {
    hide Check, Inv;
    var after := Check(w, before, s, e).value.0;
    if e.AcquireRecord? {
      AcquireChecked(w, before, s, e);
      ExtendLayer(b, before, after, R.Request(R.Acquire, e.key, |before.forwards|));
    } else {
      LeaseChecked(w, before, s, e);
      ExtendLayer(b, before, after, R.Request(if e.release then R.Release else R.Pin, e.key, |before.forwards|));
    }
  }

  lemma FoldOkBefore(w: Workload, events: seq<Event>, i: nat, j: nat)
    requires i <= j <= |events| && Fold(w, events, j).Ok?
    ensures Fold(w, events, i).Ok?
  {
    if Fold(w, events, i).Err? {
      FoldStaysErr(w, events, i, j);
    }
  }

  lemma {:induction false} LayerDemandsFollow(w: Workload, events: seq<Event>, i: nat, j: nat)
    requires Covers(w) && i < j <= |events| && events[i].Layer? && OnlyDemands(events, i + 1, j)
    requires Fold(w, events, j).Ok?
    ensures Fold(w, events, i + 1).Ok?
    ensures WithinLayer(Fold(w, events, i + 1).value.0, Fold(w, events, j).value.0)
  {
    hide Check, Inv;
    FoldOkBefore(w, events, i, j);
    FoldOkBefore(w, events, i + 1, j);
    if j == i + 1 {
      var (b, s) := Fold(w, events, i).value;
      LayerStarts(w, b, s, events[i]);
    } else {
      FoldOkBefore(w, events, j - 1, j);
      LayerDemandsFollow(w, events, i, j - 1);
      var (b, s) := Fold(w, events, j - 1).value;
      DemandExtendsLayer(w, Fold(w, events, i + 1).value.0, b, s, events[j - 1]);
    }
  }

  lemma LayerStarts(w: Workload, b: Book, s: State, e: Event)
    requires Inv(s) && e.Layer? && Check(w, b, s, e).Ok?
    ensures b.active.Some? && Check(w, b, s, e).value.1 == s
    ensures var b' := Check(w, b, s, e).value.0;
      && b'.requests == b.requests && b'.active.Some? && b'.active.value.index == 0
      && b'.active.value.selected == DemandOrder(b.active.value.layers, e.tokens, e.routes, s.lookup)
      && WithinLayer(b', b')
  {
    hide Inv, PinSum, DemandOrder;
    var b' := Check(w, b, s, e).value.0;
    assert b'.requests[..|b'.requests|] == b'.requests;
  }

  /** In a layer of at most 32 tokens the hits are exactly the records resident when the layer began. */
  lemma LayerHitsAreResidents(w: Workload, events: seq<Event>, i: nat, j: nat)
    requires Covers(w) && i < j <= |events| && events[i].Layer? && events[i].tokens <= 32
    requires OnlyDemands(events, i + 1, j) && Fold(w, events, j).Ok?
    ensures Fold(w, events, i).Ok? && Fold(w, events, i).value.0.active.Some?
    ensures Fold(w, events, j).value.0.active.Some?
    ensures var (before, entry) := Fold(w, events, i).value;
            var (after, now) := Fold(w, events, j).value;
            var records := KeysFor(before.active.value.layers, Ascending(events[i].routes));
            var resident := |Chosen(records, entry.lookup, true)|;
            var asked := after.active.value.index;
      && now.hits - entry.hits == (if asked <= resident then asked else resident)
      && now.misses - entry.misses == (if asked <= resident then 0 else asked - resident)
  {
    hide Check, Inv, Chosen, Ascending;
    FoldOkBefore(w, events, i, j);
    FoldIsSound(w, events, i);
    FoldIsSound(w, events, j);
    LayerDemandsFollow(w, events, i, j);
    FoldOkBefore(w, events, i + 1, j);
    var (before, entry) := Fold(w, events, i).value;
    var (after, now) := Fold(w, events, j).value;
    LayerStarts(w, before, entry, events[i]);
    OrderIsHitFirst(before.active.value.layers, events[i].tokens, events[i].routes, entry.lookup);
    LayerRun(w, before.requests, entry, after, now, Fold(w, events, i + 1).value.0.active.value.selected,
             |Chosen(KeysFor(before.active.value.layers, Ascending(events[i].routes)), entry.lookup, true)|);
  }

  lemma LayerRun(w: Workload, requests: seq<R.Request>, entry: State, after: Book, now: State,
                 order: seq<Key>, resident: nat)
    requires after.active.Some? && |requests| <= |after.requests| && after.requests[..|requests|] == requests
    requires after.active.value.index <= |order|
    requires R.KeysBetween(after.requests, |requests|, |after.requests|) == order[..after.active.value.index]
    requires var p := R.Fold(requests, |requests|, w.capacity, Clock, |w.patterns|);
      p.Ok? && p.value.cache == Forget(entry)
    requires var p := R.Fold(after.requests, |after.requests|, w.capacity, Clock, |w.patterns|);
      p.Ok? && p.value.cache == Forget(now)
    requires R.HitFirst(order, resident, entry.lookup.Keys) && w.capacity > 0
    ensures var asked := after.active.value.index;
      && now.hits - entry.hits == (if asked <= resident then asked else resident)
      && now.misses - entry.misses == (if asked <= resident then 0 else asked - resident)
  {
    hide R.Fold, R.HitFirst;
    var m, n, c, f := |requests|, |after.requests|, w.capacity, |w.patterns|;
    assert requests[..m] == after.requests[..m];
    R.SamePrefix(requests, after.requests, m, c, Clock, f);
    R.HitFirstHitsAll(after.requests, m, n, order, resident, c, Clock, f);
    R.ReplayIsSchedule(after.requests, m, c, Clock, f);
    R.ReplayIsSchedule(after.requests, n, c, Clock, f);
    KeysSplit(after.requests, m, n);
  }

  lemma {:induction false} KeysSplit(requests: seq<R.Request>, m: nat, n: nat)
    requires m <= n <= |requests|
    ensures |R.KeysBetween(requests, 0, n)| == |R.KeysBetween(requests, 0, m)| + |R.KeysBetween(requests, m, n)|
    decreases n
  {
    if m < n {
      KeysSplit(requests, m, n - 1);
    }
  }
}
