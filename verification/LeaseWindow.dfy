/** How many slots an accepted trace needs: exactly as many as the leases it held at once. */
module LeaseWindow {
  import opened Common
  import opened Demand
  import opened LeaseCache
  import opened Decode
  import opened Accepted
  import R = Replay

  ghost function LiveOf(b: Book): multiset<Key> {
    R.Live(b.requests, |b.requests|)
  }

  // ---------- no record is leased twice at once ----------

  ghost predicate Singly(live: multiset<Key>) {
    forall k :: k in live ==> live[k] == 1
  }

  /** The demands of the open layer that have been pinned: the last may still await its pin. */
  ghost function PinnedDemands(b: Book, a: Active): seq<Key>
    requires a.index <= |a.selected| && (b.pending.Some? ==> a.index > 0)
  {
    a.selected[..if b.pending.Some? then a.index - 1 else a.index]
  }

  /** Within a layer each selected record is demanded once, so it is leased at most once. */
  ghost predicate OncePerLayer(b: Book) {
    if b.active.None? then LiveOf(b) == multiset{} && b.pending.None?
    else
      var a := b.active.value;
      && a.index <= |a.selected| && Distinct(a.selected)
      && (b.pending.Some? ==> a.index > 0 && a.selected[a.index - 1] == b.pending.value)
      && LiveOf(b) <= multiset(PinnedDemands(b, a))
  }

  lemma {:induction false} DistinctIsSingly(s: seq<Key>)
    requires Distinct(s)
    ensures Singly(multiset(s))
  {
    if s != [] {
      var front, last := s[..|s| - 1], s[|s| - 1];
      DistinctIsSingly(front);
      assert s == front + [last];
      assert last !in front;
      assert multiset(s) == multiset(front) + multiset{last};
    }
  }

  lemma OnceIsSingly(b: Book)
    requires OncePerLayer(b)
    ensures Singly(LiveOf(b))
  {
    if b.active.Some? {
      var pinned := PinnedDemands(b, b.active.value);
      assert Distinct(pinned);
      DistinctIsSingly(pinned);
      assert forall k :: k in LiveOf(b) ==> LiveOf(b)[k] <= multiset(pinned)[k];
    }
  }

  lemma DemandsAreDistinct(layer: nat, tokens: int, routes: seq<int>, lookup: map<Key, nat>)
    ensures Distinct(DemandOrder(layer, tokens, routes, lookup))
  {
    if tokens <= 32 {
      OrderIsHitFirst(layer, tokens, routes, lookup);
    } else {
      AscendingSorts(routes);
    }
  }

  lemma AcquireKeepsOnce(w: Workload, b: Book, s: State, e: Event)
    requires Inv(s) && OncePerLayer(b) && e.AcquireRecord? && Check(w, b, s, e).Ok?
    ensures OncePerLayer(Check(w, b, s, e).value.0)
  {
    hide Check, Inv, R.Live;
    AcquireChecked(w, b, s, e);
    LiveNext(b.requests, R.Request(R.Acquire, e.key, |b.forwards|));
  }

  lemma ReleaseKeepsOnce(w: Workload, b: Book, s: State, e: Event)
    requires Inv(s) && OncePerLayer(b) && b.active.Some? && e.Lease? && e.release && Check(w, b, s, e).Ok?
    ensures OncePerLayer(Check(w, b, s, e).value.0)
  {
    hide Check, Inv, R.Live;
    ReleaseChecked(w, b, s, e);
    LiveNext(b.requests, R.Request(R.Release, e.key, |b.forwards|));
  }

  lemma PinKeepsOnce(w: Workload, b: Book, s: State, e: Event)
    requires Inv(s) && Holds(s, LiveOf(b)) && OncePerLayer(b) && b.active.Some?
    requires e.Lease? && !e.release && Check(w, b, s, e).Ok?
    ensures OncePerLayer(Check(w, b, s, e).value.0)
  {
    hide Check, Inv, Holds, R.Live;
    PinChecked(w, b, s, e, LiveOf(b));
    LiveNext(b.requests, R.Request(R.Pin, e.key, |b.forwards|));
    var a := b.active.value;
    assert a.selected[..a.index] == a.selected[..a.index - 1] + [e.key];
  }

  lemma LayerKeepsOnce(w: Workload, b: Book, s: State, e: Event)
    requires Inv(s) && Holds(s, LiveOf(b)) && OncePerLayer(b) && e.Layer? && Check(w, b, s, e).Ok?
    ensures OncePerLayer(Check(w, b, s, e).value.0)
  {
    OtherChecked(w, b, s, e);
    NoPinsNoLeases(s, LiveOf(b));
    DemandsAreDistinct(b.active.value.layers, b.active.value.tokens, e.routes, s.lookup);
    hide Check, Inv, Holds, DemandOrder, TopRoutes;
  }

  lemma CheckKeepsOnce(w: Workload, b: Book, s: State, e: Event)
    requires Protocol(w, b, s) && OncePerLayer(b) && Check(w, b, s, e).Ok?
    ensures OncePerLayer(Check(w, b, s, e).value.0)
  {
    hide Check, Inv, Holds, BeginLayer;
    if e.AcquireRecord? {
      AcquireKeepsOnce(w, b, s, e);
    } else if e.Lease? {
      if b.active.None? {
        NoLeaseBetweenForwards(w, b, s, e);
      }
      if e.release {
        ReleaseKeepsOnce(w, b, s, e);
      } else {
        PinKeepsOnce(w, b, s, e);
      }
    } else if e.Layer? {
      LayerKeepsOnce(w, b, s, e);
    } else {
      OtherChecked(w, b, s, e);
      if e.ForwardEnd? {
        NoPinsNoLeases(s, LiveOf(b));
      }
    }
  }

  // ---------- the reported window is the most leases ever held ----------

  /** The leases after every request are single and at most `maxPins`, which some moment reaches. */
  ghost predicate Peaks(requests: seq<R.Request>, maxPins: nat) {
    && (forall i {:trigger R.Live(requests, i)} :: 0 <= i <= |requests| ==>
          Singly(R.Live(requests, i)) && |R.Live(requests, i)| <= maxPins)
    && exists i :: 0 <= i <= |requests| && |R.Live(requests, i)| == maxPins
  }

  lemma PeaksNext(requests: seq<R.Request>, r: R.Request, before: nat, after: nat)
    requires Peaks(requests, before)
    requires var live := R.Live(requests + [r], |requests| + 1);
      Singly(live) && after == if |live| > before then |live| else before
    ensures Peaks(requests + [r], after)
  {
    hide R.LiveAfter, Singly;
    var longer := requests + [r];
    forall i {:trigger R.Live(longer, i)} | 0 <= i <= |longer|
      ensures Singly(R.Live(longer, i)) && |R.Live(longer, i)| <= after
    {
      if i <= |requests| {
        LivePrefix(requests, r, i);
      }
    }
    var i :| 0 <= i <= |requests| && |R.Live(requests, i)| == before;
    LivePrefix(requests, r, i);
    assert |R.Live(longer, i)| == before;
  }

  /** The book's `maxPins` is the old one or the pins after this event, whichever is more. */
  lemma MaxPinsChecked(w: Workload, b: Book, s: State, e: Event)
    requires Inv(s) && e.Lease? && Check(w, b, s, e).Ok?
    ensures var (b', s') := Check(w, b, s, e).value;
      b'.maxPins == if PinSum(s'.slots) > b.maxPins then PinSum(s'.slots) else b.maxPins
  {
  }

  lemma LiveIsPinSum(s: State, live: multiset<Key>)
    requires Holds(s, live)
    ensures PinSum(s.slots) == |live|
  {
  }

  lemma CheckKeepsPeaks(w: Workload, b: Book, s: State, e: Event)
    requires Protocol(w, b, s) && OncePerLayer(b) && Peaks(b.requests, b.maxPins) && Check(w, b, s, e).Ok?
    ensures Peaks(Check(w, b, s, e).value.0.requests, Check(w, b, s, e).value.0.maxPins)
  {
    hide Check, Inv, Holds, OncePerLayer, Peaks, LegalSoFar, Singly, R.Live;
    ProtocolInv(w, b, s);
    var (b', s') := Check(w, b, s, e).value;
    CheckKeepsProtocol(w, b, s, e);
    CheckKeepsOnce(w, b, s, e);
    OnceIsSingly(b');
    if e.AcquireRecord? {
      AcquireChecked(w, b, s, e);
      var r := R.Request(R.Acquire, e.key, |b.forwards|);
      LiveNext(b.requests, r);
      PeakIsReached(b.requests, b.maxPins);
      PeaksNext(b.requests, r, b.maxPins, b.maxPins);
    } else if e.Lease? {
      LeaseChecked(w, b, s, e);
      MaxPinsChecked(w, b, s, e);
      LiveIsPinSum(s', LiveOf(b'));
      PeaksNext(b.requests, b'.requests[|b.requests|], b.maxPins, b'.maxPins);
    } else {
      OtherChecked(w, b, s, e);
    }
  }

  lemma ProtocolInv(w: Workload, b: Book, s: State)
    requires Protocol(w, b, s)
    ensures Inv(s)
  {
  }

  lemma PeakIsReached(requests: seq<R.Request>, maxPins: nat)
    requires Peaks(requests, maxPins)
    ensures |R.Live(requests, |requests|)| <= maxPins
  {
  }

  lemma {:induction false} FoldPeaks(w: Workload, events: seq<Event>, n: nat)
    requires Covers(w) && n <= |events| && Fold(w, events, n).Ok?
    ensures var b := Fold(w, events, n).value.0; OncePerLayer(b) && Peaks(b.requests, b.maxPins)
  {
    hide Check, Covers, Recorded, Busy, OncePerLayer, Peaks, Protocol;
    if n == 0 {
      NothingPeaks();
    } else {
      FoldPeaks(w, events, n - 1);
      FoldIsSound(w, events, n - 1);
      var (b, s) := Fold(w, events, n - 1).value;
      CheckKeepsOnce(w, b, s, events[n - 1]);
      CheckKeepsPeaks(w, b, s, events[n - 1]);
    }
  }

  lemma NothingPeaks()
    ensures OncePerLayer(BLANK) && Peaks(BLANK.requests, BLANK.maxPins)
  {
    assert |R.Live([], 0)| == 0;
  }

  // ---------- so it decides every replay ----------

  lemma {:induction false} SinglyCounts(live: multiset<Key>)
    requires Singly(live)
    ensures |Leaseholders(live)| == |live|
    decreases |live|
  {
    if |live| == 0 {
      assert Leaseholders(live) == {};
    } else {
      var k := AnyIn(live);
      var rest := live - multiset{k};
      SinglyCounts(rest);
      assert Leaseholders(live) == Leaseholders(rest) + {k};
    }
  }

  lemma PeaksFit(requests: seq<R.Request>, maxPins: nat, capacity: nat)
    requires Peaks(requests, maxPins)
    ensures (forall i :: 0 <= i <= |requests| ==> R.Fits(requests, i, capacity)) <==> maxPins <= capacity
  {
    hide R.Live, Singly;
    forall i | 0 <= i <= |requests|
      ensures R.Fits(requests, i, capacity) <==> |R.Live(requests, i)| <= capacity
    {
      SinglyCounts(R.Live(requests, i));
    }
    var i :| 0 <= i <= |requests| && |R.Live(requests, i)| == maxPins;
    assert R.Fits(requests, i, capacity) ==> maxPins <= capacity;
  }

  /**
   * An accepted trace replays without raising, under either policy, at exactly the capacities from the number of
   * leases it reports up to 4096.
   */
  lemma AcceptedReplaysIff(w: Workload, events: seq<Event>, capacity: nat, policy: Policy)
    requires Decoded(w, events).Ok?
    ensures var trace := Decoded(w, events).value;
      && trace.maxPins <= 32
      && (R.Simulation(trace.requests, |trace.forwards|, capacity, policy).Ok? <==>
            1 <= capacity <= 4096 && trace.maxPins <= capacity)
  {
    hide R.Legal, R.Served, R.Fits, Peaks;
    AcceptedIsLegal(w, events);
    var trace := Decoded(w, events).value;
    FoldPeaks(w, events, |events|);
    if 1 <= capacity <= 4096 {
      hide R.Simulation;
      assert R.Demands(trace.requests, |trace.requests|, 1) >= LAYERS * TOP_K;
      R.AnswersIffServed(trace.requests, |trace.forwards|, trace.maxPins, 1, capacity, policy);
      R.ServedIffFits(trace.requests, |trace.forwards|, trace.maxPins, capacity);
      PeaksFit(trace.requests, trace.maxPins, capacity);
    }
  }
}
