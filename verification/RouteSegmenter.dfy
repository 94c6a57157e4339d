/** The segmenting loop over a whole log, and what its answer means. */
module RouteSegmenter {
  import opened Common
  import opened RouteSegments
  import opened RouteBlocks
  import C = Counts

  // ---------- every row is accounted for ----------

  datatype Kind = Boundary | Filtered | Missing | Routed

  function KindOf(row: Row, mode: Mode): Kind {
    if row.NotAnObject? then Routed
    else if mode.explicit && row.boundary.Some? then Boundary
    else if mode.filter.Some? && row.phase != mode.filter then Filtered
    else if row.routes.None? then Missing
    else Routed
  }

  ghost function Rows(rows: seq<Row>, kind: Kind, mode: Mode): nat {
    if rows == [] then 0
    else Rows(rows[..|rows| - 1], kind, mode) + if KindOf(rows[|rows| - 1], mode) == kind then 1 else 0
  }

  ghost function WindowTotal(segments: seq<Segment>): nat {
    if segments == [] then 0 else WindowTotal(segments[..|segments| - 1]) + segments[|segments| - 1].windows
  }

  lemma {:induction false} WindowsAreCounted(segments: seq<Segment>, all: Windows, explicit: bool)
    requires |all| == |segments| && forall i :: 0 <= i < |all| ==> Faithful(segments[i], all[i], explicit)
    ensures WindowTotal(segments) == WindowCount(all)
  {
    if segments != [] {
      var n := |segments| - 1;
      WindowsAreCounted(segments[..n], all[..n], explicit);
      assert Faithful(segments[n], all[n], explicit);
    }
  }

  lemma TakeCounts(s: State, row: Row, mode: Mode)
    requires Take(s, row, mode.filter, mode.explicit).Ok?
    ensures var s' := Take(s, row, mode.filter, mode.explicit).value;
      var kind := KindOf(row, mode);
      && s'.boundaries == s.boundaries + (if kind == Boundary then 1 else 0)
      && s'.filtered == s.filtered + (if kind == Filtered then 1 else 0)
      && s'.missing == s.missing + (if kind == Missing then 1 else 0)
  {
    TakenIsUsable(s, row, mode.filter, mode.explicit);
    if KindOf(row, mode) == Routed {
      TakeIs(s, row, mode.filter, mode.explicit);
      hide Take, ValidRow, PassOf, Close, Ready;
      HoldCounts(s, row, PassOf(row), mode.explicit);
    } else {
      hide ValidRow, PassOf, SameWindow;
    }
  }

  lemma HoldCounts(s: State, row: Row, pass: Pass, explicit: bool)
    requires row.Row?
    ensures var ready := Ready(s, row, pass);
      var closed := Close(ready.(pending := ready.pending + [pass]), explicit);
      && ready.boundaries == closed.boundaries == s.boundaries
      && ready.filtered == closed.filtered == s.filtered
      && ready.missing == closed.missing == s.missing
  {
    hide SameWindow, Extended, Open;
  }

  lemma CountNext(rows: seq<Row>, row: Row, mode: Mode)
    ensures forall kind ::
      Rows(rows + [row], kind, mode) == Rows(rows, kind, mode) + if KindOf(row, mode) == kind then 1 else 0
  {
    assert (rows + [row])[..|rows|] == rows;
  }

  /** All passes kept, and the segments built from them, come from one artifact revision and one build. */
  ghost predicate OneIdentity(s: State, rows: seq<Row>, mode: Mode) {
    && (forall i :: 0 <= i < |rows| && Usable(rows[i], mode.filter, mode.explicit) ==>
          s.identity == Some((rows[i].revision, rows[i].build)))
    && (s.identity.Some? ==> s.identity.value.0 in REVISIONS && FullBuild(s.identity.value.1))
    && (s.identity.Some? <==> exists i :: 0 <= i < |rows| && Usable(rows[i], mode.filter, mode.explicit))
  }

  lemma TakeKeepsIdentity(s: State, rows: seq<Row>, row: Row, mode: Mode)
    requires OneIdentity(s, rows, mode) && Take(s, row, mode.filter, mode.explicit).Ok?
    ensures OneIdentity(Take(s, row, mode.filter, mode.explicit).value, rows + [row], mode)
  {
    TakeIdentity(s, row, mode);
    hide Take, Usable, FullBuild;
    var s' := Take(s, row, mode.filter, mode.explicit).value;
    var longer := rows + [row];
    assert forall i :: 0 <= i < |rows| ==> longer[i] == rows[i];
    assert longer[|rows|] == row;
  }

  lemma TakeIdentity(s: State, row: Row, mode: Mode)
    requires Take(s, row, mode.filter, mode.explicit).Ok?
    ensures var s' := Take(s, row, mode.filter, mode.explicit).value;
      if Usable(row, mode.filter, mode.explicit) then
        && s'.identity == Some((row.revision, row.build)) && (s.identity.Some? ==> s'.identity == s.identity)
        && row.revision in REVISIONS && FullBuild(row.build)
      else s'.identity == s.identity
  {
    TakenIsUsable(s, row, mode.filter, mode.explicit);
    if Usable(row, mode.filter, mode.explicit) {
      TakeIs(s, row, mode.filter, mode.explicit);
      hide Take, PassOf, SameWindow, TopRoutes, Continues, Extended;
    } else {
      hide PassOf, SameWindow, ValidRow;
    }
  }

  /** The segments of a log never mix artifact revisions or builds. */
  lemma LogHasOneIdentity(rows: seq<Row>, mode: Mode)
    requires Run(rows, mode).Ok?
    ensures OneIdentity(Finish(Run(rows, mode).value), rows, mode)
  {
    var all, at := RunIsLocated(rows, mode);
    hide Located, Inv, Run, Usable, Rows;
  }

  /** Everything known about the state after `rows`. */
  ghost predicate Tracked(s: State, rows: seq<Row>, mode: Mode, all: Windows, at: seq<nat>) {
    && OneIdentity(s, rows, mode)
    && Inv(s, all, |rows|, mode.explicit) && Located(s, all, at, rows, mode)
    && s.boundaries == Rows(rows, Boundary, mode) && s.filtered == Rows(rows, Filtered, mode)
    && s.missing == Rows(rows, Missing, mode)
  }

  lemma TakeIsTracked(s: State, rows: seq<Row>, row: Row, mode: Mode, all: Windows, at: seq<nat>)
    returns (at': seq<nat>)
    requires Tracked(s, rows, mode, all, at) && Take(s, row, mode.filter, mode.explicit).Ok?
    ensures Tracked(Take(s, row, mode.filter, mode.explicit).value, rows + [row], mode,
                    AllAfter(s, all, row, mode.filter, mode.explicit), at')
  {
    CountNext(rows, row, mode);
    TakeCounts(s, row, mode);
    TakeKeepsIdentity(s, rows, row, mode);
    hide OneIdentity, Inv, Located, Take, KindOf, AllAfter, Rows;
    TakeKeepsInv(s, all, |rows|, row, mode.filter, mode.explicit);
    at' := LocatedStep(s, all, at, rows, row, mode);
  }

  lemma NothingIsTracked(mode: Mode)
    ensures Tracked(EMPTY, [], mode, [], [])
  {
    assert Partial([], 0, 0, mode);
  }

  lemma {:induction false} RunIsLocated(rows: seq<Row>, mode: Mode) returns (all: Windows, at: seq<nat>)
    requires Run(rows, mode).Ok?
    ensures Tracked(Run(rows, mode).value, rows, mode, all, at)
  {
    hide Tracked, Take;
    if rows == [] {
      all, at := [], [];
      NothingIsTracked(mode);
    } else {
      var front, row := rows[..|rows| - 1], rows[|rows| - 1];
      var before, start := RunIsLocated(front, mode);
      var s := Run(front, mode).value;
      at := TakeIsTracked(s, front, row, mode, before, start);
      all := AllAfter(s, before, row, mode.filter, mode.explicit);
      assert front + [row] == rows;
    }
  }

  /**
   * A segment is a maximal block of consecutive rows that are complete 48-layer windows, each continuing the one
   * before, and no complete window of the log is left out.
   */
  lemma SegmentsAreMaximalBlocks(rows: seq<Row>, mode: Mode) returns (all: Windows, at: seq<nat>)
    requires Run(rows, mode).Ok?
    ensures var segments := Finish(Run(rows, mode).value).segments;
      && |all| == |segments| && (forall i :: 0 <= i < |all| ==> Faithful(segments[i], all[i], mode.explicit))
      && Placed(all, at, rows, mode) && Ordered(all, at) && Complete(all, at, rows, mode)
      && Maximal(all, at, mode.explicit)
  {
    all, at := RunIsLocated(rows, mode);
  }

  /** Rows that are no boundary events are included, excluded, missing their routes or filtered. */
  lemma RowsAreConserved(rows: seq<Row>, mode: Mode)
    requires Run(rows, mode).Ok?
    ensures var s := Finish(Run(rows, mode).value);
      && s.boundaries == Rows(rows, Boundary, mode) && s.filtered == Rows(rows, Filtered, mode)
      && s.missing == Rows(rows, Missing, mode)
      && |rows| - s.boundaries == s.passes + s.excluded + s.missing + s.filtered
      && s.passes == LAYERS * WindowTotal(s.segments)
      && Demands(s.segments) <= s.logicalRoutes && Demands(s.segments) <= MAX_ACCESSES
  {
    var all, at := RunIsLocated(rows, mode);
    WindowsAreCounted(Run(rows, mode).value.segments, all, mode.explicit);
    hide Located, Faithful, Demands;
  }

  // ---------- the segments can be counted ----------

  lemma {:induction false} WindowKeysInRange(w: seq<Pass>, explicit: bool)
    requires InOrder(w, explicit) && |w| <= LAYERS
    ensures forall j :: 0 <= j < |KeysOf(w)| ==> 0 <= KeysOf(w)[j] < LAYERS * EXPERTS
  {
    if w != [] {
      assert InOrder(w[..|w| - 1], explicit);
      WindowKeysInRange(w[..|w| - 1], explicit);
    }
  }

  lemma {:induction false} KeysInRange(windows: seq<seq<Pass>>, explicit: bool)
    requires forall i :: 0 <= i < |windows| ==> IsWindow(windows[i], explicit)
    ensures forall j :: 0 <= j < |KeysOfAll(windows)| ==> 0 <= KeysOfAll(windows)[j] < LAYERS * EXPERTS
  {
    if windows != [] {
      KeysInRange(windows[..|windows| - 1], explicit);
      assert IsWindow(windows[|windows| - 1], explicit);
      WindowKeysInRange(windows[|windows| - 1], explicit);
      hide InOrder, KeysOf;
    }
  }

  function Countable(segments: seq<Segment>): (r: seq<C.Segment>)
    ensures |r| == |segments|
    ensures forall i :: 0 <= i < |r| ==> r[i] == C.Segment(segments[i].accesses, segments[i].spans)
  {
    seq(|segments|, i requires 0 <= i < |segments| => C.Segment(segments[i].accesses, segments[i].spans))
  }

  lemma SegmentsAreWellFormed(rows: seq<Row>, mode: Mode)
    requires Run(rows, mode).Ok?
    ensures var segments := Countable(Finish(Run(rows, mode).value).segments);
      C.AllWellFormed(segments) && (mode.explicit ==> forall i :: 0 <= i < |segments| ==> segments[i].spans != [])
  {
    var all, at := RunIsLocated(rows, mode);
    var segments := Run(rows, mode).value.segments;
    hide Located, InOrder, KeysOfAll, Owned;
    forall i | 0 <= i < |segments|
      ensures C.WellFormed(C.Segment(segments[i].accesses, segments[i].spans))
      ensures mode.explicit ==> segments[i].spans != []
    {
      assert Faithful(segments[i], all[i], mode.explicit);
      KeysInRange(all[i], mode.explicit);
    }
  }

  /** From log to counts: layers, and with explicit boundaries requests and phases, each split every total exactly. */
  lemma CountsSplitTotals(rows: seq<Row>, mode: Mode, policy: C.Policy, capacity: nat, layers: seq<Tally>,
                          phases: map<C.Owner, Tally>)
    requires Run(rows, mode).Ok?
    requires var segments := Countable(Finish(Run(rows, mode).value).segments);
      C.AllWellFormed(segments) ==> C.Records(C.Log(policy, segments, capacity), layers, phases)
    ensures var segments := Countable(Finish(Run(rows, mode).value).segments);
      && C.AllWellFormed(segments)
      && C.LayerSum(layers) == C.Total(C.Log(policy, segments, capacity))
      && (mode.explicit ==> C.PhaseSum(phases, phases.Keys) == C.Total(C.Log(policy, segments, capacity)))
  {
    SegmentsAreWellFormed(rows, mode);
    var segments := Countable(Finish(Run(rows, mode).value).segments);
    hide Run, Finish, C.WellFormed;
    C.LogIsOwned(policy, segments, capacity);
    var log := C.Log(policy, segments, capacity);
    C.LayersSumToTotal(log, layers);
    if mode.explicit {
      C.PhasesSumToTotal(log, layers, phases);
    }
  }

  // ---------- the loop ----------

  class Segmenter {
    var segments: seq<Segment>
    var pending: seq<Pass>
    var identity: Option<(string, string)>
    var excluded: nat
    var missing: nat
    var filtered: nat
    var incomplete: nat
    var boundaries: nat
    var logicalRoutes: nat
    var passes: nat
    var barriers: seq<string>
    var canContinue: bool

    ghost function Value(): State
      reads this
    {
      State(segments, pending, identity, excluded, missing, filtered, incomplete, boundaries, logicalRoutes, passes,
            barriers, canContinue)
    }

    constructor ()
      ensures Value() == EMPTY
    {
      segments, pending, identity := [], [], None;
      excluded, missing, filtered, incomplete, boundaries, logicalRoutes, passes := 0, 0, 0, 0, 0, 0, 0;
      barriers, canContinue := [], false;
    }

    method DiscardPending(reason: string)
      modifies this
      ensures Value() == Discard(old(Value()), reason)
    {
      if pending != [] {
        excluded := excluded + |pending|;
        incomplete := incomplete + 1;
      }
      pending := [];
      canContinue := false;
      barriers := barriers + [reason];
    }

    /** All demands of the pending passes, in order. */
    method Gather(accesses: seq<int>) returns (longer: seq<int>)
      ensures longer == accesses + KeysOf(pending)
    {
      longer := accesses;
      for i := 0 to |pending|
        invariant longer == accesses + KeysOf(pending[..i])
      {
        assert pending[..i + 1][..i] == pending[..i];
        longer := longer + pending[i].keys;
      }
      assert pending[..|pending|] == pending;
    }

    /** The segment with the pending window added at its end. */
    method Extend(segment: Segment, explicit: bool) returns (longer: Segment)
      requires pending != []
      ensures longer == Extended(segment, pending, explicit)
    {
      var first := pending[0];
      var accesses := Gather(segment.accesses);
      var spans := segment.spans;
      if explicit {
        if spans != [] && spans[|spans| - 1].owner == OwnerOf(first) {
          spans := spans[|spans| - 1 := spans[|spans| - 1].(end := |accesses|)];
        } else {
          spans := spans + [C.Span(|segment.accesses|, |accesses|, OwnerOf(first))];
        }
      }
      longer := segment.(accesses := accesses, spans := spans, end := first.offset + first.tokens,
        windows := segment.windows + 1,
        singleTokenWindows := segment.singleTokenWindows + if first.tokens == 1 then 1 else 0);
    }

    /** The last segment when the window continues it, or a new one that starts cold. */
    method OpenSegment(first: Pass, explicit: bool)
      modifies this`segments, this`barriers
      ensures Value() == Open(old(Value()), first, explicit)
    {
      if canContinue && segments != [] {
        var last := segments[|segments| - 1];
        if last.end == first.offset && (explicit || last.phase == first.phase) && last.session == first.session {
          return;
        }
        barriers := barriers + ["position_phase_or_session_boundary"];
      }
      segments := segments + [Segment(first.offset, first.offset, first.phase, first.session, 0, 0, [], [])];
    }

    /** The pending window is complete. */
    method CloseWindow(explicit: bool)
      requires pending != []
      modifies this
      ensures Value() == Close(old(Value()), explicit)
    {
      hide Open, Extended;
      var first := pending[0];
      OpenSegment(first, explicit);
      var segment := Extend(segments[|segments| - 1], explicit);
      segments := segments[|segments| - 1 := segment];
      logicalRoutes := logicalRoutes + first.tokens * TOP_K * LAYERS;
      passes := passes + LAYERS;
      pending := [];
      canContinue := true;
    }

    /** Sum the demands collected so far. */
    method Collected() returns (sum: nat)
      ensures sum == Demands(segments)
    {
      sum := 0;
      for i := 0 to |segments|
        invariant sum == Demands(segments[..i])
      {
        assert segments[..i + 1][..i] == segments[..i];
        sum := sum + |segments[i].accesses|;
      }
      assert segments[..|segments|] == segments;
    }

    method Accept(row: Row, mode: Mode) returns (ok: bool)
      modifies this
      ensures ok <==> Take(old(Value()), row, mode.filter, mode.explicit).Ok?
      ensures ok ==> Value() == Take(old(Value()), row, mode.filter, mode.explicit).value
    {
      hide ValidRow, Close, PassOf, Demands, SameWindow;
      if row.NotAnObject? {
        return false;
      }
      if mode.explicit && row.boundary.Some? {
        boundaries := boundaries + 1;
        DiscardPending(row.boundary.value);
        return true;
      }
      if mode.filter.Some? && row.phase != mode.filter {
        DiscardPending("phase_filter");
        filtered := filtered + 1;
        return true;
      }
      if row.routes.None? {
        DiscardPending("missing_routes");
        missing := missing + 1;
        return true;
      }
      ok := Place(row, mode);
    }

    /** A row with routes: check it, drop what it cannot follow, and keep it if it can start or extend a window. */
    method Place(row: Row, mode: Mode) returns (ok: bool)
      requires row.Row? && !Dropped(row, mode.filter, mode.explicit)
      modifies this
      ensures ok <==> Take(old(Value()), row, mode.filter, mode.explicit).Ok?
      ensures ok ==> Value() == Take(old(Value()), row, mode.filter, mode.explicit).value
    {
      if !ValidRow(row, identity, mode.explicit) {
        return false;
      }
      hide ValidRow, Ready, Hold, PassOf;
      var pass := PassOf(row);
      MakeReady(row, pass);
      ok := HoldPass(pass, mode.explicit);
    }

    method MakeReady(row: Row, pass: Pass)
      requires row.Row?
      modifies this
      ensures Value() == Ready(old(Value()), row, pass)
    {
      identity := Some((row.revision, row.build));
      if pending != [] && (pass.layer != |pending| || !SameWindow(pass, pending[0])) {
        DiscardPending("incomplete_or_discontinuous_window");
      }
    }

    /** Keep a pass, and close the window if it is the last one; false when the log holds too many demands. */
    method HoldPass(pass: Pass, explicit: bool) returns (ok: bool)
      modifies this
      ensures ok <==> Hold(old(Value()), pass, explicit).Ok?
      ensures ok ==> Value() == Hold(old(Value()), pass, explicit).value
    {
      hide Close, Demands;
      if pending == [] && pass.layer != 0 {
        excluded := excluded + 1;
        canContinue := false;
        return true;
      }
      pending := pending + [pass];
      if |pending| != LAYERS {
        return true;
      }
      CloseWindow(explicit);
      var demands := Collected();
      return demands <= MAX_ACCESSES;
    }
  }

  /** The segments of a log and where its rows went, or an error where a row is refused. */
  method Segmented(rows: seq<Row>, mode: Mode) returns (answer: Result<State>)
    ensures answer.Ok? <==> Run(rows, mode).Ok?
    ensures answer.Ok? ==> answer.value == Finish(Run(rows, mode).value)
    ensures answer.Ok? ==>
      |rows| - answer.value.boundaries ==
        answer.value.passes + answer.value.excluded + answer.value.missing + answer.value.filtered
  {
    var segmenter := new Segmenter();
    for i := 0 to |rows|
      invariant fresh(segmenter)
      invariant Run(rows[..i], mode) == Ok(segmenter.Value())
    {
      assert rows[..i + 1][..i] == rows[..i];
      var ok := segmenter.Accept(rows[i], mode);
      if !ok {
        RefusedStaysRefused(rows, i + 1, mode);
        return Err;
      }
    }
    assert rows[..|rows|] == rows;
    RowsAreConserved(rows, mode);
    if segmenter.pending != [] {
      segmenter.DiscardPending("incomplete_final_window");
    }
    answer := Ok(State(segmenter.segments, segmenter.pending, segmenter.identity, segmenter.excluded, segmenter.missing,
      segmenter.filtered, segmenter.incomplete, segmenter.boundaries, segmenter.logicalRoutes, segmenter.passes,
      segmenter.barriers, segmenter.canContinue));
  }

  lemma {:induction false} RefusedStaysRefused(rows: seq<Row>, n: nat, mode: Mode)
    requires n <= |rows| && Run(rows[..n], mode).Err?
    ensures Run(rows, mode).Err?
  {
    if n < |rows| {
      assert rows[..|rows| - 1][..n] == rows[..n];
      RefusedStaysRefused(rows[..|rows| - 1], n, mode);
    } else {
      assert rows[..n] == rows;
    }
  }
}
