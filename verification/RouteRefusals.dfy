/** Exactly which rows the segmenter refuses, in terms of the rows alone. */
module RouteRefusals {
  import opened Common
  import opened RouteSegments
  import opened RouteBlocks
  import opened RouteSegmenter
  import opened RouteAccesses
  import opened RouteBarriers

  /** A pinned revision and full build, fields in range, and ten distinct experts for each token. */
  ghost predicate ValidFields(row: Row, explicit: bool) {
    && HasRoutes(row) && row.revision in REVISIONS && FullBuild(row.build) && row.format
    && 0 <= row.layer < LAYERS && 0 <= row.offset <= 8191 && 1 <= row.tokens <= 8192 - row.offset
    && |row.routes.value| == row.tokens * TOP_K
    && (forall i :: 0 <= i < |row.routes.value| ==> 0 <= row.routes.value[i] < EXPERTS)
    && (forall g :: 0 <= g < row.tokens ==> Distinct(row.routes.value[g * TOP_K..(g + 1) * TOP_K]))
    && (explicit ==> row.requestId.Some? && 1 <= row.requestId.value <= MAX_ACCESSES)
  }

  /** No earlier pass came from another revision or build. */
  ghost predicate SameArtifact(rows: seq<Row>, row: Row, mode: Mode)
    requires row.Row?
  {
    forall i :: 0 <= i < |rows| && Usable(rows[i], mode.filter, mode.explicit) ==>
      rows[i].revision == row.revision && rows[i].build == row.build
  }

  /** The last row completes a window. */
  ghost predicate Completes(rows: seq<Row>, mode: Mode) {
    |rows| >= LAYERS && FormWindow(rows, |rows| - LAYERS, mode)
  }

  /** A row may come next: it places no pass, or is valid, of the same artifact, and stays within the demand limit. */
  ghost predicate MayFollow(rows: seq<Row>, row: Row, demands: nat, mode: Mode) {
    && row.Row?
    && (KindOf(row, mode) == Routed ==>
          && ValidFields(row, mode.explicit) && SameArtifact(rows, row, mode)
          && (Completes(rows + [row], mode) ==>
                demands + |Flat(rows + [row], |rows| + 1 - LAYERS, LAYERS)| <= MAX_ACCESSES))
  }

  lemma ValidIff(s: State, rows: seq<Row>, row: Row, mode: Mode)
    requires OneIdentity(s, rows, mode) && HasRoutes(row)
    ensures ValidRow(row, s.identity, mode.explicit) <==>
      ValidFields(row, mode.explicit) && SameArtifact(rows, row, mode)
  {
    TopRoutesIff(row.routes.value, row.tokens);
    hide TopRoutes, Distinct, FullBuild, Usable;
  }

  lemma DemandsOf(segments: seq<Segment>, segment: Segment)
    ensures Demands(segments + [segment]) == Demands(segments) + |segment.accesses|
    ensures segments != [] ==>
              Demands(segments[|segments| - 1 := segment])
              == Demands(segments) - |segments[|segments| - 1].accesses| + |segment.accesses|
  {
    assert (segments + [segment])[..|segments|] == segments;
    if segments != [] {
      assert segments[|segments| - 1 := segment][..|segments| - 1] == segments[..|segments| - 1];
    }
  }

  /** Closing a window adds its demands to the total. */
  lemma CloseDemands(s: State, explicit: bool)
    requires s.pending != []
    ensures Demands(Close(s, explicit).segments) == Demands(s.segments) + |KeysOf(s.pending)|
  {
    var first := s.pending[0];
    var ready := Open(s, first, explicit);
    var n := |ready.segments| - 1;
    DemandsOf(ready.segments, Extended(ready.segments[n], s.pending, explicit));
    if !Continues(s, first, explicit) {
      DemandsOf(s.segments, Segment(first.offset, first.offset, first.phase, first.session, 0, 0, [], []));
    }
    hide Spanned, Continues, KeysOf, Demands;
  }

  lemma HoldOkIff(s: State, row: Row, pass: Pass, explicit: bool)
    requires row.Row? && |s.pending| < LAYERS
    ensures Hold(Ready(s, row, pass), pass, explicit).Ok? <==>
      (|s.pending| == LAYERS - 1 && Next(s.pending, pass) ==>
         Demands(s.segments) + |KeysOf(s.pending + [pass])| <= MAX_ACCESSES)
  {
    var ready := Ready(s, row, pass);
    CloseDemands(ready.(pending := ready.pending + [pass]), explicit);
    hide Close, Demands, KeysOf, SameWindow;
  }

  lemma TakeOkIff(s: State, row: Row, mode: Mode)
    requires |s.pending| < LAYERS
    ensures KindOf(row, mode) != Routed ==> Take(s, row, mode.filter, mode.explicit).Ok?
    ensures KindOf(row, mode) == Routed && row.Row? ==>
              && HasRoutes(row)
              && (Take(s, row, mode.filter, mode.explicit).Ok? <==>
                    && ValidRow(row, s.identity, mode.explicit)
                    && (|s.pending| == LAYERS - 1 && Next(s.pending, PassOf(row)) ==>
                          Demands(s.segments) + |KeysOf(s.pending + [PassOf(row)])| <= MAX_ACCESSES))
  {
    if KindOf(row, mode) == Routed && row.Row? && ValidRow(row, s.identity, mode.explicit) {
      HoldOkIff(s, row, PassOf(row), mode.explicit);
    }
    hide ValidRow, PassOf, Ready, Hold, Demands, KeysOf, Next;
  }

  lemma RowCompletes(pending: seq<Pass>, rows: seq<Row>, row: Row, mode: Mode)
    requires Held(pending, rows, mode) && Usable(row, mode.filter, mode.explicit)
    ensures Completes(rows + [row], mode) <==> |pending| == LAYERS - 1 && Next(pending, PassOf(row))
  {
    hide FormWindow, Held, Next, PassOf, Usable, IsBlock;
    CompletesIff(pending, rows, row, mode);
    if |rows| + 1 >= LAYERS {
      FormWindowIff(rows + [row], |rows| + 1 - LAYERS, mode);
    }
  }

  lemma RowsDemand(rows: seq<Row>, b: nat, m: nat, mode: Mode)
    requires b + m <= |rows| && Partial(rows, b, m, mode)
    ensures KeysOf(Passes(rows, b, m, mode)) == Flat(rows, b, m)
  {
    hide Partial, Passes, KeysAt, KeysOf;
    WindowIsFlat(rows, b, 0, m, mode);
    NothingIsFlat(rows, b);
  }

  /** The unfinished window and the row that takes its next place demand what their rows do. */
  lemma WindowDemands(pending: seq<Pass>, rows: seq<Row>, row: Row, mode: Mode)
    requires Held(pending, rows, mode) && Usable(row, mode.filter, mode.explicit) && Next(pending, PassOf(row))
    ensures |pending| <= |rows|
    ensures KeysOf(pending + [PassOf(row)]) == Flat(rows + [row], |rows| - |pending|, |pending| + 1)
  {
    hide *;
    HeldFits(pending, rows, mode);
    UsableIsRow(row, mode);
    PartialGrows(pending, rows, row, mode);
    GrownDemands(pending + [PassOf(row)], rows + [row], |rows| - |pending|, |pending| + 1, mode);
  }

  lemma GrownDemands(window: seq<Pass>, rows: seq<Row>, b: nat, m: nat, mode: Mode)
    requires b + m <= |rows| && Partial(rows, b, m, mode) && Passes(rows, b, m, mode) == window
    ensures KeysOf(window) == Flat(rows, b, m)
  {
    hide *;
    RowsDemand(rows, b, m, mode);
  }

  /** A row with a pass is accepted exactly when it is valid and keeps the limit. */
  lemma PassAcceptedIff(s: State, rows: seq<Row>, row: Row, mode: Mode)
    requires OneIdentity(s, rows, mode) && Held(s.pending, rows, mode) && |s.pending| < LAYERS
    requires KindOf(row, mode) == Routed && ValidFields(row, mode.explicit) && SameArtifact(rows, row, mode)
    ensures Take(s, row, mode.filter, mode.explicit).Ok? <==>
      (Completes(rows + [row], mode) ==>
         Demands(s.segments) + |Flat(rows + [row], |rows| + 1 - LAYERS, LAYERS)| <= MAX_ACCESSES)
  {
    hide OneIdentity, Held, Take, ValidRow, ValidFields, SameArtifact, Completes, Demands, Flat, KeysOf, Next, PassOf,
      Usable, KindOf;
    FieldsOf(row, mode.explicit);
    TakeOkIff(s, row, mode);
    ValidIff(s, rows, row, mode);
    RoutedIsUsable(row, mode);
    RowCompletes(s.pending, rows, row, mode);
    if Completes(rows + [row], mode) {
      WindowDemands(s.pending, rows, row, mode);
      assert |rows| - |s.pending| == |rows| + 1 - LAYERS && |s.pending| + 1 == LAYERS;
    }
  }

  lemma FieldsOf(row: Row, explicit: bool)
    requires ValidFields(row, explicit)
    ensures HasRoutes(row) && row.layer >= 0 && row.offset >= 0 && row.tokens >= 0
  {
    hide Distinct;
  }

  /** A row is refused exactly when it may not follow those before it. */
  lemma RowAcceptedIff(s: State, rows: seq<Row>, row: Row, mode: Mode, all: Windows, at: seq<nat>)
    requires Tracked(s, rows, mode, all, at)
    ensures Take(s, row, mode.filter, mode.explicit).Ok? <==> MayFollow(rows, row, Demands(s.segments), mode)
  {
    hide Tracked, OneIdentity, Held, Take, ValidRow, ValidFields, SameArtifact, Completes, Demands, Flat, KeysOf, Next,
      PassOf, Usable, KindOf;
    TrackedParts(s, rows, mode, all, at);
    TakeOkIff(s, row, mode);
    NotAnObjectIsRefused(s, row, mode);
    if KindOf(row, mode) == Routed && row.Row? {
      ValidIff(s, rows, row, mode);
      if ValidFields(row, mode.explicit) && SameArtifact(rows, row, mode) {
        PassAcceptedIff(s, rows, row, mode);
      }
    }
  }

  lemma RoutedIsUsable(row: Row, mode: Mode)
    requires KindOf(row, mode) == Routed && ValidFields(row, mode.explicit)
    ensures Usable(row, mode.filter, mode.explicit)
  {
    hide Distinct;
  }

  lemma NotAnObjectIsRefused(s: State, row: Row, mode: Mode)
    ensures row.NotAnObject? ==> Take(s, row, mode.filter, mode.explicit).Err?
    ensures row.NotAnObject? ==> KindOf(row, mode) == Routed
  {
  }

  lemma TrackedParts(s: State, rows: seq<Row>, mode: Mode, all: Windows, at: seq<nat>)
    requires Tracked(s, rows, mode, all, at)
    ensures OneIdentity(s, rows, mode) && Held(s.pending, rows, mode) && |s.pending| < LAYERS
  {
    LocatedParts(s, all, at, rows, mode);
    hide Inv, OneIdentity, Placed, Ordered, Complete, Maximal, Reaches;
  }

  /** The demands of the windows complete after `n` rows. */
  ghost function DemandsAfter(rows: seq<Row>, n: nat, mode: Mode): nat
    requires n <= |rows|
  {
    var run := Run(rows[..n], mode);
    if run.Ok? then Demands(run.value.segments) else 0
  }

  /** A log is accepted exactly when each of its rows may follow those before it. */
  lemma {:induction false} LogAcceptedIff(rows: seq<Row>, mode: Mode)
    ensures Run(rows, mode).Ok? <==>
      forall n {:trigger rows[n]} :: 0 <= n < |rows| ==>
        MayFollow(rows[..n], rows[n], DemandsAfter(rows, n, mode), mode)
  {
    hide Take, MayFollow, Demands, Tracked;
    if rows != [] {
      var m := |rows| - 1;
      var front, row := rows[..m], rows[m];
      LogAcceptedIff(front, mode);
      forall n | 0 <= n < m
        ensures front[..n] == rows[..n] && front[n] == rows[n]
        ensures DemandsAfter(front, n, mode) == DemandsAfter(rows, n, mode)
      {
        assert front[..n] == rows[..n];
      }
      if Run(front, mode).Ok? {
        var all, at := RunIsLocated(front, mode);
        RowAcceptedIff(Run(front, mode).value, front, row, mode, all, at);
      }
    }
  }
}
