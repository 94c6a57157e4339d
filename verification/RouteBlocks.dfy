/** Which rows of a log end up in which window of which segment. */
module RouteBlocks {
  import opened Common
  import opened RouteSegments

  datatype Mode = Mode(filter: Option<string>, explicit: bool)

  function Run(rows: seq<Row>, mode: Mode): Result<State> {
    if rows == [] then Ok(EMPTY)
    else
      var s :- Run(rows[..|rows| - 1], mode);
      Take(s, rows[|rows| - 1], mode.filter, mode.explicit)
  }

  /** The passes of an unfinished window are left out at the end of the log. */
  function Finish(s: State): State {
    if s.pending == [] then s else Discard(s, "incomplete_final_window")
  }

  // ---------- rows that form a window ----------

  ghost predicate Fits(row: Row, first: Row, layer: nat, mode: Mode) {
    && Usable(row, mode.filter, mode.explicit) && Usable(first, mode.filter, mode.explicit)
    && row.layer == layer && SameWindow(PassOf(row), PassOf(first))
  }

  /** Rows i..i+m are layers 0..m-1 of one window. */
  ghost predicate Partial(rows: seq<Row>, i: nat, m: nat, mode: Mode) {
    i + m <= |rows| && forall j {:trigger rows[j]} :: i <= j < i + m ==> Fits(rows[j], rows[i], j - i, mode)
  }

  ghost predicate IsBlock(rows: seq<Row>, i: nat, mode: Mode) {
    Partial(rows, i, LAYERS, mode)
  }

  ghost function Passes(rows: seq<Row>, i: nat, m: nat, mode: Mode): (p: seq<Pass>)
    requires Partial(rows, i, m, mode)
    ensures |p| == m
  {
    seq(m, l requires 0 <= l < m => PassOf(rows[i + l]))
  }

  /** One window may follow another in the same segment. */
  ghost predicate Joins(a: Pass, b: Pass, explicit: bool) {
    a.offset + a.tokens == b.offset && (explicit || a.phase == b.phase) && a.session == b.session
  }

  // ---------- where the windows are ----------

  /** The first row of window k of a segment whose first row is `start`. */
  function RowOf(start: nat, k: nat): nat {
    start + LAYERS * k
  }

  ghost predicate IsAt(w: seq<Pass>, rows: seq<Row>, b: nat, mode: Mode) {
    IsBlock(rows, b, mode) && w == Passes(rows, b, LAYERS, mode)
  }

  /** Segment i is the block of rows from at[i] on, 48 rows a window. */
  ghost predicate Placed(all: Windows, at: seq<nat>, rows: seq<Row>, mode: Mode) {
    && |at| == |all|
    && forall i, k {:trigger all[i][k]} :: 0 <= i < |all| && 0 <= k < |all[i]| ==>
         IsAt(all[i][k], rows, RowOf(at[i], k), mode)
  }

  ghost function End(all: Windows, at: seq<nat>, i: nat): nat
    requires |at| == |all| && i < |at|
  {
    RowOf(at[i], |all[i]|)
  }

  ghost predicate Ordered(all: Windows, at: seq<nat>)
    requires |at| == |all|
  {
    && (forall i :: 0 <= i < |all| ==> all[i] != [])
    && forall i, j :: 0 <= i < j < |at| ==> End(all, at, i) <= at[j]
  }

  /** Some window starts at row b. */
  ghost predicate Starts(all: Windows, at: seq<nat>, b: nat)
    requires |at| == |all|
  {
    exists i, k {:trigger all[i][k]} :: 0 <= i < |all| && 0 <= k < |all[i]| && RowOf(at[i], k) == b
  }

  ghost predicate Complete(all: Windows, at: seq<nat>, rows: seq<Row>, mode: Mode)
    requires |at| == |all|
  {
    forall b: nat :: IsBlock(rows, b, mode) ==> Starts(all, at, b)
  }

  /** Segment i + 1 starts cold for a reason: a gap in the log, or a window that does not continue the last. */
  ghost predicate ColdAt(all: Windows, at: seq<nat>, i: nat, explicit: bool)
    requires |at| == |all| && i + 1 < |at|
  {
    End(all, at, i) == at[i + 1] && all[i] != [] && all[i + 1] != []
    && all[i][|all[i]| - 1] != [] && all[i + 1][0] != [] ==>
      !Joins(all[i][|all[i]| - 1][0], all[i + 1][0][0], explicit)
  }

  ghost predicate Maximal(all: Windows, at: seq<nat>, explicit: bool)
    requires |at| == |all|
  {
    forall i: nat {:trigger ColdAt(all, at, i, explicit)} :: i + 1 < |at| ==> ColdAt(all, at, i, explicit)
  }

  /** The last m rows start a window. */
  ghost predicate Tail(rows: seq<Row>, m: nat, mode: Mode) {
    m <= |rows| && Partial(rows, |rows| - m, m, mode)
  }

  /** The pending passes are the last rows of the log. */
  ghost predicate Held(pending: seq<Pass>, rows: seq<Row>, mode: Mode) {
    && |pending| < LAYERS && Tail(rows, |pending|, mode)
    && pending == Passes(rows, |rows| - |pending|, |pending|, mode)
    && forall m: nat {:trigger Tail(rows, m, mode)} :: 0 < m < LAYERS && Tail(rows, m, mode) ==> |pending| == m
  }

  /** The last segment reaches up to the pending rows, so the window they start may continue it. */
  ghost predicate Reaches(all: Windows, at: seq<nat>, pending: nat, rows: nat)
    requires |at| == |all|
  {
    at != [] && End(all, at, |at| - 1) + pending == rows
  }

  ghost predicate Located(s: State, all: Windows, at: seq<nat>, rows: seq<Row>, mode: Mode) {
    && Placed(all, at, rows, mode) && Ordered(all, at) && Complete(all, at, rows, mode)
    && Maximal(all, at, mode.explicit)
    && Held(s.pending, rows, mode)
    && (at != [] ==> End(all, at, |at| - 1) + |s.pending| <= |rows|)
    && (s.canContinue <==> Reaches(all, at, |s.pending|, |rows|))
  }

  // ---------- one more row ----------

  lemma PartialExtends(rows: seq<Row>, row: Row, i: nat, m: nat, mode: Mode)
    ensures i + m <= |rows| ==> (Partial(rows + [row], i, m, mode) <==> Partial(rows, i, m, mode))
    ensures i + m <= |rows| && Partial(rows, i, m, mode) ==>
      Passes(rows + [row], i, m, mode) == Passes(rows, i, m, mode)
    ensures m > 0 && i + m == |rows| + 1 && Partial(rows + [row], i, m, mode) ==> Partial(rows, i, m - 1, mode)
  {
    hide Fits;
    var longer := rows + [row];
    assert forall j :: 0 <= j < |rows| ==> longer[j] == rows[j];
  }

  lemma PlacedExtends(all: Windows, at: seq<nat>, rows: seq<Row>, row: Row, mode: Mode)
    requires Placed(all, at, rows, mode)
    ensures Placed(all, at, rows + [row], mode)
  {
    hide IsAt;
    forall i, k | 0 <= i < |all| && 0 <= k < |all[i]|
      ensures IsAt(all[i][k], rows + [row], RowOf(at[i], k), mode)
    {
      IsAtExtends(all[i][k], rows, row, RowOf(at[i], k), mode);
    }
  }

  lemma IsAtExtends(w: seq<Pass>, rows: seq<Row>, row: Row, b: nat, mode: Mode)
    requires IsAt(w, rows, b, mode)
    ensures IsAt(w, rows + [row], b, mode)
  {
    PartialWithin(rows, b, LAYERS, mode);
    PartialExtends(rows, row, b, LAYERS, mode);
    hide Partial;
  }

  lemma PartialWithin(rows: seq<Row>, i: nat, m: nat, mode: Mode)
    requires Partial(rows, i, m, mode)
    ensures i + m <= |rows|
  {
  }

  /** No window ends with a row that does not complete the pending ones. */
  lemma CompleteExtends(all: Windows, at: seq<nat>, rows: seq<Row>, row: Row, mode: Mode)
    requires |at| == |all| && Complete(all, at, rows, mode)
    requires !Tail(rows + [row], LAYERS, mode)
    ensures Complete(all, at, rows + [row], mode)
  {
    hide Starts, Partial;
    forall b: nat | IsBlock(rows + [row], b, mode)
      ensures Starts(all, at, b)
    {
      PartialWithin(rows + [row], b, LAYERS, mode);
      PartialExtends(rows, row, b, LAYERS, mode);
    }
  }

  /** Does the row take the next place in the window being collected? */
  ghost predicate Next(pending: seq<Pass>, pass: Pass) {
    pass.layer == |pending| && (pending != [] ==> SameWindow(pass, pending[0]))
  }

  /** Rows that end in an unfinished window show in `pending`; otherwise the row starts afresh. */
  lemma LastRow(pending: seq<Pass>, rows: seq<Row>, row: Row, m: nat, mode: Mode)
    requires Held(pending, rows, mode) && 0 < m <= LAYERS && Tail(rows + [row], m, mode)
    ensures Usable(row, mode.filter, mode.explicit) && row.layer == m - 1
    ensures m > 1 ==> |pending| == m - 1 && Next(pending, PassOf(row))
  {
    var longer := rows + [row];
    var i := |rows| + 1 - m;
    assert Fits(longer[|rows|], longer[i], m - 1, mode);
    if m > 1 {
      PartialExtends(rows, row, i, m, mode);
      assert i == |rows| - (m - 1);
      assert Tail(rows, m - 1, mode);
      assert pending[0] == PassOf(rows[i]);
    }
  }

  /** The pending passes and a row that fits form a longer window. */
  lemma PartialGrows(pending: seq<Pass>, rows: seq<Row>, row: Row, mode: Mode)
    requires Held(pending, rows, mode) && Usable(row, mode.filter, mode.explicit) && Next(pending, PassOf(row))
    ensures var n := |rows| - |pending|;
      Partial(rows + [row], n, |pending| + 1, mode)
      && Passes(rows + [row], n, |pending| + 1, mode) == pending + [PassOf(row)]
  {
    var longer := rows + [row];
    var n := |rows| - |pending|;
    if pending != [] {
      assert pending[0] == PassOf(rows[n]);
      assert Fits(rows[n], rows[n], 0, mode);
    }
    forall j | n <= j < n + |pending| + 1
      ensures Fits(longer[j], longer[n], j - n, mode)
    {
      if j < |rows| {
        assert Fits(rows[j], rows[n], j - n, mode);
      }
    }
    forall l | 0 <= l < |pending|
      ensures PassOf(longer[n + l]) == pending[l]
    {
      assert longer[n + l] == rows[n + l];
    }
  }

  lemma TailEnds(rows: seq<Row>, row: Row, mode: Mode)
    ensures Tail(rows + [row], 0, mode)
    ensures Usable(row, mode.filter, mode.explicit) && row.layer == 0 ==>
              Tail(rows + [row], 1, mode) && Passes(rows + [row], |rows|, 1, mode) == [PassOf(row)]
  {
    var longer := rows + [row];
    assert longer[|rows|] == row;
    if Usable(row, mode.filter, mode.explicit) && row.layer == 0 {
      assert Partial(longer, |rows|, 1, mode);
    }
  }

  /** A row that does not fit is left out, unless it is layer 0 of a new window. */
  lemma HeldAfterMiss(pending: seq<Pass>, rows: seq<Row>, row: Row, mode: Mode)
    requires Held(pending, rows, mode)
    requires Usable(row, mode.filter, mode.explicit) ==> !Next(pending, PassOf(row)) && row.layer != 0
    ensures Held([], rows + [row], mode)
    ensures !Tail(rows + [row], LAYERS, mode)
  {
    var longer := rows + [row];
    hide Partial, Next;
    forall m: nat | 0 < m <= LAYERS
      ensures !Tail(longer, m, mode)
    {
      if Tail(longer, m, mode) {
        LastRow(pending, rows, row, m, mode);
        assert false;
      }
    }
    TailEnds(rows, row, mode);
  }

  lemma HeldAfterRestart(pending: seq<Pass>, rows: seq<Row>, row: Row, mode: Mode)
    requires Held(pending, rows, mode)
    requires Usable(row, mode.filter, mode.explicit) && !Next(pending, PassOf(row)) && row.layer == 0
    ensures Held([PassOf(row)], rows + [row], mode)
    ensures !Tail(rows + [row], LAYERS, mode)
  {
    var longer := rows + [row];
    hide Partial, Next;
    forall m: nat | 1 < m <= LAYERS
      ensures !Tail(longer, m, mode)
    {
      if Tail(longer, m, mode) {
        LastRow(pending, rows, row, m, mode);
        assert false;
      }
    }
    TailEnds(rows, row, mode);
  }

  lemma HeldAfterGrowth(pending: seq<Pass>, rows: seq<Row>, row: Row, mode: Mode)
    requires Held(pending, rows, mode) && |pending| < LAYERS - 1
    requires Usable(row, mode.filter, mode.explicit) && Next(pending, PassOf(row))
    ensures Held(pending + [PassOf(row)], rows + [row], mode)
    ensures !Tail(rows + [row], LAYERS, mode)
  {
    var longer := rows + [row];
    PartialGrows(pending, rows, row, mode);
    hide Partial, Next;
    forall m: nat | 0 < m <= LAYERS && Tail(longer, m, mode)
      ensures m == |pending| + 1
    {
      LastRow(pending, rows, row, m, mode);
    }
  }

  lemma HeldAfterClose(pending: seq<Pass>, rows: seq<Row>, row: Row, mode: Mode)
    requires Held(pending, rows, mode) && |pending| == LAYERS - 1
    requires Usable(row, mode.filter, mode.explicit) && Next(pending, PassOf(row))
    ensures Held([], rows + [row], mode)
    ensures |rows| + 1 >= LAYERS && IsAt(pending + [PassOf(row)], rows + [row], |rows| + 1 - LAYERS, mode)
  {
    var longer := rows + [row];
    PartialGrows(pending, rows, row, mode);
    hide Partial, Next;
    forall m: nat | 0 < m < LAYERS
      ensures !Tail(longer, m, mode)
    {
      if Tail(longer, m, mode) {
        LastRow(pending, rows, row, m, mode);
        assert false;
      }
    }
    TailEnds(rows, row, mode);
  }

  // ---------- the windows after a completed one ----------

  /** The window in rows n..n+48 is added where the code puts it. */
  lemma JoinPlaces(all: Windows, at: seq<nat>, rows: seq<Row>, w: seq<Pass>, continues: bool, mode: Mode)
    returns (at': seq<nat>)
    requires Placed(all, at, rows, mode) && Ordered(all, at) && |rows| >= LAYERS
    requires IsAt(w, rows, |rows| - LAYERS, mode)
    requires at != [] ==> End(all, at, |at| - 1) + LAYERS <= |rows|
    requires continues ==> at != [] && End(all, at, |at| - 1) + LAYERS == |rows|
    ensures at' == if continues then at else at + [|rows| - LAYERS]
    ensures Placed(Joined(all, w, continues), at', rows, mode)
    ensures Ordered(Joined(all, w, continues), at')
    ensures Reaches(Joined(all, w, continues), at', 0, |rows|)
    ensures Starts(Joined(all, w, continues), at', |rows| - LAYERS)
    ensures forall b: nat :: Starts(all, at, b) ==> Starts(Joined(all, w, continues), at', b)
  {
    at' := if continues then at else at + [|rows| - LAYERS];
    JoinIsPlaced(all, at, rows, w, continues, mode);
    JoinIsOrdered(all, at, |rows|, w, continues);
    JoinStarts(all, at, |rows|, w, continues);
    hide Placed, Ordered, Starts;
  }

  lemma JoinIsPlaced(all: Windows, at: seq<nat>, rows: seq<Row>, w: seq<Pass>, continues: bool, mode: Mode)
    requires Placed(all, at, rows, mode) && |rows| >= LAYERS && IsAt(w, rows, |rows| - LAYERS, mode)
    requires continues ==> at != [] && End(all, at, |at| - 1) + LAYERS == |rows|
    ensures Placed(Joined(all, w, continues), if continues then at else at + [|rows| - LAYERS], rows, mode)
  {
    hide IsAt;
    var at' := if continues then at else at + [|rows| - LAYERS];
    var all' := Joined(all, w, continues);
    forall i, k | 0 <= i < |all'| && 0 <= k < |all'[i]|
      ensures IsAt(all'[i][k], rows, RowOf(at'[i], k), mode)
    {
      if i < |all| && k < |all[i]| {
        assert all'[i][k] == all[i][k];
      } else {
        assert RowOf(at'[i], k) == |rows| - LAYERS;
      }
    }
  }

  lemma JoinIsOrdered(all: Windows, at: seq<nat>, rows: nat, w: seq<Pass>, continues: bool)
    requires |at| == |all| && Ordered(all, at) && rows >= LAYERS
    requires at != [] ==> End(all, at, |at| - 1) + LAYERS <= rows
    requires continues ==> at != []
    ensures Ordered(Joined(all, w, continues), if continues then at else at + [rows - LAYERS])
  {
    var at' := if continues then at else at + [rows - LAYERS];
    var all' := Joined(all, w, continues);
    forall i, j | 0 <= i < j < |at'|
      ensures End(all', at', i) <= at'[j]
    {
      assert all'[i] == all[i];
      if i < |all| - 1 {
        assert End(all, at, i) <= at[|at| - 1];
      }
    }
  }

  lemma JoinStarts(all: Windows, at: seq<nat>, rows: nat, w: seq<Pass>, continues: bool)
    requires |at| == |all| && rows >= LAYERS
    requires continues ==> at != [] && End(all, at, |at| - 1) + LAYERS == rows
    ensures var all' := Joined(all, w, continues);
      var at' := if continues then at else at + [rows - LAYERS];
      && Reaches(all', at', 0, rows) && Starts(all', at', rows - LAYERS)
      && forall b: nat :: Starts(all, at, b) ==> Starts(all', at', b)
  {
    var at' := if continues then at else at + [rows - LAYERS];
    var all' := Joined(all, w, continues);
    var n := |all'| - 1;
    assert all'[n][|all'[n]| - 1] == w;
    forall b: nat | Starts(all, at, b)
      ensures Starts(all', at', b)
    {
      var i, k :| 0 <= i < |all| && 0 <= k < |all[i]| && RowOf(at[i], k) == b;
      assert all'[i][k] == all[i][k];
    }
  }

  // ---------- the log as a whole ----------

  /** What a row that the log keeps does to the pending passes. */
  lemma TakeShape(s: State, row: Row, mode: Mode)
    requires Take(s, row, mode.filter, mode.explicit).Ok? && |s.pending| < LAYERS
    ensures var s' := Take(s, row, mode.filter, mode.explicit).value;
      && row.Row?
      && (!Usable(row, mode.filter, mode.explicit) || (!Next(s.pending, PassOf(row)) && row.layer != 0) ==>
            s'.pending == [] && !s'.canContinue)
      && (Usable(row, mode.filter, mode.explicit) && !Next(s.pending, PassOf(row)) && row.layer == 0 ==>
            s'.pending == [PassOf(row)] && !s'.canContinue)
      && (Usable(row, mode.filter, mode.explicit) && Next(s.pending, PassOf(row)) ==>
            if |s.pending| < LAYERS - 1 then s'.pending == s.pending + [PassOf(row)] && s'.canContinue == s.canContinue
            else s'.pending == [] && s'.canContinue)
  {
    TakenIsUsable(s, row, mode.filter, mode.explicit);
    if Usable(row, mode.filter, mode.explicit) {
      TakeIs(s, row, mode.filter, mode.explicit);
      PassLayer(row);
      hide *;
      UsableShape(s, row, PassOf(row), mode);
    } else {
      hide ValidRow, PassOf, SameWindow;
    }
  }

  /** The three cases of a row with a usable pass. */
  lemma UsableShape(s: State, row: Row, pass: Pass, mode: Mode)
    requires row.Row? && |s.pending| < LAYERS
    ensures var ready := Ready(s, row, pass);
      var grown := ready.(pending := ready.pending + [pass]);
      && (Next(s.pending, pass) <==> ready.pending == s.pending && !(ready.pending == [] && pass.layer != 0))
      && (!Next(s.pending, pass) ==> ready.pending == [])
      && (Next(s.pending, pass) ==> ready.canContinue == s.canContinue)
      && (!Next(s.pending, pass) && pass.layer == 0 ==> !ready.canContinue)
      && (|grown.pending| == LAYERS ==>
            Close(grown, mode.explicit).pending == [] && Close(grown, mode.explicit).canContinue)
  {
    hide Continues, Extended, SameWindow;
  }

  lemma AllUnchanged(s: State, all: Windows, row: Row, mode: Mode)
    requires row.Row? && |s.pending| < LAYERS
    requires !Usable(row, mode.filter, mode.explicit) || !Next(s.pending, PassOf(row)) || |s.pending| < LAYERS - 1
    ensures AllAfter(s, all, row, mode.filter, mode.explicit) == all
  {
  }

  lemma AllGrows(s: State, all: Windows, row: Row, mode: Mode)
    requires Usable(row, mode.filter, mode.explicit) && |s.pending| == LAYERS - 1 && Next(s.pending, PassOf(row))
    ensures var w := s.pending + [PassOf(row)];
      AllAfter(s, all, row, mode.filter, mode.explicit) == Joined(all, w, Continues(s, w[0], mode.explicit))
  {
  }

  /** The window continues the last window of the last segment. */
  ghost predicate Follows(all: Windows, first: Pass, explicit: bool) {
    && all != [] && all[|all| - 1] != [] && all[|all| - 1][|all[|all| - 1]| - 1] != []
    && Joins(all[|all| - 1][|all[|all| - 1]| - 1][0], first, explicit)
  }

  /** The code's test for continuing a segment looks at the segment's last window. */
  lemma ContinuesIff(s: State, all: Windows, rows: nat, first: Pass, explicit: bool)
    requires Inv(s, all, rows, explicit)
    ensures Continues(s, first, explicit) <==> s.canContinue && Follows(all, first, explicit)
    ensures s.canContinue ==> all != [] && all[|all| - 1] != []
  {
    hide InOrder, Partitioned;
    if s.segments != [] {
      assert Faithful(s.segments[|all| - 1], all[|all| - 1], explicit);
    }
  }

  lemma MaximalGrows(all: Windows, at: seq<nat>, at': seq<nat>, n: nat, w: seq<Pass>, continues: bool, explicit: bool)
    requires |at| == |all| && Maximal(all, at, explicit) && w != []
    requires at' == if continues then at else at + [n]
    requires continues ==> at != [] && all[|all| - 1] != []
    requires at != [] && End(all, at, |at| - 1) == n && Follows(all, w[0], explicit) ==> continues
    ensures Maximal(Joined(all, w, continues), at', explicit)
  {
    hide Joins;
    var all' := Joined(all, w, continues);
    forall i: nat | i + 1 < |at'|
      ensures ColdAt(all', at', i, explicit)
    {
      assert all'[i] == all[i];
      if i + 1 < |at| {
        assert ColdAt(all, at, i, explicit);
      }
    }
  }

  lemma CompleteGrows(all: Windows, at: seq<nat>, all': Windows, at': seq<nat>, rows: seq<Row>, row: Row, mode: Mode)
    requires |at| == |all| && |at'| == |all'| && Complete(all, at, rows, mode) && |rows| + 1 >= LAYERS
    requires Starts(all', at', |rows| + 1 - LAYERS) && forall b: nat :: Starts(all, at, b) ==> Starts(all', at', b)
    ensures Complete(all', at', rows + [row], mode)
  {
    hide Starts, IsBlock;
    forall b: nat | IsBlock(rows + [row], b, mode)
      ensures Starts(all', at', b)
    {
      BlockExtends(rows, row, b, mode);
    }
  }

  lemma WindowsGrow(pending: seq<Pass>, all: Windows, at: seq<nat>, rows: seq<Row>, row: Row, continues: bool,
                    mode: Mode)
    returns (at': seq<nat>)
    requires Placed(all, at, rows, mode) && Ordered(all, at) && Complete(all, at, rows, mode)
    requires Maximal(all, at, mode.explicit) && Held(pending, rows, mode) && |pending| == LAYERS - 1
    requires Usable(row, mode.filter, mode.explicit) && Next(pending, PassOf(row))
    requires at != [] ==> End(all, at, |at| - 1) + |pending| <= |rows|
    requires continues <==>
      Reaches(all, at, |pending|, |rows|) && Follows(all, (pending + [PassOf(row)])[0], mode.explicit)
    ensures var all' := Joined(all, pending + [PassOf(row)], continues);
      var longer := rows + [row];
      && Placed(all', at', longer, mode) && Ordered(all', at') && Complete(all', at', longer, mode)
      && Maximal(all', at', mode.explicit) && Reaches(all', at', 0, |longer|)
  {
    var longer := rows + [row];
    var w := pending + [PassOf(row)];
    assert continues ==> all[|all| - 1] != [];
    hide Held, PassOf, Usable, Next, Joined, Placed, Ordered, Maximal, Complete, IsAt, Starts, Follows;
    PlacedExtends(all, at, rows, row, mode);
    HeldAfterClose(pending, rows, row, mode);
    at' := JoinPlaces(all, at, longer, w, continues, mode);
    MaximalGrows(all, at, at', |longer| - LAYERS, w, continues, mode.explicit);
    CompleteGrows(all, at, Joined(all, w, continues), at', rows, row, mode);
  }

  lemma LocatedClose(s: State, all: Windows, at: seq<nat>, rows: seq<Row>, row: Row, mode: Mode) returns (at': seq<nat>)
    requires Inv(s, all, |rows|, mode.explicit) && Located(s, all, at, rows, mode)
    requires Take(s, row, mode.filter, mode.explicit).Ok?
    requires Usable(row, mode.filter, mode.explicit) && |s.pending| == LAYERS - 1 && Next(s.pending, PassOf(row))
    ensures Located(Take(s, row, mode.filter, mode.explicit).value, AllAfter(s, all, row, mode.filter, mode.explicit),
                    at', rows + [row], mode)
  {
    TakeShape(s, row, mode);
    AllGrows(s, all, row, mode);
    var w := s.pending + [PassOf(row)];
    ContinuesIff(s, all, |rows|, w[0], mode.explicit);
    HeldAfterClose(s.pending, rows, row, mode);
    hide Take, AllAfter, Held, PassOf, Usable, Next, Joined, Inv, Placed, Ordered, Maximal, Complete, IsAt,
      Continues, Follows;
    at' := WindowsGrow(s.pending, all, at, rows, row, Continues(s, w[0], mode.explicit), mode);
  }

  lemma BlockExtends(rows: seq<Row>, row: Row, b: nat, mode: Mode)
    requires IsBlock(rows + [row], b, mode)
    ensures b == |rows| + 1 - LAYERS || IsBlock(rows, b, mode)
  {
    PartialWithin(rows + [row], b, LAYERS, mode);
    PartialExtends(rows, row, b, LAYERS, mode);
  }

  /** Each row keeps every segment a maximal block of complete windows, with none left out. */
  lemma LocatedStep(s: State, all: Windows, at: seq<nat>, rows: seq<Row>, row: Row, mode: Mode) returns (at': seq<nat>)
    requires Inv(s, all, |rows|, mode.explicit) && Located(s, all, at, rows, mode)
    requires Take(s, row, mode.filter, mode.explicit).Ok?
    ensures Located(Take(s, row, mode.filter, mode.explicit).value, AllAfter(s, all, row, mode.filter, mode.explicit),
                    at', rows + [row], mode)
  {
    hide Take, AllAfter, PassOf, Next, Inv, Placed, Ordered, Complete, Maximal, Reaches;
    if Usable(row, mode.filter, mode.explicit) && |s.pending| == LAYERS - 1 && Next(s.pending, PassOf(row)) {
      at' := LocatedClose(s, all, at, rows, row, mode);
    } else {
      at' := at;
      LocatedStays(s, all, at, rows, row, mode);
    }
  }

  lemma LocatedStays(s: State, all: Windows, at: seq<nat>, rows: seq<Row>, row: Row, mode: Mode)
    requires Inv(s, all, |rows|, mode.explicit) && Located(s, all, at, rows, mode)
    requires Take(s, row, mode.filter, mode.explicit).Ok?
    requires !Usable(row, mode.filter, mode.explicit) || !Next(s.pending, PassOf(row)) || |s.pending| < LAYERS - 1
    ensures Located(Take(s, row, mode.filter, mode.explicit).value, AllAfter(s, all, row, mode.filter, mode.explicit),
                    at, rows + [row], mode)
  {
    TakeShape(s, row, mode);
    AllUnchanged(s, all, row, mode);
    hide Take, AllAfter, Held, PassOf, Next, Usable, Inv, Placed, Ordered, Complete, Maximal;
    PlacedExtends(all, at, rows, row, mode);
    if !Usable(row, mode.filter, mode.explicit) {
      HeldAfterMiss(s.pending, rows, row, mode);
    } else if Next(s.pending, PassOf(row)) {
      HeldAfterGrowth(s.pending, rows, row, mode);
    } else if row.layer == 0 {
      HeldAfterRestart(s.pending, rows, row, mode);
    } else {
      HeldAfterMiss(s.pending, rows, row, mode);
    }
    CompleteExtends(all, at, rows, row, mode);
  }
}
