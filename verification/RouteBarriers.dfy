/** Why segments end: the barriers and unfinished windows of a log, told by its rows. */
module RouteBarriers {
  import opened Common
  import opened RouteSegments
  import opened RouteBlocks
  import opened RouteSegmenter
  import opened RouteAccesses

  // ---------- what the rows tell ----------

  ghost predicate IsTail(rows: seq<Row>, n: nat, m: nat, mode: Mode)
    requires n <= |rows|
  {
    Tail(rows[..n], m, mode)
  }

  /** The last of the first `n` rows leave a window unfinished. */
  ghost predicate Unfinished(rows: seq<Row>, n: nat, mode: Mode)
    requires n <= |rows|
  {
    exists m: nat {:trigger IsTail(rows, n, m, mode)} :: 0 < m < LAYERS && IsTail(rows, n, m, mode)
  }

  /** Row `n` is the next of the unfinished window. */
  ghost predicate Resumes(rows: seq<Row>, n: nat, mode: Mode)
    requires n < |rows|
  {
    exists m: nat {:trigger IsTail(rows, n, m, mode)} ::
      0 < m < LAYERS && IsTail(rows, n, m, mode) && IsTail(rows, n + 1, m + 1, mode)
  }

  /** A window may follow another in one segment: it starts where that ended, in the same session (and phase). */
  ghost predicate Connected(a: Row, b: Row, explicit: bool) {
    a.Row? && b.Row? && a.offset + a.tokens == b.offset && (explicit || a.phase == b.phase) && a.session == b.session
  }

  /** Row `n` completes a window right after another that it does not connect to. */
  ghost predicate Disconnects(rows: seq<Row>, n: nat, mode: Mode)
    requires n < |rows|
  {
    && n + 1 >= 2 * LAYERS
    && FormWindow(rows, n + 1 - 2 * LAYERS, mode) && FormWindow(rows, n + 1 - LAYERS, mode)
    && !Connected(rows[n + 1 - 2 * LAYERS], rows[n + 1 - LAYERS], mode.explicit)
  }

  ghost function BarriersAt(rows: seq<Row>, n: nat, mode: Mode): seq<string>
    requires n < |rows|
  {
    match KindOf(rows[n], mode)
    case Boundary => if rows[n].Row? && rows[n].boundary.Some? then [rows[n].boundary.value] else []
    case Filtered => ["phase_filter"]
    case Missing => ["missing_routes"]
    case Routed =>
      if Unfinished(rows, n, mode) && !Resumes(rows, n, mode) then ["incomplete_or_discontinuous_window"]
      else if Disconnects(rows, n, mode) then ["position_phase_or_session_boundary"]
      else []
  }

  ghost function BarriersTold(rows: seq<Row>, n: nat, mode: Mode): seq<string>
    requires n <= |rows|
  {
    if n == 0 then [] else BarriersTold(rows, n - 1, mode) + BarriersAt(rows, n - 1, mode)
  }

  /** A row that is none of the unfinished window leaves it incomplete. */
  ghost predicate Breaks(rows: seq<Row>, n: nat, mode: Mode)
    requires n < |rows|
  {
    Unfinished(rows, n, mode) && (KindOf(rows[n], mode) == Routed ==> !Resumes(rows, n, mode))
  }

  ghost function BrokenTold(rows: seq<Row>, n: nat, mode: Mode): nat
    requires n <= |rows|
  {
    if n == 0 then 0 else BrokenTold(rows, n - 1, mode) + if Breaks(rows, n - 1, mode) then 1 else 0
  }

  // ---------- the state follows ----------

  ghost predicate Barred(s: State, rows: seq<Row>, mode: Mode) {
    s.barriers == BarriersTold(rows, |rows|, mode) && s.incomplete == BrokenTold(rows, |rows|, mode)
  }

  lemma HeldIsUnfinished(pending: seq<Pass>, rows: seq<Row>, row: Row, mode: Mode)
    requires Held(pending, rows, mode)
    ensures pending != [] <==> Unfinished(rows + [row], |rows|, mode)
  {
    assert (rows + [row])[..|rows|] == rows;
    if pending != [] {
      assert IsTail(rows + [row], |rows|, |pending|, mode);
    }
    if Unfinished(rows + [row], |rows|, mode) {
      var m: nat :| 0 < m < LAYERS && IsTail(rows + [row], |rows|, m, mode);
      assert Tail(rows, m, mode);
    }
    hide Partial;
  }

  /** A usable row takes the next place of the unfinished window exactly when the rows say so. */
  lemma NextIsResuming(pending: seq<Pass>, rows: seq<Row>, row: Row, mode: Mode)
    requires Held(pending, rows, mode) && pending != [] && Usable(row, mode.filter, mode.explicit)
    ensures Next(pending, PassOf(row)) <==> Resumes(rows + [row], |rows|, mode)
  {
    var longer := rows + [row];
    assert longer[..|rows|] == rows && longer[..|rows| + 1] == longer;
    if Next(pending, PassOf(row)) {
      PartialGrows(pending, rows, row, mode);
      assert IsTail(longer, |rows|, |pending|, mode) && IsTail(longer, |rows| + 1, |pending| + 1, mode);
    }
    if Resumes(longer, |rows|, mode) {
      var m: nat :| 0 < m < LAYERS && IsTail(longer, |rows|, m, mode) && IsTail(longer, |rows| + 1, m + 1, mode);
      LastRow(pending, rows, row, m + 1, mode);
    }
    hide Partial;
  }

  lemma ConnectedIffJoins(a: Row, b: Row, mode: Mode)
    requires Usable(a, mode.filter, mode.explicit) && Usable(b, mode.filter, mode.explicit)
    ensures Connected(a, b, mode.explicit) <==> Joins(PassOf(a), PassOf(b), mode.explicit)
  {
    PassAsks(a);
    PassAsks(b);
    hide PassOf, Asks;
  }

  lemma EarlierWindowEnds(all: Windows, at: seq<nat>, i: nat, k: nat)
    requires |at| == |all| && Ordered(all, at) && i < |all| && k < |all[i]|
    ensures RowOf(at[i], k + 1) <= End(all, at, |at| - 1)
  {
    if i < |at| - 1 {
      assert End(all, at, i) <= at[|at| - 1];
    }
  }

  /** The last segment reaches the window being completed exactly when the 48 rows before it form a window. */
  lemma ReachesIff(all: Windows, at: seq<nat>, rows: seq<Row>, mode: Mode, m: nat)
    requires Placed(all, at, rows, mode) && Ordered(all, at) && Complete(all, at, rows, mode) && m <= |rows|
    requires at != [] ==> End(all, at, |at| - 1) + m <= |rows|
    ensures Reaches(all, at, m, |rows|) <==>
      |rows| >= m + LAYERS && IsBlock(rows, |rows| - m - LAYERS, mode)
    ensures Reaches(all, at, m, |rows|) ==>
      all[|all| - 1] != [] && IsAt(all[|all| - 1][|all[|all| - 1]| - 1], rows, |rows| - m - LAYERS, mode)
  {
    hide IsBlock, Joins;
    if Reaches(all, at, m, |rows|) {
      var n := |all| - 1;
      var k := |all[n]| - 1;
      assert IsAt(all[n][k], rows, RowOf(at[n], k), mode);
    }
    if |rows| >= m + LAYERS && IsBlock(rows, |rows| - m - LAYERS, mode) {
      assert Starts(all, at, |rows| - m - LAYERS);
      var i: nat, k: nat :| 0 <= i < |all| && 0 <= k < |all[i]| && RowOf(at[i], k) == |rows| - m - LAYERS;
      EarlierWindowEnds(all, at, i, k);
      assert RowOf(at[i], k + 1) == RowOf(at[i], k) + LAYERS;
    }
  }

  // ---------- one more row ----------

  /** What a row that places no pass does to the barriers and to the count of unfinished windows. */
  lemma DropBars(s: State, row: Row, mode: Mode)
    requires Take(s, row, mode.filter, mode.explicit).Ok? && KindOf(row, mode) != Routed
    ensures row.Row? && !Usable(row, mode.filter, mode.explicit)
    ensures var s' := Take(s, row, mode.filter, mode.explicit).value;
      var kind := KindOf(row, mode);
      && s'.incomplete == s.incomplete + (if s.pending != [] then 1 else 0)
      && (kind == Boundary ==> row.boundary.Some?)
      && s'.barriers == s.barriers + [if kind == Boundary then row.boundary.value
                                      else if kind == Filtered then "phase_filter" else "missing_routes"]
  {
    hide ValidRow, PassOf, SameWindow;
  }

  lemma TakeIsHold(s: State, row: Row, mode: Mode)
    requires Take(s, row, mode.filter, mode.explicit).Ok? && KindOf(row, mode) == Routed
    ensures Usable(row, mode.filter, mode.explicit)
    ensures Take(s, row, mode.filter, mode.explicit) == Hold(Ready(s, row, PassOf(row)), PassOf(row), mode.explicit)
  {
    TakenIsUsable(s, row, mode.filter, mode.explicit);
    hide PassOf, Ready, Hold, ValidRow;
  }

  /** What a pass does to the barriers and the count. */
  lemma HoldBars(s: State, row: Row, pass: Pass, explicit: bool)
    requires row.Row? && |s.pending| < LAYERS && Hold(Ready(s, row, pass), pass, explicit).Ok?
    ensures var s' := Hold(Ready(s, row, pass), pass, explicit).value;
      var unfinished := s.pending != [] && !Next(s.pending, pass);
      && s'.incomplete == s.incomplete + (if unfinished then 1 else 0)
      && s'.barriers == s.barriers +
           if unfinished then ["incomplete_or_discontinuous_window"]
           else if |s.pending| == LAYERS - 1 && s.segments != [] && s.canContinue
                   && !Continues(s, (s.pending + [pass])[0], explicit)
           then ["position_phase_or_session_boundary"] else []
  {
    hide Ready, Close, Next, Continues, Demands;
    ReadyBars(s, row, pass, explicit);
    assert s.barriers + [] == s.barriers;
  }

  /** What a row with a pass does to them. */
  lemma PassBars(s: State, row: Row, mode: Mode)
    requires Take(s, row, mode.filter, mode.explicit).Ok? && |s.pending| < LAYERS && KindOf(row, mode) == Routed
    ensures Usable(row, mode.filter, mode.explicit)
    ensures var s' := Take(s, row, mode.filter, mode.explicit).value;
      var unfinished := s.pending != [] && !Next(s.pending, PassOf(row));
      && s'.incomplete == s.incomplete + (if unfinished then 1 else 0)
      && s'.barriers == s.barriers +
           if unfinished then ["incomplete_or_discontinuous_window"]
           else if |s.pending| == LAYERS - 1 && s.segments != [] && s.canContinue
                   && !Continues(s, (s.pending + [PassOf(row)])[0], mode.explicit)
           then ["position_phase_or_session_boundary"] else []
  {
    TakeIsHold(s, row, mode);
    UsableIsRow(row, mode);
    hide *;
    HoldBars(s, row, PassOf(row), mode.explicit);
  }

  lemma UsableIsRow(row: Row, mode: Mode)
    requires Usable(row, mode.filter, mode.explicit)
    ensures row.Row? && row.routes.Some? && row.layer >= 0 && row.offset >= 0 && row.tokens >= 0
  {
  }

  lemma ReadyBars(s: State, row: Row, pass: Pass, explicit: bool)
    requires row.Row? && |s.pending| < LAYERS
    ensures var ready := Ready(s, row, pass);
      var grown := ready.(pending := ready.pending + [pass]);
      var closed := Close(grown, explicit);
      && ready.incomplete == closed.incomplete
         == s.incomplete + (if s.pending != [] && !Next(s.pending, pass) then 1 else 0)
      && ready.barriers == s.barriers + (if s.pending != [] && !Next(s.pending, pass)
                                         then ["incomplete_or_discontinuous_window"] else [])
      && (s.pending != [] && !Next(s.pending, pass) ==> ready.pending == [])
      && (s.pending == [] || Next(s.pending, pass) ==>
            && ready.pending == s.pending
            && closed.barriers == s.barriers +
                 if s.segments != [] && s.canContinue && !Continues(s, (s.pending + [pass])[0], explicit)
                 then ["position_phase_or_session_boundary"] else [])
  {
    hide Extended, SameWindow;
  }

  lemma BlockWithin(rows: seq<Row>, row: Row, b: nat, mode: Mode)
    requires b + LAYERS <= |rows|
    ensures IsBlock(rows + [row], b, mode) <==> IsBlock(rows, b, mode)
  {
    PartialExtends(rows, row, b, LAYERS, mode);
    hide Partial;
  }

  /** A window ends with the row exactly when the row is the 48th of the unfinished one. */
  lemma CompletesIff(pending: seq<Pass>, rows: seq<Row>, row: Row, mode: Mode)
    requires Held(pending, rows, mode) && Usable(row, mode.filter, mode.explicit)
    ensures |rows| + 1 >= LAYERS && IsBlock(rows + [row], |rows| + 1 - LAYERS, mode)
       <==> |pending| == LAYERS - 1 && Next(pending, PassOf(row))
  {
    if |pending| == LAYERS - 1 && Next(pending, PassOf(row)) {
      PartialGrows(pending, rows, row, mode);
    }
    if |rows| + 1 >= LAYERS && IsBlock(rows + [row], |rows| + 1 - LAYERS, mode) {
      assert Tail(rows + [row], LAYERS, mode);
      LastRow(pending, rows, row, LAYERS, mode);
    }
    hide Partial, Next, Passes;
  }

  /** Where the last window of the last segment and the one being completed begin. */
  lemma FollowsIff(all: Windows, first: Pass, a: Row, b: Row, mode: Mode)
    requires all != [] && all[|all| - 1] != [] && all[|all| - 1][|all[|all| - 1]| - 1] != []
    requires Usable(a, mode.filter, mode.explicit) && Usable(b, mode.filter, mode.explicit)
    requires all[|all| - 1][|all[|all| - 1]| - 1][0] == PassOf(a) && first == PassOf(b)
    ensures Follows(all, first, mode.explicit) <==> Connected(a, b, mode.explicit)
  {
    ConnectedIffJoins(a, b, mode);
    hide Joins, PassOf, Connected;
  }

  lemma FirstOfBlock(w: seq<Pass>, rows: seq<Row>, b: nat, mode: Mode)
    requires IsAt(w, rows, b, mode)
    ensures b < |rows| && w != [] && Usable(rows[b], mode.filter, mode.explicit) && w[0] == PassOf(rows[b])
  {
    assert Fits(rows[b], rows[b], 0, mode);
  }

  lemma FirstOfHeld(pending: seq<Pass>, rows: seq<Row>, mode: Mode)
    requires Held(pending, rows, mode) && pending != []
    ensures var b := |rows| - |pending|;
      Usable(rows[b], mode.filter, mode.explicit) && pending[0] == PassOf(rows[b])
  {
    var b := |rows| - |pending|;
    assert Fits(rows[b], rows[b], 0, mode);
  }

  lemma ReachedFollows(all: Windows, at: seq<nat>, rows: seq<Row>, pending: seq<Pass>, mode: Mode)
    requires Placed(all, at, rows, mode) && Ordered(all, at) && Complete(all, at, rows, mode)
    requires Held(pending, rows, mode) && |pending| == LAYERS - 1
    requires at != [] ==> End(all, at, |at| - 1) + |pending| <= |rows|
    requires Reaches(all, at, |pending|, |rows|)
    ensures |rows| + 1 >= 2 * LAYERS
    ensures Follows(all, pending[0], mode.explicit)
       <==> Connected(rows[|rows| + 1 - 2 * LAYERS], rows[|rows| + 1 - LAYERS], mode.explicit)
  {
    FirstOfHeld(pending, rows, mode);
    hide Held, Follows, Connected, Placed, Ordered, Complete, IsBlock, IsAt, Usable, PassOf, RowOf;
    ReachesIff(all, at, rows, mode, |pending|);
    var last := all[|all| - 1][|all[|all| - 1]| - 1];
    FirstOfBlock(last, rows, |rows| + 1 - 2 * LAYERS, mode);
    FollowsIff(all, pending[0], rows[|rows| + 1 - 2 * LAYERS], rows[|rows| + 1 - LAYERS], mode);
  }

  /** The 48th row of a window is a barrier when the window before it ends here and does not connect. */
  lemma CompletionBars(s: State, all: Windows, at: seq<nat>, rows: seq<Row>, mode: Mode)
    requires Inv(s, all, |rows|, mode.explicit) && Located(s, all, at, rows, mode) && |s.pending| == LAYERS - 1
    ensures |rows| + 1 >= LAYERS
    ensures s.segments != [] && s.canContinue && !Continues(s, s.pending[0], mode.explicit)
       <==>
         && |rows| + 1 >= 2 * LAYERS && IsBlock(rows, |rows| + 1 - 2 * LAYERS, mode)
         && !Connected(rows[|rows| + 1 - 2 * LAYERS], rows[|rows| + 1 - LAYERS], mode.explicit)
  {
    hide Inv, Located, Held, Continues, Follows, Connected, Placed, Ordered, Complete, IsBlock, Reaches, RowOf;
    ContinuesIff(s, all, |rows|, s.pending[0], mode.explicit);
    InvSegments(s, all, |rows|, mode.explicit);
    LocatedParts(s, all, at, rows, mode);
    HeldFits(s.pending, rows, mode);
    ReachesIff(all, at, rows, mode, |s.pending|);
    if s.canContinue {
      ReachedFollows(all, at, rows, s.pending, mode);
    }
    assert |rows| - |s.pending| - LAYERS == |rows| + 1 - 2 * LAYERS;
  }

  lemma LocatedParts(s: State, all: Windows, at: seq<nat>, rows: seq<Row>, mode: Mode)
    requires Located(s, all, at, rows, mode)
    ensures Placed(all, at, rows, mode) && Ordered(all, at) && Complete(all, at, rows, mode)
    ensures Held(s.pending, rows, mode)
    ensures at != [] ==> End(all, at, |at| - 1) + |s.pending| <= |rows|
    ensures s.canContinue <==> Reaches(all, at, |s.pending|, |rows|)
  {
    hide Placed, Ordered, Complete, Held, Reaches, Maximal, RowOf;
  }

  lemma HeldFits(pending: seq<Pass>, rows: seq<Row>, mode: Mode)
    requires Held(pending, rows, mode)
    ensures |pending| <= |rows|
  {
  }

  lemma InvSegments(s: State, all: Windows, rows: nat, explicit: bool)
    requires Inv(s, all, rows, explicit)
    ensures |all| == |s.segments|
  {
  }

  lemma DisconnectsIff(s: State, all: Windows, at: seq<nat>, rows: seq<Row>, row: Row, mode: Mode)
    requires Inv(s, all, |rows|, mode.explicit) && Located(s, all, at, rows, mode)
    requires Usable(row, mode.filter, mode.explicit)
    ensures Disconnects(rows + [row], |rows|, mode) <==>
      && |s.pending| == LAYERS - 1 && Next(s.pending, PassOf(row))
      && s.segments != [] && s.canContinue && !Continues(s, s.pending[0], mode.explicit)
  {
    LocatedParts(s, all, at, rows, mode);
    hide *;
    CompletesIff(s.pending, rows, row, mode);
    if |s.pending| == LAYERS - 1 {
      CompletionBars(s, all, at, rows, mode);
    }
    WindowsEndThere(rows, row, mode);
  }

  /** A disconnected row, in terms of the blocks of rows before and at it. */
  lemma WindowsEndThere(rows: seq<Row>, row: Row, mode: Mode)
    ensures Disconnects(rows + [row], |rows|, mode) <==>
      && |rows| + 1 >= 2 * LAYERS && IsBlock(rows, |rows| + 1 - 2 * LAYERS, mode)
      && IsBlock(rows + [row], |rows| + 1 - LAYERS, mode)
      && !Connected(rows[|rows| + 1 - 2 * LAYERS], rows[|rows| + 1 - LAYERS], mode.explicit)
  {
    var n := |rows|;
    hide FormWindow, IsBlock, Connected;
    if n + 1 >= 2 * LAYERS {
      FormWindowIff(rows + [row], n + 1 - LAYERS, mode);
      FormWindowIff(rows + [row], n + 1 - 2 * LAYERS, mode);
      BlockWithin(rows, row, n + 1 - 2 * LAYERS, mode);
    }
  }

  /** A row with a pass, once what the rows tell is known: whether a window is unfinished, resumed or disconnected. */
  lemma PassTells(s: State, all: Windows, at: seq<nat>, rows: seq<Row>, row: Row, mode: Mode)
    requires Inv(s, all, |rows|, mode.explicit) && Located(s, all, at, rows, mode)
    requires Usable(row, mode.filter, mode.explicit)
    ensures var longer := rows + [row];
      && (s.pending != [] <==> Unfinished(longer, |rows|, mode))
      && (s.pending != [] ==> (Next(s.pending, PassOf(row)) <==> Resumes(longer, |rows|, mode)))
      && (Disconnects(longer, |rows|, mode) <==>
            && |s.pending| == LAYERS - 1 && Next(s.pending, PassOf(row))
            && s.segments != [] && s.canContinue && !Continues(s, s.pending[0], mode.explicit))
  {
    LocatedParts(s, all, at, rows, mode);
    hide *;
    HeldIsUnfinished(s.pending, rows, row, mode);
    if s.pending != [] {
      NextIsResuming(s.pending, rows, row, mode);
    }
    DisconnectsIff(s, all, at, rows, row, mode);
  }

  lemma BoundsOf(s: State, all: Windows, rows: nat, explicit: bool)
    requires Inv(s, all, rows, explicit)
    ensures |s.pending| < LAYERS
  {
  }

  /** The barriers and the unfinished windows a row adds are those the rows tell. */
  lemma RowBars(s: State, all: Windows, at: seq<nat>, rows: seq<Row>, row: Row, mode: Mode)
    requires Inv(s, all, |rows|, mode.explicit) && Located(s, all, at, rows, mode)
    requires Take(s, row, mode.filter, mode.explicit).Ok?
    ensures var s', longer := Take(s, row, mode.filter, mode.explicit).value, rows + [row];
      && s'.barriers == s.barriers + BarriersAt(longer, |rows|, mode)
      && s'.incomplete == s.incomplete + if Breaks(longer, |rows|, mode) then 1 else 0
  {
    BoundsOf(s, all, |rows|, mode.explicit);
    LocatedParts(s, all, at, rows, mode);
    assert (rows + [row])[|rows|] == row;
    hide Inv, Located, Held, Take, PassOf, Usable, Next, Continues, Placed, Ordered, Complete, Reaches, Unfinished,
      Resumes, Disconnects;
    if KindOf(row, mode) == Routed {
      PassBars(s, row, mode);
      PassTells(s, all, at, rows, row, mode);
    } else {
      DropBars(s, row, mode);
      HeldIsUnfinished(s.pending, rows, row, mode);
    }
  }

  // ---------- whole logs ----------

  lemma WindowWithin(rows: seq<Row>, row: Row, b: nat, mode: Mode)
    requires b + LAYERS <= |rows|
    ensures FormWindow(rows + [row], b, mode) <==> FormWindow(rows, b, mode)
  {
    FormWindowIff(rows, b, mode);
    FormWindowIff(rows + [row], b, mode);
    BlockWithin(rows, row, b, mode);
    hide FormWindow, IsBlock;
  }

  lemma SameTails(rows: seq<Row>, row: Row, n: nat, mode: Mode)
    requires n <= |rows|
    ensures (rows + [row])[..n] == rows[..n]
    ensures Unfinished(rows + [row], n, mode) <==> Unfinished(rows, n, mode)
    ensures n < |rows| ==> (Resumes(rows + [row], n, mode) <==> Resumes(rows, n, mode))
  {
    var longer := rows + [row];
    assert longer[..n] == rows[..n];
    assert forall m: nat {:trigger IsTail(longer, n, m, mode)} ::
        IsTail(longer, n, m, mode) == IsTail(rows, n, m, mode);
    assert forall m: nat {:trigger IsTail(rows, n, m, mode)} ::
        IsTail(longer, n, m, mode) == IsTail(rows, n, m, mode);
    if n < |rows| {
      assert longer[..n + 1] == rows[..n + 1];
      assert forall m: nat {:trigger IsTail(longer, n + 1, m, mode)} ::
          IsTail(longer, n + 1, m, mode) == IsTail(rows, n + 1, m, mode);
    }
    hide Tail;
  }

  lemma SameBarriersAt(rows: seq<Row>, row: Row, n: nat, mode: Mode)
    requires n < |rows|
    ensures BarriersAt(rows + [row], n, mode) == BarriersAt(rows, n, mode)
    ensures Breaks(rows + [row], n, mode) <==> Breaks(rows, n, mode)
  {
    hide Unfinished, Resumes, FormWindow, Connected, KindOf;
    SameTails(rows, row, n, mode);
    assert (rows + [row])[n] == rows[n];
    if n + 1 >= 2 * LAYERS {
      WindowWithin(rows, row, n + 1 - LAYERS, mode);
      WindowWithin(rows, row, n + 1 - 2 * LAYERS, mode);
      assert (rows + [row])[n + 1 - 2 * LAYERS] == rows[n + 1 - 2 * LAYERS];
      assert (rows + [row])[n + 1 - LAYERS] == rows[n + 1 - LAYERS];
    }
  }

  lemma {:induction false} SameBarriers(rows: seq<Row>, row: Row, n: nat, mode: Mode)
    requires n <= |rows|
    ensures BarriersTold(rows + [row], n, mode) == BarriersTold(rows, n, mode)
    ensures BrokenTold(rows + [row], n, mode) == BrokenTold(rows, n, mode)
  {
    hide BarriersAt, Breaks;
    if n > 0 {
      SameBarriers(rows, row, n - 1, mode);
      SameBarriersAt(rows, row, n - 1, mode);
    }
  }

  lemma {:induction false} RunIsBarred(rows: seq<Row>, mode: Mode)
    requires Run(rows, mode).Ok?
    ensures Barred(Run(rows, mode).value, rows, mode)
  {
    hide Take, BarriersAt, Breaks, Inv, Located;
    if rows != [] {
      var front, row := rows[..|rows| - 1], rows[|rows| - 1];
      RunIsBarred(front, mode);
      var all, at := RunIsLocated(front, mode);
      RowBars(Run(front, mode).value, all, at, front, row, mode);
      SameBarriers(front, row, |front|, mode);
      assert front + [row] == rows;
    }
  }

  /**
   * The barriers of a log, in order, each with its reason, and the number of windows left unfinished, are those its
   * rows tell.
   */
  lemma BarriersAreTold(rows: seq<Row>, mode: Mode)
    requires Run(rows, mode).Ok?
    ensures var s := Finish(Run(rows, mode).value);
      var unfinished := Unfinished(rows, |rows|, mode);
      && s.barriers == BarriersTold(rows, |rows|, mode) + (if unfinished then ["incomplete_final_window"] else [])
      && s.incomplete == BrokenTold(rows, |rows|, mode) + (if unfinished then 1 else 0)
  {
    RunIsBarred(rows, mode);
    var all, at := RunIsLocated(rows, mode);
    var s := Run(rows, mode).value;
    LocatedParts(s, all, at, rows, mode);
    hide Run, Inv, Located, Held, Placed, Ordered, Complete, Reaches, BarriersTold, BrokenTold, OneIdentity;
    HeldIsUnfinished(s.pending, rows, NotAnObject, mode);
    SameTails(rows, NotAnObject, |rows|, mode);
    hide Unfinished;
    assert s.barriers + [] == s.barriers;
  }
}
