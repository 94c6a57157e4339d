/** What each segment of a log demands, row by row: the accesses are the rows' own experts, in file order. */
module RouteAccesses {
  import opened Common
  import opened RouteSegments
  import opened RouteBlocks
  import opened RouteSegmenter
  import C = Counts

  // ---------- one row ----------

  ghost predicate HasRoutes(row: Row) {
    row.Row? && row.routes.Some?
  }

  /** The records a row demands: one for each expert its tokens select, ascending. */
  ghost predicate Asks(row: Row, keys: seq<int>)
    requires HasRoutes(row)
  {
    Increasing(keys) && forall x :: x in keys <==> x - row.layer * EXPERTS in row.routes.value
  }

  lemma ScaledIncreasing(experts: seq<int>, keys: seq<int>, base: int)
    requires Increasing(experts) && |keys| == |experts|
    requires forall i :: 0 <= i < |keys| ==> keys[i] == base + experts[i]
    ensures Increasing(keys)
    ensures forall x :: x in keys <==> x - base in experts
  {
    forall x | x - base in experts
      ensures x in keys
    {
      var i :| 0 <= i < |experts| && experts[i] == x - base;
      assert keys[i] == x;
    }
  }

  /** A row's pass demands exactly the experts routed to, and keeps the row's place and owner. */
  lemma PassAsks(row: Row)
    requires HasRoutes(row) && row.layer >= 0 && row.offset >= 0 && row.tokens >= 0
    ensures var p := PassOf(row);
      && Asks(row, p.keys)
      && p.layer == row.layer && p.offset == row.offset && p.tokens == row.tokens
      && p.phase == row.phase && p.session == row.session && p.requestId == row.requestId
  {
    var experts := Ascending(row.routes.value);
    AscendingSorts(row.routes.value);
    var keys := PassOf(row).keys;
    ScaledIncreasing(experts, keys, row.layer * EXPERTS);
    assert forall e :: e in experts <==> e in Elements(experts);
    assert forall e :: e in row.routes.value <==> e in Elements(row.routes.value);
  }

  /** Rows of one window: the same positions, session, phase and request. */
  ghost predicate Together(a: Row, b: Row) {
    && a.Row? && b.Row?
    && a.offset == b.offset && a.tokens == b.tokens && a.phase == b.phase && a.session == b.session
    && a.requestId == b.requestId
  }

  /** Rows b..b+48 are layers 0..47 of one window. */
  ghost predicate FormWindow(rows: seq<Row>, b: nat, mode: Mode) {
    && b + LAYERS <= |rows|
    && forall j {:trigger rows[j]} :: b <= j < b + LAYERS ==>
         Usable(rows[j], mode.filter, mode.explicit) && rows[j].layer == j - b && Together(rows[j], rows[b])
  }

  lemma FormWindowIff(rows: seq<Row>, b: nat, mode: Mode)
    ensures FormWindow(rows, b, mode) <==> IsBlock(rows, b, mode)
  {
    if b + LAYERS <= |rows| && Usable(rows[b], mode.filter, mode.explicit) {
      forall j | b <= j < b + LAYERS
        ensures Fits(rows[j], rows[b], j - b, mode) <==>
          Usable(rows[j], mode.filter, mode.explicit) && rows[j].layer == j - b && Together(rows[j], rows[b])
      {
        if Usable(rows[j], mode.filter, mode.explicit) {
          SameRows(rows[j], rows[b], mode);
        }
      }
    }
    hide Usable, PassOf, SameWindow, Together;
    if FormWindow(rows, b, mode) || IsBlock(rows, b, mode) {
      assert b <= b < b + LAYERS && b < |rows|;
      assert rows[b] == rows[b];
    }
  }

  lemma SameRows(a: Row, b: Row, mode: Mode)
    requires Usable(a, mode.filter, mode.explicit) && Usable(b, mode.filter, mode.explicit)
    ensures SameWindow(PassOf(a), PassOf(b)) <==> Together(a, b)
  {
    PassAsks(a);
    PassAsks(b);
    hide PassOf, Asks;
  }

  // ---------- one segment ----------

  function KeysAt(row: Row): seq<int> {
    if row.Row? && row.routes.Some? && row.layer >= 0 && row.offset >= 0 && row.tokens >= 0 then PassOf(row).keys
    else []
  }

  /** The demands of `n` rows, one row after the other. */
  function Flat(rows: seq<Row>, from: nat, n: nat): seq<int>
    requires from + n <= |rows|
  {
    if n == 0 then [] else Flat(rows, from, n - 1) + KeysAt(rows[from + n - 1])
  }

  lemma PassesNext(rows: seq<Row>, i: nat, m: nat, mode: Mode)
    requires m > 0 && Partial(rows, i, m, mode)
    ensures Partial(rows, i, m - 1, mode) && i + m <= |rows|
    ensures Passes(rows, i, m, mode) == Passes(rows, i, m - 1, mode) + [Passes(rows, i, m, mode)[m - 1]]
    ensures Passes(rows, i, m, mode)[m - 1].keys == KeysAt(rows[i + m - 1])
  {
    assert Fits(rows[i + m - 1], rows[i], m - 1, mode);
    hide PassOf, SameWindow;
  }

  lemma KeysOfNext(window: seq<Pass>, pass: Pass)
    ensures KeysOf(window + [pass]) == KeysOf(window) + pass.keys
  {
    assert (window + [pass])[..|window|] == window;
  }

  /** A window of passes and the rows it came from demand the same. */
  lemma {:induction false} WindowIsFlat(rows: seq<Row>, from: nat, n: nat, m: nat, mode: Mode)
    requires from + n + m <= |rows| && Partial(rows, from + n, m, mode)
    ensures Flat(rows, from, n + m) == Flat(rows, from, n) + KeysOf(Passes(rows, from + n, m, mode))
  {
    hide Partial, KeysAt, Passes;
    if m > 0 {
      PassesNext(rows, from + n, m, mode);
      WindowIsFlat(rows, from, n, m - 1, mode);
      KeysOfNext(Passes(rows, from + n, m - 1, mode), Passes(rows, from + n, m, mode)[m - 1]);
    } else {
      assert Passes(rows, from + n, 0, mode) == [];
    }
  }

  ghost predicate AllAt(ws: seq<seq<Pass>>, rows: seq<Row>, from: nat, mode: Mode) {
    && from + LAYERS * |ws| <= |rows|
    && forall k {:trigger ws[k]} :: 0 <= k < |ws| ==> IsAt(ws[k], rows, RowOf(from, k), mode)
  }

  lemma BlockIsPartial(rows: seq<Row>, b: nat, mode: Mode)
    requires IsBlock(rows, b, mode)
    ensures Partial(rows, b, LAYERS, mode)
  {
  }

  lemma {:induction false} WindowsAreFlat(ws: seq<seq<Pass>>, rows: seq<Row>, from: nat, mode: Mode, k: nat)
    requires AllAt(ws, rows, from, mode) && k <= |ws|
    ensures KeysOfAll(ws[..k]) == Flat(rows, from, LAYERS * k)
  {
    hide Flat, IsBlock, KeysOf;
    if k > 0 {
      WindowsAreFlat(ws, rows, from, mode, k - 1);
      assert IsAt(ws[k - 1], rows, RowOf(from, k - 1), mode);
      BlockIsPartial(rows, RowOf(from, k - 1), mode);
      WindowIsFlat(rows, from, LAYERS * (k - 1), LAYERS, mode);
      assert ws[..k] == ws[..k - 1] + [ws[k - 1]];
      KeysOfAllNext(ws[..k - 1], ws[k - 1]);
    } else {
      NothingIsFlat(rows, from);
    }
  }

  lemma NothingIsFlat(rows: seq<Row>, from: nat)
    requires from <= |rows|
    ensures Flat(rows, from, 0) == []
  {
  }

  lemma FlatNext(rows: seq<Row>, from: nat, n: nat)
    requires from + n < |rows|
    ensures Flat(rows, from, n + 1) == Flat(rows, from, n) + KeysAt(rows[from + n])
  {
    hide KeysAt;
  }

  lemma {:induction false} FlatGrows(rows: seq<Row>, from: nat, j: nat, n: nat)
    requires j <= n && from + n <= |rows|
    ensures Flat(rows, from, j) <= Flat(rows, from, n)
  {
    hide KeysAt, Flat;
    if j < n {
      FlatNext(rows, from, n - 1);
      FlatGrows(rows, from, j, n - 1);
    }
  }

  lemma SliceAfter(all: seq<int>, front: seq<int>, part: seq<int>)
    requires front + part <= all
    ensures all[|front|..|front| + |part|] == part
  {
    assert all[..|front + part|] == front + part;
  }

  lemma FlatSlice(rows: seq<Row>, from: nat, j: nat, n: nat)
    requires j < n && from + n <= |rows|
    ensures |Flat(rows, from, j)| <= |Flat(rows, from, j + 1)| <= |Flat(rows, from, n)|
    ensures Flat(rows, from, n)[|Flat(rows, from, j)|..|Flat(rows, from, j + 1)|] == KeysAt(rows[from + j])
  {
    hide KeysAt, Flat;
    FlatGrows(rows, from, j + 1, n);
    FlatNext(rows, from, j);
    SliceAfter(Flat(rows, from, n), Flat(rows, from, j), KeysAt(rows[from + j]));
  }

  /** Accesses cuts[j]..cuts[j + 1] are the demands of row from + j. */
  ghost predicate CutAt(accesses: seq<int>, rows: seq<Row>, from: nat, cuts: seq<nat>, j: nat)
    requires j + 1 < |cuts| && from + j < |rows|
  {
    && cuts[j] <= cuts[j + 1] <= |accesses|
    && HasRoutes(rows[from + j]) && Asks(rows[from + j], accesses[cuts[j]..cuts[j + 1]])
  }

  /** The rows from `from` on, in file order, demand the accesses and nothing else. */
  ghost predicate CutInto(accesses: seq<int>, rows: seq<Row>, from: nat, cuts: seq<nat>) {
    && cuts != [] && from + |cuts| - 1 <= |rows| && cuts[0] == 0 && cuts[|cuts| - 1] == |accesses|
    && forall j: nat {:trigger CutAt(accesses, rows, from, cuts, j)} :: j + 1 < |cuts| ==>
         CutAt(accesses, rows, from, cuts, j)
  }

  /** A span of the row's request and phase covers accesses lo..hi. */
  ghost predicate OwnedBy(spans: seq<C.Span>, lo: nat, hi: nat, row: Row) {
    && row.Row? && row.requestId.Some? && row.requestId.value >= 1
    && Covered(spans, C.Owner(row.requestId.value, row.phase), lo, hi)
  }

  /** The window of one row ends where that of the other starts. */
  ghost predicate Meet(a: Row, b: Row) {
    a.Row? && b.Row? && a.offset + a.tokens == b.offset
  }

  /** Window k of a segment is 48 rows of the segment's session (and phase), which start where the last window ended. */
  ghost predicate WindowTells(seg: Segment, rows: seq<Row>, from: nat, k: nat, mode: Mode) {
    && FormWindow(rows, RowOf(from, k), mode)
    && var first := rows[RowOf(from, k)];
       && first.Row? && first.session == seg.session && (mode.explicit || first.phase == seg.phase)
       && (if k == 0 then first.offset == seg.start
           else RowOf(from, k - 1) < |rows| && Meet(rows[RowOf(from, k - 1)], first))
       && (k == seg.windows - 1 ==> seg.end == first.offset + first.tokens)
  }

  ghost predicate AllWindowsTell(seg: Segment, rows: seq<Row>, from: nat, n: nat, mode: Mode) {
    forall k: nat :: k < n ==> WindowTells(seg, rows, from, k, mode)
  }

  /** Row by row, where a segment's positions, owner and size come from. */
  ghost predicate Tells(seg: Segment, rows: seq<Row>, from: nat, cuts: seq<nat>, mode: Mode) {
    && seg.windows > 0 && from + LAYERS * seg.windows <= |rows| && |cuts| == LAYERS * seg.windows + 1
    && CutInto(seg.accesses, rows, from, cuts)
    && AllWindowsTell(seg, rows, from, seg.windows, mode)
    && SpansTell(seg, rows, from, cuts, mode.explicit)
  }

  /** With explicit boundaries spans tile the accesses, and each row's lie in one of its own request and phase. */
  ghost predicate SpansTell(seg: Segment, rows: seq<Row>, from: nat, cuts: seq<nat>, explicit: bool)
    requires from + |cuts| <= |rows| + 1
  {
    if explicit then
      && C.Tiles(seg.spans, |seg.accesses|)
      && forall j: nat {:trigger cuts[j]} :: j + 1 < |cuts| ==> OwnedBy(seg.spans, cuts[j], cuts[j + 1], rows[from + j])
    else seg.spans == []
  }

  ghost function CutsOf(rows: seq<Row>, from: nat, n: nat): (cuts: seq<nat>)
    requires from + n <= |rows|
    ensures |cuts| == n + 1 && forall j :: 0 <= j <= n ==> cuts[j] == |Flat(rows, from, j)|
  {
    seq(n + 1, j requires 0 <= j < n + 1 => |Flat(rows, from, j)|)
  }

  lemma CutsExist(rows: seq<Row>, from: nat, n: nat)
    requires from + n <= |rows|
    requires forall j :: from <= j < from + n ==>
      HasRoutes(rows[j]) && rows[j].layer >= 0 && rows[j].offset >= 0 && rows[j].tokens >= 0
    ensures CutInto(Flat(rows, from, n), rows, from, CutsOf(rows, from, n))
  {
    NothingIsFlat(rows, from);
    hide Flat, KeysAt, Asks, CutsOf, CutAt;
    forall j: nat | j < n
      ensures CutAt(Flat(rows, from, n), rows, from, CutsOf(rows, from, n), j)
    {
      CutExists(rows, from, n, j);
    }
  }

  lemma CutExists(rows: seq<Row>, from: nat, n: nat, j: nat)
    requires j < n && from + n <= |rows|
    requires HasRoutes(rows[from + j]) && rows[from + j].layer >= 0
    requires rows[from + j].offset >= 0 && rows[from + j].tokens >= 0
    ensures CutAt(Flat(rows, from, n), rows, from, CutsOf(rows, from, n), j)
  {
    FlatSlice(rows, from, j, n);
    KeysAtAsk(rows[from + j]);
    hide Flat, KeysAt, Asks, CutsOf;
  }

  lemma KeysAtAsk(row: Row)
    requires HasRoutes(row) && row.layer >= 0 && row.offset >= 0 && row.tokens >= 0
    ensures Asks(row, KeysAt(row))
  {
    PassAsks(row);
  }

  // ---------- from windows of passes to rows ----------

  lemma WindowRows(ws: seq<seq<Pass>>, rows: seq<Row>, from: nat, mode: Mode, k: nat)
    requires AllAt(ws, rows, from, mode) && k < |ws|
    ensures FormWindow(rows, RowOf(from, k), mode) && RowOf(from, k) < |rows| && ws[k] != []
    ensures var first := rows[RowOf(from, k)];
      && Usable(first, mode.filter, mode.explicit) && ws[k][0].offset == first.offset
      && ws[k][0].tokens == first.tokens && ws[k][0].phase == first.phase && ws[k][0].session == first.session
      && ws[k][0].requestId == first.requestId
  {
    assert IsAt(ws[k], rows, RowOf(from, k), mode);
    FormWindowIff(rows, RowOf(from, k), mode);
    assert Fits(rows[RowOf(from, k)], rows[RowOf(from, k)], 0, mode);
    PassAsks(rows[RowOf(from, k)]);
    hide FormWindow, SameWindow, Asks;
  }

  lemma WindowOf(j: nat, n: nat) returns (k: nat)
    requires j < LAYERS * n
    ensures k < n && LAYERS * k <= j && j + 1 <= LAYERS * (k + 1) <= LAYERS * n
  {
    k := j / LAYERS;
  }

  /** A row of window k. */
  lemma RowInWindow(ws: seq<seq<Pass>>, rows: seq<Row>, from: nat, mode: Mode, k: nat, j: nat)
    requires AllAt(ws, rows, from, mode) && k < |ws| && LAYERS * k <= j && j + 1 <= LAYERS * (k + 1)
    ensures from + j < |rows| && RowOf(from, k) < |rows|
    ensures Usable(rows[from + j], mode.filter, mode.explicit) && Together(rows[from + j], rows[RowOf(from, k)])
  {
    WindowRows(ws, rows, from, mode, k);
    assert RowOf(from, k) <= from + j < RowOf(from, k) + LAYERS;
    hide AllAt, Usable, Together;
  }

  lemma {:induction false} MeetsAt(ws: seq<seq<Pass>>, start: nat, end: nat, k: nat)
    requires Meets(ws, start, end) && k < |ws|
    ensures ws[k] != []
    ensures k == 0 ==> ws[0][0].offset == start
    ensures k > 0 ==> ws[k - 1] != [] && ws[k - 1][0].offset + ws[k - 1][0].tokens == ws[k][0].offset
    ensures k == |ws| - 1 ==> end == ws[k][0].offset + ws[k][0].tokens
  {
    var n := |ws| - 1;
    if k < n {
      MeetsAt(ws[..n], start, ws[n][0].offset, k);
    } else if n > 0 {
      MeetsAt(ws[..n], start, ws[n][0].offset, n - 1);
    }
  }

  lemma RowHasRoutes(ws: seq<seq<Pass>>, rows: seq<Row>, from: nat, mode: Mode, j: nat)
    requires AllAt(ws, rows, from, mode) && j < LAYERS * |ws|
    ensures from + j < |rows| && HasRoutes(rows[from + j])
    ensures rows[from + j].layer >= 0 && rows[from + j].offset >= 0 && rows[from + j].tokens >= 0
  {
    hide AllAt, RowOf;
    var k := WindowOf(j, |ws|);
    RowInWindow(ws, rows, from, mode, k, j);
  }

  lemma FaithfulAccesses(seg: Segment, ws: seq<seq<Pass>>, explicit: bool)
    requires Faithful(seg, ws, explicit)
    ensures seg.accesses == KeysOfAll(ws)
  {
  }

  /** A segment's accesses are its rows' demands, cut row by row. */
  lemma AccessesAreCut(seg: Segment, ws: seq<seq<Pass>>, rows: seq<Row>, from: nat, mode: Mode)
    requires Faithful(seg, ws, mode.explicit) && AllAt(ws, rows, from, mode)
    ensures seg.accesses == Flat(rows, from, LAYERS * |ws|)
    ensures CutInto(seg.accesses, rows, from, CutsOf(rows, from, LAYERS * |ws|))
  {
    WindowsAreFlat(ws, rows, from, mode, |ws|);
    assert ws[..|ws|] == ws;
    RowsSuffice(ws, rows, from, mode);
    FaithfulAccesses(seg, ws, mode.explicit);
    hide AllAt, CutInto, Flat, KeysOfAll, Faithful;
    var n := LAYERS * |ws|;
    forall j | from <= j < from + n
      ensures HasRoutes(rows[j]) && rows[j].layer >= 0 && rows[j].offset >= 0 && rows[j].tokens >= 0
    {
      RowHasRoutes(ws, rows, from, mode, j - from);
    }
    hide *;
    CutsExist(rows, from, LAYERS * |ws|);
  }

  lemma WindowIsCovered(seg: Segment, ws: seq<seq<Pass>>, rows: seq<Row>, from: nat, mode: Mode, k: nat)
    requires Faithful(seg, ws, mode.explicit) && AllAt(ws, rows, from, mode) && mode.explicit && k < |ws|
    ensures from + LAYERS * (k + 1) <= |rows| && RowOf(from, k) < |rows|
    ensures OwnedBy(seg.spans, |Flat(rows, from, LAYERS * k)|, |Flat(rows, from, LAYERS * (k + 1))|,
                    rows[RowOf(from, k)])
  {
    RowsSuffice(ws, rows, from, mode);
    WindowRows(ws, rows, from, mode, k);
    WindowIsOwned(seg, ws, mode.explicit, k);
    WindowsAreFlat(ws, rows, from, mode, k);
    WindowsAreFlat(ws, rows, from, mode, k + 1);
    hide AllAt, Faithful, FormWindow, Flat, KeysOfAll, Covered;
  }

  /** With explicit boundaries each row's accesses lie in a span of its own request and phase. */
  lemma RowIsOwned(seg: Segment, ws: seq<seq<Pass>>, rows: seq<Row>, from: nat, mode: Mode, j: nat)
    requires Faithful(seg, ws, mode.explicit) && AllAt(ws, rows, from, mode) && mode.explicit && j < LAYERS * |ws|
    ensures from + j < |rows|
    ensures OwnedBy(seg.spans, |Flat(rows, from, j)|, |Flat(rows, from, j + 1)|, rows[from + j])
  {
    hide AllAt, Faithful, Flat, Covered, Usable, OwnedBy, Together, RowOf;
    var k := WindowOf(j, |ws|);
    RowInWindow(ws, rows, from, mode, k, j);
    WindowIsCovered(seg, ws, rows, from, mode, k);
    FlatGrows(rows, from, LAYERS * k, j);
    FlatGrows(rows, from, j + 1, LAYERS * (k + 1));
    OwnedWithin(seg.spans, |Flat(rows, from, LAYERS * k)|, |Flat(rows, from, LAYERS * (k + 1))|,
                |Flat(rows, from, j)|, |Flat(rows, from, j + 1)|, rows[RowOf(from, k)], rows[from + j]);
  }

  lemma OwnedWithin(spans: seq<C.Span>, from: nat, to: nat, lo: nat, hi: nat, first: Row, row: Row)
    requires OwnedBy(spans, from, to, first) && Together(row, first) && from <= lo && hi <= to
    ensures OwnedBy(spans, lo, hi, row)
  {
    CoveredWithin(spans, C.Owner(first.requestId.value, first.phase), from, to, lo, hi);
  }

  lemma CoveredWithin(spans: seq<C.Span>, owner: C.Owner, from: nat, to: nat, lo: nat, hi: nat)
    requires Covered(spans, owner, from, to) && from <= lo && hi <= to
    ensures Covered(spans, owner, lo, hi)
  {
  }

  lemma WindowIsOwned(seg: Segment, ws: seq<seq<Pass>>, explicit: bool, k: nat)
    requires Faithful(seg, ws, explicit) && explicit && k < |ws|
    ensures ws[k] != [] && ws[k][0].requestId.Some? && ws[k][0].requestId.value >= 1
    ensures Covered(seg.spans, OwnerOf(ws[k][0]), |KeysOfAll(ws[..k])|, |KeysOfAll(ws[..k + 1])|)
  {
    assert IsWindow(ws[k], explicit);
    hide Covered, OwnerOf, KeysOfAll, C.Tiles, Meets;
  }

  lemma SpansAreTold(seg: Segment, ws: seq<seq<Pass>>, rows: seq<Row>, from: nat, mode: Mode)
    requires Faithful(seg, ws, mode.explicit) && AllAt(ws, rows, from, mode)
    ensures SpansTell(seg, rows, from, CutsOf(rows, from, LAYERS * |ws|), mode.explicit)
  {
    var cuts := CutsOf(rows, from, LAYERS * |ws|);
    if mode.explicit {
      forall j: nat | j + 1 < |cuts|
        ensures OwnedBy(seg.spans, cuts[j], cuts[j + 1], rows[from + j])
      {
        RowIsOwned(seg, ws, rows, from, mode, j);
      }
    }
    hide AllAt, CutsOf, OwnedBy, Gathered, Owned, C.Tiles, Flat;
  }

  lemma SegmentTells(seg: Segment, ws: seq<seq<Pass>>, rows: seq<Row>, from: nat, mode: Mode)
    requires Faithful(seg, ws, mode.explicit) && AllAt(ws, rows, from, mode)
    ensures seg.windows == |ws|
    ensures Tells(seg, rows, from, CutsOf(rows, from, LAYERS * |ws|), mode)
  {
    AccessesAreCut(seg, ws, rows, from, mode);
    WindowsTell(seg, ws, rows, from, mode);
    SpansAreTold(seg, ws, rows, from, mode);
    RowsSuffice(ws, rows, from, mode);
    hide *;
    AllTold(seg, rows, from, CutsOf(rows, from, LAYERS * |ws|), mode);
  }

  lemma RowsSuffice(ws: seq<seq<Pass>>, rows: seq<Row>, from: nat, mode: Mode)
    requires AllAt(ws, rows, from, mode)
    ensures from + LAYERS * |ws| <= |rows|
  {
  }

  lemma AllTold(seg: Segment, rows: seq<Row>, from: nat, cuts: seq<nat>, mode: Mode)
    requires seg.windows > 0 && from + LAYERS * seg.windows <= |rows| && |cuts| == LAYERS * seg.windows + 1
    requires CutInto(seg.accesses, rows, from, cuts) && SpansTell(seg, rows, from, cuts, mode.explicit)
    requires AllWindowsTell(seg, rows, from, seg.windows, mode)
    ensures Tells(seg, rows, from, cuts, mode)
  {
  }

  lemma WindowsTell(seg: Segment, ws: seq<seq<Pass>>, rows: seq<Row>, from: nat, mode: Mode)
    requires Faithful(seg, ws, mode.explicit) && AllAt(ws, rows, from, mode)
    ensures seg.windows == |ws| > 0
    ensures AllWindowsTell(seg, rows, from, |ws|, mode)
  {
    forall k: nat | k < |ws|
      ensures WindowTells(seg, rows, from, k, mode)
    {
      WindowRows(ws, rows, from, mode, k);
      if k > 0 {
        WindowRows(ws, rows, from, mode, k - 1);
      }
      MeetsAt(ws, seg.start, seg.end, k);
      assert ws[k] != [] && ws[k][0].session == seg.session;
      hide AllAt, FormWindow, Meets, IsWindow, KeysOfAll, Usable, Partitioned;
    }
  }

  // ---------- whole logs ----------

  /** Some segment has a window in rows b..b+48. */
  ghost predicate StartsIn(segments: seq<Segment>, at: seq<nat>, b: nat)
    requires |at| == |segments|
  {
    exists i: nat, k: nat {:trigger RowOf(at[i], k)} :: i < |at| && k < segments[i].windows && RowOf(at[i], k) == b
  }

  ghost predicate TellAll(segments: seq<Segment>, rows: seq<Row>, at: seq<nat>, cuts: seq<seq<nat>>, mode: Mode) {
    && |at| == |cuts| == |segments|
    && forall i {:trigger segments[i]} :: 0 <= i < |segments| ==> Tells(segments[i], rows, at[i], cuts[i], mode)
  }

  lemma PlacedAllAt(all: Windows, at: seq<nat>, rows: seq<Row>, mode: Mode, i: nat)
    requires Placed(all, at, rows, mode) && i < |all|
    requires all[i] != []
    ensures AllAt(all[i], rows, at[i], mode)
  {
    var n := |all[i]| - 1;
    assert IsAt(all[i][n], rows, RowOf(at[i], n), mode);
    BlockIsPartial(rows, RowOf(at[i], n), mode);
    PartialWithin(rows, RowOf(at[i], n), LAYERS, mode);
    forall k | 0 <= k < |all[i]|
      ensures IsAt(all[i][k], rows, RowOf(at[i], k), mode)
    {
    }
    hide IsAt;
  }

  lemma WindowsAreTold(segments: seq<Segment>, all: Windows, at: seq<nat>, rows: seq<Row>, mode: Mode)
    returns (cuts: seq<seq<nat>>)
    requires |all| == |segments| && forall i :: 0 <= i < |all| ==> Faithful(segments[i], all[i], mode.explicit)
    requires Placed(all, at, rows, mode)
    ensures TellAll(segments, rows, at, cuts, mode)
    ensures forall i :: 0 <= i < |all| ==> segments[i].windows == |all[i]|
  {
    cuts := seq(|all|, i requires 0 <= i < |all| => CutsAt(rows, at[i], LAYERS * |all[i]|));
    forall i | 0 <= i < |all|
      ensures segments[i].windows == |all[i]| && Tells(segments[i], rows, at[i], cuts[i], mode)
    {
      assert Faithful(segments[i], all[i], mode.explicit);
      WindowsNotEmpty(segments[i], all[i], mode.explicit);
      PlacedAllAt(all, at, rows, mode, i);
      RowsSuffice(all[i], rows, at[i], mode);
      SegmentTells(segments[i], all[i], rows, at[i], mode);
      hide Faithful, Tells, IsAt, CutsOf;
    }
    hide Faithful, Tells, IsAt;
  }

  lemma WindowsNotEmpty(seg: Segment, ws: seq<seq<Pass>>, explicit: bool)
    requires Faithful(seg, ws, explicit)
    ensures ws != []
  {
  }

  /**
   * The segments of an accepted log, told by its rows alone: consecutive complete windows of rows whose own distinct
   * experts, ascending, row after row, are the accesses; each access in a span of its row's request and phase; the
   * segments one after the other; and no complete window of the log left out.
   */
  lemma SegmentsTellTheirRows(rows: seq<Row>, mode: Mode) returns (at: seq<nat>, cuts: seq<seq<nat>>)
    requires Run(rows, mode).Ok?
    ensures var segments := Finish(Run(rows, mode).value).segments;
      && TellAll(segments, rows, at, cuts, mode)
      && (forall b: nat :: FormWindow(rows, b, mode) ==> StartsIn(segments, at, b))
      && forall i, j :: 0 <= i < j < |at| ==> RowOf(at[i], segments[i].windows) <= at[j]
  {
    hide Run, Finish, Faithful, Placed, Complete, Maximal, FormWindow, Tells, Starts, StartsIn, IsBlock;
    var all;
    all, at := SegmentsAreMaximalBlocks(rows, mode);
    var segments := Finish(Run(rows, mode).value).segments;
    cuts := WindowsAreTold(segments, all, at, rows, mode);
    forall b: nat | FormWindow(rows, b, mode)
      ensures StartsIn(segments, at, b)
    {
      FormWindowIff(rows, b, mode);
      WindowIsStarted(all, at, rows, b, mode);
      StartsAgree(segments, all, at, b);
    }
    forall i, j | 0 <= i < j < |at|
      ensures RowOf(at[i], segments[i].windows) <= at[j]
    {
      assert End(all, at, i) <= at[j];
    }
  }

  lemma WindowIsStarted(all: Windows, at: seq<nat>, rows: seq<Row>, b: nat, mode: Mode)
    requires |at| == |all| && Complete(all, at, rows, mode) && IsBlock(rows, b, mode)
    ensures Starts(all, at, b)
  {
  }

  lemma StartsAgree(segments: seq<Segment>, all: Windows, at: seq<nat>, b: nat)
    requires |at| == |all| == |segments| && forall i :: 0 <= i < |all| ==> segments[i].windows == |all[i]|
    requires Starts(all, at, b)
    ensures StartsIn(segments, at, b)
  {
  }

  ghost function CutsAt(rows: seq<Row>, from: nat, n: nat): seq<nat> {
    if from + n <= |rows| then CutsOf(rows, from, n) else []
  }

  /** So every access counted for a request and phase was made by a row of that request and phase. */
  lemma AccessIsAttributed(seg: Segment, rows: seq<Row>, from: nat, cuts: seq<nat>, mode: Mode, j: nat, p: nat)
    requires Tells(seg, rows, from, cuts, mode) && mode.explicit && C.WellFormed(C.Segment(seg.accesses, seg.spans))
    requires j + 1 < |cuts| && cuts[j] <= p < cuts[j + 1]
    ensures p < |seg.accesses| && HasRoutes(rows[from + j])
    ensures seg.accesses[p] - rows[from + j].layer * EXPERTS in rows[from + j].routes.value
    ensures rows[from + j].requestId.Some? && rows[from + j].requestId.value >= 1
    ensures C.OwnerAt(C.Segment(seg.accesses, seg.spans), p)
         == Some(C.Owner(rows[from + j].requestId.value, rows[from + j].phase))
  {
    assert CutAt(seg.accesses, rows, from, cuts, j);
    CutDemands(seg.accesses, rows, from, cuts, j, p);
    assert OwnedBy(seg.spans, cuts[j], cuts[j + 1], rows[from + j]);
    hide WindowTells, CutInto, CutAt;
    SpanOwns(seg.spans, |seg.accesses|, cuts[j], cuts[j + 1],
             C.Owner(rows[from + j].requestId.value, rows[from + j].phase), p);
    hide C.Tiles, Covered;
  }

  lemma CutDemands(accesses: seq<int>, rows: seq<Row>, from: nat, cuts: seq<nat>, j: nat, p: nat)
    requires j + 1 < |cuts| && from + j < |rows| && CutAt(accesses, rows, from, cuts, j)
    requires cuts[j] <= p < cuts[j + 1]
    ensures p < |accesses| && accesses[p] - rows[from + j].layer * EXPERTS in rows[from + j].routes.value
  {
    var keys := accesses[cuts[j]..cuts[j + 1]];
    assert keys[p - cuts[j]] == accesses[p];
    assert accesses[p] in keys;
  }

  lemma SpanOwns(spans: seq<C.Span>, length: nat, lo: nat, hi: nat, owner: C.Owner, p: nat)
    requires C.Tiles(spans, length) && Covered(spans, owner, lo, hi) && lo <= p < hi && p < length
    ensures spans != [] && p < spans[|spans| - 1].end && spans[C.SpanOf(spans, p, 0)].owner == owner
  {
    C.SpanOfIsAround(spans, length, p);
  }
}
