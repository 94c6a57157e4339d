/** Turning a log of layer passes into cold-start segments of complete 48-layer windows. */
module RouteSegments {
  import opened Common
  import C = Counts

  const MAX_ACCESSES: nat := 250_000

  const REVISIONS: set<string> :=
    {"aa7c790e804bbf9d491ddb109c3d61bc4a555f7c", "b2c422f3c643e36f04227a64d61796b44a4b1029"}

  /** `format` says that every expert-format field present has the supported value. */
  datatype Row =
    | NotAnObject
    | Row(boundary: Option<string>, phase: Option<string>, routes: Option<seq<int>>, revision: string, build: string,
          format: bool, layer: int, offset: int, tokens: int, session: Option<string>, requestId: Option<int>)

  datatype Pass = Pass(layer: nat, offset: nat, tokens: nat, phase: Option<string>, session: Option<string>,
                       requestId: Option<int>, keys: seq<int>)

  /** The windows of each segment. */
  type Windows = seq<seq<seq<Pass>>>

  datatype Segment = Segment(start: nat, end: nat, phase: Option<string>, session: Option<string>,
                             windows: nat, singleTokenWindows: nat, accesses: seq<int>, spans: seq<C.Span>)

  datatype State = State(
    segments: seq<Segment>, pending: seq<Pass>, identity: Option<(string, string)>,
    excluded: nat, missing: nat, filtered: nat, incomplete: nat, boundaries: nat,
    logicalRoutes: nat, passes: nat, barriers: seq<string>, canContinue: bool)

  const EMPTY := State([], [], None, 0, 0, 0, 0, 0, 0, 0, [], false)

  predicate Hex(c: char) {
    '0' <= c <= '9' || 'a' <= c <= 'f'
  }

  predicate FullBuild(build: string) {
    |build| == 64 && forall i :: 0 <= i < 64 ==> Hex(build[i])
  }

  predicate ValidRow(row: Row, identity: Option<(string, string)>, explicit: bool)
    requires row.Row? && row.routes.Some?
  {
    && row.revision in REVISIONS && FullBuild(row.build) && row.format
    && (identity.Some? ==> identity.value == (row.revision, row.build))
    && 0 <= row.layer < LAYERS && 0 <= row.offset <= 8191 && 1 <= row.tokens <= 8192 - row.offset
    && TopRoutes(row.routes.value, row.tokens)
    && (explicit ==> row.requestId.Some? && 1 <= row.requestId.value <= MAX_ACCESSES)
  }

  /** A boundary event, a row of another phase or a row without routes. */
  predicate Dropped(row: Row, filter: Option<string>, explicit: bool)
    requires row.Row?
  {
    (explicit && row.boundary.Some?) || (filter.Some? && row.phase != filter) || row.routes.None?
  }

  /** A row that holds a layer pass to be placed in a window. */
  predicate Usable(row: Row, filter: Option<string>, explicit: bool) {
    && row.Row? && !Dropped(row, filter, explicit)
    && 0 <= row.layer < LAYERS && 0 <= row.offset && 1 <= row.tokens
  }

  function PassOf(row: Row): Pass
    requires row.Row? && row.routes.Some? && row.layer >= 0 && row.offset >= 0 && row.tokens >= 0
  {
    var experts := Ascending(row.routes.value);
    Pass(row.layer, row.offset, row.tokens, row.phase, row.session, row.requestId,
         seq(|experts|, i requires 0 <= i < |experts| => row.layer * EXPERTS + experts[i]))
  }

  predicate SameWindow(a: Pass, b: Pass) {
    a.offset == b.offset && a.tokens == b.tokens && a.phase == b.phase && a.session == b.session
    && a.requestId == b.requestId
  }

  function Discard(s: State, reason: string): State {
    s.(excluded := s.excluded + |s.pending|, incomplete := s.incomplete + (if s.pending != [] then 1 else 0),
       pending := [], canContinue := false, barriers := s.barriers + [reason])
  }

  function KeysOf(window: seq<Pass>): seq<int> {
    if window == [] then [] else KeysOf(window[..|window| - 1]) + window[|window| - 1].keys
  }

  predicate Continues(s: State, first: Pass, explicit: bool) {
    && s.canContinue && s.segments != []
    && var last := s.segments[|s.segments| - 1];
       last.end == first.offset && (explicit || last.phase == first.phase) && last.session == first.session
  }

  /** Extend the last span, or open one when the request or the phase changes. */
  function Spanned(spans: seq<C.Span>, start: nat, end: nat, owner: C.Owner): seq<C.Span> {
    if spans != [] && spans[|spans| - 1].owner == owner then
      spans[..|spans| - 1] + [spans[|spans| - 1].(end := end)]
    else spans + [C.Span(start, end, owner)]
  }

  function OwnerOf(p: Pass): C.Owner {
    C.Owner(if p.requestId.Some? && p.requestId.value >= 0 then p.requestId.value else 0, p.phase)
  }

  /** One more complete window in a segment. */
  function Extended(seg: Segment, window: seq<Pass>, explicit: bool): Segment
    requires window != []
  {
    var first := window[0];
    var accesses := seg.accesses + KeysOf(window);
    seg.(accesses := accesses,
         spans := if explicit then Spanned(seg.spans, |seg.accesses|, |accesses|, OwnerOf(first)) else seg.spans,
         end := first.offset + first.tokens, windows := seg.windows + 1,
         singleTokenWindows := seg.singleTokenWindows + if first.tokens == 1 then 1 else 0)
  }

  /** Continue the last segment or start one cold. */
  function Open(s: State, first: Pass, explicit: bool): (s': State)
    ensures s' == s.(segments := s'.segments, barriers := s'.barriers) && s'.segments != []
  {
    if Continues(s, first, explicit) then s
    else
      s.(segments := s.segments + [Segment(first.offset, first.offset, first.phase, first.session, 0, 0, [], [])],
         barriers := if s.segments != [] && s.canContinue
                     then s.barriers + ["position_phase_or_session_boundary"] else s.barriers)
  }

  /** 48 passes are pending: they are the next window of the segment. */
  function Close(s: State, explicit: bool): State
    requires s.pending != []
  {
    var first := s.pending[0];
    var ready := Open(s, first, explicit);
    var n := |ready.segments| - 1;
    ready.(segments := ready.segments[n := Extended(ready.segments[n], s.pending, explicit)],
       logicalRoutes := s.logicalRoutes + first.tokens * TOP_K * LAYERS,
       passes := s.passes + LAYERS, pending := [], canContinue := true)
  }

  function Demands(segments: seq<Segment>): nat {
    if segments == [] then 0 else Demands(segments[..|segments| - 1]) + |segments[|segments| - 1].accesses|
  }

  /** The state once a pass that does not fit has discarded what was pending. */
  function Ready(s: State, row: Row, pass: Pass): State
    requires row.Row?
  {
    var known := s.(identity := Some((row.revision, row.build)));
    if s.pending != [] && (pass.layer != |s.pending| || !SameWindow(pass, s.pending[0]))
    then Discard(known, "incomplete_or_discontinuous_window") else known
  }

  /** Skip a pass outside a window, keep it, or close the window it completes. */
  function Hold(ready: State, pass: Pass, explicit: bool): Result<State> {
    if ready.pending == [] && pass.layer != 0 then Ok(ready.(excluded := ready.excluded + 1, canContinue := false))
    else
      var grown := ready.(pending := ready.pending + [pass]);
      if |grown.pending| != LAYERS then Ok(grown)
      else
        var closed := Close(grown, explicit);
        if Demands(closed.segments) > MAX_ACCESSES then Err else Ok(closed)
  }

  /** One row, or an error where the source raises. */
  function Take(s: State, row: Row, filter: Option<string>, explicit: bool): Result<State> {
    if row.NotAnObject? then Err
    else if explicit && row.boundary.Some? then Ok(Discard(s, row.boundary.value).(boundaries := s.boundaries + 1))
    else if filter.Some? && row.phase != filter then Ok(Discard(s, "phase_filter").(filtered := s.filtered + 1))
    else if row.routes.None? then Ok(Discard(s, "missing_routes").(missing := s.missing + 1))
    else if !ValidRow(row, s.identity, explicit) then Err
    else Hold(Ready(s, row, PassOf(row)), PassOf(row), explicit)
  }

  // ---------- what holds after every row ----------

  /** Passes 0, 1, 2, ... of one window: same offset, tokens, phase, session and request. */
  ghost predicate InOrder(window: seq<Pass>, explicit: bool) {
    forall i :: 0 <= i < |window| ==>
      && window[i].layer == i && SameWindow(window[i], window[0])
      && window[i].tokens >= 1
      && 0 < |window[i].keys| <= window[i].tokens * TOP_K
      && (forall j :: 0 <= j < |window[i].keys| ==>
            i * EXPERTS <= window[i].keys[j] < (i + 1) * EXPERTS)
      && Increasing(window[i].keys)
      && (explicit ==> window[i].requestId.Some? && window[i].requestId.value >= 1)
  }

  ghost predicate IsWindow(window: seq<Pass>, explicit: bool) {
    |window| == LAYERS && InOrder(window, explicit)
  }

  ghost function KeysOfAll(windows: seq<seq<Pass>>): seq<int> {
    if windows == [] then [] else KeysOfAll(windows[..|windows| - 1]) + KeysOf(windows[|windows| - 1])
  }

  /** Consecutive windows meet: no gap and no overlap from `start` to the end of the last. */
  ghost predicate Meets(windows: seq<seq<Pass>>, start: nat, end: nat) {
    if windows == [] then start == end
    else
      var last := windows[|windows| - 1];
      last != [] && last[0].offset + last[0].tokens == end && Meets(windows[..|windows| - 1], start, last[0].offset)
  }

  /** Some span with the window's owner covers accesses from..to. */
  ghost predicate Covered(spans: seq<C.Span>, owner: C.Owner, from: nat, to: nat) {
    exists i :: 0 <= i < |spans| && spans[i].owner == owner && spans[i].start <= from && to <= spans[i].end
  }

  /** Each window's accesses lie in a span of its own request and phase. */
  ghost predicate Owned(spans: seq<C.Span>, windows: seq<seq<Pass>>) {
    forall k :: 0 <= k < |windows| ==>
      windows[k] != []
      && Covered(spans, OwnerOf(windows[k][0]), |KeysOfAll(windows[..k])|, |KeysOfAll(windows[..k + 1])|)
  }

  /** Windows of a single token. */
  ghost function Singles(windows: seq<seq<Pass>>): nat {
    if windows == [] then 0
    else
      var last := windows[|windows| - 1];
      Singles(windows[..|windows| - 1]) + if last != [] && last[0].tokens == 1 then 1 else 0
  }

  /** Everything about a segment but its spans. */
  ghost predicate Gathered(seg: Segment, windows: seq<seq<Pass>>, explicit: bool) {
    && seg.windows == |windows| && seg.singleTokenWindows == Singles(windows)
    && (forall i :: 0 <= i < |windows| ==> IsWindow(windows[i], explicit))
    && seg.accesses == KeysOfAll(windows)
    && Meets(windows, seg.start, seg.end)
    && (windows != [] ==> windows[0] != [] && seg.start == windows[0][0].offset)
    && (forall i :: 0 <= i < |windows| ==>
          windows[i] != [] && windows[i][0].session == seg.session && (explicit || windows[i][0].phase == seg.phase))
  }

  /** With explicit boundaries the spans tile the accesses, each window inside one of its own owner. */
  ghost predicate Partitioned(seg: Segment, windows: seq<seq<Pass>>, explicit: bool) {
    if explicit then C.Tiles(seg.spans, |seg.accesses|) && Owned(seg.spans, windows)
    else seg.spans == []
  }

  ghost predicate Faithful(seg: Segment, windows: seq<seq<Pass>>, explicit: bool) {
    && windows != [] && seg.accesses != []
    && Gathered(seg, windows, explicit) && Partitioned(seg, windows, explicit)
  }

  ghost function WindowCount(all: Windows): nat {
    if all == [] then 0 else WindowCount(all[..|all| - 1]) + |all[|all| - 1]|
  }

  /** Experts selected by the router in one window: ten for each token and layer. */
  ghost function Selected(w: seq<Pass>): nat {
    if w == [] then 0 else w[0].tokens * TOP_K * LAYERS
  }

  ghost function SelectedIn(windows: seq<seq<Pass>>): nat {
    if windows == [] then 0 else SelectedIn(windows[..|windows| - 1]) + Selected(windows[|windows| - 1])
  }

  ghost function Selections(all: Windows): nat {
    if all == [] then 0 else Selections(all[..|all| - 1]) + SelectedIn(all[|all| - 1])
  }

  /** `all` lists the windows of each segment. */
  ghost predicate Inv(s: State, all: Windows, rows: nat, explicit: bool) {
    && |all| == |s.segments|
    && (forall i :: 0 <= i < |all| ==> Faithful(s.segments[i], all[i], explicit))
    && |s.pending| < LAYERS && InOrder(s.pending, explicit)
    && (s.canContinue ==> s.segments != [])
    && s.passes == LAYERS * WindowCount(all)
    && s.logicalRoutes == Selections(all)
    && Demands(s.segments) <= s.logicalRoutes && Demands(s.segments) <= MAX_ACCESSES
    && rows == s.boundaries + s.passes + s.excluded + s.missing + s.filtered + |s.pending|
    && (!explicit ==> s.boundaries == 0)
  }

  lemma KeysOfAllNext(windows: seq<seq<Pass>>, w: seq<Pass>)
    ensures KeysOfAll(windows + [w]) == KeysOfAll(windows) + KeysOf(w)
  {
    assert (windows + [w])[..|windows|] == windows;
  }

  lemma SinglesNext(windows: seq<seq<Pass>>, w: seq<Pass>)
    ensures Singles(windows + [w]) == Singles(windows) + if w != [] && w[0].tokens == 1 then 1 else 0
  {
    assert (windows + [w])[..|windows|] == windows;
  }

  lemma SelectedNext(windows: seq<seq<Pass>>, w: seq<Pass>)
    ensures SelectedIn(windows + [w]) == SelectedIn(windows) + Selected(w)
  {
    assert (windows + [w])[..|windows|] == windows;
  }

  lemma MeetsNext(windows: seq<seq<Pass>>, w: seq<Pass>, start: nat)
    requires w != [] && Meets(windows, start, w[0].offset)
    ensures Meets(windows + [w], start, w[0].offset + w[0].tokens)
  {
    assert (windows + [w])[..|windows|] == windows;
  }

  lemma WindowHasKeys(w: seq<Pass>)
    requires w != [] && w[|w| - 1].keys != []
    ensures KeysOf(w) != []
  {
  }

  lemma SpannedTiles(spans: seq<C.Span>, start: nat, end: nat, owner: C.Owner)
    requires C.Tiles(spans, start) && start < end
    ensures C.Tiles(Spanned(spans, start, end, owner), end) && Spanned(spans, start, end, owner) != []
    ensures Covered(Spanned(spans, start, end, owner), owner, start, end)
  {
    var r := Spanned(spans, start, end, owner);
    if spans != [] && spans[|spans| - 1].owner == owner {
      assert r[..|r| - 1] == spans[..|spans| - 1];
    } else {
      assert r[..|r| - 1] == spans;
    }
    assert r[|r| - 1].owner == owner && r[|r| - 1].start <= start && end <= r[|r| - 1].end;
  }

  lemma SpannedKeepsCover(spans: seq<C.Span>, start: nat, end: nat, owner: C.Owner, other: C.Owner, from: nat, to: nat)
    requires C.Tiles(spans, start) && start < end && Covered(spans, other, from, to)
    ensures Covered(Spanned(spans, start, end, owner), other, from, to)
  {
    var r := Spanned(spans, start, end, owner);
    var i :| 0 <= i < |spans| && spans[i].owner == other && spans[i].start <= from && to <= spans[i].end;
    C.TilesEndsGrow(spans, start, i);
    assert r[i].owner == other && r[i].start <= from && to <= r[i].end;
  }

  lemma OwnedNext(seg: Segment, windows: seq<seq<Pass>>, w: seq<Pass>)
    requires w != [] && KeysOf(w) != [] && seg.accesses == KeysOfAll(windows)
    requires C.Tiles(seg.spans, |seg.accesses|) && Owned(seg.spans, windows)
    ensures var end := |seg.accesses| + |KeysOf(w)|;
      Owned(Spanned(seg.spans, |seg.accesses|, end, OwnerOf(w[0])), windows + [w])
  {
    hide Spanned, Covered, C.Tiles, KeysOf, OwnerOf;
    var end := |seg.accesses| + |KeysOf(w)|;
    var longer := windows + [w];
    var spans := Spanned(seg.spans, |seg.accesses|, end, OwnerOf(w[0]));
    SpannedTiles(seg.spans, |seg.accesses|, end, OwnerOf(w[0]));
    KeysOfAllNext(windows, w);
    forall k | 0 <= k < |longer|
      ensures longer[k] != []
      ensures Covered(spans, OwnerOf(longer[k][0]), |KeysOfAll(longer[..k])|, |KeysOfAll(longer[..k + 1])|)
    {
      if k < |windows| {
        assert longer[..k] == windows[..k] && longer[..k + 1] == windows[..k + 1];
        SpannedKeepsCover(seg.spans, |seg.accesses|, end, OwnerOf(w[0]), OwnerOf(windows[k][0]),
                          |KeysOfAll(windows[..k])|, |KeysOfAll(windows[..k + 1])|);
      } else {
        assert longer[..k] == windows && longer[..k + 1] == longer;
      }
    }
  }

  lemma ExtendGathers(seg: Segment, windows: seq<seq<Pass>>, w: seq<Pass>, explicit: bool)
    requires Gathered(seg, windows, explicit) && IsWindow(w, explicit)
    requires seg.end == w[0].offset && seg.session == w[0].session && (explicit || seg.phase == w[0].phase)
    requires windows == [] ==> seg.start == w[0].offset
    ensures Gathered(Extended(seg, w, explicit), windows + [w], explicit)
  {
    hide Spanned, KeysOf, KeysOfAll, Meets, InOrder, Singles;
    KeysOfAllNext(windows, w);
    SinglesNext(windows, w);
    MeetsNext(windows, w, seg.start);
  }

  lemma ExtendPartitions(seg: Segment, windows: seq<seq<Pass>>, w: seq<Pass>, explicit: bool)
    requires Partitioned(seg, windows, explicit) && seg.accesses == KeysOfAll(windows) && w != [] && KeysOf(w) != []
    ensures Partitioned(Extended(seg, w, explicit), windows + [w], explicit)
  {
    hide Spanned, KeysOf, KeysOfAll, Owned, C.Tiles;
    if explicit {
      SpannedTiles(seg.spans, |seg.accesses|, |seg.accesses| + |KeysOf(w)|, OwnerOf(w[0]));
      OwnedNext(seg, windows, w);
    }
  }

  lemma ExtendKeepsFaithful(seg: Segment, windows: seq<seq<Pass>>, w: seq<Pass>, explicit: bool)
    requires Gathered(seg, windows, explicit) && Partitioned(seg, windows, explicit) && IsWindow(w, explicit)
    requires seg.end == w[0].offset && seg.session == w[0].session && (explicit || seg.phase == w[0].phase)
    requires windows == [] ==> seg.start == w[0].offset
    ensures Faithful(Extended(seg, w, explicit), windows + [w], explicit)
  {
    WindowHasKeys(w);
    GatheredAccesses(seg, windows, explicit);
    hide Gathered, Partitioned, KeysOf, KeysOfAll, InOrder;
    ExtendGathers(seg, windows, w, explicit);
    ExtendPartitions(seg, windows, w, explicit);
  }

  lemma GatheredAccesses(seg: Segment, windows: seq<seq<Pass>>, explicit: bool)
    requires Gathered(seg, windows, explicit)
    ensures seg.accesses == KeysOfAll(windows)
  {
  }

  lemma ColdIsFaithful(first: Pass, explicit: bool)
    ensures var seg := Segment(first.offset, first.offset, first.phase, first.session, 0, 0, [], []);
      Gathered(seg, [], explicit) && Partitioned(seg, [], explicit)
  {
  }

  lemma WindowCountNext(all: Windows, w: seq<Pass>)
    ensures WindowCount(all + [[w]]) == WindowCount(all) + 1
    ensures all != [] ==> WindowCount(all[|all| - 1 := all[|all| - 1] + [w]]) == WindowCount(all) + 1
  {
    assert (all + [[w]])[..|all|] == all;
    if all != [] {
      assert all[|all| - 1 := all[|all| - 1] + [w]][..|all| - 1] == all[..|all| - 1];
    }
  }

  /** The windows of each segment once `w` is complete. */
  ghost function Joined(all: Windows, w: seq<Pass>, continues: bool): Windows {
    if continues && all != [] then all[|all| - 1 := all[|all| - 1] + [w]] else all + [[w]]
  }

  /** A completed window joins the segment it continues, or opens one of its own. */
  lemma CloseKeepsInv(s: State, all: Windows, explicit: bool)
    requires |all| == |s.segments| && forall i :: 0 <= i < |all| ==> Faithful(s.segments[i], all[i], explicit)
    requires IsWindow(s.pending, explicit)
    ensures var s' := Close(s, explicit);
      var all' := Joined(all, s.pending, Continues(s, s.pending[0], explicit));
      && |all'| == |s'.segments| && (forall i :: 0 <= i < |all'| ==> Faithful(s'.segments[i], all'[i], explicit))
      && s'.segments != [] && WindowCount(all') == WindowCount(all) + 1
  {
    hide Gathered, Partitioned, InOrder, Extended, WindowCount;
    var w := s.pending;
    WindowCountNext(all, w);
    if Continues(s, w[0], explicit) {
      var n := |all| - 1;
      ExtendKeepsFaithful(s.segments[n], all[n], w, explicit);
    } else {
      ColdIsFaithful(w[0], explicit);
      ExtendKeepsFaithful(Segment(w[0].offset, w[0].offset, w[0].phase, w[0].session, 0, 0, [], []), [], w, explicit);
      assert [] + [w] == [w];
    }
  }

  lemma JoinedSelections(all: Windows, w: seq<Pass>, continues: bool)
    ensures Selections(Joined(all, w, continues)) == Selections(all) + Selected(w)
  {
    hide Selected;
    var all' := Joined(all, w, continues);
    var n := |all'| - 1;
    if continues && all != [] {
      SelectedNext(all[n], w);
      assert all'[..n] == all[..n];
    } else {
      SelectedNext([], w);
      assert [] + [w] == [w];
      assert all'[..n] == all;
    }
  }

  lemma {:induction false} WindowIsBounded(w: seq<Pass>, most: nat)
    requires forall i :: 0 <= i < |w| ==> |w[i].keys| <= most
    ensures |KeysOf(w)| <= |w| * most
  {
    if w != [] {
      WindowIsBounded(w[..|w| - 1], most);
      assert |w| * most == (|w| - 1) * most + most;
    }
  }

  /** Grouping tokens by expert never adds a demand: the selections grouped away are not negative. */
  lemma CloseKeepsDemands(s: State, explicit: bool)
    requires IsWindow(s.pending, explicit) && Demands(s.segments) <= s.logicalRoutes
    ensures var s' := Close(s, explicit); Demands(s'.segments) <= s'.logicalRoutes
  {
    WindowIsBounded(s.pending, s.pending[0].tokens * TOP_K);
    hide KeysOf, InOrder;
    var s' := Close(s, explicit);
    var n := |s'.segments| - 1;
    if Continues(s, s.pending[0], explicit) {
      assert s'.segments[..n] == s.segments[..n];
    } else {
      assert s'.segments[..n] == s.segments;
    }
  }

  /** What an accepted row's pass brings with it. */
  ghost predicate SoundPass(pass: Pass, explicit: bool) {
    && pass.tokens >= 1 && 0 < |pass.keys| <= pass.tokens * TOP_K && Increasing(pass.keys)
    && (forall j :: 0 <= j < |pass.keys| ==> pass.layer * EXPERTS <= pass.keys[j] < (pass.layer + 1) * EXPERTS)
    && (explicit ==> pass.requestId.Some? && pass.requestId.value >= 1)
  }

  lemma PassIsValid(row: Row, identity: Option<(string, string)>, explicit: bool)
    requires row.Row? && row.routes.Some? && ValidRow(row, identity, explicit)
    ensures SoundPass(PassOf(row), explicit)
  {
    var routes := row.routes.value;
    var experts := Ascending(routes);
    AscendingSorts(routes);
    AscendingShortens(routes);
    assert routes[0] in Elements(experts);
    forall j | 0 <= j < |experts|
      ensures 0 <= experts[j] < EXPERTS
    {
      assert experts[j] in Elements(routes);
    }
  }

  lemma ReadyKeepsInv(s: State, all: Windows, rows: nat, row: Row, pass: Pass, explicit: bool)
    requires Inv(s, all, rows, explicit) && row.Row?
    ensures Inv(Ready(s, row, pass), all, rows, explicit)
    ensures var r := Ready(s, row, pass);
      r.pending != [] ==> pass.layer == |r.pending| && SameWindow(pass, r.pending[0])
  {
    hide Faithful, InOrder, WindowCount;
    assert InOrder([], explicit) by { EmptyInOrder(explicit); }
  }

  lemma EmptyInOrder(explicit: bool)
    ensures InOrder([], explicit)
  {
  }

  lemma AppendInOrder(window: seq<Pass>, pass: Pass, explicit: bool)
    requires InOrder(window, explicit) && pass.layer == |window| && (window != [] ==> SameWindow(pass, window[0]))
    requires SoundPass(pass, explicit)
    ensures InOrder(window + [pass], explicit)
  {
  }

  lemma PassKeepsInv(s: State, all: Windows, rows: nat, pass: Pass, explicit: bool)
    requires Inv(s, all, rows, explicit) && pass.layer == |s.pending| && InOrder(s.pending + [pass], explicit)
    requires |s.pending| + 1 == LAYERS ==>
      Demands(Close(s.(pending := s.pending + [pass]), explicit).segments) <= MAX_ACCESSES
    ensures var grown := s.(pending := s.pending + [pass]);
      Inv(if |grown.pending| != LAYERS then grown else Close(grown, explicit), AllNext(s, all, pass, explicit),
          rows + 1, explicit)
  {
    hide Faithful, InOrder, WindowCount, Close, Demands, Joined, Selections;
    var grown := s.(pending := s.pending + [pass]);
    if |grown.pending| == LAYERS {
      CloseKeepsInv(grown, all, explicit);
      CloseKeepsDemands(grown, explicit);
      JoinedSelections(all, grown.pending, Continues(grown, grown.pending[0], explicit));
      CloseCounts(grown, explicit);
      EmptyInOrder(explicit);
    }
  }

  lemma TakeIs(s: State, row: Row, filter: Option<string>, explicit: bool)
    requires row.Row? && row.routes.Some? && ValidRow(row, s.identity, explicit)
    requires !Dropped(row, filter, explicit) && Take(s, row, filter, explicit).Ok?
    ensures var s' := Take(s, row, filter, explicit).value;
      var pass := PassOf(row);
      var ready := Ready(s, row, pass);
      var grown := ready.(pending := ready.pending + [pass]);
      && (ready.pending == [] && pass.layer != 0 ==> s' == ready.(excluded := ready.excluded + 1, canContinue := false))
      && (!(ready.pending == [] && pass.layer != 0) ==>
            s' == if |grown.pending| != LAYERS then grown else Close(grown, explicit))
      && (|grown.pending| == LAYERS ==> Demands(Close(grown, explicit).segments) <= MAX_ACCESSES)
  {
    hide PassOf, Demands, ValidRow, Ready, Close;
  }

  ghost function AllNext(ready: State, all: Windows, pass: Pass, explicit: bool): Windows {
    var grown := ready.pending + [pass];
    if |grown| != LAYERS then all else Joined(all, grown, Continues(ready, grown[0], explicit))
  }

  /** The windows of each segment after one more row. */
  ghost function AllAfter(s: State, all: Windows, row: Row, filter: Option<string>, explicit: bool)
    : Windows
  {
    if Usable(row, filter, explicit) then AllNext(Ready(s, row, PassOf(row)), all, PassOf(row), explicit) else all
  }

  lemma HoldKeepsInv(ready: State, all: Windows, rows: nat, pass: Pass, explicit: bool)
    requires Inv(ready, all, rows, explicit) && SoundPass(pass, explicit) && Hold(ready, pass, explicit).Ok?
    requires ready.pending != [] ==> pass.layer == |ready.pending| && SameWindow(pass, ready.pending[0])
    ensures Inv(Hold(ready, pass, explicit).value, AllNext(ready, all, pass, explicit), rows + 1, explicit)
  {
    if ready.pending == [] && pass.layer != 0 {
      hide Inv;
      SkipKeepsInv(ready, all, rows, explicit);
    } else {
      InvInOrder(ready, all, rows, explicit);
      AppendInOrder(ready.pending, pass, explicit);
      hide Inv, InOrder, AllNext, Close, Demands, SameWindow, SoundPass;
      PassKeepsInv(ready, all, rows, pass, explicit);
    }
  }

  lemma RowKeepsInv(s: State, all: Windows, rows: nat, row: Row, filter: Option<string>, explicit: bool)
    requires Inv(s, all, rows, explicit) && row.Row? && row.routes.Some? && ValidRow(row, s.identity, explicit)
    requires Usable(row, filter, explicit) && Take(s, row, filter, explicit).Ok?
    ensures Inv(Take(s, row, filter, explicit).value, AllAfter(s, all, row, filter, explicit), rows + 1, explicit)
  {
    PassIsValid(row, s.identity, explicit);
    var pass := PassOf(row);
    var ready := Ready(s, row, pass);
    hide Inv, SoundPass, SameWindow, PassOf, ValidRow, Ready, AllNext, Hold;
    ReadyKeepsInv(s, all, rows, row, pass, explicit);
    HoldKeepsInv(ready, all, rows, pass, explicit);
  }

  lemma InvInOrder(s: State, all: Windows, rows: nat, explicit: bool)
    requires Inv(s, all, rows, explicit)
    ensures InOrder(s.pending, explicit)
  {
  }

  lemma SkipKeepsInv(s: State, all: Windows, rows: nat, explicit: bool)
    requires Inv(s, all, rows, explicit)
    ensures Inv(s.(excluded := s.excluded + 1, canContinue := false), all, rows + 1, explicit)
  {
    hide Faithful, InOrder, WindowCount;
  }

  lemma DropKeepsInv(s: State, all: Windows, rows: nat, row: Row, filter: Option<string>, explicit: bool)
    requires Inv(s, all, rows, explicit) && row.Row?
    requires Dropped(row, filter, explicit)
    ensures Take(s, row, filter, explicit).Ok?
    ensures Inv(Take(s, row, filter, explicit).value, all, rows + 1, explicit)
  {
    hide Faithful, InOrder, WindowCount;
    EmptyInOrder(explicit);
  }

  lemma TakeKeepsInv(s: State, all: Windows, rows: nat, row: Row, filter: Option<string>, explicit: bool)
    requires Inv(s, all, rows, explicit) && Take(s, row, filter, explicit).Ok?
    ensures Inv(Take(s, row, filter, explicit).value, AllAfter(s, all, row, filter, explicit), rows + 1, explicit)
  {
    TakenIsUsable(s, row, filter, explicit);
    hide Inv, Take, ValidRow;
    if Dropped(row, filter, explicit) {
      DropKeepsInv(s, all, rows, row, filter, explicit);
    } else {
      RowKeepsInv(s, all, rows, row, filter, explicit);
    }
  }

  lemma TakenIsUsable(s: State, row: Row, filter: Option<string>, explicit: bool)
    requires Take(s, row, filter, explicit).Ok?
    ensures row.Row? && (Dropped(row, filter, explicit) <==> !Usable(row, filter, explicit))
    ensures Usable(row, filter, explicit) ==> row.routes.Some? && ValidRow(row, s.identity, explicit)
  {
  }

  lemma PassLayer(row: Row)
    requires row.Row? && row.routes.Some? && row.layer >= 0 && row.offset >= 0 && row.tokens >= 0
    ensures PassOf(row).layer == row.layer
  {
  }

  lemma CloseCounts(s: State, explicit: bool)
    requires s.pending != []
    ensures var s' := Close(s, explicit);
      && s'.passes == s.passes + LAYERS && s'.logicalRoutes == s.logicalRoutes + Selected(s.pending)
      && s'.pending == [] && s'.canContinue
      && s'.boundaries == s.boundaries && s'.excluded == s.excluded
      && s'.missing == s.missing && s'.filtered == s.filtered
  {
  }
}
