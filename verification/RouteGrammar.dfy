/** The nested grammar of route captures, kept by every run of the writer and by every log the reader accepts. */
module RouteGrammar {
  import opened Common
  import opened RouteTrace
  import opened RouteReader
  import opened RouteLogs

  /** What an event does to the nesting. */
  datatype Mark =
    | TraceStart
    | RequestStart
    | RequestStop
    | ForwardStart(offset: nat, tokens: nat)
    | Layer(layer: nat)
    | Committed(position: nat)
    | Aborted(layers: nat)
    | CacheCleared
    | TraceStop(complete: bool)

  function MarkOf(e: Event): Mark {
    match e
    case TraceBegin => TraceStart
    case RequestBegin(_, _, _, _) => RequestStart
    case RequestEnd(_, _, _) => RequestStop
    case ForwardBegin(_, offset, input, _, _) => ForwardStart(offset, |input|)
    case Routes(layer, _) => Layer(layer)
    case ForwardCommit(position) => Committed(position)
    case ForwardAbort(layers) => Aborted(layers)
    case CacheReset => CacheCleared
    case TraceEnd(complete) => TraceStop(complete)
  }

  function Marks(log: seq<Line>): seq<Mark> {
    seq(|log|, i requires 0 <= i < |log| => MarkOf(log[i].event))
  }

  function WithoutResets(marks: seq<Mark>): seq<Mark> {
    if marks == [] then []
    else
      WithoutResets(marks[..|marks| - 1])
      + if marks[|marks| - 1].CacheCleared? then [] else [marks[|marks| - 1]]
  }

  // ---------- the grammar ----------

  datatype Part =
    | Forward(offset: nat, tokens: nat, layers: nat, committed: bool)
    | ResetInside

  datatype Item =
    | Request(parts: seq<Part>)
    | ResetBetween

  /** A forward still open: its offset, tokens and layers so far. */
  datatype Unclosed = Unclosed(offset: nat, tokens: nat, layers: nat)

  /** Closed items, then perhaps an open request, then perhaps an open forward in it, then perhaps the end. */
  datatype Shape = Shape(items: seq<Item>, request: Option<seq<Part>>, forward: Option<Unclosed>, end: Option<bool>)

  function Layers(layers: nat): seq<Mark> {
    if layers == 0 then [] else Layers(layers - 1) + [Layer(layers - 1)]
  }

  function RenderUnclosed(f: Unclosed): seq<Mark> {
    [ForwardStart(f.offset, f.tokens)] + Layers(f.layers)
  }

  function RenderPart(p: Part): seq<Mark> {
    match p
    case Forward(offset, tokens, layers, committed) =>
      RenderUnclosed(Unclosed(offset, tokens, layers))
      + [if committed then Committed(offset + tokens) else Aborted(layers)]
    case ResetInside => [CacheCleared]
  }

  function RenderParts(parts: seq<Part>): seq<Mark> {
    if parts == [] then [] else RenderParts(parts[..|parts| - 1]) + RenderPart(parts[|parts| - 1])
  }

  function RenderItem(item: Item): seq<Mark> {
    match item
    case Request(parts) => [RequestStart] + RenderParts(parts) + [RequestStop]
    case ResetBetween => [CacheCleared]
  }

  function RenderItems(items: seq<Item>): seq<Mark> {
    if items == [] then [] else RenderItems(items[..|items| - 1]) + RenderItem(items[|items| - 1])
  }

  function Render(s: Shape): seq<Mark> {
    [TraceStart] + RenderItems(s.items)
    + (if s.request.Some? then [RequestStart] + RenderParts(s.request.value) else [])
    + (if s.forward.Some? then RenderUnclosed(s.forward.value) else [])
    + (if s.end.Some? then [TraceStop(s.end.value)] else [])
  }

  /** Committed forwards have all their layers; no forward has more. */
  ghost predicate SoundForward(offset: nat, tokens: nat, layers: nat, committed: bool) {
    layers <= LAYERS && (committed ==> layers == LAYERS) && tokens > 0 && offset + tokens <= 8192
  }

  ghost predicate SoundParts(parts: seq<Part>) {
    forall i :: 0 <= i < |parts| && parts[i].Forward? ==>
      SoundForward(parts[i].offset, parts[i].tokens, parts[i].layers, parts[i].committed)
  }

  /** Forwards lie in requests and are sound, and a complete end leaves nothing open. */
  ghost predicate Sound(s: Shape) {
    && (forall i :: 0 <= i < |s.items| && s.items[i].Request? ==> SoundParts(s.items[i].parts))
    && (s.request.Some? ==> SoundParts(s.request.value))
    && (s.forward.Some? ==>
          var f := s.forward.value; s.request.Some? && SoundForward(f.offset, f.tokens, f.layers, false))
    && (s.end == Some(true) ==> s.request.None? && s.forward.None?)
  }

  /** Whether the grammar lets a mark follow. */
  predicate Fits(s: Shape, m: Mark) {
    s.end.None? &&
    match m
    case TraceStart => false
    case RequestStart => s.request.None? && s.forward.None?
    case RequestStop => s.request.Some? && s.forward.None?
    case ForwardStart(offset, tokens) =>
      s.request.Some? && s.forward.None? && tokens > 0 && offset + tokens <= 8192
    case Layer(layer) => s.forward.Some? && layer == s.forward.value.layers && layer < LAYERS
    case Committed(position) =>
      && s.request.Some? && s.forward.Some? && s.forward.value.layers == LAYERS
      && position == s.forward.value.offset + s.forward.value.tokens
    case Aborted(layers) => s.request.Some? && s.forward.Some? && layers == s.forward.value.layers
    case CacheCleared => s.forward.None?
    case TraceStop(complete) => complete ==> s.request.None? && s.forward.None?
  }

  function Grow(s: Shape, m: Mark): Shape
    requires Fits(s, m)
  {
    match m
    case RequestStart => s.(request := Some([]))
    case RequestStop => s.(request := None, items := s.items + [Request(s.request.value)])
    case ForwardStart(offset, tokens) => s.(forward := Some(Unclosed(offset, tokens, 0)))
    case Layer(layer) => s.(forward := Some(s.forward.value.(layers := layer + 1)))
    case Committed(_) => s.(forward := None, request := Some(s.request.value + [Closing(s.forward.value, true)]))
    case Aborted(_) => s.(forward := None, request := Some(s.request.value + [Closing(s.forward.value, false)]))
    case CacheCleared =>
      if s.request.Some? then s.(request := Some(s.request.value + [ResetInside]))
      else s.(items := s.items + [ResetBetween])
    case TraceStop(complete) => s.(end := Some(complete))
  }

  function Closing(f: Unclosed, committed: bool): Part {
    Forward(f.offset, f.tokens, f.layers, committed)
  }

  lemma AppendPart(parts: seq<Part>, p: Part)
    ensures RenderParts(parts + [p]) == RenderParts(parts) + RenderPart(p)
  {
    assert (parts + [p])[..|parts|] == parts;
  }

  lemma AppendItem(items: seq<Item>, item: Item)
    ensures RenderItems(items + [item]) == RenderItems(items) + RenderItem(item)
  {
    assert (items + [item])[..|items|] == items;
  }

  lemma OpenRenders(s: Shape, m: Mark)
    requires Fits(s, m) && (m.RequestStart? || m.ForwardStart? || m.Layer?)
    ensures Render(Grow(s, m)) == Render(s) + [m]
  {
    assert RenderParts([]) == [] && Layers(0) == [];
    hide RenderItems, RenderParts;
  }

  lemma CloseRenders(s: Shape, m: Mark)
    requires Fits(s, m) && (m.Committed? || m.Aborted?)
    ensures Render(Grow(s, m)) == Render(s) + [m]
  {
    var f := s.forward.value;
    var p := Closing(f, m.Committed?);
    assert RenderPart(p) == RenderUnclosed(f) + [m];
    assert Grow(s, m) == s.(forward := None, request := Some(s.request.value + [p]));
    hide *;
    ClosesPart(s, s.request.value, f, p, m);
  }

  lemma ClosesPart(s: Shape, parts: seq<Part>, f: Unclosed, p: Part, m: Mark)
    requires s.request == Some(parts) && s.forward == Some(f) && s.end.None?
    requires RenderPart(p) == RenderUnclosed(f) + [m]
    ensures Render(s.(forward := None, request := Some(parts + [p]))) == Render(s) + [m]
  {
    hide RenderItems, RenderParts, RenderPart, RenderUnclosed;
    AppendPart(parts, p);
    Regroup([TraceStart] + RenderItems(s.items), [RequestStart], RenderParts(parts), RenderUnclosed(f), m);
  }

  lemma Regroup(items: seq<Mark>, begin: seq<Mark>, parts: seq<Mark>, open: seq<Mark>, m: Mark)
    ensures items + (begin + (parts + (open + [m]))) + [] + [] == items + (begin + parts) + open + [] + [m]
  {
  }

  lemma StopRenders(s: Shape, m: Mark)
    requires Fits(s, m) && m.RequestStop?
    ensures Render(Grow(s, m)) == Render(s) + [m]
  {
    AppendItem(s.items, Request(s.request.value));
    hide RenderItems, RenderParts;
  }

  lemma ResetRenders(s: Shape, m: Mark)
    requires Fits(s, m) && m.CacheCleared?
    ensures Render(Grow(s, m)) == Render(s) + [m]
  {
    assert RenderPart(ResetInside) == [m] && RenderItem(ResetBetween) == [m];
    assert s.forward.None? && s.end.None?;
    assert Grow(s, m) == if s.request.Some? then s.(request := Some(s.request.value + [ResetInside]))
                         else s.(items := s.items + [ResetBetween]);
    hide *;
    if s.request.Some? {
      ResetInRequest(s, s.request.value, m);
    } else {
      ResetOutside(s, m);
    }
  }

  lemma ResetInRequest(s: Shape, parts: seq<Part>, m: Mark)
    requires s.request == Some(parts) && s.forward.None? && s.end.None? && RenderPart(ResetInside) == [m]
    ensures Render(s.(request := Some(parts + [ResetInside]))) == Render(s) + [m]
  {
    hide RenderItems, RenderParts, RenderPart, RenderUnclosed;
    AppendPart(parts, ResetInside);
    RegroupReset([TraceStart] + RenderItems(s.items), RenderParts(parts), m);
  }

  lemma ResetOutside(s: Shape, m: Mark)
    requires s.request.None? && s.forward.None? && s.end.None? && RenderItem(ResetBetween) == [m]
    ensures Render(s.(items := s.items + [ResetBetween])) == Render(s) + [m]
  {
    hide RenderItems, RenderItem, RenderParts, RenderUnclosed;
    AppendItem(s.items, ResetBetween);
    assert [TraceStart] + (RenderItems(s.items) + [m]) + [] + [] + []
        == [TraceStart] + RenderItems(s.items) + [] + [] + [] + [m];
  }

  lemma RegroupReset(items: seq<Mark>, parts: seq<Mark>, m: Mark)
    ensures items + ([RequestStart] + (parts + [m])) + [] + [] == items + ([RequestStart] + parts) + [] + [] + [m]
  {
  }

  lemma EndRenders(s: Shape, m: Mark)
    requires Fits(s, m) && m.TraceStop?
    ensures Render(Grow(s, m)) == Render(s) + [m]
  {
    hide RenderItems, RenderParts, RenderUnclosed;
  }

  /** One more fitting mark is one more mark rendered. */
  lemma GrowRenders(s: Shape, m: Mark)
    requires Fits(s, m)
    ensures Render(Grow(s, m)) == Render(s) + [m]
  {
    hide Grow, Render;
    match m
    case RequestStart => OpenRenders(s, m);
    case ForwardStart(_, _) => OpenRenders(s, m);
    case Layer(_) => OpenRenders(s, m);
    case Committed(_) => CloseRenders(s, m);
    case Aborted(_) => CloseRenders(s, m);
    case RequestStop => StopRenders(s, m);
    case CacheCleared => ResetRenders(s, m);
    case TraceStop(_) => EndRenders(s, m);
  }

  lemma GrowStaysSound(s: Shape, m: Mark)
    requires Sound(s) && Fits(s, m)
    ensures Sound(Grow(s, m))
  {
  }

  const BARE := Shape([], None, None, None)

  lemma BareIsSound()
    ensures Sound(BARE) && Render(BARE) == [TraceStart]
  {
  }

  lemma MarksNext(log: seq<Line>, line: Line)
    ensures Marks(log + [line]) == Marks(log) + [MarkOf(line.event)]
    ensures WithoutResets(Marks(log + [line]))
         == WithoutResets(Marks(log)) + if line.event.CacheReset? then [] else [MarkOf(line.event)]
  {
    assert Marks(log + [line])[..|log|] == Marks(log);
  }

  // ---------- every run of the writer ----------

  /** The shape stands where the writer stands. */
  ghost predicate Mirrors(s: Shape, w: Writer) {
    && s.request.Some? == w.request && (w.forward ==> w.request)
    && s.forward == (if w.forward then Some(Unclosed(w.offset, w.tokens, w.nextLayer)) else None)
    && s.end == (if w.terminal then Some(true) else None)
  }

  lemma CallFits(s: Shape, w: Writer, c: Call, size: Line -> nat)
    requires Mirrors(s, w) && Allowed(w, c) && !c.Reset?
    ensures Fits(s, MarkOf(EventFor(w, c)))
    ensures Emitted(Entered(w, c), EventFor(w, c), size).Some? ==>
      Mirrors(Grow(s, MarkOf(EventFor(w, c))), Apply(w, c, size).0)
  {
  }

  lemma WrittenLine(w: Writer, c: Call, size: Line -> nat)
    requires Apply(w, c, size).1 == Written
    ensures Allowed(w, c) && Emitted(Entered(w, c), EventFor(w, c), size).Some?
    ensures var w' := Apply(w, c, size).0;
      |w'.log| == |w.log| + 1 && w'.log == w.log + [w'.log[|w.log|]] && w'.log[|w.log|].event == EventFor(w, c)
  {
  }

  lemma ResetMovesNothing(s: Shape, w: Writer, size: Line -> nat)
    requires Mirrors(s, w)
    ensures Mirrors(s, Apply(w, Reset, size).0)
  {
  }

  lemma OpenedIsShaped(size: Line -> nat)
    requires Opened(size).Some?
    ensures var w := Opened(size).value; Mirrors(BARE, w) && WithoutResets(Marks(w.log)) == [TraceStart]
  {
    var line := Line(1, 0, 0, TraceBegin);
    assert [] + [line] == [line];
    MarksNext([], line);
    assert Marks([]) == [];
  }

  lemma CallIsShaped(s: Shape, w: Writer, c: Call, size: Line -> nat) returns (s': Shape)
    requires Sound(s) && Mirrors(s, w) && Render(s) == WithoutResets(Marks(w.log))
    requires Apply(w, c, size).1 != Failed
    ensures var w' := Apply(w, c, size).0;
      Sound(s') && Mirrors(s', w') && Render(s') == WithoutResets(Marks(w'.log))
  {
    hide Apply, Allowed, EventFor, Entered, Emitted, Mirrors, Sound, Render, Grow, Fits, WithoutResets, Marks;
    s' := s;
    if Apply(w, c, size).1 == Written {
      WrittenLine(w, c, size);
      MarksNext(w.log, Apply(w, c, size).0.log[|w.log|]);
      if c.Reset? {
        ResetMovesNothing(s, w, size);
        ResetIsReset(w);
      } else {
        var m := MarkOf(EventFor(w, c));
        CallFits(s, w, c, size);
        GrowRenders(s, m);
        GrowStaysSound(s, m);
        s' := Grow(s, m);
        OnlyResetsReset(w, c);
      }
    } else {
      UnwrittenChangesNothing(w, c, size);
    }
  }

  lemma ResetIsReset(w: Writer)
    ensures EventFor(w, Reset) == CacheReset
  {
  }

  lemma OnlyResetsReset(w: Writer, c: Call)
    requires !c.Reset?
    ensures !EventFor(w, c).CacheReset?
  {
  }

  lemma {:induction false} RunIsShaped(calls: seq<Call>, n: nat, size: Line -> nat) returns (s: Shape)
    requires Opened(size).Some? && n <= |calls| && NoneFailed(Opened(size).value, calls, n, size)
    ensures var w := Wrote(Opened(size).value, calls, n, size);
      Sound(s) && Mirrors(s, w) && Render(s) == WithoutResets(Marks(w.log))
  {
    hide Apply, Opened, Mirrors, Sound, Render, WithoutResets, Marks;
    if n == 0 {
      s := BARE;
      OpenedIsShaped(size);
      BareIsSound();
    } else {
      var before := RunIsShaped(calls, n - 1, size);
      s := CallIsShaped(before, Wrote(Opened(size).value, calls, n - 1, size), calls[n - 1], size);
    }
  }

  /** Whatever was written, the line that closes an unfinished trace fits. */
  lemma CloseIsShaped(s: Shape, w: Writer, later: Writer, size: Line -> nat) returns (s': Shape)
    requires Sound(s) && Mirrors(s, w) && Render(s) == WithoutResets(Marks(w.log))
    requires later.log == w.log && later.terminal == w.terminal
    ensures Sound(s') && Render(s') == WithoutResets(Marks(Closed(later, size).log))
  {
    s' := s;
    var closed := Closed(later, size);
    if closed != later {
      var m := TraceStop(false);
      GrowRenders(s, m);
      GrowStaysSound(s, m);
      s' := Grow(s, m);
      MarksNext(w.log, closed.log[|w.log|]);
    }
    hide Sound, Render, WithoutResets, Marks;
  }

  /**
   * Every log a run leaves has the shape of the grammar, its cache resets aside, up to and including a call whose
   * write fails and the line that closes an unfinished trace.
   */
  lemma LogIsShaped(calls: seq<Call>, n: nat, size: Line -> nat) returns (s: Shape)
    requires Opened(size).Some? && n <= |calls| && NoneFailed(Opened(size).value, calls, n, size)
    requires n == |calls| || (n == |calls| - 1
      && Apply(Wrote(Opened(size).value, calls, n, size), calls[n], size).1 == Failed)
    ensures Sound(s)
    ensures Render(s) == WithoutResets(Marks(Closed(Wrote(Opened(size).value, calls, |calls|, size), size).log))
  {
    hide Apply, Opened, Closed, Mirrors, Sound, Render, WithoutResets, Marks;
    var w0 := Opened(size).value;
    var before := RunIsShaped(calls, n, size);
    var w := Wrote(w0, calls, n, size);
    if n < |calls| {
      FailureWritesNothing(w, calls[n], size);
    }
    s := CloseIsShaped(before, w, Wrote(w0, calls, |calls|, size), size);
  }

  // ---------- every log the reader accepts ----------

  ghost predicate NoneAborted(parts: seq<Part>) {
    forall i :: 0 <= i < |parts| && parts[i].Forward? ==> parts[i].committed
  }

  /** Requests that ended normally committed every forward. */
  ghost predicate Clean(s: Shape) {
    forall i :: 0 <= i < |s.items| && s.items[i].Request? ==> NoneAborted(s.items[i].parts)
  }

  ghost predicate Reads(s: Shape, r: Reading) {
    && s.request.Some? == r.request.Some? && (r.forward.Some? ==> r.request.Some?)
    && s.forward == (if r.forward.None? then None
                     else Some(Unclosed(r.forward.value.offset, |r.forward.value.input|, r.forward.value.layers)))
    && s.end == r.ended && Clean(s)
    && (r.request.Some? && !r.request.value.aborted ==> NoneAborted(s.request.value))
  }

  lemma FollowFits(s: Shape, r: Reading, e: Event)
    requires Reads(s, r) && r.lines > 0 && Follow(r, e).Some?
    ensures Fits(s, MarkOf(e)) && Reads(Grow(s, MarkOf(e)), Follow(r, e).value)
  {
    hide Tokens, Stops, Continues, RouteReader.Committed, TopRoutes, Sizes;
  }

  lemma FollowCounts(r: Reading, line: Line)
    requires FollowLine(r, line).Some?
    ensures Follow(r, line.event) == FollowLine(r, line)
    ensures FollowLine(r, line).value.lines == r.lines + 1
  {
  }

  lemma FirstLine(log: seq<Line>)
    requires |log| == 1 && ReadLog(log, 1).Some?
    ensures Marks(log) == [TraceStart] && Reads(BARE, ReadLog(log, 1).value) && ReadLog(log, 1).value.lines == 1
  {
    assert ReadLog(log, 0) == Some(UNREAD);
  }

  /** Every log the reader accepts is a rendered shape, resets and all, whose ended requests aborted nothing. */
  lemma {:induction false} AcceptedIsShaped(log: seq<Line>) returns (s: Shape)
    requires log != [] && ReadLog(log, |log|).Some?
    ensures Sound(s) && Clean(s) && Render(s) == Marks(log) && Reads(s, ReadLog(log, |log|).value)
    ensures ReadLog(log, |log|).value.lines == |log|
  {
    hide FollowLine, Follow, Grow, Sound, Render, Fits;
    if |log| == 1 {
      FirstLine(log);
      s := BARE;
      BareIsSound();
    } else {
      var front, line := log[..|log| - 1], log[|log| - 1];
      assert front + [line] == log;
      ReadNext(front, line);
      var before := AcceptedIsShaped(front);
      var r := ReadLog(front, |front|).value;
      var m := MarkOf(line.event);
      hide Marks, ReadLog;
      FollowCounts(r, line);
      FollowFits(before, r, line.event);
      GrowRenders(before, m);
      GrowStaysSound(before, m);
      MarksNext(front, line);
      s := Grow(before, m);
      hide Reads;
    }
  }
}
