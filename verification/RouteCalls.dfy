/** A route log gives its calls back: nothing a call carried is lost, and nothing else is in the lines. */
module RouteCalls {
  import opened Common
  import opened RouteTrace
  import opened RouteLogs

  /** Where the last forward begun starts, and its tokens. */
  datatype Geometry = Geometry(offset: nat, tokens: nat)

  ghost function GeometryAt(log: seq<Line>, n: nat): Geometry
    requires n <= |log|
  {
    if n == 0 then Geometry(0, 0)
    else if log[n - 1].event.ForwardBegin? then Geometry(log[n - 1].event.offset, |log[n - 1].event.input|)
    else GeometryAt(log, n - 1)
  }

  /** The call a line was written for. */
  ghost function CallOf(g: Geometry, e: Event): Option<Call> {
    match e
    case RequestBegin(name, input, maxTokens, prime) => Some(StartRequest(name, input, maxTokens, prime))
    case RequestEnd(output, reason, reused) => Some(Call.EndRequest(output, reason, reused))
    case ForwardBegin(session, offset, input, phase, slots) => Some(Begin(session, offset, input, phase, slots))
    case Routes(layer, selected) => Some(Route(layer, g.offset, g.tokens, selected))
    case ForwardCommit(position) => Some(Commit(position))
    case ForwardAbort(_) => Some(Abort)
    case CacheReset => Some(Reset)
    case TraceEnd(complete) => if complete then Some(Finish) else None
    case TraceBegin => None
  }

  /** The calls the first `n` lines tell of. */
  ghost function CallsOf(log: seq<Line>, n: nat): seq<Call>
    requires n <= |log|
  {
    if n == 0 then []
    else
      var c := CallOf(GeometryAt(log, n - 1), log[n - 1].event);
      CallsOf(log, n - 1) + if c.Some? then [c.value] else []
  }

  ghost function WrittenCalls(w: Writer, calls: seq<Call>, n: nat, size: Line -> nat): seq<Call>
    requires n <= |calls|
  {
    if n == 0 then []
    else
      WrittenCalls(w, calls, n - 1, size)
      + if Apply(Wrote(w, calls, n - 1, size), calls[n - 1], size).1 == Written then [calls[n - 1]] else []
  }

  ghost function Starts(log: seq<Line>, n: nat): nat
    requires n <= |log|
  {
    if n == 0 then 0 else Starts(log, n - 1) + if log[n - 1].event.RequestBegin? then 1 else 0
  }

  ghost function Forwards(log: seq<Line>, n: nat): nat
    requires n <= |log|
  {
    if n == 0 then 0 else Forwards(log, n - 1) + if log[n - 1].event.ForwardBegin? then 1 else 0
  }

  /** Layers logged since the last forward began. */
  ghost function Layers(log: seq<Line>, n: nat): nat
    requires n <= |log|
  {
    if n == 0 || log[n - 1].event.ForwardBegin? then 0
    else Layers(log, n - 1) + if log[n - 1].event.Routes? then 1 else 0
  }

  /** Line `i` carries its position and the requests and forwards begun by then; an abort carries the layers logged. */
  ghost predicate NumberedAt(log: seq<Line>, i: nat)
    requires i < |log|
  {
    && log[i].sequence == i + 1
    && log[i].requestId == Starts(log, i + 1) && log[i].forwardId == Forwards(log, i + 1)
    && (log[i].event.ForwardAbort? ==> log[i].event.layers == Layers(log, i))
    && (log[i].event.Routes? ==> log[i].event.layer == Layers(log, i))
  }

  ghost predicate Numbered(log: seq<Line>) {
    forall i :: 0 <= i < |log| ==> NumberedAt(log, i)
  }

  /** The writer's fields are those of its lines. */
  ghost predicate Follows(w: Writer) {
    && w.log != [] && Numbered(w.log)
    && w.requestId == Starts(w.log, |w.log|) && w.forwardId == Forwards(w.log, |w.log|)
    && (w.forward ==>
          && GeometryAt(w.log, |w.log|) == Geometry(w.offset, w.tokens) && w.nextLayer == Layers(w.log, |w.log|))
  }

  lemma {:induction false} SameLines(log: seq<Line>, more: seq<Line>, n: nat)
    requires n <= |log|
    ensures GeometryAt(log + more, n) == GeometryAt(log, n) && CallsOf(log + more, n) == CallsOf(log, n)
    ensures Starts(log + more, n) == Starts(log, n) && Forwards(log + more, n) == Forwards(log, n)
    ensures Layers(log + more, n) == Layers(log, n)
  {
    if n > 0 {
      SameLines(log, more, n - 1);
      assert (log + more)[n - 1] == log[n - 1];
    }
  }

  lemma EarlierAreNumbered(log: seq<Line>, line: Line)
    requires Numbered(log)
    ensures forall i :: 0 <= i < |log| ==> NumberedAt(log + [line], i)
  {
    forall i | 0 <= i < |log|
      ensures NumberedAt(log + [line], i)
    {
      assert NumberedAt(log, i);
      SameLines(log, [line], i);
      SameLines(log, [line], i + 1);
      assert (log + [line])[i] == log[i];
    }
  }

  lemma WrittenShape(w: Writer, c: Call, size: Line -> nat)
    requires Apply(w, c, size).1 == Written
    ensures Allowed(w, c)
    ensures var entered, w' := Entered(w, c), Apply(w, c, size).0;
      var line := Line(|w.log| + 1, entered.requestId, entered.forwardId, EventFor(w, c));
      && w'.log == w.log + [line] && w' == Settled(entered.(log := w'.log, bytes := w'.bytes), c)
  {
    hide Allowed, EventFor;
  }

  lemma GivesBack(w: Writer, c: Call, g: Geometry)
    requires Allowed(w, c) && (w.forward ==> g == Geometry(w.offset, w.tokens))
    ensures CallOf(g, EventFor(w, c)) == Some(c)
  {
  }

  /** What one more line adds to what the lines tell. */
  lemma LineTells(log: seq<Line>, line: Line)
    ensures var longer := log + [line];
      && longer[|log|] == line
      && GeometryAt(longer, |log|) == GeometryAt(log, |log|) && Layers(longer, |log|) == Layers(log, |log|)
      && Starts(longer, |longer|) == Starts(log, |log|) + (if line.event.RequestBegin? then 1 else 0)
      && Forwards(longer, |longer|) == Forwards(log, |log|) + (if line.event.ForwardBegin? then 1 else 0)
      && GeometryAt(longer, |longer|)
         == (if line.event.ForwardBegin? then Geometry(line.event.offset, |line.event.input|)
             else GeometryAt(log, |log|))
      && Layers(longer, |longer|) == (if line.event.ForwardBegin? then 0
                                      else Layers(log, |log|) + if line.event.Routes? then 1 else 0)
  {
    SameLines(log, [line], |log|);
    assert (log + [line])[|log|] == line;
  }

  /** A written call's line is numbered in sequence and gives the call back. */
  lemma WrittenFollows(w: Writer, c: Call, size: Line -> nat)
    requires Follows(w) && Apply(w, c, size).1 == Written
    ensures var w' := Apply(w, c, size).0;
      && |w'.log| == |w.log| + 1 && w'.log[..|w.log|] == w.log && Follows(w')
      && CallOf(GeometryAt(w.log, |w.log|), w'.log[|w.log|].event) == Some(c)
  {
    WrittenShape(w, c, size);
    GivesBack(w, c, GeometryAt(w.log, |w.log|));
    hide Apply, CallOf, GeometryAt, Layers, Starts, Forwards, Numbered;
    var line := Apply(w, c, size).0.log[|w.log|];
    LineTells(w.log, line);
    EarlierAreNumbered(w.log, line);
    LineIsNumbered(w.log, line);
    assert NumberedAt(w.log + [line], |w.log|);
  }

  lemma LineIsNumbered(log: seq<Line>, line: Line)
    requires forall i :: 0 <= i < |log| ==> NumberedAt(log + [line], i)
    ensures NumberedAt(log + [line], |log|) ==> Numbered(log + [line])
  {
    hide NumberedAt;
  }

  lemma OpenedFollows(size: Line -> nat)
    requires Opened(size).Some?
    ensures var w := Opened(size).value; Follows(w) && CallsOf(w.log, |w.log|) == []
  {
    var log := [Line(1, 0, 0, TraceBegin)];
    assert [] + log == log && Opened(size).value.log == log;
    assert Starts(log, 0) == 0 && Forwards(log, 0) == 0 && CallsOf(log, 0) == [];
  }

  /** While no write fails, the log numbers its lines and gives back exactly the calls that wrote them, in order. */
  lemma {:induction false} LogGivesCallsBack(calls: seq<Call>, n: nat, size: Line -> nat)
    requires Opened(size).Some? && n <= |calls| && NoneFailed(Opened(size).value, calls, n, size)
    ensures var w := Wrote(Opened(size).value, calls, n, size);
      Follows(w) && CallsOf(w.log, |w.log|) == WrittenCalls(Opened(size).value, calls, n, size)
  {
    hide Apply, Follows, GeometryAt, CallOf, Opened;
    var w0 := Opened(size).value;
    if n == 0 {
      OpenedFollows(size);
    } else {
      LogGivesCallsBack(calls, n - 1, size);
      var w, c := Wrote(w0, calls, n - 1, size), calls[n - 1];
      assert Apply(w, c, size).1 != Failed;
      if Apply(w, c, size).1 == Written {
        var w' := Apply(w, c, size).0;
        WrittenFollows(w, c, size);
        assert w'.log == w.log + [w'.log[|w.log|]];
        SameLines(w.log, [w'.log[|w.log|]], |w.log|);
        assert CallsOf(w'.log, |w'.log|) == CallsOf(w.log, |w.log|) + [c];
      } else {
        UnwrittenChangesNothing(w, c, size);
      }
    }
  }

  /** So two such runs with the same log made the same calls. */
  lemma SameLogSameCalls(a: seq<Call>, b: seq<Call>, size: Line -> nat)
    requires Opened(size).Some?
    requires NoneFailed(Opened(size).value, a, |a|, size) && NoneFailed(Opened(size).value, b, |b|, size)
    requires Wrote(Opened(size).value, a, |a|, size).log == Wrote(Opened(size).value, b, |b|, size).log
    ensures WrittenCalls(Opened(size).value, a, |a|, size) == WrittenCalls(Opened(size).value, b, |b|, size)
  {
    LogGivesCallsBack(a, |a|, size);
    LogGivesCallsBack(b, |b|, size);
    hide *;
  }

  // ---------- the limits ----------

  ghost function TotalSize(log: seq<Line>, size: Line -> nat): nat {
    if log == [] then 0 else TotalSize(log[..|log| - 1], size) + size(log[|log| - 1])
  }

  ghost predicate FitsLimits(log: seq<Line>, size: Line -> nat) {
    && |log| <= 20_000 && TotalSize(log, size) <= 16_777_216
    && forall i :: 0 <= i < |log| ==> size(log[i]) <= 65_536
  }

  /** The writer has counted the bytes of its lines. */
  ghost predicate Weighed(w: Writer, size: Line -> nat) {
    w.bytes == TotalSize(w.log, size) && FitsLimits(w.log, size)
  }

  lemma OneMoreFits(log: seq<Line>, line: Line, size: Line -> nat)
    requires FitsLimits(log, size)
    ensures TotalSize(log + [line], size) == TotalSize(log, size) + size(line)
    ensures FitsLimits(log + [line], size) <==>
      |log| < 20_000 && size(line) <= 65_536 && TotalSize(log, size) + size(line) <= 16_777_216
  {
    assert (log + [line])[..|log|] == log;
    assert forall i :: 0 <= i < |log| ==> (log + [line])[i] == log[i];
    assert (log + [line])[|log|] == line;
  }

  lemma EmitShape(w: Writer, c: Call, size: Line -> nat)
    ensures var line := Line(|w.log| + 1, Entered(w, c).requestId, Entered(w, c).forwardId, EventFor(w, c));
      var (w', outcome) := Apply(w, c, size);
      if !Allowed(w, c) then w' == w && outcome != Failed
      else if |w.log| >= 20_000 || size(line) > 65_536 || w.bytes + size(line) > 16_777_216 then
        outcome == Failed && w'.log == w.log && w'.bytes == w.bytes
      else outcome == Written && w'.log == w.log + [line] && w'.bytes == w.bytes + size(line)
  {
    hide Allowed, EventFor;
  }

  /** A call that is allowed fails exactly when its line would break a limit, and otherwise the limits are kept. */
  lemma FailsIffOverLimit(w: Writer, c: Call, size: Line -> nat)
    requires Weighed(w, size)
    ensures var line := Line(|w.log| + 1, Entered(w, c).requestId, Entered(w, c).forwardId, EventFor(w, c));
      Apply(w, c, size).1 == Failed <==> Allowed(w, c) && !FitsLimits(w.log + [line], size)
    ensures Weighed(Apply(w, c, size).0, size)
  {
    hide Allowed, EventFor, Entered, Apply, FitsLimits, TotalSize;
    EmitShape(w, c, size);
    OneMoreFits(w.log, Line(|w.log| + 1, Entered(w, c).requestId, Entered(w, c).forwardId, EventFor(w, c)), size);
  }

  /** So no run, failed writes included, ever exceeds the limits. */
  lemma {:induction false} RunFitsLimits(calls: seq<Call>, n: nat, size: Line -> nat)
    requires Opened(size).Some? && n <= |calls|
    ensures Weighed(Wrote(Opened(size).value, calls, n, size), size)
  {
    hide Apply, Weighed;
    if n == 0 {
      OpenedFits(size);
    } else {
      RunFitsLimits(calls, n - 1, size);
      FailsIffOverLimit(Wrote(Opened(size).value, calls, n - 1, size), calls[n - 1], size);
    }
  }

  lemma OpenedFits(size: Line -> nat)
    requires Opened(size).Some?
    ensures Weighed(Opened(size).value, size)
  {
    var log := [Line(1, 0, 0, TraceBegin)];
    assert [] + log == log && log[..0] == [];
  }
}
