/** What the capture writer's logs look like, and exactly when the reader accepts them. */
module RouteLogs {
  import opened Common
  import opened RouteTrace
  import opened RouteReader

  // ---------- runs ----------

  ghost function Wrote(w: Writer, calls: seq<Call>, n: nat, size: Line -> nat): Writer
    requires n <= |calls|
  {
    if n == 0 then w else Apply(Wrote(w, calls, n - 1, size), calls[n - 1], size).0
  }

  ghost predicate NoneFailed(w: Writer, calls: seq<Call>, n: nat, size: Line -> nat)
    requires n <= |calls|
  {
    forall i :: 0 <= i < n ==> Apply(Wrote(w, calls, i, size), calls[i], size).1 != Failed
  }

  lemma LogOnlyGrows(w: Writer, c: Call, size: Line -> nat)
    ensures var log := Apply(w, c, size).0.log; |w.log| <= |log| && log[..|w.log|] == w.log
  {
  }

  lemma UnwrittenChangesNothing(w: Writer, c: Call, size: Line -> nat)
    requires Apply(w, c, size).1 == Refused || Apply(w, c, size).1 == Ignored
    ensures Apply(w, c, size).0 == w
  {
  }

  lemma FailureWritesNothing(w: Writer, c: Call, size: Line -> nat)
    requires Apply(w, c, size).1 == Failed
    ensures Apply(w, c, size).0.log == w.log && Apply(w, c, size).0.terminal == w.terminal
  {
  }

  // ---------- writer and reader in step ----------

  ghost predicate Agree(w: Writer, r: Reading) {
    && r.lines == |w.log| > 0
    && r.request.Some? == w.request && r.requestId == w.requestId && r.forwardId == w.forwardId
    && r.forward.Some? == w.forward
    && (w.forward ==>
          && r.forward.value.offset == w.offset && |r.forward.value.input| == w.tokens
          && r.forward.value.layers == w.nextLayer)
    && r.ended == (if w.terminal then Some(true) else None)
    && (w.forward ==> w.request && w.nextLayer <= LAYERS)
    && (w.terminal ==> !w.request)
  }

  /**
   * What the reader asks of a call and the writer does not: token ranges, the request's result, a forward that
   * continues its session, ten distinct experts a token, and no reset inside a forward or after the end.
   */
  ghost predicate Orderly(r: Reading, c: Call) {
    match c
    case StartRequest(_, prompt, maxTokens, _) => prompt != [] && Tokens(prompt) && maxTokens >= 1
    case EndRequest(output, reason, reused) =>
      r.request.Some? ==>
        && !r.request.value.aborted
        && Stops(r.request.value, output, reason) && Continues(r, r.request.value, output, reused)
    case Begin(session, from, input, phase, slots) =>
      Tokens(input) && phase != "" && slots >= 1 && from == |Committed(r, session)|
    case Route(_, _, width, selected) => TopRoutes(selected, width)
    case Reset => r.forward.None? && r.ended.None?
    case _ => true
  }

  /** The line of an orderly call is followed and both sides still agree; a disorderly one is not followed. */
  lemma StepAgrees(w: Writer, r: Reading, c: Call, size: Line -> nat)
    requires Agree(w, r) && Apply(w, c, size).1 == Written
    ensures var w' := Apply(w, c, size).0;
      && |w'.log| == |w.log| + 1 && w'.log[..|w.log|] == w.log
      && var next := FollowLine(r, w'.log[|w.log|]);
         && (next.Some? <==> Orderly(r, c))
         && (next.Some? ==> Agree(w', next.value))
  {
    hide Tokens, Stops, Continues, Committed, TopRoutes, Sizes;
  }

  ghost function ReadingOf(w: Writer): Option<Reading> {
    ReadLog(w.log, |w.log|)
  }

  /** Whether call `i` of a run writes only what the reader accepts. */
  ghost predicate OrderlyAt(w: Writer, calls: seq<Call>, i: nat, size: Line -> nat)
    requires i < |calls|
  {
    var before := Wrote(w, calls, i, size);
    Apply(before, calls[i], size).1 == Written && ReadingOf(before).Some? ==> Orderly(ReadingOf(before).value, calls[i])
  }

  lemma OpenedAgrees(size: Line -> nat)
    requires Opened(size).Some?
    ensures var w := Opened(size).value; ReadingOf(w).Some? && Agree(w, ReadingOf(w).value)
  {
    assert [] + [Line(1, 0, 0, TraceBegin)] == [Line(1, 0, 0, TraceBegin)];
    var log := [Line(1, 0, 0, TraceBegin)];
    assert ReadLog(log, 0) == Some(UNREAD);
  }

  lemma StepReads(w: Writer, c: Call, size: Line -> nat)
    requires ReadingOf(w).Some? && Agree(w, ReadingOf(w).value) && Apply(w, c, size).1 != Failed
    ensures var w' := Apply(w, c, size).0;
      && (ReadingOf(w').Some? <==> (Apply(w, c, size).1 == Written ==> Orderly(ReadingOf(w).value, c)))
      && (ReadingOf(w').Some? ==> Agree(w', ReadingOf(w').value))
  {
    hide FollowLine, Agree, Orderly, Apply;
    var w' := Apply(w, c, size).0;
    if Apply(w, c, size).1 == Written {
      StepAgrees(w, ReadingOf(w).value, c, size);
      assert w'.log[..|w.log|] == w.log[..|w.log|];
      ReadPrefix(w.log, w'.log, |w.log|);
    } else {
      UnwrittenChangesNothing(w, c, size);
    }
  }

  /** The reader accepts a run's log exactly when every call that wrote a line was orderly. */
  lemma {:induction false} RunReadsIffOrderly(calls: seq<Call>, n: nat, size: Line -> nat)
    requires Opened(size).Some? && n <= |calls| && NoneFailed(Opened(size).value, calls, n, size)
    ensures var w := Wrote(Opened(size).value, calls, n, size);
      && (ReadingOf(w).Some? <==> forall i :: 0 <= i < n ==> OrderlyAt(Opened(size).value, calls, i, size))
      && (ReadingOf(w).Some? ==> Agree(w, ReadingOf(w).value))
  {
    hide Agree, Apply, ReadLog, Orderly, Opened;
    var w0 := Opened(size).value;
    if n == 0 {
      OpenedAgrees(size);
    } else {
      RunReadsIffOrderly(calls, n - 1, size);
      var w := Wrote(w0, calls, n - 1, size);
      var c := calls[n - 1];
      assert Apply(w, c, size).1 != Failed;
      assert OrderlyAt(w0, calls, n - 1, size)
        == (Apply(w, c, size).1 == Written && ReadingOf(w).Some? ==> Orderly(ReadingOf(w).value, c));
      if ReadingOf(w).Some? {
        StepReads(w, c, size);
      } else {
        var w' := Apply(w, c, size).0;
        LogOnlyGrows(w, c, size);
        assert w'.log[..|w.log|] == w.log[..|w.log|];
        ReadPrefix(w.log, w'.log, |w.log|);
        ReadStaysNone(w'.log, |w.log|, |w'.log|);
      }
    }
  }

  /** Destroying an unfinished trace closes it as incomplete, wherever the run stands. */
  lemma DestroyReads(w: Writer, size: Line -> nat)
    requires ReadingOf(w).Some? && Agree(w, ReadingOf(w).value)
    ensures ReadingOf(Closed(w, size)).Some?
    ensures w.terminal ==> ReadingOf(Closed(w, size)).value.ended == Some(true)
    ensures !w.terminal ==> ReadingOf(Closed(w, size)).value.ended != Some(true)
  {
    var w' := Closed(w, size);
    if w' != w {
      ReadNext(w.log, w'.log[|w.log|]);
      hide ReadLog;
    }
  }

  // ---------- runs the reader rejects ----------

  function OneByte(line: Line): nat {
    1
  }

  const START := StartRequest("r", [7], 1, false)
  const FORWARD := Begin(1, 0, [7], "decode", 32)
  const ANSWER := EndRequest([248044], "stop", 0)

  /** Every call is accepted and written, and the reader refuses the log. */
  ghost predicate IsRejected(calls: seq<Call>) {
    var w := Opened(OneByte);
    && w.Some?
    && (forall i :: 0 <= i < |calls| ==> Apply(Wrote(w.value, calls, i, OneByte), calls[i], OneByte).1 == Written)
    && ReadingOf(Wrote(w.value, calls, |calls|, OneByte)).None?
  }

  lemma StepReading(w: Writer, c: Call)
    requires ReadingOf(w).Some? && Apply(w, c, OneByte).1 == Written
    ensures var w' := Apply(w, c, OneByte).0;
      |w'.log| == |w.log| + 1 && ReadingOf(w') == FollowLine(ReadingOf(w).value, w'.log[|w.log|])
  {
    var w' := Apply(w, c, OneByte).0;
    assert w'.log == w.log + [w'.log[|w.log|]];
    ReadNext(w.log, w'.log[|w.log|]);
    hide ReadLog;
  }

  lemma OpenedReads()
    ensures Opened(OneByte) == Some(Writer(false, false, false, 0, 0, 0, 0, 0, 1, [Line(1, 0, 0, TraceBegin)]))
    ensures ReadingOf(Opened(OneByte).value) == Some(UNREAD.(lines := 1))
  {
    assert [] + [Line(1, 0, 0, TraceBegin)] == [Line(1, 0, 0, TraceBegin)];
    assert ReadLog([Line(1, 0, 0, TraceBegin)], 0) == Some(UNREAD);
  }

  /** A request opened, and a forward opened in it. */
  lemma StartedReads() returns (w: Writer)
    ensures Opened(OneByte).Some? && w == Apply(Opened(OneByte).value, START, OneByte).0
    ensures Apply(Opened(OneByte).value, START, OneByte).1 == Written
    ensures w.request && !w.forward && !w.terminal && |w.log| == 2 && w.bytes == 2
    ensures w.requestId == 1 && w.forwardId == 0
    ensures ReadingOf(w) == Some(Reading(2, Some(Pending([7], 1, false, map[], false)), None, 1, 0, None, map[], None))
  {
    OpenedReads();
    var w0 := Opened(OneByte).value;
    StepReading(w0, START);
    w := Apply(w0, START, OneByte).0;
    assert Sizes(map[]) == map[];
    hide ReadLog;
  }

  lemma ForwardReads() returns (w: Writer, w': Writer)
    ensures Opened(OneByte).Some? && w == Apply(Opened(OneByte).value, START, OneByte).0
    ensures Apply(Opened(OneByte).value, START, OneByte).1 == Written
    ensures w' == Apply(w, FORWARD, OneByte).0 && Apply(w, FORWARD, OneByte).1 == Written
    ensures w'.request && w'.forward && !w'.terminal && w'.nextLayer == 0 && |w'.log| == 3 && w'.bytes == 3
    ensures w'.requestId == 1 && w'.forwardId == 1
    ensures ReadingOf(w') == Some(Reading(3, Some(Pending([7], 1, false, map[], false)), Some(Open(1, 0, [7], 0)),
                                          1, 1, None, map[], None))
  {
    w := StartedReads();
    StepReading(w, FORWARD);
    w' := Apply(w, FORWARD, OneByte).0;
    hide ReadLog;
  }

  lemma TwoCalls(w: Writer, a: Call, b: Call)
    ensures Wrote(w, [a, b], 1, OneByte) == Apply(w, a, OneByte).0
    ensures Wrote(w, [a, b], 2, OneByte) == Apply(Apply(w, a, OneByte).0, b, OneByte).0
  {
    assert Wrote(w, [a, b], 0, OneByte) == w;
  }

  lemma ThreeCalls(w: Writer, a: Call, b: Call, c: Call)
    ensures Wrote(w, [a, b, c], 1, OneByte) == Apply(w, a, OneByte).0
    ensures Wrote(w, [a, b, c], 2, OneByte) == Apply(Apply(w, a, OneByte).0, b, OneByte).0
    ensures Wrote(w, [a, b, c], 3, OneByte) == Apply(Apply(Apply(w, a, OneByte).0, b, OneByte).0, c, OneByte).0
  {
    assert Wrote(w, [a, b, c], 0, OneByte) == w;
  }

  lemma FourCalls(w: Writer, a: Call, b: Call, c: Call, d: Call)
    ensures Wrote(w, [a, b, c, d], 1, OneByte) == Apply(w, a, OneByte).0
    ensures Wrote(w, [a, b, c, d], 2, OneByte) == Apply(Apply(w, a, OneByte).0, b, OneByte).0
    ensures Wrote(w, [a, b, c, d], 3, OneByte) == Apply(Apply(Apply(w, a, OneByte).0, b, OneByte).0, c, OneByte).0
    ensures Wrote(w, [a, b, c, d], 4, OneByte)
         == Apply(Apply(Apply(Apply(w, a, OneByte).0, b, OneByte).0, c, OneByte).0, d, OneByte).0
  {
    assert Wrote(w, [a, b, c, d], 0, OneByte) == w;
  }

  lemma ResetInForwardIsRejected()
    ensures IsRejected([START, FORWARD, Reset])
  {
    var w1, w2 := ForwardReads();
    StepReading(w2, Reset);
    ThreeCalls(Opened(OneByte).value, START, FORWARD, Reset);
    hide ReadLog, Wrote, Opened;
  }

  lemma ResetAfterEndIsRejected()
    ensures IsRejected([Finish, Reset])
  {
    OpenedReads();
    var w0 := Opened(OneByte).value;
    StepReading(w0, Finish);
    StepReading(Apply(w0, Finish, OneByte).0, Reset);
    TwoCalls(w0, Finish, Reset);
    hide ReadLog, Wrote, Opened;
  }

  lemma EndAfterAbortIsRejected()
    ensures IsRejected([START, FORWARD, Abort, ANSWER])
  {
    var w1, w2 := ForwardReads();
    StepReading(w2, Abort);
    StepReading(Apply(w2, Abort, OneByte).0, ANSWER);
    FourCalls(Opened(OneByte).value, START, FORWARD, Abort, ANSWER);
    hide ReadLog, Wrote, Opened;
  }

  /** A forward that does not continue its session, one without expert slots, and one without a phase. */
  lemma BadForwardIsRejected(session: nat, from: nat, phase: string, slots: nat)
    requires session != 0 && from < 8192 && (from != 0 || phase == "" || slots == 0)
    ensures IsRejected([START, Begin(session, from, [7], phase, slots)])
  {
    var w1 := StartedReads();
    var bad := Begin(session, from, [7], phase, slots);
    StepReading(w1, bad);
    TwoCalls(Opened(OneByte).value, START, bad);
    hide ReadLog, Wrote, Opened;
  }

  /** A request that asks for no tokens, or whose prompt is empty. */
  lemma BadRequestIsRejected(prompt: seq<int>, maxTokens: int)
    requires prompt == [] || maxTokens < 1
    ensures IsRejected([StartRequest("r", prompt, maxTokens, false)])
  {
    OpenedReads();
    var w0 := Opened(OneByte).value;
    var bad := StartRequest("r", prompt, maxTokens, false);
    StepReading(w0, bad);
    assert Wrote(w0, [bad], 0, OneByte) == w0;
    assert Wrote(w0, [bad], 1, OneByte) == Apply(w0, bad, OneByte).0;
    hide ReadLog, Wrote, Opened;
  }

  /** A layer whose token selects one expert twice. */
  lemma RepeatedExpertIsRejected()
    ensures IsRejected([START, FORWARD, Route(0, 0, 1, [3, 3, 3, 3, 3, 3, 3, 3, 3, 3])])
  {
    var w1, w2 := ForwardReads();
    var selected := [3, 3, 3, 3, 3, 3, 3, 3, 3, 3];
    var bad := Route(0, 0, 1, selected);
    OnlyThree(selected);
    StepReading(w2, bad);
    ThreeCalls(Opened(OneByte).value, START, FORWARD, bad);
    hide ReadLog, Wrote, Opened, TopRoutes;
  }

  lemma OnlyThree(selected: seq<int>)
    requires |selected| == TOP_K && forall i :: 0 <= i < TOP_K ==> selected[i] == 3
    ensures !TopRoutes(selected, 1)
  {
    assert selected[0 * TOP_K..1 * TOP_K] == selected;
    OneValueOnce(selected, 3);
  }

  lemma {:induction false} OneValueOnce(s: seq<int>, x: int)
    requires forall i :: 0 <= i < |s| ==> s[i] == x
    ensures Ascending(s) == if s == [] then [] else [x]
  {
    if s != [] {
      OneValueOnce(s[..|s| - 1], x);
    }
  }

  /** A request that ends although no forward was committed for it. */
  lemma AnswerWithoutForwardIsRejected()
    ensures IsRejected([START, ANSWER])
  {
    var w1 := StartedReads();
    StepReading(w1, ANSWER);
    TwoCalls(Opened(OneByte).value, START, ANSWER);
    hide ReadLog, Wrote, Opened;
  }
}
