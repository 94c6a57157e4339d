/** From calls to summary: what the reader says of a run, told by the calls that were made. */
module ProgressRuns {
  import opened Common
  import opened ProgressReader
  import opened ProgressWriter
  import opened ProgressLogs

  // ---------- the calls that wrote a line ----------

  ghost function Flushes(o: Opening, calls: seq<Timed>, n: nat, codec: Codec): seq<Timed>
    requires n <= |calls|
  {
    if n == 0 then []
    else
      Flushes(o, calls, n - 1, codec) + if OutcomeAt(o, calls, n - 1, codec) == Flushed then [calls[n - 1]] else []
  }

  /** The last `Begin` among the first `k` calls. */
  ghost function LastBegin(made: seq<Timed>, k: nat): (i: Option<nat>)
    requires k <= |made|
    ensures i.Some? ==> i.value < k && made[i.value].call.Begin?
  {
    if k == 0 then None else if made[k - 1].call.Begin? then Some(k - 1) else LastBegin(made, k - 1)
  }

  /** A phase has begun and not ended. */
  ghost predicate IsOpen(made: seq<Timed>, k: nat)
    requires k <= |made|
  {
    k > 0 && (made[k - 1].call.Begin? || (!made[k - 1].call.End? && IsOpen(made, k - 1)))
  }

  ghost function PhaseAt(made: seq<Timed>, k: nat): string
    requires k <= |made|
  {
    if LastBegin(made, k).Some? then made[LastBegin(made, k).value].call.phase else ""
  }

  ghost function StartAt(o: Opening, made: seq<Timed>, k: nat): nat
    requires k <= |made|
  {
    if LastBegin(made, k).Some? then made[LastBegin(made, k).value].call.started else o.origin
  }

  /** The value call `i` gives a detail: its own, or at the end whether a phase is open and the error, cut short. */
  ghost predicate Gives(made: seq<Timed>, i: nat, name: string, value: Detail)
    requires i < |made|
  {
    match made[i].call
    case Begin(_, details, _) => name in details && details[name] == value
    case Update(details) => name in details && details[name] == value
    case End(details) => name in details && details[name] == value
    case Finish(_, error) =>
      || (name == "phase_incomplete" && value == Flag(IsOpen(made, i)))
      || (name == "error" && value.Text? && value.text <= error
          && (|value.text| == 1024 || (value.text == error && |error| < 1024)))
  }

  /** The line of call `i`: its number, its clock, how long the log and the phase have run, and what the call gave. */
  ghost predicate RowTells(o: Opening, made: seq<Timed>, i: nat, row: Row)
    requires i < |made|
  {
    && row.kind == o.kind && row.sequence == i + 1 && row.identity == o.identity
    && row.monotonic == made[i].now && row.elapsed == made[i].now - o.origin
    && row.phase == PhaseAt(made, i + 1) && row.phaseElapsed == made[i].now - StartAt(o, made, i + 1)
    && row.event == (match made[i].call
                     case Begin(_, _, _) => "begin"
                     case Update(_) => "progress"
                     case End(_) => "end"
                     case Finish(status, _) => status)
    && forall name, value :: Gives(made, i, name, value) <==> name in row.details && row.details[name] == value
  }

  ghost predicate RowsTell(o: Opening, made: seq<Timed>, rows: seq<Row>) {
    |rows| == |made| && forall i :: 0 <= i < |made| ==> RowTells(o, made, i, rows[i])
  }

  // ---------- the writer remembers them ----------

  /** As long as no line was lost, the writer's fields are those of the calls that wrote one. */
  ghost predicate Remembers(o: Opening, made: seq<Timed>, w: Writer) {
    && w.identity == o.identity && w.kind == o.kind && w.started == o.origin
    && w.sequence == |made| && w.active == IsOpen(made, |made|)
    && w.phase == PhaseAt(made, |made|) && w.phaseStarted == StartAt(o, made, |made|)
  }

  lemma {:induction false} PrefixTells(o: Opening, made: seq<Timed>, more: seq<Timed>, k: nat)
    requires k <= |made|
    ensures LastBegin(made + more, k) == LastBegin(made, k) && IsOpen(made + more, k) == IsOpen(made, k)
    ensures PhaseAt(made + more, k) == PhaseAt(made, k) && StartAt(o, made + more, k) == StartAt(o, made, k)
  {
    if k > 0 {
      PrefixTells(o, made, more, k - 1);
      assert (made + more)[k - 1] == made[k - 1];
    }
    if LastBegin(made, k).Some? {
      assert (made + more)[LastBegin(made, k).value] == made[LastBegin(made, k).value];
    }
  }

  lemma EarlierRowsTell(o: Opening, made: seq<Timed>, c: Timed, i: nat, row: Row)
    requires i < |made| && RowTells(o, made, i, row)
    ensures RowTells(o, made + [c], i, row)
  {
    PrefixTells(o, made, [c], i);
    PrefixTells(o, made, [c], i + 1);
    assert (made + [c])[i] == made[i];
    hide LastBegin, IsOpen, PhaseAt, StartAt;
    assert forall name, value :: Gives(made + [c], i, name, value) == Gives(made, i, name, value);
  }

  /** Where the phase stands after one more call. */
  lemma CallTells(o: Opening, made: seq<Timed>, c: Timed)
    ensures var longer := made + [c];
      && IsOpen(longer, |longer|) == (c.call.Begin? || (!c.call.End? && IsOpen(made, |made|)))
      && PhaseAt(longer, |longer|) == (if c.call.Begin? then c.call.phase else PhaseAt(made, |made|))
      && StartAt(o, longer, |longer|) == (if c.call.Begin? then c.call.started else StartAt(o, made, |made|))
  {
    PrefixTells(o, made, [c], |made|);
    var longer := made + [c];
    assert longer[|made|] == c;
    if LastBegin(made, |made|).Some? {
      assert longer[LastBegin(made, |made|).value] == made[LastBegin(made, |made|).value];
    }
  }

  /** A flushed call's row tells it, and the writer remembers the call. */
  lemma FlushTells(o: Opening, made: seq<Timed>, w: Writer, c: Timed, codec: Codec)
    requires Remembers(o, made, w) && Apply(w, c.call, c.now, codec).1 == Flushed
    ensures Remembers(o, made + [c], Apply(w, c.call, c.now, codec).0)
    ensures RowTells(o, made + [c], |made|, RowFor(Entered(w, c.call), c.call, c.now))
  {
    CallTells(o, made, c);
    PrefixTells(o, made, [c], |made|);
    FlushedShape(w, c.call, c.now, codec);
    assert (made + [c])[|made|] == c;
    hide LastBegin, IsOpen, PhaseAt, StartAt, Apply, Prefix;
    GivesDetails(made + [c], |made|, Entered(w, c.call));
  }

  lemma GivesDetails(made: seq<Timed>, i: nat, w: Writer)
    requires i < |made| && (made[i].call.Finish? ==> w.active == IsOpen(made, i))
    ensures forall name, value ::
              Gives(made, i, name, value) <==>
                name in DetailsOf(w, made[i].call) && DetailsOf(w, made[i].call)[name] == value
  {
    hide IsOpen;
    if made[i].call.Finish? {
      PrefixIs(made[i].call.error);
    }
  }

  lemma PrefixIs(error: string)
    ensures var text := Prefix(error, 1024);
      text <= error && (|text| == 1024 || (text == error && |error| < 1024))
    ensures forall text: string ::
              text <= error && (|text| == 1024 || (text == error && |error| < 1024)) ==> text == Prefix(error, 1024)
  {
  }

  /** Every row of a run whose lines the reader wants was written for the call at its place, and tells it. */
  lemma {:induction false} RunTells(o: Opening, calls: seq<Timed>, n: nat, codec: Codec, build: Option<string>)
    requires n <= |calls| && AllFlushWell(o, calls, n, codec, build)
    ensures var w := Wrote(o, calls, n, codec);
      var made := Flushes(o, calls, n, codec);
      RowsTell(o, made, w.rows) && (Unbroken(o, calls, n, codec) ==> Remembers(o, made, w))
  {
    hide Apply, RowTells, Remembers, FlushesWell;
    if n == 0 {
      StartRemembers(o);
    } else {
      UnbrokenNext(o, calls, n - 1, codec, build);
      RunTells(o, calls, n - 1, codec, build);
      WroteNext(o, calls, n - 1, codec);
      var w, c := Wrote(o, calls, n - 1, codec), calls[n - 1];
      var made := Flushes(o, calls, n - 1, codec);
      if OutcomeAt(o, calls, n - 1, codec) == Flushed {
        FlushIsUnbroken(o, calls, n - 1, codec, build);
        FlushTells(o, made, w, c, codec);
        RowsGrow(w, c.call, c.now, codec);
        forall i | 0 <= i < |made|
          ensures RowTells(o, made + [c], i, w.rows[i])
        {
          EarlierRowsTell(o, made, c, i, w.rows[i]);
        }
      } else {
        OutcomeCounts(w, c.call, c.now, codec);
        assert made + [] == made;
      }
    }
  }

  lemma FlushIsUnbroken(o: Opening, calls: seq<Timed>, i: nat, codec: Codec, build: Option<string>)
    requires i < |calls| && FlushesWell(o, calls, i, codec, build) && OutcomeAt(o, calls, i, codec) == Flushed
    ensures Unbroken(o, calls, i, codec)
  {
  }

  lemma RowsGrow(w: Writer, c: Call, now: nat, codec: Codec)
    requires Apply(w, c, now, codec).1 == Flushed
    ensures Apply(w, c, now, codec).0.rows == w.rows + [RowFor(Entered(w, c), c, now)]
  {
    FlushedShape(w, c, now, codec);
    hide Apply, RowFor;
  }

  lemma StartRemembers(o: Opening)
    ensures Remembers(o, [], Opened(o)) && RowsTell(o, [], Opened(o).rows)
  {
  }

  // ---------- what the reader says of the run ----------

  /** Phases begin one at a time, and are updated and ended while open. */
  ghost predicate OrderedAt(made: seq<Timed>, i: nat)
    requires i < |made|
  {
    match made[i].call
    case Begin(_, _, _) => !IsOpen(made, i)
    case Update(_) => IsOpen(made, i)
    case End(_) => IsOpen(made, i)
    case Finish(status, _) => IsTerminal(status)
  }

  lemma {:induction false} RunIsOrdered(o: Opening, calls: seq<Timed>, n: nat, codec: Codec, build: Option<string>)
    requires n <= |calls| && AllFlushWell(o, calls, n, codec, build)
    ensures var made := Flushes(o, calls, n, codec);
      forall i :: 0 <= i < |made| ==> OrderedAt(made, i)
  {
    hide Apply, Remembers, FlushesWell, RowsTell, OrderedAt;
    if n > 0 {
      UnbrokenNext(o, calls, n - 1, codec, build);
      RunIsOrdered(o, calls, n - 1, codec, build);
      RunTells(o, calls, n - 1, codec, build);
      var w, c := Wrote(o, calls, n - 1, codec), calls[n - 1];
      var made := Flushes(o, calls, n - 1, codec);
      if OutcomeAt(o, calls, n - 1, codec) == Flushed {
        FlushIsUnbroken(o, calls, n - 1, codec, build);
        forall i | 0 <= i <= |made|
          ensures OrderedAt(made + [c], i)
        {
          if i < |made| {
            EarlierIsOrdered(o, made, c, i);
          } else {
            FlushIsOrdered(o, made, w, c, codec);
          }
        }
      } else {
        assert made + [] == made;
      }
    }
  }

  lemma EarlierIsOrdered(o: Opening, made: seq<Timed>, c: Timed, i: nat)
    requires i < |made| && OrderedAt(made, i)
    ensures OrderedAt(made + [c], i)
  {
    PrefixTells(o, made, [c], i);
    assert (made + [c])[i] == made[i];
    hide IsOpen, LastBegin;
  }

  lemma FlushIsOrdered(o: Opening, made: seq<Timed>, w: Writer, c: Timed, codec: Codec)
    requires Remembers(o, made, w) && Apply(w, c.call, c.now, codec).1 == Flushed
    ensures OrderedAt(made + [c], |made|)
  {
    FlushedShape(w, c.call, c.now, codec);
    PrefixTells(o, made, [c], |made|);
    assert (made + [c])[|made|] == c;
    hide IsOpen, LastBegin, Apply;
  }

  /** From the begin to the end of each occurrence of a phase that ended. */
  ghost function TimeIn(o: Opening, made: seq<Timed>, k: nat, phase: string): int
    requires k <= |made|
  {
    if k == 0 then 0
    else
      TimeIn(o, made, k - 1, phase)
      + if made[k - 1].call.End? && PhaseAt(made, k) == phase then made[k - 1].now - StartAt(o, made, k) else 0
  }

  ghost predicate EndedBy(made: seq<Timed>, k: nat, phase: string)
    requires k <= |made|
  {
    exists i :: 0 <= i < k && made[i].call.End? && PhaseAt(made, i + 1) == phase
  }

  /** The value given last since the last phase began. */
  ghost predicate GivenLast(made: seq<Timed>, k: nat, name: string, value: Detail)
    requires k <= |made|
  {
    && k > 0
    && (Gives(made, k - 1, name, value)
        || (!made[k - 1].call.Begin? && Silent(made, k - 1, name) && GivenLast(made, k - 1, name, value)))
  }

  ghost predicate Silent(made: seq<Timed>, i: nat, name: string)
    requires i < |made|
  {
    forall value :: !Gives(made, i, name, value)
  }

  /** The summary of a log cut after `k` lines, in terms of the calls that wrote them. */
  ghost predicate Recounts(o: Opening, made: seq<Timed>, k: nat, partial: bool, summary: Summary)
    requires k <= |made|
  {
    && summary.events == k && summary.available == (k > 0) && summary.partialIgnored == partial
    && summary.status == (if k > 0 && made[k - 1].call.Finish? then made[k - 1].call.status else "unfinished")
    && summary.complete == (k > 0 && made[k - 1].call.Finish? && made[k - 1].call.status == "complete")
    && summary.unfinishedPhase == (if IsOpen(made, k) then Some(PhaseAt(made, k)) else None)
    && summary.unfinishedElapsed == (if IsOpen(made, k) then Some(made[k - 1].now - StartAt(o, made, k)) else None)
    && (if k == 0 then summary.identity == None && summary.lastPhase == None && summary.lastElapsed == None
        else
          && summary.identity == Some(o.identity) && summary.lastPhase == Some(PhaseAt(made, k))
          && summary.lastElapsed == Some(made[k - 1].now - o.origin))
    && AreTimes(summary.completed, o, made, k) && AreGiven(summary.details, made, k)
  }

  ghost predicate AreTimes(durations: map<string, int>, o: Opening, made: seq<Timed>, k: nat)
    requires k <= |made|
  {
    && (forall p :: p in durations <==> EndedBy(made, k, p))
    && (forall p :: p in durations ==> durations[p] == TimeIn(o, made, k, p))
  }

  ghost predicate AreGiven(details: Details, made: seq<Timed>, k: nat)
    requires k <= |made|
  {
    forall name, value :: GivenLast(made, k, name, value) <==> name in details && details[name] == value
  }

  lemma {:induction false} SpentIsTimeIn(o: Opening, made: seq<Timed>, rows: seq<Row>, k: nat)
    requires RowsTell(o, made, rows) && k <= |made| && forall i :: 0 <= i < |made| ==> OrderedAt(made, i)
    ensures forall p :: p in Ended(rows, k) <==> EndedBy(made, k, p)
    ensures forall p :: Spent(rows, k, p) == TimeIn(o, made, k, p)
  {
    hide OrderedAt, Gives, PhaseAt, StartAt;
    if k > 0 {
      SpentIsTimeIn(o, made, rows, k - 1);
      assert RowTells(o, made, k - 1, rows[k - 1]);
      EventTells(o, made, rows, k - 1);
      forall p
        ensures EndedBy(made, k, p) <==>
          EndedBy(made, k - 1, p) || (made[k - 1].call.End? && PhaseAt(made, k) == p)
      {
      }
    }
  }

  /** Which call wrote a row shows in its event. */
  lemma EventTells(o: Opening, made: seq<Timed>, rows: seq<Row>, i: nat)
    requires RowsTell(o, made, rows) && i < |made| && OrderedAt(made, i)
    ensures RowTells(o, made, i, rows[i])
    ensures rows[i].event == "end" <==> made[i].call.End?
    ensures rows[i].event == "begin" <==> made[i].call.Begin?
    ensures rows[i].event == "progress" <==> made[i].call.Update?
    ensures IsTerminal(rows[i].event) <==> made[i].call.Finish?
  {
    hide Gives, IsOpen, PhaseAt, StartAt;
  }

  lemma OpenShows(o: Opening, made: seq<Timed>, rows: seq<Row>, i: nat)
    requires RowsTell(o, made, rows) && i < |made| && OrderedAt(made, i)
    ensures LeavesOpen(rows[i]) <==> IsOpen(made, i + 1)
  {
    EventTells(o, made, rows, i);
    if made[i].call.Finish? {
      assert Gives(made, i, "phase_incomplete", Flag(true)) <==> IsOpen(made, i);
    }
    hide PhaseAt, StartAt;
  }

  lemma {:induction false} LatestIsGiven(o: Opening, made: seq<Timed>, rows: seq<Row>, k: nat, name: string,
                                         value: Detail)
    requires RowsTell(o, made, rows) && k <= |made| && forall i :: 0 <= i < |made| ==> OrderedAt(made, i)
    ensures GivenLast(made, k, name, value) <==> LatestAt(rows, k, name) == Some(value)
  {
    hide OrderedAt, PhaseAt, StartAt;
    if k > 0 {
      LatestIsGiven(o, made, rows, k - 1, name, value);
      EventTells(o, made, rows, k - 1);
      var row := rows[k - 1];
      if name in row.details {
        assert Gives(made, k - 1, name, row.details[name]);
      }
      hide Gives;
    }
  }

  lemma SpentAreTimes(durations: map<string, int>, o: Opening, made: seq<Timed>, rows: seq<Row>, k: nat)
    requires RowsTell(o, made, rows) && k <= |made| && forall i :: 0 <= i < |made| ==> OrderedAt(made, i)
    requires AreSpent(durations, rows, k)
    ensures AreTimes(durations, o, made, k)
  {
    SpentIsTimeIn(o, made, rows, k);
    hide OrderedAt, RowTells, Spent, Ended, TimeIn, EndedBy;
    assert forall p :: p in durations <==> p in durations.Keys;
  }

  lemma LatestAreGiven(details: Details, o: Opening, made: seq<Timed>, rows: seq<Row>, k: nat)
    requires RowsTell(o, made, rows) && k <= |made| && forall i :: 0 <= i < |made| ==> OrderedAt(made, i)
    requires AreLatest(details, rows, k)
    ensures AreGiven(details, made, k)
  {
    hide OrderedAt, RowTells, LatestAt, GivenLast, RowsTell;
    forall name, value
      ensures GivenLast(made, k, name, value) <==> name in details && details[name] == value
    {
      LatestIsGiven(o, made, rows, k, name, value);
    }
  }

  lemma ClassifiedIsRecounted(o: Opening, made: seq<Timed>, rows: seq<Row>, k: nat, tail: seq<Byte>, summary: Summary)
    requires RowsTell(o, made, rows) && k <= |rows| && forall i :: 0 <= i < |made| ==> OrderedAt(made, i)
    requires Classified(rows, k, tail, summary)
    ensures Recounts(o, made, k, tail != [], summary)
  {
    SpentAreTimes(summary.completed, o, made, rows, k);
    LatestAreGiven(summary.details, o, made, rows, k);
    hide OrderedAt, RowsTell, AreSpent, AreLatest, AreTimes, AreGiven, Gives, IsOpen, PhaseAt, StartAt, Total;
    if k > 0 {
      EventTells(o, made, rows, k - 1);
      OpenShows(o, made, rows, k - 1);
      hide LeavesOpen;
    }
  }

  /**
   * Wherever the log of a readable run is cut, the summary recounts the calls whose whole lines remain: how the run
   * ended, the phase left open and for how long, the time spent in each phase that ended, and the latest details.
   */
  lemma EveryPrefixRecounts(o: Opening, calls: seq<Timed>, codec: Codec, build: Option<string>, cut: seq<Byte>)
    returns (k: nat, tail: seq<Byte>)
    requires Faithful(codec) && Monotone(o.origin, calls) && AllFlushWell(o, calls, |calls|, codec, build)
    requires cut <= Log(Wrote(o, calls, |calls|, codec).rows, codec)
    ensures var made := Flushes(o, calls, |calls|, codec);
      && k <= |made| == |Wrote(o, calls, |calls|, codec).rows| && NEWLINE !in tail
      && cut == Log(Wrote(o, calls, |calls|, codec).rows[..k], codec) + tail
      && Summarized(cut, codec, build).Ok?
      && Recounts(o, made, k, tail != [], Summarized(cut, codec, build).value)
  {
    hide Wrote, Log, Summarized, Recounts, Classified, OrderedAt, AllFlushWell, RowTells;
    k, tail := EveryPrefixIsClassified(o, calls, codec, build, cut);
    RunTells(o, calls, |calls|, codec, build);
    RunIsOrdered(o, calls, |calls|, codec, build);
    ClassifiedIsRecounted(o, Flushes(o, calls, |calls|, codec), Wrote(o, calls, |calls|, codec).rows, k, tail,
                          Summarized(cut, codec, build).value);
  }
}
