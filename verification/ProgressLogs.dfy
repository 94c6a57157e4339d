/** Whatever prefix of a progress log survives, the reader accepts and classifies it. */
module ProgressLogs {
  import opened Common
  import opened Demand
  import opened ProgressReader
  import opened ProgressWriter

  // ---------- splitting what was written ----------

  lemma {:induction false} SplitLine(line: seq<Byte>, more: seq<Byte>)
    requires NEWLINE !in line
    ensures SplitLines(line + [NEWLINE] + more)
         == Split([line] + SplitLines(more).lines, SplitLines(more).rest)
  {
    var raw := line + [NEWLINE] + more;
    if line == [] {
      assert raw[1..] == more;
    } else {
      var tail := line[1..];
      assert line[0] in line;
      assert NEWLINE !in tail;
      assert raw[1..] == tail + [NEWLINE] + more;
      SplitLine(tail, more);
      assert [line[0]] + tail == line;
    }
  }

  lemma {:induction false} SplitPartial(line: seq<Byte>)
    requires NEWLINE !in line
    ensures SplitLines(line) == Split([], line)
  {
    if line != [] {
      assert line[0] in line;
      SplitPartial(line[1..]);
      assert [line[0]] + line[1..] == line;
    }
  }

  ghost function Encoded(rows: seq<Row>, codec: Codec): seq<seq<Byte>> {
    seq(|rows|, i requires 0 <= i < |rows| => codec.encode(rows[i]))
  }

  lemma {:induction false} SplitLog(rows: seq<Row>, codec: Codec, more: seq<Byte>)
    requires Faithful(codec)
    ensures SplitLines(Log(rows, codec) + more)
         == Split(Encoded(rows, codec) + SplitLines(more).lines, SplitLines(more).rest)
  {
    hide Log, Encoded, SplitLines;
    if rows == [] {
      LogOfNothing(rows, codec, more);
    } else {
      var front, last := rows[..|rows| - 1], codec.encode(rows[|rows| - 1]);
      LogLast(rows, codec, more);
      SplitLog(front, codec, last + [NEWLINE] + more);
      SplitLine(last, more);
      var lines := SplitLines(more).lines;
      assert Encoded(front, codec) + ([last] + lines) == Encoded(front, codec) + [last] + lines;
    }
  }

  lemma LogOfNothing(rows: seq<Row>, codec: Codec, more: seq<Byte>)
    requires rows == []
    ensures Log(rows, codec) + more == more && Encoded(rows, codec) + SplitLines(more).lines == SplitLines(more).lines
  {
    assert Encoded(rows, codec) == [];
  }

  lemma LogLast(rows: seq<Row>, codec: Codec, more: seq<Byte>)
    requires rows != []
    ensures var front, last := rows[..|rows| - 1], codec.encode(rows[|rows| - 1]);
      && Log(rows, codec) + more == Log(front, codec) + (last + [NEWLINE] + more)
      && Encoded(rows, codec) == Encoded(front, codec) + [last]
  {
  }

  /** How many whole lines a prefix of the log holds, and what is left of the next. */
  lemma {:induction false} CutLog(rows: seq<Row>, codec: Codec, cut: seq<Byte>) returns (k: nat, tail: seq<Byte>)
    requires Faithful(codec) && cut <= Log(rows, codec)
    ensures k <= |rows| && NEWLINE !in tail
    ensures cut == Log(rows[..k], codec) + tail
    ensures k == |rows| ==> tail == []
  {
    if rows == [] {
      return 0, [];
    }
    var n := |rows| - 1;
    var front, last := rows[..n], codec.encode(rows[n]);
    var before := Log(front, codec);
    if |cut| <= |before| {
      assert cut <= before;
      k, tail := CutLog(front, codec, cut);
      assert front[..k] == rows[..k];
      if k == n {
        assert tail == [];
      }
    } else if |cut| == |Log(rows, codec)| {
      k, tail := |rows|, [];
      assert rows[..k] == rows;
    } else {
      k, tail := n, cut[|before|..];
      assert Log(rows, codec) == before + (last + [NEWLINE]);
      assert tail == last[..|tail|];
    }
  }

  // ---------- reading rows instead of lines ----------

  function ReadRows(rows: seq<Row>, k: nat, build: Option<string>): Result<Reading>
    requires k <= |rows|
  {
    if k == 0 then Ok(NOTHING)
    else
      var before := ReadRows(rows, k - 1, build);
      if before.Err? then Err else ReadRow(before.value, rows[k - 1], build)
  }

  lemma {:induction false} ReadRowsCounts(rows: seq<Row>, k: nat, build: Option<string>)
    requires k <= |rows| && ReadRows(rows, k, build).Ok?
    ensures ReadRows(rows, k, build).value.events == k
  {
    if k > 0 {
      ReadRowsCounts(rows, k - 1, build);
    }
  }

  lemma {:induction false} ReadRowsPrefix(a: seq<Row>, b: seq<Row>, k: nat, build: Option<string>)
    requires k <= |a| && k <= |b| && a[..k] == b[..k]
    ensures ReadRows(a, k, build) == ReadRows(b, k, build)
  {
    hide ReadRow;
    if k > 0 {
      assert a[..k - 1] == a[..k][..k - 1] && b[..k - 1] == b[..k][..k - 1];
      assert a[k - 1] == a[..k][k - 1] == b[k - 1];
      ReadRowsPrefix(a, b, k - 1, build);
    }
  }

  ghost predicate AllFit(rows: seq<Row>, codec: Codec) {
    |rows| <= 10000 && forall i :: 0 <= i < |rows| ==> Fits(rows[i], codec)
  }

  lemma {:induction false} LinesReadAsRows(rows: seq<Row>, k: nat, codec: Codec, build: Option<string>)
    requires Faithful(codec) && AllFit(rows, codec) && k <= |rows|
    ensures ReadLines(Encoded(rows, codec), k, codec, build) == ReadRows(rows, k, build)
  {
    hide ReadRow;
    if k > 0 {
      LinesReadAsRows(rows, k - 1, codec, build);
      if ReadRows(rows, k - 1, build).Ok? {
        ReadRowsCounts(rows, k - 1, build);
        assert Fits(rows[k - 1], codec);
      }
    }
  }

  lemma {:induction false} LogIsSmall(rows: seq<Row>, codec: Codec)
    requires AllFit(rows, codec)
    ensures |Log(rows, codec)| <= 4096 * |rows|
  {
    if rows != [] {
      assert Fits(rows[|rows| - 1], codec);
      LogIsSmall(rows[..|rows| - 1], codec);
    }
  }

  // ---------- runs of the writer ----------

  datatype Timed = Timed(call: Call, now: nat)

  /** Clock readings in the order they are taken, from the moment the log is opened. */
  ghost predicate Monotone(origin: nat, calls: seq<Timed>) {
    forall i :: 0 <= i < |calls| ==>
      var before := if i == 0 then origin else calls[i - 1].now;
      && before <= calls[i].now
      && (calls[i].call.Begin? ==> before <= calls[i].call.started <= calls[i].now)
  }

  ghost function Wrote(o: Opening, calls: seq<Timed>, n: nat, codec: Codec): Writer
    requires n <= |calls|
  {
    if n == 0 then Opened(o)
    else Apply(Wrote(o, calls, n - 1, codec), calls[n - 1].call, calls[n - 1].now, codec).0
  }

  ghost function OutcomeAt(o: Opening, calls: seq<Timed>, i: nat, codec: Codec): Outcome
    requires i < |calls|
  {
    Apply(Wrote(o, calls, i, codec), calls[i].call, calls[i].now, codec).1
  }

  /** A phase is named when it begins, and the log is finished only after one has begun. */
  ghost predicate Named(w: Writer, c: Call) {
    (c.Begin? ==> c.phase != "") && (c.Finish? ==> w.phase != "")
  }

  /** No call before `n` lost its line to a limit. */
  ghost predicate Unbroken(o: Opening, calls: seq<Timed>, n: nat, codec: Codec)
    requires n <= |calls|
  {
    forall j :: 0 <= j < n ==> OutcomeAt(o, calls, j, codec) != Overflow
  }

  ghost predicate Known(identity: Identity, build: Option<string>) {
    build.Some? ==> "build" in identity && identity["build"] == build.value
  }

  /**
   * A call that writes a line writes one the reader wants: the reader's kind and build, a named phase, and no gap in
   * the sequence before it.
   */
  ghost predicate FlushesWell(o: Opening, calls: seq<Timed>, i: nat, codec: Codec, build: Option<string>)
    requires i < |calls|
  {
    OutcomeAt(o, calls, i, codec) == Flushed ==>
      && o.kind == KIND && Known(o.identity, build)
      && Named(Wrote(o, calls, i, codec), calls[i].call) && Unbroken(o, calls, i, codec)
  }

  ghost predicate AllFlushWell(o: Opening, calls: seq<Timed>, n: nat, codec: Codec, build: Option<string>)
    requires n <= |calls|
  {
    forall i :: 0 <= i < n ==> FlushesWell(o, calls, i, codec, build)
  }

  ghost function Total(durations: map<string, int>, phases: set<string>): int
    requires phases <= durations.Keys
    decreases phases
  {
    if phases == {} then 0
    else var p := AnyOf(phases); durations[p] + Total(durations, phases - {p})
  }

  lemma {:induction false} TotalSplit(durations: map<string, int>, phases: set<string>, p: string)
    requires phases <= durations.Keys && p in phases
    ensures Total(durations, phases) == durations[p] + Total(durations, phases - {p})
    decreases phases
  {
    var q := AnyOf(phases);
    if p != q {
      TotalSplit(durations, phases - {q}, p);
      TotalSplit(durations, phases - {p}, q);
      assert phases - {q} - {p} == phases - {p} - {q};
    }
  }

  lemma {:induction false} TotalAgrees(a: map<string, int>, b: map<string, int>, phases: set<string>)
    requires phases <= a.Keys && phases <= b.Keys && forall p :: p in phases ==> a[p] == b[p]
    ensures Total(a, phases) == Total(b, phases)
    decreases phases
  {
    if phases != {} {
      TotalAgrees(a, b, phases - {AnyOf(phases)});
    }
  }

  lemma TotalBump(durations: map<string, int>, p: string, d: int)
    ensures var bumped := durations[p := (if p in durations then durations[p] else 0) + d];
      Total(bumped, bumped.Keys) == Total(durations, durations.Keys) + d
  {
    var bumped := durations[p := (if p in durations then durations[p] else 0) + d];
    var others := durations.Keys - {p};
    TotalSplit(bumped, bumped.Keys, p);
    assert bumped.Keys - {p} == others;
    TotalAgrees(durations, bumped, others);
    if p in durations {
      TotalSplit(durations, durations.Keys, p);
    } else {
      assert durations.Keys == others;
    }
  }

  // ---------- writer and reader in step ----------

  ghost function LastElapsed(rows: seq<Row>, k: nat): int
    requires k <= |rows|
  {
    if k == 0 then 0 else rows[k - 1].elapsed
  }

  /** The reader's state after the writer's rows, at clock reading `clock`. */
  ghost predicate Agree(w: Writer, r: Reading, clock: nat) {
    && r.events == |w.rows| == w.sequence
    && r.active == (if w.active then Some(w.phase) else None)
    && (w.active ==> w.phase != "" && r.phaseStarted == w.phaseStarted - w.started)
    && r.terminal.Some? == w.terminal && w.kind == KIND
    && w.started <= w.phaseStarted <= clock
    && (if w.rows == [] then r.last == None && r.previous == -1 && r.identity == None && w.phase == ""
        else
          var last := w.rows[|w.rows| - 1];
          && r.last == Some(last) && r.previous == last.elapsed && r.identity == Some(w.identity)
          && last.phase == w.phase != "" && last.monotonic - last.elapsed == w.started && 0 <= last.monotonic <= clock)
    && Total(r.durations, r.durations.Keys)
       <= (if w.active then w.phaseStarted - w.started else LastElapsed(w.rows, |w.rows|))
    && (w.active ==> LastElapsed(w.rows, |w.rows|) >= w.phaseStarted - w.started)
  }

  /** The flushed row is accepted, and both sides agree after it, exactly when the call was named. */
  ghost predicate FlushStep(w: Writer, r: Reading, c: Call, now: nat, codec: Codec, build: Option<string>) {
    var w' := Apply(w, c, now, codec).0;
    && |w'.rows| == |w.rows| + 1 && w'.rows[..|w.rows|] == w.rows
    && var next := ReadRow(r, w'.rows[|w.rows|], build);
       && (next.Ok? <==> Named(w, c))
       && (next.Ok? ==> Agree(w', next.value, now))
  }

  lemma FlushedShape(w: Writer, c: Call, now: nat, codec: Codec)
    requires Apply(w, c, now, codec).1 == Flushed
    ensures Allowed(w, c)
    ensures var entered := Entered(w, c);
      var row := RowFor(entered, c, now);
      Apply(w, c, now, codec).0
        == Left(entered.(sequence := entered.sequence + 1, rows := entered.rows + [row]), c)
  {
  }

  /** The clocks and the identity of the next row agree with what the reader has seen. */
  lemma ClocksFit(w: Writer, r: Reading, clock: nat, c: Call, now: nat, build: Option<string>)
    requires Agree(w, r, clock) && clock <= now && (c.Begin? ==> clock <= c.started <= now)
    requires Known(w.identity, build) && Allowed(w, c)
    ensures var row := RowFor(Entered(w, c), c, now);
      ClocksAgree(r, row) && IdentityAgrees(r, row, build) && row.sequence == r.events + 1 && row.kind == KIND
  {
    hide Total, DetailsOf, EventOf;
  }

  /** Its event fits where the reader stands. */
  lemma EventsFit(w: Writer, r: Reading, clock: nat, c: Call, now: nat)
    requires Agree(w, r, clock) && Allowed(w, c) && r.terminal.None?
    ensures EventFits(r, RowFor(Entered(w, c), c, now))
  {
    hide Total, Prefix;
    match c
    case Begin(_, _, _) =>
    case Update(_) =>
    case End(_) =>
    case Finish(_, _) =>
  }

  lemma BeginAgrees(w: Writer, r: Reading, clock: nat, c: Call, now: nat, codec: Codec, build: Option<string>)
    requires Agree(w, r, clock) && clock <= now && (c.Begin? ==> clock <= c.started <= now)
    requires Known(w.identity, build) && Apply(w, c, now, codec).1 == Flushed
    requires c.Begin?
    ensures FlushStep(w, r, c, now, codec, build)
  {
    hide ClocksAgree, IdentityAgrees, EventFits, Apply, DetailsOf, Known;
    FlushedShape(w, c, now, codec);
    ClocksFit(w, r, clock, c, now, build);
    EventsFit(w, r, clock, c, now);
    hide Total;
  }

  lemma UpdateAgrees(w: Writer, r: Reading, clock: nat, c: Call, now: nat, codec: Codec, build: Option<string>)
    requires Agree(w, r, clock) && clock <= now && (c.Begin? ==> clock <= c.started <= now)
    requires Known(w.identity, build) && Apply(w, c, now, codec).1 == Flushed
    requires c.Update?
    ensures FlushStep(w, r, c, now, codec, build)
  {
    hide ClocksAgree, IdentityAgrees, EventFits, Apply, DetailsOf, Known;
    FlushedShape(w, c, now, codec);
    ClocksFit(w, r, clock, c, now, build);
    EventsFit(w, r, clock, c, now);
    hide Total;
  }

  lemma EndAgrees(w: Writer, r: Reading, clock: nat, c: Call, now: nat, codec: Codec, build: Option<string>)
    requires Agree(w, r, clock) && clock <= now && (c.Begin? ==> clock <= c.started <= now)
    requires Known(w.identity, build) && Apply(w, c, now, codec).1 == Flushed
    requires c.End?
    ensures FlushStep(w, r, c, now, codec, build)
  {
    hide ClocksAgree, IdentityAgrees, EventFits, Apply, DetailsOf, Known;
    FlushedShape(w, c, now, codec);
    ClocksFit(w, r, clock, c, now, build);
    EventsFit(w, r, clock, c, now);
    TotalBump(r.durations, w.phase, now - w.phaseStarted);
  }

  lemma FinishAgrees(w: Writer, r: Reading, clock: nat, c: Call, now: nat, codec: Codec, build: Option<string>)
    requires Agree(w, r, clock) && clock <= now && (c.Begin? ==> clock <= c.started <= now)
    requires Known(w.identity, build) && Apply(w, c, now, codec).1 == Flushed
    requires c.Finish?
    ensures FlushStep(w, r, c, now, codec, build)
  {
    hide ClocksAgree, IdentityAgrees, EventFits, Apply, DetailsOf, Known;
    FlushedShape(w, c, now, codec);
    ClocksFit(w, r, clock, c, now, build);
    EventsFit(w, r, clock, c, now);
    hide Total;
  }

  /** A named row is accepted and leaves both sides agreeing; an unnamed one is rejected. */
  lemma FlushAgrees(w: Writer, r: Reading, clock: nat, c: Call, now: nat, codec: Codec, build: Option<string>)
    requires Agree(w, r, clock) && clock <= now && (c.Begin? ==> clock <= c.started <= now)
    requires Known(w.identity, build) && Apply(w, c, now, codec).1 == Flushed
    ensures FlushStep(w, r, c, now, codec, build)
  {
    match c
    case Begin(_, _, _) => BeginAgrees(w, r, clock, c, now, codec, build);
    case Update(_) => UpdateAgrees(w, r, clock, c, now, codec, build);
    case End(_) => EndAgrees(w, r, clock, c, now, codec, build);
    case Finish(_, _) => FinishAgrees(w, r, clock, c, now, codec, build);
  }

  lemma ClockAdvances(origin: nat, calls: seq<Timed>, i: nat)
    requires i < |calls| && Monotone(origin, calls)
    ensures Clock(origin, calls, i) <= calls[i].now
    ensures calls[i].call.Begin? ==> Clock(origin, calls, i) <= calls[i].call.started <= calls[i].now
  {
  }

  /** Every number of whole rows reads well, with completed phases inside the elapsed time. */
  ghost predicate Good(rows: seq<Row>, k: nat, build: Option<string>)
    requires k <= |rows|
  {
    && ReadRows(rows, k, build).Ok?
    && var durations := ReadRows(rows, k, build).value.durations;
       Total(durations, durations.Keys) <= LastElapsed(rows, k)
  }

  ghost function Clock(origin: nat, calls: seq<Timed>, n: nat): nat
    requires n <= |calls|
  {
    if n == 0 then origin else calls[n - 1].now
  }

  lemma GoodPrefix(a: seq<Row>, b: seq<Row>, k: nat, build: Option<string>)
    requires k <= |a| && k <= |b| && a[..k] == b[..k] && Good(a, k, build)
    ensures Good(b, k, build)
  {
    ReadRowsPrefix(a, b, k, build);
    if k > 0 {
      assert a[k - 1] == a[..k][k - 1] == b[k - 1];
    }
  }

  lemma AgreeIsGood(w: Writer, r: Reading, clock: nat, build: Option<string>)
    requires Agree(w, r, clock) && ReadRows(w.rows, |w.rows|, build) == Ok(r)
    ensures Good(w.rows, |w.rows|, build)
  {
  }

  lemma StartAgrees(o: Opening, build: Option<string>)
    ensures var w := Opened(o);
      && (o.kind == KIND ==> Agree(w, NOTHING, o.origin))
      && ReadRows(w.rows, 0, build) == Ok(NOTHING) && Good(w.rows, 0, build)
  {
  }

  lemma RefusedAgrees(w: Writer, r: Reading, clock: nat, c: Call, now: nat, codec: Codec)
    requires Agree(w, r, clock) && clock <= now && Apply(w, c, now, codec).1 == Refused
    ensures Apply(w, c, now, codec).0 == w && Agree(w, r, now)
  {
  }

  lemma ApplyKeepsIdentity(w: Writer, c: Call, now: nat, codec: Codec)
    ensures Apply(w, c, now, codec).0.identity == w.identity && Apply(w, c, now, codec).0.kind == w.kind
  {
  }

  lemma ExtendGood(w: Writer, r: Reading, clock: nat, c: Call, now: nat, codec: Codec, build: Option<string>)
    requires Agree(w, r, clock) && clock <= now && (c.Begin? ==> clock <= c.started <= now)
    requires Known(w.identity, build) && Apply(w, c, now, codec).1 == Flushed && Named(w, c)
    requires ReadRows(w.rows, |w.rows|, build) == Ok(r)
    requires forall k :: 0 <= k <= |w.rows| ==> Good(w.rows, k, build)
    ensures var w' := Apply(w, c, now, codec).0;
      && w'.identity == w.identity
      && ReadRows(w'.rows, |w'.rows|, build).Ok?
      && Agree(w', ReadRows(w'.rows, |w'.rows|, build).value, now)
      && forall k :: 0 <= k <= |w'.rows| ==> Good(w'.rows, k, build)
  {
    hide ReadRow, Agree, Apply, Good, Named;
    var w' := Apply(w, c, now, codec).0;
    ApplyKeepsIdentity(w, c, now, codec);
    FlushAgrees(w, r, clock, c, now, codec, build);
    assert w'.rows[..|w.rows|] == w.rows[..|w.rows|];
    ReadRowsPrefix(w.rows, w'.rows, |w.rows|, build);
    AgreeIsGood(w', ReadRows(w'.rows, |w'.rows|, build).value, now, build);
    forall k | 0 <= k <= |w'.rows|
      ensures Good(w'.rows, k, build)
    {
      if k <= |w.rows| {
        assert w'.rows[..k] == w'.rows[..|w.rows|][..k] == w.rows[..k];
        GoodPrefix(w.rows, w'.rows, k, build);
      }
    }
  }

  // ---------- the limits the writer keeps ----------

  lemma {:induction false} WrittenRowsFit(o: Opening, calls: seq<Timed>, n: nat, codec: Codec)
    requires n <= |calls|
    ensures var w := Wrote(o, calls, n, codec); AllFit(w.rows, codec) && |w.rows| <= w.sequence
  {
    hide AllFit, Apply;
    if n == 0 {
      NothingFits(codec);
    } else {
      WrittenRowsFit(o, calls, n - 1, codec);
      ApplyFits(Wrote(o, calls, n - 1, codec), calls[n - 1].call, calls[n - 1].now, codec);
    }
  }

  lemma NothingFits(codec: Codec)
    ensures AllFit([], codec)
  {
  }

  lemma ApplyFits(w: Writer, c: Call, now: nat, codec: Codec)
    requires AllFit(w.rows, codec) && |w.rows| <= w.sequence
    ensures var w' := Apply(w, c, now, codec).0; AllFit(w'.rows, codec) && |w'.rows| <= w'.sequence
  {
  }

  // ---------- what each call does to the reading ----------

  /** Everything known after `n` calls: the rows read well exactly when every flush so far was one to want. */
  ghost predicate Tracked(o: Opening, calls: seq<Timed>, n: nat, codec: Codec, build: Option<string>)
    requires n <= |calls|
  {
    var w := Wrote(o, calls, n, codec);
    var r := ReadRows(w.rows, |w.rows|, build);
    && w.identity == o.identity && w.kind == o.kind
    && |w.rows| <= w.sequence && (Unbroken(o, calls, n, codec) <==> |w.rows| == w.sequence)
    && (r.Ok? <==> AllFlushWell(o, calls, n, codec, build))
    && (r.Ok? ==> forall k :: 0 <= k <= |w.rows| ==> Good(w.rows, k, build))
    && (r.Ok? && Unbroken(o, calls, n, codec) && o.kind == KIND ==> Agree(w, r.value, Clock(o.origin, calls, n)))
  }

  lemma StartIsTracked(o: Opening, calls: seq<Timed>, codec: Codec, build: Option<string>)
    ensures Tracked(o, calls, 0, codec, build)
  {
    StartAgrees(o, build);
    hide Agree, Good;
  }

  lemma WroteNext(o: Opening, calls: seq<Timed>, i: nat, codec: Codec)
    requires i < |calls|
    ensures Wrote(o, calls, i + 1, codec)
         == Apply(Wrote(o, calls, i, codec), calls[i].call, calls[i].now, codec).0
  {
  }

  lemma UnbrokenNext(o: Opening, calls: seq<Timed>, i: nat, codec: Codec, build: Option<string>)
    requires i < |calls|
    ensures Unbroken(o, calls, i + 1, codec)
       <==> Unbroken(o, calls, i, codec) && OutcomeAt(o, calls, i, codec) != Overflow
    ensures AllFlushWell(o, calls, i + 1, codec, build)
       <==> AllFlushWell(o, calls, i, codec, build) && FlushesWell(o, calls, i, codec, build)
  {
    hide OutcomeAt, FlushesWell;
  }

  lemma OutcomeCounts(w: Writer, c: Call, now: nat, codec: Codec)
    ensures var (w', outcome) := Apply(w, c, now, codec);
      && (outcome == Refused ==> w' == w)
      && (outcome == Overflow ==> w'.rows == w.rows && w'.sequence == w.sequence + 1)
      && (outcome == Flushed ==>
            && |w'.rows| == |w.rows| + 1 && w'.rows[..|w.rows|] == w.rows && w'.sequence == w.sequence + 1
            && w'.rows[|w.rows|].kind == w.kind && w'.rows[|w.rows|].sequence == w.sequence + 1
            && w'.rows[|w.rows|].identity == w.identity)
  {
  }

  lemma {:induction false} ReadRowsStaysErr(rows: seq<Row>, k: nat, m: nat, build: Option<string>)
    requires k <= m <= |rows| && ReadRows(rows, k, build).Err?
    ensures ReadRows(rows, m, build).Err?
  {
    hide ReadRow;
    if k < m {
      ReadRowsStaysErr(rows, k, m - 1, build);
    }
  }

  /** A row of another kind, of another build or out of sequence is rejected. */
  lemma StrangeRowIsRejected(r: Reading, row: Row, build: Option<string>)
    requires row.kind != KIND || !Known(row.identity, build) || row.sequence != r.events + 1
    ensures ReadRow(r, row, build).Err?
  {
  }

  lemma ReadRowsNext(rows: seq<Row>, longer: seq<Row>, build: Option<string>)
    requires |longer| == |rows| + 1 && longer[..|rows|] == rows
    ensures ReadRows(longer, |longer|, build)
         == if ReadRows(rows, |rows|, build).Err? then Err
            else ReadRow(ReadRows(rows, |rows|, build).value, longer[|rows|], build)
  {
    hide ReadRow;
    assert rows[..|rows|] == rows;
    ReadRowsPrefix(rows, longer, |rows|, build);
  }

  lemma FlushIsTracked(o: Opening, calls: seq<Timed>, n: nat, codec: Codec, build: Option<string>)
    requires n < |calls| && Monotone(o.origin, calls) && Tracked(o, calls, n, codec, build)
    requires AllFlushWell(o, calls, n, codec, build) && OutcomeAt(o, calls, n, codec) == Flushed
    ensures var w := Wrote(o, calls, n + 1, codec);
      var r := ReadRows(w.rows, |w.rows|, build);
      && (r.Ok? <==> FlushesWell(o, calls, n, codec, build))
      && (r.Ok? ==> Agree(w, r.value, Clock(o.origin, calls, n + 1)))
      && (r.Ok? ==> forall k :: 0 <= k <= |w.rows| ==> Good(w.rows, k, build))
  {
    var w, c, now := Wrote(o, calls, n, codec), calls[n].call, calls[n].now;
    var r := ReadRows(w.rows, |w.rows|, build).value;
    WroteNext(o, calls, n, codec);
    ClockAdvances(o.origin, calls, n);
    OutcomeCounts(w, c, now, codec);
    ReadRowsCounts(w.rows, |w.rows|, build);
    hide ReadRow, Agree, Apply, Good, Named, Monotone, Unbroken, AllFlushWell;
    var w' := Apply(w, c, now, codec).0;
    ReadRowsNext(w.rows, w'.rows, build);
    hide ReadRows;
    if o.kind == KIND && Known(o.identity, build) && Unbroken(o, calls, n, codec) {
      FlushAgrees(w, r, Clock(o.origin, calls, n), c, now, codec, build);
      if Named(w, c) {
        ExtendGood(w, r, Clock(o.origin, calls, n), c, now, codec, build);
      }
    } else {
      StrangeRowIsRejected(r, w'.rows[|w.rows|], build);
    }
  }

  lemma UnflushedIsTracked(o: Opening, calls: seq<Timed>, n: nat, codec: Codec, build: Option<string>)
    requires n < |calls| && Monotone(o.origin, calls) && Tracked(o, calls, n, codec, build)
    requires OutcomeAt(o, calls, n, codec) != Flushed
    ensures Tracked(o, calls, n + 1, codec, build)
  {
    var w, c, now := Wrote(o, calls, n, codec), calls[n].call, calls[n].now;
    WroteNext(o, calls, n, codec);
    UnbrokenNext(o, calls, n, codec, build);
    OutcomeCounts(w, c, now, codec);
    ApplyKeepsIdentity(w, c, now, codec);
    ClockAdvances(o.origin, calls, n);
    var r := ReadRows(w.rows, |w.rows|, build);
    if r.Ok? && Unbroken(o, calls, n, codec) && o.kind == KIND && OutcomeAt(o, calls, n, codec) == Refused {
      RefusedAgrees(w, r.value, Clock(o.origin, calls, n), c, now, codec);
    }
    hide ReadRows, Agree, Apply, Good, Unbroken, AllFlushWell, Monotone;
  }

  lemma BrokenIsTracked(o: Opening, calls: seq<Timed>, n: nat, codec: Codec, build: Option<string>)
    requires n < |calls| && Tracked(o, calls, n, codec, build)
    requires !AllFlushWell(o, calls, n, codec, build) && OutcomeAt(o, calls, n, codec) == Flushed
    ensures var w := Wrote(o, calls, n + 1, codec); ReadRows(w.rows, |w.rows|, build).Err?
  {
    var w, c, now := Wrote(o, calls, n, codec), calls[n].call, calls[n].now;
    WroteNext(o, calls, n, codec);
    OutcomeCounts(w, c, now, codec);
    hide ReadRow, Agree, Apply, Good, Unbroken, AllFlushWell;
    var w' := Apply(w, c, now, codec).0;
    assert w'.rows[..|w.rows|] == w.rows[..|w.rows|];
    ReadRowsPrefix(w.rows, w'.rows, |w.rows|, build);
    ReadRowsStaysErr(w'.rows, |w.rows|, |w'.rows|, build);
  }

  lemma CallIsTracked(o: Opening, calls: seq<Timed>, n: nat, codec: Codec, build: Option<string>)
    requires n < |calls| && Monotone(o.origin, calls) && Tracked(o, calls, n, codec, build)
    ensures Tracked(o, calls, n + 1, codec, build)
  {
    if OutcomeAt(o, calls, n, codec) != Flushed {
      UnflushedIsTracked(o, calls, n, codec, build);
    } else {
      var w, c, now := Wrote(o, calls, n, codec), calls[n].call, calls[n].now;
      WroteNext(o, calls, n, codec);
      UnbrokenNext(o, calls, n, codec, build);
      OutcomeCounts(w, c, now, codec);
      ApplyKeepsIdentity(w, c, now, codec);
      if AllFlushWell(o, calls, n, codec, build) {
        FlushIsTracked(o, calls, n, codec, build);
      } else {
        BrokenIsTracked(o, calls, n, codec, build);
      }
      hide ReadRows, Agree, Apply, Good, Unbroken, AllFlushWell, Monotone, Wrote, FlushesWell;
    }
  }

  lemma {:induction false} RunIsTracked(o: Opening, calls: seq<Timed>, n: nat, codec: Codec, build: Option<string>)
    requires n <= |calls| && Monotone(o.origin, calls)
    ensures Tracked(o, calls, n, codec, build)
  {
    hide Tracked, Monotone;
    if n == 0 {
      StartIsTracked(o, calls, codec, build);
    } else {
      RunIsTracked(o, calls, n - 1, codec, build);
      CallIsTracked(o, calls, n - 1, codec, build);
    }
  }

  // ---------- the theorems ----------

  predicate IsTerminal(event: string) {
    event == "complete" || event == "interrupted" || event == "failed"
  }

  /** Whether a row leaves its phase unfinished. */
  predicate LeavesOpen(row: Row) {
    || row.event == "begin" || row.event == "progress"
    || (IsTerminal(row.event) && "phase_incomplete" in row.details && row.details["phase_incomplete"] == Flag(true))
  }

  /** The time of all ended occurrences of a phase, and the phases that ended. */
  ghost function Spent(rows: seq<Row>, k: nat, phase: string): int
    requires k <= |rows|
  {
    if k == 0 then 0
    else
      Spent(rows, k - 1, phase)
      + if rows[k - 1].event == "end" && rows[k - 1].phase == phase then rows[k - 1].phaseElapsed else 0
  }

  ghost function Ended(rows: seq<Row>, k: nat): set<string>
    requires k <= |rows|
  {
    if k == 0 then {} else Ended(rows, k - 1) + if rows[k - 1].event == "end" then {rows[k - 1].phase} else {}
  }

  /** The value a detail had last since the last phase began. */
  ghost function LatestAt(rows: seq<Row>, k: nat, name: string): Option<Detail>
    requires k <= |rows|
  {
    if k == 0 then None
    else if name in rows[k - 1].details then Some(rows[k - 1].details[name])
    else if rows[k - 1].event == "begin" then None
    else LatestAt(rows, k - 1, name)
  }

  ghost predicate AreLatest(details: Details, rows: seq<Row>, k: nat)
    requires k <= |rows|
  {
    && (forall name :: name in details <==> LatestAt(rows, k, name).Some?)
    && (forall name :: name in details ==> LatestAt(rows, k, name) == Some(details[name]))
  }

  /** The durations are the time of the ended occurrences of each phase. */
  ghost predicate AreSpent(durations: map<string, int>, rows: seq<Row>, k: nat)
    requires k <= |rows|
  {
    durations.Keys == Ended(rows, k) && forall p :: p in durations ==> durations[p] == Spent(rows, k, p)
  }

  /** What the reader says of a log cut anywhere. */
  ghost predicate Classified(rows: seq<Row>, k: nat, tail: seq<Byte>, summary: Summary)
    requires k <= |rows|
  {
    && summary.events == k
    && summary.available == (k > 0)
    && summary.partialIgnored == (tail != [])
    && (summary.complete <==> k > 0 && rows[k - 1].event == "complete")
    && (summary.complete ==> k == |rows|)
    && summary.status == (if k > 0 && IsTerminal(rows[k - 1].event) then rows[k - 1].event else "unfinished")
    && summary.unfinishedPhase == (if k > 0 && LeavesOpen(rows[k - 1]) then Some(rows[k - 1].phase) else None)
    && AreSpent(summary.completed, rows, k)
    && summary.lastPhase == (if k > 0 then Some(rows[k - 1].phase) else None)
    && summary.lastElapsed == (if k > 0 then Some(rows[k - 1].elapsed) else None)
    && summary.unfinishedElapsed == (if k > 0 && LeavesOpen(rows[k - 1]) then Some(rows[k - 1].phaseElapsed) else None)
    && summary.identity == (if k > 0 then Some(rows[k - 1].identity) else None)
    && AreLatest(summary.details, rows, k)
    && Total(summary.completed, summary.completed.Keys) <= LastElapsed(rows, k)
  }

  /** Nothing is accepted after a terminal row, so only a whole log can have one. */
  lemma {:induction false} TerminalIsLast(rows: seq<Row>, k: nat, build: Option<string>)
    requires k <= |rows| && ReadRows(rows, k, build).Ok?
    ensures var r := ReadRows(rows, k, build).value;
      && (r.terminal.Some? ==> k > 0 && r.terminal == Some(rows[k - 1].event))
      && (k > 0 && rows[k - 1].event == "complete" ==> r.terminal == Some("complete"))
      && (k > 0 ==> r.last == Some(rows[k - 1])) && (k == 0 ==> r.last == None)
      && (k < |rows| && ReadRows(rows, k + 1, build).Ok? ==> r.terminal.None?)
  {
    if k > 0 {
      TerminalIsLast(rows, k - 1, build);
    }
  }

  /** The reader's phase and status are those its last row tells, and a terminal status is one of three. */
  lemma {:induction false} LastRowTells(rows: seq<Row>, k: nat, build: Option<string>)
    requires k <= |rows| && ReadRows(rows, k, build).Ok?
    ensures var r := ReadRows(rows, k, build).value;
      && r.active == (if k > 0 && LeavesOpen(rows[k - 1]) then Some(rows[k - 1].phase) else None)
      && (r.terminal.Some? <==> k > 0 && IsTerminal(rows[k - 1].event))
  {
    if k > 0 {
      LastRowTells(rows, k - 1, build);
      hide ClocksAgree, IdentityAgrees;
    }
  }

  /** Durations are kept per phase over all its occurrences. */
  lemma {:induction false} DurationsAreSpent(rows: seq<Row>, k: nat, build: Option<string>)
    requires k <= |rows| && ReadRows(rows, k, build).Ok?
    ensures var d := ReadRows(rows, k, build).value.durations;
      && AreSpent(d, rows, k)
      && forall p :: Spent(rows, k, p) == if p in d then d[p] else 0
  {
    if k > 0 {
      DurationsAreSpent(rows, k - 1, build);
      hide ClocksAgree, IdentityAgrees, EventFits;
    }
  }

  lemma RowDetails(r: Reading, row: Row, build: Option<string>)
    requires ReadRow(r, row, build).Ok?
    ensures ReadRow(r, row, build).value.identity == Some(row.identity)
    ensures ReadRow(r, row, build).value.details == (if row.event == "begin" then map[] else r.details) + row.details
  {
    hide ClocksAgree, IdentityAgrees, EventFits, Lasted;
  }

  /** The details are the latest of each name since the last phase began. */
  lemma {:induction false} DetailsAreLatest(rows: seq<Row>, k: nat, build: Option<string>)
    requires k <= |rows| && ReadRows(rows, k, build).Ok?
    ensures var r := ReadRows(rows, k, build).value;
      && r.identity == (if k > 0 then Some(rows[k - 1].identity) else None)
      && AreLatest(r.details, rows, k)
  {
    if k > 0 {
      DetailsAreLatest(rows, k - 1, build);
      RowDetails(ReadRows(rows, k - 1, build).value, rows[k - 1], build);
      hide ReadRow;
    }
  }

  /** Every byte-prefix of such a run's log is accepted and classified by its whole lines. */
  lemma EveryPrefixIsClassified(o: Opening, calls: seq<Timed>, codec: Codec, build: Option<string>, cut: seq<Byte>)
    returns (k: nat, tail: seq<Byte>)
    requires Faithful(codec) && Monotone(o.origin, calls) && AllFlushWell(o, calls, |calls|, codec, build)
    requires cut <= Log(Wrote(o, calls, |calls|, codec).rows, codec)
    ensures var rows := Wrote(o, calls, |calls|, codec).rows;
      && k <= |rows| && cut == Log(rows[..k], codec) + tail && NEWLINE !in tail
      && Summarized(cut, codec, build).Ok?
      && Classified(rows, k, tail, Summarized(cut, codec, build).value)
  {
    hide ReadRow, Wrote, Fits, Agree;
    var rows := Wrote(o, calls, |calls|, codec).rows;
    RunIsTracked(o, calls, |calls|, codec, build);
    WrittenRowsFit(o, calls, |calls|, codec);
    k, tail := CutLog(rows, codec, cut);
    CutReads(rows, k, tail, codec, build, cut);
    hide Good, Classified, Conclude;
    assert Good(rows, k, build);
    assert k < |rows| ==> Good(rows, k + 1, build);
    ConclusionIsClassified(rows, k, tail, build);
  }

  /** What a reading of the first `k` rows knows, in terms of those rows. */
  ghost predicate ReadingTells(r: Reading, rows: seq<Row>, k: nat)
    requires k <= |rows|
  {
    && r.last == (if k > 0 then Some(rows[k - 1]) else None)
    && r.identity == (if k > 0 then Some(rows[k - 1].identity) else None)
    && r.terminal == (if k > 0 && IsTerminal(rows[k - 1].event) then Some(rows[k - 1].event) else None)
    && (r.terminal.Some? ==> k == |rows|)
    && r.active == (if k > 0 && LeavesOpen(rows[k - 1]) then Some(rows[k - 1].phase) else None)
    && AreSpent(r.durations, rows, k) && AreLatest(r.details, rows, k)
    && Total(r.durations, r.durations.Keys) <= LastElapsed(rows, k)
  }

  lemma GoodTells(rows: seq<Row>, k: nat, build: Option<string>)
    requires k <= |rows| && Good(rows, k, build) && (k < |rows| ==> Good(rows, k + 1, build))
    ensures ReadRows(rows, k, build).Ok? && ReadingTells(ReadRows(rows, k, build).value, rows, k)
  {
    TerminalIsLast(rows, k, build);
    LastRowTells(rows, k, build);
    DurationsAreSpent(rows, k, build);
    DetailsAreLatest(rows, k, build);
    hide ReadRow, ReadRows, AreSpent, AreLatest, Total, Spent, LeavesOpen, IsTerminal, LastElapsed;
  }

  /** What is concluded from the first `k` rows. */
  lemma ConclusionIsClassified(rows: seq<Row>, k: nat, tail: seq<Byte>, build: Option<string>)
    requires k <= |rows| && Good(rows, k, build) && (k < |rows| ==> Good(rows, k + 1, build))
    requires k == |rows| ==> tail == []
    ensures ReadRows(rows, k, build).Ok?
    ensures var conclusion := Conclude(ReadRows(rows, k, build).value, k, tail != []);
      conclusion.Ok? && Classified(rows, k, tail, conclusion.value)
  {
    hide *;
    GoodTells(rows, k, build);
    TellingConcludes(ReadRows(rows, k, build).value, rows, k, tail);
  }

  lemma TellingConcludes(r: Reading, rows: seq<Row>, k: nat, tail: seq<Byte>)
    requires k <= |rows| && ReadingTells(r, rows, k) && (k == |rows| ==> tail == [])
    ensures var conclusion := Conclude(r, k, tail != []);
      conclusion.Ok? && Classified(rows, k, tail, conclusion.value)
  {
    CompleteIsTerminal();
    hide AreSpent, AreLatest, Total, LeavesOpen, IsTerminal, LastElapsed;
  }

  lemma CompleteIsTerminal()
    ensures IsTerminal("complete")
  {
  }

  /** Reading a cut log is reading its whole rows, and concluding on what is left. */
  lemma CutReads(rows: seq<Row>, k: nat, tail: seq<Byte>, codec: Codec, build: Option<string>, cut: seq<Byte>)
    requires Faithful(codec) && AllFit(rows, codec) && k <= |rows| && NEWLINE !in tail
    requires cut == Log(rows[..k], codec) + tail && cut <= Log(rows, codec)
    ensures Summarized(cut, codec, build)
         == if ReadRows(rows, k, build).Err? then Err
            else Conclude(ReadRows(rows, k, build).value, k, tail != [])
  {
    hide ReadRow, ReadLine, Fits;
    LogIsSmall(rows, codec);
    SplitLog(rows[..k], codec, tail);
    SplitPartial(tail);
    var lines := Encoded(rows[..k], codec);
    assert lines + [] == lines;
    assert AllFit(rows[..k], codec);
    LinesReadAsRows(rows[..k], k, codec, build);
    assert rows[..k][..k] == rows[..k];
    ReadRowsPrefix(rows[..k], rows, k, build);
  }

  /**
   * The whole log is readable exactly when every line written has the reader's kind and build, a named phase, and no
   * line lost before it.
   */
  lemma ReadableIffFlushesWell(o: Opening, calls: seq<Timed>, codec: Codec, build: Option<string>)
    requires Faithful(codec) && Monotone(o.origin, calls)
    ensures Summarized(Log(Wrote(o, calls, |calls|, codec).rows, codec), codec, build).Ok?
       <==> AllFlushWell(o, calls, |calls|, codec, build)
  {
    hide Wrote, ReadRow, Fits, AllFlushWell;
    var rows := Wrote(o, calls, |calls|, codec).rows;
    var log := Log(rows, codec);
    RunIsTracked(o, calls, |calls|, codec, build);
    if AllFlushWell(o, calls, |calls|, codec, build) {
      var k, tail := EveryPrefixIsClassified(o, calls, codec, build, log);
    } else {
      WrittenRowsFit(o, calls, |calls|, codec);
      assert rows[..|rows|] == rows && log + [] == log;
      CutReads(rows, |rows|, [], codec, build, log);
    }
  }

  /** A line written after one was lost to a limit makes the whole log unreadable, whatever else is written. */
  lemma OverflowSpoilsLog(o: Opening, calls: seq<Timed>, i: nat, j: nat, codec: Codec, build: Option<string>)
    requires Faithful(codec) && Monotone(o.origin, calls) && i < j < |calls|
    requires OutcomeAt(o, calls, i, codec) == Overflow && OutcomeAt(o, calls, j, codec) == Flushed
    ensures Summarized(Log(Wrote(o, calls, |calls|, codec).rows, codec), codec, build).Err?
  {
    hide Wrote;
    assert !Unbroken(o, calls, j, codec);
    assert !FlushesWell(o, calls, j, codec, build);
    ReadableIffFlushesWell(o, calls, codec, build);
  }

  // ---------- runs whose log the reader rejects ----------

  /** One call is made and its line written, and the log is unreadable. */
  ghost predicate IsRejected(o: Opening, c: Call, now: nat, codec: Codec, build: Option<string>) {
    && Apply(Opened(o), c, now, codec).1 == Flushed
    && Summarized(Log(Apply(Opened(o), c, now, codec).0.rows, codec), codec, build).Err?
  }

  lemma FirstCallIsRejected(o: Opening, c: Call, now: nat, codec: Codec, build: Option<string>)
    requires Faithful(codec) && o.origin <= now && (c.Begin? ==> o.origin <= c.started <= now)
    requires Apply(Opened(o), c, now, codec).1 == Flushed
    requires o.kind != KIND || !Known(o.identity, build) || !Named(Opened(o), c)
    ensures IsRejected(o, c, now, codec, build)
  {
    var calls := [Timed(c, now)];
    assert Wrote(o, calls, 0, codec) == Opened(o);
    assert Wrote(o, calls, 1, codec) == Apply(Opened(o), c, now, codec).0;
    assert !FlushesWell(o, calls, 0, codec, build);
    ReadableIffFlushesWell(o, calls, codec, build);
    hide Apply, Summarized, Log;
  }

  /** A log finished before any phase began. */
  lemma FinishFirstIsRejected(o: Opening, status: string, now: nat, codec: Codec, build: Option<string>)
    requires Faithful(codec) && o.origin <= now
    requires status == "complete" || status == "interrupted" || status == "failed"
    requires Fits(RowFor(Opened(o), Finish(status, ""), now), codec)
    ensures IsRejected(o, Finish(status, ""), now, codec, build)
  {
    FirstCallIsRejected(o, Finish(status, ""), now, codec, build);
  }

  /** A phase begun with an empty name. */
  lemma EmptyPhaseIsRejected(o: Opening, now: nat, codec: Codec, build: Option<string>)
    requires Faithful(codec) && o.origin <= now
    requires Fits(RowFor(Entered(Opened(o), Begin("", map[], now)), Begin("", map[], now), now), codec)
    ensures IsRejected(o, Begin("", map[], now), now, codec, build)
  {
    FirstCallIsRejected(o, Begin("", map[], now), now, codec, build);
  }

  /** A log of another kind, however well its phases are named. */
  lemma BenchmarkLogIsRejected(identity: Identity, origin: nat, now: nat, codec: Codec, build: Option<string>)
    requires Faithful(codec) && origin <= now
    requires var o := Opening(identity, "benchmark_progress_v1", origin);
      var c := Begin("model_load", map[], now);
      Fits(RowFor(Entered(Opened(o), c), c, now), codec)
    ensures var o := Opening(identity, "benchmark_progress_v1", origin);
      IsRejected(o, Begin("model_load", map[], now), now, codec, build)
  {
    FirstCallIsRejected(Opening(identity, "benchmark_progress_v1", origin), Begin("model_load", map[], now), now,
                        codec, build);
  }
}
