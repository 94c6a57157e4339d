/** Exactly which logs the progress reader accepts, whoever wrote them. */
module ProgressRules {
  import opened Common
  import opened ProgressReader
  import opened ProgressLogs

  /** The row that began the phase open after `k` rows. */
  ghost function OpenedAt(rows: seq<Row>, k: nat): (i: Option<nat>)
    requires k <= |rows|
    ensures i.Some? ==> i.value < k && rows[i.value].event == "begin"
  {
    if k == 0 || rows[k - 1].event == "end" then None
    else if rows[k - 1].event == "begin" then Some(k - 1)
    else OpenedAt(rows, k - 1)
  }

  /** The row belongs to the open phase, and its phase has run since that phase began. */
  ghost predicate Continues(rows: seq<Row>, i: nat)
    requires i < |rows|
  {
    var begun := OpenedAt(rows, i);
    && begun.Some? && rows[i].phase == rows[begun.value].phase
    && rows[i].elapsed - rows[i].phaseElapsed == rows[begun.value].elapsed - rows[begun.value].phaseElapsed
  }

  /** Times are natural numbers that do not go back, and both clocks advance alike. */
  ghost predicate Timely(rows: seq<Row>, i: nat)
    requires i < |rows|
  {
    && 0 <= rows[i].phaseElapsed <= rows[i].elapsed && 0 <= rows[i].monotonic
    && (i > 0 ==>
          && rows[i - 1].elapsed <= rows[i].elapsed
          && rows[i].monotonic - rows[i - 1].monotonic == rows[i].elapsed - rows[i - 1].elapsed)
  }

  ghost predicate EventAllowed(rows: seq<Row>, i: nat)
    requires i < |rows|
  {
    var row, open := rows[i], OpenedAt(rows, i).Some?;
    || (row.event == "begin" && !open)
    || ((row.event == "progress" || row.event == "end") && Continues(rows, i))
    || (IsTerminal(row.event)
        && (if open then Continues(rows, i) && row.event != "complete" else i > 0 ==> row.phase == rows[i - 1].phase)
        && "phase_incomplete" in row.details && row.details["phase_incomplete"] == Flag(open))
  }

  /** Row `i` is in place: numbered, of the reader's kind, of the first row's identity, timely, and allowed there. */
  ghost predicate InPlace(rows: seq<Row>, i: nat, build: Option<string>)
    requires i < |rows|
  {
    && rows[i].kind == KIND && rows[i].sequence == i + 1 && rows[i].phase != ""
    && rows[i].identity == rows[0].identity && Known(rows[i].identity, build)
    && (i > 0 ==> !IsTerminal(rows[i - 1].event))
    && Timely(rows, i) && EventAllowed(rows, i)
  }

  ghost predicate AllInPlace(rows: seq<Row>, k: nat, build: Option<string>)
    requires k <= |rows|
  {
    forall i :: 0 <= i < k ==> InPlace(rows, i, build)
  }

  /** What the reader holds after `k` rows. */
  ghost predicate Holds(r: Reading, rows: seq<Row>, k: nat)
    requires k <= |rows|
  {
    var begun := OpenedAt(rows, k);
    && r.events == k && r.previous == (if k == 0 then -1 else rows[k - 1].elapsed)
    && r.last == (if k == 0 then None else Some(rows[k - 1]))
    && r.identity == (if k == 0 then None else Some(rows[0].identity))
    && r.terminal.Some? == (k > 0 && IsTerminal(rows[k - 1].event))
    && r.active == (if begun.None? then None else Some(rows[begun.value].phase))
    && (begun.Some? ==> r.phaseStarted == rows[begun.value].elapsed - rows[begun.value].phaseElapsed)
  }

  lemma ClocksIffTimely(r: Reading, rows: seq<Row>, k: nat)
    requires k < |rows| && Holds(r, rows, k) && (k > 0 ==> rows[k - 1].elapsed >= 0 && rows[k - 1].monotonic >= 0)
    ensures ClocksAgree(r, rows[k]) <==> Timely(rows, k)
  {
    hide OpenedAt, IsTerminal;
  }

  lemma EventIffAllowed(r: Reading, rows: seq<Row>, k: nat)
    requires k < |rows| && Holds(r, rows, k)
    ensures EventFits(r, rows[k]) <==> EventAllowed(rows, k)
  {
    hide OpenedAt;
  }

  lemma RowStep(r: Reading, rows: seq<Row>, k: nat, build: Option<string>)
    requires k < |rows| && Holds(r, rows, k) && (k > 0 ==> Timely(rows, k - 1))
    ensures ReadRow(r, rows[k], build).Ok? <==> InPlace(rows, k, build)
    ensures ReadRow(r, rows[k], build).Ok? ==> Holds(ReadRow(r, rows[k], build).value, rows, k + 1)
  {
    ClocksIffTimely(r, rows, k);
    EventIffAllowed(r, rows, k);
    hide ClocksAgree, Timely, EventFits, Lasted;
    if ReadRow(r, rows[k], build).Ok? {
      OpenedNext(rows, k);
      hide OpenedAt;
    } else {
      hide EventAllowed, OpenedAt;
    }
  }

  lemma OpenedNext(rows: seq<Row>, k: nat)
    requires k < |rows|
    ensures OpenedAt(rows, k + 1) ==
      if rows[k].event == "end" then None else if rows[k].event == "begin" then Some(k) else OpenedAt(rows, k)
  {
  }

  /** The reader accepts rows exactly when each is in place. */
  lemma {:induction false} RowsReadIffInPlace(rows: seq<Row>, k: nat, build: Option<string>)
    requires k <= |rows|
    ensures ReadRows(rows, k, build).Ok? <==> AllInPlace(rows, k, build)
    ensures ReadRows(rows, k, build).Ok? ==> Holds(ReadRows(rows, k, build).value, rows, k)
  {
    hide ReadRow, InPlace, Holds;
    if k == 0 {
      NothingHolds(rows);
    } else {
      RowsReadIffInPlace(rows, k - 1, build);
      if ReadRows(rows, k - 1, build).Ok? {
        if k > 1 {
          InPlaceIsTimely(rows, k - 2, build);
        }
        RowStep(ReadRows(rows, k - 1, build).value, rows, k - 1, build);
      }
    }
  }

  lemma NothingHolds(rows: seq<Row>)
    ensures Holds(NOTHING, rows, 0)
  {
  }

  lemma InPlaceIsTimely(rows: seq<Row>, i: nat, build: Option<string>)
    requires i < |rows| && InPlace(rows, i, build)
    ensures Timely(rows, i)
  {
  }

  // ---------- whole files ----------

  ghost function Joined(lines: seq<seq<Byte>>): seq<Byte> {
    if lines == [] then [] else lines[0] + [NEWLINE] + Joined(lines[1..])
  }

  /** Splitting loses nothing: the lines with their newlines, and a rest without one, are the file. */
  lemma {:induction false} SplitJoins(raw: seq<Byte>)
    ensures var split := SplitLines(raw);
      && Joined(split.lines) + split.rest == raw && NEWLINE !in split.rest
      && forall i :: 0 <= i < |split.lines| ==> NEWLINE !in split.lines[i]
  {
    if raw != [] {
      SplitJoins(raw[1..]);
      assert raw == [raw[0]] + raw[1..];
      var tail, split := SplitLines(raw[1..]), SplitLines(raw);
      if raw[0] == NEWLINE {
        assert split.lines[1..] == tail.lines;
      } else if tail.lines != [] {
        assert split.lines[1..] == tail.lines[1..];
      }
    }
  }

  /** The rows the lines hold, when each line holds one within the limits. */
  ghost predicate HoldRows(lines: seq<seq<Byte>>, codec: Codec, rows: seq<Row>) {
    && |rows| == |lines| <= 10000
    && forall i :: 0 <= i < |lines| ==> |lines[i]| <= 4096 && codec.parse(lines[i]) == Some(rows[i])
  }

  lemma {:induction false} LinesReadAsHeld(lines: seq<seq<Byte>>, k: nat, codec: Codec, rows: seq<Row>,
                                           build: Option<string>)
    requires HoldRows(lines, codec, rows) && k <= |lines|
    ensures ReadLines(lines, k, codec, build) == ReadRows(rows, k, build)
  {
    hide ReadRow;
    if k > 0 {
      LinesReadAsHeld(lines, k - 1, codec, rows, build);
      if ReadRows(rows, k - 1, build).Ok? {
        ReadRowsCounts(rows, k - 1, build);
      }
    }
  }

  /** Lines that are read are held by rows. */
  lemma {:induction false} ReadLinesHold(lines: seq<seq<Byte>>, k: nat, codec: Codec, build: Option<string>)
    returns (rows: seq<Row>)
    requires k <= |lines| && ReadLines(lines, k, codec, build).Ok?
    ensures HoldRows(lines[..k], codec, rows) && ReadLines(lines, k, codec, build).value.events == k
  {
    hide ReadRow;
    if k == 0 {
      rows := [];
    } else {
      var before := ReadLinesHold(lines, k - 1, codec, build);
      var row := codec.parse(lines[k - 1]);
      rows := before + [row.value];
      RowCounts(ReadLines(lines, k - 1, codec, build).value, row.value, build);
      assert lines[..k] == lines[..k - 1] + [lines[k - 1]];
    }
  }

  lemma RowCounts(r: Reading, row: Row, build: Option<string>)
    requires ReadRow(r, row, build).Ok?
    ensures ReadRow(r, row, build).value.events == r.events + 1
  {
  }

  /** The lines hold rows that are in place, with nothing after a terminal one. */
  ghost predicate Acceptable(split: Split, codec: Codec, rows: seq<Row>, build: Option<string>) {
    && HoldRows(split.lines, codec, rows) && AllInPlace(rows, |rows|, build)
    && (split.rest != [] && rows != [] ==> !IsTerminal(rows[|rows| - 1].event))
  }

  lemma AcceptableReads(split: Split, codec: Codec, rows: seq<Row>, build: Option<string>)
    requires HoldRows(split.lines, codec, rows)
    ensures var end := ReadLines(split.lines, |split.lines|, codec, build);
      end.Ok? && !(end.value.terminal.Some? && split.rest != []) <==> Acceptable(split, codec, rows, build)
  {
    LinesReadAsHeld(split.lines, |split.lines|, codec, rows, build);
    RowsReadIffInPlace(rows, |rows|, build);
    hide ReadLines, ReadRows, InPlace, OpenedAt, IsTerminal;
  }

  lemma ConcludesUnless(raw: seq<Byte>, codec: Codec, build: Option<string>)
    ensures var split := SplitLines(raw);
      var end := ReadLines(split.lines, |split.lines|, codec, build);
      Summarized(raw, codec, build).Ok? <==>
        |raw| <= 40 * 1024 * 1024 && end.Ok? && !(end.value.terminal.Some? && split.rest != [])
  {
    hide SplitLines, ReadLines;
  }

  /**
   * A file is accepted exactly when it is within its limits, each complete line holds a row, the rows are in place,
   * and nothing follows a terminal one.
   */
  lemma SummarizedIff(raw: seq<Byte>, codec: Codec, build: Option<string>)
    ensures Summarized(raw, codec, build).Ok? <==>
      |raw| <= 40 * 1024 * 1024 && exists rows :: Acceptable(SplitLines(raw), codec, rows, build)
  {
    ConcludesUnless(raw, codec, build);
    var split := SplitLines(raw);
    hide SplitLines, ReadLines, Summarized;
    if ReadLines(split.lines, |split.lines|, codec, build).Ok? {
      var rows := ReadLinesHold(split.lines, |split.lines|, codec, build);
      assert split.lines[..|split.lines|] == split.lines;
      AcceptableReads(split, codec, rows, build);
    }
    forall rows | Acceptable(split, codec, rows, build)
      ensures var end := ReadLines(split.lines, |split.lines|, codec, build);
        end.Ok? && !(end.value.terminal.Some? && split.rest != [])
    {
      AcceptableReads(split, codec, rows, build);
    }
    hide Acceptable;
  }
}
