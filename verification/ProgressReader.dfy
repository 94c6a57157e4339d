/** Reading a progress log: complete lines only, in order, checked row by row. */
module ProgressReader {
  import opened Common

  const NEWLINE: Byte := 10

  datatype Detail = Flag(flag: bool) | Text(text: string) | Number(number: int)

  type Details = map<string, Detail>

  type Identity = map<string, string>

  datatype Row = Row(kind: string, sequence: int, monotonic: int, elapsed: int, phaseElapsed: int,
                     phase: string, event: string, identity: Identity, details: Details)

  /** `parse` is None where the text is no row, a field is missing or a field has the wrong type. */
  datatype Codec = Codec(encode: Row -> seq<Byte>, parse: seq<Byte> -> Option<Row>)

  ghost predicate Faithful(codec: Codec) {
    forall row :: NEWLINE !in codec.encode(row) && codec.parse(codec.encode(row)) == Some(row)
  }

  datatype Split = Split(lines: seq<seq<Byte>>, rest: seq<Byte>)

  /** The terminated lines, and the bytes after the last newline. */
  function SplitLines(raw: seq<Byte>): Split {
    if raw == [] then Split([], [])
    else
      var tail := SplitLines(raw[1..]);
      if raw[0] == NEWLINE then Split([[]] + tail.lines, tail.rest)
      else if tail.lines == [] then Split([], [raw[0]] + tail.rest)
      else Split([[raw[0]] + tail.lines[0]] + tail.lines[1..], tail.rest)
  }

  const KIND: string := "cached_replay_progress_v1"

  datatype Reading = Reading(
    events: nat, active: Option<string>, phaseStarted: int, previous: int, identity: Option<Identity>,
    last: Option<Row>, details: Details, durations: map<string, int>, terminal: Option<string>)

  const NOTHING := Reading(0, None, 0, -1, None, None, map[], map[], None)

  predicate ClocksAgree(r: Reading, row: Row) {
    && row.elapsed >= 0 && row.phaseElapsed >= 0 && row.monotonic >= 0
    && row.elapsed >= r.previous && row.phaseElapsed <= row.elapsed
    && (r.last.Some? ==>
          && row.monotonic >= r.last.value.monotonic
          && row.monotonic - r.last.value.monotonic == row.elapsed - r.previous)
  }

  predicate IdentityAgrees(r: Reading, row: Row, build: Option<string>) {
    && (r.identity.Some? ==> row.identity == r.identity.value)
    && (build.Some? ==> "build" in row.identity && row.identity["build"] == build.value)
  }

  predicate InPhase(r: Reading, row: Row) {
    r.active == Some(row.phase) && row.elapsed - r.phaseStarted == row.phaseElapsed
  }

  predicate EventFits(r: Reading, row: Row) {
    if row.event == "begin" then r.active.None?
    else if row.event == "progress" || row.event == "end" then InPhase(r, row)
    else if row.event == "complete" || row.event == "interrupted" || row.event == "failed" then
      && (r.active.Some? ==> InPhase(r, row))
      && (r.active.None? && r.last.Some? ==> row.phase == r.last.value.phase)
      && "phase_incomplete" in row.details && row.details["phase_incomplete"] == Flag(r.active.Some?)
      && (row.event == "complete" ==> r.active.None?)
    else false
  }

  /** A phase's earlier occurrences count too. */
  function Lasted(durations: map<string, int>, phase: string, elapsed: int): map<string, int> {
    durations[phase := (if phase in durations then durations[phase] else 0) + elapsed]
  }

  function ReadRow(r: Reading, row: Row, build: Option<string>): Result<Reading> {
    if row.kind != KIND || row.sequence != r.events + 1 || !ClocksAgree(r, row) || !IdentityAgrees(r, row, build)
       || row.phase == "" || r.terminal.Some? || !EventFits(r, row) then Err
    else
      var begins, ends := row.event == "begin", row.event == "end";
      var terminal := row.event != "begin" && row.event != "progress" && row.event != "end";
      Ok(Reading(
        r.events + 1,
        if begins then Some(row.phase) else if ends then None else r.active,
        if begins then row.elapsed - row.phaseElapsed else r.phaseStarted,
        row.elapsed,
        Some(row.identity),
        Some(row),
        (if begins then map[] else r.details) + row.details,
        if ends then Lasted(r.durations, row.phase, row.phaseElapsed) else r.durations,
        if terminal then Some(row.event) else r.terminal))
  }

  function ReadLine(r: Reading, line: seq<Byte>, codec: Codec, build: Option<string>): Result<Reading> {
    if r.events + 1 > 10000 || |line| > 4096 then Err
    else
      var row := codec.parse(line);
      if row.None? then Err else ReadRow(r, row.value, build)
  }

  function ReadLines(lines: seq<seq<Byte>>, n: nat, codec: Codec, build: Option<string>): Result<Reading>
    requires n <= |lines|
  {
    if n == 0 then Ok(NOTHING)
    else
      var before := ReadLines(lines, n - 1, codec, build);
      if before.Err? then Err else ReadLine(before.value, lines[n - 1], codec, build)
  }

  datatype Summary = Summary(
    available: bool, identity: Option<Identity>, events: nat, status: string, complete: bool,
    lastPhase: Option<string>, unfinishedPhase: Option<string>, lastElapsed: Option<int>,
    unfinishedElapsed: Option<int>, completed: map<string, int>, details: Details, partialIgnored: bool)

  function Conclude(r: Reading, lines: nat, partial: bool): Result<Summary> {
    if r.terminal.Some? && partial then Err
    else Ok(Summary(
      r.last.Some?, r.identity, lines,
      if r.terminal.Some? then r.terminal.value else "unfinished",
      r.terminal == Some("complete"),
      if r.last.Some? then Some(r.last.value.phase) else None,
      r.active,
      if r.last.Some? then Some(r.last.value.elapsed) else None,
      if r.last.Some? && r.active.Some? then Some(r.last.value.phaseElapsed) else None,
      r.durations, r.details, partial))
  }

  function Summarized(raw: seq<Byte>, codec: Codec, build: Option<string>): Result<Summary> {
    if |raw| > 40 * 1024 * 1024 then Err
    else
      var split := SplitLines(raw);
      var end := ReadLines(split.lines, |split.lines|, codec, build);
      if end.Err? then Err else Conclude(end.value, |split.lines|, split.rest != [])
  }

  lemma {:induction false} ReadStaysErr(lines: seq<seq<Byte>>, n: nat, m: nat, codec: Codec, build: Option<string>)
    requires n <= m <= |lines| && ReadLines(lines, n, codec, build).Err?
    ensures ReadLines(lines, m, codec, build).Err?
  {
    if n < m {
      ReadStaysErr(lines, n, m - 1, codec, build);
    }
  }

  method Summarize(raw: seq<Byte>, codec: Codec, build: Option<string>) returns (summary: Result<Summary>)
    ensures summary == Summarized(raw, codec, build)
  {
    hide ClocksAgree, IdentityAgrees, EventFits, SplitLines, Conclude;
    if |raw| > 40 * 1024 * 1024 {
      return Err;
    }
    var split := SplitLines(raw);
    var lines, partial := split.lines, split.rest != [];
    var active: Option<string>, phaseStarted, previous := None, 0, -1;
    var identity: Option<Identity>, last: Option<Row>, details: Details := None, None, map[];
    var durations: map<string, int>, terminal: Option<string> := map[], None;
    for i := 0 to |lines|
      invariant ReadLines(lines, i, codec, build)
             == Ok(Reading(i, active, phaseStarted, previous, identity, last, details, durations, terminal))
    {
      ghost var before := Reading(i, active, phaseStarted, previous, identity, last, details, durations, terminal);
      if i + 1 > 10000 || |lines[i]| > 4096 || codec.parse(lines[i]).None? {
        ReadStaysErr(lines, i + 1, |lines|, codec, build);
        return Err;
      }
      var row := codec.parse(lines[i]).value;
      var r := Reading(i, active, phaseStarted, previous, identity, last, details, durations, terminal);
      if row.kind != KIND || row.sequence != i + 1 || !ClocksAgree(r, row) || !IdentityAgrees(r, row, build)
         || row.phase == "" || terminal.Some? || !EventFits(r, row) {
        ReadStaysErr(lines, i + 1, |lines|, codec, build);
        return Err;
      }
      previous := row.elapsed;
      identity := Some(row.identity);
      if row.event == "begin" {
        active, phaseStarted, details := Some(row.phase), row.elapsed - row.phaseElapsed, map[];
      } else if row.event != "progress" && row.event != "end" {
        terminal := Some(row.event);
      }
      details := details + row.details;
      if row.event == "end" {
        durations := Lasted(durations, row.phase, row.phaseElapsed);
        active := None;
      }
      last := Some(row);
    }
    summary := Conclude(Reading(|lines|, active, phaseStarted, previous, identity, last, details, durations, terminal),
                        |lines|, partial);
  }
}
