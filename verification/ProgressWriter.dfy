/** Writing a progress log: one flushed line per phase event, against a clock that never goes back. */
module ProgressWriter {
  import opened Common
  import opened ProgressReader

  /** What the object holds, with the rows it has flushed. */
  datatype Writer = Writer(identity: Identity, kind: string, started: nat, phaseStarted: nat, phase: string,
                           active: bool, terminal: bool, sequence: nat, rows: seq<Row>)

  /** Refused calls raise a logic error and change nothing; overflowing ones raise after counting the event. */
  datatype Outcome = Flushed | Refused | Overflow

  datatype Call =
    | Begin(phase: string, details: Details, started: nat)
    | Update(details: Details)
    | End(details: Details)
    | Finish(status: string, error: string)

  /** What the object is opened with, and the clock at that moment. */
  datatype Opening = Opening(identity: Identity, kind: string, origin: nat)

  function Opened(o: Opening): Writer {
    Writer(o.identity, o.kind, o.origin, o.origin, "", false, false, 0, [])
  }

  predicate Allowed(w: Writer, c: Call) {
    match c
    case Begin(_, _, _) => !w.active && !w.terminal
    case Update(_) => w.active && !w.terminal
    case End(_) => w.active && !w.terminal
    case Finish(status, _) =>
      !w.terminal && (status == "complete" || status == "interrupted" || status == "failed")
      && !(status == "complete" && w.active)
  }

  function Prefix(s: string, n: nat): string {
    if |s| <= n then s else s[..n]
  }

  function EventOf(c: Call): string {
    match c
    case Begin(_, _, _) => "begin"
    case Update(_) => "progress"
    case End(_) => "end"
    case Finish(status, _) => status
  }

  function DetailsOf(w: Writer, c: Call): Details {
    match c
    case Begin(_, details, _) => details
    case Update(details) => details
    case End(details) => details
    case Finish(_, error) => map["phase_incomplete" := Flag(w.active), "error" := Text(Prefix(error, 1024))]
  }

  /** The fields a call sets before it emits. */
  function Entered(w: Writer, c: Call): Writer {
    if c.Begin? then w.(phase := c.phase, phaseStarted := c.started, active := true) else w
  }

  /** On a clock that never goes back the two differences are the unsigned ones the file carries. */
  function RowFor(w: Writer, c: Call, now: nat): Row {
    Row(w.kind, w.sequence + 1, now, now - w.started, now - w.phaseStarted, w.phase, EventOf(c), w.identity,
        DetailsOf(w, c))
  }

  predicate Fits(row: Row, codec: Codec) {
    row.sequence <= 10000 && |codec.encode(row)| + 1 <= 4096
  }

  /** The fields a call sets once its line is flushed. */
  function Left(w: Writer, c: Call): Writer {
    match c
    case Begin(_, _, _) => w
    case Update(_) => w
    case End(_) => w.(active := false)
    case Finish(_, _) => w.(terminal := true)
  }

  /** One call with its two clock readings: `c.started` when a phase begins, `now` when the line is made. */
  function Apply(w: Writer, c: Call, now: nat, codec: Codec): (Writer, Outcome)
  {
    if !Allowed(w, c) then (w, Refused)
    else
      var entered := Entered(w, c);
      var row := RowFor(entered, c, now);
      if !Fits(row, codec) then (entered.(sequence := entered.sequence + 1), Overflow)
      else (Left(entered.(sequence := entered.sequence + 1, rows := entered.rows + [row]), c), Flushed)
  }

  /** The file: every row's line in order. */
  ghost function Log(rows: seq<Row>, codec: Codec): seq<Byte> {
    if rows == [] then []
    else Log(rows[..|rows| - 1], codec) + codec.encode(rows[|rows| - 1]) + [NEWLINE]
  }

  class CachedProgress {
    const identity: Identity
    const kind: string
    const codec: Codec
    const started: nat
    var phaseStarted: nat
    var phase: string
    var active: bool
    var terminal: bool
    var sequence: nat
    var stream: seq<Byte>
    ghost var rows: seq<Row>

    ghost function Value(): Writer
      reads this
    {
      Writer(identity, kind, started, phaseStarted, phase, active, terminal, sequence, rows)
    }

    ghost predicate Valid()
      reads this
    {
      stream == Log(rows, codec)
    }

    constructor (identity: Identity, kind: string, codec: Codec, now: nat)
      ensures Valid() && Value() == Opened(Opening(identity, kind, now)) && this.codec == codec
    {
      this.identity, this.kind, this.codec := identity, kind, codec;
      started, phaseStarted := now, now;
      phase, active, terminal, sequence, stream, rows := "", false, false, 0, [], [];
    }

    method Emit(event: string, details: Details, now: nat) returns (ok: bool)
      requires Valid() && now >= started && now >= phaseStarted
      modifies this`sequence, this`stream, this`rows
      ensures Valid() && sequence == old(sequence) + 1
      ensures var row := Row(kind, sequence, now, now - started, now - phaseStarted, phase, event, identity, details);
        ok == Fits(row, codec) && rows == if ok then old(rows) + [row] else old(rows)
    {
      sequence := sequence + 1;
      if sequence > 10000 {
        return false;
      }
      var row := Row(kind, sequence, now, now - started, now - phaseStarted, phase, event, identity, details);
      var line := codec.encode(row) + [NEWLINE];
      if |line| > 4096 {
        return false;
      }
      stream := stream + line;
      assert (rows + [row])[..|rows|] == rows;
      rows := rows + [row];
      return true;
    }

    method BeginPhase(phase: string, details: Details, started: nat, now: nat) returns (outcome: Outcome)
      requires Valid() && this.started <= started <= now && now >= phaseStarted
      modifies this
      ensures Valid() && (Value(), outcome) == Apply(old(Value()), Begin(phase, details, started), now, codec)
    {
      hide Fits, Log;
      if active || terminal {
        return Refused;
      }
      this.phase, phaseStarted, active := phase, started, true;
      var ok := Emit("begin", details, now);
      return if ok then Flushed else Overflow;
    }

    method Progress(details: Details, now: nat) returns (outcome: Outcome)
      requires Valid() && now >= started && now >= phaseStarted
      modifies this
      ensures Valid() && (Value(), outcome) == Apply(old(Value()), Update(details), now, codec)
    {
      hide Fits, Log;
      if !active || terminal {
        return Refused;
      }
      var ok := Emit("progress", details, now);
      return if ok then Flushed else Overflow;
    }

    method EndPhase(details: Details, now: nat) returns (outcome: Outcome)
      requires Valid() && now >= started && now >= phaseStarted
      modifies this
      ensures Valid() && (Value(), outcome) == Apply(old(Value()), End(details), now, codec)
    {
      hide Fits, Log;
      if !active || terminal {
        return Refused;
      }
      var ok := Emit("end", details, now);
      if !ok {
        return Overflow;
      }
      active := false;
      return Flushed;
    }

    method Finish(status: string, error: string, now: nat) returns (outcome: Outcome)
      requires Valid() && now >= started && now >= phaseStarted
      modifies this
      ensures Valid() && (Value(), outcome) == Apply(old(Value()), Call.Finish(status, error), now, codec)
    {
      hide Fits, Log, Prefix;
      if terminal || (status != "complete" && status != "interrupted" && status != "failed")
         || (status == "complete" && active) {
        return Refused;
      }
      var ok := Emit(status, map["phase_incomplete" := Flag(active), "error" := Text(Prefix(error, 1024))], now);
      if !ok {
        return Overflow;
      }
      terminal := true;
      return Flushed;
    }
  }
}
