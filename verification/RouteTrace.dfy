/** The route-capture writer: nested requests, forwards and layers, with commit and abort. */
module RouteTrace {
  import opened Common

  datatype Event =
    | TraceBegin
    | RequestBegin(name: string, input: seq<int>, maxTokens: int, prime: bool)
    | RequestEnd(output: seq<int>, reason: string, reused: nat)
    | ForwardBegin(session: nat, offset: nat, input: seq<int>, phase: string, slots: nat)
    | Routes(layer: nat, selected: seq<int>)
    | ForwardCommit(position: nat)
    | ForwardAbort(layers: nat)
    | CacheReset
    | TraceEnd(complete: bool)

  datatype Line = Line(sequence: nat, requestId: nat, forwardId: nat, event: Event)

  // ---------- the writer ----------

  datatype Writer = Writer(request: bool, forward: bool, terminal: bool, nextLayer: nat, offset: nat, tokens: nat,
                           requestId: nat, forwardId: nat, bytes: nat, log: seq<Line>)

  datatype Call =
    | StartRequest(name: string, prompt: seq<int>, maxTokens: int, prime: bool)
    | EndRequest(output: seq<int>, reason: string, reused: nat)
    | Begin(session: nat, from: nat, input: seq<int>, phase: string, slots: nat)
    | Route(index: int, at: nat, width: nat, selected: seq<int>)
    | Commit(position: nat)
    | Abort
    | Reset
    | Finish

  datatype Outcome = Written | Refused | Ignored | Failed

  predicate Allowed(w: Writer, c: Call) {
    match c
    case StartRequest(_, _, _, _) => !w.request && !w.forward && !w.terminal
    case EndRequest(_, _, _) => w.request && !w.forward && !w.terminal
    case Begin(session, from, input, _, _) =>
      w.request && !w.forward && !w.terminal && input != [] && from + |input| <= 8192 && session != 0
    case Route(index, at, width, selected) =>
      w.forward && !w.terminal && index == w.nextLayer && index < LAYERS && at == w.offset && width == w.tokens
      && |selected| == width * TOP_K
    case Commit(position) => w.forward && !w.terminal && w.nextLayer == LAYERS && position == w.offset + w.tokens
    case Abort => w.forward && !w.terminal
    case Reset => true
    case Finish => !w.request && !w.forward && !w.terminal
  }

  /** Fields set before the line is written. */
  function Entered(w: Writer, c: Call): Writer {
    match c
    case StartRequest(_, _, _, _) => w.(request := true, requestId := w.requestId + 1)
    case Begin(_, from, input, _, _) =>
      w.(forward := true, forwardId := w.forwardId + 1, nextLayer := 0, offset := from, tokens := |input|)
    case _ => w
  }

  function EventFor(w: Writer, c: Call): Event {
    match c
    case StartRequest(name, prompt, maxTokens, prime) => RequestBegin(name, prompt, maxTokens, prime)
    case EndRequest(output, reason, reused) => RequestEnd(output, reason, reused)
    case Begin(session, from, input, phase, slots) => ForwardBegin(session, from, input, phase, slots)
    case Route(index, _, _, selected) => Routes(if index >= 0 then index else 0, selected)
    case Commit(position) => ForwardCommit(position)
    case Abort => ForwardAbort(w.nextLayer)
    case Reset => CacheReset
    case Finish => TraceEnd(true)
  }

  /** Fields set once it is. */
  function Settled(w: Writer, c: Call): Writer {
    match c
    case EndRequest(_, _, _) => w.(request := false)
    case Route(_, _, _, _) => w.(nextLayer := w.nextLayer + 1)
    case Commit(_) => w.(forward := false)
    case Abort => w.(forward := false)
    case Finish => w.(terminal := true)
    case _ => w
  }

  /** `size` is how many bytes a line takes, its newline included. */
  function Emitted(w: Writer, event: Event, size: Line -> nat): Option<Writer> {
    var line := Line(|w.log| + 1, w.requestId, w.forwardId, event);
    if |w.log| >= 20000 || size(line) > 65536 || w.bytes + size(line) > 16 * 1024 * 1024 then None
    else Some(w.(log := w.log + [line], bytes := w.bytes + size(line)))
  }

  function Apply(w: Writer, c: Call, size: Line -> nat): (Writer, Outcome) {
    if !Allowed(w, c) then (w, if c.Abort? then Ignored else Refused)
    else
      var entered := Entered(w, c);
      var emitted := Emitted(entered, EventFor(w, c), size);
      if emitted.None? then (entered, Failed) else (Settled(emitted.value, c), Written)
  }

  function Opened(size: Line -> nat): Option<Writer> {
    Emitted(Writer(false, false, false, 0, 0, 0, 0, 0, 0, []), TraceBegin, size)
  }

  /** The destructor marks an unfinished trace as incomplete, if it still can. */
  function Closed(w: Writer, size: Line -> nat): Writer {
    if w.terminal then w
    else
      var emitted := Emitted(w, TraceEnd(false), size);
      if emitted.None? then w else emitted.value
  }

  class Trace {
    const size: Line -> nat
    var request: bool
    var forward: bool
    var terminal: bool
    var nextLayer: nat
    var offset: nat
    var tokens: nat
    var requestId: nat
    var forwardId: nat
    var sequence: nat
    var bytes: nat
    var log: seq<Line>

    ghost function Value(): Writer
      reads this
    {
      Writer(request, forward, terminal, nextLayer, offset, tokens, requestId, forwardId, bytes, log)
    }

    ghost predicate Valid()
      reads this
    {
      sequence == |log|
    }

    constructor (size: Line -> nat)
      requires Opened(size).Some?
      ensures Valid() && Some(Value()) == Opened(size) && this.size == size
    {
      this.size := size;
      request, forward, terminal := false, false, false;
      nextLayer, offset, tokens, requestId, forwardId := 0, 0, 0, 0, 0;
      sequence, bytes, log := 1, size(Line(1, 0, 0, TraceBegin)), [Line(1, 0, 0, TraceBegin)];
      new;
      assert [] + [Line(1, 0, 0, TraceBegin)] == log;
    }

    method Emit(event: Event) returns (ok: bool)
      requires Valid()
      modifies this`sequence, this`bytes, this`log
      ensures Valid() && ok == Emitted(old(Value()), event, size).Some?
      ensures Value() == if ok then Emitted(old(Value()), event, size).value else old(Value())
    {
      if sequence >= 20000 {
        return false;
      }
      var line := Line(sequence + 1, requestId, forwardId, event);
      if size(line) > 65536 || bytes + size(line) > 16 * 1024 * 1024 {
        return false;
      }
      log := log + [line];
      sequence := sequence + 1;
      bytes := bytes + size(line);
      return true;
    }

    method RequestStarts(name: string, prompt: seq<int>, maxTokens: int, prime: bool) returns (outcome: Outcome)
      requires Valid()
      modifies this
      ensures Valid() && (Value(), outcome) == Apply(old(Value()), StartRequest(name, prompt, maxTokens, prime), size)
    {
      if request || forward || terminal {
        return Refused;
      }
      request := true;
      requestId := requestId + 1;
      var ok := Emit(RequestBegin(name, prompt, maxTokens, prime));
      return if ok then Written else Failed;
    }

    method RequestEnds(output: seq<int>, reason: string, reused: nat) returns (outcome: Outcome)
      requires Valid()
      modifies this
      ensures Valid() && (Value(), outcome) == Apply(old(Value()), EndRequest(output, reason, reused), size)
    {
      if !request || forward || terminal {
        return Refused;
      }
      var ok := Emit(RequestEnd(output, reason, reused));
      if !ok {
        return Failed;
      }
      request := false;
      return Written;
    }

    method ForwardBegins(session: nat, from: nat, input: seq<int>, phase: string, slots: nat) returns (outcome: Outcome)
      requires Valid()
      modifies this
      ensures Valid() && (Value(), outcome) == Apply(old(Value()), Begin(session, from, input, phase, slots), size)
    {
      if !request || forward || terminal || input == [] || from + |input| > 8192 || session == 0 {
        return Refused;
      }
      forward := true;
      forwardId := forwardId + 1;
      nextLayer, offset, tokens := 0, from, |input|;
      var ok := Emit(ForwardBegin(session, from, input, phase, slots));
      return if ok then Written else Failed;
    }

    method LayerRoutes(index: int, at: nat, width: nat, selected: seq<int>) returns (outcome: Outcome)
      requires Valid()
      modifies this
      ensures Valid() && (Value(), outcome) == Apply(old(Value()), Route(index, at, width, selected), size)
    {
      if !forward || terminal || index != nextLayer || index >= LAYERS || at != offset || width != tokens
         || |selected| != width * TOP_K {
        return Refused;
      }
      var ok := Emit(Routes(index, selected));
      if !ok {
        return Failed;
      }
      nextLayer := nextLayer + 1;
      return Written;
    }

    method ForwardCommits(position: nat) returns (outcome: Outcome)
      requires Valid()
      modifies this
      ensures Valid() && (Value(), outcome) == Apply(old(Value()), Commit(position), size)
    {
      if !forward || terminal || nextLayer != LAYERS || position != offset + tokens {
        return Refused;
      }
      var ok := Emit(ForwardCommit(position));
      if !ok {
        return Failed;
      }
      forward := false;
      return Written;
    }

    method ForwardAborts() returns (outcome: Outcome)
      requires Valid()
      modifies this
      ensures Valid() && (Value(), outcome) == Apply(old(Value()), Abort, size)
    {
      if forward && !terminal {
        var ok := Emit(ForwardAbort(nextLayer));
        if !ok {
          return Failed;
        }
        forward := false;
        return Written;
      }
      return Ignored;
    }

    method CacheResets() returns (outcome: Outcome)
      requires Valid()
      modifies this
      ensures Valid() && (Value(), outcome) == Apply(old(Value()), Reset, size)
    {
      var ok := Emit(CacheReset);
      return if ok then Written else Failed;
    }

    method TraceFinishes() returns (outcome: Outcome)
      requires Valid()
      modifies this
      ensures Valid() && (Value(), outcome) == Apply(old(Value()), Finish, size)
    {
      if request || forward || terminal {
        return Refused;
      }
      var ok := Emit(TraceEnd(true));
      if !ok {
        return Failed;
      }
      terminal := true;
      return Written;
    }

    method Destroy()
      requires Valid()
      modifies this
      ensures Value() == Closed(old(Value()), size)
    {
      if !terminal {
        var ok := Emit(TraceEnd(false));
      }
    }
  }
}
