/** The reader of a route capture: every line checked against what the lines before it left open. */
module RouteReader {
  import opened Common
  import opened RouteTrace

  /** A forward being read: its session, offset, input tokens and layers so far. */
  datatype Open = Open(session: nat, offset: nat, input: seq<int>, layers: nat)

  /** A request being read, and how long each session was when it began. */
  datatype Pending = Pending(input: seq<int>, maxTokens: int, prime: bool, initial: map<nat, nat>, aborted: bool)

  datatype Reading = Reading(
    lines: nat, request: Option<Pending>, forward: Option<Open>, requestId: nat, forwardId: nat,
    ended: Option<bool>, states: map<nat, seq<int>>, current: Option<nat>)

  const UNREAD := Reading(0, None, None, 0, 0, None, map[], None)

  predicate Tokens(value: seq<int>) {
    |value| <= 8192 && forall i :: 0 <= i < |value| ==> 0 <= value[i] < 248320
  }

  /** The tokens committed to a session so far. */
  function Committed(r: Reading, session: nat): seq<int> {
    if session in r.states then r.states[session] else []
  }

  function Sizes(states: map<nat, seq<int>>): map<nat, nat> {
    map session | session in states :: |states[session]|
  }

  /** The output obeys the request's stopping rule. */
  predicate Stops(p: Pending, output: seq<int>, reason: string) {
    && Tokens(output) && (reason == "length" || reason == "stop" || reason == "primed")
    && |output| <= p.maxTokens && (p.prime <==> reason == "primed") && (p.prime <==> output == [])
    && (reason == "length" ==> |output| == p.maxTokens)
    && (reason == "stop" ==> output != [] && (output[|output| - 1] == 248044 || output[|output| - 1] == 248046))
  }

  /** The last committed session holds the prompt and all outputs but the last, and was reused as far as claimed. */
  predicate Continues(r: Reading, p: Pending, output: seq<int>, reused: nat) {
    && reused <= |p.input|
    && r.current.Some? && r.current.value in r.states
    && r.states[r.current.value] == p.input + (if output == [] then [] else output[..|output| - 1])
    && reused == if r.current.value in p.initial then p.initial[r.current.value] else 0
  }

  function Follow(r: Reading, e: Event): Option<Reading> {
    var next := r.(lines := r.lines + 1);
    if e.TraceBegin? then (if r.lines == 0 then Some(next) else None)
    else if r.lines == 0 || r.ended.Some? then None
    else match e
      case RequestBegin(_, input, maxTokens, prime) =>
        if r.request.Some? || r.forward.Some? || input == [] || !Tokens(input) || maxTokens < 1 then None
        else Some(next.(request := Some(Pending(input, maxTokens, prime, Sizes(r.states), false)),
                        requestId := r.requestId + 1))
      case ForwardBegin(session, offset, input, phase, slots) =>
        if r.request.None? || r.forward.Some? || input == [] || !Tokens(input) || offset + |input| > 8192
           || phase == "" || slots < 1 || offset != |Committed(r, session)| then None
        else Some(next.(forward := Some(Open(session, offset, input, 0)), forwardId := r.forwardId + 1))
      case Routes(layer, selected) =>
        if r.forward.None? || layer != r.forward.value.layers || layer >= LAYERS
           || !TopRoutes(selected, |r.forward.value.input|) then None
        else Some(next.(forward := Some(r.forward.value.(layers := layer + 1))))
      case ForwardCommit(position) =>
        if r.forward.None? || r.forward.value.layers != LAYERS
           || position != r.forward.value.offset + |r.forward.value.input| then None
        else
          var f := r.forward.value;
          Some(next.(forward := None, states := r.states[f.session := Committed(r, f.session) + f.input],
                     current := Some(f.session)))
      case ForwardAbort(layers) =>
        if r.forward.None? || r.request.None? || layers != r.forward.value.layers then None
        else Some(next.(forward := None, request := Some(r.request.value.(aborted := true))))
      case RequestEnd(output, reason, reused) =>
        if r.request.None? || r.forward.Some? || r.request.value.aborted
           || !Stops(r.request.value, output, reason) || !Continues(r, r.request.value, output, reused) then None
        else Some(next.(request := None))
      case CacheReset => if r.forward.Some? then None else Some(next)
      case TraceEnd(complete) =>
        if complete && (r.request.Some? || r.forward.Some?) then None else Some(next.(ended := Some(complete)))
  }

  /** A line must carry its position and the ids its event implies. */
  function FollowLine(r: Reading, line: Line): Option<Reading> {
    var next := Follow(r, line.event);
    if next.None? || line.sequence != r.lines + 1
       || line.requestId != next.value.requestId || line.forwardId != next.value.forwardId then None
    else next
  }

  function ReadLog(log: seq<Line>, n: nat): Option<Reading>
    requires n <= |log|
  {
    if n == 0 then Some(UNREAD)
    else
      var before := ReadLog(log, n - 1);
      if before.None? then None else FollowLine(before.value, log[n - 1])
  }

  lemma {:induction false} ReadPrefix(a: seq<Line>, b: seq<Line>, k: nat)
    requires k <= |a| && k <= |b| && a[..k] == b[..k]
    ensures ReadLog(a, k) == ReadLog(b, k)
  {
    hide FollowLine;
    if k > 0 {
      assert a[..k - 1] == a[..k][..k - 1] && b[..k - 1] == b[..k][..k - 1];
      assert a[k - 1] == a[..k][k - 1] == b[k - 1];
      ReadPrefix(a, b, k - 1);
    }
  }

  lemma {:induction false} ReadStaysNone(log: seq<Line>, k: nat, m: nat)
    requires k <= m <= |log| && ReadLog(log, k).None?
    ensures ReadLog(log, m).None?
  {
    hide FollowLine;
    if k < m {
      ReadStaysNone(log, k, m - 1);
    }
  }

  lemma ReadNext(log: seq<Line>, line: Line)
    ensures ReadLog(log + [line], |log| + 1)
         == if ReadLog(log, |log|).None? then None else FollowLine(ReadLog(log, |log|).value, line)
  {
    hide FollowLine;
    assert (log + [line])[..|log|] == log[..|log|];
    ReadPrefix(log + [line], log, |log|);
  }
}
