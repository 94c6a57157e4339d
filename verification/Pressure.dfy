/** Memory pressure: an inbox other threads publish to, and the coordinator's coalescing shrink policy. */
module Pressure {
  import opened Common

  type Bits = bv8

  /** How often each level was published. */
  type Counts = s: seq<nat> | |s| == 3 witness [0, 0, 0]

  const SECOND: nat := 1_000_000_000
  const WORD: nat := 0x1_0000_0000_0000_0000

  function Bit(level: nat): Bits
    requires level <= 2
  {
    if level == 2 then 4 else if level == 1 then 2 else 1
  }

  predicate Has(bits: Bits, level: nat)
    requires level <= 2
  {
    bits & Bit(level) != 0
  }

  lemma OrBits(a: Bits, b: Bits)
    ensures forall l :: 0 <= l <= 2 ==> (Has(a | b, l) <==> Has(a, l) || Has(b, l))
  {
    OrBit(a, b, 0);
    OrBit(a, b, 1);
    OrBit(a, b, 2);
  }

  lemma OrBit(a: Bits, b: Bits, l: nat)
    requires l <= 2
    ensures Has(a | b, l) <==> Has(a, l) || Has(b, l)
  {
    assert (a | b) & 1 == (a & 1) | (b & 1);
    assert (a | b) & 2 == (a & 2) | (b & 2);
    assert (a | b) & 4 == (a & 4) | (b & 4);
  }

  lemma SetsOneBit(bits: Bits, level: nat)
    requires level <= 2
    ensures forall l :: 0 <= l <= 2 ==> (Has(bits | Bit(level), l) <==> l == level || Has(bits, l))
  {
    OrBits(bits, Bit(level));
    forall l: nat | l <= 2
      ensures Has(Bit(level), l) <==> l == level
    {
      OnlyBit(level, l);
    }
  }

  lemma OnlyBit(level: nat, l: nat)
    requires level <= 2 && l <= 2
    ensures Has(Bit(level), l) <==> l == level
  {
    var one: Bits, two: Bits, four: Bits := 1, 2, 4;
    assert one & two == 0 && one & four == 0 && two & four == 0;
    assert two & one == 0 && four & one == 0 && four & two == 0;
    assert one & one == 1 && two & two == 2 && four & four == 4;
  }

  // ---------- the inbox ----------

  class PressureInbox {
    var pending: Bits
    var counts: Counts

    constructor ()
      ensures pending == 0 && counts == [0, 0, 0]
    {
      pending, counts := 0, [0, 0, 0];
    }

    method Publish(level: nat)
      modifies this
      ensures level > 2 ==> pending == old(pending) && counts == old(counts)
      ensures level <= 2 ==>
        && counts == old(counts)[level := old(counts)[level] + 1]
        && Has(pending, level)
        && forall other :: 0 <= other <= 2 && other != level ==> Has(pending, other) == Has(old(pending), other)
    {
      if level > 2 {
        return;
      }
      counts := counts[level := counts[level] + 1];
      SetsOneBit(pending, level);
      pending := pending | Bit(level);
    }

    method Take() returns (events: Bits)
      modifies this`pending
      ensures events == old(pending) && pending == 0
    {
      events := pending;
      pending := 0;
    }
  }

  // ---------- the policy ----------

  datatype Policy = Policy(pending: Bits, lastWarning: Option<nat>)

  datatype Decision = Decision(level: nat, before: nat, requested: nat)

  /** The strongest level pending. */
  function Strongest(bits: Bits): (level: nat)
    requires bits != 0
    ensures level <= 2
    ensures forall l :: level < l <= 2 ==> !Has(bits, l)
    ensures bits < 8 ==> Has(bits, level)
  {
    if bits & 4 != 0 then 2 else if bits & 2 != 0 then 1 else 0
  }

  /** Unsigned 64-bit difference. */
  function Elapsed(now: nat, since: nat): nat {
    (now - since) % WORD
  }

  function Target(level: nat, capacity: nat, shrink: bool): nat {
    if !shrink || capacity <= 32 then capacity
    else if level == 2 then (if capacity / 2 > 32 then capacity / 2 else 32)
    else if level == 1 then (if capacity > 420 then capacity - 388 else 32)
    else capacity
  }

  function Both(a: Bits, b: Bits): Bits {
    a | b
  }

  function Poll(p: Policy, events: Bits, now: nat, capacity: nat, shrink: bool): (Policy, Option<Decision>) {
    var pending := Both(p.pending, events);
    if pending == 0 then (p.(pending := pending), None)
    else
      var level := Strongest(pending);
      if shrink && level == 1 && p.lastWarning.Some? && Elapsed(now, p.lastWarning.value) < SECOND then
        (p.(pending := pending), None)
      else
        (Policy(0, if shrink && capacity > 32 && level == 1 then Some(now) else p.lastWarning),
         Some(Decision(level, capacity, Target(level, capacity, shrink))))
  }

  class PressurePolicy {
    var pending: Bits
    var lastWarning: Option<nat>

    ghost function Value(): Policy
      reads this
    {
      Policy(pending, lastWarning)
    }

    constructor ()
      ensures Value() == Policy(0, None)
    {
      pending, lastWarning := 0, None;
    }

    method PollEvents(events: Bits, now: nat, capacity: nat, shrink: bool) returns (decision: Option<Decision>)
      modifies this
      ensures (Value(), decision) == Poll(old(Value()), events, now, capacity, shrink)
    {
      hide Strongest, Elapsed, Target, Both;
      pending := Both(pending, events);
      if pending == 0 {
        return None;
      }
      var level := Strongest(pending);
      if shrink && level == 1 && lastWarning.Some? && Elapsed(now, lastWarning.value) < SECOND {
        return None;
      }
      pending := 0;
      var target := Decide(level, now, capacity, shrink);
      return Some(Decision(level, capacity, target));
    }

    method Decide(level: nat, now: nat, capacity: nat, shrink: bool) returns (target: nat)
      modifies this`lastWarning
      ensures target == Target(level, capacity, shrink)
      ensures lastWarning == if shrink && capacity > 32 && level == 1 then Some(now) else old(lastWarning)
    {
      target := capacity;
      if shrink && capacity > 32 {
        if level == 2 {
          target := if capacity / 2 > 32 then capacity / 2 else 32;
        } else if level == 1 {
          target := if capacity > 420 then capacity - 388 else 32;
          lastWarning := Some(now);
        }
      }
    }
  }

  /** A request stays within [min(32, capacity), capacity], and shrinks whenever it may and pressure asks. */
  lemma RequestIsBounded(p: Policy, events: Bits, now: nat, capacity: nat, shrink: bool)
    requires Poll(p, events, now, capacity, shrink).1.Some?
    ensures var d := Poll(p, events, now, capacity, shrink).1.value;
      && d.before == capacity
      && (if capacity < 32 then capacity else 32) <= d.requested <= capacity
      && (d.requested < capacity <==> shrink && capacity > 32 && d.level >= 1)
  {
  }

  /** A critical request halves the capacity and a warning gives back 388 slots, but neither goes below 32. */
  lemma RequestAmount(p: Policy, events: Bits, now: nat, capacity: nat)
    requires capacity > 32 && Poll(p, events, now, capacity, true).1.Some?
    ensures var d := Poll(p, events, now, capacity, true).1.value;
      && (d.level == 2 && capacity >= 64 ==> 2 * d.requested <= capacity <= 2 * d.requested + 1)
      && (d.level == 1 && capacity >= 420 ==> d.requested == capacity - 388)
      && ((d.level == 2 && capacity < 64) || (d.level == 1 && capacity < 420) ==> d.requested == 32)
      && (d.level == 0 ==> d.requested == capacity)
  {
  }

  /** The capacity after `n` requests of one level, each granted in full. */
  ghost function Shrunk(level: nat, capacity: nat, n: nat): nat {
    if n == 0 then capacity else Target(level, Shrunk(level, capacity, n - 1), true)
  }

  /** Warnings one after the other give back 388 slots each until 32 are left. */
  lemma {:induction false} WarningsAddUp(capacity: nat, n: nat)
    requires capacity >= 32
    ensures Shrunk(1, capacity, n) == if capacity > 32 + 388 * n then capacity - 388 * n else 32
  {
    if n > 0 {
      WarningsAddUp(capacity, n - 1);
    }
  }

  lemma HalfAgain(s: nat, p: nat, capacity: nat)
    requires s * p <= capacity < (s + 1) * p
    ensures s / 2 * (2 * p) <= capacity < (s / 2 + 1) * (2 * p)
  {
    var h := s / 2;
    assert 2 * h <= s <= 2 * h + 1;
    assert h * (2 * p) == 2 * h * p;
    assert (h + 1) * (2 * p) == (2 * h + 2) * p;
    assert 2 * h * p <= s * p;
    assert (s + 1) * p <= (2 * h + 2) * p;
  }

  /** `slots` is the capacity halved until it times `p` is the capacity, or 32. */
  ghost predicate Halved(slots: nat, p: nat, capacity: nat) {
    && slots >= 32 && (slots > 32 ==> slots * p <= capacity < (slots + 1) * p)
    && (capacity < 33 * p ==> slots == 32)
  }

  lemma HalvesOnce(s: nat, p: nat, capacity: nat)
    requires Halved(s, p, capacity) && p > 0
    ensures Halved(Target(2, s, true), 2 * p, capacity)
  {
    var t := Target(2, s, true);
    if t > 32 {
      HalfAgain(s, p, capacity);
      assert (t - 33) * (2 * p) >= 0;
    }
  }

  /** Critical requests halve the capacity each time, until 32 slots are left because 33 would no longer fit. */
  lemma {:induction false} CriticalsHalve(capacity: nat, n: nat)
    requires capacity >= 32
    ensures Halved(Shrunk(2, capacity, n), Pow2(n), capacity)
  {
    if n > 0 {
      CriticalsHalve(capacity, n - 1);
      hide Halved;
      HalvesOnce(Shrunk(2, capacity, n - 1), Pow2(n - 1), capacity);
    }
  }

  // ---------- all interleavings ----------

  datatype Mark =
    | Published(level: nat)
    | Decided(decision: Decision, now: nat)

  /** `counting` holds the publishers between their two atomic steps; `taken` what is about to be polled with. */
  datatype State = State(inbox: Bits, counts: Counts, counting: multiset<nat>, taken: Option<Bits>,
                         policy: Policy, clock: nat, history: seq<Mark>)

  const INITIAL := State(0, [0, 0, 0], multiset{}, None, Policy(0, None), 0, [])

  datatype Step =
    | CountUp(level: nat)
    | SetBit(level: nat)
    | TakeAll
    | PollTaken(now: nat, capacity: nat, shrink: bool)

  ghost predicate Enabled(s: State, step: Step) {
    match step
    case CountUp(level) => level <= 2
    case SetBit(level) => level <= 2 && level in s.counting
    case TakeAll => s.taken.None?
    case PollTaken(now, _, _) => s.taken.Some? && s.clock <= now < WORD
  }

  ghost function Next(s: State, step: Step): State
    requires Enabled(s, step)
  {
    match step
    case CountUp(level) =>
      s.(counts := s.counts[level := s.counts[level] + 1], counting := s.counting + multiset{level})
    case SetBit(level) =>
      s.(inbox := s.inbox | Bit(level), counting := s.counting - multiset{level},
         history := s.history + [Published(level)])
    case TakeAll => s.(taken := Some(s.inbox), inbox := 0)
    case PollTaken(now, capacity, shrink) =>
      var (policy, decision) := Poll(s.policy, s.taken.value, now, capacity, shrink);
      s.(policy := policy, taken := None, clock := now,
         history := s.history + if decision.Some? then [Decided(decision.value, now)] else [])
  }

  ghost predicate IsRun(states: seq<State>, steps: seq<Step>) {
    && |states| == |steps| + 1 && states[0] == INITIAL
    && forall i {:trigger steps[i]} :: 0 <= i < |steps| ==>
         Enabled(states[i], steps[i]) && states[i + 1] == Next(states[i], steps[i])
  }

  ghost predicate Pending(s: State, level: nat)
    requires level <= 2
  {
    || Has(s.inbox, level)
    || (s.taken.Some? && Has(s.taken.value, level))
    || Has(s.policy.pending, level)
  }

  ghost predicate AnsweredAfter(history: seq<Mark>, i: nat, level: nat) {
    exists j :: i < j < |history| && history[j].Decided? && history[j].decision.level >= level
  }

  /** A publication is still pending somewhere or was answered by a later decision at least as strong. */
  ghost predicate Kept(s: State, i: nat)
    requires i < |s.history|
  {
    s.history[i].Published? ==>
      && s.history[i].level <= 2
      && (Pending(s, s.history[i].level) || AnsweredAfter(s.history, i, s.history[i].level))
  }

  ghost predicate IsWarningShrink(m: Mark) {
    m.Decided? && m.decision.level == 1 && m.decision.requested < m.decision.before
  }

  ghost function PublishedCount(history: seq<Mark>, level: nat): nat {
    if history == [] then 0
    else PublishedCount(history[..|history| - 1], level) + if history[|history| - 1] == Published(level) then 1 else 0
  }

  ghost predicate Inv(s: State) {
    && s.clock < WORD
    && (forall i :: 0 <= i < |s.history| ==> Kept(s, i))
    && (forall l :: 0 <= l <= 2 ==> s.counts[l] == PublishedCount(s.history, l) + s.counting[l])
    && (forall i :: 0 <= i < |s.history| && s.history[i].Decided? ==> s.history[i].now <= s.clock)
    && (s.policy.lastWarning.Some? ==> s.policy.lastWarning.value <= s.clock)
    && (forall i :: 0 <= i < |s.history| && IsWarningShrink(s.history[i]) ==>
          s.policy.lastWarning.Some? && s.history[i].now <= s.policy.lastWarning.value)
    && (forall i, j :: 0 <= i < j < |s.history| && IsWarningShrink(s.history[i]) && IsWarningShrink(s.history[j]) ==>
          s.history[j].now - s.history[i].now >= SECOND)
  }

  // ---------- every step keeps it ----------

  lemma NoBits(level: nat)
    requires level <= 2
    ensures !Has(0, level)
  {
    var zero: Bits := 0;
    assert zero & 1 == 0 && zero & 2 == 0 && zero & 4 == 0;
  }

  /** Whatever a poll does, a level pending before it stays pending or is answered at least as strongly. */
  lemma PollAnswers(p: Policy, events: Bits, now: nat, capacity: nat, shrink: bool, level: nat)
    requires level <= 2 && (Has(p.pending, level) || Has(events, level))
    ensures var (p', d) := Poll(p, events, now, capacity, shrink);
      Has(p'.pending, level) || (d.Some? && d.value.level >= level)
  {
    OrBit(p.pending, events, level);
    NoBits(level);
    assert Has(Both(p.pending, events), level);
    hide Elapsed, Target, Has, Strongest, Both;
  }

  lemma AnswersLast(history: seq<Mark>, more: seq<Mark>, i: nat, level: nat)
    requires i < |history| && AnsweredAfter(history, i, level)
    ensures AnsweredAfter(history + more, i, level)
  {
    var j :| i < j < |history| && history[j].Decided? && history[j].decision.level >= level;
    assert (history + more)[j] == history[j];
  }

  lemma SetBitKeeps(s: State, level: nat, i: nat)
    requires Inv(s) && Enabled(s, SetBit(level)) && i <= |s.history|
    ensures Kept(Next(s, SetBit(level)), i)
  {
    var s' := Next(s, SetBit(level));
    SetsOneBit(s.inbox, level);
    if i < |s.history| {
      assert s'.history[i] == s.history[i];
      assert Kept(s, i);
      if s.history[i].Published? && AnsweredAfter(s.history, i, s.history[i].level) {
        AnswersLast(s.history, [Published(level)], i, s.history[i].level);
      }
    }
  }

  lemma PollKeeps(s: State, now: nat, capacity: nat, shrink: bool, i: nat)
    requires Inv(s) && Enabled(s, PollTaken(now, capacity, shrink))
    requires i < |Next(s, PollTaken(now, capacity, shrink)).history|
    ensures Kept(Next(s, PollTaken(now, capacity, shrink)), i)
  {
    var s' := Next(s, PollTaken(now, capacity, shrink));
    var (p, d) := Poll(s.policy, s.taken.value, now, capacity, shrink);
    if i < |s.history| && s.history[i].Published? {
      assert s'.history[i] == s.history[i];
      assert Kept(s, i);
      var level := s.history[i].level;
      if AnsweredAfter(s.history, i, level) {
        AnswersLast(s.history, if d.Some? then [Decided(d.value, now)] else [], i, level);
      } else if !Has(s.inbox, level) {
        PollAnswers(s.policy, s.taken.value, now, capacity, shrink, level);
        if !Has(p.pending, level) {
          assert s'.history[|s.history|] == Decided(d.value, now);
        }
      }
    }
  }

  lemma TakeKeeps(s: State, i: nat)
    requires Inv(s) && s.taken.None? && i < |s.history|
    ensures Kept(Next(s, TakeAll), i)
  {
    assert Kept(s, i);
  }

  lemma CountAppend(history: seq<Mark>, m: Mark, level: nat)
    ensures PublishedCount(history + [m], level)
         == PublishedCount(history, level) + if m == Published(level) then 1 else 0
  {
    assert (history + [m])[..|history|] == history;
  }

  /** Two warning shrinks are a second apart: the second was not held back, so a second had passed. */
  lemma PollSpacesWarnings(s: State, now: nat, capacity: nat, shrink: bool)
    requires Inv(s) && Enabled(s, PollTaken(now, capacity, shrink))
    ensures var s' := Next(s, PollTaken(now, capacity, shrink));
      && (s'.policy.lastWarning.Some? ==> s'.policy.lastWarning.value <= now)
      && (forall i :: 0 <= i < |s'.history| && IsWarningShrink(s'.history[i]) ==>
            s'.policy.lastWarning.Some? && s'.history[i].now <= s'.policy.lastWarning.value)
      && (forall i, j ::
            0 <= i < j < |s'.history| && IsWarningShrink(s'.history[i]) && IsWarningShrink(s'.history[j]) ==>
            s'.history[j].now - s'.history[i].now >= SECOND)
  {
    var s' := Next(s, PollTaken(now, capacity, shrink));
    var (p, d) := Poll(s.policy, s.taken.value, now, capacity, shrink);
    assert forall i :: 0 <= i < |s.history| ==> s'.history[i] == s.history[i];
    if d.Some? {
      RequestIsBounded(s.policy, s.taken.value, now, capacity, shrink);
    }
  }

  lemma CountUpKeepsInv(s: State, level: nat)
    requires Inv(s) && level <= 2
    ensures Inv(Next(s, CountUp(level)))
  {
    var s' := Next(s, CountUp(level));
    forall i | 0 <= i < |s.history|
      ensures Kept(s', i)
    {
      assert Kept(s, i);
    }
  }

  lemma SetBitKeepsInv(s: State, level: nat)
    requires Inv(s) && Enabled(s, SetBit(level))
    ensures Inv(Next(s, SetBit(level)))
  {
    hide Kept, Has;
    var s' := Next(s, SetBit(level));
    SetBitNext(s, level);
    hide Next, PublishedCount;
    forall i | 0 <= i < |s'.history|
      ensures Kept(s', i)
    {
      SetBitKeeps(s, level, i);
    }
    forall l | 0 <= l <= 2
      ensures s'.counts[l] == PublishedCount(s'.history, l) + s'.counting[l]
    {
      CountAppend(s.history, Published(level), l);
    }
  }

  lemma SetBitNext(s: State, level: nat)
    requires Enabled(s, SetBit(level))
    ensures Next(s, SetBit(level)) ==
      s.(inbox := s.inbox | Bit(level), counting := s.counting - multiset{level},
         history := s.history + [Published(level)])
  {
  }

  lemma TakeKeepsInv(s: State)
    requires Inv(s) && s.taken.None?
    ensures Inv(Next(s, TakeAll))
  {
    hide Kept;
    forall i | 0 <= i < |s.history|
      ensures Kept(Next(s, TakeAll), i)
    {
      TakeKeeps(s, i);
    }
  }

  lemma PollKeepsInv(s: State, now: nat, capacity: nat, shrink: bool)
    requires Inv(s) && Enabled(s, PollTaken(now, capacity, shrink))
    ensures Inv(Next(s, PollTaken(now, capacity, shrink)))
  {
    hide Kept, Poll, IsWarningShrink;
    var s' := Next(s, PollTaken(now, capacity, shrink));
    forall i | 0 <= i < |s'.history|
      ensures Kept(s', i)
    {
      PollKeeps(s, now, capacity, shrink, i);
    }
    PollSpacesWarnings(s, now, capacity, shrink);
    forall l | 0 <= l <= 2
      ensures s'.counts[l] == PublishedCount(s'.history, l) + s'.counting[l]
    {
      if |s'.history| > |s.history| {
        CountAppend(s.history, s'.history[|s.history|], l);
        assert s'.history == s.history + [s'.history[|s.history|]];
      } else {
        assert s'.history == s.history;
      }
    }
  }

  lemma StepKeepsInv(s: State, step: Step)
    requires Inv(s) && Enabled(s, step)
    ensures Inv(Next(s, step))
  {
    hide Inv, Next;
    match step
    case CountUp(level) => CountUpKeepsInv(s, level);
    case SetBit(level) => SetBitKeepsInv(s, level);
    case TakeAll => TakeKeepsInv(s);
    case PollTaken(now, capacity, shrink) => PollKeepsInv(s, now, capacity, shrink);
  }

  /** Over every interleaving nothing published is lost, and warning shrinks keep their distance. */
  lemma {:induction false} RunKeepsInv(states: seq<State>, steps: seq<Step>, n: nat)
    requires IsRun(states, steps) && n <= |steps|
    ensures Inv(states[n])
  {
    if n > 0 {
      RunKeepsInv(states, steps, n - 1);
      assert Enabled(states[n - 1], steps[n - 1]);
      StepKeepsInv(states[n - 1], steps[n - 1]);
    }
  }

  /** Once everything is taken and polled with nothing left pending, every publication has its answer. */
  lemma QuietMeansAnswered(states: seq<State>, steps: seq<Step>, n: nat, i: nat)
    requires IsRun(states, steps) && n <= |steps|
    requires var s := states[n];
      s.inbox == 0 && s.taken.None? && s.policy.pending == 0 && i < |s.history| && s.history[i].Published?
    ensures AnsweredAfter(states[n].history, i, states[n].history[i].level)
  {
    RunKeepsInv(states, steps, n);
    assert Kept(states[n], i);
    NoBits(states[n].history[i].level);
  }

  /** A critical event is decided by the poll that sees it; only a lone warning waits, and for less than a second. */
  lemma OnlyWarningsWait(p: Policy, events: Bits, now: nat, capacity: nat, shrink: bool, level: nat)
    requires level <= 2 && (Has(p.pending, level) || Has(events, level))
    requires p.lastWarning.Some? ==> p.lastWarning.value <= now < WORD
    ensures var (p', d) := Poll(p, events, now, capacity, shrink);
      && (d.None? ==> level <= 1 && shrink && p.lastWarning.Some? && now - p.lastWarning.value < SECOND)
      && (d.None? ==> Has(p'.pending, level))
      && (level == 2 ==> d.Some? && d.value.level == 2)
  {
    OrBit(p.pending, events, level);
    NoBits(level);
  }

  // ---------- what the rate limit remembers ----------

  /** When a warning last shrank the cache. */
  ghost function LastShrink(history: seq<Mark>): Option<nat> {
    if history == [] then None
    else
      var last := history[|history| - 1];
      if IsWarningShrink(last) then Some(last.now) else LastShrink(history[..|history| - 1])
  }

  lemma LastShrinkNext(history: seq<Mark>, m: Mark)
    ensures LastShrink(history + [m]) == if IsWarningShrink(m) then Some(m.now) else LastShrink(history)
  {
    assert (history + [m])[..|history|] == history;
  }

  lemma PollRemembers(p: Policy, events: Bits, now: nat, capacity: nat, shrink: bool)
    ensures var (p', d) := Poll(p, events, now, capacity, shrink);
      p'.lastWarning == if d.Some? && IsWarningShrink(Decided(d.value, now)) then Some(now) else p.lastWarning
  {
    if Poll(p, events, now, capacity, shrink).1.Some? {
      RequestIsBounded(p, events, now, capacity, shrink);
    }
    hide Target, Strongest, Elapsed;
  }

  /** In every run the policy remembers exactly the last warning that shrank. */
  lemma {:induction false} RunRemembersShrink(states: seq<State>, steps: seq<Step>, n: nat)
    requires IsRun(states, steps) && n <= |steps|
    ensures states[n].policy.lastWarning == LastShrink(states[n].history)
  {
    hide IsWarningShrink, LastShrink;
    if n == 0 {
      assert LastShrink([]) == None by { NothingShrank(); }
    } else {
      RunRemembersShrink(states, steps, n - 1);
      var s, step := states[n - 1], steps[n - 1];
      assert Enabled(s, step) && states[n] == Next(s, step);
      StepRemembers(s, step);
    }
  }

  lemma NothingShrank()
    ensures LastShrink([]) == None
  {
  }

  lemma StepRemembers(s: State, step: Step)
    requires Enabled(s, step) && s.policy.lastWarning == LastShrink(s.history)
    ensures Next(s, step).policy.lastWarning == LastShrink(Next(s, step).history)
  {
    match step
    case CountUp(_) =>
    case SetBit(level) =>
      LastShrinkNext(s.history, Published(level));
    case TakeAll =>
    case PollTaken(now, capacity, shrink) =>
      var (p, d) := Poll(s.policy, s.taken.value, now, capacity, shrink);
      PollRemembers(s.policy, s.taken.value, now, capacity, shrink);
      hide Poll, LastShrink, IsWarningShrink;
      if d.Some? {
        LastShrinkNext(s.history, Decided(d.value, now));
      } else {
        assert s.history + [] == s.history;
      }
  }

  /**
   * A poll with something pending decides nothing exactly when a warning is all that is pending above normal, shrinking
   * is on, and a warning shrank the cache less than a second before.
   */
  lemma PollWaitsIff(states: seq<State>, steps: seq<Step>, n: nat)
    requires IsRun(states, steps) && n < |steps| && steps[n].PollTaken?
    requires Enabled(states[n], steps[n])
    requires var s := states[n]; exists l: nat :: l <= 2 && (Has(s.policy.pending, l) || Has(s.taken.value, l))
    ensures var s, step := states[n], steps[n];
      var last := LastShrink(s.history);
      Poll(s.policy, s.taken.value, step.now, step.capacity, step.shrink).1.None? <==>
        && step.shrink && !Has(s.policy.pending, 2) && !Has(s.taken.value, 2)
        && (Has(s.policy.pending, 1) || Has(s.taken.value, 1))
        && last.Some? && step.now - last.value < SECOND
  {
    RunKeepsInv(states, steps, n);
    RunRemembersShrink(states, steps, n);
    var s, step := states[n], steps[n];
    OrBits(s.policy.pending, s.taken.value);
    var l: nat :| l <= 2 && (Has(s.policy.pending, l) || Has(s.taken.value, l));
    NoBits(l);
    hide LastShrink, IsRun, Kept, PublishedCount, IsWarningShrink;
    WaitsIff(s.policy, s.taken.value, step.now, step.capacity, step.shrink);
  }

  lemma WaitsIff(p: Policy, events: Bits, now: nat, capacity: nat, shrink: bool)
    requires Both(p.pending, events) != 0 && now < WORD
    requires p.lastWarning.Some? ==> p.lastWarning.value <= now
    ensures Poll(p, events, now, capacity, shrink).1.None? <==>
      && shrink && !Has(Both(p.pending, events), 2) && Has(Both(p.pending, events), 1)
      && p.lastWarning.Some? && now - p.lastWarning.value < SECOND
  {
    hide Target;
  }
}
