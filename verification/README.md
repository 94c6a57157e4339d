# Expert cache, codecs and logs: verified models

Dafny models of four parts of the Qwen expert engine and its offline tools, with proofs of what they
promise.

- **Offline cache policies** (`Demand`, `BeladyPolicy`, `ClockPolicy`, `SlruPolicy`, `Counts`,
  `RouteSegments`, `RouteBlocks`, `RouteSegmenter`, `RouteAccesses`, `RouteBarriers`, `RouteRefusals`). A
  schedule is the sequence of resident sets of a mandatory-admission cache. Evicting the resident whose next
  use is farthest is never behind any schedule, at any prefix; the class with the lazily cleaned heap is that
  rule; `Count` reports exactly the misses of each policy's schedule; and the segments it counts are the
  maximal blocks of complete 48-layer windows in the log, their accesses the experts of the log's own rows,
  row after row.
- **Lease-aware replay** (`LeaseCache`, `LeaseCacheObject`, `LeaseChoice`, `LeaseRefinement`, `Replay`,
  `Decode`, `Accepted`, `LeaseWindow`, `Captures`). The cache with pins, a bounded sweep, a slot index and
  counters; the event checker; and the replay of an accepted trace at another capacity or policy. A ledger of
  live leases (a multiset of keys) says exactly when an acquisition is served and which slot a miss takes; a
  capture is accepted exactly when it is the true record of a CLOCK run.
- **Packed three-bit codes** (`Q3`). The payload of a group is one base-256 number whose base-8 digits are
  the codes; quantizing and decoding are related through that number.
- **Logs** (`ProgressReader`, `ProgressWriter`, `ProgressLogs`, `ProgressRules`, `ProgressRuns`, `RouteTrace`,
  `RouteReader`, `RouteLogs`, `RouteGrammar`, `RouteCalls`). Writer and independent reader are modelled
  separately and the logs of one are run through the other, cut at any byte or line; what is read back is told
  by the calls that were made, and every route log also has the shape of a nested grammar.
- **Memory pressure** (`Pressure`). The inbox's atomic steps and the shrink policy, over every interleaving.

`Common` holds shared datatypes and sequence facts. Objects whose methods update their fields are classes
whose methods equate the new state with a function of the old; the theorems are about those functions. An
exception in the source is `Err` or `None`.

Five exact conditions came out of the proofs:

- An accepted trace replays, under either policy, at exactly the capacities from the largest number of
  leases it held at once (`maxPins`, a field of the trace, at most 32) to 4096
  (`LeaseWindow.AcceptedReplaysIff`).
- A capture is accepted exactly when every event tells what a CLOCK run of its own requests did there
  (`Captures.AcceptedIffTold`).
- A row log is accepted exactly when each row may follow those before it (`RouteRefusals.LogAcceptedIff`).
- A progress log is readable exactly when every line written has the reader's kind and build, a named phase,
  and no line lost to a limit before it (`ReadableIffFlushesWell`). Finishing first, an empty phase name and
  another kind are each exhibited as rejected, whatever the rest.
- A route trace is readable exactly when every call that wrote a line was orderly: valid tokens and limits, a
  forward that continues its session, ten distinct experts a token, a result that matches the committed
  tokens of a request without aborts, and no cache reset inside a forward or after the end
  (`RunReadsIffOrderly`). Each kind of rejected run is exhibited.

## Model

| member | source | states |
|---|---|---|
| Demand.FarthestIsMinimal | scripts/qwen/cache_simulation.py:75-75 | any schedule that evicts a resident of farthest next use misses no more, at every prefix, than any mandatory-admission schedule with as many slots or fewer |
| Demand.StepKeepsTrail | scripts/qwen/cache_simulation.py:91-97 | the counting dominance behind it: for every horizon, one more access never lets the other schedule get ahead in residents used before the horizon, net of misses |
| Demand.BypassingBeatsFarthest | scripts/qwen/cache_simulation.py:75-75 | without mandatory admission the bound is false: a concrete order where bypassing beats evicting farthest |
| Demand.CompulsoryMisses | scripts/qwen/cache_simulation.py:238-238 | every schedule misses each distinct key of a cold start at least once |
| Demand.OnlyCompulsoryMisses | scripts/qwen/cache_simulation.py:238-238 | a policy that evicts only when full misses nothing else once the distinct keys fit |
| BeladyPolicy.EvictsFarthestResident | scripts/qwen/cache_simulation.py:87-103 | driven over a whole sequence, the policy's residents are an evict-farthest schedule |
| BeladyPolicy.BeladyIsMinimal | scripts/qwen/cache_simulation.py:74-103 | its misses are minimal among all mandatory-admission schedules with no more slots, at every prefix |
| BeladyPolicy.MoreSlotsNeverMissMore | scripts/qwen/cache_simulation.py:74-103 | more slots never mean more misses |
| BeladyPolicy.NextUses | scripts/qwen/cache_simulation.py:78-83 | the backward loop stores, for every position, the first later position with the same key, or the length |
| BeladyPolicy.Belady.constructor | scripts/qwen/cache_simulation.py:76-85 | starts empty with the next uses of the sequence |
| BeladyPolicy.Belady.Evict | scripts/qwen/cache_simulation.py:91-96 | the stale-pop loop ends before the heap empties and removes the resident with the farthest next use, the least key among equals |
| BeladyPolicy.Belady.Access | scripts/qwen/cache_simulation.py:87-103 | the residents change as the policy function says; every resident's current item stays in the heap and the heap stays within 2 * max(1, capacity) |
| BeladyPolicy.Belady.Record | scripts/qwen/cache_simulation.py:97-102 | pushing and compacting change nothing but the heap, which keeps every current item within its bound |
| ClockPolicy.AccessKeepsInv | scripts/qwen/cache_simulation.py:28-44 | slots and index stay inverse, the hand is at the first empty slot until the ring is full, and a full miss evicts exactly one resident |
| ClockPolicy.AccessStepsQueue | scripts/qwen/cache_simulation.py:28-44 | the ring is a second-chance queue: a hit marks, a full miss requeues marked heads unmarked, drops the first unmarked and appends |
| ClockPolicy.Clock.Advance | scripts/qwen/cache_simulation.py:34-36 | the sweep loop ends at the first clear bit from the hand, clearing those it passed |
| ClockPolicy.Clock.Access | scripts/qwen/cache_simulation.py:28-44 | hit exactly for residents; the whole new state is the step of the ring |
| SlruPolicy.StepKeepsInv | scripts/qwen/cache_simulation.py:55-71 | queues stay disjoint and within capacity, protected within floor(3 * capacity / 4), and residents change lazily |
| SlruPolicy.EvictOldest | scripts/qwen/cache_simulation.py:68-69 | a full miss finds probation non-empty and evicts its oldest key |
| SlruPolicy.ProtectedIsMostRecentlyHit | scripts/qwen/cache_simulation.py:56-65 | after any sequence the protected queue is the distinct keys of all hits by last hit, cut to the limit |
| SlruPolicy.ProbationIsByArrival | scripts/qwen/cache_simulation.py:55-71 | after any sequence the probation queue is the other residents in the order they last entered it, by admission or by being pushed out of the protected segment; so what a full miss evicts has been there longest |
| SlruPolicy.SegmentedLru.Access | scripts/qwen/cache_simulation.py:55-71 | hit exactly for residents; the whole new state is the step of the queues |
| Counts.Count | scripts/qwen/cache_simulation.py:248-278 | layer and request/phase counters are exactly the tallies of the access log by layer and by owning span, the totals tally the whole log, and miss bytes and hit fraction follow from the schedule's misses and demands |
| Counts.SpanOfIsAround | scripts/qwen/cache_simulation.py:260-261 | the span reached by advancing is the one and only span around the position |
| Counts.LayersSumToTotal | scripts/qwen/cache_simulation.py:262-262 | layer counters sum to the totals |
| Counts.PhasesSumToTotal | scripts/qwen/cache_simulation.py:260-268 | request/phase counters sum to the totals when every access has an owner |
| Counts.TotalsAreMisses | scripts/qwen/cache_simulation.py:251-262 | the totals are the misses of the policy's own schedules, and hits and misses add up to the demands |
| Counts.OracleReadsLeast | scripts/qwen/cache_simulation.py:355-364 | over any segments the oracle misses no more than any policy with as many slots or fewer |
| Counts.CompulsoryBound | scripts/qwen/cache_simulation.py:238-238 | compulsory misses bound all three policies from below, with equality once every segment fits |
| Counts.CurvePoint | scripts/qwen/cache_simulation.py:355-364 | slots and unused bytes make up the budget, with less than a slot unused; each policy's answer holds the misses of its schedule with that many slots; the CLOCK-minus-oracle byte difference is that of the misses and never negative |
| Counts.SlotsFillBudget | scripts/qwen/cache_simulation.py:355-363 | the slots of a budget are as many as fit it |
| Counts.LargerBudgetNeverReadsMore | scripts/qwen/cache_simulation.py:355-364 | along the curve the oracle's misses never rise with the budget |
| RouteSegments.TakeKeepsInv | scripts/qwen/cache_simulation.py:143-229 | every row keeps each segment faithful to its windows, and every row so far accounted for |
| RouteSegments.PassIsValid | scripts/qwen/cache_simulation.py:164-190 | an accepted row's keys are distinct, ascending, inside its layer's range and no more than the selections made |
| RouteSegments.ExtendKeepsFaithful | scripts/qwen/cache_simulation.py:204-224 | a window that continues a segment keeps it gap-free in position and keeps its spans a partition of its accesses, each window inside a span of its own request and phase |
| RouteSegments.CloseKeepsDemands | scripts/qwen/cache_simulation.py:225-225 | demands never exceed the logical selections, so the selections grouped away are not negative |
| RouteBlocks.LocatedStep | scripts/qwen/cache_simulation.py:143-229 | every row keeps each segment a maximal block of consecutive complete windows, with no complete window left out |
| RouteSegmenter.SegmentsAreMaximalBlocks | scripts/qwen/cache_simulation.py:119-245 | the segments of an accepted log are exactly the maximal blocks of consecutive rows that form complete windows 0..47 of one identity, each continuing the one before |
| RouteSegmenter.RowsAreConserved | scripts/qwen/cache_simulation.py:230-236 | rows other than boundary events are included, excluded, missing their routes or filtered; included passes are 48 times the windows; demands stay within the limit and within the logical selections |
| RouteSegmenter.LogHasOneIdentity | scripts/qwen/cache_simulation.py:155-163 | all passes kept share one pinned artifact revision and one full build fingerprint, the reported identity |
| RouteAccesses.PassAsks | scripts/qwen/cache_simulation.py:164-183 | a row demands the record of an expert exactly when one of its tokens selects it, each once and ascending, and its pass keeps the position, owner and session of the row |
| RouteAccesses.SegmentsTellTheirRows | scripts/qwen/cache_simulation.py:143-229 | in terms of the rows alone: the accesses of a segment are its rows' own demands, row after row in file order; its windows are 48 consecutive rows of layers 0..47 that start where the last ended; each row's accesses lie in a span of its own request and phase; and every complete window of the log is in some segment |
| RouteAccesses.AccessIsAttributed | scripts/qwen/cache_simulation.py:206-217 | so the owner counted for an access is the request and phase of the row that selected its expert |
| RouteBarriers.BarriersAreTold | scripts/qwen/cache_simulation.py:129-136 | the barriers, in order and with their reasons, and the number of unfinished windows are exactly those the rows tell: boundary, filtered and routeless rows, rows that do not resume the unfinished window, and windows that meet but do not connect |
| RouteRefusals.RowAcceptedIff | scripts/qwen/cache_simulation.py:143-227 | a row is refused exactly when it is no object or places a pass with invalid fields, of another revision or build than an earlier pass, or completing a window whose demands exceed the limit |
| RouteRefusals.LogAcceptedIff | scripts/qwen/cache_simulation.py:143-227 | so a log is accepted exactly when each of its rows may follow those before it |
| RouteSegmenter.SegmentsAreWellFormed | scripts/qwen/cache_simulation.py:206-217 | each segment has in-range keys and, with explicit boundaries, spans that tile its accesses |
| RouteSegmenter.CountsSplitTotals | scripts/qwen/cache_simulation.py:206-278 | so for any accepted log, policy and capacity the layer counters, and the request/phase counters, sum to the totals |
| RouteSegmenter.Segmented | scripts/qwen/cache_simulation.py:119-245 | the loop over mutable state gives the specified state, refuses exactly the logs the specification refuses, and conserves passes |
| RouteSegmenter.Segmenter.CloseWindow | scripts/qwen/cache_simulation.py:198-227 | 48 pending passes are added to the segment they continue, or to a new one |
| RouteSegmenter.Segmenter.Accept | scripts/qwen/cache_simulation.py:143-229 | one row updates the whole state as specified, or is refused |
| LeaseCache.SweepFailsIffAllPinned | scripts/qwen/block_cache_replay.py:38-45 | 2 * capacity + 1 steps fail exactly when every slot is occupied and pinned, whatever the hand and the bits |
| LeaseCache.SweepIsFair | scripts/qwen/block_cache_replay.py:38-44 | what is selected is empty or unpinned and unreferenced, and no pinned entry's bit is cleared |
| LeaseCache.SelectIsFair | scripts/qwen/block_cache_replay.py:34-44 | under either policy the chosen slot is not pinned and only bits of unpinned entries change |
| LeaseCache.AcquireFailsIff | scripts/qwen/block_cache_replay.py:23-52 | an acquisition of a valid key raises exactly when the key is absent and every slot is pinned |
| LeaseCache.AcquireKeepsInv | scripts/qwen/block_cache_replay.py:23-52 | slots and lookup stay inverse, layer counters sum to the totals, misses - evictions = occupancy, and SLRU queues partition the residents within the protected limit |
| LeaseCache.AcquireServedIff | scripts/qwen/block_cache_replay.py:23-52 | against the ledger of live leases: served exactly when the key is leased or fewer keys are leased than there are slots |
| LeaseCache.AcquireKeepsLeases | scripts/qwen/block_cache_replay.py:23-52 | an acquisition leaves every entry's pins equal to its live leases and the key resident |
| LeaseCache.LeasedStayPut | scripts/qwen/block_cache_replay.py:36-49 | a pinned entry keeps its slot and its pins through any acquisition |
| LeaseChoice.SweepPicks | scripts/qwen/block_cache_replay.py:38-44 | whatever is leased, the CLOCK sweep takes the first slot from the hand that is empty, or unleased and unmarked; when there is none, the first unleased; and the marks it clears are those of the unleased entries passed |
| LeaseChoice.PicksIsUnique | scripts/qwen/block_cache_replay.py:38-44 | that rule names one slot |
| LeaseChoice.FullPicksFirstInLine | scripts/qwen/block_cache_replay.py:36-37 | a full SLRU cache gives up the first unleased record of probation followed by protected |
| LeaseChoice.OlderThanVictimAreLeased | scripts/qwen/block_cache_replay.py:36-37 | against the ledger: every record ahead of the victim in that line has a live lease, and the victim has none |
| LeaseChoice.MissTakes | scripts/qwen/block_cache_replay.py:34-52 | a served miss takes exactly that slot, names the record there as victim, admits the new one marked, unleased and last in probation, and changes no other entry but the spent marks |
| LeaseChoice.ReplayTakes | scripts/qwen/block_cache_replay.py:184-190 | over any replayed stream each miss makes that choice, whatever leases the stream holds there |
| LeaseCache.LeaseServedIff | scripts/qwen/block_cache_replay.py:54-58 | a pin fails exactly on an absent key, a release exactly on a key without a live lease |
| LeaseCache.LeaseKeepsLeases | scripts/qwen/block_cache_replay.py:54-60 | pin and release change the ledger by one lease, return the key's live leases, and the pin total stays the ledger's size |
| LeaseCacheObject.Cache.constructor | scripts/qwen/block_cache_replay.py:15-21 | a fresh cache is empty and valid |
| LeaseCacheObject.Cache.SweepSlots | scripts/qwen/block_cache_replay.py:39-44 | the bounded loop leaves slots, hand and selection as the sweep specification says |
| LeaseCacheObject.Cache.Acquire | scripts/qwen/block_cache_replay.py:23-52 | arrays, index, queues and counters end as specified, or the call fails as specified |
| LeaseCacheObject.Cache.Lease | scripts/qwen/block_cache_replay.py:54-58 | the entry's pins end as specified and are returned, or the call fails |
| LeaseCacheObject.Cache.Pins | scripts/qwen/block_cache_replay.py:60-60 | the sum of all pins |
| LeaseRefinement.RunRefinesClock | scripts/qwen/block_cache_replay.py:23-60 | over any stream of acquisitions, pins and releases that acquires only when no lease is live (or the record acquired is itself leased), slots, bits, index and hand equal those of the simple CLOCK after every prefix |
| LeaseRefinement.RunRefinesSlru | scripts/qwen/block_cache_replay.py:23-60 | likewise both queues equal those of the simple segmented LRU |
| LeaseRefinement.ResidentsAgree | scripts/qwen/block_cache_replay.py:23-60 | so the residents before every acquisition and after the last are the simple policy's, under both policies |
| LeaseRefinement.DecisionsAgree | scripts/qwen/block_cache_replay.py:23-52 | each acquisition hits exactly when the simple policy does, and its victim is exactly the record that policy evicts |
| LeaseRefinement.RunCounts | scripts/qwen/block_cache_replay.py:23-60 | and the counters equal the simple policy's misses and the other demands |
| LeaseRefinement.OneLeaseIsIdle | scripts/qwen/block_cache_replay.py:99-143 | a legal stream that never holds two leases at once is such a stream |
| LeaseRefinement.PinThenRelease | scripts/qwen/block_cache_replay.py:54-58 | a pin and its release cancel out |
| Replay.Simulate | scripts/qwen/block_cache_replay.py:184-194 | the loop returns the specified counts, bytes and hit fraction, or raises exactly where the specification does |
| Replay.ReplaysIffServed | scripts/qwen/block_cache_replay.py:184-190 | a legal stream replays exactly as far as each acquisition is served by the ledger, under either policy |
| Replay.WindowServes | scripts/qwen/block_cache_replay.py:184-190 | as many slots as the lease window serve every acquisition: the pin that follows is already counted |
| Replay.AnswersIffServed | scripts/qwen/block_cache_replay.py:184-194 | the replay returns an answer exactly when every acquisition is served |
| Replay.AnswerCounts | scripts/qwen/block_cache_replay.py:191-194 | an answer's hits and misses are the final cache's without those of the prefill, together every acquisition of the later forwards; its bytes are those of the misses, its fraction times the demands is the hits, and each forward's hits are its demands found resident |
| Replay.FoldKeepsLeases | scripts/qwen/block_cache_replay.py:184-190 | however far a stream replays, each entry's pins are the leases taken and not released |
| Replay.ServedIffFits | scripts/qwen/block_cache_replay.py:184-190 | a legal stream is served throughout exactly when the records leased at once never outnumber the slots |
| Replay.ForwardsConserved | scripts/qwen/block_cache_replay.py:186-188 | a forward's hits and misses sum to its demands at every capacity and policy |
| Replay.OracleBoundsReplay | scripts/qwen/block_cache_replay.py:184-194 | no lease-aware replay misses less than the offline minimum over the captured order |
| Replay.HitsAtMostResident | scripts/qwen/block_cache_replay.py:23-52 | distinct demands hit at most once per record resident at entry, in any order and with any leases between |
| Replay.HitFirstHitsAll | scripts/qwen/block_cache_replay.py:118-124 | in hit-first order the hits are exactly the residents at entry, under either policy and any interleaved leases |
| Replay.HitFirstIsBest | scripts/qwen/block_cache_replay.py:118-124 | no other order of the same records, with leases of its own, hits more from the same state |
| Decode.DecodeTrace | scripts/qwen/block_cache_replay.py:97-181 | the event loop accepts and records exactly what the event specification does |
| Decode.CheckOne | scripts/qwen/block_cache_replay.py:97-173 | one event updates book and cache object as specified, or is rejected |
| Captures.DemandOrderIff | scripts/qwen/block_cache_replay.py:118-122 | the order compared with is the only one that lists exactly the routed experts ascending, for at most 32 tokens the resident ones first |
| Captures.LayerIff | scripts/qwen/block_cache_replay.py:107-124 | a layer event is accepted exactly when it is the next of the open forward, selects ten distinct experts a token and lists its records in that order |
| Captures.OutcomeToldIff | scripts/qwen/block_cache_replay.py:125-131 | an acquisition's kind, slot and victim are accepted exactly when a resident record is found in its slot, or an absent one goes to the slot CLOCK's rule names, its occupant the victim |
| Captures.LeaseIff | scripts/qwen/block_cache_replay.py:134-143 | a lease event is accepted exactly when it pins the record just acquired or releases a live lease, with the leases that leaves and at most 32 in all |
| Captures.AcceptedIffTold | scripts/qwen/block_cache_replay.py:97-181 | a capture is accepted exactly when every event tells what a CLOCK run of its own requests did there - forwards, layers, outcomes, lease counts, snapshots with all counters - and the run is complete |
| Captures.ForwardsAreTold | scripts/qwen/block_cache_replay.py:161-181 | each recorded forward holds the records acquired in it, in order, with their hits and misses |
| Accepted.AcceptedIsLegal | scripts/qwen/block_cache_replay.py:97-181 | accepted requests pin every acquisition at once, hold at most maxPins <= 32 leases, release all, and make at least 480 demands in every forward |
| LeaseWindow.AcceptedReplaysIff | scripts/qwen/block_cache_replay.py:184-194 | an accepted trace replays without raising, under either policy, at exactly the capacities from maxPins to 4096, and maxPins is at most 32 |
| LeaseWindow.FoldPeaks | scripts/qwen/block_cache_replay.py:134-143 | in an accepted prefix no record is leased twice at once, and maxPins is the most leases ever held |
| Accepted.CapturedReplayIsExact | scripts/qwen/block_cache_replay.py:169-194 | at the captured capacity CLOCK reproduces the hits and misses recorded for every forward |
| Accepted.LayerHitsAreResidents | scripts/qwen/block_cache_replay.py:107-133 | within a layer of at most 32 tokens the hits so far are the demands so far, up to the number resident at layer entry |
| Accepted.NoLeaseBetweenForwards | scripts/qwen/block_cache_replay.py:134-143 | a pin or release outside a forward is rejected |
| Q3.CodeIsDigit | include/engine/q3_probe.hpp:14-20 | reading an index takes base-8 digit (index mod 64) of the base-256 number in its group's 24 payload bytes |
| Q3.OctalDigit | include/engine/q3_probe.hpp:32-38 | the digits of the number built from codes are the codes |
| Q3.PutAddsNumber | include/engine/q3_probe.hpp:36-37 | OR-ing a code in, across the byte boundary or not, adds code * 8^j to the number |
| Q3.HalfStep | include/engine/q3_probe.hpp:34-52 | over exact reals, an input in [b, b + 7s] decodes to within s / 2 |
| Q3.Saturates | include/engine/q3_probe.hpp:34-34 | below and above that span the code is 0 or 7 |
| Q3.RestoredKeepsCode | include/engine/q3_probe.hpp:34-52 | quantizing a restored value gives its code back |
| Q3.Nearest | include/engine/q3_probe.hpp:33-35 | nearest integer in 0..7, ties to even |
| Q3.PackCodes | include/engine/q3_probe.hpp:32-38 | packs the row's codes as one number and touches no byte outside the 24 payload bytes |
| Q3.Quantize | include/engine/q3_probe.hpp:21-43 | on finite exact inputs, fails exactly on empty or partial groups and unrepresentable metadata; otherwise every group packs its row |
| Q3.Decode | include/engine/q3_probe.hpp:44-55 | fails exactly on empty or partial records and invalid metadata; otherwise each value is its group's scale times its code plus its bias |
| Q3.CodeRecovers | include/engine/q3_probe.hpp:14-43 | for any number of groups, every index reads the very code its input was quantized to |
| Q3.MetaRecovers | include/engine/q3_probe.hpp:39-51 | for any number of groups, every index reads its row's scale and bias, refused exactly when the scale is negative |
| Q3.DecodeIsClose | include/engine/q3_probe.hpp:21-55 | decoding a quantized record returns every input inside its row's span within half a step |
| Q3.ExactRowIsClose | include/engine/q3_probe.hpp:27-52 | in a format that keeps the row's minimum and a seventh of its range, every input comes back within a fourteenth of the range |
| Q3.RowIsClose | include/engine/q3_probe.hpp:27-52 | when the stored minimum and step err by given amounts, every input comes back within half the true step plus half the step's error, or within the minimum's error plus seven times the step's |
| Q3.ConstantRowRestores | include/engine/q3_probe.hpp:34-52 | a constant row has only zero codes and comes back as its stored value |
| Q3.MetaOfExtremes | include/engine/q3_probe.hpp:27-30 | a row is refused exactly when its minimum or a seventh of its range is not finite in the format, or a spread row's step is stored as zero |
| Q3.DecodesWhatWasQuantized | include/engine/q3_probe.hpp:21-55 | where rounding keeps the sign, the decoder accepts whatever the quantizer returns, one value per input |
| ProgressReader.Summarize | scripts/qwen/cached_progress.py:15-61 | the loop over complete lines gives the specified summary or error |
| ProgressRules.RowsReadIffInPlace | scripts/qwen/cached_progress.py:20-54 | whoever wrote them, rows are accepted exactly when each is numbered, of the right kind and identity, timely by both clocks, before any terminal one, and its event fits the phase the rows before it left open |
| ProgressRules.SummarizedIff | scripts/qwen/cached_progress.py:11-55 | a file is accepted exactly when it and its lines are within their limits, the complete lines hold such rows, and nothing follows a terminal one |
| ProgressRules.SplitJoins | scripts/qwen/cached_progress.py:17-19 | splitting loses nothing: the lines with their newlines, and a rest without one, are the file |
| ProgressWriter.CachedProgress.Emit | include/engine/cached_progress.hpp:41-50 | the sequence grows even when a limit is exceeded, and a line of the object's kind is written only within the limits |
| ProgressWriter.CachedProgress.BeginPhase | include/engine/cached_progress.hpp:22-26 | refused while a phase is active or after the end; otherwise the state and line are as specified |
| ProgressWriter.CachedProgress.EndPhase | include/engine/cached_progress.hpp:31-34 | refused without an active phase; the phase stays active if the line is not written |
| ProgressWriter.CachedProgress.Finish | include/engine/cached_progress.hpp:35-39 | refused twice, on unknown statuses, and as complete while a phase is active |
| ProgressLogs.CutLog | scripts/qwen/cached_progress.py:17-19 | every byte-prefix of a log is some whole rows and a tail without a newline |
| ProgressLogs.FlushAgrees | include/engine/cached_progress.hpp:22-50 | each flushed row keeps writer and reader in step exactly when its phase is named |
| ProgressLogs.EveryPrefixIsClassified | scripts/qwen/cached_progress.py:11-64 | every byte-prefix of a readable run's log is accepted, is complete exactly when the whole complete row is there, reports the status, unfinished phase and per-phase durations its whole rows tell, and has completed durations within the last elapsed time |
| ProgressRuns.RunTells | include/engine/cached_progress.hpp:22-50 | each row was written for one call and carries its number, clock, running times, phase, event and details, the final error cut to 1024 characters |
| ProgressRuns.EveryPrefixRecounts | scripts/qwen/cached_progress.py:56-64 | from calls to summary: wherever the log is cut, the summary gives the status, the phase left open and for how long, the time in every phase that ended and the latest details as the calls behind the remaining lines gave them |
| ProgressLogs.ReadableIffFlushesWell | scripts/qwen/cached_progress.py:21-38 | a run's log is accepted exactly when every line written has the reader's kind and build, a named phase (and one begun before any finish), and no overflow before it |
| ProgressLogs.FinishFirstIsRejected | scripts/qwen/cached_progress.py:38-38 | a log finished before any phase began is rejected |
| ProgressLogs.EmptyPhaseIsRejected | scripts/qwen/cached_progress.py:38-38 | a log whose phase has the empty name is rejected |
| ProgressLogs.BenchmarkLogIsRejected | scripts/qwen/cached_progress.py:24-25 | a log of kind benchmark_progress_v1 is rejected |
| ProgressLogs.OverflowSpoilsLog | include/engine/cached_progress.hpp:42-47 | in every run, a line written at any time after one refused for a limit makes the log unreadable |
| RouteLogs.StepAgrees | include/engine/route_trace.hpp:27-61 | the line a call writes is accepted by the reader exactly when the call is orderly, and then both stay in step |
| RouteLogs.RunReadsIffOrderly | scripts/qwen/route_trace.py:28-134 | the log of a run without a failed write is accepted exactly when every call that wrote a line was orderly |
| RouteLogs.DestroyReads | include/engine/route_trace.hpp:21-26 | destroying an unfinished trace ends it as incomplete and keeps it accepted |
| RouteLogs.ResetInForwardIsRejected | scripts/qwen/route_trace.py:121-123 | a written run with a cache reset inside a forward is rejected |
| RouteLogs.ResetAfterEndIsRejected | scripts/qwen/route_trace.py:29-31 | a written run with a cache reset after the end is rejected |
| RouteLogs.EndAfterAbortIsRejected | scripts/qwen/route_trace.py:100-102 | a written run that ends a request normally after an aborted forward is rejected |
| RouteLogs.BadForwardIsRejected | scripts/qwen/route_trace.py:60-69 | a written first forward at any offset but 0, without a phase or without expert slots is rejected |
| RouteLogs.BadRequestIsRejected | scripts/qwen/route_trace.py:52-54 | a written request with no prompt tokens or a non-positive output limit is rejected |
| RouteLogs.RepeatedExpertIsRejected | scripts/qwen/route_trace.py:76-79 | a written layer whose token selects one expert twice is rejected |
| RouteLogs.AnswerWithoutForwardIsRejected | scripts/qwen/route_trace.py:114-117 | a written request end without a committed forward is rejected |
| RouteGrammar.LogIsShaped | include/engine/route_trace.hpp:21-71 | every log any run leaves, cache resets aside and up to a failed write and the closing line, has the nested grammar: forwards inside requests, commits after layers 0..47 at offset + tokens, aborts with the number of layers logged, a complete end only with everything closed |
| RouteGrammar.AcceptedIsShaped | scripts/qwen/route_trace.py:28-134 | every log the reader accepts has that shape with its resets, and its ended requests aborted no forward |
| RouteTrace.Trace.Emit | include/engine/route_trace.hpp:63-71 | a line is written, counted and sized only within the event, line and total limits |
| RouteTrace.Trace.LayerRoutes | include/engine/route_trace.hpp:44-48 | refused unless it is the next layer of the active forward with its geometry; the layer counts only once written |
| RouteTrace.Trace.ForwardCommits | include/engine/route_trace.hpp:49-53 | refused unless all 48 layers are logged and the position is offset + tokens |
| RouteCalls.LogGivesCallsBack | include/engine/route_trace.hpp:27-71 | while no write fails, lines are numbered in sequence with the requests and forwards begun so far, and reading them back gives exactly the calls that wrote them, in order and with all they carried |
| RouteCalls.SameLogSameCalls | include/engine/route_trace.hpp:27-71 | so runs with the same log wrote the same calls |
| RouteCalls.FailsIffOverLimit | include/engine/route_trace.hpp:63-71 | an allowed call fails exactly when its line would exceed 64 KiB, the log 16 MiB or 20000 lines |
| RouteCalls.RunFitsLimits | include/engine/route_trace.hpp:63-71 | so no run, failed writes included, exceeds them |
| Pressure.PressureInbox.Publish | include/engine/pressure.hpp:11-15 | counts the level and sets its bit alone; levels above 2 change nothing |
| Pressure.PressurePolicy.PollEvents | include/engine/pressure.hpp:27-39 | state and decision are as specified |
| Pressure.RequestIsBounded | include/engine/pressure.hpp:33-38 | a request lies in [min(32, capacity), capacity] and is below capacity exactly when shrinking is on, capacity > 32 and level >= 1 |
| Pressure.RequestAmount | include/engine/pressure.hpp:33-38 | a critical request halves the capacity and a warning gives back 388 slots, neither below 32 |
| Pressure.WarningsAddUp | include/engine/pressure.hpp:33-38 | n warnings in a row give back 388 slots each until 32 are left |
| Pressure.CriticalsHalve | include/engine/pressure.hpp:33-38 | n critical requests in a row halve the capacity n times until 32 slots are left |
| Pressure.RunRemembersShrink | include/engine/pressure.hpp:27-39 | in every run the rate limit remembers exactly the last warning that shrank the cache |
| Pressure.PollWaitsIff | include/engine/pressure.hpp:28-32 | in every run a poll with something pending decides nothing exactly when a warning is the strongest pending, shrinking is on and a warning shrank the cache less than a second before |
| Pressure.RunKeepsInv | include/engine/pressure.hpp:9-43 | over every interleaving each published level is pending somewhere or answered by a later decision at least as strong, counts match publications, and warning shrinks are 1e9 ns apart |
| Pressure.QuietMeansAnswered | include/engine/pressure.hpp:9-43 | once nothing is pending, every publication has its answer |
| Pressure.OnlyWarningsWait | include/engine/pressure.hpp:28-32 | a critical event is decided by the poll that sees it; anything else waits only behind a warning shrink less than a second old |

## Left out

- BeladyPolicy.Belady.Evict: does not model `heapq`'s array layout; the heap is a multiset of items and a pop returns a least one.
- Counts.Count: does not model the per-phase and per-layer repetition of byte totals and fractions, rounds no fraction, and replays a segment's policy before counting it instead of alternating the two.
- Counts.CurvePoint: does not model argument checks, source selection and the report around the curve.
- RouteSegmenter.Segmented: does not model JSON and field types (a row is typed, and a field of the wrong type is an error before it), source pointers, or the report's truncated detail lists.
- Decode.DecodeTrace: does not model the receipt, build identity, route-history digests, snapshot digest and report-boundary comparison; events arrive decoded, with their hand, slots and counters compared in full.
- Replay.Simulate: rounds no fraction, and the division by zero without demands after the prefill is `Err`.
- Q3.Quantize: does not model IEEE and bf16 rounding; inputs are finite exact reals and the 16-bit metadata format is a parameter.
- LeaseRefinement.RunRefinesClock: does not apply to streams that miss while a lease is live, where the two policies may choose different victims; what such a miss takes is `LeaseChoice.MissTakes`.
- ProgressReader.Summarize: does not model missing files, hashes and JSON; lines are parsed by a codec whose encodings are newline-free and injective, and identity and details are objects, as every caller of the writer makes them.
- ProgressWriter.CachedProgress.Emit: does not model a failed write or flush, which can leave a torn line.
- ProgressLogs.ReadableIffFlushesWell: the clock is monotone and no write fails.
- RouteLogs.RunReadsIffOrderly: does not model timestamps (the clock is monotone), the header's identity object, JSON and the byte limits of the reader, which the writer keeps; a run ends at a failed write.
- RouteTrace.Trace.constructor: does not model a first line that cannot be written, which leaves no object.
- Pressure.RunKeepsInv: does not model weak memory ordering; steps of publishers and coordinator interleave, and bits are eight wide since publishing sets none above bit 2.
- `PressureMonitor`, the native `ExpertCache`, `ReadPool` and `StreamParser`, and the Metal kernels are not part of this model.
