# gasmon pipeline stage, modelled in Dafny

This project models the stream-processing core of gasmon, a gas-sensor
monitor, in `gasmon/pipeline.py`.

`FixedDurationSource` is a pipeline step built with a run time in seconds.
Its `handle(events)` is a generator with these rules:

- It reads a clock once to fix a deadline, and once more to open a 30-second window.
- It passes each event on until a clock reading taken before that event reaches the deadline.
- It drops any event whose `event_id` it has already accepted.
- It keeps every accepted event in `recent_events`, and their ids and location ids in two sets.
- When an accepted event arrives more than 30 seconds after the window start, it first yields one `AveragedEvent` per location id seen so far. Each one holds the mean value and the rounded mean timestamp of the accepted events that the id matches. Then it restarts the window.
- It counts what it yields in `events_processed`.

`Pipeline.sink` and `PipelineWithSink.handle` compose a step with a sink.

The files:

- `events.dfy` (module `Events`): the event, the averaged event, the yielded items and the sequence functions over them.
- `stats.dfy` (module `Stats`): sum, mean and Python's `round` (half to even) in exact arithmetic.
- `fixed_duration_source.dfy` (module `FixedDuration`) has three parts:
  - The class `FixedDurationSource`, whose method `Handle` runs the imperative loop over the local state of `handle`.
  - Loop-body methods `ProcessInTime`, `FlushAverages` and `AverageLocation`, which work the way the source's nested loops do.
  - The specification functions `Step` (one loop iteration) and `Run` (the whole loop). `Handle` is proved to yield exactly `Run`'s output.
- `source_properties.dfy` (module `FixedDurationProperties`): what the loop promises, proved about `Step` and `Run`. This covers:
  - deduplication;
  - the deadline cut-off;
  - the content of each flush;
  - cumulative averaging;
  - the counters.
- `pipeline.dfy` (module `Pipeline`): stages, `sink` and `PipelineWithSink.handle`.

Inputs the source takes from its environment become parameters:

- `clock(n)` is the value returned by the `n`-th call of `time()` in one run of `handle`. Call 0 fixes `end_time`, call 1 fixes `start_time`, and every later call is counted. The model works for any clock, monotonic or not.
- `order(s)` is the order in which Python iterates over the set of location ids `s`. The model only assumes that `order(s)` lists each element of `s` exactly once (`ValidOrder`).

The code behaves as follows, and so does the model:

- The code never clears `recent_events` or `loc_set`. Every flush therefore averages over all events accepted since the stage started, not over the current window only (`AveragesCoverAcceptedSoFar`).
- Averages are yielded in the iteration order of the set `loc_set`.
- The window is a hard-coded 30 seconds, and a flush needs strictly more than 30 elapsed seconds.
- The constructor stores the run time without checking it.
- The match `id in recent_event` tests whether the id equals one of the event's fields. It therefore also matches an event whose `event_id` equals that location id (`Matches`).
- `PipelineWithSink.handle` hands the pipeline's whole result to `sink.handle` and returns `None`. It does not feed items one at a time.
- `PipelineWithSink.__init__` stores the sink in an attribute named `sink`, which hides the `sink` method. Calling `.sink(...)` on a stage that already has a sink therefore calls the stored stage, which fails (`Sink` returns `NotCallable`).

## Model

| member | source | states |
|---|---|---|
| Stats.Sum | gasmon/pipeline.py:113 | defines `sum(values)`: the float readings added left to right, exactly |
| Stats.SumInts | gasmon/pipeline.py:114 | defines `sum(times)`: the integer timestamps added left to right |
| Stats.Mean | gasmon/pipeline.py:113 | defines `sum(values) / len(values)` for a non-empty list |
| Stats.SumBounds | gasmon/pipeline.py:113 | if every value lies in [lo, hi], the sum lies in [n·lo, n·hi] |
| Stats.MeanWithin | gasmon/pipeline.py:113 | the averaged value lies between any lower and upper bound of the averaged readings |
| Stats.MeanOfConstant | gasmon/pipeline.py:113 | a single reading, or equal readings, average to that reading |
| Stats.RoundHalfEven | gasmon/pipeline.py:114-115 | the result is within one half of num/den, and a tie goes to the even neighbour, as Python's `round` does |
| Stats.RoundHalfEvenUnique | gasmon/pipeline.py:114-115 | only one integer is the rounded quotient in that sense, so the rounding is well defined |
| Events.AveragedEvent | gasmon/pipeline.py:10-14 | defines the averaged event: a location id, a mean value and a timestamp, in the order of the constructor's list |
| Events.Matches | gasmon/pipeline.py:109 | defines `id in recent_event`: the id equals the event's `event_id` or its `location_id` |
| Events.Values | gasmon/pipeline.py:106-111 | defines the `values` list: the value of each collected event, in collection order |
| Events.Times | gasmon/pipeline.py:107-112 | defines the `times` list: the timestamp of each collected event, in collection order |
| Events.InEventIds | gasmon/pipeline.py:92-97 | an id is in `ids_set` exactly when some accepted event carries it |
| Events.InLocationIds | gasmon/pipeline.py:96-98 | an id is in `loc_set` exactly when some accepted event has it as location id |
| Events.Matching | gasmon/pipeline.py:106-112 | an event is collected for a location id exactly when it is an accepted event that the id matches, and no more are collected than were accepted; `MatchingCounts` gives the multiplicities |
| Events.MatchingCounts | gasmon/pipeline.py:106-112 | the collected list holds each matching accepted event exactly as often as it was accepted, and no other event, so `sum(values)/len(values)` is taken over the right multiset |
| Events.MatchingNonEmpty | gasmon/pipeline.py:103-113 | every id in `loc_set` matches at least one accepted event, so the division by `len(values)` never fails |
| Events.DistinctIdsCount | gasmon/pipeline.py:92-97 | accepted events with pairwise distinct ids have as many ids as events |
| FixedDuration.Average | gasmon/pipeline.py:106-116 | the averaged event for a location id carries that id |
| FixedDuration.AverageIsMean | gasmon/pipeline.py:106-116 | the average is over a non-empty list; its value is the mean of the matching values and its timestamp the half-even rounded mean of the matching timestamps |
| FixedDuration.AverageLocation | gasmon/pipeline.py:106-116 | the inner loop collecting `values` and `times` and dividing computes `Average` |
| FixedDuration.Flush | gasmon/pipeline.py:103-122 | a flush yields one item per location id iterated over |
| FixedDuration.FlushIndex | gasmon/pipeline.py:103-122 | the j-th flushed item is the average for the j-th location id iterated over |
| FixedDuration.FlushAverages | gasmon/pipeline.py:103-122 | the flush loop yields exactly `Flush` of the iteration order |
| FixedDuration.InvCounts | gasmon/pipeline.py:96-97 | after each accepted event, the size of `ids_set` equals the length of `recent_events` |
| FixedDuration.WindowSeconds | gasmon/pipeline.py:99 | defines the hard-coded 30-second window |
| FixedDuration.State | gasmon/pipeline.py:80-89 | defines the local state of `handle`: `ids_set`, `loc_set`, `recent_events`, `start_time`, the counter `i`, and the number of `time()` calls made |
| FixedDuration.EndTime | gasmon/pipeline.py:80 | defines `end_time` as the first clock reading plus the run time |
| FixedDuration.Initial | gasmon/pipeline.py:80-89 | the initial state (empty sets and list, counter 0, two clock readings taken) satisfies the invariant |
| FixedDuration.AdmitKeepsInv | gasmon/pipeline.py:96-98 | recording an event with a new id keeps `ids_set` = ids of `recent_events`, `loc_set` = their location ids, ids distinct |
| FixedDuration.FlushIdsAccepted | gasmon/pipeline.py:98-103 | every id the flush iterates over is the location id of an accepted event |
| FixedDuration.Step | gasmon/pipeline.py:90-133 | one iteration keeps the invariant and takes at least one clock reading |
| FixedDuration.NoRawsInFlush | gasmon/pipeline.py:103-122 | a flush yields only averaged events |
| FixedDuration.Run | gasmon/pipeline.py:90-133 | the loop keeps the invariant and reads at most the given events |
| FixedDuration.Output | gasmon/pipeline.py:74-133 | defines the whole of `handle(events)` as `Run` from the initial state with the deadline `EndTime`; the final state keeps the invariant and no more events are read than given |
| FixedDuration.RunHalts | gasmon/pipeline.py:91-133 | once a reading reaches the deadline, the rest of the input yields nothing |
| FixedDuration.ProcessInTime | gasmon/pipeline.py:92-128 | the loop body after the deadline check computes exactly `Step`'s new state and items |
| FixedDuration.FixedDurationSource.constructor | gasmon/pipeline.py:67-72 | stores the run time and starts `events_processed` at 0 |
| FixedDuration.FixedDurationSource.Handle | gasmon/pipeline.py:74-133 | yields exactly `Run`'s output from the initial state, and `events_processed` grows by the number of items yielded |
| FixedDurationProperties.StepSummary | gasmon/pipeline.py:90-133 | an iteration halts exactly when the reading reaches the deadline; a duplicate yields nothing; a new event is yielded last, after averages only, and is appended to `recent_events` and `ids_set` |
| FixedDurationProperties.DuplicateDropped | gasmon/pipeline.py:92-94 | a repeated id leaves `ids_set`, `loc_set`, `recent_events` and `start_time` unchanged, yields nothing and bumps `i` |
| FixedDurationProperties.AcceptedStep | gasmon/pipeline.py:96-128 | a new event grows all three collections; a flush happens exactly when more than 30 seconds have elapsed, comes before the event, covers `loc_set`, and is the only thing that resets `start_time` |
| FixedDurationProperties.FlushContents | gasmon/pipeline.py:103-122 | a flush yields exactly one averaged event per id of `loc_set`, each the average over the accepted events, with no id twice and no raw event |
| FixedDurationProperties.StepRaws | gasmon/pipeline.py:92-128 | an iteration yields its event exactly when the event's id is new, and appends it to `recent_events` |
| FixedDurationProperties.RawsAreFirstOccurrences | gasmon/pipeline.py:90-128 | the raw events yielded are the first occurrence of each id among the events read before the deadline, in arrival order, and exactly what `recent_events` gained |
| FixedDurationProperties.OutputRawsDistinct | gasmon/pipeline.py:90-128 | from a fresh start, no two yielded raw events share an event id |
| FixedDurationProperties.DeadlineReached | gasmon/pipeline.py:80-133 | if not all input was read, the last clock reading taken was at or past the deadline |
| FixedDurationProperties.InputAfterDeadlineIgnored | gasmon/pipeline.py:91-133 | once the loop has returned, appending more input changes neither the output nor the final state |
| FixedDurationProperties.OutputEndsWithRaw | gasmon/pipeline.py:90-129 | the output never ends with an average: a flush is always followed by its event, and nothing is flushed when the input ends |
| FixedDurationProperties.CounterTracksItemsAndDuplicates | gasmon/pipeline.py:88-127 | the counter `i` grows by one per yielded item and one per dropped duplicate |
| FixedDurationProperties.FlushThenRawCovers | gasmon/pipeline.py:103-128 | a flush over the accepted events followed by its event satisfies `AveragesCover` |
| FixedDurationProperties.StepCovers | gasmon/pipeline.py:96-128 | every average an iteration yields is over the earlier accepted events and the triggering event |
| FixedDurationProperties.AveragesCoverAcceptedSoFar | gasmon/pipeline.py:89-124 | every average yielded is over all events accepted since the stage started, up to the event that triggered its flush: flushes never reset the data |
| FixedDurationProperties.OutputAveragesCover | gasmon/pipeline.py:74-133 | from a fresh start, each average is over all raw events yielded before it plus the one right after it, and the output ends with a raw event |
| Pipeline.Stage | gasmon/pipeline.py:23-52 | defines a pipeline step: a basic `Pipeline` with its own `handle`, or a `PipelineWithSink` pairing a pipeline with its sink |
| Pipeline.Handle | gasmon/pipeline.py:54-59 | defines `stage.handle(input)`: a basic stage applies its own `handle`, and a stage with a sink returns `None` |
| Pipeline.Received | gasmon/pipeline.py:54-59 | the first stage of a composition is handed the composition's input |
| Pipeline.Sink | gasmon/pipeline.py:35-52 | `p.sink(k)` succeeds exactly when `p` has no sink yet; otherwise the `sink` attribute hides the method |
| Pipeline.SinkFeedsSink | gasmon/pipeline.py:35-59 | the composed stage returns `None` and its sink is handed what the pipeline's `handle` returned |
| Pipeline.ChainBuildable | gasmon/pipeline.py:35-39 | a right-nested chain `s0.sink(s1.sink(...))` of basic stages can be built with `sink` |
| Pipeline.ChainFeedsForward | gasmon/pipeline.py:54-59 | in a right-nested chain each stage is handed the previous stage's result, and the chain returns `None` |
| Pipeline.LeftNestedSinkGetsNone | gasmon/pipeline.py:54-59 | when a stage that already has a sink is wrapped again, the outer sink is handed `None` |

## Left out

- `gasmon/locations.py` and `gasmon/plot.py` are not part of this model. They are an S3 download with JSON parsing, and plotting with floating-point Gaussian numerics.
- The `print` and `logger` calls in `handle` are side-effect-only output and are not modelled.
- Events.Matches: ids are taken to be strings, so only the two id fields of an event can equal an id. A numeric id equal to an event's `value` or `timestamp`, which Python's `in` would match, is not modelled.
- FixedDuration.FixedDurationSource.Handle: generator laziness is not modelled. The whole output is returned as one sequence, so a consumer that stops pulling early is not covered. `events_processed` is raised once per iteration by the number of items yielded in it, not once per `yield`.
- Floating point is not modelled. Values and means are exact reals, and the timestamp is the exact rational mean rounded half to even. `float(...)` and `int(...)` on the fields are taken as the identity: values are reals and timestamps integers.
- Python's set iteration order is a parameter `order` that depends only on the set's content. The model does not capture an order that changes with insertion history.
- Real wall-clock time is a parameter `clock`, and timing accuracy is not modelled.
- The concrete event class, its field names and its `__str__`/printing are not modelled. `AveragedEvent.__str__` is left out for the same reason.
- The abstract `Pipeline.handle` has no behaviour of its own. Every basic stage is a function from what it is handed to what it returns, and effects a sink has beyond its return value are not modelled.
