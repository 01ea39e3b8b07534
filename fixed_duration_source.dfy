/// The deduplicating, time-limited stage `FixedDurationSource`: until a
/// deadline it passes on each event whose id it has not seen before, and
/// whenever more than 30 seconds have passed since the window start it first
/// emits, per location seen so far, the average over all accepted events.
///
/// Wall-clock time is an input: `clock(n)` is the reading returned by the
/// n-th call of `time()` in a run. Python's iteration order over the set of
/// location ids is an input too: `order(s)` enumerates the set `s`.
module FixedDuration {
  import opened Events
  import opened Stats

  /** The hard-coded window length: a flush needs strictly more elapsed seconds than this. */
  const WindowSeconds: real := 30.0

  /** An enumeration of `s`: every element once, nothing else. */
  ghost predicate IsEnumeration(q: seq<string>, s: set<string>)
  {
    (forall x :: x in q <==> x in s) &&
    forall j, k :: 0 <= j < k < |q| ==> q[j] != q[k]
  }

  /** Iterating over any set visits each of its elements exactly once. */
  ghost predicate ValidOrder(order: set<string> -> seq<string>)
  {
    forall s {:trigger order(s)} :: IsEnumeration(order(s), s)
  }

  /** An enumeration has exactly as many entries as the set has elements. */
  lemma {:induction false} EnumerationSize(q: seq<string>, s: set<string>)
    requires IsEnumeration(q, s)
    ensures |q| == |s|
  {
    if q != [] {
      var last := q[|q| - 1];
      var init := q[..|q| - 1];
      forall x ensures x in init <==> x in s - {last} {
        if x in init {
          var j :| 0 <= j < |init| && init[j] == x;
          assert q[j] == x;
        }
        if x in q && x != last {
          var j :| 0 <= j < |q| && q[j] == x;
          assert j < |q| - 1;
          assert init[j] == x;
        }
      }
      EnumerationSize(init, s - {last});
    } else {
      assert forall x :: x !in s;
      assert s == {};
    }
  }

  /**
   * The averaged event for location `id` at a flush: the mean value and the
   * rounded mean timestamp of the accepted events that `id` matches.
   */
  function Average(id: string, recent: seq<Event>): (a: AveragedEvent)
    requires id in LocationIds(recent)
    ensures a.locationId == id
  {
    MatchingNonEmpty(id, recent);
    var m := Matching(id, recent);
    AveragedEvent(id, Mean(Values(m)), RoundHalfEven(SumInts(Times(m)), |m|))
  }

  /**
   * The average is taken over a non-empty list (so the division never fails):
   * its value times the count is the sum of the matching values, and its
   * timestamp is within half a second of the exact mean timestamp, the even
   * neighbour on a tie.
   */
  lemma AverageIsMean(id: string, recent: seq<Event>)
    requires id in LocationIds(recent)
    ensures |Matching(id, recent)| > 0
    ensures IsMean(Average(id, recent).value, Values(Matching(id, recent)))
    ensures IsRoundedQuotient(Average(id, recent).timestamp, SumInts(Times(Matching(id, recent))),
                              |Matching(id, recent)|)
  {
    MatchingNonEmpty(id, recent);
    MeanIsMean(Values(Matching(id, recent)));
  }

  /**
   * The body of the flush loop for one location: collect the values and
   * timestamps of the matching events, then divide their sums by the count.
   */
  method AverageLocation(id: string, recent: seq<Event>) returns (a: AveragedEvent)
    requires id in LocationIds(recent)
    ensures a == Average(id, recent)
  {
    var values: seq<real> := [];
    var times: seq<int> := [];
    var k := 0;
    while k < |recent|
      invariant 0 <= k <= |recent|
      invariant values == Values(Matching(id, recent[..k]))
      invariant times == Times(Matching(id, recent[..k]))
    {
      MatchingPrefix(id, recent, k);
      ValuesTimesSnoc(Matching(id, recent[..k]), recent[k]);
      var e := recent[k];
      if Matches(id, e) {
        values := values + [e.value];
        times := times + [e.timestamp];
      }
      k := k + 1;
    }
    assert recent[..k] == recent;
    MatchingNonEmpty(id, recent);
    a := AveragedEvent(id, Sum(values) / (|values| as real), RoundHalfEven(SumInts(times), |times|));
  }

  /** The averaged events of one flush, in the iteration order `ids`. */
  function Flush(ids: seq<string>, recent: seq<Event>): (items: seq<Item>)
    requires forall id :: id in ids ==> id in LocationIds(recent)
    ensures |items| == |ids|
  {
    if ids == [] then [] else [Averaged(Average(ids[0], recent))] + Flush(ids[1..], recent)
  }

  /** The `j`-th item of a flush is the average for the `j`-th location id iterated over. */
  lemma {:induction false} FlushIndex(ids: seq<string>, recent: seq<Event>, j: nat)
    requires forall id :: id in ids ==> id in LocationIds(recent)
    requires j < |ids|
    ensures Flush(ids, recent)[j] == Averaged(Average(ids[j], recent))
  {
    if j > 0 {
      FlushIndex(ids[1..], recent, j - 1);
    }
  }

  /** One more location id iterated over appends its average. */
  lemma {:induction false} FlushSnoc(ids: seq<string>, id: string, recent: seq<Event>)
    requires forall x :: x in ids + [id] ==> x in LocationIds(recent)
    ensures Flush(ids + [id], recent) == Flush(ids, recent) + [Averaged(Average(id, recent))]
  {
    if ids == [] {
      assert [] + [id] == [id];
    } else {
      assert (ids + [id])[0] == ids[0] && (ids + [id])[1..] == ids[1..] + [id];
      FlushSnoc(ids[1..], id, recent);
    }
  }

  /**
   * The local state of `handle` between two events: `ids_set`, `loc_set`,
   * `recent_events`, `start_time`, the counter `i`, and the number of clock
   * readings taken so far.
   */
  datatype State = State(ids: set<string>, locs: set<string>, recent: seq<Event>,
                         start: real, count: nat, tick: nat)

  /** What every accepted event keeps true of the state. */
  predicate Inv(st: State)
  {
    st.ids == EventIds(st.recent) &&
    st.locs == LocationIds(st.recent) &&
    DistinctIds(st.recent)
  }

  /** No two accepted events share an id, so `ids_set` is as large as `recent_events`. */
  lemma InvCounts(st: State)
    requires Inv(st)
    ensures |st.ids| == |st.recent|
  {
    DistinctIdsCount(st.recent);
  }

  /** `end_time` is taken from the first reading, `start_time` from the second. */
  function EndTime(runTimeSeconds: real, clock: nat -> real): real
  {
    clock(0) + runTimeSeconds
  }

  function Initial(clock: nat -> real): (st: State)
    ensures Inv(st)
  {
    State({}, {}, [], clock(1), 0, 2)
  }

  /** One event's effect: the loop stops, or it continues after yielding `items`. */
  datatype Outcome = Halted(st: State) | Continued(st: State, items: seq<Item>)

  /** Every id the flush iterates over is a location id of an accepted event. */
  lemma FlushIdsAccepted(st: State, e: Event, order: set<string> -> seq<string>)
    requires Inv(st) && ValidOrder(order)
    ensures forall id :: id in order(st.locs + {e.locationId}) ==> id in LocationIds(st.recent + [e])
  {
    EventIdsSnoc(st.recent, e);
    assert IsEnumeration(order(st.locs + {e.locationId}), st.locs + {e.locationId});
  }

  /** Recording an event with a new id keeps the invariant. */
  lemma AdmitKeepsInv(st: State, e: Event)
    requires Inv(st) && e.eventId !in st.ids
    ensures Inv(st.(ids := st.ids + {e.eventId}, locs := st.locs + {e.locationId},
                    recent := st.recent + [e]))
  {
    EventIdsSnoc(st.recent, e);
    var r := st.recent + [e];
    forall j, k | 0 <= j < k < |r| ensures r[j].eventId != r[k].eventId {
      if k == |r| - 1 {
        InEventIds(r[j].eventId, st.recent);
      }
    }
  }

  /** One iteration of the `for event in events` loop. */
  function Step(st: State, e: Event, endTime: real, clock: nat -> real,
                order: set<string> -> seq<string>): (o: Outcome)
    requires Inv(st) && ValidOrder(order)
    ensures Inv(o.st)
    ensures o.st.tick > st.tick
  {
    if !(clock(st.tick) < endTime) then
      Halted(st.(tick := st.tick + 1))
    else if e.eventId in st.ids then
      Continued(st.(tick := st.tick + 1, count := st.count + 1), [])
    else
      var recent := st.recent + [e];
      var ids := st.ids + {e.eventId};
      var locs := st.locs + {e.locationId};
      AdmitKeepsInv(st, e);
      if clock(st.tick + 1) - st.start > WindowSeconds then
        FlushIdsAccepted(st, e, order);
        var flush := Flush(order(locs), recent);
        Continued(State(ids, locs, recent, clock(st.tick + 2), st.count + |flush| + 1, st.tick + 3),
                  flush + [Raw(e)])
      else
        Continued(State(ids, locs, recent, st.start, st.count + 1, st.tick + 2), [Raw(e)])
  }

  lemma NoRawsInFlush(ids: seq<string>, recent: seq<Event>)
    requires forall id :: id in ids ==> id in LocationIds(recent)
    ensures Raws(Flush(ids, recent)) == []
  {
    var f := Flush(ids, recent);
    if ids != [] {
      assert f[1..] == Flush(ids[1..], recent);
      NoRawsInFlush(ids[1..], recent);
    }
  }

  /** The result of running the loop over a list of events. */
  datatype RunResult = RunResult(final: State, out: seq<Item>, admitted: nat)

  /**
   * The `for` loop over `es` from state `st`: `out` is everything yielded,
   * `admitted` the number of events read before a clock reading reached the
   * deadline (all of `es` when the input ran out first).
   */
  function Run(st: State, es: seq<Event>, endTime: real, clock: nat -> real,
               order: set<string> -> seq<string>): (r: RunResult)
    requires Inv(st) && ValidOrder(order)
    ensures Inv(r.final)
    ensures r.admitted <= |es|
    ensures r.final.tick >= st.tick
    decreases |es|
  {
    if es == [] then RunResult(st, [], 0)
    else
      match Step(st, es[0], endTime, clock, order)
      case Halted(st') => RunResult(st', [], 0)
      case Continued(st', items) =>
        var r := Run(st', es[1..], endTime, clock, order);
        RunResult(r.final, items + r.out, r.admitted + 1)
  }

  /** `FixedDurationSource(runTimeSeconds).handle(events)`, as a whole. */
  function Output(runTimeSeconds: real, events: seq<Event>, clock: nat -> real,
                  order: set<string> -> seq<string>): (r: RunResult)
    requires ValidOrder(order)
    ensures Inv(r.final)
    ensures r.admitted <= |events|
  {
    Run(Initial(clock), events, EndTime(runTimeSeconds, clock), clock, order)
  }

  /** Running over a list whose first event stops the loop yields nothing. */
  lemma RunHalts(st: State, es: seq<Event>, endTime: real, clock: nat -> real,
                 order: set<string> -> seq<string>)
    requires Inv(st) && ValidOrder(order) && |es| > 0
    requires clock(st.tick) >= endTime
    ensures Run(st, es, endTime, clock, order).out == []
  {
  }

  /** One continued iteration of the loop keeps "what is yielded so far, then the rest" intact. */
  lemma RunContinues(whole: seq<Item>, out: seq<Item>, events: seq<Event>, k: nat,
                     st: State, st': State, items: seq<Item>,
                     endTime: real, clock: nat -> real, order: set<string> -> seq<string>)
    requires k < |events| && Inv(st) && ValidOrder(order)
    requires whole == out + Run(st, events[k..], endTime, clock, order).out
    requires Step(st, events[k], endTime, clock, order) == Continued(st', items)
    ensures Inv(st')
    ensures whole == (out + items) + Run(st', events[k + 1..], endTime, clock, order).out
  {
    assert events[k..][0] == events[k] && events[k..][1..] == events[k + 1..];
  }

  /** A repeated event id only advances the counter and the clock. */
  lemma StepDuplicate(st: State, e: Event, endTime: real, clock: nat -> real,
                      order: set<string> -> seq<string>)
    requires Inv(st) && ValidOrder(order)
    requires clock(st.tick) < endTime && e.eventId in st.ids
    ensures Step(st, e, endTime, clock, order) == Continued(st.(count := st.count + 1, tick := st.tick + 1), [])
  {
  }

  /** An accepted event that does not close the window is passed straight through. */
  lemma StepWithoutFlush(st: State, e: Event, endTime: real, clock: nat -> real,
                         order: set<string> -> seq<string>)
    requires Inv(st) && ValidOrder(order)
    requires clock(st.tick) < endTime && e.eventId !in st.ids
    requires clock(st.tick + 1) - st.start <= WindowSeconds
    ensures Step(st, e, endTime, clock, order) ==
            Continued(State(st.ids + {e.eventId}, st.locs + {e.locationId}, st.recent + [e],
                            st.start, st.count + 1, st.tick + 2),
                      [Raw(e)])
  {
  }

  /** An accepted event that closes the window is preceded by the flush. */
  lemma StepWithFlush(st: State, e: Event, endTime: real, clock: nat -> real,
                      order: set<string> -> seq<string>)
    requires Inv(st) && ValidOrder(order)
    requires clock(st.tick) < endTime && e.eventId !in st.ids
    requires clock(st.tick + 1) - st.start > WindowSeconds
    requires forall id :: id in order(st.locs + {e.locationId}) ==> id in LocationIds(st.recent + [e])
    ensures Step(st, e, endTime, clock, order) ==
            Continued(State(st.ids + {e.eventId}, st.locs + {e.locationId}, st.recent + [e],
                            clock(st.tick + 2),
                            st.count + |Flush(order(st.locs + {e.locationId}), st.recent + [e])| + 1,
                            st.tick + 3),
                      Flush(order(st.locs + {e.locationId}), st.recent + [e]) + [Raw(e)])
  {
  }

  /** The flush loop over `loc_set`: one averaged event per location id, in iteration order. */
  method FlushAverages(locIds: seq<string>, recent: seq<Event>) returns (items: seq<Item>)
    requires forall id :: id in locIds ==> id in LocationIds(recent)
    ensures items == Flush(locIds, recent)
  {
    items := [];
    var j := 0;
    while j < |locIds|
      invariant 0 <= j <= |locIds|
      invariant items == Flush(locIds[..j], recent)
    {
      var average := AverageLocation(locIds[j], recent);
      assert locIds[..j + 1] == locIds[..j] + [locIds[j]];
      FlushSnoc(locIds[..j], locIds[j], recent);
      items := items + [Averaged(average)];
      j := j + 1;
    }
    assert locIds[..j] == locIds;
  }

  /**
   * The body of the loop once the deadline check has passed: a repeated id
   * only bumps the counter; a new one is recorded, and when more than 30
   * seconds have passed since the window start the flush is emitted first
   * and the window restarted. `tick` counts the clock readings so far, the
   * deadline check of this iteration included; `st` is the state before it.
   */
  method ProcessInTime(event: Event, idsSet: set<string>, locSet: set<string>,
                       recentEvents: seq<Event>, startTime: real, i: nat, tick: nat,
                       clock: nat -> real, order: set<string> -> seq<string>,
                       ghost endTime: real, ghost st: State)
    returns (idsSet': set<string>, locSet': set<string>, recentEvents': seq<Event>,
             startTime': real, i': nat, tick': nat, items: seq<Item>)
    requires ValidOrder(order) && Inv(st)
    requires st == State(idsSet, locSet, recentEvents, startTime, i, st.tick) && tick == st.tick + 1
    requires clock(st.tick) < endTime
    ensures Step(st, event, endTime, clock, order)
            == Continued(State(idsSet', locSet', recentEvents', startTime', i', tick'), items)
  {
    idsSet', locSet', recentEvents', startTime', i', tick' :=
      idsSet, locSet, recentEvents, startTime, i, tick;
    items := [];
    if event.eventId in idsSet {
      i' := i + 1;
      StepDuplicate(st, event, endTime, clock, order);
      return;
    }
    recentEvents' := recentEvents + [event];
    idsSet' := idsSet + {event.eventId};
    locSet' := locSet + {event.locationId};
    var elapsed := clock(tick) - startTime;
    tick' := tick + 1;
    if elapsed > WindowSeconds {
      FlushIdsAccepted(st, event, order);
      StepWithFlush(st, event, endTime, clock, order);
      items := FlushAverages(order(locSet'), recentEvents');
      i' := i' + |items|;
      startTime' := clock(tick');
      tick' := tick' + 1;
    } else {
      StepWithoutFlush(st, event, endTime, clock, order);
    }
    items := items + [Raw(event)];
    i' := i' + 1;
  }

  /** The pipeline step that processes events for a fixed duration. */
  class FixedDurationSource {
    var runTimeSeconds: real
    var eventsProcessed: nat

    constructor (runTimeSeconds: real)
      ensures this.runTimeSeconds == runTimeSeconds && eventsProcessed == 0
    {
      this.runTimeSeconds := runTimeSeconds;
      eventsProcessed := 0;
    }

    /**
     * Pass on events until the deadline, dropping repeated ids and flushing
     * per-location averages once more than 30 seconds have passed. The
     * generator's items are returned as one finite sequence.
     */
    method Handle(events: seq<Event>, clock: nat -> real, order: set<string> -> seq<string>)
      returns (out: seq<Item>)
      requires ValidOrder(order)
      modifies this`eventsProcessed
      ensures out == Output(runTimeSeconds, events, clock, order).out
      ensures eventsProcessed == old(eventsProcessed) + |out|
    {
      var endTime := clock(0) + runTimeSeconds;
      var startTime := clock(1);
      var tick: nat := 2;
      var idsSet: set<string> := {};
      var locSet: set<string> := {};
      var i: nat := 0;
      var recentEvents: seq<Event> := [];
      out := [];
      ghost var whole := Output(runTimeSeconds, events, clock, order);
      assert events[0..] == events;
      assert Initial(clock) == State(idsSet, locSet, recentEvents, startTime, i, tick);
      assert EndTime(runTimeSeconds, clock) == endTime;
      assert whole.out == out + Run(State(idsSet, locSet, recentEvents, startTime, i, tick),
                                    events[0..], endTime, clock, order).out;
      var k := 0;
      while k < |events|
        invariant 0 <= k <= |events|
        invariant Inv(State(idsSet, locSet, recentEvents, startTime, i, tick))
        invariant whole.out ==
                  out + Run(State(idsSet, locSet, recentEvents, startTime, i, tick),
                            events[k..], endTime, clock, order).out
        invariant eventsProcessed == old(eventsProcessed) + |out|
      {
        ghost var st := State(idsSet, locSet, recentEvents, startTime, i, tick);
        var event := events[k];
        var now := clock(tick);
        tick := tick + 1;
        if !(now < endTime) {
          assert events[k..][0] == events[k];
          RunHalts(st, events[k..], endTime, clock, order);
          return;
        }
        var items;
        idsSet, locSet, recentEvents, startTime, i, tick, items :=
          ProcessInTime(event, idsSet, locSet, recentEvents, startTime, i, tick, clock, order, endTime, st);
        RunContinues(whole.out, out, events, k, st, State(idsSet, locSet, recentEvents, startTime, i, tick),
                     items, endTime, clock, order);
        eventsProcessed := eventsProcessed + |items|;
        out := out + items;
        k := k + 1;
      }
    }
  }
}
