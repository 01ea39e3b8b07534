/// What `FixedDurationSource.handle` promises, proved about the loop
/// specification `Step`/`Run` of module FixedDuration: deduplication, the
/// deadline cut-off, the shape and content of each flush, and the counters.
module FixedDurationProperties {
  import opened Events
  import opened Stats
  import opened FixedDuration

  /** What one iteration does, case by case. */
  lemma StepSummary(st: State, e: Event, endTime: real, clock: nat -> real,
                    order: set<string> -> seq<string>)
    requires Inv(st) && ValidOrder(order)
    ensures var o := Step(st, e, endTime, clock, order);
      (o.Halted? <==> clock(st.tick) >= endTime) &&
      (o.Halted? ==> o.st == st.(tick := st.tick + 1)) &&
      (o.Continued? && e.eventId in st.ids ==>
         o.items == [] && o.st == st.(count := st.count + 1, tick := st.tick + 1)) &&
      (o.Continued? && e.eventId !in st.ids ==>
         |o.items| > 0 && o.items[|o.items| - 1] == Raw(e) && Raws(o.items) == [e] &&
         o.st.recent == st.recent + [e] && o.st.ids == st.ids + {e.eventId} &&
         o.st.count == st.count + |o.items|)
  {
    if clock(st.tick) < endTime {
      if e.eventId in st.ids {
        StepDuplicate(st, e, endTime, clock, order);
      } else if clock(st.tick + 1) - st.start > WindowSeconds {
        FlushIdsAccepted(st, e, order);
        StepWithFlush(st, e, endTime, clock, order);
        var flush := Flush(order(st.locs + {e.locationId}), st.recent + [e]);
        NoRawsInFlush(order(st.locs + {e.locationId}), st.recent + [e]);
        RawsConcat(flush, [Raw(e)]);
      } else {
        StepWithoutFlush(st, e, endTime, clock, order);
      }
    }
  }

  /**
   * An event whose id was already accepted is dropped: nothing is yielded,
   * `ids_set`, `loc_set`, `recent_events` and `start_time` stay as they were,
   * and only the counter `i` (and the clock) advance.
   */
  lemma DuplicateDropped(st: State, e: Event, endTime: real, clock: nat -> real,
                         order: set<string> -> seq<string>)
    requires Inv(st) && ValidOrder(order)
    requires clock(st.tick) < endTime && e.eventId in st.ids
    ensures var o := Step(st, e, endTime, clock, order);
      o.Continued? && o.items == [] &&
      o.st.ids == st.ids && o.st.locs == st.locs && o.st.recent == st.recent &&
      o.st.start == st.start && o.st.count == st.count + 1
  {
    StepDuplicate(st, e, endTime, clock, order);
  }

  /**
   * A new event is recorded and passed through last. It is preceded by a
   * flush exactly when more than 30 seconds have passed since the window
   * start; the flush restarts the window, and `recent_events` and `loc_set`
   * keep everything accepted so far.
   */
  lemma AcceptedStep(st: State, e: Event, endTime: real, clock: nat -> real,
                     order: set<string> -> seq<string>)
    requires Inv(st) && ValidOrder(order)
    requires clock(st.tick) < endTime && e.eventId !in st.ids
    ensures var o := Step(st, e, endTime, clock, order);
      var flushed := clock(st.tick + 1) - st.start > WindowSeconds;
      o.Continued? &&
      o.st.recent == st.recent + [e] && o.st.ids == st.ids + {e.eventId} &&
      o.st.locs == st.locs + {e.locationId} &&
      o.st.start == (if flushed then clock(st.tick + 2) else st.start) &&
      (forall id :: id in order(o.st.locs) ==> id in LocationIds(o.st.recent)) &&
      o.items == (if flushed then Flush(order(o.st.locs), o.st.recent) else []) + [Raw(e)]
  {
    FlushIdsAccepted(st, e, order);
    if clock(st.tick + 1) - st.start > WindowSeconds {
      StepWithFlush(st, e, endTime, clock, order);
    } else {
      StepWithoutFlush(st, e, endTime, clock, order);
      assert [] + [Raw(e)] == [Raw(e)];
    }
  }

  /**
   * A flush over `loc_set` yields exactly one averaged event per location id
   * in it, each averaged over all the accepted events, and no raw event.
   */
  lemma FlushContents(locs: set<string>, recent: seq<Event>, order: set<string> -> seq<string>)
    requires ValidOrder(order)
    requires forall id :: id in order(locs) ==> id in LocationIds(recent)
    ensures var f := Flush(order(locs), recent);
      |f| == |locs| && Raws(f) == [] &&
      (forall j :: 0 <= j < |f| ==>
         f[j].Averaged? && f[j].average.locationId in locs &&
         f[j].average == Average(f[j].average.locationId, recent)) &&
      (forall j, k :: 0 <= j < k < |f| ==> f[j].average.locationId != f[k].average.locationId) &&
      (forall id :: id in locs ==> exists j :: 0 <= j < |f| && f[j] == Averaged(Average(id, recent)))
  {
    var ids := order(locs);
    assert IsEnumeration(ids, locs);
    EnumerationSize(ids, locs);
    NoRawsInFlush(ids, recent);
    var f := Flush(ids, recent);
    forall id | id in locs
      ensures exists j :: 0 <= j < |f| && f[j] == Averaged(Average(id, recent))
    {
      var j :| 0 <= j < |ids| && ids[j] == id;
      FlushIndex(ids, recent, j);
    }
    forall j | 0 <= j < |f|
      ensures f[j].Averaged? && f[j].average.locationId in locs &&
              f[j].average == Average(f[j].average.locationId, recent)
    {
      FlushIndex(ids, recent, j);
    }
    forall j, k | 0 <= j < k < |f|
      ensures f[j].average.locationId != f[k].average.locationId
    {
      FlushIndex(ids, recent, j);
      FlushIndex(ids, recent, k);
    }
  }

  /** The raw part of one iteration's output, and what it adds to the accepted events. */
  lemma StepRaws(st: State, e: Event, endTime: real, clock: nat -> real,
                 order: set<string> -> seq<string>)
    requires Inv(st) && ValidOrder(order)
    requires Step(st, e, endTime, clock, order).Continued?
    ensures var o := Step(st, e, endTime, clock, order);
      Raws(o.items) == FirstOccurrences([e], st.ids) &&
      o.st.recent == st.recent + Raws(o.items) &&
      o.st.ids == st.ids + {e.eventId}
  {
    StepSummary(st, e, endTime, clock, order);
    assert [e][1..] == [];
    if e.eventId in st.ids {
      assert st.ids + {e.eventId} == st.ids;
    }
  }

  /** Joining one iteration's raw output with the rest of the run's. */
  lemma RawsCombine(read: seq<Event>, seen: set<string>, seen': set<string>,
                    items: seq<Item>, more: seq<Item>,
                    recent: seq<Event>, recent': seq<Event>, final: seq<Event>)
    requires read != []
    requires Raws(items) == FirstOccurrences([read[0]], seen) && recent' == recent + Raws(items)
    requires seen' == seen + {read[0].eventId}
    requires Raws(more) == FirstOccurrences(read[1..], seen') && final == recent' + Raws(more)
    ensures Raws(items + more) == FirstOccurrences(read, seen)
    ensures final == recent + Raws(items + more)
  {
    RawsConcat(items, more);
    FirstOccurrencesCons(read, seen);
    assert (recent + Raws(items)) + Raws(more) == recent + (Raws(items) + Raws(more));
  }

  /**
   * The raw events yielded are the first occurrence of each event id among
   * the events read before the deadline, in arrival order, and they are
   * exactly what `recent_events` gained.
   */
  lemma {:induction false} RawsAreFirstOccurrences(st: State, es: seq<Event>, endTime: real,
                                                   clock: nat -> real, order: set<string> -> seq<string>)
    requires Inv(st) && ValidOrder(order)
    ensures var r := Run(st, es, endTime, clock, order);
      Raws(r.out) == FirstOccurrences(es[..r.admitted], st.ids) &&
      r.final.recent == st.recent + Raws(r.out)
    decreases |es|
  {
    if es != [] {
      var e := es[0];
      var o := Step(st, e, endTime, clock, order);
      if o.Continued? {
        StepRaws(st, e, endTime, clock, order);
        var r' := Run(o.st, es[1..], endTime, clock, order);
        RawsAreFirstOccurrences(o.st, es[1..], endTime, clock, order);
        assert Run(st, es, endTime, clock, order) == RunResult(r'.final, o.items + r'.out, r'.admitted + 1);
        var read := es[..r'.admitted + 1];
        assert read[0] == e && read[1..] == es[1..][..r'.admitted];
        RawsCombine(read, st.ids, o.st.ids, o.items, r'.out, st.recent, o.st.recent, r'.final.recent);
      } else {
        StepSummary(st, e, endTime, clock, order);
        assert Run(st, es, endTime, clock, order) == RunResult(o.st, [], 0);
        assert es[..0] == [];
      }
    } else {
      assert es[..0] == [];
    }
  }

  /**
   * From the start of `handle`: the raw events yielded are the first
   * occurrences of the ids read before the deadline, so no two of them share
   * an event id.
   */
  lemma OutputRawsDistinct(runTimeSeconds: real, events: seq<Event>, clock: nat -> real,
                           order: set<string> -> seq<string>)
    requires ValidOrder(order)
    ensures var r := Output(runTimeSeconds, events, clock, order);
      Raws(r.out) == FirstOccurrences(events[..r.admitted], {}) && DistinctIds(Raws(r.out))
  {
    RawsAreFirstOccurrences(Initial(clock), events, EndTime(runTimeSeconds, clock), clock, order);
    var r := Output(runTimeSeconds, events, clock, order);
    assert r.final.recent == Raws(r.out);
  }

  /**
   * Once a clock reading reaches the deadline the loop returns: if not all
   * input was read, the last reading taken is at or past the deadline.
   */
  lemma {:induction false} DeadlineReached(st: State, es: seq<Event>, endTime: real,
                                           clock: nat -> real, order: set<string> -> seq<string>)
    requires Inv(st) && ValidOrder(order)
    ensures var r := Run(st, es, endTime, clock, order);
      r.admitted < |es| ==> r.final.tick > 0 && clock(r.final.tick - 1) >= endTime
    decreases |es|
  {
    if es != [] {
      var o := Step(st, es[0], endTime, clock, order);
      if o.Continued? {
        var r' := Run(o.st, es[1..], endTime, clock, order);
        assert Run(st, es, endTime, clock, order) == RunResult(r'.final, o.items + r'.out, r'.admitted + 1);
        DeadlineReached(o.st, es[1..], endTime, clock, order);
      } else {
        assert Run(st, es, endTime, clock, order).final == o.st == st.(tick := st.tick + 1);
      }
    }
  }

  /** Input after the event at which the loop returned is never read. */
  lemma {:induction false} InputAfterDeadlineIgnored(st: State, es: seq<Event>, more: seq<Event>,
                                                     endTime: real, clock: nat -> real,
                                                     order: set<string> -> seq<string>)
    requires Inv(st) && ValidOrder(order)
    ensures var r := Run(st, es, endTime, clock, order);
      r.admitted < |es| ==> Run(st, es + more, endTime, clock, order) == r
    decreases |es|
  {
    if es != [] {
      assert (es + more)[0] == es[0] && (es + more)[1..] == es[1..] + more;
      var o := Step(st, es[0], endTime, clock, order);
      if o.Continued? {
        var r' := Run(o.st, es[1..], endTime, clock, order);
        var r'' := Run(o.st, es[1..] + more, endTime, clock, order);
        assert Run(st, es, endTime, clock, order) == RunResult(r'.final, o.items + r'.out, r'.admitted + 1);
        assert Run(st, es + more, endTime, clock, order) ==
               RunResult(r''.final, o.items + r''.out, r''.admitted + 1);
        InputAfterDeadlineIgnored(o.st, es[1..], more, endTime, clock, order);
      }
    }
  }

  /**
   * The output never ends with an average: every flush is followed by the
   * raw event that triggered it, and nothing is flushed when the input ends.
   */
  lemma {:induction false} OutputEndsWithRaw(st: State, es: seq<Event>, endTime: real,
                                             clock: nat -> real, order: set<string> -> seq<string>)
    requires Inv(st) && ValidOrder(order)
    ensures var r := Run(st, es, endTime, clock, order);
      |r.out| > 0 ==> r.out[|r.out| - 1].Raw?
    decreases |es|
  {
    if es != [] {
      StepSummary(st, es[0], endTime, clock, order);
      var o := Step(st, es[0], endTime, clock, order);
      if o.Continued? {
        OutputEndsWithRaw(o.st, es[1..], endTime, clock, order);
      }
    }
  }

  /**
   * The counter `i` grows by one per yielded item and one per dropped
   * duplicate: the duplicates are the events read before the deadline that
   * were not passed through.
   */
  lemma {:induction false} CounterTracksItemsAndDuplicates(st: State, es: seq<Event>, endTime: real,
                                                           clock: nat -> real,
                                                           order: set<string> -> seq<string>)
    requires Inv(st) && ValidOrder(order)
    ensures var r := Run(st, es, endTime, clock, order);
      |Raws(r.out)| <= r.admitted &&
      r.final.count == st.count + |r.out| + (r.admitted - |Raws(r.out)|)
    decreases |es|
  {
    if es != [] {
      StepSummary(st, es[0], endTime, clock, order);
      var o := Step(st, es[0], endTime, clock, order);
      if o.Continued? {
        CounterTracksItemsAndDuplicates(o.st, es[1..], endTime, clock, order);
        RawsConcat(o.items, Run(o.st, es[1..], endTime, clock, order).out);
      }
    }
  }

  /**
   * Every average in `out` is the one for its location over `recent`, the
   * raw events yielded before it and the raw event right after it: all the
   * events accepted when its flush ran, the triggering event included.
   */
  ghost predicate AveragesCover(out: seq<Item>, recent: seq<Event>)
    decreases |out|
  {
    if out == [] then true
    else if out[0].Raw? then AveragesCover(out[1..], recent + [out[0].event])
    else
      var id := out[0].average.locationId;
      |Raws(out)| > 0 &&
      id in LocationIds(recent + [Raws(out)[0]]) &&
      out[0].average == Average(id, recent + [Raws(out)[0]]) &&
      AveragesCover(out[1..], recent)
  }

  /** A flush over the events accepted so far, then the event that triggered it. */
  lemma {:induction false} FlushThenRawCovers(f: seq<Item>, e: Event, recent: seq<Event>)
    requires forall j :: 0 <= j < |f| ==>
      f[j].Averaged? && f[j].average.locationId in LocationIds(recent + [e]) &&
      f[j].average == Average(f[j].average.locationId, recent + [e])
    ensures Raws(f + [Raw(e)]) == [e]
    ensures AveragesCover(f + [Raw(e)], recent)
  {
    var out := f + [Raw(e)];
    if f == [] {
      assert out == [Raw(e)] && out[1..] == [];
    } else {
      assert out[1..] == f[1..] + [Raw(e)];
      FlushThenRawCovers(f[1..], e, recent);
    }
  }

  /** The two halves of an output each covered: so is the whole. */
  lemma {:induction false} CoverConcat(a: seq<Item>, b: seq<Item>, recent: seq<Event>)
    requires AveragesCover(a, recent) && AveragesCover(b, recent + Raws(a))
    ensures AveragesCover(a + b, recent)
    decreases |a|
  {
    if a == [] {
      assert a + b == b && recent + Raws(a) == recent;
    } else {
      assert (a + b)[0] == a[0] && (a + b)[1..] == a[1..] + b;
      if a[0].Raw? {
        var recent' := recent + [a[0].event];
        assert recent' + Raws(a[1..]) == recent + Raws(a);
        CoverConcat(a[1..], b, recent');
      } else {
        assert Raws(a) == Raws(a[1..]);
        RawsConcat(a, b);
        assert Raws(a + b)[0] == Raws(a)[0];
        CoverConcat(a[1..], b, recent);
      }
    }
  }

  /** What one iteration yields is covered. */
  lemma StepCovers(st: State, e: Event, endTime: real, clock: nat -> real,
                   order: set<string> -> seq<string>)
    requires Inv(st) && ValidOrder(order)
    requires Step(st, e, endTime, clock, order).Continued?
    ensures AveragesCover(Step(st, e, endTime, clock, order).items, st.recent)
  {
    var o := Step(st, e, endTime, clock, order);
    if e.eventId in st.ids {
      DuplicateDropped(st, e, endTime, clock, order);
    } else {
      AcceptedStep(st, e, endTime, clock, order);
      var f := if clock(st.tick + 1) - st.start > WindowSeconds
               then Flush(order(o.st.locs), o.st.recent) else [];
      if clock(st.tick + 1) - st.start > WindowSeconds {
        FlushContents(o.st.locs, o.st.recent, order);
      }
      FlushThenRawCovers(f, e, st.recent);
    }
  }

  /**
   * The averages a run yields are taken over every event accepted so far,
   * not only over the current window: each equals the average for its
   * location over the state's events, the raw events yielded before it and
   * the event that triggered its flush.
   */
  lemma {:induction false} AveragesCoverAcceptedSoFar(st: State, es: seq<Event>, endTime: real,
                                                      clock: nat -> real,
                                                      order: set<string> -> seq<string>)
    requires Inv(st) && ValidOrder(order)
    ensures AveragesCover(Run(st, es, endTime, clock, order).out, st.recent)
    decreases |es|
  {
    if es != [] {
      var o := Step(st, es[0], endTime, clock, order);
      if o.Continued? {
        var r' := Run(o.st, es[1..], endTime, clock, order);
        assert Run(st, es, endTime, clock, order).out == o.items + r'.out;
        StepRaws(st, es[0], endTime, clock, order);
        StepCovers(st, es[0], endTime, clock, order);
        AveragesCoverAcceptedSoFar(o.st, es[1..], endTime, clock, order);
        CoverConcat(o.items, r'.out, st.recent);
      }
    }
  }

  /**
   * From the start of `handle`: every average yielded is over all the raw
   * events yielded before it and the raw event right after it, and the
   * output never ends with an average.
   */
  lemma OutputAveragesCover(runTimeSeconds: real, events: seq<Event>, clock: nat -> real,
                            order: set<string> -> seq<string>)
    requires ValidOrder(order)
    ensures var out := Output(runTimeSeconds, events, clock, order).out;
      AveragesCover(out, []) && (|out| > 0 ==> out[|out| - 1].Raw?)
  {
    var endTime := EndTime(runTimeSeconds, clock);
    AveragesCoverAcceptedSoFar(Initial(clock), events, endTime, clock, order);
    OutputEndsWithRaw(Initial(clock), events, endTime, clock, order);
  }
}
