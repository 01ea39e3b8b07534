/// The values that flow through the pipeline stage: raw sensor events,
/// the per-location averages computed at a flush, and the stage's output items.
module Events {

  /** A raw sensor event, with the four fields of the source's event tuple. */
  datatype Event = Event(eventId: string, locationId: string, value: real, timestamp: int)

  /** The record emitted for one location at a flush: `AveragedEvent([id, value, timestamp])`. */
  datatype AveragedEvent = AveragedEvent(locationId: string, value: real, timestamp: int)

  /** One yielded item: a raw event passed through, or an average. */
  datatype Item = Raw(event: Event) | Averaged(average: AveragedEvent)

  /**
   * `id in event` on the event tuple: `id` equals one of its fields. The value
   * (a float) and the timestamp (an int) never compare equal to a string id,
   * so only the two id fields can match.
   */
  predicate Matches(id: string, e: Event)
  {
    e.eventId == id || e.locationId == id
  }

  /** The set of event ids of `r`. */
  function EventIds(r: seq<Event>): set<string>
  {
    if r == [] then {} else EventIds(r[..|r| - 1]) + {r[|r| - 1].eventId}
  }

  /** The set of location ids of `r`. */
  function LocationIds(r: seq<Event>): set<string>
  {
    if r == [] then {} else LocationIds(r[..|r| - 1]) + {r[|r| - 1].locationId}
  }

  lemma {:induction false} InEventIds(id: string, r: seq<Event>)
    ensures id in EventIds(r) <==> exists k :: 0 <= k < |r| && r[k].eventId == id
  {
    if r != [] {
      InEventIds(id, r[..|r| - 1]);
      if id in EventIds(r[..|r| - 1]) {
        var k :| 0 <= k < |r| - 1 && r[..|r| - 1][k].eventId == id;
        assert r[k].eventId == id;
      }
    }
  }

  lemma {:induction false} InLocationIds(id: string, r: seq<Event>)
    ensures id in LocationIds(r) <==> exists k :: 0 <= k < |r| && r[k].locationId == id
  {
    if r != [] {
      InLocationIds(id, r[..|r| - 1]);
      if id in LocationIds(r[..|r| - 1]) {
        var k :| 0 <= k < |r| - 1 && r[..|r| - 1][k].locationId == id;
        assert r[k].locationId == id;
      }
    }
  }

  predicate DistinctIds(r: seq<Event>)
  {
    forall j, k :: 0 <= j < k < |r| ==> r[j].eventId != r[k].eventId
  }

  /** The events of `r` that `id` matches, in the order of `r`. */
  function Matching(id: string, r: seq<Event>): (m: seq<Event>)
    ensures |m| <= |r|
    ensures forall e :: e in m <==> e in r && Matches(id, e)
  {
    if r == [] then []
    else
      assert r == r[..|r| - 1] + [r[|r| - 1]];
      Matching(id, r[..|r| - 1]) + (if Matches(id, r[|r| - 1]) then [r[|r| - 1]] else [])
  }

  /** Every location id of `r` matches at least one event of `r`. */
  lemma MatchingNonEmpty(id: string, r: seq<Event>)
    requires id in LocationIds(r)
    ensures |Matching(id, r)| > 0
  {
    InLocationIds(id, r);
    var k :| 0 <= k < |r| && r[k].locationId == id;
    assert r[k] in Matching(id, r);
  }

  /**
   * `Matching` keeps each matching event as often as it occurs in `r` and
   * drops every other one, so the lists averaged at a flush have the right
   * multiplicities.
   */
  lemma {:induction false} MatchingCounts(id: string, r: seq<Event>)
    ensures forall e :: multiset(Matching(id, r))[e] == if Matches(id, e) then multiset(r)[e] else 0
  {
    if r != [] {
      var n := |r| - 1;
      MatchingCounts(id, r[..n]);
      assert r == r[..n] + [r[n]];
      assert multiset(r) == multiset(r[..n]) + multiset{r[n]};
    }
  }

  lemma MatchingPrefix(id: string, r: seq<Event>, k: nat)
    requires k < |r|
    ensures Matching(id, r[..k + 1]) == Matching(id, r[..k]) + (if Matches(id, r[k]) then [r[k]] else [])
  {
    assert r[..k + 1][..k] == r[..k];
  }

  function Values(m: seq<Event>): (vs: seq<real>)
    ensures |vs| == |m|
  {
    seq(|m|, k requires 0 <= k < |m| => m[k].value)
  }

  function Times(m: seq<Event>): (ts: seq<int>)
    ensures |ts| == |m|
  {
    seq(|m|, k requires 0 <= k < |m| => m[k].timestamp)
  }

  lemma ValuesTimesSnoc(m: seq<Event>, e: Event)
    ensures Values(m + [e]) == Values(m) + [e.value]
    ensures Times(m + [e]) == Times(m) + [e.timestamp]
  {
  }

  /** The raw events among the output items, in output order. */
  function Raws(out: seq<Item>): seq<Event>
  {
    if out == [] then []
    else (if out[0].Raw? then [out[0].event] else []) + Raws(out[1..])
  }

  lemma {:induction false} RawsConcat(a: seq<Item>, b: seq<Item>)
    ensures Raws(a + b) == Raws(a) + Raws(b)
  {
    if a != [] {
      assert (a + b)[1..] == a[1..] + b;
      RawsConcat(a[1..], b);
    } else {
      assert a + b == b;
    }
  }

  lemma EventIdsSnoc(r: seq<Event>, e: Event)
    ensures EventIds(r + [e]) == EventIds(r) + {e.eventId}
    ensures LocationIds(r + [e]) == LocationIds(r) + {e.locationId}
  {
    assert (r + [e])[..|r|] == r;
  }

  /**
   * The events of `es` whose id is neither in `seen` nor on an earlier event
   * of `es`: every id's first occurrence, in arrival order.
   */
  function FirstOccurrences(es: seq<Event>, seen: set<string>): seq<Event>
  {
    if es == [] then []
    else if es[0].eventId in seen then FirstOccurrences(es[1..], seen)
    else [es[0]] + FirstOccurrences(es[1..], seen + {es[0].eventId})
  }

  /** Splitting off the first event; an id already seen leaves `seen` as it was. */
  lemma FirstOccurrencesCons(es: seq<Event>, seen: set<string>)
    requires es != []
    ensures FirstOccurrences(es, seen) ==
            FirstOccurrences([es[0]], seen) + FirstOccurrences(es[1..], seen + {es[0].eventId})
  {
    assert [es[0]][1..] == [];
    if es[0].eventId in seen {
      assert seen + {es[0].eventId} == seen;
    }
  }

  /** Distinct ids: as many ids as events. */
  lemma {:induction false} DistinctIdsCount(r: seq<Event>)
    requires DistinctIds(r)
    ensures |EventIds(r)| == |r|
  {
    if r != [] {
      var init := r[..|r| - 1];
      assert DistinctIds(init);
      DistinctIdsCount(init);
      InEventIds(r[|r| - 1].eventId, init);
    }
  }
}
