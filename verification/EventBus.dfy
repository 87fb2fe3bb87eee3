/** The event bus's history and queries (quickdesk-mcp/src/event_bus.rs). */
module EventBus {
  import opened Options
  import opened Json
  import opened Sequences

  datatype Event = Event(event: string, data: Json, timestamp: nat)

  /** What a waiter asks for. */
  datatype Query = Query(eventType: string, filter: Option<Json>)

  /** How many events the history holds: one even when none were asked for. */
  function Capacity(maxHistory: nat): (n: nat) {
    if maxHistory == 0 then 1 else maxHistory
  }

  lemma HeldLength(published: seq<Event>, maxHistory: nat)
    ensures var held := LastOf(published, Capacity(maxHistory));
            && |held| == (if |published| <= maxHistory || |published| == 1 then |published|
                          else if maxHistory == 0 && |published| > 0 then 1 else maxHistory)
            && held == published[|published| - |held|..]
  {
  }

  /** What `publish` does to the events held. */
  lemma HeldStep(published: seq<Event>, maxHistory: nat, event: Event)
    ensures var held := LastOf(published, Capacity(maxHistory));
            LastOf(published + [event], Capacity(maxHistory))
            == (if |held| >= maxHistory && held != [] then held[1..] else held) + [event]
  {
    LastOfSnoc(published, Capacity(maxHistory), event);
  }

  // ---- Filters ----

  /** Whether the data has every key of the filter with an equal value; values that are not both
      objects match when they are equal. */
  predicate Matches(data: Json, filter: Json) {
    if data.Object? && filter.Object? then
      forall key <- filter.fields :: key in data.fields && data.fields[key] == filter.fields[key]
    else data == filter
  }

  /** `matches_filter`; the keys of the filter are visited in any order. */
  method MatchesFilter(data: Json, filter: Json) returns (r: bool)
    ensures r <==> Matches(data, filter)
  {
    if data.Object? && filter.Object? {
      var keys := filter.fields.Keys;
      while keys != {}
        invariant keys <= filter.fields.Keys
        invariant forall key <- filter.fields :: key in keys || (key in data.fields && data.fields[key] == filter.fields[key])
      {
        ghost var some := ElementOf(keys);
        var key :| key in keys;
        if key in data.fields && data.fields[key] == filter.fields[key] {
          keys := keys - {key};
        } else {
          return false;
        }
      }
      r := true;
    } else {
      r := data == filter;
    }
  }

  /** Matching is reflexive, and data that has all of a filter has all that this filter has. */
  lemma MatchesIsPreorder(a: Json, b: Json, c: Json)
    ensures Matches(a, a)
    ensures Matches(a, b) && Matches(b, c) ==> Matches(a, c)
  {
    if Matches(a, b) && Matches(b, c) && a.Object? && b.Object? && c.Object? {
      forall key <- c.fields
        ensures key in a.fields && a.fields[key] == c.fields[key]
      {
        assert key in b.fields && b.fields[key] == c.fields[key];
      }
    }
  }

  /** An object matches a filter object exactly when merging the filter into it changes nothing;
      anything else matches only itself. */
  lemma MatchesExactly(data: Json, filter: Json)
    ensures data.Object? && filter.Object? ==> (Matches(data, filter) <==> data.fields + filter.fields == data.fields)
    ensures !data.Object? || !filter.Object? ==> (Matches(data, filter) <==> data == filter)
  {
    if data.Object? && filter.Object? {
      var merged := data.fields + filter.fields;
      if Matches(data, filter) {
        assert merged == data.fields;
      }
      if merged == data.fields {
        forall key <- filter.fields
          ensures key in data.fields && data.fields[key] == filter.fields[key]
        {
          assert key in merged && merged[key] == filter.fields[key];
        }
      }
    }
  }

  /** An event is wanted for its type and, with a filter, for its data. */
  lemma WantedExactly(e: Event, eventType: string, filter: Json)
    ensures Wanted(e, Query(eventType, None)) <==> e.event == eventType
    ensures e.data.Object? && filter.Object? ==>
              (Wanted(e, Query(eventType, Some(filter))) <==>
               e.event == eventType && e.data.fields + filter.fields == e.data.fields)
    ensures !e.data.Object? || !filter.Object? ==>
              (Wanted(e, Query(eventType, Some(filter))) <==> e.event == eventType && e.data == filter)
  {
    hide Matches;
    MatchesExactly(e.data, filter);
  }

  predicate Wanted(e: Event, q: Query) {
    e.event == q.eventType && (q.filter.None? || Matches(e.data, q.filter.value))
  }

  // ---- Recent events ----

  predicate OfType(e: Event, eventType: Option<string>) {
    eventType.None? || e.event == eventType.value
  }

  function Reverse<T>(s: seq<T>): (r: seq<T>) {
    if s == [] then [] else Reverse(s[1..]) + [s[0]]
  }

  function Filter(s: seq<Event>, eventType: Option<string>): (r: seq<Event>) {
    if s == [] then []
    else (if OfType(s[0], eventType) then [s[0]] else []) + Filter(s[1..], eventType)
  }

  function Take<T>(s: seq<T>, n: nat): (r: seq<T>) {
    if |s| <= n then s else s[..n]
  }

  /** `recent_events` as the iterator chain computes it. */
  function RecentChain(history: seq<Event>, eventType: Option<string>, limit: nat): (r: seq<Event>) {
    Reverse(Take(Filter(Reverse(history), eventType), limit))
  }

  lemma {:induction false} ReverseConcat<T>(a: seq<T>, b: seq<T>)
    ensures Reverse(a + b) == Reverse(b) + Reverse(a)
    decreases |a|
  {
    if a == [] {
      assert a + b == b;
    } else {
      ReverseConcat(a[1..], b);
      assert (a + b)[1..] == a[1..] + b;
    }
  }

  lemma {:induction false} ReverseShape<T>(s: seq<T>)
    ensures |Reverse(s)| == |s| && Reverse(Reverse(s)) == s
  {
    if s != [] {
      ReverseShape(s[1..]);
      ReverseConcat(Reverse(s[1..]), [s[0]]);
      assert Reverse([s[0]]) == [s[0]];
      assert s == [s[0]] + s[1..];
    }
  }

  lemma {:induction false} FilterConcat(a: seq<Event>, b: seq<Event>, eventType: Option<string>)
    ensures Filter(a + b, eventType) == Filter(a, eventType) + Filter(b, eventType)
    decreases |a|
  {
    if a == [] {
      assert a + b == b;
    } else {
      FilterConcat(a[1..], b, eventType);
      assert (a + b)[1..] == a[1..] + b;
      hide OfType;
      var head := if OfType(a[0], eventType) then [a[0]] else [];
      var f, g := Filter(a[1..], eventType), Filter(b, eventType);
      assert Filter(a + b, eventType) == head + (f + g);
      assert head + (f + g) == (head + f) + g;
    }
  }

  /** Filtering keeps each event of the type as often as it is there and drops all others; without a
      type it keeps all. Together with `FilterConcat` this fixes the order as well. */
  lemma {:induction false} FilterKeeps(s: seq<Event>, eventType: Option<string>, e: Event)
    ensures multiset(Filter(s, eventType))[e] ==
            if eventType == None || eventType == Some(e.event) then multiset(s)[e] else 0
  {
    if s != [] {
      FilterKeeps(s[1..], eventType, e);
      assert s == [s[0]] + s[1..];
    }
  }

  lemma {:induction false} FilterReverse(s: seq<Event>, eventType: Option<string>)
    ensures Filter(Reverse(s), eventType) == Reverse(Filter(s, eventType))
  {
    if s != [] {
      FilterReverse(s[1..], eventType);
      FilterConcat(Reverse(s[1..]), [s[0]], eventType);
      var head := if OfType(s[0], eventType) then [s[0]] else [];
      assert Filter([s[0]], eventType) == head;
      ReverseConcat(head, Filter(s[1..], eventType));
      assert Reverse(head) == head;
    }
  }

  /** Taking from the reversed sequence and reversing again leaves the end of the sequence. */
  lemma ReverseTakeReverse<T>(s: seq<T>, n: nat)
    ensures Reverse(Take(Reverse(s), n)) == LastOf(s, n)
  {
    ReverseShape(s);
    if |s| > n {
      var front, back := s[..|s| - n], s[|s| - n..];
      assert s == front + back;
      ReverseConcat(front, back);
      ReverseShape(back);
      assert Take(Reverse(s), n) == Reverse(back);
    }
  }

  /** The iterator chain yields the last `limit` events of the type, oldest first. */
  lemma RecentIsLastMatching(history: seq<Event>, eventType: Option<string>, limit: nat)
    ensures RecentChain(history, eventType, limit) == LastOf(Filter(history, eventType), limit)
  {
    FilterReverse(history, eventType);
    ReverseTakeReverse(Filter(history, eventType), limit);
  }

  // ---- The newest match ----

  /** The place of the last event wanted. */
  function Newest(history: seq<Event>, q: Query): (r: Option<nat>)
    ensures r.Some? ==> r.value < |history| && Wanted(history[r.value], q)
    ensures forall j :: (if r.Some? then r.value else -1) < j < |history| ==> !Wanted(history[j], q)
  {
    if history == [] then None
    else if Wanted(history[|history| - 1], q) then Some(|history| - 1)
    else Newest(history[..|history| - 1], q)
  }

  /** The search goes on with what is before an event that is not wanted. */
  lemma NewestStep(history: seq<Event>, q: Query, k: nat)
    requires 0 < k <= |history|
    ensures Newest(history[..k], q) == if Wanted(history[k - 1], q) then Some(k - 1) else Newest(history[..k - 1], q)
  {
    assert history[..k][..k - 1] == history[..k - 1];
  }

  /** The state that `publish` updates. The ghost field holds all that was ever published. */
  class Bus {
    const maxHistory: nat
    var history: seq<Event>
    ghost var published: seq<Event>

    ghost predicate Valid()
      reads this
    {
      history == LastOf(published, Capacity(maxHistory))
    }

    constructor (maxHistory: nat)
      ensures Valid() && published == [] && this.maxHistory == maxHistory
    {
      this.maxHistory := maxHistory;
      history := [];
      published := [];
    }

    /** `publish`, up to the broadcast. */
    method Publish(event: Event)
      requires Valid()
      modifies this
      ensures Valid() && published == old(published) + [event]
      ensures |history| == if |published| <= maxHistory || |published| == 1 then |published|
                           else if maxHistory == 0 then 1 else maxHistory
      ensures history == published[|published| - |history|..]
    {
      HeldStep(published, maxHistory, event);
      HeldLength(published + [event], maxHistory);
      hide LastOf, Capacity;
      if |history| >= maxHistory && history != [] {
        history := history[1..];
      }
      history := history + [event];
      published := published + [event];
    }

    /** `recent_events`: the last `limit` of those events of the type that are still held. */
    method RecentEvents(eventType: Option<string>, limit: nat) returns (r: seq<Event>)
      requires Valid()
      ensures r == LastOf(Filter(LastOf(published, Capacity(maxHistory)), eventType), limit)
    {
      r := RecentChain(history, eventType, limit);
      RecentIsLastMatching(history, eventType, limit);
    }

    /** The search of `wait_for` through the history, newest first. */
    method SearchHistory(q: Query) returns (r: Option<Event>)
      requires Valid()
      ensures r == var i := Newest(history, q); if i.None? then None else Some(history[i.value])
    {
      hide Matches, Newest, LastOf;
      var k := |history|;
      assert history[..k] == history;
      while k > 0
        invariant 0 <= k <= |history|
        invariant Newest(history, q) == Newest(history[..k], q)
      {
        NewestStep(history, q, k);
        var event := history[k - 1];
        if event.event == q.eventType {
          var matched := true;
          if q.filter.Some? {
            matched := MatchesFilter(event.data, q.filter.value);
          }
          if matched {
            return Some(event);
          }
        }
        k := k - 1;
      }
      r := None;
    }
  }
}
