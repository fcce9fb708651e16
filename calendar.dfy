/** The calendar drawer (components/calendar-drawer.tsx): each event's status
    relative to today, the events sorted by their date and time, and the
    events bucketed by day in date order.

    Dates stay abstract. `dayOf(d)` is the local-midnight time of the day
    `d + "T00:00:00"` (not-a-number when the text is no date), `today` the
    local-midnight time of the current day, `instantOf(d, t)` the time of
    `d + "T" + t`, and `dateKey(d)` the time of `new Date(d)`. */
module Calendar {
  import opened Js
  import opened Types
  import opened Sorting

  datatype Status = Past | Today | Future

  /** `getEventStatus`: both comparisons fail on not-a-number, so a day that
      does not parse counts as future. */
  function GetEventStatus(day: JsNumber, today: int): (r: Status)
    ensures r == Past <==> day.Num? && day.n < today
    ensures r == Today <==> day.Num? && day.n == today
    ensures r == Future <==> day.NaN? || day.n > today
  {
    if day.Num? && day.n < today then Past
    else if day.Num? && day.n == today then Today
    else Future
  }

  /** `EventWithStatus`: an event and the status computed for it. */
  datatype EventWithStatus = WithStatus(event: EventWithAttendees, status: Status)

  function DateOf(w: EventWithStatus): string {
    w.event.event.event_date
  }

  /** The `map` step: every event with its status, in the input order. */
  function Tagged(events: seq<EventWithAttendees>, dayOf: string -> JsNumber, today: int): (r: seq<EventWithStatus>)
    ensures |r| == |events|
    ensures forall i :: 0 <= i < |events| ==>
              r[i].event == events[i] && r[i].status == GetEventStatus(dayOf(events[i].event.event_date), today)
  {
    seq(|events|, i requires 0 <= i < |events| =>
      WithStatus(events[i], GetEventStatus(dayOf(events[i].event.event_date), today)))
  }

  /** The comparator's key: the instant of the event's date and time. */
  function InstantKey(instantOf: (string, string) -> int): EventWithStatus -> int {
    (w: EventWithStatus) => instantOf(w.event.event.event_date, w.event.event.time)
  }

  /** `eventsWithStatus`: the tagged events, sorted by instant, a
      permutation of the tagged events. */
  function EventsWithStatus(events: seq<EventWithAttendees>, dayOf: string -> JsNumber, today: int,
                            instantOf: (string, string) -> int): (r: seq<EventWithStatus>)
    ensures |r| == |events|
    ensures Sorted(InstantKey(instantOf), r)
    ensures multiset(r) == multiset(Tagged(events, dayOf, today))
  {
    var tagged := Tagged(events, dayOf, today);
    SortSorted(InstantKey(instantOf), tagged);
    SortPermutation(InstantKey(instantOf), tagged);
    SortBy(InstantKey(instantOf), tagged)
  }

  /** Every sorted entry is one of the events with its own status, and
      every event appears. */
  lemma EventsWithStatusEntries(events: seq<EventWithAttendees>, dayOf: string -> JsNumber, today: int,
                                instantOf: (string, string) -> int)
    ensures var r := EventsWithStatus(events, dayOf, today, instantOf);
            && (forall w :: w in r ==> w.event in events && w.status == GetEventStatus(dayOf(DateOf(w)), today))
            && (forall i :: 0 <= i < |events| ==>
                  WithStatus(events[i], GetEventStatus(dayOf(events[i].event.event_date), today)) in r)
  {
    var r := EventsWithStatus(events, dayOf, today, instantOf);
    var tagged := Tagged(events, dayOf, today);
    forall w | w in r ensures w.event in events && w.status == GetEventStatus(dayOf(DateOf(w)), today) {
      assert w in multiset(tagged);
      var i :| 0 <= i < |tagged| && tagged[i] == w;
    }
    forall i | 0 <= i < |events|
      ensures WithStatus(events[i], GetEventStatus(dayOf(events[i].event.event_date), today)) in r
    {
      assert tagged[i] in multiset(r);
    }
  }

  /** Events at the same instant keep the order they had in `events`. */
  lemma EventsWithStatusStable(events: seq<EventWithAttendees>, dayOf: string -> JsNumber, today: int,
                               instantOf: (string, string) -> int, k: int)
    ensures WithKey(InstantKey(instantOf), k, EventsWithStatus(events, dayOf, today, instantOf))
         == WithKey(InstantKey(instantOf), k, Tagged(events, dayOf, today))
  {
    SortStable(InstantKey(instantOf), k, Tagged(events, dayOf, today));
  }

  // Grouping by day.

  /** One entry of `Object.entries(groups)`. */
  datatype Group = Group(date: string, events: seq<EventWithStatus>)

  /** The days of `xs`, each once, in order of first appearance: the key
      order of the `groups` record. */
  function Dates(xs: seq<EventWithStatus>): seq<string>
    decreases |xs|
  {
    if xs == [] then []
    else
      var init := Dates(xs[..|xs| - 1]);
      if DateOf(xs[|xs| - 1]) in init then init else init + [DateOf(xs[|xs| - 1])]
  }

  /** The events of day `d`, in their order in `xs`. */
  function Bucket(xs: seq<EventWithStatus>, d: string): seq<EventWithStatus>
    decreases |xs|
  {
    if xs == [] then []
    else
      var init := Bucket(xs[..|xs| - 1], d);
      if DateOf(xs[|xs| - 1]) == d then init + [xs[|xs| - 1]] else init
  }

  /** The buckets in key order, before the final sort. */
  function Buckets(xs: seq<EventWithStatus>): (r: seq<Group>)
    ensures |r| == |Dates(xs)|
    ensures forall j :: 0 <= j < |r| ==> r[j].date == Dates(xs)[j] && r[j].events == Bucket(xs, r[j].date)
  {
    var ds := Dates(xs);
    seq(|ds|, j requires 0 <= j < |ds| => Group(ds[j], Bucket(xs, ds[j])))
  }

  /** The final sort's key: the time of `new Date(date)`. */
  function GroupKey(dateKey: string -> int): Group -> int {
    (g: Group) => dateKey(g.date)
  }

  /** `groupedEvents`. */
  function GroupedEvents(xs: seq<EventWithStatus>, dateKey: string -> int): seq<Group> {
    SortBy(GroupKey(dateKey), Buckets(xs))
  }

  /** The key list holds each day of `xs` exactly once. */
  lemma {:induction false} DatesSpec(xs: seq<EventWithStatus>)
    ensures forall d :: d in Dates(xs) <==> exists i :: 0 <= i < |xs| && DateOf(xs[i]) == d
    ensures forall i, j :: 0 <= i < j < |Dates(xs)| ==> Dates(xs)[i] != Dates(xs)[j]
    decreases |xs|
  {
    if xs != [] {
      var init := xs[..|xs| - 1];
      DatesSpec(init);
      forall d ensures d in Dates(xs) <==> exists i :: 0 <= i < |xs| && DateOf(xs[i]) == d {
        if d in Dates(init) {
          var i :| 0 <= i < |init| && DateOf(init[i]) == d;
          assert DateOf(xs[i]) == d;
        }
        if i :| 0 <= i < |xs| && DateOf(xs[i]) == d {
          if i < |init| {
            assert DateOf(init[i]) == d;
          }
        }
      }
    }
  }

  /** Day `a` occurs in `xs` before any event of day `b`. */
  predicate SeenBefore(xs: seq<EventWithStatus>, a: string, b: string) {
    exists p :: 0 <= p < |xs| && DateOf(xs[p]) == a && forall q :: 0 <= q <= p ==> DateOf(xs[q]) != b
  }

  /** The key list is in order of first appearance. */
  lemma {:induction false} DatesFirstSeen(xs: seq<EventWithStatus>)
    ensures forall i, j :: 0 <= i < j < |Dates(xs)| ==> SeenBefore(xs, Dates(xs)[i], Dates(xs)[j])
    decreases |xs|
  {
    if xs != [] {
      var init := xs[..|xs| - 1];
      var ds, di := Dates(xs), Dates(init);
      DatesFirstSeen(init);
      DatesSpec(init);
      forall i, j | 0 <= i < j < |ds| ensures SeenBefore(xs, ds[i], ds[j]) {
        assert ds[i] == di[i];
        if j < |di| {
          assert ds[j] == di[j];
          assert SeenBefore(init, di[i], di[j]);
          var p :| 0 <= p < |init| && DateOf(init[p]) == di[i] &&
                   forall q :: 0 <= q <= p ==> DateOf(init[q]) != di[j];
          assert forall q :: 0 <= q <= p ==> xs[q] == init[q];
        } else {
          assert ds[j] !in di;
          assert di[i] in di;
          var p :| 0 <= p < |init| && DateOf(init[p]) == di[i];
          forall q | 0 <= q <= p ensures DateOf(xs[q]) != ds[j] {
            assert xs[q] == init[q];
          }
          assert DateOf(xs[p]) == ds[i];
        }
      }
    }
  }

  /** A bucket holds exactly the events of its day. */
  lemma {:induction false} BucketSpec(xs: seq<EventWithStatus>, d: string)
    ensures forall w :: w in Bucket(xs, d) <==> w in xs && DateOf(w) == d
    decreases |xs|
  {
    if xs != [] {
      var init := xs[..|xs| - 1];
      assert xs == init + [xs[|xs| - 1]];
      BucketSpec(init, d);
    }
  }

  /** Pushing works piecewise, so a bucket keeps the list order of `xs`. */
  lemma {:induction false} BucketAppend(xs: seq<EventWithStatus>, ys: seq<EventWithStatus>, d: string)
    ensures Bucket(xs + ys, d) == Bucket(xs, d) + Bucket(ys, d)
    decreases |ys|
  {
    if ys == [] {
      assert xs + ys == xs;
    } else {
      var init, last := ys[..|ys| - 1], ys[|ys| - 1];
      var xy := xs + ys;
      assert xy[..|xy| - 1] == xs + init;
      assert xy[|xy| - 1] == last;
      BucketAppend(xs, init, d);
    }
  }

  /** An event of the day is pushed and any other skipped. */
  lemma BucketSingleton(w: EventWithStatus, d: string)
    ensures Bucket([w], d) == if DateOf(w) == d then [w] else []
  {
    assert [w][..0] == [];
  }

  /** A day's bucket of a sorted list is sorted. */
  lemma {:induction false} BucketSorted(key: EventWithStatus -> int, xs: seq<EventWithStatus>, d: string)
    requires Sorted(key, xs)
    ensures Sorted(key, Bucket(xs, d))
    decreases |xs|
  {
    if xs != [] {
      var init, last := xs[..|xs| - 1], xs[|xs| - 1];
      assert forall i, j :: 0 <= i < j < |init| ==> key(init[i]) <= key(init[j]) by {
        assert forall i :: 0 <= i < |init| ==> init[i] == xs[i];
      }
      BucketSorted(key, init, d);
      if DateOf(last) == d {
        var b := Bucket(init, d);
        BucketSpec(init, d);
        forall k | 0 <= k < |b| ensures key(b[k]) <= key(last) {
          assert b[k] in init;
          var m :| 0 <= m < |init| && init[m] == b[k];
          assert xs[m] == b[k];
        }
        var r := b + [last];
        forall i, j | 0 <= i < j < |r| ensures key(r[i]) <= key(r[j]) {
          assert r[i] == b[i];
          if j < |b| {
            assert r[j] == b[j];
          }
        }
      }
    }
  }

  /** The record of the `forEach` loop: after the first `i` events, its keys
      are the days seen so far, in first-seen order, and each holds the
      events of that day seen so far. */
  method GroupByDate(xs: seq<EventWithStatus>, dateKey: string -> int) returns (r: seq<Group>)
    ensures r == GroupedEvents(xs, dateKey)
  {
    var groups: map<string, seq<EventWithStatus>> := map[];
    var order: seq<string> := [];
    var i := 0;
    while i < |xs|
      invariant 0 <= i <= |xs|
      invariant order == Dates(xs[..i])
      invariant forall d :: d in groups <==> d in order
      invariant forall d :: d in groups ==> groups[d] == Bucket(xs[..i], d)
    {
      var date := DateOf(xs[i]);
      assert xs[..i + 1][..i] == xs[..i];
      if date !in groups {
        BucketOfUnseen(xs[..i], date);
        groups := groups[date := []];
        order := order + [date];
      }
      groups := groups[date := groups[date] + [xs[i]]];
      i := i + 1;
    }
    assert xs[..i] == xs;
    var entries := seq(|order|, j requires 0 <= j < |order| => Group(order[j], groups[order[j]]));
    assert entries == Buckets(xs);
    r := SortBy(GroupKey(dateKey), entries);
  }

  lemma {:induction false} BucketOfUnseen(xs: seq<EventWithStatus>, d: string)
    requires d !in Dates(xs)
    ensures Bucket(xs, d) == []
    decreases |xs|
  {
    if xs != [] {
      var init := xs[..|xs| - 1];
      if DateOf(xs[|xs| - 1]) !in Dates(init) {
        assert d != DateOf(xs[|xs| - 1]);
      }
      BucketOfUnseen(init, d);
    }
  }

  /** Each group of the drawer is one of the buckets. */
  lemma GroupIsBucket(xs: seq<EventWithStatus>, dateKey: string -> int, j: nat)
    requires j < |GroupedEvents(xs, dateKey)|
    ensures var g := GroupedEvents(xs, dateKey)[j];
            g.events == Bucket(xs, g.date) && g.events != []
  {
    var bs := Buckets(xs);
    var gs := GroupedEvents(xs, dateKey);
    var ds := Dates(xs);
    SortPermutation(GroupKey(dateKey), bs);
    assert gs[j] in multiset(bs);
    var k :| 0 <= k < |bs| && bs[k] == gs[j];
    DatesSpec(xs);
    assert ds[k] in ds;
    var i :| 0 <= i < |xs| && DateOf(xs[i]) == ds[k];
    BucketSpec(xs, ds[k]);
    assert xs[i] in Bucket(xs, ds[k]);
  }

  /** The group that holds the `i`-th event's day. */
  lemma GroupOf(xs: seq<EventWithStatus>, dateKey: string -> int, i: nat) returns (j: nat)
    requires i < |xs|
    ensures j < |GroupedEvents(xs, dateKey)| && GroupedEvents(xs, dateKey)[j].date == DateOf(xs[i])
  {
    var bs := Buckets(xs);
    var gs := GroupedEvents(xs, dateKey);
    var ds := Dates(xs);
    DatesSpec(xs);
    assert DateOf(xs[i]) in ds;
    var k :| 0 <= k < |ds| && ds[k] == DateOf(xs[i]);
    SortPermutation(GroupKey(dateKey), bs);
    assert bs[k] in multiset(gs);
    j :| 0 <= j < |gs| && gs[j] == bs[k];
  }

  /** What the drawer renders: groups in ascending date order, one per day
      and no two for the same day, each holding exactly that day's events in
      their sorted order, and at least one event per group. */
  lemma GroupedEventsSpec(xs: seq<EventWithStatus>, dateKey: string -> int)
    ensures var gs := GroupedEvents(xs, dateKey);
            && Sorted(GroupKey(dateKey), gs)
            && (forall i, j :: 0 <= i < j < |gs| ==> gs[i].date != gs[j].date)
            && (forall j :: 0 <= j < |gs| ==> gs[j].events == Bucket(xs, gs[j].date) && gs[j].events != [])
            && (forall i :: 0 <= i < |xs| ==> exists j :: 0 <= j < |gs| && gs[j].date == DateOf(xs[i]))
  {
    var bs := Buckets(xs);
    var gs := GroupedEvents(xs, dateKey);
    DatesSpec(xs);
    SortSorted(GroupKey(dateKey), bs);
    var day := (g: Group) => g.date;
    assert forall i, j :: 0 <= i < j < |bs| ==> day(bs[i]) != day(bs[j]);
    SortKeepsDistinct(GroupKey(dateKey), day, bs);
    assert gs == SortBy(GroupKey(dateKey), bs);
    assert forall i, j :: 0 <= i < j < |gs| ==> day(gs[i]) != day(gs[j]);
    forall j | 0 <= j < |gs| ensures gs[j].events == Bucket(xs, gs[j].date) && gs[j].events != [] {
      GroupIsBucket(xs, dateKey, j);
    }
    forall i | 0 <= i < |xs| ensures exists j :: 0 <= j < |gs| && gs[j].date == DateOf(xs[i]) {
      var j := GroupOf(xs, dateKey, i);
    }
  }

  /** An event is in a group exactly when the group is keyed by its day. */
  lemma GroupMembership(xs: seq<EventWithStatus>, dateKey: string -> int, j: nat, w: EventWithStatus)
    requires j < |GroupedEvents(xs, dateKey)|
    ensures var g := GroupedEvents(xs, dateKey)[j];
            w in g.events <==> w in xs && DateOf(w) == g.date
  {
    GroupIsBucket(xs, dateKey, j);
    BucketSpec(xs, GroupedEvents(xs, dateKey)[j].date);
  }

  /** The drawer's whole pipeline. */
  function CalendarGroups(events: seq<EventWithAttendees>, dayOf: string -> JsNumber, today: int,
                          instantOf: (string, string) -> int, dateKey: string -> int): seq<Group> {
    GroupedEvents(EventsWithStatus(events, dayOf, today, instantOf), dateKey)
  }

  /** Within each day's group the events are in ascending order of their
      date and time: the sort comes first and the push keeps its order. */
  lemma GroupSortedByInstant(events: seq<EventWithAttendees>, dayOf: string -> JsNumber, today: int,
                             instantOf: (string, string) -> int, dateKey: string -> int, j: nat)
    requires j < |CalendarGroups(events, dayOf, today, instantOf, dateKey)|
    ensures Sorted(InstantKey(instantOf), CalendarGroups(events, dayOf, today, instantOf, dateKey)[j].events)
  {
    var xs := EventsWithStatus(events, dayOf, today, instantOf);
    GroupIsBucket(xs, dateKey, j);
    BucketSorted(InstantKey(instantOf), xs, GroupedEvents(xs, dateKey)[j].date);
  }

  /** "No hay eventos programados" shows exactly when there are no events. */
  lemma NoGroupsIffNoEvents(events: seq<EventWithAttendees>, dayOf: string -> JsNumber, today: int,
                            instantOf: (string, string) -> int, dateKey: string -> int)
    ensures |CalendarGroups(events, dayOf, today, instantOf, dateKey)| == 0 <==> |events| == 0
  {
    var xs := EventsWithStatus(events, dayOf, today, instantOf);
    if |events| > 0 {
      var j := GroupOf(xs, dateKey, 0);
    }
  }

  /** Each event, with its status, sits in the one group of its day. */
  lemma EventInItsGroup(events: seq<EventWithAttendees>, dayOf: string -> JsNumber, today: int,
                        instantOf: (string, string) -> int, dateKey: string -> int, i: nat)
    requires i < |events|
    ensures var gs := CalendarGroups(events, dayOf, today, instantOf, dateKey);
            var w := WithStatus(events[i], GetEventStatus(dayOf(events[i].event.event_date), today));
            exists j :: 0 <= j < |gs| && gs[j].date == events[i].event.event_date && w in gs[j].events
  {
    var xs := EventsWithStatus(events, dayOf, today, instantOf);
    var gs := CalendarGroups(events, dayOf, today, instantOf, dateKey);
    var w := WithStatus(events[i], GetEventStatus(dayOf(events[i].event.event_date), today));
    EventsWithStatusEntries(events, dayOf, today, instantOf);
    assert w in xs;
    var k :| 0 <= k < |xs| && xs[k] == w;
    var j := GroupOf(xs, dateKey, k);
    GroupMembership(xs, dateKey, j, w);
  }
}
