/** The state transitions of the event planner (app/page.tsx), each a pure
    function from the current projection and the operation's inputs to the
    new projection and the remote writes it issues. */
module Transitions {
  import opened Js
  import opened Types
  import opened Attendance
  import Remote

  /** The in-memory projection: guests and events with their attendance. */
  datatype State = State(guests: seq<Guest>, events: seq<EventWithAttendees>)

  /** The outcome of one operation. */
  datatype Step = Step(state: State, effects: seq<Remote.Effect>)

  /** `attendees[guestId] ?? false`: an absent entry reads as not attending. */
  function Attending(attendees: map<Id, bool>, guestId: Id): (r: bool)
    ensures r <==> guestId in attendees && attendees[guestId]
  {
    if guestId in attendees then attendees[guestId] else false
  }

  /** `events.find(e => e.id === eventId)`, as the index of the first
      event with that id. */
  function FindEvent(events: seq<EventWithAttendees>, eventId: Id): (r: Option<nat>)
    ensures r.None? <==> forall i :: 0 <= i < |events| ==> events[i].id() != eventId
    ensures r.Some? ==> r.value < |events| && events[r.value].id() == eventId
                        && forall j :: 0 <= j < r.value ==> events[j].id() != eventId
    decreases |events|
  {
    if events == [] then None
    else if events[0].id() == eventId then Some(0)
    else match FindEvent(events[1..], eventId)
         case None => None
         case Some(k) => Some(k + 1)
  }

  function SetFlag(events: seq<EventWithAttendees>, eventId: Id, guestId: Id, v: bool): seq<EventWithAttendees> {
    seq(|events|, i requires 0 <= i < |events| =>
      if events[i].id() == eventId then events[i].(attendees := events[i].attendees[guestId := v]) else events[i])
  }

  /** `toggleAttendance`: flips the flag read from the first event with the
      id and writes the flipped value to every event with that id. */
  function ToggleAttendance(s: State, eventId: Id, guestId: Id): (r: Step)
    ensures FindEvent(s.events, eventId).None? ==> r == Step(s, [])
    ensures FindEvent(s.events, eventId).Some? ==>
              var v := !Attending(s.events[FindEvent(s.events, eventId).value].attendees, guestId);
              && r.effects == [Remote.UpdateAttendance(eventId, guestId, v)]
              && r.state.guests == s.guests
              && |r.state.events| == |s.events|
              && forall i :: 0 <= i < |s.events| ==>
                   && r.state.events[i].event == s.events[i].event
                   && (s.events[i].id() == eventId ==> r.state.events[i].attendees == s.events[i].attendees[guestId := v])
                   && (s.events[i].id() != eventId ==> r.state.events[i] == s.events[i])
  {
    match FindEvent(s.events, eventId)
    case None => Step(s, [])
    case Some(k) =>
      var v := !Attending(s.events[k].attendees, guestId);
      Step(s.(events := SetFlag(s.events, eventId, guestId, v)), [Remote.UpdateAttendance(eventId, guestId, v)])
  }

  /** Toggling twice gives back the flag as read with the default `false`
      on the first event with the id; every event with the id ends with that
      value for the guest and its other entries untouched, and every other
      event is as it was. */
  lemma ToggleTwice(s: State, eventId: Id, guestId: Id)
    requires FindEvent(s.events, eventId).Some?
    ensures var s2 := ToggleAttendance(ToggleAttendance(s, eventId, guestId).state, eventId, guestId).state;
            var k := FindEvent(s.events, eventId).value;
            var was := Attending(s.events[k].attendees, guestId);
            && s2.guests == s.guests
            && |s2.events| == |s.events|
            && Attending(s2.events[k].attendees, guestId) == was
            && forall i :: 0 <= i < |s.events| ==>
                 && s2.events[i].event == s.events[i].event
                 && (s.events[i].id() == eventId ==> s2.events[i].attendees == s.events[i].attendees[guestId := was])
                 && (s.events[i].id() != eventId ==> s2.events[i] == s.events[i])
  {
    var k := FindEvent(s.events, eventId).value;
    var was := Attending(s.events[k].attendees, guestId);
    var s1 := ToggleAttendance(s, eventId, guestId).state;
    assert s1 == s.(events := SetFlag(s.events, eventId, guestId, !was));
    FindEventSameIds(s.events, s1.events, eventId);
    assert Attending(s1.events[k].attendees, guestId) == !was;
    var s2 := ToggleAttendance(s1, eventId, guestId).state;
    assert s2 == s1.(events := SetFlag(s1.events, eventId, guestId, was));
    SetFlagTwice(s.events, eventId, guestId, !was, was);
  }

  /** A second write of the flag overrides the first. */
  lemma SetFlagTwice(events: seq<EventWithAttendees>, eventId: Id, guestId: Id, v: bool, w: bool)
    ensures SetFlag(SetFlag(events, eventId, guestId, v), eventId, guestId, w) == SetFlag(events, eventId, guestId, w)
  {
    var a := SetFlag(SetFlag(events, eventId, guestId, v), eventId, guestId, w);
    var b := SetFlag(events, eventId, guestId, w);
    forall i | 0 <= i < |events| ensures a[i] == b[i] {
      if events[i].id() == eventId {
        assert events[i].attendees[guestId := v][guestId := w] == events[i].attendees[guestId := w];
      }
    }
  }

  /** `find` looks only at the ids. */
  lemma FindEventSameIds(a: seq<EventWithAttendees>, b: seq<EventWithAttendees>, eventId: Id)
    requires |a| == |b| && forall i :: 0 <= i < |a| ==> a[i].id() == b[i].id()
    ensures FindEvent(a, eventId) == FindEvent(b, eventId)
  {
  }

  function SetCost(events: seq<EventWithAttendees>, eventId: Id, cost: int): seq<EventWithAttendees> {
    seq(|events|, i requires 0 <= i < |events| =>
      if events[i].id() == eventId then events[i].(event := events[i].event.(total_cost := cost)) else events[i])
  }

  /** `updateEventCost`: only `total_cost` of the events with the id changes. */
  function UpdateEventCost(s: State, eventId: Id, cost: int): (r: Step)
    ensures r.effects == [Remote.UpdateEventCost(eventId, cost)]
    ensures r.state.guests == s.guests
    ensures |r.state.events| == |s.events|
    ensures forall i :: 0 <= i < |s.events| ==>
              && r.state.events[i].attendees == s.events[i].attendees
              && r.state.events[i].event.(total_cost := s.events[i].event.total_cost) == s.events[i].event
              && r.state.events[i].event.total_cost == if s.events[i].id() == eventId then cost else s.events[i].event.total_cost
  {
    Step(s.(events := SetCost(s.events, eventId, cost)), [Remote.UpdateEventCost(eventId, cost)])
  }

  /** The join rows `addGuest` inserts: the new guest, once per event. */
  function RowsForGuest(events: seq<EventWithAttendees>, guestId: Id): (r: seq<Remote.AttendeeInsert>)
    ensures |r| == |events|
    ensures forall i :: 0 <= i < |events| ==> r[i] == Remote.AttendeeInsert(events[i].id(), guestId, false)
  {
    seq(|events|, i requires 0 <= i < |events| => Remote.AttendeeInsert(events[i].id(), guestId, false))
  }

  function AddToEveryEvent(events: seq<EventWithAttendees>, guestId: Id): seq<EventWithAttendees> {
    seq(|events|, i requires 0 <= i < |events| => events[i].(attendees := events[i].attendees[guestId := false]))
  }

  /** `addGuest`, with the awaited insert's answer as `inserted` (`None`
      for an error or an empty answer). */
  function AddGuest(s: State, name: string, inserted: Option<Guest>): (r: Step)
    ensures inserted.None? ==> r == Step(s, [Remote.InsertGuest(name)])
    ensures inserted.Some? ==>
              var g := inserted.value;
              && r.state.guests == s.guests + [g]
              && |r.state.events| == |s.events|
              && (forall i :: 0 <= i < |s.events| ==>
                    r.state.events[i] == s.events[i].(attendees := s.events[i].attendees[g.id := false]))
              && r.effects == [Remote.InsertGuest(name)]
                              + (if s.events == [] then [] else [Remote.InsertAttendees(RowsForGuest(s.events, g.id))])
  {
    match inserted
    case None => Step(s, [Remote.InsertGuest(name)])
    case Some(g) =>
      var inserts := RowsForGuest(s.events, g.id);
      Step(State(s.guests + [g], AddToEveryEvent(s.events, g.id)),
           [Remote.InsertGuest(name)] + (if |inserts| > 0 then [Remote.InsertAttendees(inserts)] else []))
  }

  /** `editGuest`: only `name` of the guests with the id changes. */
  function EditGuest(s: State, guestId: Id, name: string): (r: Step)
    ensures r.effects == [Remote.UpdateGuestName(guestId, name)]
    ensures r.state.events == s.events
    ensures |r.state.guests| == |s.guests|
    ensures forall i :: 0 <= i < |s.guests| ==>
              && r.state.guests[i].id == s.guests[i].id
              && r.state.guests[i].created_at == s.guests[i].created_at
              && r.state.guests[i].name == if s.guests[i].id == guestId then name else s.guests[i].name
    ensures GuestIds(r.state.guests) == GuestIds(s.guests)
  {
    var r := Step(s.(guests := RenameGuest(s.guests, guestId, name)), [Remote.UpdateGuestName(guestId, name)]);
    assert GuestIds(r.state.guests) == GuestIds(s.guests) by {
      forall x | x in GuestIds(s.guests) ensures x in GuestIds(r.state.guests) {
        var i :| 0 <= i < |s.guests| && s.guests[i].id == x;
        assert r.state.guests[i].id == x;
      }
    }
    r
  }

  function DropFromEveryEvent(events: seq<EventWithAttendees>, guestId: Id): seq<EventWithAttendees> {
    seq(|events|, i requires 0 <= i < |events| => events[i].(attendees := events[i].attendees - {guestId}))
  }

  /** `deleteGuest`: the guest leaves the list and every attendance map;
      the join rows are deleted before the guest row. */
  function DeleteGuest(s: State, guestId: Id): (r: Step)
    ensures r.effects == [Remote.DeleteAttendeesByGuest(guestId), Remote.DeleteGuest(guestId)]
    ensures r.state.guests == GuestsWithout(s.guests, guestId)
    ensures GuestIds(r.state.guests) == GuestIds(s.guests) - {guestId}
    ensures forall g :: g in r.state.guests <==> g in s.guests && g.id != guestId
    ensures |r.state.events| == |s.events|
    ensures forall i :: 0 <= i < |s.events| ==>
              && r.state.events[i].event == s.events[i].event
              && r.state.events[i].attendees.Keys == s.events[i].attendees.Keys - {guestId}
              && forall h :: h in r.state.events[i].attendees ==> r.state.events[i].attendees[h] == s.events[i].attendees[h]
  {
    GuestsWithoutSpec(s.guests, guestId);
    Step(State(GuestsWithout(s.guests, guestId), DropFromEveryEvent(s.events, guestId)),
         [Remote.DeleteAttendeesByGuest(guestId), Remote.DeleteGuest(guestId)])
  }

  /** The join rows `addEvent` inserts: the new event, once per guest. */
  function RowsForEvent(guests: seq<Guest>, eventId: Id): (r: seq<Remote.AttendeeInsert>)
    ensures |r| == |guests|
    ensures forall i :: 0 <= i < |guests| ==> r[i] == Remote.AttendeeInsert(eventId, guests[i].id, false)
  {
    seq(|guests|, i requires 0 <= i < |guests| => Remote.AttendeeInsert(eventId, guests[i].id, false))
  }

  /** `addEvent`, with the awaited insert's answer as `inserted`. */
  function AddEvent(s: State, fields: NewEvent, inserted: Option<Event>): (r: Step)
    ensures inserted.None? ==> r == Step(s, [Remote.InsertEvent(fields)])
    ensures inserted.Some? ==>
              var e := inserted.value;
              && r.state.guests == s.guests
              && |r.state.events| == |s.events| + 1
              && r.state.events == s.events + [WithAttendees(e, r.state.events[|s.events|].attendees)]
              && r.state.events[|s.events|].attendees.Keys == GuestIds(s.guests)
              && (forall h :: h in r.state.events[|s.events|].attendees ==> !r.state.events[|s.events|].attendees[h])
              && r.effects == [Remote.InsertEvent(fields)]
                              + (if s.guests == [] then [] else [Remote.InsertAttendees(RowsForEvent(s.guests, e.id))])
  {
    match inserted
    case None => Step(s, [Remote.InsertEvent(fields)])
    case Some(e) =>
      var inserts := RowsForEvent(s.guests, e.id);
      Step(s.(events := s.events + [WithAttendees(e, NotAttendingMap(s.guests))]),
           [Remote.InsertEvent(fields)] + (if |inserts| > 0 then [Remote.InsertAttendees(inserts)] else []))
  }

  /** `prev.filter(e => e.id !== eventId)`. */
  function EventsWithout(events: seq<EventWithAttendees>, eventId: Id): (r: seq<EventWithAttendees>)
    ensures |r| <= |events|
    decreases |events|
  {
    if events == [] then []
    else
      var init := EventsWithout(events[..|events| - 1], eventId);
      if events[|events| - 1].id() == eventId then init else init + [events[|events| - 1]]
  }

  /** The filter keeps exactly the events with another id; their order is
      stated by EventsWithoutAppend and EventsWithoutSingleton. */
  lemma {:induction false} EventsWithoutSpec(events: seq<EventWithAttendees>, eventId: Id)
    ensures forall e :: e in EventsWithout(events, eventId) <==> e in events && e.id() != eventId
    ensures EventIds(EventsWithout(events, eventId)) == EventIds(events) - {eventId}
    decreases |events|
  {
    if events != [] {
      var init := events[..|events| - 1];
      assert events == init + [events[|events| - 1]];
      EventsWithoutSpec(init, eventId);
    }
  }

  /** The filter works piecewise, so the kept events stay in their order. */
  lemma {:induction false} EventsWithoutAppend(a: seq<EventWithAttendees>, b: seq<EventWithAttendees>, eventId: Id)
    ensures EventsWithout(a + b, eventId) == EventsWithout(a, eventId) + EventsWithout(b, eventId)
    decreases |b|
  {
    if b == [] {
      assert a + b == a;
    } else {
      var init, last := b[..|b| - 1], b[|b| - 1];
      var ab := a + b;
      assert ab[..|ab| - 1] == a + init;
      assert ab[|ab| - 1] == last;
      EventsWithoutAppend(a, init, eventId);
    }
  }

  /** An event with the id is dropped and any other kept. */
  lemma EventsWithoutSingleton(e: EventWithAttendees, eventId: Id)
    ensures EventsWithout([e], eventId) == if e.id() == eventId then [] else [e]
  {
    assert [e][..0] == [];
  }

  /** `deleteEvent`: the events with the id leave the list, the others stay
      in order; the join rows are deleted before the event row. */
  function DeleteEvent(s: State, eventId: Id): (r: Step)
    ensures r.effects == [Remote.DeleteAttendeesByEvent(eventId), Remote.DeleteEvent(eventId)]
    ensures r.state.guests == s.guests
    ensures r.state.events == EventsWithout(s.events, eventId)
    ensures forall e :: e in r.state.events <==> e in s.events && e.id() != eventId
    ensures EventIds(r.state.events) == EventIds(s.events) - {eventId}
  {
    EventsWithoutSpec(s.events, eventId);
    Step(s.(events := EventsWithout(s.events, eventId)),
         [Remote.DeleteAttendeesByEvent(eventId), Remote.DeleteEvent(eventId)])
  }

  /** One user operation on the planner, with the store's answer for the
      two awaited inserts. */
  datatype Op =
    | Toggle(eventId: Id, guestId: Id)
    | SetEventCost(eventId: Id, cost: int)
    | NewGuest(name: string, insertedGuest: Option<Guest>)
    | Rename(guestId: Id, newName: string)
    | RemoveGuest(guestId: Id)
    | NewEventOp(fields: NewEvent, insertedEvent: Option<Event>)
    | RemoveEvent(eventId: Id)

  function Apply(s: State, op: Op): Step {
    match op
    case Toggle(e, g) => ToggleAttendance(s, e, g)
    case SetEventCost(e, c) => UpdateEventCost(s, e, c)
    case NewGuest(n, a) => AddGuest(s, n, a)
    case Rename(g, n) => EditGuest(s, g, n)
    case RemoveGuest(g) => DeleteGuest(s, g)
    case NewEventOp(f, a) => AddEvent(s, f, a)
    case RemoveEvent(e) => DeleteEvent(s, e)
  }

  /** What the view and the store guarantee about an operation: attendance
      is toggled only for a listed guest, and inserted rows get fresh ids. */
  predicate Admissible(s: State, op: Op) {
    match op
    case Toggle(_, g) => g in GuestIds(s.guests)
    case NewGuest(_, a) => a.Some? ==> a.value.id !in GuestIds(s.guests)
    case NewEventOp(_, a) => a.Some? ==> a.value.id !in EventIds(s.events)
    case _ => true
  }

  /** Every event's attendance map has exactly one entry per listed guest. */
  predicate FullMatrix(s: State) {
    forall i :: 0 <= i < |s.events| ==> s.events[i].attendees.Keys == GuestIds(s.guests)
  }

  /** No two guests and no two events share an id. */
  predicate UniqueIds(s: State) {
    && (forall i, j :: 0 <= i < j < |s.guests| ==> s.guests[i].id != s.guests[j].id)
    && (forall i, j :: 0 <= i < j < |s.events| ==> s.events[i].id() != s.events[j].id())
  }

  /** Every admissible operation keeps the attendance matrix full. */
  lemma ApplyKeepsFullMatrix(s: State, op: Op)
    requires FullMatrix(s) && Admissible(s, op)
    ensures FullMatrix(Apply(s, op).state)
  {
    var r := Apply(s, op).state;
    match op
    case Toggle(e, g) =>
    case SetEventCost(e, c) =>
    case NewGuest(n, a) =>
      if a.Some? {
        assert GuestIds(r.guests) == GuestIds(s.guests) + {a.value.id};
      }
    case Rename(g, n) =>
    case RemoveGuest(g) =>
    case NewEventOp(f, a) =>
    case RemoveEvent(e) =>
      forall i | 0 <= i < |r.events| ensures r.events[i].attendees.Keys == GuestIds(r.guests) {
        assert r.events[i] in s.events;
      }
  }

  lemma {:induction false} EventsWithoutUnique(events: seq<EventWithAttendees>, eventId: Id)
    requires forall i, j :: 0 <= i < j < |events| ==> events[i].id() != events[j].id()
    ensures var r := EventsWithout(events, eventId);
            forall i, j :: 0 <= i < j < |r| ==> r[i].id() != r[j].id()
    decreases |events|
  {
    if events != [] {
      var init := events[..|events| - 1];
      EventsWithoutUnique(init, eventId);
      EventsWithoutSpec(init, eventId);
      var last := events[|events| - 1];
      assert last.id() !in EventIds(init);
    }
  }

  lemma {:induction false} GuestsWithoutUnique(guests: seq<Guest>, guestId: Id)
    requires forall i, j :: 0 <= i < j < |guests| ==> guests[i].id != guests[j].id
    ensures var r := GuestsWithout(guests, guestId);
            forall i, j :: 0 <= i < j < |r| ==> r[i].id != r[j].id
    decreases |guests|
  {
    if guests != [] {
      var init := guests[..|guests| - 1];
      GuestsWithoutUnique(init, guestId);
      GuestsWithoutSpec(init, guestId);
      var last := guests[|guests| - 1];
      assert last.id !in GuestIds(init);
    }
  }

  /** Every admissible operation keeps ids unique. */
  lemma ApplyKeepsUniqueIds(s: State, op: Op)
    requires UniqueIds(s) && Admissible(s, op)
    ensures UniqueIds(Apply(s, op).state)
  {
    match op
    case Toggle(e, g) =>
    case SetEventCost(e, c) =>
    case NewGuest(n, a) =>
    case Rename(g, n) =>
    case RemoveGuest(g) =>
      DeleteGuestKeepsUniqueIds(s, g);
    case NewEventOp(f, a) =>
    case RemoveEvent(e) =>
      DeleteEventKeepsUniqueIds(s, e);
  }

  lemma DeleteGuestKeepsUniqueIds(s: State, guestId: Id)
    requires UniqueIds(s)
    ensures UniqueIds(DeleteGuest(s, guestId).state)
  {
    var r := DeleteGuest(s, guestId).state;
    GuestsWithoutUnique(s.guests, guestId);
    assert r.guests == GuestsWithout(s.guests, guestId);
    assert forall i :: 0 <= i < |r.events| ==> r.events[i].id() == s.events[i].id();
  }

  lemma DeleteEventKeepsUniqueIds(s: State, eventId: Id)
    requires UniqueIds(s)
    ensures UniqueIds(DeleteEvent(s, eventId).state)
  {
    EventsWithoutUnique(s.events, eventId);
    assert DeleteEvent(s, eventId).state.events == EventsWithout(s.events, eventId);
  }

  /** The states reachable from the empty projection by admissible operations. */
  function Run(s: State, ops: seq<Op>): State
    decreases |ops|
  {
    if ops == [] then s else Run(Apply(s, ops[0]).state, ops[1..])
  }

  predicate AllAdmissible(s: State, ops: seq<Op>)
    decreases |ops|
  {
    ops == [] || (Admissible(s, ops[0]) && AllAdmissible(Apply(s, ops[0]).state, ops[1..]))
  }

  /** From the empty projection, any run of admissible operations keeps one
      attendance entry per (event, guest) pair and unique ids. */
  lemma {:induction false} RunKeepsInvariants(s: State, ops: seq<Op>)
    requires FullMatrix(s) && UniqueIds(s) && AllAdmissible(s, ops)
    ensures FullMatrix(Run(s, ops)) && UniqueIds(Run(s, ops))
    decreases |ops|
  {
    if ops != [] {
      ApplyKeepsFullMatrix(s, ops[0]);
      ApplyKeepsUniqueIds(s, ops[0]);
      RunKeepsInvariants(Apply(s, ops[0]).state, ops[1..]);
    }
  }
}
