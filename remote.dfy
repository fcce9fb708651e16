/** The remote writes app/page.tsx issues against the hosted store, as
    descriptions, and a reference reading of what the store does with each of
    them (the store itself is an external service). */
module Remote {
  import opened Js
  import opened Types

  /** A join-table row as the client sends it; the store adds the row id. */
  datatype AttendeeInsert = AttendeeInsert(event_id: Id, guest_id: Id, is_attending: bool)

  /** One request to the store, in the order the client issues them. */
  datatype Effect =
    | UpdateAttendance(eventId: Id, guestId: Id, isAttending: bool)  // update event_attendees where event_id and guest_id match
    | UpdateEventCost(eventId: Id, cost: int)                         // update events set total_cost where id matches
    | InsertGuest(name: string)                                       // insert into guests, awaited for the new row
    | InsertAttendees(rows: seq<AttendeeInsert>)                      // bulk insert into event_attendees
    | UpdateGuestName(guestId: Id, newName: string)                   // update guests set name where id matches
    | DeleteAttendeesByGuest(guestId: Id)                             // delete from event_attendees where guest_id matches
    | DeleteGuest(guestId: Id)                                        // delete from guests where id matches
    | InsertEvent(fields: NewEvent)                                   // insert into events, awaited for the new row
    | DeleteAttendeesByEvent(eventId: Id)                             // delete from event_attendees where event_id matches
    | DeleteEvent(eventId: Id)                                        // delete from events where id matches

  /** The three tables, each listed in creation order. */
  datatype Store = Store(guests: seq<Guest>, events: seq<Event>, attendees: seq<EventAttendee>)

  /** What the store generates while serving one operation: the row an
      awaited insert returns, and the ids of bulk-inserted join rows. */
  datatype Generated = Generated(guest: Option<Guest>, event: Option<Event>, rowIds: seq<Id>)

  /** The join rows the store keeps for a bulk insert. */
  function Persist(ins: seq<AttendeeInsert>, ids: seq<Id>): (r: seq<EventAttendee>)
    ensures |r| == |ins|
    ensures forall i :: 0 <= i < |ins| ==>
              r[i].event_id == ins[i].event_id && r[i].guest_id == ins[i].guest_id
              && r[i].is_attending == ins[i].is_attending
  {
    seq(|ins|, i requires 0 <= i < |ins| =>
      EventAttendee(if i < |ids| then ids[i] else "", ins[i].event_id, ins[i].guest_id, ins[i].is_attending))
  }

  function SetAttendance(rows: seq<EventAttendee>, eventId: Id, guestId: Id, v: bool): (r: seq<EventAttendee>)
    ensures |r| == |rows|
    ensures forall i :: 0 <= i < |rows| ==>
              r[i] == if rows[i].event_id == eventId && rows[i].guest_id == guestId
                      then rows[i].(is_attending := v) else rows[i]
  {
    seq(|rows|, i requires 0 <= i < |rows| =>
      if rows[i].event_id == eventId && rows[i].guest_id == guestId then rows[i].(is_attending := v) else rows[i])
  }

  function RowsWithoutGuest(rows: seq<EventAttendee>, guestId: Id): seq<EventAttendee>
    decreases |rows|
  {
    if rows == [] then []
    else
      var init := RowsWithoutGuest(rows[..|rows| - 1], guestId);
      if rows[|rows| - 1].guest_id == guestId then init else init + [rows[|rows| - 1]]
  }

  function RowsWithoutEvent(rows: seq<EventAttendee>, eventId: Id): seq<EventAttendee>
    decreases |rows|
  {
    if rows == [] then []
    else
      var init := RowsWithoutEvent(rows[..|rows| - 1], eventId);
      if rows[|rows| - 1].event_id == eventId then init else init + [rows[|rows| - 1]]
  }

  /** The store-side counterpart of Transitions.EventsWithout, on the raw
      `events` rows: the delete request removes the rows with the id. Sync
      relates the two. */
  function EventsWithout(events: seq<Event>, eventId: Id): seq<Event>
    decreases |events|
  {
    if events == [] then []
    else
      var init := EventsWithout(events[..|events| - 1], eventId);
      if events[|events| - 1].id == eventId then init else init + [events[|events| - 1]]
  }

  /** The store-side counterpart of Transitions.SetCost, on the raw
      `events` rows; Sync relates the two. */
  function SetEventCost(events: seq<Event>, eventId: Id, cost: int): seq<Event> {
    seq(|events|, i requires 0 <= i < |events| =>
      if events[i].id == eventId then events[i].(total_cost := cost) else events[i])
  }

  /** The effect of one request on the tables. An awaited insert adds the row
      the store answered with, and nothing when it answered with an error. */
  function Perform(st: Store, e: Effect, gen: Generated): Store {
    match e
    case UpdateAttendance(eventId, guestId, v) =>
      st.(attendees := SetAttendance(st.attendees, eventId, guestId, v))
    case UpdateEventCost(eventId, cost) =>
      st.(events := SetEventCost(st.events, eventId, cost))
    case InsertGuest(_) =>
      if gen.guest.Some? then st.(guests := st.guests + [gen.guest.value]) else st
    case InsertAttendees(rows) =>
      st.(attendees := st.attendees + Persist(rows, gen.rowIds))
    case UpdateGuestName(guestId, name) =>
      st.(guests := RenameGuest(st.guests, guestId, name))
    case DeleteAttendeesByGuest(guestId) =>
      st.(attendees := RowsWithoutGuest(st.attendees, guestId))
    case DeleteGuest(guestId) =>
      st.(guests := GuestsWithout(st.guests, guestId))
    case InsertEvent(_) =>
      if gen.event.Some? then st.(events := st.events + [gen.event.value]) else st
    case DeleteAttendeesByEvent(eventId) =>
      st.(attendees := RowsWithoutEvent(st.attendees, eventId))
    case DeleteEvent(eventId) =>
      st.(events := EventsWithout(st.events, eventId))
  }

  /** The requests of one operation, performed in order. */
  function PerformAll(st: Store, effects: seq<Effect>, gen: Generated): Store
    decreases |effects|
  {
    if effects == [] then st else PerformAll(Perform(st, effects[0], gen), effects[1..], gen)
  }
}
