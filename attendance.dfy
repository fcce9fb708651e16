/** The attendance denormaliser of app/page.tsx: the flat rows of the
    `event_attendees` table are folded into one map per event, from guest id
    to attendance flag. */
module Attendance {
  import opened Types

  /** The rows that belong to one event, in table order
      (`attendees.filter(a => a.event_id === eventId)`). */
  function RowsOf(rows: seq<EventAttendee>, eventId: Id): seq<EventAttendee>
    decreases |rows|
  {
    if rows == [] then []
    else
      var init := RowsOf(rows[..|rows| - 1], eventId);
      if rows[|rows| - 1].event_id == eventId then init + [rows[|rows| - 1]] else init
  }

  /** The map that `forEach(a => m[a.guest_id] = a.is_attending)` leaves
      behind when started from `{}`: a later row overwrites an earlier one. */
  function MapOf(rows: seq<EventAttendee>): map<Id, bool>
    decreases |rows|
  {
    if rows == [] then map[]
    else
      var last := rows[|rows| - 1];
      MapOf(rows[..|rows| - 1])[last.guest_id := last.is_attending]
  }

  /** The attendance map of the event with id `eventId`. */
  function AttendeesOf(rows: seq<EventAttendee>, eventId: Id): map<Id, bool> {
    MapOf(RowsOf(rows, eventId))
  }

  /** The rebuilt view model: every event with its attendance map. */
  function Denormalized(events: seq<Event>, rows: seq<EventAttendee>): (r: seq<EventWithAttendees>)
    ensures |r| == |events|
    ensures forall i :: 0 <= i < |events| ==> r[i] == WithAttendees(events[i], AttendeesOf(rows, events[i].id))
  {
    seq(|events|, i requires 0 <= i < |events| => WithAttendees(events[i], AttendeesOf(rows, events[i].id)))
  }

  predicate Matches(a: EventAttendee, eventId: Id, guestId: Id) {
    a.event_id == eventId && a.guest_id == guestId
  }

  /** Peeling the last row off the table. */
  lemma AttendeesOfSnoc(rows: seq<EventAttendee>, a: EventAttendee, eventId: Id)
    ensures AttendeesOf(rows + [a], eventId)
         == if a.event_id == eventId then AttendeesOf(rows, eventId)[a.guest_id := a.is_attending]
            else AttendeesOf(rows, eventId)
  {
    assert (rows + [a])[..|rows + [a]| - 1] == rows;
    var init := RowsOf(rows, eventId);
    if a.event_id == eventId {
      assert (init + [a])[..|init + [a]| - 1] == init;
    }
  }

  /** The keys of an event's map are exactly the guest ids of the rows for
      that event, and each value is the flag of the LAST such row. */
  lemma {:induction false} AttendeesOfSpec(rows: seq<EventAttendee>, eventId: Id, guestId: Id)
    ensures guestId in AttendeesOf(rows, eventId)
        <==> exists i :: 0 <= i < |rows| && Matches(rows[i], eventId, guestId)
    ensures guestId in AttendeesOf(rows, eventId) ==>
              exists i :: 0 <= i < |rows| && Matches(rows[i], eventId, guestId)
                          && AttendeesOf(rows, eventId)[guestId] == rows[i].is_attending
                          && forall j :: i < j < |rows| ==> !Matches(rows[j], eventId, guestId)
    decreases |rows|
  {
    if rows != [] {
      var init, a := rows[..|rows| - 1], rows[|rows| - 1];
      assert rows == init + [a];
      AttendeesOfSnoc(init, a, eventId);
      AttendeesOfSpec(init, eventId, guestId);
      if Matches(a, eventId, guestId) {
        assert Matches(rows[|rows| - 1], eventId, guestId);
      } else {
        if guestId in AttendeesOf(rows, eventId) {
          var i :| 0 <= i < |init| && Matches(init[i], eventId, guestId)
                   && AttendeesOf(init, eventId)[guestId] == init[i].is_attending
                   && forall j :: i < j < |init| ==> !Matches(init[j], eventId, guestId);
          assert rows[i] == init[i];
          assert forall j :: i < j < |rows| ==> !Matches(rows[j], eventId, guestId) by {
            forall j | i < j < |rows| ensures !Matches(rows[j], eventId, guestId) {
              if j < |init| { assert rows[j] == init[j]; }
            }
          }
        }
        if exists i :: 0 <= i < |rows| && Matches(rows[i], eventId, guestId) {
          var i :| 0 <= i < |rows| && Matches(rows[i], eventId, guestId);
          assert i < |init| && init[i] == rows[i];
        }
      }
    }
  }

  /** Appending rows to the table overrides the earlier entries with those of
      the new rows (Dafny's `+` on maps lets the right operand win). */
  lemma {:induction false} AttendeesOfAppend(rows: seq<EventAttendee>, more: seq<EventAttendee>, eventId: Id)
    ensures AttendeesOf(rows + more, eventId) == AttendeesOf(rows, eventId) + AttendeesOf(more, eventId)
    decreases |more|
  {
    if more == [] {
      assert rows + more == rows;
    } else {
      var init, a := more[..|more| - 1], more[|more| - 1];
      assert more == init + [a];
      assert rows + more == (rows + init) + [a];
      AttendeesOfAppend(rows, init, eventId);
      AttendeesOfSnoc(rows + init, a, eventId);
      AttendeesOfSnoc(init, a, eventId);
      if a.event_id == eventId {
        UnionUpdate(AttendeesOf(rows, eventId), AttendeesOf(init, eventId), a.guest_id, a.is_attending);
      }
    }
  }

  lemma UnionUpdate(m: map<Id, bool>, n: map<Id, bool>, k: Id, v: bool)
    ensures (m + n)[k := v] == m + n[k := v]
  {
  }

  /** The map of an event depends only on the event's id, so two events that
      share an id also share their map. */
  lemma DenormalizedSameId(events: seq<Event>, rows: seq<EventAttendee>, i: nat, j: nat)
    requires i < |events| && j < |events| && events[i].id == events[j].id
    ensures Denormalized(events, rows)[i].attendees == Denormalized(events, rows)[j].attendees
  {
  }

  /** The fold of `fetchData` as a loop: it builds the map of one event. */
  method BuildAttendeesMap(rows: seq<EventAttendee>, eventId: Id) returns (m: map<Id, bool>)
    ensures m == AttendeesOf(rows, eventId)
  {
    var matching := RowsOf(rows, eventId);
    m := map[];
    var i := 0;
    while i < |matching|
      invariant 0 <= i <= |matching|
      invariant m == MapOf(matching[..i])
    {
      assert matching[..i + 1][..i] == matching[..i];
      m := m[matching[i].guest_id := matching[i].is_attending];
      i := i + 1;
    }
    assert matching[..|matching|] == matching;
  }

  /** `eventsRes.data.map(...)`: every event with its attendance map, in the
      order the store returned the events. */
  method Denormalize(events: seq<Event>, rows: seq<EventAttendee>) returns (r: seq<EventWithAttendees>)
    ensures r == Denormalized(events, rows)
  {
    r := [];
    var i := 0;
    while i < |events|
      invariant 0 <= i <= |events|
      invariant |r| == i
      invariant forall k :: 0 <= k < i ==> r[k] == WithAttendees(events[k], AttendeesOf(rows, events[k].id))
    {
      var m := BuildAttendeesMap(rows, events[i].id);
      r := r + [WithAttendees(events[i], m)];
      i := i + 1;
    }
  }

  /** The map `addEvent` gives a new event: every current guest, not attending. */
  function NotAttendingMap(guests: seq<Guest>): (m: map<Id, bool>)
    ensures m.Keys == GuestIds(guests)
    ensures forall k :: k in m ==> !m[k]
  {
    map k | k in GuestIds(guests) :: false
  }

  /** The `guests.forEach(g => m[g.id] = false)` loop of `addEvent`. */
  method BuildNotAttendingMap(guests: seq<Guest>) returns (m: map<Id, bool>)
    ensures m == NotAttendingMap(guests)
  {
    m := map[];
    var i := 0;
    while i < |guests|
      invariant 0 <= i <= |guests|
      invariant m == NotAttendingMap(guests[..i])
    {
      assert guests[..i + 1] == guests[..i] + [guests[i]];
      assert GuestIds(guests[..i + 1]) == GuestIds(guests[..i]) + {guests[i].id};
      m := m[guests[i].id := false];
      i := i + 1;
    }
    assert guests[..|guests|] == guests;
  }
}
