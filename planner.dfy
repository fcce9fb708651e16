/** The `EventPlanner` page component of app/page.tsx: the state it keeps
    (`guests`, `events`, `isLoading`) and its handlers, each an atomic step
    on the current state that returns the remote writes it issues. */
module Planner {
  import opened Js
  import opened Types
  import opened Attendance
  import Remote
  import T = Transitions

  class EventPlanner {
    var guests: seq<Guest>
    var events: seq<EventWithAttendees>
    var isLoading: bool

    /** The projection the handlers work on. */
    function Current(): T.State
      reads this
    {
      T.State(guests, events)
    }

    /** The initial render: nothing loaded yet and the loading screen on. */
    constructor ()
      ensures guests == [] && events == [] && isLoading
    {
      guests := [];
      events := [];
      isLoading := true;
    }

    /** `fetchData`, with the three answers of the store (`None` when a
        fetch returned no data). Guests are replaced when their fetch
        answered; events only when both the event and the attendance fetch
        answered, and then by the denormalised view. */
    method FetchData(guestsRes: Option<seq<Guest>>, eventsRes: Option<seq<Event>>, attendeesRes: Option<seq<EventAttendee>>)
      modifies this
      ensures guests == if guestsRes.Some? then guestsRes.value else old(guests)
      ensures events == if eventsRes.Some? && attendeesRes.Some?
                        then Denormalized(eventsRes.value, attendeesRes.value) else old(events)
      ensures !isLoading
    {
      isLoading := true;
      if guestsRes.Some? {
        guests := guestsRes.value;
      }
      if eventsRes.Some? && attendeesRes.Some? {
        var withAttendees := Denormalize(eventsRes.value, attendeesRes.value);
        events := withAttendees;
      }
      isLoading := false;
    }

    method ToggleAttendance(eventId: Id, guestId: Id) returns (effects: seq<Remote.Effect>)
      modifies this
      ensures Current() == T.ToggleAttendance(old(Current()), eventId, guestId).state
      ensures effects == T.ToggleAttendance(old(Current()), eventId, guestId).effects
      ensures isLoading == old(isLoading)
    {
      var found := T.FindEvent(events, eventId);
      if found.None? {
        return [];
      }
      var newStatus := !T.Attending(events[found.value].attendees, guestId);
      events := T.SetFlag(events, eventId, guestId, newStatus);
      effects := [Remote.UpdateAttendance(eventId, guestId, newStatus)];
    }

    method UpdateEventCost(eventId: Id, cost: int) returns (effects: seq<Remote.Effect>)
      modifies this
      ensures Current() == T.UpdateEventCost(old(Current()), eventId, cost).state
      ensures effects == T.UpdateEventCost(old(Current()), eventId, cost).effects
      ensures isLoading == old(isLoading)
    {
      events := T.SetCost(events, eventId, cost);
      effects := [Remote.UpdateEventCost(eventId, cost)];
    }

    /** `addGuest`; `inserted` is the awaited insert's answer. */
    method AddGuest(name: string, inserted: Option<Guest>) returns (effects: seq<Remote.Effect>)
      modifies this
      ensures Current() == T.AddGuest(old(Current()), name, inserted).state
      ensures effects == T.AddGuest(old(Current()), name, inserted).effects
      ensures isLoading == old(isLoading)
    {
      effects := [Remote.InsertGuest(name)];
      if inserted.None? {
        return;
      }
      var newGuest := inserted.value;
      guests := guests + [newGuest];
      var inserts := T.RowsForGuest(events, newGuest.id);
      if |inserts| > 0 {
        effects := effects + [Remote.InsertAttendees(inserts)];
      }
      events := T.AddToEveryEvent(events, newGuest.id);
    }

    method EditGuest(guestId: Id, name: string) returns (effects: seq<Remote.Effect>)
      modifies this
      ensures Current() == T.EditGuest(old(Current()), guestId, name).state
      ensures effects == T.EditGuest(old(Current()), guestId, name).effects
      ensures isLoading == old(isLoading)
    {
      guests := RenameGuest(guests, guestId, name);
      effects := [Remote.UpdateGuestName(guestId, name)];
    }

    method DeleteGuest(guestId: Id) returns (effects: seq<Remote.Effect>)
      modifies this
      ensures Current() == T.DeleteGuest(old(Current()), guestId).state
      ensures effects == T.DeleteGuest(old(Current()), guestId).effects
      ensures isLoading == old(isLoading)
    {
      guests := GuestsWithout(guests, guestId);
      events := T.DropFromEveryEvent(events, guestId);
      effects := [Remote.DeleteAttendeesByGuest(guestId), Remote.DeleteGuest(guestId)];
    }

    /** `addEvent`; `inserted` is the awaited insert's answer. The new
        event's map is built by the `forEach` loop over the guests. */
    method AddEvent(fields: NewEvent, inserted: Option<Event>) returns (effects: seq<Remote.Effect>)
      modifies this
      ensures Current() == T.AddEvent(old(Current()), fields, inserted).state
      ensures effects == T.AddEvent(old(Current()), fields, inserted).effects
      ensures isLoading == old(isLoading)
    {
      effects := [Remote.InsertEvent(fields)];
      if inserted.None? {
        return;
      }
      var newEvent := inserted.value;
      var inserts := T.RowsForEvent(guests, newEvent.id);
      if |inserts| > 0 {
        effects := effects + [Remote.InsertAttendees(inserts)];
      }
      var attendeesMap := BuildNotAttendingMap(guests);
      events := events + [WithAttendees(newEvent, attendeesMap)];
    }

    method DeleteEvent(eventId: Id) returns (effects: seq<Remote.Effect>)
      modifies this
      ensures Current() == T.DeleteEvent(old(Current()), eventId).state
      ensures effects == T.DeleteEvent(old(Current()), eventId).effects
      ensures isLoading == old(isLoading)
    {
      events := T.EventsWithout(events, eventId);
      effects := [Remote.DeleteAttendeesByEvent(eventId), Remote.DeleteEvent(eventId)];
    }
  }
}
