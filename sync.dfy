/** The optimistic updates of app/page.tsx agree with a reload: performing an
    operation's remote writes on the store and denormalising the store again
    gives the projection the operation computed locally. */
module Sync {
  import opened Js
  import opened Types
  import opened Attendance
  import opened Remote
  import T = Transitions

  /** What `fetchData` builds from the store when all three fetches answer. */
  function Load(st: Store): T.State {
    T.State(st.guests, Denormalized(st.events, st.attendees))
  }

  lemma PerformOne(st: Store, a: Effect, gen: Generated)
    ensures PerformAll(st, [a], gen) == Perform(st, a, gen)
  {
    assert [a][1..] == [];
  }

  lemma PerformTwo(st: Store, a: Effect, b: Effect, gen: Generated)
    ensures PerformAll(st, [a, b], gen) == Perform(Perform(st, a, gen), b, gen)
  {
    assert [a, b][1..] == [b];
    PerformOne(Perform(st, a, gen), b, gen);
  }

  // How each write changes one event's attendance map.

  lemma SetAttendanceSnoc(init: seq<EventAttendee>, a: EventAttendee, eventId: Id, guestId: Id, v: bool)
    ensures SetAttendance(init + [a], eventId, guestId, v)
         == SetAttendance(init, eventId, guestId, v)
            + [if a.event_id == eventId && a.guest_id == guestId then a.(is_attending := v) else a]
  {
  }

  /** The map of the updated event: the flag changes when the guest has a row. */
  lemma {:induction false} SetAttendanceSame(rows: seq<EventAttendee>, eventId: Id, guestId: Id, v: bool)
    ensures AttendeesOf(SetAttendance(rows, eventId, guestId, v), eventId)
         == if guestId in AttendeesOf(rows, eventId) then AttendeesOf(rows, eventId)[guestId := v]
            else AttendeesOf(rows, eventId)
    decreases |rows|
  {
    if rows != [] {
      var init, a := rows[..|rows| - 1], rows[|rows| - 1];
      assert rows == init + [a];
      var hit := a.event_id == eventId && a.guest_id == guestId;
      var a' := if hit then a.(is_attending := v) else a;
      var setInit := SetAttendance(init, eventId, guestId, v);
      SetAttendanceSnoc(init, a, eventId, guestId, v);
      SetAttendanceSame(init, eventId, guestId, v);
      AttendeesOfSnoc(init, a, eventId);
      AttendeesOfSnoc(setInit, a', eventId);
      var before := AttendeesOf(init, eventId);
      var after := AttendeesOf(setInit, eventId);
      if hit {
        SetAttendanceHit(before, after, guestId, a.is_attending, v);
      } else if a.event_id == eventId {
        SetAttendanceMiss(before, after, a.guest_id, a.is_attending, guestId, v);
      }
    }
  }

  lemma SetAttendanceHit(before: map<Id, bool>, after: map<Id, bool>, guestId: Id, old_v: bool, v: bool)
    requires after == if guestId in before then before[guestId := v] else before
    ensures after[guestId := v] == before[guestId := old_v][guestId := v]
  {
  }

  lemma SetAttendanceMiss(before: map<Id, bool>, after: map<Id, bool>, k: Id, w: bool, guestId: Id, v: bool)
    requires k != guestId
    requires after == if guestId in before then before[guestId := v] else before
    ensures after[k := w] == if guestId in before[k := w] then before[k := w][guestId := v] else before[k := w]
  {
    if guestId in before {
      UpdatesCommute(before, k, w, guestId, v);
    }
  }

  lemma {:induction false} SetAttendanceOther(rows: seq<EventAttendee>, eventId: Id, guestId: Id, v: bool, id: Id)
    requires id != eventId
    ensures AttendeesOf(SetAttendance(rows, eventId, guestId, v), id) == AttendeesOf(rows, id)
    decreases |rows|
  {
    if rows != [] {
      var init, a := rows[..|rows| - 1], rows[|rows| - 1];
      assert rows == init + [a];
      var a' := if a.event_id == eventId && a.guest_id == guestId then a.(is_attending := v) else a;
      var setInit := SetAttendance(init, eventId, guestId, v);
      assert SetAttendance(rows, eventId, guestId, v) == setInit + [a'];
      SetAttendanceOther(init, eventId, guestId, v, id);
      AttendeesOfSnoc(init, a, id);
      AttendeesOfSnoc(setInit, a', id);
    }
  }

  lemma UpdatesCommute(m: map<Id, bool>, k1: Id, v1: bool, k2: Id, v2: bool)
    requires k1 != k2
    ensures m[k1 := v1][k2 := v2] == m[k2 := v2][k1 := v1]
  {
  }

  lemma RemoveAfterUpdate(m: map<Id, bool>, k1: Id, v1: bool, k2: Id)
    ensures m[k1 := v1] - {k2} == if k1 == k2 then m - {k2} else (m - {k2})[k1 := v1]
  {
  }

  lemma {:induction false} WithoutGuestMap(rows: seq<EventAttendee>, guestId: Id, id: Id)
    ensures AttendeesOf(RowsWithoutGuest(rows, guestId), id) == AttendeesOf(rows, id) - {guestId}
    decreases |rows|
  {
    if rows != [] {
      var init, a := rows[..|rows| - 1], rows[|rows| - 1];
      assert rows == init + [a];
      var keptInit := RowsWithoutGuest(init, guestId);
      WithoutGuestMap(init, guestId, id);
      AttendeesOfSnoc(init, a, id);
      if a.guest_id != guestId {
        assert RowsWithoutGuest(rows, guestId) == keptInit + [a];
        AttendeesOfSnoc(keptInit, a, id);
      } else {
        assert RowsWithoutGuest(rows, guestId) == keptInit;
      }
      RemoveAfterUpdate(AttendeesOf(init, id), a.guest_id, a.is_attending, guestId);
    }
  }

  lemma {:induction false} WithoutEventMap(rows: seq<EventAttendee>, eventId: Id, id: Id)
    requires id != eventId
    ensures AttendeesOf(RowsWithoutEvent(rows, eventId), id) == AttendeesOf(rows, id)
    decreases |rows|
  {
    if rows != [] {
      var init, a := rows[..|rows| - 1], rows[|rows| - 1];
      assert rows == init + [a];
      WithoutEventMap(init, eventId, id);
      AttendeesOfSnoc(init, a, id);
      if a.event_id != eventId {
        AttendeesOfSnoc(RowsWithoutEvent(init, eventId), a, id);
      }
    }
  }

  /** Rows that all say "this guest, not attending", one of which names the
      event, give that event the single entry `guestId -> false`. */
  lemma ForOneGuestMap(rows: seq<EventAttendee>, guestId: Id, id: Id, k: nat)
    requires forall i :: 0 <= i < |rows| ==> rows[i].guest_id == guestId && !rows[i].is_attending
    requires k < |rows| && rows[k].event_id == id
    ensures AttendeesOf(rows, id) == map[guestId := false]
  {
    var m := AttendeesOf(rows, id);
    forall h ensures h in m <==> h == guestId {
      AttendeesOfSpec(rows, id, h);
      if h == guestId {
        assert Matches(rows[k], id, h);
      }
    }
    AttendeesOfSpec(rows, id, guestId);
  }

  /** Rows for one event, one per guest and all "not attending", give that
      event the map of every one of those guests to `false`. */
  lemma ForOneEventMap(rows: seq<EventAttendee>, guests: seq<Guest>, eventId: Id)
    requires |rows| == |guests|
    requires forall i :: 0 <= i < |rows| ==>
               rows[i].event_id == eventId && rows[i].guest_id == guests[i].id && !rows[i].is_attending
    ensures AttendeesOf(rows, eventId) == NotAttendingMap(guests)
  {
    var m := AttendeesOf(rows, eventId);
    forall h ensures h in m <==> h in GuestIds(guests) {
      AttendeesOfSpec(rows, eventId, h);
      if h in GuestIds(guests) {
        var i :| 0 <= i < |guests| && guests[i].id == h;
        assert Matches(rows[i], eventId, h);
      }
    }
    forall h | h in m ensures !m[h] {
      AttendeesOfSpec(rows, eventId, h);
    }
  }

  /** Rows that name other events leave an event's map alone. */
  lemma OtherEventMap(rows: seq<EventAttendee>, id: Id)
    requires forall i :: 0 <= i < |rows| ==> rows[i].event_id != id
    ensures AttendeesOf(rows, id) == map[]
  {
    forall h ensures h !in AttendeesOf(rows, id) {
      AttendeesOfSpec(rows, id, h);
    }
  }

  // One lemma per operation: the reload after the writes equals the local step.

  /** Toggling agrees with a reload when the store has a row for the pair,
      which is what the local entry being present means. */
  lemma ToggleReload(st: Store, eventId: Id, guestId: Id, gen: Generated)
    requires T.FindEvent(Load(st).events, eventId).Some? ==> guestId in AttendeesOf(st.attendees, eventId)
    ensures var step := T.ToggleAttendance(Load(st), eventId, guestId);
            Load(PerformAll(st, step.effects, gen)) == step.state
  {
    var s := Load(st);
    var step := T.ToggleAttendance(s, eventId, guestId);
    var found := T.FindEvent(s.events, eventId);
    if found.Some? {
      var v := !T.Attending(s.events[found.value].attendees, guestId);
      var st' := st.(attendees := SetAttendance(st.attendees, eventId, guestId, v));
      assert PerformAll(st, step.effects, gen) == st';
      var view := Denormalized(st'.events, st'.attendees);
      SetAttendanceSame(st.attendees, eventId, guestId, v);
      forall i | 0 <= i < |st.events| ensures view[i] == step.state.events[i] {
        if st.events[i].id != eventId {
          SetAttendanceOther(st.attendees, eventId, guestId, v, st.events[i].id);
        }
      }
    }
  }

  lemma UpdateEventCostReload(st: Store, eventId: Id, cost: int, gen: Generated)
    ensures var step := T.UpdateEventCost(Load(st), eventId, cost);
            Load(PerformAll(st, step.effects, gen)) == step.state
  {
    var step := T.UpdateEventCost(Load(st), eventId, cost);
    assert PerformAll(st, step.effects, gen) == Perform(st, step.effects[0], gen);
  }

  /** Adding a guest agrees with a reload when the store's answer to the
      guest insert is the row it keeps. */
  lemma AddGuestReload(st: Store, name: string, inserted: Option<Guest>, gen: Generated)
    requires gen.guest == inserted
    ensures var step := T.AddGuest(Load(st), name, inserted);
            Load(PerformAll(st, step.effects, gen)) == step.state
  {
    var s := Load(st);
    var step := T.AddGuest(s, name, inserted);
    if inserted.Some? {
      var g := inserted.value;
      var st1 := st.(guests := st.guests + [g]);
      assert Perform(st, step.effects[0], gen) == st1;
      if s.events == [] {
        assert PerformAll(st, step.effects, gen) == st1;
      } else {
        var ins := T.RowsForGuest(s.events, g.id);
        var more := Persist(ins, gen.rowIds);
        var st2 := st1.(attendees := st.attendees + more);
        assert step.effects == [InsertGuest(name), InsertAttendees(ins)];
        PerformTwo(st, InsertGuest(name), InsertAttendees(ins), gen);
        assert PerformAll(st, step.effects, gen) == st2;
        NewGuestView(st.events, st.attendees, more, g.id);
      }
    } else {
      assert PerformAll(st, step.effects, gen) == st;
    }
  }

  /** Denormalising with one fresh "not attending" row per event for a new
      guest adds that guest, as `false`, to every event's map. */
  lemma NewGuestView(events: seq<Event>, rows: seq<EventAttendee>, more: seq<EventAttendee>, guestId: Id)
    requires |more| == |events|
    requires forall i :: 0 <= i < |more| ==>
               more[i].event_id == events[i].id && more[i].guest_id == guestId && !more[i].is_attending
    ensures var view := Denormalized(events, rows + more);
            forall i :: 0 <= i < |events| ==>
              view[i] == WithAttendees(events[i], AttendeesOf(rows, events[i].id)[guestId := false])
  {
    var view := Denormalized(events, rows + more);
    forall i | 0 <= i < |events|
      ensures view[i] == WithAttendees(events[i], AttendeesOf(rows, events[i].id)[guestId := false])
    {
      var id := events[i].id;
      AttendeesOfAppend(rows, more, id);
      ForOneGuestMap(more, guestId, id, i);
      UnionSingleton(AttendeesOf(rows, id), guestId, false);
    }
  }

  lemma UnionSingleton(m: map<Id, bool>, k: Id, v: bool)
    ensures m + map[k := v] == m[k := v]
  {
  }

  lemma EditGuestReload(st: Store, guestId: Id, name: string, gen: Generated)
    ensures var step := T.EditGuest(Load(st), guestId, name);
            Load(PerformAll(st, step.effects, gen)) == step.state
  {
    var step := T.EditGuest(Load(st), guestId, name);
    assert PerformAll(st, step.effects, gen) == Perform(st, step.effects[0], gen);
  }

  lemma DeleteGuestReload(st: Store, guestId: Id, gen: Generated)
    ensures var step := T.DeleteGuest(Load(st), guestId);
            Load(PerformAll(st, step.effects, gen)) == step.state
  {
    var step := T.DeleteGuest(Load(st), guestId);
    var st' := Store(GuestsWithout(st.guests, guestId), st.events, RowsWithoutGuest(st.attendees, guestId));
    PerformTwo(st, DeleteAttendeesByGuest(guestId), Remote.DeleteGuest(guestId), gen);
    assert PerformAll(st, step.effects, gen) == st';
    var view := Denormalized(st'.events, st'.attendees);
    forall i | 0 <= i < |st.events| ensures view[i] == step.state.events[i] {
      WithoutGuestMap(st.attendees, guestId, st.events[i].id);
    }
  }

  /** Adding an event agrees with a reload when the store's answer is the
      row it keeps and its id is new to the events and to the join table. */
  lemma AddEventReload(st: Store, fields: NewEvent, inserted: Option<Event>, gen: Generated)
    requires gen.event == inserted
    requires inserted.Some? ==>
               && (forall i :: 0 <= i < |st.events| ==> st.events[i].id != inserted.value.id)
               && (forall i :: 0 <= i < |st.attendees| ==> st.attendees[i].event_id != inserted.value.id)
    ensures var step := T.AddEvent(Load(st), fields, inserted);
            Load(PerformAll(st, step.effects, gen)) == step.state
  {
    var s := Load(st);
    var step := T.AddEvent(s, fields, inserted);
    if inserted.Some? {
      var e := inserted.value;
      var st1 := st.(events := st.events + [e]);
      assert Perform(st, step.effects[0], gen) == st1;
      var ins := T.RowsForEvent(s.guests, e.id);
      var more := Persist(ins, gen.rowIds);
      var st2 := st1.(attendees := st.attendees + more);
      if s.guests == [] {
        assert PerformAll(st, step.effects, gen) == st1;
        assert more == [];
        assert st.attendees + more == st.attendees;
      } else {
        assert step.effects == [InsertEvent(fields), InsertAttendees(ins)];
        PerformTwo(st, InsertEvent(fields), InsertAttendees(ins), gen);
        assert PerformAll(st, step.effects, gen) == st2;
      }
      NewEventView(st.events, st.attendees, more, e, s.guests);
    } else {
      assert PerformAll(st, step.effects, gen) == st;
    }
  }

  /** Denormalising with a new event and its fresh rows appends the event
      with every guest marked as not attending. */
  lemma NewEventView(events: seq<Event>, rows: seq<EventAttendee>, more: seq<EventAttendee>, e: Event, guests: seq<Guest>)
    requires forall i :: 0 <= i < |events| ==> events[i].id != e.id
    requires forall i :: 0 <= i < |rows| ==> rows[i].event_id != e.id
    requires |more| == |guests|
    requires forall i :: 0 <= i < |more| ==>
               more[i].event_id == e.id && more[i].guest_id == guests[i].id && !more[i].is_attending
    ensures Denormalized(events + [e], rows + more)
         == Denormalized(events, rows) + [WithAttendees(e, NotAttendingMap(guests))]
  {
    var view := Denormalized(events + [e], rows + more);
    var want := Denormalized(events, rows) + [WithAttendees(e, NotAttendingMap(guests))];
    forall i | 0 <= i < |events| ensures view[i] == want[i] {
      var id := events[i].id;
      AttendeesOfAppend(rows, more, id);
      OtherEventMap(more, id);
    }
    AttendeesOfAppend(rows, more, e.id);
    OtherEventMap(rows, e.id);
    ForOneEventMap(more, guests, e.id);
    assert view[|events|] == want[|events|];
  }

  /** Denormalising after dropping an event and its rows is dropping the
      event from the denormalised view. */
  lemma {:induction false} DenormalizedWithout(events: seq<Event>, rows: seq<EventAttendee>, eventId: Id)
    ensures Denormalized(EventsWithout(events, eventId), RowsWithoutEvent(rows, eventId))
         == T.EventsWithout(Denormalized(events, rows), eventId)
    decreases |events|
  {
    if events != [] {
      var init, x := events[..|events| - 1], events[|events| - 1];
      DenormalizedWithout(init, rows, eventId);
      var view := Denormalized(events, rows);
      assert view[..|view| - 1] == Denormalized(init, rows);
      if x.id != eventId {
        WithoutEventMap(rows, eventId, x.id);
        var kept := RowsWithoutEvent(rows, eventId);
        assert Denormalized(EventsWithout(init, eventId) + [x], kept)
            == Denormalized(EventsWithout(init, eventId), kept) + [WithAttendees(x, AttendeesOf(kept, x.id))];
      }
    }
  }

  lemma DeleteEventReload(st: Store, eventId: Id, gen: Generated)
    ensures var step := T.DeleteEvent(Load(st), eventId);
            Load(PerformAll(st, step.effects, gen)) == step.state
  {
    var step := T.DeleteEvent(Load(st), eventId);
    var st' := Store(st.guests, EventsWithout(st.events, eventId), RowsWithoutEvent(st.attendees, eventId));
    PerformTwo(st, DeleteAttendeesByEvent(eventId), Remote.DeleteEvent(eventId), gen);
    assert PerformAll(st, step.effects, gen) == st';
    DenormalizedWithout(st.events, st.attendees, eventId);
  }

  /** Without a store row for the pair the two views part: the local toggle
      marks the guest as attending, the update matches no row, and a reload
      shows no entry at all. */
  lemma ToggleWithoutRowDiverges()
    ensures var st := Store([Guest("g", "Ana", None)], [Event("e", "Cena", "2024-05-01", "20:00", "Casa", 100, None)], []);
            var step := T.ToggleAttendance(Load(st), "e", "g");
            && step.state.events[0].attendees == map["g" := true]
            && |Load(PerformAll(st, step.effects, Generated(None, None, []))).events| == 1
            && Load(PerformAll(st, step.effects, Generated(None, None, []))).events[0].attendees == map[]
  {
    var st := Store([Guest("g", "Ana", None)], [Event("e", "Cena", "2024-05-01", "20:00", "Casa", 100, None)], []);
    var s := Load(st);
    assert s.events[0].attendees == map[];
    assert T.FindEvent(s.events, "e") == Some(0);
    var step := T.ToggleAttendance(s, "e", "g");
    PerformOne(st, UpdateAttendance("e", "g", true), Generated(None, None, []));
  }
}
