/** The records the application stores and displays (lib/types.ts). */
module Types {
  import opened Js

  /** Identifiers are opaque strings generated by the store. */
  type Id = string

  datatype Guest = Guest(id: Id, name: string, created_at: Option<string>)

  /** `event_date` is the store's ISO day ("YYYY-MM-DD"), `time` the
      "HH:MM" text of the form; the cost is an integral amount. */
  datatype Event = Event(
    id: Id,
    title: string,
    event_date: string,
    time: string,
    location: string,
    total_cost: int,
    created_at: Option<string>)

  /** One row of the `event_attendees` join table. */
  datatype EventAttendee = EventAttendee(id: Id, event_id: Id, guest_id: Id, is_attending: bool)

  /** An event together with its attendance map from guest id to flag; the
      TypeScript type extends `Event`, here the event is a field. */
  datatype EventWithAttendees = WithAttendees(event: Event, attendees: map<Id, bool>) {
    function id(): Id { event.id }
  }

  /** The fields the event dialogs hand to `addEvent`. */
  datatype NewEvent = NewEvent(title: string, time: string, location: string, totalCost: int)

  /** The set of ids of a list of guests. */
  function GuestIds(guests: seq<Guest>): set<Id> {
    set g | g in guests :: g.id
  }

  /** The set of ids of a list of events. */
  function EventIds(events: seq<EventWithAttendees>): set<Id> {
    set e | e in events :: e.event.id
  }

  /** `guests.filter(g => g.id !== guestId)`. */
  function GuestsWithout(guests: seq<Guest>, guestId: Id): (r: seq<Guest>)
    ensures |r| <= |guests|
    decreases |guests|
  {
    if guests == [] then []
    else
      var init := GuestsWithout(guests[..|guests| - 1], guestId);
      if guests[|guests| - 1].id == guestId then init else init + [guests[|guests| - 1]]
  }

  /** Filtering keeps exactly the guests with another id; their order is
      stated by GuestsWithoutAppend and GuestsWithoutSingleton. */
  lemma {:induction false} GuestsWithoutSpec(guests: seq<Guest>, guestId: Id)
    ensures GuestIds(GuestsWithout(guests, guestId)) == GuestIds(guests) - {guestId}
    ensures forall g :: g in GuestsWithout(guests, guestId) <==> g in guests && g.id != guestId
    decreases |guests|
  {
    if guests != [] {
      var init := guests[..|guests| - 1];
      assert guests == init + [guests[|guests| - 1]];
      GuestsWithoutSpec(init, guestId);
    }
  }

  /** The filter works piecewise, so the kept guests stay in their order. */
  lemma {:induction false} GuestsWithoutAppend(a: seq<Guest>, b: seq<Guest>, guestId: Id)
    ensures GuestsWithout(a + b, guestId) == GuestsWithout(a, guestId) + GuestsWithout(b, guestId)
    decreases |b|
  {
    if b == [] {
      assert a + b == a;
    } else {
      var init, last := b[..|b| - 1], b[|b| - 1];
      var ab := a + b;
      assert ab[..|ab| - 1] == a + init;
      assert ab[|ab| - 1] == last;
      GuestsWithoutAppend(a, init, guestId);
    }
  }

  /** A guest with the id is dropped and any other kept. */
  lemma GuestsWithoutSingleton(g: Guest, guestId: Id)
    ensures GuestsWithout([g], guestId) == if g.id == guestId then [] else [g]
  {
    assert [g][..0] == [];
  }

  /** `guests.map(g => g.id === guestId ? { ...g, name } : g)`. */
  function RenameGuest(guests: seq<Guest>, guestId: Id, name: string): (r: seq<Guest>)
    ensures |r| == |guests|
    ensures forall i :: 0 <= i < |guests| ==>
              r[i] == if guests[i].id == guestId then guests[i].(name := name) else guests[i]
  {
    seq(|guests|, i requires 0 <= i < |guests| => if guests[i].id == guestId then guests[i].(name := name) else guests[i])
  }
}
