/** A worked run of the planner: two guests, a barbecue added, both guests
    confirming one after the other, then one guest deleted. */
module Scenario {
  import opened Js
  import opened Types
  import EventCard
  import T = Transitions

  const Ana := Guest("a", "Ana", None)
  const Beto := Guest("b", "Beto", None)
  const Bbq := Event("bbq", "BBQ", "2024-06-01", "18:00", "Park", 100, None)

  /** The share seen on the barbecue's card. */
  function Share(s: T.State): int
    requires |s.events| == 1
  {
    EventCard.CostPerPerson(s.events[0].event.total_cost, EventCard.ConfirmedCount(s.events[0].attendees))
  }

  /** Adding the event gives it one `false` entry per guest. */
  lemma AddStep()
    ensures var s1 := T.AddEvent(T.State([Ana, Beto], []), NewEvent("BBQ", "18:00", "Park", 100), Some(Bbq)).state;
            && s1.guests == [Ana, Beto] && |s1.events| == 1 && s1.events[0].event == Bbq
            && s1.events[0].attendees == map["a" := false, "b" := false]
  {
    var s0 := T.State([Ana, Beto], []);
    assert GuestIds(s0.guests) == {"a", "b"};
    var s1 := T.AddEvent(s0, NewEvent("BBQ", "18:00", "Park", 100), Some(Bbq)).state;
    assert s1.events[0].attendees.Keys == {"a", "b"};
  }

  /** Toggling on the only event flips that guest's flag and nothing else. */
  lemma ToggleStep(s: T.State, guestId: Id)
    requires |s.events| == 1 && s.events[0].event == Bbq
    ensures var r := T.ToggleAttendance(s, "bbq", guestId).state;
            && r.guests == s.guests && |r.events| == 1 && r.events[0].event == Bbq
            && r.events[0].attendees == s.events[0].attendees[guestId := !T.Attending(s.events[0].attendees, guestId)]
  {
    assert T.FindEvent(s.events, "bbq") == Some(0);
  }

  /** Deleting a guest drops that guest's entry from the only event. */
  lemma DeleteStep(s: T.State, guestId: Id)
    requires |s.events| == 1
    ensures var r := T.DeleteGuest(s, guestId).state;
            |r.events| == 1 && r.events[0].attendees == s.events[0].attendees - {guestId}
  {
  }

  /** The three attendance maps of the run, one write after another. */
  lemma MapSteps()
    ensures map["a" := false, "b" := false]["a" := true] == map["a" := true, "b" := false]
    ensures map["a" := true, "b" := false]["b" := true] == map["a" := true, "b" := true]
    ensures map["a" := true, "b" := true] - {"a"} == map["b" := true]
  {
    assert (map["a" := true, "b" := true] - {"a"}).Keys == {"b"};
  }

  /** The share for one and for two confirmations of the 100 cost. */
  lemma Shares()
    ensures EventCard.ConfirmedCount(map["a" := true, "b" := false]) == 1
    ensures EventCard.ConfirmedCount(map["a" := true, "b" := true]) == 2
    ensures EventCard.CostPerPerson(100, 1) == 100 && EventCard.CostPerPerson(100, 2) == 50
  {
    assert EventCard.ConfirmedSet(map["a" := true, "b" := false]) == {"a"};
    assert EventCard.ConfirmedSet(map["a" := true, "b" := true]) == {"a", "b"};
    EventCard.CostPerPersonExact(100, 1);
    EventCard.CostPerPersonExact(50, 2);
  }

  /** Adding the event gives it one `false` entry per guest; the first
      confirmation makes the share the whole cost, the second halves it;
      deleting the first guest leaves only the second, still confirmed. */
  lemma BarbecueRun()
    ensures var s0 := T.State([Ana, Beto], []);
            var s1 := T.AddEvent(s0, NewEvent("BBQ", "18:00", "Park", 100), Some(Bbq)).state;
            var s2 := T.ToggleAttendance(s1, "bbq", "a").state;
            var s3 := T.ToggleAttendance(s2, "bbq", "b").state;
            var s4 := T.DeleteGuest(s3, "a").state;
            && |s1.events| == 1 && s1.events[0].attendees == map["a" := false, "b" := false]
            && |s2.events| == 1 && s2.events[0].attendees == map["a" := true, "b" := false] && Share(s2) == 100
            && |s3.events| == 1 && s3.events[0].attendees == map["a" := true, "b" := true] && Share(s3) == 50
            && |s4.events| == 1 && s4.events[0].attendees == map["b" := true]
  {
    var s0 := T.State([Ana, Beto], []);
    var s1 := T.AddEvent(s0, NewEvent("BBQ", "18:00", "Park", 100), Some(Bbq)).state;
    AddStep();
    var s2 := T.ToggleAttendance(s1, "bbq", "a").state;
    ToggleStep(s1, "a");
    MapSteps();
    var s3 := T.ToggleAttendance(s2, "bbq", "b").state;
    ToggleStep(s2, "b");
    var s4 := T.DeleteGuest(s3, "a").state;
    DeleteStep(s3, "a");
    Shares();
  }
}
