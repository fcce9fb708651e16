/** The figures an event card shows (components/event-card.tsx): how many
    guests confirmed, how many guests there are, the rounded-up share of the
    cost, and the state of each guest's checkbox. */
module EventCard {
  import opened Js
  import opened Types
  import T = Transitions

  /** The guests whose entry in the map is `true`. */
  function ConfirmedSet(attendees: map<Id, bool>): (r: set<Id>)
    ensures r <= attendees.Keys
    ensures forall k :: k in r <==> k in attendees && attendees[k]
  {
    set k | k in attendees && attendees[k]
  }

  /** `Object.values(event.attendees).filter(Boolean).length`: one per key
      whose value is `true`. */
  function ConfirmedCount(attendees: map<Id, bool>): (r: nat)
    ensures r <= |attendees|
  {
    ConfirmedSetBound(attendees);
    |ConfirmedSet(attendees)|
  }

  lemma ConfirmedSetBound(attendees: map<Id, bool>)
    ensures |ConfirmedSet(attendees)| <= |attendees.Keys| == |attendees|
  {
    SubsetCard(ConfirmedSet(attendees), attendees.Keys);
  }

  lemma SubsetCard(a: set<Id>, b: set<Id>)
    requires a <= b
    ensures |a| <= |b|
  {
    assert b == a + (b - a);
  }

  /** `guests.length`: the badge's denominator does not look at the map. */
  function TotalCount(guests: seq<Guest>): (r: nat)
    ensures r == |guests|
  {
    |guests|
  }

  /** `confirmedCount > 0 ? Math.ceil(total_cost / confirmedCount) : 0`, on
      integral costs: the smallest share that, paid by every confirmed guest,
      covers the total. */
  function CostPerPerson(totalCost: int, confirmed: nat): (r: int)
    ensures confirmed == 0 ==> r == 0
    ensures confirmed > 0 ==> r * confirmed >= totalCost && (r - 1) * confirmed < totalCost
  {
    if confirmed > 0 then
      var q := (-totalCost) / confirmed;
      assert q * confirmed <= -totalCost < q * confirmed + confirmed;
      -q
    else 0
  }

  /** The share is the only value with the ceiling's two bounds. */
  lemma CostPerPersonUnique(totalCost: int, confirmed: nat, r: int)
    requires confirmed > 0
    requires r * confirmed >= totalCost && (r - 1) * confirmed < totalCost
    ensures r == CostPerPerson(totalCost, confirmed)
  {
    var c := CostPerPerson(totalCost, confirmed);
    ScaleCancel(r, c - 1, confirmed);
    ScaleCancel(c, r - 1, confirmed);
  }

  lemma ScaleCancel(a: int, b: int, k: int)
    requires k > 0 && a * k > b * k
    ensures a > b
  {
  }

  /** The share of a cost that divides evenly is the quotient. */
  lemma CostPerPersonExact(share: int, confirmed: nat)
    requires confirmed > 0
    ensures CostPerPerson(share * confirmed, confirmed) == share
  {
    CostPerPersonUnique(share * confirmed, confirmed, share);
  }

  /** `event.attendees[guest.id] || false`: the checkbox and the
      "Confirmado" badge show exactly the flag the page's toggle reads. */
  function IsChecked(attendees: map<Id, bool>, guestId: Id): (r: bool)
    ensures r == T.Attending(attendees, guestId)
    ensures guestId !in attendees ==> !r
  {
    guestId in attendees && attendees[guestId]
  }

  /** The cost input's `Number(e.target.value) || 0`, for the parsed value. */
  function CostFromInput(parsed: JsNumber): (r: int)
    ensures parsed.NaN? ==> r == 0
    ensures parsed.Num? ==> r == parsed.n
  {
    OrZero(parsed)
  }

  /** Flipping one guest's flag moves the count by exactly one. */
  lemma ToggleMovesCount(attendees: map<Id, bool>, guestId: Id)
    ensures var was := T.Attending(attendees, guestId);
            ConfirmedCount(attendees[guestId := !was]) ==
            (if was then ConfirmedCount(attendees) - 1 else ConfirmedCount(attendees) + 1)
  {
    var was := T.Attending(attendees, guestId);
    var before := ConfirmedSet(attendees);
    ConfirmedSetUpdate(attendees, guestId, !was);
    if was {
      assert guestId in before;
      assert |before - {guestId}| == |before| - 1;
    } else {
      assert guestId !in before;
      assert |before + {guestId}| == |before| + 1;
    }
  }

  /** Writing one flag adds the guest to, or removes it from, the confirmed set. */
  lemma ConfirmedSetUpdate(attendees: map<Id, bool>, guestId: Id, v: bool)
    ensures ConfirmedSet(attendees[guestId := v])
         == if v then ConfirmedSet(attendees) + {guestId} else ConfirmedSet(attendees) - {guestId}
  {
    var after := ConfirmedSet(attendees[guestId := v]);
    var want := if v then ConfirmedSet(attendees) + {guestId} else ConfirmedSet(attendees) - {guestId};
    forall k ensures k in after <==> k in want {
    }
  }

  /** A list of guests has at most as many ids as entries. */
  lemma {:induction false} GuestIdsBound(guests: seq<Guest>)
    ensures |GuestIds(guests)| <= |guests|
    decreases |guests|
  {
    if guests != [] {
      var init := guests[..|guests| - 1];
      assert guests == init + [guests[|guests| - 1]];
      GuestIdsBound(init);
      assert GuestIds(guests) == GuestIds(init) + {guests[|guests| - 1].id};
    }
  }

  /** With one entry per guest (the invariant the page keeps), the badge
      never shows more confirmations than guests. */
  lemma ConfirmedAtMostTotal(s: T.State, i: nat)
    requires T.FullMatrix(s)
    requires i < |s.events|
    ensures ConfirmedCount(s.events[i].attendees) <= TotalCount(s.guests)
  {
    GuestIdsBound(s.guests);
    assert |s.events[i].attendees| == |s.events[i].attendees.Keys| == |GuestIds(s.guests)|;
  }
}
