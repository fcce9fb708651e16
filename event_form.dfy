/** The four text fields of both event dialogs (components/add-event-dialog.tsx
    and components/event-dialog.tsx) and the record their submit handlers
    build from them. */
module EventForm {
  import opened Js
  import opened Types

  /** The dialog's `title`, `time`, `location` and `totalCost` inputs. */
  datatype Fields = Fields(title: string, time: string, location: string, totalCost: string)

  /** Every field cleared, as `handleClose` leaves them. */
  const Cleared := Fields("", "", "", "")

  /** The parent's callbacks a dialog calls, in order: `onAddEvent` or
      `onSave` with the record, and `onClose`. */
  datatype Callback = Submitted(record: NewEvent) | Closed

  /** The location submitted when the input is blank. */
  const DefaultLocation := "Por definir"

  /** What the dialog hands to `onAddEvent` / `onSave`, or `None` when the
      guard `title.trim() && time.trim()` rejects the submit. `parse` is
      `Number` on the cost text. */
  function Submission(f: Fields, parse: string -> JsNumber): (r: Option<NewEvent>)
    ensures r.Some? <==> Trim(f.title) != [] && Trim(f.time) != []
    ensures r.Some? ==>
              && r.value.title == Trim(f.title)
              && r.value.time == Trim(f.time)
              && r.value.location == (if Trim(f.location) == [] then DefaultLocation else Trim(f.location))
              && r.value.totalCost == OrZero(parse(f.totalCost))
  {
    if Trim(f.title) != [] && Trim(f.time) != [] then
      var location := Trim(f.location);
      Some(NewEvent(Trim(f.title), Trim(f.time), if location != [] then location else DefaultLocation,
                    OrZero(parse(f.totalCost))))
    else None
  }

  /** A submitted record is already normalised: title, time and location
      are non-empty and trimming them again changes nothing. */
  lemma SubmissionNormalised(f: Fields, parse: string -> JsNumber)
    requires Submission(f, parse).Some?
    ensures var e := Submission(f, parse).value;
            && e.title != [] && Trim(e.title) == e.title
            && e.time != [] && Trim(e.time) == e.time
            && e.location != [] && Trim(e.location) == e.location
  {
    var e := Submission(f, parse).value;
    TrimIdempotent(f.title);
    TrimIdempotent(f.time);
    if Trim(f.location) == [] {
      DefaultLocationTrimmed();
    } else {
      TrimIdempotent(f.location);
    }
  }

  lemma DefaultLocationTrimmed()
    ensures DefaultLocation != [] && Trim(DefaultLocation) == DefaultLocation
  {
    assert DefaultLocation[0] == 'P' && DefaultLocation[|DefaultLocation| - 1] == 'r';
    TrimOfTrimmed(DefaultLocation);
  }

  /** The guard looks only at the title and the time. */
  lemma SubmissionIgnoresBlankFields(f: Fields, parse: string -> JsNumber)
    requires AllWhitespace(f.title) || AllWhitespace(f.time)
    ensures Submission(f, parse).None?
  {
    TrimEmptyIff(f.title);
    TrimEmptyIff(f.time);
  }

  /** `Number` on the cost text reads decimal integers the way
      `toString` writes them. */
  ghost predicate ReadsDecimals(parse: string -> JsNumber) {
    forall s :: ReadDecimal(s).Some? ==> parse(s) == Num(ReadDecimal(s).value)
  }

  /** The fields the edit dialog's effect prefills from an event, or clears
      when there is none; the cost is `total_cost.toString()`. */
  function Prefill(event: Option<EventWithAttendees>): (r: Fields)
    ensures event.None? ==> r == Cleared
    ensures event.Some? ==> r.title == event.value.event.title && r.time == event.value.event.time
                            && r.location == event.value.event.location
                            && ReadDecimal(r.totalCost) == Some(event.value.event.total_cost)
  {
    match event
    case None => Cleared
    case Some(e) =>
      IntToStringRoundTrip(e.event.total_cost);
      Fields(e.event.title, e.event.time, e.event.location, IntToString(e.event.total_cost))
  }

  /** Opening the dialog on an event and saving without edits hands back
      the event's own fields, when they are already trimmed and the
      location is not blank. */
  lemma PrefillRoundTrip(e: EventWithAttendees, parse: string -> JsNumber)
    requires ReadsDecimals(parse)
    requires e.event.title != [] && Trim(e.event.title) == e.event.title
    requires e.event.time != [] && Trim(e.event.time) == e.event.time
    requires e.event.location != [] && Trim(e.event.location) == e.event.location
    ensures Submission(Prefill(Some(e)), parse)
         == Some(NewEvent(e.event.title, e.event.time, e.event.location, e.event.total_cost))
  {
    var f := Prefill(Some(e));
    assert parse(f.totalCost) == Num(e.event.total_cost);
  }
}
