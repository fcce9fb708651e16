/** The create-or-edit dialog of components/event-dialog.tsx: the same four
    inputs, prefilled from the event being edited whenever the dialog opens. */
module EventDialog {
  import opened Js
  import opened Types
  import opened EventForm

  /** `isEditing = !!event`: the dialog edits exactly when its prefill
      effect fills the inputs, since an event's cost text is never empty. */
  function IsEditing(event: Option<EventWithAttendees>): (r: bool)
    ensures r <==> event.Some?
    ensures !r <==> EventForm.Prefill(event) == Cleared
  {
    if event.Some? then
      assert ReadDecimal(Cleared.totalCost).None?;
      true
    else false
  }

  class Dialog {
    var title: string
    var time: string
    var location: string
    var totalCost: string

    function Current(): Fields
      reads this
    {
      Fields(title, time, location, totalCost)
    }

    constructor ()
      ensures Current() == Cleared
    {
      title, time, location, totalCost := "", "", "", "";
    }

    /** The inputs' `onChange` setters. */
    method Edit(f: Fields)
      modifies this
      ensures Current() == f
    {
      title, time, location, totalCost := f.title, f.time, f.location, f.totalCost;
    }

    /** The effect on `[event, isOpen]`: copy the event's fields, the cost
        as `total_cost.toString()`, or clear everything without an event. */
    method Prefill(event: Option<EventWithAttendees>)
      modifies this
      ensures Current() == EventForm.Prefill(event)
    {
      if event.Some? {
        var e := event.value.event;
        title := e.title;
        time := e.time;
        location := e.location;
        totalCost := IntToString(e.total_cost);
      } else {
        title := "";
        time := "";
        location := "";
        totalCost := "";
      }
    }

    /** `handleClose`: clear every input, then `onClose`. */
    method HandleClose() returns (calls: seq<Callback>)
      modifies this
      ensures Current() == Cleared
      ensures calls == [Closed]
    {
      title := "";
      time := "";
      location := "";
      totalCost := "";
      calls := [Closed];
    }

    /** `handleSubmit`: when the guard passes, `onSave` with the normalised
        record and then `handleClose`; otherwise nothing at all. */
    method HandleSubmit(parse: string -> JsNumber) returns (calls: seq<Callback>)
      modifies this
      ensures var sub := Submission(old(Current()), parse);
              && (sub.None? ==> calls == [] && Current() == old(Current()))
              && (sub.Some? ==> calls == [Submitted(sub.value)] + [Closed] && Current() == Cleared)
    {
      match Submission(Current(), parse)
      case Some(record) =>
        var closing := HandleClose();
        calls := [Submitted(record)] + closing;
      case None =>
        calls := [];
    }
  }
}
