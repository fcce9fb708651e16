/** The "new event" dialog of components/add-event-dialog.tsx: four text
    inputs, a guarded submit and a reset on close. */
module AddEventDialog {
  import opened Js
  import opened EventForm

  class Dialog {
    var title: string
    var time: string
    var location: string
    var totalCost: string

    function Current(): Fields
      reads this
    {
      Fields(title, time, location, totalCost)
    }

    /** Every input starts empty. */
    constructor ()
      ensures Current() == Cleared
    {
      title, time, location, totalCost := "", "", "", "";
    }

    /** The inputs' `onChange` setters. */
    method Edit(f: Fields)
      modifies this
      ensures Current() == f
    {
      title, time, location, totalCost := f.title, f.time, f.location, f.totalCost;
    }

    /** `handleClose`: clear every input, then `onClose`. */
    method HandleClose() returns (calls: seq<Callback>)
      modifies this
      ensures Current() == Cleared
      ensures calls == [Closed]
    {
      title := "";
      time := "";
      location := "";
      totalCost := "";
      calls := [Closed];
    }

    /** `handleSubmit`: when the guard passes, `onAddEvent` with the
        normalised record and then `handleClose`; otherwise nothing at all. */
    method HandleSubmit(parse: string -> JsNumber) returns (calls: seq<Callback>)
      modifies this
      ensures var sub := Submission(old(Current()), parse);
              && (sub.None? ==> calls == [] && Current() == old(Current()))
              && (sub.Some? ==> calls == [Submitted(sub.value)] + [Closed] && Current() == Cleared)
    {
      match Submission(Current(), parse)
      case Some(record) =>
        var closing := HandleClose();
        calls := [Submitted(record)] + closing;
      case None =>
        calls := [];
    }
  }
}
