/** The guest drawer of components/guest-drawer.tsx: the add-guest input,
    the single-row edit mode and the invite links. */
module GuestDrawer {
  import opened Js
  import opened Types

  /** The parent's callbacks the drawer calls. */
  datatype Call = AddGuestCall(name: string) | EditGuestCall(guestId: Id, name: string)

  /** The name `handleAddGuest` passes to `onAddGuest`, or `None` when the
      trimmed input is empty. */
  function AddRequest(newGuestName: string): Option<string>
  {
    if Trim(newGuestName) != [] then Some(Trim(newGuestName)) else None
  }

  /** A blank name sends nothing; any other name is sent non-empty and
      already trimmed. */
  lemma AddRequestSpec(newGuestName: string)
    ensures AddRequest(newGuestName).None? <==> AllWhitespace(newGuestName)
    ensures AddRequest(newGuestName).Some? ==>
              var name := AddRequest(newGuestName).value;
              name != [] && Trim(name) == name
  {
    TrimEmptyIff(newGuestName);
    TrimIdempotent(newGuestName);
  }

  /** `editingId && editingName.trim()`: the guard passes for a non-null,
      non-empty id (the empty string is falsy) and a name that is not blank. */
  function SaveRequest(editingId: Option<Id>, editingName: string): Option<Call>
  {
    if editingId.Some? && editingId.value != "" && Trim(editingName) != [] then
      Some(EditGuestCall(editingId.value, Trim(editingName)))
    else None
  }

  /** The save goes out exactly for a non-empty id and a name that is not
      all whitespace, and the name it sends is non-empty and trimmed. */
  lemma SaveRequestSpec(editingId: Option<Id>, editingName: string)
    ensures SaveRequest(editingId, editingName).Some?
        <==> editingId.Some? && editingId.value != "" && !AllWhitespace(editingName)
    ensures SaveRequest(editingId, editingName).Some? ==>
              var call := SaveRequest(editingId, editingName).value;
              call.name != [] && Trim(call.name) == call.name
  {
    TrimEmptyIff(editingName);
    TrimIdempotent(editingName);
  }

  /** Editing a guest and saving without touching the name renames it to
      its own trimmed name. */
  lemma StartThenSave(guest: Guest)
    requires guest.id != "" && !AllWhitespace(guest.name)
    ensures SaveRequest(Some(guest.id), guest.name) == Some(EditGuestCall(guest.id, Trim(guest.name)))
  {
    SaveRequestSpec(Some(guest.id), guest.name);
  }

  /** The row of a guest shows the edit input exactly when `editingId` is
      that guest's id. */
  predicate InEditMode(editingId: Option<Id>, guestId: Id) {
    editingId == Some(guestId)
  }

  /** Edit mode is one id, so it never covers two guests with different
      ids. */
  lemma AtMostOneInEditMode(editingId: Option<Id>, guests: seq<Guest>, i: nat, j: nat)
    requires i < |guests| && j < |guests|
    requires InEditMode(editingId, guests[i].id) && InEditMode(editingId, guests[j].id)
    ensures guests[i].id == guests[j].id
  {
  }

  /** `${origin}/invite/${guest.id}`, with `""` for the origin outside a
      browser window. */
  function InviteLink(origin: Option<string>, guestId: Id): (r: string)
    ensures |r| == |origin.GetOr("")| + 8 + |guestId|
    ensures r[|r| - |guestId|..] == guestId
  {
    origin.GetOr("") + "/invite/" + guestId
  }

  /** From one origin, different guests get different links. */
  lemma InviteLinkInjective(origin: Option<string>, a: Id, b: Id)
    requires InviteLink(origin, a) == InviteLink(origin, b)
    ensures a == b
  {
    var la, lb := InviteLink(origin, a), InviteLink(origin, b);
    assert |a| == |b|;
    assert a == la[|la| - |a|..];
  }

  class Drawer {
    var newGuestName: string
    var editingId: Option<Id>
    var editingName: string
    var copiedId: Option<Id>

    constructor ()
      ensures newGuestName == "" && editingId == None && editingName == "" && copiedId == None
    {
      newGuestName := "";
      editingId := None;
      editingName := "";
      copiedId := None;
    }

    /** The inputs' `onChange` setters. */
    method TypeNewGuestName(text: string)
      modifies this
      ensures newGuestName == text
      ensures editingId == old(editingId) && editingName == old(editingName) && copiedId == old(copiedId)
    {
      newGuestName := text;
    }

    method TypeEditingName(text: string)
      modifies this
      ensures editingName == text
      ensures newGuestName == old(newGuestName) && editingId == old(editingId) && copiedId == old(copiedId)
    {
      editingName := text;
    }

    /** `handleAddGuest`: call `onAddGuest` with the trimmed name and clear
        the input, or do nothing for a blank name. */
    method HandleAddGuest() returns (calls: seq<Call>)
      modifies this
      ensures AddRequest(old(newGuestName)).None? ==> calls == [] && newGuestName == old(newGuestName)
      ensures AddRequest(old(newGuestName)).Some? ==>
                calls == [AddGuestCall(AddRequest(old(newGuestName)).value)] && newGuestName == ""
      ensures editingId == old(editingId) && editingName == old(editingName) && copiedId == old(copiedId)
    {
      var req := AddRequest(newGuestName);
      if req.Some? {
        calls := [AddGuestCall(req.value)];
        newGuestName := "";
      } else {
        calls := [];
      }
    }

    /** `handleStartEdit`: the guest's row switches to edit mode with its
        current name; any other row leaves it. */
    method HandleStartEdit(guest: Guest)
      modifies this
      ensures editingId == Some(guest.id) && editingName == guest.name
      ensures newGuestName == old(newGuestName) && copiedId == old(copiedId)
    {
      editingId := Some(guest.id);
      editingName := guest.name;
    }

    /** `handleSaveEdit`: when the guard passes, `onEditGuest` with the
        trimmed name and leave edit mode; otherwise nothing changes. */
    method HandleSaveEdit() returns (calls: seq<Call>)
      modifies this
      ensures var req := SaveRequest(old(editingId), old(editingName));
              && (req.None? ==> calls == [] && editingId == old(editingId) && editingName == old(editingName))
              && (req.Some? ==> calls == [req.value] && editingId == None && editingName == "")
      ensures newGuestName == old(newGuestName) && copiedId == old(copiedId)
    {
      var req := SaveRequest(editingId, editingName);
      if req.Some? {
        calls := [req.value];
        editingId := None;
        editingName := "";
      } else {
        calls := [];
      }
    }

    /** `handleCancelEdit`: leave edit mode without calling anyone. */
    method HandleCancelEdit()
      modifies this
      ensures editingId == None && editingName == ""
      ensures newGuestName == old(newGuestName) && copiedId == old(copiedId)
    {
      editingId := None;
      editingName := "";
    }

    /** `handleCopyLink`: the link handed to the clipboard; `written` is
        whether the clipboard accepted it, which marks the guest as copied. */
    method HandleCopyLink(guest: Guest, origin: Option<string>, written: bool) returns (link: string)
      modifies this
      ensures link == InviteLink(origin, guest.id)
      ensures copiedId == if written then Some(guest.id) else old(copiedId)
      ensures newGuestName == old(newGuestName) && editingId == old(editingId) && editingName == old(editingName)
    {
      link := InviteLink(origin, guest.id);
      if written {
        copiedId := Some(guest.id);
      }
    }

    /** The timer that fires two seconds after a copy. */
    method CopiedTimeout()
      modifies this
      ensures copiedId == None
      ensures newGuestName == old(newGuestName) && editingId == old(editingId) && editingName == old(editingName)
    {
      copiedId := None;
    }
  }
}
