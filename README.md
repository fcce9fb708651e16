# Event planner: a verified model of the client-side state logic

The event planner is a small web application in which the user keeps a guest
list and a list of events (title, date, time, location and total cost) and
marks, per event, which guests are coming; the cost of each event is split
among the confirmed guests. Storage and sign-in belong to a hosted backend.
The logic worth modelling lives in the browser:

- the page component (`app/page.tsx`) loads three tables, folds the
  `event_attendees` join table into a per-event map from guest id to
  "attending", and handles every add, edit, delete, toggle and cost update
  by changing its local copy and sending the matching writes to the store
  (at once for toggles, costs, renames and deletes; for a new guest or
  event only after the store has answered the insert with the new row);
- the event card computes the confirmed count and the rounded-up share;
- the calendar drawer tags events as past, today or upcoming, sorts them
  and groups them by date;
- the two event dialogs, the guest drawer and the sign-in page validate
  and normalise user input before calling back.

The model is split into these modules:

- **Js** (`js.dfy`): `String.prototype.trim` over ECMAScript white space
  and line terminators, `|| 0` on a number that may be NaN, and decimal
  `toString` with its inverse.
- **Types** (`types.dfy`): the records of `lib/types.ts`.
- **Attendance** (`attendance.dfy`): the denormaliser, both as a
  specification function and as the loops the page runs.
- **Remote** (`remote.dfy`): each write the page sends, as a value
  (`Effect`), plus a reference store that applies writes to three tables.
- **Transitions** (`transitions.dfy`): each handler as a pure function from
  the page's state to the new state and the writes sent, together with the
  invariants every handler keeps.
- **Planner** (`planner.dfy`): the page component as a class whose fields
  are its `useState` slots; each handler method applies the matching
  transition.
- **Sync** (`sync.dfy`): for each handler, loading the store after its
  writes yields the page's local state, when every write takes effect and
  under the stated conditions for the toggle and the two adds.
- **EventCard**, **Sorting**, **Calendar**, **EventForm**,
  **AddEventDialog**, **EventDialog**, **GuestDrawer**, **AuthPage**: the
  components of the same names.
- **Scenario** (`scenario.dfy`): a worked session.

The store, the clock, date parsing and `Number()` are parameters:

- a store answer is an `Option` (`None` for an error);
- the day of a date string is given by `dayOf`;
- the instant of a date and a time is given by `instantOf`;
- the sort key of a group's date is given by `dateKey`;
- today's day number is `today`;
- `Number` on the cost text is given by `parse`.

## Model

| member | source | states |
|---|---|---|
| Types.GuestsWithoutSpec | app/page.tsx:113 | deleting a guest keeps exactly the guests with another id, and the id set loses exactly that id |
| Types.GuestsWithoutAppend | app/page.tsx:113 | the filter distributes over concatenation, so the kept guests stay in their order |
| Types.GuestsWithoutSingleton | app/page.tsx:113 | a single guest is kept exactly when its id differs |
| Js.OrZero | components/event-card.tsx:86 | the or-zero fallback on a number: NaN becomes 0, any other number (0 included) is kept |
| Js.TrimIsInfix | components/add-event-dialog.tsx:26-30 | `trim()` returns a contiguous piece of the input that neither starts nor ends with white space |
| Js.TrimBounds | components/add-event-dialog.tsx:26-30 | everything `trim()` cuts off on either side is white space |
| Js.TrimIdempotent | components/add-event-dialog.tsx:28-30 | trimming an already trimmed string changes nothing |
| Js.TrimEmptyIff | components/add-event-dialog.tsx:26 | `s.trim()` is falsy exactly when every character of `s` is white space |
| Js.TrimOfTrimmed | components/add-event-dialog.tsx:30 | a string with no white space at either end is its own trim |
| Js.DigitsRoundTrip | components/event-dialog.tsx:32 | reading back the decimal digits of a natural number gives the number |
| Js.IntToStringRoundTrip | components/event-dialog.tsx:32 | reading back `total_cost.toString()` gives the integer, negative ones included |
| Attendance.Denormalized | app/page.tsx:33-40 | one entry per event, in order, the event record untouched and its map built from the join rows |
| Attendance.AttendeesOfSpec | app/page.tsx:34-38 | a guest is a key of an event's map exactly when some row has that event and guest, and its value is that of the last such row |
| Attendance.AttendeesOfAppend | app/page.tsx:34-38 | rows appended later override earlier rows for the same guest |
| Attendance.DenormalizedSameId | app/page.tsx:34 | two events with the same id get the same map |
| Attendance.BuildAttendeesMap | app/page.tsx:35-38 | the `forEach` over the event's rows builds exactly the specified map |
| Attendance.Denormalize | app/page.tsx:33-40 | the loop over the events builds exactly the denormalised list |
| Attendance.NotAttendingMap | app/page.tsx:150-153 | the new event's map has exactly the listed guests as keys, all `false` |
| Attendance.BuildNotAttendingMap | app/page.tsx:150-153 | the `forEach` over the guests builds that map |
| Transitions.Attending | app/page.tsx:59-60 | `attendees[guestId] ?? false`: a missing entry reads as not attending |
| Transitions.FindEvent | app/page.tsx:56-57 | `find` answers the first index whose event has the id, and no index exactly when no event has it |
| Transitions.ToggleAttendance | app/page.tsx:55-73 | with no such event nothing changes and nothing is sent; otherwise the flag read from the first match is flipped in every event with the id, nothing else changes, and one update with the new value is sent |
| Transitions.ToggleTwice | app/page.tsx:59-65 | toggling twice gives every event with the id the flag first read, with its other entries and all other events untouched |
| Transitions.UpdateEventCost | app/page.tsx:75-79 | only `total_cost` of events with the id changes; guests, maps, order and length stay; one update is sent |
| Transitions.RowsForGuest | app/page.tsx:89-93 | one `is_attending: false` row per current event, in event order, for the new guest |
| Transitions.AddGuest | app/page.tsx:81-105 | on an insert error only the insert is sent; otherwise the guest is appended, every event gains a `false` entry for it, and the join rows are inserted when there are events |
| Transitions.EditGuest | app/page.tsx:107-110 | only `name` of guests with the id changes; events, order, length and ids stay; one update is sent |
| Transitions.DeleteGuest | app/page.tsx:112-123 | the join rows and then the guest are deleted; the guest list keeps exactly the others; every map loses the guest's entry |
| Transitions.RowsForEvent | app/page.tsx:140-144 | one `is_attending: false` row per current guest, in guest order, for the new event |
| Transitions.AddEvent | app/page.tsx:125-156 | on an insert error only the insert is sent; otherwise the event is appended with a map holding every guest as `false`, and the join rows are inserted when there are guests |
| Transitions.EventsWithout | app/page.tsx:159 | the filter never lengthens the list |
| Transitions.EventsWithoutSpec | app/page.tsx:159 | the filter keeps exactly the events with another id, and the id set loses exactly that id |
| Transitions.EventsWithoutAppend | app/page.tsx:159 | filtering distributes over concatenation, so order is kept |
| Transitions.EventsWithoutSingleton | app/page.tsx:159 | a single event is kept exactly when its id differs |
| Transitions.DeleteEvent | app/page.tsx:158-162 | the join rows and then the event are deleted; exactly the other events remain; guests stay |
| Transitions.ApplyKeepsFullMatrix | app/page.tsx:55-162 | every handler, on its admissible inputs, keeps one map entry per (event, listed guest) pair |
| Transitions.ApplyKeepsUniqueIds | app/page.tsx:55-162 | every handler, on its admissible inputs, keeps guest ids and event ids unique |
| Transitions.RunKeepsInvariants | app/page.tsx:55-162 | any sequence of admissible handler calls keeps both invariants |
| Planner.EventPlanner.constructor | app/page.tsx:13-17 | the page starts with no guests, no events, and loading on |
| Planner.EventPlanner.FetchData | app/page.tsx:21-45 | guests are replaced when their query answers, events when both the events and the join query answer (denormalised), and loading ends |
| Planner.EventPlanner.ToggleAttendance | app/page.tsx:55-73 | the page's state and writes are those of the toggle transition |
| Planner.EventPlanner.UpdateEventCost | app/page.tsx:75-79 | the page's state and writes are those of the cost transition |
| Planner.EventPlanner.AddGuest | app/page.tsx:81-105 | the page's state and writes are those of the add-guest transition |
| Planner.EventPlanner.EditGuest | app/page.tsx:107-110 | the page's state and writes are those of the rename transition |
| Planner.EventPlanner.DeleteGuest | app/page.tsx:112-123 | the page's state and writes are those of the delete-guest transition |
| Planner.EventPlanner.AddEvent | app/page.tsx:125-156 | the page's state and writes are those of the add-event transition |
| Planner.EventPlanner.DeleteEvent | app/page.tsx:158-162 | the page's state and writes are those of the delete-event transition |
| Sync.SetAttendanceSame | app/page.tsx:68-72 | the store update changes the event's reloaded map at the guest exactly when a row for the pair exists |
| Sync.ToggleReload | app/page.tsx:55-73 | when the store has a row for the pair, reloading after the toggle's write gives the page's local state |
| Sync.UpdateEventCostReload | app/page.tsx:75-79 | reloading after the cost write gives the local state |
| Sync.AddGuestReload | app/page.tsx:81-105 | with the store answering the row it keeps, reloading after the inserts gives the local state |
| Sync.NewGuestView | app/page.tsx:99-104 | appending one `false` row per event adds a `false` entry for the guest to every reloaded map |
| Sync.EditGuestReload | app/page.tsx:107-110 | reloading after the rename gives the local state |
| Sync.DeleteGuestReload | app/page.tsx:112-123 | reloading after both deletes gives the local state |
| Sync.AddEventReload | app/page.tsx:125-156 | with a fresh event id and the store answering the row it keeps, reloading after the inserts gives the local state |
| Sync.NewEventView | app/page.tsx:146-155 | appending the event and its `false` rows appends exactly the locally built entry to the reloaded list |
| Sync.DenormalizedWithout | app/page.tsx:158-162 | denormalising after removing an event and its rows equals filtering the denormalised list |
| Sync.DeleteEventReload | app/page.tsx:158-162 | reloading after both deletes gives the local state |
| Sync.ToggleWithoutRowDiverges | app/page.tsx:63-72 | with no row for the pair the local view shows the guest attending while a reload shows no entry |
| EventCard.ConfirmedSet | components/event-card.tsx:24 | the confirmed guests are exactly the keys whose value is `true` |
| EventCard.ConfirmedCount | components/event-card.tsx:24 | the confirmed count never exceeds the number of entries |
| EventCard.TotalCount | components/event-card.tsx:25 | the denominator is the number of guests, whatever the map says |
| EventCard.CostPerPerson | components/event-card.tsx:26 | 0 with nobody confirmed; otherwise the smallest share that covers the total when every confirmed guest pays it |
| EventCard.CostPerPersonUnique | components/event-card.tsx:26 | that share is the only value with the ceiling's two bounds |
| EventCard.CostPerPersonExact | components/event-card.tsx:26 | a total that divides evenly is split into the exact quotient |
| EventCard.IsChecked | components/event-card.tsx:104-109 | the checkbox and badge show the same flag the page's toggle reads, unchecked for a missing entry |
| EventCard.CostFromInput | components/event-card.tsx:86 | a non-numeric input sends 0, a numeric one sends its value |
| EventCard.ToggleMovesCount | components/event-card.tsx:24 | flipping one guest's flag moves the confirmed count by exactly one, down if they were confirmed |
| EventCard.ConfirmedSetUpdate | components/event-card.tsx:24 | writing one flag adds the guest to, or removes them from, the confirmed set and nothing else |
| EventCard.ConfirmedAtMostTotal | components/event-card.tsx:24-25 | under the full-matrix invariant the badge never shows more confirmations than guests |
| Sorting.SortSorted | components/calendar-drawer.tsx:41-45 | the comparator sort yields a list ascending by key |
| Sorting.SortPermutation | components/calendar-drawer.tsx:41-45 | the sort neither drops nor duplicates an element |
| Sorting.SortStable | components/calendar-drawer.tsx:41-45 | elements with equal keys keep their relative order |
| Sorting.SortKeepsDistinct | components/calendar-drawer.tsx:59-61 | elements distinct under a projection stay distinct after sorting |
| Calendar.GetEventStatus | components/calendar-drawer.tsx:26-33 | past exactly when the date's day is before today, today exactly when equal, upcoming otherwise (an unreadable date included) |
| Calendar.Tagged | components/calendar-drawer.tsx:36-40 | each event is paired with the status of its own date, in order |
| Calendar.EventsWithStatus | components/calendar-drawer.tsx:35-46 | the tagged events sorted by instant: ascending and a permutation of the tagged list |
| Calendar.EventsWithStatusEntries | components/calendar-drawer.tsx:35-46 | every event appears in the sorted list with its own status, and every entry comes from an event |
| Calendar.EventsWithStatusStable | components/calendar-drawer.tsx:41-45 | events at the same instant keep their list order |
| Calendar.Buckets | components/calendar-drawer.tsx:49-57 | one group per date that occurs, in first-seen order, each holding exactly that date's events |
| Calendar.DatesSpec | components/calendar-drawer.tsx:49-57 | the group dates are distinct and are exactly the dates that occur |
| Calendar.DatesFirstSeen | components/calendar-drawer.tsx:51-54 | the key list is in first-seen order: each date occurs in the list before any event of a later key |
| Calendar.BucketSpec | components/calendar-drawer.tsx:51-57 | a date's group holds exactly the events with that date |
| Calendar.BucketAppend | components/calendar-drawer.tsx:51-57 | the push distributes over concatenation, so a group keeps the list order of its events |
| Calendar.BucketSingleton | components/calendar-drawer.tsx:51-57 | a single event is pushed exactly when it has the date |
| Calendar.BucketSorted | components/calendar-drawer.tsx:51-57 | the group of a sorted list is sorted by the same key |
| Calendar.GroupSortedByInstant | components/calendar-drawer.tsx:41-57 | within each date's group the events are in ascending order of date and time |
| Calendar.GroupByDate | components/calendar-drawer.tsx:48-62 | the `forEach` and the sort by date build exactly the specified groups |
| Calendar.BucketOfUnseen | components/calendar-drawer.tsx:51-55 | a date not yet seen has an empty group, so the first push creates it |
| Calendar.GroupIsBucket | components/calendar-drawer.tsx:49-61 | each sorted group is the group of its own date |
| Calendar.GroupOf | components/calendar-drawer.tsx:51-57 | every event lands in the group of its date |
| Calendar.GroupedEventsSpec | components/calendar-drawer.tsx:48-62 | the sorted groups ascend by date key, have distinct dates and cover every event |
| Calendar.GroupMembership | components/calendar-drawer.tsx:51-57 | an event is in a group exactly when it is in the list with that group's date |
| Calendar.NoGroupsIffNoEvents | components/calendar-drawer.tsx:113 | the empty-state message shows exactly when there are no events |
| Calendar.EventInItsGroup | components/calendar-drawer.tsx:35-62 | each event is shown once, in the group of its date, with its own status |
| EventForm.Submission | components/add-event-dialog.tsx:24-35 | a record goes out exactly when title and time are not blank; it carries the trimmed fields, `Por definir` for a blank location, and the parsed cost or 0 |
| EventForm.SubmissionNormalised | components/add-event-dialog.tsx:28-30 | a submitted title, time and location are non-empty and already trimmed |
| EventForm.DefaultLocationTrimmed | components/add-event-dialog.tsx:30 | the default location is non-empty and trimmed |
| EventForm.SubmissionIgnoresBlankFields | components/add-event-dialog.tsx:26 | a blank title or time sends nothing |
| EventForm.Prefill | components/event-dialog.tsx:27-39 | no event clears every field; an event fills title, time and location and a cost text that reads back as its cost |
| EventForm.PrefillRoundTrip | components/event-dialog.tsx:27-52 | saving a prefilled dialog without edits sends the event's own fields back |
| AddEventDialog.Dialog.constructor | components/add-event-dialog.tsx:19-22 | the dialog opens with every field empty |
| AddEventDialog.Dialog.Edit | components/add-event-dialog.tsx:19-22 | the inputs' setters replace the fields |
| AddEventDialog.Dialog.HandleClose | components/add-event-dialog.tsx:37-43 | closing clears every field and calls `onClose` |
| AddEventDialog.Dialog.HandleSubmit | components/add-event-dialog.tsx:24-35 | a valid form calls `onAddEvent` with the submission, then closes and clears; an invalid one calls nothing and keeps the fields |
| EventDialog.IsEditing | components/event-dialog.tsx:25-39 | the dialog edits exactly when it was given an event, which is exactly when its prefill effect does not leave every input empty |
| EventDialog.Dialog.constructor | components/event-dialog.tsx:20-23 | the dialog starts with every field empty |
| EventDialog.Dialog.Edit | components/event-dialog.tsx:20-23 | the inputs' setters replace the fields |
| EventDialog.Dialog.Prefill | components/event-dialog.tsx:27-39 | the effect sets the fields to the prefill of the given event |
| EventDialog.Dialog.HandleClose | components/event-dialog.tsx:54-60 | closing clears every field and calls `onClose` |
| EventDialog.Dialog.HandleSubmit | components/event-dialog.tsx:41-52 | a valid form calls `onSave` with the submission, then closes and clears; an invalid one calls nothing and keeps the fields |
| GuestDrawer.AddRequestSpec | components/guest-drawer.tsx:26-31 | a blank name sends nothing; any other name is sent non-empty and trimmed |
| GuestDrawer.SaveRequestSpec | components/guest-drawer.tsx:38-44 | a rename is sent exactly for a non-empty id and a name that is not blank, and the name sent is non-empty and trimmed |
| GuestDrawer.StartThenSave | components/guest-drawer.tsx:33-44 | starting an edit and saving at once renames the guest to its own trimmed name |
| GuestDrawer.AtMostOneInEditMode | components/guest-drawer.tsx:96 | two rows in edit mode at once belong to guests with the same id |
| GuestDrawer.InviteLink | components/guest-drawer.tsx:52 | the link is the origin, `/invite/` and the guest id, ending in the id |
| GuestDrawer.InviteLinkInjective | components/guest-drawer.tsx:52 | from one origin, different guests get different links |
| GuestDrawer.Drawer.constructor | components/guest-drawer.tsx:21-24 | the drawer starts with an empty name, no edit and nothing copied |
| GuestDrawer.Drawer.TypeNewGuestName | components/guest-drawer.tsx:78 | typing replaces the new-guest name only |
| GuestDrawer.Drawer.TypeEditingName | components/guest-drawer.tsx:100 | typing replaces the name being edited only |
| GuestDrawer.Drawer.HandleAddGuest | components/guest-drawer.tsx:26-31 | for a name that is not blank, `onAddGuest` is called with the trimmed name and the input clears; otherwise nothing happens |
| GuestDrawer.Drawer.HandleStartEdit | components/guest-drawer.tsx:33-36 | edit mode switches to the guest with its current name |
| GuestDrawer.Drawer.HandleSaveEdit | components/guest-drawer.tsx:38-44 | when the guard passes, `onEditGuest` is called and edit mode ends; otherwise nothing changes |
| GuestDrawer.Drawer.HandleCancelEdit | components/guest-drawer.tsx:46-49 | edit mode ends without any call |
| GuestDrawer.Drawer.HandleCopyLink | components/guest-drawer.tsx:51-60 | the invite link goes to the clipboard, and the guest is marked as copied when the write succeeds |
| GuestDrawer.Drawer.CopiedTimeout | components/guest-drawer.tsx:56 | the timer clears the copied mark and nothing else |
| AuthPage.SignUpCheck | app/auth/page.tsx:51-59 | a mismatch is reported exactly when the passwords differ, too short exactly when they agree and are under six characters, and nothing otherwise |
| AuthPage.MismatchBeforeLength | app/auth/page.tsx:51-59 | a mismatched pair is reported as a mismatch even when also too short |
| AuthPage.RedirectTo | app/auth/page.tsx:67 | a configured, non-empty redirect URL wins over the window origin |
| AuthPage.Form.constructor | app/auth/page.tsx:15-21 | the form starts in sign-in mode, empty, with no messages and not loading |
| AuthPage.Form.Type | app/auth/page.tsx:122-153 | the inputs' setters replace email and passwords only |
| AuthPage.Form.HandleSignIn | app/auth/page.tsx:26-44 | the credentials are sent; an error is shown and loading stops, success navigates home |
| AuthPage.Form.HandleSignUp | app/auth/page.tsx:46-79 | a failed check shows its message and sends nothing; otherwise the sign-up with the redirect URL is sent and the provider's error or the success message is shown |
| AuthPage.Form.SwitchMode | app/auth/page.tsx:81-87 | the mode flips, messages and both passwords clear, the email stays |
| Scenario.BarbecueRun | app/page.tsx:55-156 | a session: the new event gets a `false` entry per guest, the share is 100 after the first confirmation and 50 after the second, and deleting the first guest leaves only the second, still confirmed |

## Left out

- The store is modelled by the writes the page sends and a reference store. Rows are kept in insertion order. Filters, ordering by `created_at` and row-level security are not modelled.
- Each handler is one atomic step. Its writes are awaited one after another, but the `await`s between a handler's local update and its later writes are not modelled. Other handlers running during those `await`s are therefore not modelled, and neither are the parallel queries of the `Promise.all` load.
- Stale closures are not modelled either. `toggleAttendance` reads the event from the `events` of its closure (app/page.tsx:56) while it updates `prev` (:63). `addGuest` builds its rows from the closure's `events` (:89) while it updates `prev` (:99). `addEvent` builds its rows and map from the closure's `guests` (:140, :151) while it updates `prev` (:155).
- The reference store carries out every write the page sends. A failed update, delete or bulk attendee insert is not modelled, although the page would then keep its local update and the two views would drift apart; the Sync reload lemmas hold only for writes that take effect.
- The page ignores the result of every write except the guest and event inserts. The model does the same: the local update stands whatever the store answers.
- `isLoading` between the start of `fetchData` and the provider's answer is not modelled. The load is one step from the three answers.
- Dates are not parsed: the day and instant of a date string are parameters. NaN inside the sort comparator is not modelled; the sort key is an integer.
- Calendar.GetEventStatus: an unreadable date (NaN day) counts as upcoming, because every comparison with NaN is false.
- `Number()` on the cost text is a parameter returning an integer or NaN. Fractional costs are not modelled.
- Costs are unbounded integers, but the page holds them as doubles. The model agrees with the page only for costs of magnitude below 2^53; above that `Math.ceil(total_cost / confirmedCount)` is rounded.
- EventCard.CostPerPerson: its promise that the share covers the total holds in the page only below 2^53 (for example, a total of 10^17 split three ways is rounded down there).
- Js.IntToString: it writes plain decimal digits, as `toString` does only below 10^21; from 10^21 up `toString` switches to exponent notation (`1e+21`).
- Types: costs are integers rather than naturals, because nothing in the page or the inputs stops a negative cost.
- Object key order of the attendance maps is not modelled. Inherited prototype keys such as `toString` are not modelled either; maps are finite Dafny maps.
- AuthPage.SignUpCheck: the length is counted in characters, not UTF-16 code units.
- Rendering, styling, dark mode, the router and the expanded state of the card are not modelled. The clipboard and the two-second timer are modelled only by their effect on `copiedId`.
- components/header.tsx and components/event-list.tsx only render. They are not part of this model.
- Sync.ToggleReload: it requires a store row for the event and guest when the event exists. Without one the views diverge, as Sync.ToggleWithoutRowDiverges shows.
