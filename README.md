# Notes page: a Dafny model of its note-list state machine

The notes application shows a calendar and, next to it, the notes of the selected
day as cards. A toolbar creates notes through a dialog and sorts the cards by
priority. Each card can be marked completed or deleted. All of this lives in
`src/App.tsx`. Without the JSX, it is a small state machine over a list of notes:

- `notes` is the whole list.
- `filteredNotes` is the view: the notes of the selected day, possibly sorted.
- `date` is the calendar's selection.
- `sortOrder` is the toolbar's "asc"/"desc" toggle.
- `note` is the create dialog's draft.

This project models that state machine and proves what each handler does to it.

Modules, one per part of the page:

- `NoteModel` (`note_model.dfy`): the `Note` record. It has an id, a title, an
  optional description, a calendar `Day`, a `Priority` in 1..5 and a completion flag.
- `NoteLists` (`note_lists.dfy`): the list transformations behind the state updates.
  `Filter` is the array filter. `Matching` is the view of one day. `WithoutId` is
  delete. `SetCompletedById` is the completion map. Lemmas cover their contents and
  order, and how the view relates to each change of the list.
- `PrioritySort` (`priority_sort.dfy`): handleSort's comparator and the toolbar's
  alternating direction. `SortByPriority` is the stable sort as a function. An in-place
  insertion sort on an array is proved to compute it. Uniqueness lemmas show that any
  stable sort gives the same result, so the engine's sort algorithm does not matter.
- `CreateDialog` (`create_dialog.dfy`): the empty draft and the slider-to-priority mapping.
- `NoteCardView` (`note_card.dfy`): the five colour bands of a card and the choice
  between cards, "Loading..." and "Make new notes".
- `NotesApp` (`notes_app.dfy`): class `NoteBoard`. It holds the page state, and each
  event handler is a method. A handler runs as one atomic transition together with the
  effects it triggers. Those effects are the view recomputation and the draft following
  the selected day. `Valid()` states four things. A day is always selected, because deselecting
  throws before the day is set (line 115). The draft's day is the selected day.
  `sortOrder` is the direction the toggle has reached after the recorded number of
  presses. The view is the day's notes in list order, or exactly their stable sort in
  the direction of the last press (ghost fields `dayView`, `appliedOrder`, `sortPresses`).

What the code does, and so what the model does:

- `src/App.tsx` sends no create, update or delete request. Create appends locally
  (line 237) and completion changes locally (lines 92-100), so there is no request
  and no rollback to model.
- createNote refuses only the exact empty title (line 234), so a title of spaces is
  accepted. The model does the same.

## Model

| member | source | states |
|---|---|---|
| NoteLists.Filter | src/App.tsx:73-75 | every element of the result is accepted by the predicate, and the result is no longer than the input |
| NoteLists.FilterMultiset | src/App.tsx:73-75 | the filter adds nothing, and keeps every accepted element exactly as often as it occurs |
| NoteLists.FilterConcat | src/App.tsx:73-75 | filtering keeps order: the filter of a concatenation is the concatenation of the filters |
| NoteLists.FilterCommutes | src/App.tsx:88 | two filters give the same result in either order |
| NoteLists.MatchingIsDayFilter | src/App.tsx:71-77 | the view holds exactly the notes whose day is the selected day, each as often as in `notes`; with no day selected the view is empty |
| NoteLists.MatchingAppend | src/App.tsx:237 | a note appended to `notes` appears at the end of its own day's view and leaves other days' views unchanged |
| NoteLists.WithoutIdRemovesExactlyId | src/App.tsx:87-89 | delete leaves no note with the id, and keeps every note with another id as often as it occurred |
| NoteLists.WithoutIdConcat | src/App.tsx:88 | delete keeps the remaining notes in their original order |
| NoteLists.WithoutAbsentId | src/App.tsx:88 | deleting an id no note has changes nothing; so deleting twice equals deleting once |
| NoteLists.MatchingWithoutId | src/App.tsx:87-89 | after a delete the day's view is the old view without that id, in the same order |
| NoteLists.SetCompletedById | src/App.tsx:91-101 | length and order are kept; notes with the id get the flag `checked`; their other fields and all other notes are unchanged |
| NoteLists.SetCompletedIdempotent | src/App.tsx:91-101 | setting the flag twice with the same arguments equals setting it once |
| NoteLists.MatchingSetCompleted | src/App.tsx:91-101 | after a completion change the day's view is the old view with the flag set the same way, in list order |
| PrioritySort.OrderAlternates | src/App.tsx:196-206 | the sort button applies "asc" on presses 0, 2, 4, … and "desc" on presses 1, 3, 5, … |
| PrioritySort.SortByPriorityIsStableSort | src/App.tsx:79-85 | the sorted view is a permutation of the view, in non-decreasing ("asc") or non-increasing ("desc") priority, with equal-priority notes in their prior relative order |
| PrioritySort.SortedTiesUnique | src/App.tsx:79-85 | two sorted sequences with the same notes of each priority in the same order are equal |
| PrioritySort.StableSortCharacterized | src/App.tsx:79-85 | a sequence is a stable sort of the view exactly when it equals SortByPriority, so every stable engine sort gives this result |
| PrioritySort.SortForgetsEarlierSort | src/App.tsx:79-85 | sorting an already sorted view gives the same result as sorting the unsorted view |
| PrioritySort.SortInPlace | src/App.tsx:81-83 | insertion sort in place with handleSort's comparator leaves the array equal to SortByPriority of its old contents |
| PrioritySort.SortedCopy | src/App.tsx:80-84 | sorting a copy of the view returns SortByPriority of the view |
| CreateDialog.SliderPriority | src/App.tsx:247-252 | slider position 0 gives priority 1, every other position gives itself, so every position 0..5 gives a priority in 1..5 |
| NoteCardView.ColourClasses | src/App.tsx:155-161 | a priority in 1..5 gets exactly one colour band, any other value gets none |
| NoteCardView.ColourShowsPriority | src/App.tsx:155-161 | every note gets one band, and two notes get the same band exactly when their priorities are equal |
| NoteCardView.ListAreaFor | src/App.tsx:123-136 | cards of the view exactly when the view is non-empty; otherwise "Loading..." exactly while loading and "Make new notes" exactly when not loading |
| NotesApp.NoteBoard.constructor | src/App.tsx:40-42 | the first render has no notes, an empty view and today selected; it also sets the Toolbar's "asc" as the next order (line 196) and the dialog's empty draft for today (lines 221-227) |
| NotesApp.NoteBoard.RecomputeView | src/App.tsx:71-77 | the view becomes the selected day's notes in `notes` order, and any earlier sort is discarded |
| NotesApp.NoteBoard.Load | src/App.tsx:59 | storing fetched notes sets `notes` and recomputes the view |
| NotesApp.NoteBoard.SelectDay | src/App.tsx:114-116 | a selected day becomes the day; the view is recomputed and the draft's day follows. Deselecting changes nothing |
| NotesApp.NoteBoard.PressSort | src/App.tsx:203-206 | the press applies the current `sortOrder`, which is "asc" on even presses. The view becomes its stable sort and the day's notes' stable sort. `sortOrder` flips. `notes`, the day and the draft are unchanged |
| NotesApp.NoteBoard.Delete | src/App.tsx:87-89 | `notes` loses every note with the id; the view is the old day's view without it, in list order |
| NotesApp.NoteBoard.SetCompleted | src/App.tsx:91-101 | `notes` gets the flag by id. The view is the old day's view in list order with the flag set, so an earlier sort is lost |
| NotesApp.NoteBoard.SetDraftTitle | src/App.tsx:264-269 | only the draft's title changes |
| NotesApp.NoteBoard.SetDraftDescription | src/App.tsx:271-276 | only the draft's description changes, and it is now present |
| NotesApp.NoteBoard.SetSliderValue | src/App.tsx:247-252 | the draft's priority becomes the slider's mapped value, always in 1..5 |
| NotesApp.NoteBoard.CreateNote | src/App.tsx:233-245 | an empty title changes nothing. Otherwise the draft is appended to `notes` and to the end of the view. The draft resets to an empty title, no description, priority 1, not completed, the selected day and the fresh id |

## Left out

- The initial fetch is not modelled: the GET request, the conversion of date strings, the `loading` and `error` flags and the error page (src/App.tsx:47-69, 103). These are network I/O. Only storing the fetched notes (`Load`) is modelled. `ListAreaFor` takes the loading flag as an input.
- src/lib/api-client.ts is not part of this model: it only configures the HTTP client.
- Creating a note and changing its completion flag only change the local list; the code sends no request for either, so there is no server state in the model.
- JSX layout, widget internals and styling other than the five colour bands are not modelled. Nor is the card's formatted date (src/App.tsx:165). These are UI and library behaviour.
- JavaScript `Date` and time zones are abstracted to a calendar `Day` with equality. The view compares days at exactly this granularity.
- The id generator from `./lib/utils` is not part of this model. Each fresh id is a parameter.
- React's effect scheduling and state batching are not modelled. Each handler is one atomic transition that includes the effects it triggers.
- The engine's own sort algorithm is not modelled. `SortInPlace` is an insertion sort. `StableSortCharacterized` shows that every stable sort gives the same result.
- NotesApp.NoteBoard.SetSliderValue: requires a slider position in 0..5. The slider's range (maximum 5, step 1, default minimum 0) guarantees this. The code's unchecked cast of other values is not modelled.
- NotesApp.NoteBoard.SelectDay: deselecting the day makes the handler throw a TypeError on the undefined day. The model treats this as "nothing changes" and does not model the console error.
