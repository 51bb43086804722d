/** The state of the notes page and its event handlers: the App component's `notes`,
    `filteredNotes` and selected `date`, the Toolbar's `sortOrder` and the CreateDialog's
    draft `note`. Each handler is one atomic transition that also runs the effects its
    state change triggers (the view recomputation, the draft's day). */
module NotesApp {
  import opened NoteModel
  import opened NoteLists
  import opened PrioritySort
  import opened CreateDialog

  class NoteBoard {
    /** Every note of the session, in list order. */
    var notes: seq<Note>
    /** The view: the selected day's notes, possibly sorted by the last sort press. */
    var filtered: seq<Note>
    /** The calendar's selection. */
    var day: Option<Day>
    /** The direction the next sort press applies. */
    var sortOrder: Order
    /** The create dialog's draft. */
    var draft: Note

    /** How many times the sort button has been pressed. */
    ghost var sortPresses: nat
    /** The direction of the sort applied to the view since it was last recomputed, if any. */
    ghost var appliedOrder: Option<Order>
    /** The selected day's notes in list order, the view before any sort. */
    ghost var dayView: seq<Note>

    ghost predicate Valid()
      reads this
    {
      && day.Some?
      && draft.date == day.value
      && sortOrder == OrderAtPress(sortPresses)
      && dayView == Matching(notes, day)
      && filtered == match appliedOrder
                     case None => dayView
                     case Some(order) => SortByPriority(dayView, order)
    }

    /** The page as first rendered: no notes, today selected, "asc" next, a fresh draft. */
    constructor (today: Day, freshId: string)
      ensures Valid()
      ensures notes == [] && filtered == [] && day == Some(today)
      ensures sortOrder == Asc && sortPresses == 0
      ensures draft == EmptyDraft(today, freshId)
    {
      notes := [];
      filtered := [];
      day := Some(today);
      sortOrder := Asc;
      draft := EmptyDraft(today, freshId);
      sortPresses := 0;
      appliedOrder := None;
      dayView := [];
    }

    /** The effect that recomputes the view from `notes` whenever the notes or the day change. */
    method RecomputeView()
      modifies this`filtered, this`appliedOrder, this`dayView
      ensures filtered == Matching(notes, day)
      ensures dayView == filtered && appliedOrder == None
    {
      filtered := Matching(notes, day);
      dayView := filtered;
      appliedOrder := None;
    }

    /** Storing the notes of a successful fetch; the fetch itself is not modelled. */
    method Load(fetched: seq<Note>)
      requires Valid()
      modifies this
      ensures Valid()
      ensures notes == fetched && filtered == Matching(fetched, day)
      ensures day == old(day) && draft == old(draft)
      ensures sortOrder == old(sortOrder) && sortPresses == old(sortPresses)
    {
      notes := fetched;
      RecomputeView();
    }

    /** The calendar's selection handler. Deselecting (an undefined day) makes the
        handler throw when it reads the time of the day, so nothing changes; otherwise the day is set,
        the view is recomputed and the draft follows the new day. */
    method SelectDay(selected: Option<Day>) returns (accepted: bool)
      requires Valid()
      modifies this
      ensures Valid()
      ensures accepted <==> selected.Some?
      ensures !accepted ==> unchanged(this)
      ensures accepted ==> day == selected && filtered == Matching(notes, selected)
      ensures accepted ==> draft == old(draft).(date := selected.value)
      ensures notes == old(notes) && sortOrder == old(sortOrder) && sortPresses == old(sortPresses)
    {
      if selected.None? {
        return false;
      }
      day := selected;
      draft := draft.(date := selected.value);
      RecomputeView();
      accepted := true;
    }

    /** The Toolbar's sort button: handleSort sorts a copy of the view in the direction
        `sortOrder`, then `sortOrder` flips. */
    method PressSort()
      requires Valid()
      modifies this
      ensures Valid()
      ensures old(sortOrder) == if old(sortPresses) % 2 == 0 then Asc else Desc
      ensures filtered == SortByPriority(old(filtered), old(sortOrder))
      ensures IsStableSortOf(filtered, Matching(notes, day), old(sortOrder))
      ensures sortOrder == Flip(old(sortOrder)) && sortPresses == old(sortPresses) + 1
      ensures notes == old(notes) && day == old(day) && draft == old(draft)
    {
      OrderAlternates(sortPresses);
      var order := sortOrder;
      var sorted := SortedCopy(filtered, order);
      if appliedOrder.Some? {
        SortForgetsEarlierSort(dayView, appliedOrder.value, order);
      }
      SortByPriorityIsStableSort(dayView, order);
      filtered := sorted;
      appliedOrder := Some(order);
      sortOrder := Flip(order);
      sortPresses := sortPresses + 1;
    }

    /** handleDelete: drops every note with the note's id; the view is recomputed,
        so it is the old day's notes without that id, in list order. */
    method Delete(note: Note)
      requires Valid()
      modifies this
      ensures Valid()
      ensures notes == WithoutId(old(notes), note.id)
      ensures filtered == WithoutId(Matching(old(notes), day), note.id)
      ensures day == old(day) && draft == old(draft)
      ensures sortOrder == old(sortOrder) && sortPresses == old(sortPresses)
    {
      MatchingWithoutId(notes, day, note.id);
      notes := WithoutId(notes, note.id);
      RecomputeView();
    }

    /** handleCompleted: sets the flag of the notes with that id; the
        view is recomputed, so an earlier sort of the view is lost. */
    method SetCompleted(checked: bool, noteId: string)
      requires Valid()
      modifies this
      ensures Valid()
      ensures notes == SetCompletedById(old(notes), checked, noteId)
      ensures filtered == SetCompletedById(Matching(old(notes), day), checked, noteId)
      ensures day == old(day) && draft == old(draft)
      ensures sortOrder == old(sortOrder) && sortPresses == old(sortPresses)
    {
      MatchingSetCompleted(notes, day, checked, noteId);
      notes := SetCompletedById(notes, checked, noteId);
      RecomputeView();
    }

    /** The title input's change handler. */
    method SetDraftTitle(title: string)
      requires Valid()
      modifies this`draft
      ensures Valid()
      ensures draft == old(draft).(title := title)
    {
      draft := draft.(title := title);
    }

    /** The description input's change handler. */
    method SetDraftDescription(description: string)
      requires Valid()
      modifies this`draft
      ensures Valid()
      ensures draft == old(draft).(description := Some(description))
    {
      draft := draft.(description := Some(description));
    }

    /** setSliderValue: the slider reports one thumb position in 0..5. */
    method SetSliderValue(v: seq<int>)
      requires Valid()
      requires |v| > 0 && SliderMin <= v[0] <= SliderMax
      modifies this`draft
      ensures Valid()
      ensures draft == old(draft).(priority := SliderPriority(v))
      ensures 1 <= draft.priority <= 5
    {
      draft := draft.(priority := SliderPriority(v));
    }

    /** createNote: an empty title changes nothing; otherwise the draft is appended to
        the notes (and so to the end of the view of its day, the selected one) and a new
        empty draft with a fresh id replaces it. */
    method CreateNote(freshId: string) returns (created: bool)
      requires Valid()
      modifies this
      ensures Valid()
      ensures created <==> old(draft).title != ""
      ensures !created ==> unchanged(this)
      ensures created ==> notes == old(notes) + [old(draft)]
      ensures created ==> filtered == Matching(old(notes), day) + [old(draft)]
      ensures created ==> draft == EmptyDraft(day.value, freshId)
      ensures day == old(day) && sortOrder == old(sortOrder) && sortPresses == old(sortPresses)
    {
      if draft.title == "" {
        return false;
      }
      MatchingAppend(notes, draft, day);
      notes := notes + [draft];
      draft := EmptyDraft(day.value, freshId);
      RecomputeView();
      created := true;
    }
  }
}
