/** The record the notes application keeps for each note (src/App.tsx, type `Note`). */
module NoteModel {

  /** An optional value: a note's optional description, and the calendar's possibly undefined selection. */
  datatype Option<T> = None | Some(value: T)

  /** A calendar day. The date strings the view compares have this granularity,
      so two dates are "the same day" exactly when their days are equal. */
  datatype Day = Day(year: int, month: int, dayOfMonth: int)

  /** The note priorities 1 to 5. */
  type Priority = p: int | 1 <= p <= 5 witness 1

  /** A note: id, title, optional description, calendar day, priority and completion flag. */
  datatype Note = Note(
    id: string,
    title: string,
    description: Option<string>,
    date: Day,
    priority: Priority,
    isCompleted: bool)
}
