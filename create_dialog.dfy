/** The pure parts of the CreateDialog component: its empty draft and the
    priority slider's value mapping. */
module CreateDialog {
  import opened NoteModel

  /** The slider's range: maximum 5 in steps of 1, from the widget's default minimum 0. */
  const SliderMin := 0
  const SliderMax := 5

  /** A fresh draft: empty title, no description, priority 1, not completed,
      the selected day and a freshly generated id. */
  function EmptyDraft(day: Day, freshId: string): Note
  {
    Note(freshId, "", None, day, 1, false)
  }

  /** The priority the slider's first thumb position stands for: the leftmost position
      still means priority 1, every other position is taken as the priority itself.
      Every position the slider can report therefore gives a priority in 1..5. */
  function SliderPriority(v: seq<int>): (p: int)
    requires |v| > 0
    ensures SliderMin <= v[0] <= SliderMax ==> 1 <= p <= 5
    ensures v[0] != SliderMin ==> p == v[0]
    ensures v[0] == SliderMin ==> p == 1
  {
    if v[0] == 0 then 1 else v[0]
  }
}
