/** The NoteCard's priority colour and the App's choice of what the list area shows. */
module NoteCardView {
  import opened NoteModel

  const Band5 := "border-[#b10f2e] text-[#b10f2e]"
  const Band4 := "border-[#ec7505] text-[#ec7505]"
  const Band3 := "border-[#fcba04] text-[#fcba04]"
  const Band2 := "border-[#43aa8b] text-[#43aa8b]"
  const Band1 := "border-[#7ddf64] text-[#7ddf64]"

  /** The conditional colour classes of a card: each band's classes when the
      note's priority is that band's. */
  function ColourClasses(priority: int): (classes: seq<string>)
    ensures |classes| == if 1 <= priority <= 5 then 1 else 0
  {
    (if priority == 5 then [Band5] else [])
    + (if priority == 4 then [Band4] else [])
    + (if priority == 3 then [Band3] else [])
    + (if priority == 2 then [Band2] else [])
    + (if priority == 1 then [Band1] else [])
  }

  /** Every note gets exactly one colour band, and notes of different priorities get
      different bands, so the colour shows the priority. */
  lemma ColourShowsPriority(a: Note, b: Note)
    ensures |ColourClasses(a.priority)| == 1
    ensures ColourClasses(a.priority) == ColourClasses(b.priority) <==> a.priority == b.priority
  {
    var bands := [Band1, Band2, Band3, Band4, Band5];
    assert bands[0][9] == '7' && bands[1][9] == '4' && bands[2][9] == 'f';
    assert bands[3][9] == 'e' && bands[4][9] == 'b';
    assert ColourClasses(a.priority) == [bands[a.priority - 1]];
    assert ColourClasses(b.priority) == [bands[b.priority - 1]];
    if ColourClasses(a.priority) == ColourClasses(b.priority) {
      assert bands[a.priority - 1][9] == bands[b.priority - 1][9];
    }
  }

  /** What the list area shows: the cards of the view, or "Loading..." or "Make new notes". */
  datatype ListArea = Cards(notes: seq<Note>) | LoadingMessage | MakeNewNotesMessage

  /** The cards when the view has notes; otherwise the loading text while the fetch
      runs, and the prompt to make notes when it does not. */
  function ListAreaFor(filtered: seq<Note>, loading: bool): (area: ListArea)
    ensures area.Cards? <==> |filtered| > 0
    ensures area.Cards? ==> area.notes == filtered
    ensures area == LoadingMessage <==> |filtered| == 0 && loading
    ensures area == MakeNewNotesMessage <==> |filtered| == 0 && !loading
  {
    if |filtered| > 0 then Cards(filtered)
    else if loading then LoadingMessage
    else MakeNewNotesMessage
  }
}
