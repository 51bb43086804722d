/** The list transformations behind the App component's state updates:
    the day filter of the view, delete by id and the completion flag by id. */
module NoteLists {
  import opened NoteModel

  /** The array filter: the elements of `s` that `keep` accepts, in their order in `s`. */
  function Filter<T(==,!new)>(s: seq<T>, keep: T -> bool): (r: seq<T>)
    ensures |r| <= |s|
    ensures forall i :: 0 <= i < |r| ==> keep(r[i])
  {
    if s == [] then []
    else (if keep(s[0]) then [s[0]] else []) + Filter(s[1..], keep)
  }

  /** The filter drops only rejected elements: every accepted element keeps its
      number of occurrences, and nothing new appears. */
  lemma {:induction false} FilterMultiset<T(!new)>(s: seq<T>, keep: T -> bool)
    ensures multiset(Filter(s, keep)) <= multiset(s)
    ensures forall x :: keep(x) ==> multiset(Filter(s, keep))[x] == multiset(s)[x]
    decreases |s|
  {
    if s != [] {
      assert s == [s[0]] + s[1..];
      FilterMultiset(s[1..], keep);
    }
  }

  /** Filtering a concatenation filters each part and keeps the parts in order. */
  lemma {:induction false} FilterConcat<T(!new)>(a: seq<T>, b: seq<T>, keep: T -> bool)
    ensures Filter(a + b, keep) == Filter(a, keep) + Filter(b, keep)
    decreases |a|
  {
    if a == [] {
      assert a + b == b;
    } else {
      assert (a + b)[0] == a[0];
      assert (a + b)[1..] == a[1..] + b;
      FilterConcat(a[1..], b, keep);
    }
  }

  /** Filtering one element keeps it exactly when the filter accepts it. */
  lemma FilterSingleton<T(!new)>(x: T, keep: T -> bool)
    ensures Filter([x], keep) == if keep(x) then [x] else []
  {
    assert [x][1..] == [];
  }

  /** A filter that accepts every element returns the sequence unchanged. */
  lemma {:induction false} FilterKeepsAll<T(!new)>(s: seq<T>, keep: T -> bool)
    requires forall i :: 0 <= i < |s| ==> keep(s[i])
    ensures Filter(s, keep) == s
    decreases |s|
  {
    if s != [] {
      FilterKeepsAll(s[1..], keep);
    }
  }

  /** Two filters can be applied in either order. */
  lemma {:induction false} FilterCommutes<T(!new)>(s: seq<T>, p: T -> bool, q: T -> bool)
    ensures Filter(Filter(s, p), q) == Filter(Filter(s, q), p)
    decreases |s|
  {
    if s != [] {
      var x, rest := s[0], s[1..];
      var px := if p(x) then [x] else [];
      var qx := if q(x) then [x] else [];
      FilterConcat(px, Filter(rest, p), q);
      FilterConcat(qx, Filter(rest, q), p);
      FilterCommutes(rest, p, q);
      if p(x) {
        assert px[1..] == [];
      }
      if q(x) {
        assert qx[1..] == [];
      }
    }
  }

  /** The filter of the view: the note's calendar day equals the selected one.
      With no day selected the comparison is against an undefined string, so nothing matches. */
  function OnDay(day: Option<Day>): Note -> bool
  {
    (n: Note) => Some(n.date) == day
  }

  /** The view of one day: the notes whose day is the selected day, in list order. */
  function Matching(notes: seq<Note>, day: Option<Day>): seq<Note>
  {
    Filter(notes, OnDay(day))
  }

  /** The view holds exactly the notes of the selected day, each as often as in the
      list, and nothing when no day is selected. */
  lemma MatchingIsDayFilter(notes: seq<Note>, day: Option<Day>)
    ensures day.None? ==> Matching(notes, day) == []
    ensures forall i :: 0 <= i < |Matching(notes, day)| ==> Some(Matching(notes, day)[i].date) == day
    ensures forall n :: n in Matching(notes, day) <==> n in notes && Some(n.date) == day
    ensures forall n: Note :: Some(n.date) == day ==> multiset(Matching(notes, day))[n] == multiset(notes)[n]
  {
    var view := Matching(notes, day);
    FilterMultiset(notes, OnDay(day));
    assert forall n :: OnDay(day)(n) == (Some(n.date) == day);
    assert forall n :: n in view ==> n in multiset(notes);
    assert forall n :: n in notes && Some(n.date) == day ==> multiset(view)[n] > 0;
  }

  /** A note appended to the list appears at the end of the view of its own day
      and leaves the view of any other day as it was. */
  lemma MatchingAppend(notes: seq<Note>, n: Note, day: Option<Day>)
    ensures Matching(notes + [n], day) == Matching(notes, day) + (if Some(n.date) == day then [n] else [])
  {
    FilterConcat(notes, [n], OnDay(day));
    assert [n][1..] == [];
  }

  /** The filter of delete: the note's id differs from the deleted one. */
  function IdOtherThan(id: string): Note -> bool
  {
    (n: Note) => n.id != id
  }

  /** handleDelete's filter: the notes whose id differs from the deleted note's. */
  function WithoutId(notes: seq<Note>, id: string): seq<Note>
  {
    Filter(notes, IdOtherThan(id))
  }

  /** Delete removes every note with the id and keeps every other note, as often as it occurs. */
  lemma WithoutIdRemovesExactlyId(notes: seq<Note>, id: string)
    ensures forall i :: 0 <= i < |WithoutId(notes, id)| ==> WithoutId(notes, id)[i].id != id
    ensures forall n: Note :: n.id != id ==> multiset(WithoutId(notes, id))[n] == multiset(notes)[n]
    ensures multiset(WithoutId(notes, id)) <= multiset(notes)
  {
    FilterMultiset(notes, IdOtherThan(id));
  }

  /** Delete keeps the order of the remaining notes: deleting from a concatenation
      deletes from each part. */
  lemma WithoutIdConcat(a: seq<Note>, b: seq<Note>, id: string)
    ensures WithoutId(a + b, id) == WithoutId(a, id) + WithoutId(b, id)
  {
    FilterConcat(a, b, IdOtherThan(id));
  }

  /** Deleting an id that no note carries leaves the list as it was; in particular,
      deleting twice is deleting once. */
  lemma WithoutAbsentId(notes: seq<Note>, id: string)
    requires forall i :: 0 <= i < |notes| ==> notes[i].id != id
    ensures WithoutId(notes, id) == notes
  {
    FilterKeepsAll(notes, IdOtherThan(id));
  }

  /** The view after a delete is the old view without the deleted note, in the same order. */
  lemma MatchingWithoutId(notes: seq<Note>, day: Option<Day>, id: string)
    ensures Matching(WithoutId(notes, id), day) == WithoutId(Matching(notes, day), id)
  {
    FilterCommutes(notes, IdOtherThan(id), OnDay(day));
  }

  /** handleCompleted's map: each note with the id gets the flag `checked`,
      the list keeps its length and order, the other fields and the other notes are unchanged. */
  function SetCompletedById(notes: seq<Note>, checked: bool, id: string): (r: seq<Note>)
    ensures |r| == |notes|
    ensures forall i :: 0 <= i < |r| ==> r[i] == notes[i].(isCompleted := r[i].isCompleted)
    ensures forall i :: 0 <= i < |r| && notes[i].id == id ==> r[i].isCompleted == checked
    ensures forall i :: 0 <= i < |r| && notes[i].id != id ==> r[i] == notes[i]
  {
    if notes == [] then []
    else
      var n := notes[0];
      [if n.id == id then n.(isCompleted := checked) else n]
        + SetCompletedById(notes[1..], checked, id)
  }

  /** Setting the flag twice with the same arguments is setting it once. */
  lemma SetCompletedIdempotent(notes: seq<Note>, checked: bool, id: string)
    ensures SetCompletedById(SetCompletedById(notes, checked, id), checked, id)
         == SetCompletedById(notes, checked, id)
  {
    var once := SetCompletedById(notes, checked, id);
    var twice := SetCompletedById(once, checked, id);
    assert |twice| == |once|;
    forall i | 0 <= i < |once| ensures twice[i] == once[i] {
      assert once[i].id == notes[i].id;
    }
  }

  /** Setting the flag on a concatenation sets it on each part. */
  lemma SetCompletedConcat(a: seq<Note>, b: seq<Note>, checked: bool, id: string)
    ensures SetCompletedById(a + b, checked, id)
         == SetCompletedById(a, checked, id) + SetCompletedById(b, checked, id)
  {
    var whole := SetCompletedById(a + b, checked, id);
    var parts := SetCompletedById(a, checked, id) + SetCompletedById(b, checked, id);
    forall i | 0 <= i < |whole| ensures whole[i] == parts[i] {
      if i >= |a| {
        assert (a + b)[i] == b[i - |a|];
      }
    }
  }

  /** The view after a completion change is the old day's view with the flag set
      the same way, in list order: the change does not move notes between days. */
  lemma {:induction false} MatchingSetCompleted(notes: seq<Note>, day: Option<Day>, checked: bool, id: string)
    ensures Matching(SetCompletedById(notes, checked, id), day)
         == SetCompletedById(Matching(notes, day), checked, id)
    decreases |notes|
  {
    if notes != [] {
      var n, rest := notes[0], notes[1..];
      var m := if n.id == id then n.(isCompleted := checked) else n;
      var after := SetCompletedById(notes, checked, id);
      var restAfter := SetCompletedById(rest, checked, id);
      assert after[0] == m;
      assert after[1..] == restAfter;
      var keptRest := Filter(rest, OnDay(day));
      var nv := if Some(n.date) == day then [n] else [];
      var mv := if Some(m.date) == day then [m] else [];
      assert Filter(after, OnDay(day)) == mv + Filter(restAfter, OnDay(day));
      assert Filter(notes, OnDay(day)) == nv + keptRest;
      MatchingSetCompleted(rest, day, checked, id);
      SetCompletedConcat(nv, keptRest, checked, id);
      assert SetCompletedById(nv, checked, id) == mv;
    }
  }
}
