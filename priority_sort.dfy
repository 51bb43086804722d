/** Sorting the day's view by priority (App's `handleSort`) and the Toolbar's
    alternating sort direction. The view is copied and sorted with a stable sort
    (ECMAScript 2019 and later require the array sort to be stable), so the
    result is THE stable sort of the view by priority, whatever algorithm the engine uses. */
module PrioritySort {
  import opened NoteModel
  import opened NoteLists

  /** The Toolbar's sort direction, "asc" or "desc". */
  datatype Order = Asc | Desc

  /** The toggle after each press: "asc" becomes "desc" and "desc" becomes "asc". */
  function Flip(order: Order): Order
  {
    if order == Asc then Desc else Asc
  }

  /** The direction the sort button applies on its press number `presses` (counted from 0):
      `sortOrder` starts at "asc" and is flipped after every press. */
  function OrderAtPress(presses: nat): Order
  {
    if presses == 0 then Asc else Flip(OrderAtPress(presses - 1))
  }

  /** The first press sorts ascending, then the presses alternate. */
  lemma {:induction false} OrderAlternates(presses: nat)
    ensures OrderAtPress(presses) == if presses % 2 == 0 then Asc else Desc
  {
    if presses > 0 {
      OrderAlternates(presses - 1);
    }
  }

  /** The comparator of handleSort: the difference of the priorities, first minus second
      for "asc" and second minus first for "desc"; a positive value puts `b` before `a`. */
  function Compare(a: Note, b: Note, order: Order): int
  {
    if order == Asc then a.priority - b.priority else b.priority - a.priority
  }

  /** No pair of notes is out of order: non-decreasing priority for Asc, non-increasing for Desc. */
  ghost predicate Sorted(s: seq<Note>, order: Order)
  {
    forall i, j :: 0 <= i < j < |s| ==> Compare(s[i], s[j], order) <= 0
  }

  function HasPriority(k: int): Note -> bool
  {
    (n: Note) => n.priority == k
  }

  /** The notes of priority `k`, in their order in `s`. */
  function WithPriority(s: seq<Note>, k: int): seq<Note>
  {
    Filter(s, HasPriority(k))
  }

  /** Notes of equal priority appear in `r` in the same relative order as in `s`. */
  ghost predicate TiesInOrder(r: seq<Note>, s: seq<Note>)
  {
    forall k :: WithPriority(r, k) == WithPriority(s, k)
  }

  /** What a stable sort of `s` by `order` promises of its result `r`. */
  ghost predicate IsStableSortOf(r: seq<Note>, s: seq<Note>, order: Order)
  {
    && multiset(r) == multiset(s)
    && Sorted(r, order)
    && TiesInOrder(r, s)
  }

  /** Inserting `x` after the sorted prefix, moving it left past every element that
      the comparator puts after it, as insertion sort does. */
  function Insert(sorted: seq<Note>, x: Note, order: Order): (r: seq<Note>)
    ensures |r| == |sorted| + 1
    decreases |sorted|
  {
    if sorted == [] || Compare(sorted[|sorted| - 1], x, order) <= 0 then sorted + [x]
    else
      var n := |sorted| - 1;
      Insert(sorted[..n], x, order) + [sorted[n]]
  }

  /** The stable sort of the view by priority, as insertion sort computes it. */
  function SortByPriority(view: seq<Note>, order: Order): (r: seq<Note>)
    ensures |r| == |view|
  {
    if view == [] then []
    else
      var n := |view| - 1;
      Insert(SortByPriority(view[..n], order), view[n], order)
  }

  /** Insert adds exactly `x` to the notes of `sorted`. */
  lemma {:induction false} InsertMultiset(sorted: seq<Note>, x: Note, order: Order)
    ensures multiset(Insert(sorted, x, order)) == multiset(sorted) + multiset{x}
    decreases |sorted|
  {
    if !(sorted == [] || Compare(sorted[|sorted| - 1], x, order) <= 0) {
      var n := |sorted| - 1;
      assert sorted == sorted[..n] + [sorted[n]];
      InsertMultiset(sorted[..n], x, order);
    }
  }

  /** Insert puts `x` right after the last note of `p` that does not go after it:
      when exactly the notes from position `j` on go after `x`, `x` lands at `j`. */
  lemma {:induction false} InsertPosition(p: seq<Note>, j: nat, x: Note, order: Order)
    requires j <= |p|
    requires forall k :: j <= k < |p| ==> Compare(p[k], x, order) > 0
    requires j == 0 || Compare(p[j - 1], x, order) <= 0
    ensures Insert(p, x, order) == p[..j] + [x] + p[j..]
    decreases |p|
  {
    if j < |p| {
      var n := |p| - 1;
      var init := p[..n];
      assert init[..j] == p[..j];
      if j > 0 {
        assert init[j - 1] == p[j - 1];
      }
      InsertPosition(init, j, x, order);
      assert p[j..] == init[j..] + [p[n]];
    }
  }

  lemma SortedAppend(s: seq<Note>, y: Note, order: Order)
    requires Sorted(s, order)
    requires forall i :: 0 <= i < |s| ==> Compare(s[i], y, order) <= 0
    ensures Sorted(s + [y], order)
  {
    var r := s + [y];
    forall i, j | 0 <= i < j < |r| ensures Compare(r[i], r[j], order) <= 0 {
      if j == |s| {
        assert r[i] == s[i];
      } else {
        assert r[i] == s[i] && r[j] == s[j];
      }
    }
  }

  /** Inserting into a sorted sequence keeps it sorted. */
  lemma {:induction false} InsertSorted(s: seq<Note>, x: Note, order: Order)
    requires Sorted(s, order)
    ensures Sorted(Insert(s, x, order), order)
    decreases |s|
  {
    if s == [] || Compare(s[|s| - 1], x, order) <= 0 {
      forall i | 0 <= i < |s| ensures Compare(s[i], x, order) <= 0 {
        if i < |s| - 1 {
          assert Compare(s[i], s[|s| - 1], order) <= 0;
        }
      }
      SortedAppend(s, x, order);
    } else {
      var n := |s| - 1;
      var init := s[..n];
      assert Sorted(init, order) by {
        forall i, j | 0 <= i < j < |init| ensures Compare(init[i], init[j], order) <= 0 {
          assert init[i] == s[i] && init[j] == s[j];
        }
      }
      InsertSorted(init, x, order);
      var head := Insert(init, x, order);
      InsertMultiset(init, x, order);
      forall i | 0 <= i < |head| ensures Compare(head[i], s[n], order) <= 0 {
        assert head[i] in multiset(head);
        if head[i] != x {
          assert head[i] in multiset(init);
          var m :| 0 <= m < |init| && init[m] == head[i];
          assert s[m] == head[i];
        }
      }
      SortedAppend(head, s[n], order);
    }
  }

  /** Insert passes `x` only over notes of other priorities, so the notes of each
      priority keep their order and `x` comes after those of its own priority. */
  lemma {:induction false} InsertKeepsTies(s: seq<Note>, x: Note, order: Order, k: int)
    ensures WithPriority(Insert(s, x, order), k) == WithPriority(s, k) + WithPriority([x], k)
    decreases |s|
  {
    var keep := HasPriority(k);
    if s == [] || Compare(s[|s| - 1], x, order) <= 0 {
      FilterConcat(s, [x], keep);
    } else {
      var n := |s| - 1;
      var init, y := s[..n], s[n];
      var head := Insert(init, x, order);
      assert Insert(s, x, order) == head + [y];
      InsertKeepsTies(init, x, order, k);
      var fx, fy := Filter([x], keep), Filter([y], keep);
      assert Filter(head, keep) == Filter(init, keep) + fx;
      FilterConcat(head, [y], keep);
      assert Filter(head + [y], keep) == Filter(init, keep) + fx + fy;
      assert s == init + [y];
      FilterConcat(init, [y], keep);
      assert Filter(s, keep) == Filter(init, keep) + fy;
      FilterSingleton(x, keep);
      FilterSingleton(y, keep);
      assert fx == [] || fy == [];
    }
  }

  /** SortByPriority is a stable sort: a permutation of the view, ordered by the
      comparator, with equal-priority notes in their prior relative order. */
  lemma {:induction false} SortByPriorityIsStableSort(view: seq<Note>, order: Order)
    ensures IsStableSortOf(SortByPriority(view, order), view, order)
    decreases |view|
  {
    if view != [] {
      var n := |view| - 1;
      var init, last := view[..n], view[n];
      assert view == init + [last];
      SortByPriorityIsStableSort(init, order);
      InsertMultiset(SortByPriority(init, order), last, order);
      InsertSorted(SortByPriority(init, order), last, order);
      forall k ensures WithPriority(SortByPriority(view, order), k) == WithPriority(view, k) {
        InsertKeepsTies(SortByPriority(init, order), last, order, k);
        FilterConcat(init, [last], HasPriority(k));
      }
    }
  }

  /** The notes of one priority start with the first note when it has that priority,
      and skip it otherwise. */
  lemma WithPriorityCons(r: seq<Note>, k: int)
    requires r != []
    ensures WithPriority(r, k) == (if r[0].priority == k then [r[0]] else []) + WithPriority(r[1..], k)
  {
  }

  /** In a sorted sequence the first note goes no later than any note it contains. */
  lemma SortedFirstComesFirst(r: seq<Note>, n: Note, order: Order)
    requires Sorted(r, order)
    requires n in multiset(r)
    ensures Compare(r[0], n, order) <= 0
  {
    var j :| 0 <= j < |r| && r[j] == n;
    if j > 0 {
      assert Compare(r[0], r[j], order) <= 0;
    }
  }

  lemma SortedTail(r: seq<Note>, order: Order)
    requires Sorted(r, order) && r != []
    ensures Sorted(r[1..], order)
  {
    var t := r[1..];
    forall i, j | 0 <= i < j < |t| ensures Compare(t[i], t[j], order) <= 0 {
      assert t[i] == r[i + 1] && t[j] == r[j + 1];
    }
  }

  /** The first note of `r1` occurs in `r2`, when both have the same notes of its priority. */
  lemma FirstOccursIn(r1: seq<Note>, r2: seq<Note>)
    requires r1 != []
    requires WithPriority(r1, r1[0].priority) == WithPriority(r2, r1[0].priority)
    ensures r1[0] in multiset(r2)
  {
    var k := r1[0].priority;
    WithPriorityCons(r1, k);
    FilterMultiset(r2, HasPriority(k));
    assert r1[0] in multiset(WithPriority(r2, k));
  }

  /** Two sequences that are both sorted and have the same notes of every priority
      in the same order are equal. */
  lemma {:induction false} SortedTiesUnique(r1: seq<Note>, r2: seq<Note>, order: Order)
    requires Sorted(r1, order) && Sorted(r2, order)
    requires TiesInOrder(r1, r2)
    ensures r1 == r2
    decreases |r1|
  {
    if r1 != [] && r2 == [] {
      WithPriorityCons(r1, r1[0].priority);
      assert false;
    } else if r1 == [] && r2 != [] {
      WithPriorityCons(r2, r2[0].priority);
      assert false;
    } else if r1 != [] {
      var a, b := r1[0], r2[0];
      FirstOccursIn(r1, r2);
      SortedFirstComesFirst(r2, a, order);
      FirstOccursIn(r2, r1);
      SortedFirstComesFirst(r1, b, order);
      assert a.priority == b.priority;
      WithPriorityCons(r1, a.priority);
      WithPriorityCons(r2, a.priority);
      assert WithPriority(r1, a.priority) == WithPriority(r2, a.priority);
      assert a == WithPriority(r1, a.priority)[0] == WithPriority(r2, a.priority)[0] == b;
      var t1, t2 := r1[1..], r2[1..];
      forall k ensures WithPriority(t1, k) == WithPriority(t2, k) {
        WithPriorityCons(r1, k);
        WithPriorityCons(r2, k);
        var h := if a.priority == k then [a] else [];
        assert WithPriority(t1, k) == (h + WithPriority(t1, k))[|h|..];
        assert WithPriority(t2, k) == (h + WithPriority(t2, k))[|h|..];
      }
      SortedTail(r1, order);
      SortedTail(r2, order);
      SortedTiesUnique(t1, t2, order);
      assert r1 == [a] + t1 && r2 == [b] + t2;
    }
  }

  /** The stable sort is unique: a sequence is a stable sort of the view by `order`
      exactly when it is SortByPriority(view, order). */
  lemma StableSortCharacterized(view: seq<Note>, r: seq<Note>, order: Order)
    ensures IsStableSortOf(r, view, order) <==> r == SortByPriority(view, order)
  {
    SortByPriorityIsStableSort(view, order);
    if IsStableSortOf(r, view, order) {
      SortedTiesUnique(r, SortByPriority(view, order), order);
    }
  }

  /** Sorting an already sorted view forgets the earlier sort: the result depends only on
      the view's notes in their list order and on the direction of the last press. */
  lemma SortForgetsEarlierSort(view: seq<Note>, first: Order, second: Order)
    ensures SortByPriority(SortByPriority(view, first), second) == SortByPriority(view, second)
  {
    var once := SortByPriority(view, first);
    var twice := SortByPriority(once, second);
    SortByPriorityIsStableSort(view, first);
    SortByPriorityIsStableSort(once, second);
    StableSortCharacterized(view, twice, second);
  }

  /** One step of insertion sort: moves `a[i]` left into the sorted prefix `a[..i]`. */
  method InsertInPlace(a: array<Note>, i: nat, order: Order)
    requires i < a.Length
    modifies a
    ensures a[..i + 1] == Insert(old(a[..i]), old(a[i]), order)
    ensures a[i + 1..] == old(a[i + 1..])
  {
    var x := a[i];
    ghost var prefix := a[..i];
    var j := i;
    while j > 0 && Compare(a[j - 1], x, order) > 0
      invariant 0 <= j <= i
      invariant forall k :: 0 <= k < j ==> a[k] == prefix[k]
      invariant forall k :: j < k <= i ==> a[k] == prefix[k - 1]
      invariant forall k :: i < k < a.Length ==> a[k] == old(a[k])
      invariant forall k :: j <= k < i ==> Compare(prefix[k], x, order) > 0
    {
      a[j] := a[j - 1];
      j := j - 1;
    }
    a[j] := x;
    InsertPosition(prefix, j, x, order);
    assert a[..i + 1] == prefix[..j] + [x] + prefix[j..] by {
      forall k | 0 <= k <= i ensures a[..i + 1][k] == (prefix[..j] + [x] + prefix[j..])[k] {
        if k > j {
          assert (prefix[..j] + [x] + prefix[j..])[k] == prefix[k - 1];
        }
      }
    }
    assert a[i + 1..] == old(a[i + 1..]);
  }

  /** Insertion sort in place on an array, with the comparator of handleSort. */
  method SortInPlace(a: array<Note>, order: Order)
    modifies a
    ensures a[..] == SortByPriority(old(a[..]), order)
  {
    ghost var s := a[..];
    var i := 0;
    while i < a.Length
      invariant 0 <= i <= a.Length
      invariant a[..i] == SortByPriority(s[..i], order)
      invariant a[i..] == s[i..]
    {
      assert a[i] == s[i];
      InsertInPlace(a, i, order);
      assert s[..i + 1][..i] == s[..i];
      i := i + 1;
    }
    assert a[..] == a[..a.Length] && s == s[..a.Length];
  }

  /** handleSort's update: sorts a copy of the view in place and returns it. */
  method SortedCopy(view: seq<Note>, order: Order) returns (sorted: seq<Note>)
    ensures sorted == SortByPriority(view, order)
  {
    var a := new Note[|view|](i requires 0 <= i < |view| => view[i]);
    assert a[..] == view;
    SortInPlace(a, order);
    sorted := a[..];
  }
}
