/** The two cursors of the interface: a list of items with an optional
    selection (profiles, recipes), and a fixed, non-empty set of values with
    exactly one selected (panes, tabs). Both cycle: moving past the end
    wraps to the start and back. */
module Selection {
  import opened Wrappers

  /** Adding one modulo the length wraps the last index to the first. */
  lemma Wrap(i: nat, len: nat)
    requires i < len
    ensures (i + 1) % len == if i + 1 == len then 0 else i + 1
  {
  }

  // ---------------------------------------------------------------------
  // Lists with an optional selection

  /** A list of items and the index of the selected one, if any. */
  datatype StatefulList<T> = StatefulList(items: seq<T>, selected: Option<nat>)

  /** The selection, if any, points at an item. */
  predicate ValidList<T>(l: StatefulList<T>) {
    l.selected.Some? ==> l.selected.value < |l.items|
  }

  /** A new list, with its first item selected when there is one. */
  function WithItems<T>(items: seq<T>): (l: StatefulList<T>)
    ensures l.items == items
    ensures l.selected.Some? <==> |items| > 0
    ensures l.selected.Some? ==> l.selected.value == 0
    ensures ValidList(l)
  {
    StatefulList(items, if |items| == 0 then None else Some(0))
  }

  /** The selected item; none when nothing is selected or the index is out
      of range. */
  function SelectedItem<T>(l: StatefulList<T>): (r: Option<T>)
    ensures r.Some? <==> l.selected.Some? && l.selected.value < |l.items|
    ensures r.Some? ==> r.value == l.items[l.selected.value]
  {
    match l.selected
    case None => None
    case Some(i) => if i < |l.items| then Some(l.items[i]) else None
  }

  /** `next` as written: with a selection the index moves on modulo the
      length, which divides by zero (a panic, `None` here) on an empty
      list; without one, index 0 is selected even if the list is empty. */
  function NextAsWritten<T>(l: StatefulList<T>): (r: Option<StatefulList<T>>)
    ensures r.None? <==> l.selected.Some? && |l.items| == 0
    ensures r.Some? ==> r.value.items == l.items && r.value.selected.Some?
  {
    match l.selected
    case Some(i) =>
      if |l.items| == 0 then None else Some(l.(selected := Some((i + 1) % |l.items|)))
    case None => Some(l.(selected := Some(0)))
  }

  /** `previous` as written: from index 0 the index becomes the length
      minus one, which underflows (a panic in a debug build, `None` here)
      on an empty list; without a selection, index 0 is selected even if
      the list is empty. */
  function PreviousAsWritten<T>(l: StatefulList<T>): (r: Option<StatefulList<T>>)
    ensures r.None? <==> l.selected == Some(0) && |l.items| == 0
    ensures r.Some? ==> r.value.items == l.items && r.value.selected.Some?
  {
    match l.selected
    case Some(i) =>
      if i == 0 then (if |l.items| == 0 then None else Some(l.(selected := Some(|l.items| - 1))))
      else Some(l.(selected := Some(i - 1)))
    case None => Some(l.(selected := Some(0)))
  }

  /** On an empty list the first `next` selects an item that does not
      exist and the second one fails. */
  lemma EmptyListNextFails<T>()
    ensures NextAsWritten(WithItems<T>([])).Some?
    ensures !ValidList(NextAsWritten(WithItems<T>([])).value)
    ensures NextAsWritten(NextAsWritten(WithItems<T>([])).value).None?
  {
  }

  /** The same for `previous`. */
  lemma EmptyListPreviousFails<T>()
    ensures PreviousAsWritten(WithItems<T>([])).Some?
    ensures !ValidList(PreviousAsWritten(WithItems<T>([])).value)
    ensures PreviousAsWritten(PreviousAsWritten(WithItems<T>([])).value).None?
  {
  }

  /** `next` with the empty list left without a selection. */
  function Next<T>(l: StatefulList<T>): (r: StatefulList<T>)
    ensures r.items == l.items
    ensures ValidList(r)
    ensures r.selected.Some? <==> |l.items| > 0
  {
    if |l.items| == 0 then l.(selected := None)
    else match l.selected
      case Some(i) => l.(selected := Some((i + 1) % |l.items|))
      case None => l.(selected := Some(0))
  }

  /** `previous` with the empty list left without a selection. */
  function Previous<T>(l: StatefulList<T>): (r: StatefulList<T>)
    ensures r.items == l.items
    ensures ValidList(l) ==> ValidList(r)
    ensures r.selected.Some? <==> |l.items| > 0
  {
    if |l.items| == 0 then l.(selected := None)
    else match l.selected
      case Some(i) => l.(selected := Some(if i == 0 then |l.items| - 1 else i - 1))
      case None => l.(selected := Some(0))
  }

  /** On a non-empty list the corrected moves are the written ones. */
  lemma MovesAgreeOnNonEmpty<T>(l: StatefulList<T>)
    requires ValidList(l) && |l.items| > 0
    ensures NextAsWritten(l) == Some(Next(l))
    ensures PreviousAsWritten(l) == Some(Previous(l))
  {
  }

  /** Moving a valid selection steps one place and wraps at the ends;
      without a selection both moves select the first item. */
  lemma ListMovesWrap<T>(l: StatefulList<T>)
    requires ValidList(l) && |l.items| > 0
    ensures l.selected.None? ==> Next(l).selected == Some(0) && Previous(l).selected == Some(0)
    ensures l.selected == Some(|l.items| - 1) ==> Next(l).selected == Some(0)
    ensures l.selected == Some(0) ==> Previous(l).selected == Some(|l.items| - 1)
    ensures l.selected.Some? && l.selected.value + 1 < |l.items| ==>
      Next(l).selected == Some(l.selected.value + 1)
    ensures l.selected.Some? && l.selected.value > 0 ==>
      Previous(l).selected == Some(l.selected.value - 1)
  {
  }

  /** `previous` undoes `next` and the other way round, once something is
      selected. */
  lemma ListMovesInverse<T>(l: StatefulList<T>)
    requires ValidList(l) && l.selected.Some?
    ensures Previous(Next(l)) == l
    ensures Next(Previous(l)) == l
  {
    var i := l.selected.value;
    Wrap(i, |l.items|);
    if i == 0 {
      Wrap(|l.items| - 1, |l.items|);
    } else {
      Wrap(i - 1, |l.items|);
    }
  }

  // ---------------------------------------------------------------------
  // Fixed selections

  /** A fixed set of values, in declaration order, and the selected index. */
  datatype StatefulSelect<T> = StatefulSelect(values: seq<T>, selected: nat)

  predicate ValidSelect<T>(s: StatefulSelect<T>) {
    s.selected < |s.values|
  }

  /** A selection over all values of a kind, starting at the kind's default
      index; `None` when there are no values (a panic). */
  function NewSelect<T>(values: seq<T>, defaultIndex: nat): (r: Option<StatefulSelect<T>>)
    ensures r.Some? <==> |values| > 0
    ensures r.Some? ==> r.value.values == values && r.value.selected == defaultIndex
  {
    if |values| == 0 then None else Some(StatefulSelect(values, defaultIndex))
  }

  function SelectedValue<T>(s: StatefulSelect<T>): (v: T)
    requires ValidSelect(s)
    ensures v in s.values && v == s.values[s.selected]
  {
    s.values[s.selected]
  }

  function NextValue<T>(s: StatefulSelect<T>): (r: StatefulSelect<T>)
    requires ValidSelect(s)
    ensures r.values == s.values && ValidSelect(r)
    ensures s.selected + 1 < |s.values| ==> r.selected == s.selected + 1
    ensures s.selected + 1 == |s.values| ==> r.selected == 0
  {
    Wrap(s.selected, |s.values|);
    s.(selected := (s.selected + 1) % |s.values|)
  }

  function PreviousValue<T>(s: StatefulSelect<T>): (r: StatefulSelect<T>)
    requires ValidSelect(s)
    ensures r.values == s.values && ValidSelect(r)
    ensures s.selected > 0 ==> r.selected == s.selected - 1
    ensures s.selected == 0 ==> r.selected == |s.values| - 1
  {
    s.(selected := if s.selected == 0 then |s.values| - 1 else s.selected - 1)
  }

  /** `previous` after `next` restores the selection, and conversely. */
  lemma SelectMovesInverse<T>(s: StatefulSelect<T>)
    requires ValidSelect(s)
    ensures PreviousValue(NextValue(s)) == s
    ensures NextValue(PreviousValue(s)) == s
  {
    Wrap(s.selected, |s.values|);
    if s.selected == 0 {
      Wrap(|s.values| - 1, |s.values|);
    } else {
      Wrap(s.selected - 1, |s.values|);
    }
  }

  /** `n` steps forward. */
  function Advance<T>(s: StatefulSelect<T>, n: nat): (r: StatefulSelect<T>)
    requires ValidSelect(s)
    ensures ValidSelect(r) && r.values == s.values
    decreases n
  {
    if n == 0 then s else Advance(NextValue(s), n - 1)
  }

  /** Up to a full round, stepping forward `n` times lands `n` places
      further, wrapping once past the last value. */
  lemma {:induction false} AdvanceWraps<T>(s: StatefulSelect<T>, n: nat)
    requires ValidSelect(s) && n <= |s.values|
    ensures Advance(s, n).selected
         == if s.selected + n < |s.values| then s.selected + n else s.selected + n - |s.values|
    decreases n
  {
    if n > 0 {
      AdvanceWraps(NextValue(s), n - 1);
    }
  }

  /** As many steps forward as there are values come back to the start. */
  lemma AdvanceFullCycle<T>(s: StatefulSelect<T>)
    requires ValidSelect(s)
    ensures Advance(s, |s.values|) == s
  {
    AdvanceWraps(s, |s.values|);
  }

  // ---------------------------------------------------------------------
  // The panes and tabs of the interface

  datatype PrimaryPane = ProfileList | RecipeList | RequestPane | ResponsePane
  datatype RequestTab = RequestBody | RequestQuery | RequestHeaders
  datatype ResponseTab = ResponseBody | ResponseHeaders

  /** Focus starts on the recipe list; both tab sets start on their first
      tab. */
  function PaneSelect(): (s: StatefulSelect<PrimaryPane>)
    ensures ValidSelect(s) && SelectedValue(s) == RecipeList
    ensures NewSelect([ProfileList, RecipeList, RequestPane, ResponsePane], 1) == Some(s)
  {
    StatefulSelect([ProfileList, RecipeList, RequestPane, ResponsePane], 1)
  }

  function RequestTabSelect(): (s: StatefulSelect<RequestTab>)
    ensures ValidSelect(s) && SelectedValue(s) == RequestBody
    ensures NewSelect([RequestBody, RequestQuery, RequestHeaders], 0) == Some(s)
  {
    StatefulSelect([RequestBody, RequestQuery, RequestHeaders], 0)
  }

  function ResponseTabSelect(): (s: StatefulSelect<ResponseTab>)
    ensures ValidSelect(s) && SelectedValue(s) == ResponseBody
    ensures NewSelect([ResponseBody, ResponseHeaders], 0) == Some(s)
  {
    StatefulSelect([ResponseBody, ResponseHeaders], 0)
  }
}
