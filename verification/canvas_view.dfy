/** The canvas surface: keyboard shortcuts, the background click, and the
    z-ordered rendering of the elements. */
module CanvasView {
  import opened Wrappers
  import opened Numbers
  import opened CanvasState

  datatype KeyEvent = KeyEvent(key: string, ctrlKey: bool, shiftKey: bool)

  /** JavaScript truthiness of `selectedElementId`: null and "" are false. */
  predicate Truthy(sel: Option<string>) {
    sel.Some? && sel.value != ""
  }

  predicate IsArrow(key: string) {
    key == "ArrowUp" || key == "ArrowDown" || key == "ArrowLeft" || key == "ArrowRight"
  }

  /** Arrow-key step: 10 pixels with Shift, 1 without. */
  function NudgeDistance(shift: bool): (d: int)
    ensures d == 1 || d == 10
    ensures shift <==> d == 10
  {
    if shift then 10 else 1
  }

  /** New position of an element nudged by an arrow key: up and left clamp
      at 0, down and right do not; exactly one coordinate can change. */
  function Nudge(e: Element, key: string, shift: bool): (p: Point)
    requires IsArrow(key)
    ensures key == "ArrowUp" ==> p == Point(e.x, Max(0, e.y - NudgeDistance(shift)))
    ensures key == "ArrowDown" ==> p == Point(e.x, e.y + NudgeDistance(shift))
    ensures key == "ArrowLeft" ==> p == Point(Max(0, e.x - NudgeDistance(shift)), e.y)
    ensures key == "ArrowRight" ==> p == Point(e.x + NudgeDistance(shift), e.y)
    ensures p.x == e.x || p.y == e.y
    ensures e.x >= 0 && e.y >= 0 ==> p.x >= 0 && p.y >= 0
  {
    var d := NudgeDistance(shift);
    if key == "ArrowUp" then Point(e.x, Max(0, e.y - d))
    else if key == "ArrowDown" then Point(e.x, e.y + d)
    else if key == "ArrowLeft" then Point(Max(0, e.x - d), e.y)
    else Point(e.x + d, e.y)
  }

  /** handleKeyDown: Delete with a selection deletes it and wins over every
      other shortcut; Ctrl+z undoes; an arrow key nudges the selected element
      if it is live; anything else dispatches nothing. */
  function HandleKeyDown(s: State, ev: KeyEvent): (r: Option<Action>)
    ensures ev.key == "Delete" && Truthy(s.selectedElementId) ==>
              r == Some(DeleteElement(s.selectedElementId.value))
    ensures ev.ctrlKey && ev.key == "z" ==> r == Some(Undo)
    ensures r.Some? && r.value.MoveElement? ==>
              && IsArrow(ev.key)
              && Truthy(s.selectedElementId)
              && r.value.id == s.selectedElementId.value
              && Find(s.elements, r.value.id).Some?
              && Point(r.value.x, r.value.y) == Nudge(Find(s.elements, r.value.id).value, ev.key, ev.shiftKey)
    ensures IsArrow(ev.key) && Truthy(s.selectedElementId) && Find(s.elements, s.selectedElementId.value).Some? ==>
              r.Some? && r.value.MoveElement?
    ensures r.Some? ==> r.value.DeleteElement? || r.value.Undo? || r.value.MoveElement?
    ensures r.Some? && r.value.DeleteElement? ==>
              ev.key == "Delete" && Truthy(s.selectedElementId) && r.value.id == s.selectedElementId.value
    ensures r.Some? && r.value.Undo? ==> ev.ctrlKey && ev.key == "z"
  {
    if ev.key == "Delete" && Truthy(s.selectedElementId) then
      Some(DeleteElement(s.selectedElementId.value))
    else if ev.ctrlKey && ev.key == "z" then
      Some(Undo)
    else if Truthy(s.selectedElementId) && IsArrow(ev.key) then
      match Find(s.elements, s.selectedElementId.value)
      case None => None
      case Some(el) =>
        var p := Nudge(el, ev.key, ev.shiftKey);
        Some(MoveElement(s.selectedElementId.value, p.x, p.y))
    else None
  }

  /** handleCanvasClick: a click on the bare canvas clears the selection;
      clicks that land on an element dispatch nothing here. */
  function HandleCanvasClick(onCanvasItself: bool): (r: Option<Action>)
    ensures r.Some? <==> onCanvasItself
    ensures onCanvasItself ==> r.value == SelectElement(None)
  {
    if onCanvasItself then Some(SelectElement(None)) else None
  }

  /** An arrow nudge, once reduced, keeps the nudged element on the canvas
      when it was on the canvas, and moves by at most the step along one axis. */
  lemma NudgeKeepsOnCanvas(s: State, ev: KeyEvent)
    requires HistoryValid(s)
    requires IsArrow(ev.key) && Truthy(s.selectedElementId)
    requires forall i :: 0 <= i < |s.elements| ==> s.elements[i].x >= 0 && s.elements[i].y >= 0
    ensures HandleKeyDown(s, ev).Some? ==>
              var r := Step(s, HandleKeyDown(s, ev).value);
              forall i :: 0 <= i < |r.elements| ==> r.elements[i].x >= 0 && r.elements[i].y >= 0
  {
    var a := HandleKeyDown(s, ev);
    if a.Some? && a.value.MoveElement? {
      var el := Find(s.elements, a.value.id).value;
      assert el in s.elements;
    }
  }

  predicate SortedByZ(es: seq<Element>) {
    forall i, j :: 0 <= i < j < |es| ==> es[i].zIndex <= es[j].zIndex
  }

  /** Prepending an element no higher than every element of a sorted sequence keeps it sorted. */
  lemma ConsSorted(x: Element, t: seq<Element>)
    requires SortedByZ(t)
    requires forall y :: y in t ==> x.zIndex <= y.zIndex
    ensures SortedByZ([x] + t)
  {
    var r := [x] + t;
    forall i, j | 0 <= i < j < |r| ensures r[i].zIndex <= r[j].zIndex {
      assert r[j] == t[j - 1] && t[j - 1] in t;
      if i > 0 {
        assert r[i] == t[i - 1];
      }
    }
  }

  /** In a sorted sequence the head is no higher than anything in it, and the tail stays sorted. */
  lemma HeadAndTail(sorted: seq<Element>)
    requires SortedByZ(sorted) && |sorted| > 0
    ensures forall y :: y in sorted ==> sorted[0].zIndex <= y.zIndex
    ensures SortedByZ(sorted[1..])
  {
    forall y | y in sorted ensures sorted[0].zIndex <= y.zIndex {
      var k :| 0 <= k < |sorted| && sorted[k] == y;
      if k > 0 {
        assert sorted[0].zIndex <= sorted[k].zIndex;
      }
    }
    var tail := sorted[1..];
    forall i, j | 0 <= i < j < |tail| ensures tail[i].zIndex <= tail[j].zIndex {
      assert tail[i] == sorted[i + 1] && tail[j] == sorted[j + 1];
    }
  }

  /** Places `e` before the first element with a z-index at least its own. */
  function InsertByZ(e: Element, sorted: seq<Element>): (r: seq<Element>)
    requires SortedByZ(sorted)
    ensures SortedByZ(r)
    ensures forall x :: x in r <==> x == e || x in sorted
    ensures multiset(r) == multiset(sorted) + multiset{e}
    decreases |sorted|
  {
    if |sorted| == 0 then
      ConsSorted(e, sorted);
      [e]
    else
      HeadAndTail(sorted);
      var head, tail := sorted[0], sorted[1..];
      assert sorted == [head] + tail;
      if e.zIndex <= head.zIndex then
        ConsSorted(e, sorted);
        [e] + sorted
      else
        var rest := InsertByZ(e, tail);
        ConsSorted(head, rest);
        [head] + rest
  }

  /** Paint order: the elements sorted by non-decreasing z-index, none lost or added. */
  function RenderOrder(es: seq<Element>): (r: seq<Element>)
    ensures SortedByZ(r)
    ensures multiset(r) == multiset(es)
    decreases |es|
  {
    if |es| == 0 then []
    else
      assert es == [es[0]] + es[1..];
      InsertByZ(es[0], RenderOrder(es[1..]))
  }

  /** The last element of a sorted sequence has the largest z-index. */
  lemma LastIsHighest(order: seq<Element>)
    requires SortedByZ(order) && |order| > 0
    ensures forall x :: x in order ==> x.zIndex <= order[|order| - 1].zIndex
  {
    forall x | x in order ensures x.zIndex <= order[|order| - 1].zIndex {
      var k :| 0 <= k < |order| && order[k] == x;
      if k < |order| - 1 {
        assert order[k].zIndex <= order[|order| - 1].zIndex;
      }
    }
  }

  /** The paint order holds exactly the elements, as many as there are. */
  lemma RenderOrderSameMembers(es: seq<Element>)
    ensures |RenderOrder(es)| == |es|
    ensures forall x :: x in RenderOrder(es) <==> x in es
  {
    var order := RenderOrder(es);
    assert |multiset(order)| == |multiset(es)|;
    forall x ensures x in order <==> x in es {
      assert x in order <==> x in multiset(order);
      assert x in es <==> x in multiset(es);
    }
  }

  /** If the elements with `id` sit strictly above all others, one of them is painted last. */
  lemma TopPaintsLast(es: seq<Element>, id: string, i: nat)
    requires i < |es| && es[i].id == id
    requires forall j :: 0 <= j < |es| && es[j].id != id ==> es[j].zIndex < es[i].zIndex
    ensures |RenderOrder(es)| > 0 && RenderOrder(es)[|RenderOrder(es)| - 1].id == id
  {
    var order := RenderOrder(es);
    RenderOrderSameMembers(es);
    var last := order[|order| - 1];
    LastIsHighest(order);
    assert es[i] in es;
    assert es[i].zIndex <= last.zIndex;
    assert last in es;
    var j :| 0 <= j < |es| && es[j] == last;
    assert !(es[j].zIndex < es[i].zIndex);
  }

  /** Within the paint order, an element raised by BRING_FORWARD is painted last. */
  lemma RaisedPaintsLast(s: State, id: string, i: nat)
    requires HistoryValid(s)
    requires i < |s.elements| && s.elements[i].id == id
    ensures var order := RenderOrder(Step(s, BringForward(id)).elements);
            |order| > 0 && order[|order| - 1].id == id
  {
    var r := RaiseToTop(s, id);
    assert Step(s, BringForward(id)) == r;
    assert r.elements[i].id == id by {
      assert r.elements[i].(zIndex := s.elements[i].zIndex) == s.elements[i];
    }
    forall j | 0 <= j < |r.elements| && r.elements[j].id != id
      ensures r.elements[j].zIndex < r.elements[i].zIndex
    {
      assert r.elements[j].(zIndex := s.elements[j].zIndex) == s.elements[j];
    }
    TopPaintsLast(r.elements, id, i);
  }
}
