/** Per-element mouse handling: a left press selects the element and
    starts a drag (or a resize on a handle); moves turn into clamped
    MOVE_ELEMENT / RESIZE_ELEMENT commands; release ends both modes. */
module DraggableElement {
  import opened Wrappers
  import opened Numbers
  import opened CanvasState

  /** `isDragging`, `isResizing` and `dragStart` of one element's component. */
  datatype Gesture = Gesture(isDragging: bool, isResizing: bool, dragStart: Point)

  /** Smallest width and height a resize gesture produces. */
  const MinSize := 20

  /** A mousedown: the button number, whether it landed on a resize handle, and the cursor position. */
  datatype Press = Press(button: int, onResizeHandle: bool, client: Point)

  /** handleMouseDown: only the left button (0) reacts; it selects this
      element, then enters resize mode on a handle and drag mode elsewhere,
      remembering where inside the element the cursor grabbed it. */
  function HandleMouseDown(el: Element, g: Gesture, ev: Press): (r: (Gesture, Option<Action>))
    ensures ev.button != 0 ==> r == (g, None)
    ensures ev.button == 0 ==> r.1 == Some(SelectElement(Some(el.id)))
    ensures ev.button == 0 && ev.onResizeHandle ==> r.0 == g.(isResizing := true)
    ensures ev.button == 0 && !ev.onResizeHandle ==>
              r.0.isDragging && r.0.isResizing == g.isResizing
              && r.0.dragStart.x + el.x == ev.client.x && r.0.dragStart.y + el.y == ev.client.y
  {
    if ev.button != 0 then (g, None)
    else
      var g' := if ev.onResizeHandle then g.(isResizing := true)
                else g.(isDragging := true, dragStart := Point(ev.client.x - el.x, ev.client.y - el.y));
      (g', Some(SelectElement(Some(el.id))))
  }

  /** handleMouseMove: while dragging, move the element so the grab offset
      is kept, clamped to the canvas' top-left; while resizing, size it to
      the cursor measured from the element's on-screen corner, at least
      20 each way; otherwise nothing. `corner` is the element's client rectangle origin. */
  function HandleMouseMove(el: Element, g: Gesture, client: Point, corner: Point): (r: Option<Action>)
    ensures !g.isDragging && !g.isResizing ==> r.None?
    ensures g.isDragging ==>
              && r.Some? && r.value.MoveElement? && r.value.id == el.id
              && r.value.x >= 0 && r.value.y >= 0
              && (client.x - g.dragStart.x >= 0 ==> r.value.x == client.x - g.dragStart.x)
              && (client.y - g.dragStart.y >= 0 ==> r.value.y == client.y - g.dragStart.y)
              && (client.x - g.dragStart.x < 0 ==> r.value.x == 0)
              && (client.y - g.dragStart.y < 0 ==> r.value.y == 0)
    ensures !g.isDragging && g.isResizing ==>
              && r.Some? && r.value.ResizeElement? && r.value.id == el.id
              && r.value.width >= MinSize && r.value.height >= MinSize
              && (client.x - corner.x >= MinSize ==> r.value.width == client.x - corner.x)
              && (client.y - corner.y >= MinSize ==> r.value.height == client.y - corner.y)
              && (client.x - corner.x < MinSize ==> r.value.width == MinSize)
              && (client.y - corner.y < MinSize ==> r.value.height == MinSize)
  {
    if g.isDragging then
      Some(MoveElement(el.id, Max(0, client.x - g.dragStart.x), Max(0, client.y - g.dragStart.y)))
    else if g.isResizing then
      Some(ResizeElement(el.id, Max(MinSize, client.x - corner.x), Max(MinSize, client.y - corner.y)))
    else None
  }

  /** handleMouseUp: leave both modes. */
  function HandleMouseUp(g: Gesture): (r: Gesture)
    ensures !r.isDragging && !r.isResizing && r.dragStart == g.dragStart
  {
    g.(isDragging := false, isResizing := false)
  }

  /** After a release, moves dispatch nothing. */
  lemma MoveAfterReleaseIsSilent(el: Element, g: Gesture, client: Point, corner: Point)
    ensures HandleMouseMove(el, HandleMouseUp(g), client, corner).None?
  {
  }

  /** Dragging translates: a left press off the handles at `p` followed by
      a move to `p + d` moves the element by `d`, clamped at 0; in
      particular returning to the press point puts an element with
      non-negative coordinates back where it was. */
  lemma DragTranslates(el: Element, g: Gesture, p: Point, d: Point, corner: Point)
    ensures var g' := HandleMouseDown(el, g, Press(0, false, p)).0;
            HandleMouseMove(el, g', Point(p.x + d.x, p.y + d.y), corner)
              == Some(MoveElement(el.id, Max(0, el.x + d.x), Max(0, el.y + d.y)))
    ensures el.x >= 0 && el.y >= 0 ==>
            var g' := HandleMouseDown(el, g, Press(0, false, p)).0;
            HandleMouseMove(el, g', p, corner) == Some(MoveElement(el.id, el.x, el.y))
  {
  }

  /** Reducing the command a drag produces leaves the dragged element at
      non-negative coordinates and changes nothing else. */
  lemma DragKeepsOnCanvas(s: State, el: Element, g: Gesture, client: Point, corner: Point)
    requires HistoryValid(s) && g.isDragging
    ensures var r := Step(s, HandleMouseMove(el, g, client, corner).value);
            && r.history == s.history && r.historyIndex == s.historyIndex
            && forall i :: 0 <= i < |s.elements| && s.elements[i].id == el.id ==>
                 r.elements[i].x >= 0 && r.elements[i].y >= 0
                 && r.elements[i].(x := s.elements[i].x, y := s.elements[i].y) == s.elements[i]
  {
  }
}
