/** The canvas state reducer: the document record, the eleven commands and
    the pure transition `Step(state, action)` the provider's `useReducer`
    applies to every dispatched command. */
module CanvasState {
  import opened Wrappers
  import opened Numbers

  /** CanvasElement.type */
  datatype Kind = Text | Image | Arrow | Shape | Drawing

  /** A value in an element's open `properties` record. */
  datatype Value = Str(s: string) | Num(n: real)

  type Props = map<string, Value>

  /** A cursor position or an offset, in canvas pixels. */
  datatype Point = Point(x: int, y: int)

  /** One placed object. `opacity` is None on elements the input layer builds
      and Some(1.0) on every element the reducer inserts. */
  datatype Element = Element(
    id: string,
    kind: Kind,
    x: int,
    y: int,
    width: int,
    height: int,
    zIndex: int,
    opacity: Option<real>,
    properties: Props)

  datatype BackgroundKind = ColorFill | ImageFill

  datatype Background = Background(kind: BackgroundKind, value: string)

  datatype State = State(
    elements: seq<Element>,
    selectedElementId: Option<string>,
    canvasBackground: Background,
    nextZIndex: int,
    history: seq<seq<Element>>,
    historyIndex: int)

  /** A `Partial<CanvasElement>`: None marks a key the update object leaves out. */
  datatype Updates = Updates(
    id: Option<string>,
    kind: Option<Kind>,
    x: Option<int>,
    y: Option<int>,
    width: Option<int>,
    height: Option<int>,
    zIndex: Option<int>,
    opacity: Option<real>,
    properties: Option<Props>)

  datatype Action =
    | AddElement(element: Element)
    | UpdateElement(id: string, updates: Updates)
    | DeleteElement(id: string)
    | SelectElement(target: Option<string>)
    | MoveElement(id: string, x: int, y: int)
    | ResizeElement(id: string, width: int, height: int)
    | BringForward(id: string)
    | SendBackward(id: string)
    | SetCanvasBackground(background: Background)
    | Undo
    | AddMultipleElements(batch: seq<Element>)
  {
    /** The commands that push a snapshot before they apply. */
    predicate TakesSnapshot() {
      AddElement? || AddMultipleElements? || DeleteElement?
    }
  }

  /** Number of snapshots the history keeps. */
  const HistoryLimit: nat := 50

  const Init: State :=
    State([], None, Background(ColorFill, "#ffffff"), 1, [[]], 0)

  /** The history window is non-empty, bounded, and indexed in range. */
  predicate HistoryValid(s: State) {
    1 <= |s.history| <= HistoryLimit && 0 <= s.historyIndex < |s.history|
  }

  /** First element whose id is `id` (`Array.prototype.find`). */
  function Find(es: seq<Element>, id: string): (r: Option<Element>)
    ensures r.None? <==> forall i :: 0 <= i < |es| ==> es[i].id != id
    ensures r.Some? ==> exists i :: 0 <= i < |es| && es[i] == r.value && r.value.id == id
                          && forall j :: 0 <= j < i ==> es[j].id != id
  {
    if |es| == 0 then None
    else if es[0].id == id then Some(es[0])
    else
      var r := Find(es[1..], id);
      assert forall i :: 1 <= i < |es| ==> es[i] == es[1..][i - 1];
      r
  }

  /** The last `n` entries of `h`, or all of them when there are fewer
      (`Array.prototype.slice(-n)` for positive n). */
  function KeepLast<T>(h: seq<T>, n: nat): (r: seq<T>)
    ensures |r| == Min(|h|, n)
    ensures forall i :: 0 <= i < |r| ==> r[i] == h[|h| - |r| + i]
  {
    if |h| <= n then h else h[|h| - n..]
  }

  /** The three-step history update of a snapshotting command: the entries up
      to the index are kept, the pre-mutation elements go on top, the oldest
      are evicted down to the limit and the index points at the top. */
  ghost predicate Snapshotted(s: State, r: State)
    requires HistoryValid(s)
  {
    && |r.history| == Min(s.historyIndex + 2, HistoryLimit)
    && r.historyIndex == |r.history| - 1
    && r.history[r.historyIndex] == s.elements
    && forall i :: 0 <= i < r.historyIndex ==>
         r.history[i] == s.history[s.historyIndex + 1 - r.historyIndex + i]
  }

  function SaveToHistory(s: State): (r: State)
    requires HistoryValid(s)
    ensures HistoryValid(r) && Snapshotted(s, r)
    ensures r.(history := s.history, historyIndex := s.historyIndex) == s
  {
    var h := s.history[..s.historyIndex + 1] + [s.elements];
    assert |h| == s.historyIndex + 2 && h[|h| - 1] == s.elements;
    assert forall i :: 0 <= i <= s.historyIndex ==> h[i] == s.history[i];
    s.(history := KeepLast(h, HistoryLimit), historyIndex := Min(|h| - 1, HistoryLimit - 1))
  }

  /** `es.map(el => el.id === id ? f(el) : el)` */
  function MapMatching(es: seq<Element>, id: string, f: Element -> Element): (r: seq<Element>)
    ensures |r| == |es|
    ensures forall i :: 0 <= i < |es| ==> r[i] == (if es[i].id == id then f(es[i]) else es[i])
  {
    seq(|es|, i requires 0 <= i < |es| => if es[i].id == id then f(es[i]) else es[i])
  }

  /** `es.filter(el => el.id !== id)` */
  function RemoveId(es: seq<Element>, id: string): (r: seq<Element>)
    ensures forall e :: e in r <==> e in es && e.id != id
    ensures |r| <= |es|
    ensures (forall i :: 0 <= i < |es| ==> es[i].id != id) ==> r == es
  {
    if |es| == 0 then []
    else
      var rest := RemoveId(es[1..], id);
      assert forall e :: e in es <==> e == es[0] || e in es[1..];
      assert (forall i :: 0 <= i < |es| ==> es[i].id != id) ==>
             forall i :: 0 <= i < |es[1..]| ==> es[1..][i].id != id;
      if es[0].id == id then rest else [es[0]] + rest
  }

  function ZIndices(es: seq<Element>): (zs: seq<int>)
    ensures |zs| == |es| && forall i :: 0 <= i < |es| ==> zs[i] == es[i].zIndex
  {
    seq(|es|, i requires 0 <= i < |es| => es[i].zIndex)
  }

  /** ADD_ELEMENT: snapshot, then append the element on top of the z-order. */
  function AddOne(s: State, e: Element): (r: State)
    requires HistoryValid(s)
    ensures HistoryValid(r) && Snapshotted(s, r)
    ensures |r.elements| == |s.elements| + 1 && r.elements[..|s.elements|] == s.elements
    ensures r.elements[|s.elements|] == e.(zIndex := s.nextZIndex, opacity := Some(1.0))
    ensures r.nextZIndex == s.nextZIndex + 1
    ensures r.selectedElementId == s.selectedElementId && r.canvasBackground == s.canvasBackground
  {
    var saved := SaveToHistory(s);
    saved.(elements := saved.elements + [e.(zIndex := saved.nextZIndex, opacity := Some(1.0))],
           nextZIndex := saved.nextZIndex + 1)
  }

  /** The batch as ADD_MULTIPLE_ELEMENTS stamps it: consecutive z-indices from `base`, opacity 1. */
  function Stamped(batch: seq<Element>, base: int): (r: seq<Element>)
    ensures |r| == |batch|
    ensures forall i :: 0 <= i < |batch| ==> r[i] == batch[i].(zIndex := base + i, opacity := Some(1.0))
  {
    seq(|batch|, i requires 0 <= i < |batch| => batch[i].(zIndex := base + i, opacity := Some(1.0)))
  }

  /** ADD_MULTIPLE_ELEMENTS: one snapshot for the whole batch, then append it in order. */
  function AddBatch(s: State, batch: seq<Element>): (r: State)
    requires HistoryValid(s)
    ensures HistoryValid(r) && Snapshotted(s, r)
    ensures |r.elements| == |s.elements| + |batch| && r.elements[..|s.elements|] == s.elements
    ensures forall i :: 0 <= i < |batch| ==>
              r.elements[|s.elements| + i] == batch[i].(zIndex := s.nextZIndex + i, opacity := Some(1.0))
    ensures r.nextZIndex == s.nextZIndex + |batch|
    ensures r.selectedElementId == s.selectedElementId && r.canvasBackground == s.canvasBackground
  {
    var saved := SaveToHistory(s);
    saved.(elements := saved.elements + Stamped(batch, saved.nextZIndex),
           nextZIndex := saved.nextZIndex + |batch|)
  }

  /** `{ ...el, ...updates }`: every supplied key overwrites, every other key stays. */
  function Merge(e: Element, u: Updates): (r: Element)
    ensures r.id == u.id.GetOr(e.id) && r.kind == u.kind.GetOr(e.kind)
    ensures r.x == u.x.GetOr(e.x) && r.y == u.y.GetOr(e.y)
    ensures r.width == u.width.GetOr(e.width) && r.height == u.height.GetOr(e.height)
    ensures r.zIndex == u.zIndex.GetOr(e.zIndex)
    ensures r.opacity == (if u.opacity.Some? then u.opacity else e.opacity)
    ensures r.properties == u.properties.GetOr(e.properties)
  {
    Element(
      u.id.GetOr(e.id), u.kind.GetOr(e.kind), u.x.GetOr(e.x), u.y.GetOr(e.y),
      u.width.GetOr(e.width), u.height.GetOr(e.height), u.zIndex.GetOr(e.zIndex),
      if u.opacity.Some? then u.opacity else e.opacity,
      u.properties.GetOr(e.properties))
  }

  /** UPDATE_ELEMENT: shallow-merge into every element with the id; no snapshot. */
  function UpdateMatching(s: State, id: string, u: Updates): (r: State)
    ensures r.(elements := s.elements) == s
    ensures |r.elements| == |s.elements|
    ensures forall i :: 0 <= i < |s.elements| ==>
              r.elements[i] == (if s.elements[i].id == id then Merge(s.elements[i], u) else s.elements[i])
  {
    s.(elements := MapMatching(s.elements, id, (e: Element) => Merge(e, u)))
  }

  /** DELETE_ELEMENT: snapshot, drop every element with the id, clear the selection if it was that id. */
  function DeleteMatching(s: State, id: string): (r: State)
    requires HistoryValid(s)
    ensures HistoryValid(r) && Snapshotted(s, r)
    ensures forall e :: e in r.elements <==> e in s.elements && e.id != id
    ensures r.selectedElementId.None? <==> (s.selectedElementId.None? || s.selectedElementId == Some(id))
    ensures r.selectedElementId.Some? ==> r.selectedElementId == s.selectedElementId
    ensures r.nextZIndex == s.nextZIndex && r.canvasBackground == s.canvasBackground
  {
    var saved := SaveToHistory(s);
    saved.(elements := RemoveId(saved.elements, id),
           selectedElementId := if saved.selectedElementId == Some(id) then None else saved.selectedElementId)
  }

  /** SELECT_ELEMENT: the target is stored as given, live or not. */
  function Select(s: State, target: Option<string>): (r: State)
    ensures r.selectedElementId == target
    ensures r.(selectedElementId := s.selectedElementId) == s
  {
    s.(selectedElementId := target)
  }

  /** MOVE_ELEMENT: only x and y of the matching elements change. */
  function MoveMatching(s: State, id: string, x: int, y: int): (r: State)
    ensures r.(elements := s.elements) == s
    ensures |r.elements| == |s.elements|
    ensures forall i :: 0 <= i < |s.elements| ==>
              r.elements[i].(x := s.elements[i].x, y := s.elements[i].y) == s.elements[i]
    ensures forall i :: 0 <= i < |s.elements| ==>
              if s.elements[i].id == id then r.elements[i].x == x && r.elements[i].y == y
              else r.elements[i] == s.elements[i]
  {
    s.(elements := MapMatching(s.elements, id, (e: Element) => e.(x := x, y := y)))
  }

  /** RESIZE_ELEMENT: only width and height of the matching elements change. */
  function ResizeMatching(s: State, id: string, width: int, height: int): (r: State)
    ensures r.(elements := s.elements) == s
    ensures |r.elements| == |s.elements|
    ensures forall i :: 0 <= i < |s.elements| ==>
              r.elements[i].(width := s.elements[i].width, height := s.elements[i].height) == s.elements[i]
    ensures forall i :: 0 <= i < |s.elements| ==>
              if s.elements[i].id == id then r.elements[i].width == width && r.elements[i].height == height
              else r.elements[i] == s.elements[i]
  {
    s.(elements := MapMatching(s.elements, id, (e: Element) => e.(width := width, height := height)))
  }

  /** The element at `j` has the largest z-index of `es`. */
  predicate IsTopZ(es: seq<Element>, j: nat)
    requires j < |es|
  {
    forall k :: 0 <= k < |es| ==> es[k].zIndex <= es[j].zIndex
  }

  /** The element at `j` has the smallest z-index of `es`. */
  predicate IsBottomZ(es: seq<Element>, j: nat)
    requires j < |es|
  {
    forall k :: 0 <= k < |es| ==> es[j].zIndex <= es[k].zIndex
  }

  /** BRING_FORWARD: the target goes one above the current maximum and the
      counter is bumped past it. With no elements nothing changes (the source's
      `Math.max()` of nothing maps no element and leaves the counter). */
  function RaiseToTop(s: State, id: string): (r: State)
    ensures |s.elements| == 0 ==> r == s
    ensures r.(elements := s.elements, nextZIndex := s.nextZIndex) == s
    ensures r.nextZIndex >= s.nextZIndex
    ensures |r.elements| == |s.elements|
    ensures forall i :: 0 <= i < |s.elements| ==>
              r.elements[i].(zIndex := s.elements[i].zIndex) == s.elements[i]
              && (s.elements[i].id != id ==> r.elements[i] == s.elements[i])
    ensures forall i, j :: 0 <= i < |s.elements| && 0 <= j < |s.elements| && s.elements[i].id == id ==>
              s.elements[j].zIndex < r.elements[i].zIndex
    ensures forall i, j :: 0 <= i < |s.elements| && 0 <= j < |s.elements| && s.elements[i].id == id && s.elements[j].id != id ==>
              r.elements[j].zIndex < r.elements[i].zIndex
    ensures forall i :: 0 <= i < |s.elements| ==> r.elements[i].zIndex < r.nextZIndex
    ensures |s.elements| > 0 ==>
              exists j :: 0 <= j < |s.elements| && IsTopZ(s.elements, j)
                && r.nextZIndex == Max(s.nextZIndex, s.elements[j].zIndex + 2)
                && forall i :: 0 <= i < |s.elements| && s.elements[i].id == id ==>
                     r.elements[i].zIndex == s.elements[j].zIndex + 1
  {
    if |s.elements| == 0 then s
    else
      var maxZ := SeqMax(ZIndices(s.elements));
      assert exists j :: 0 <= j < |s.elements| && s.elements[j].zIndex == maxZ && IsTopZ(s.elements, j) by {
        var j :| 0 <= j < |s.elements| && ZIndices(s.elements)[j] == maxZ;
        assert IsTopZ(s.elements, j);
      }
      s.(elements := MapMatching(s.elements, id, (e: Element) => e.(zIndex := maxZ + 1)),
         nextZIndex := Max(s.nextZIndex, maxZ + 2))
  }

  /** SEND_BACKWARD: the target goes one below the current minimum, floored at 0. */
  function LowerToBottom(s: State, id: string): (r: State)
    ensures |s.elements| == 0 ==> r == s
    ensures r.(elements := s.elements) == s
    ensures |r.elements| == |s.elements|
    ensures forall i :: 0 <= i < |s.elements| ==>
              r.elements[i].(zIndex := s.elements[i].zIndex) == s.elements[i]
              && (s.elements[i].id != id ==> r.elements[i] == s.elements[i])
    ensures forall i :: 0 <= i < |s.elements| && s.elements[i].id == id ==>
              r.elements[i].zIndex >= 0
              && (r.elements[i].zIndex == 0 || forall j :: 0 <= j < |s.elements| ==> r.elements[i].zIndex < s.elements[j].zIndex)
    ensures forall i, j :: 0 <= i < |s.elements| && 0 <= j < |s.elements| && s.elements[i].id == id ==>
              r.elements[i].zIndex <= s.elements[j].zIndex || s.elements[j].zIndex < 1
    ensures |s.elements| > 0 ==>
              exists j :: 0 <= j < |s.elements| && IsBottomZ(s.elements, j)
                && forall i :: 0 <= i < |s.elements| && s.elements[i].id == id ==>
                     r.elements[i].zIndex == Max(0, s.elements[j].zIndex - 1)
  {
    if |s.elements| == 0 then s
    else
      var minZ := SeqMin(ZIndices(s.elements));
      assert exists j :: 0 <= j < |s.elements| && s.elements[j].zIndex == minZ && IsBottomZ(s.elements, j) by {
        var j :| 0 <= j < |s.elements| && ZIndices(s.elements)[j] == minZ;
        assert IsBottomZ(s.elements, j);
      }
      s.(elements := MapMatching(s.elements, id, (e: Element) => e.(zIndex := Max(0, minZ - 1))))
  }

  /** SET_CANVAS_BACKGROUND: the background is replaced wholesale. */
  function SetBackground(s: State, b: Background): (r: State)
    ensures r.canvasBackground == b
    ensures r.(canvasBackground := s.canvasBackground) == s
  {
    s.(canvasBackground := b)
  }

  /** UNDO, as the source writes it: with the index above 0 the elements are
      reloaded from the entry BELOW the index, the index drops by one and the
      selection is cleared; at index 0 nothing happens. */
  function UndoOnce(s: State): (r: State)
    requires HistoryValid(s)
    ensures HistoryValid(r)
    ensures s.historyIndex == 0 ==> r == s
    ensures s.historyIndex > 0 ==>
              && r.elements == s.history[s.historyIndex - 1]
              && r.historyIndex == s.historyIndex - 1
              && r.selectedElementId.None?
              && r.(elements := s.elements, historyIndex := s.historyIndex, selectedElementId := s.selectedElementId) == s
  {
    if s.historyIndex > 0 then
      var newIndex := s.historyIndex - 1;
      s.(elements := s.history[newIndex], historyIndex := newIndex, selectedElementId := None)
    else s
  }

  /** The reducer. */
  function Step(s: State, a: Action): (r: State)
    requires HistoryValid(s)
    ensures HistoryValid(r)
    ensures r.nextZIndex >= s.nextZIndex
    ensures a.TakesSnapshot() ==> Snapshotted(s, r)
    ensures !a.TakesSnapshot() && !a.Undo? ==> r.history == s.history && r.historyIndex == s.historyIndex
    ensures a.Undo? ==> r.history == s.history && r.historyIndex <= s.historyIndex
    ensures !a.SetCanvasBackground? ==> r.canvasBackground == s.canvasBackground
  {
    match a
    case AddElement(e) => AddOne(s, e)
    case AddMultipleElements(batch) => AddBatch(s, batch)
    case UpdateElement(id, u) => UpdateMatching(s, id, u)
    case DeleteElement(id) => DeleteMatching(s, id)
    case SelectElement(target) => Select(s, target)
    case MoveElement(id, x, y) => MoveMatching(s, id, x, y)
    case ResizeElement(id, w, h) => ResizeMatching(s, id, w, h)
    case BringForward(id) => RaiseToTop(s, id)
    case SendBackward(id) => LowerToBottom(s, id)
    case SetCanvasBackground(b) => SetBackground(s, b)
    case Undo => UndoOnce(s)
  }

  /** Dispatches a whole command sequence in order. */
  function Run(s: State, acts: seq<Action>): (r: State)
    requires HistoryValid(s)
    ensures HistoryValid(r)
    ensures r.nextZIndex >= s.nextZIndex
    decreases |acts|
  {
    if |acts| == 0 then s else Run(Step(s, acts[0]), acts[1..])
  }
}
