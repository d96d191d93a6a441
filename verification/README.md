# Canvas editor: state reducer and input layer

This project models the core of a browser canvas editor. The user places
text, images, arrows, shapes and freehand drawings on a canvas, moves and
resizes them, restacks them, and undoes structural changes.

The centre of the model is the reducer `canvasReducer`. It maps an old state
and one command to a new state. The state holds:

- the element list;
- the selected id;
- the background (a colour or an image);
- the next z-index counter;
- an undo history of at most 50 element snapshots, with an index into it.

In Dafny this is `CanvasState.State`, the `CanvasState.Action` sum type with
all eleven commands, and the pure function `CanvasState.Step`.

Around the reducer sits the input layer. Each piece turns events into commands
and is modelled as a pure function from state and event to an optional command:

- **Freehand drawing layer** (`DrawingCanvas`): a stroke becomes one `drawing`
  element whose SVG path string decodes back to the samples.
- **Per-element mouse handling** (`DraggableElement`): select, then drag or
  resize, with clamping.
- **Canvas keyboard shortcuts, background click and paint order** (`CanvasView`).
- **Toolbar** (`Toolbar`): element factories, the multi-image upload that
  dispatches one batch after every file has loaded, and the undo button.
- **Property panel** (`PropertyPanel`): single-key property edits, delete, and
  the background controls.
- **Shape renderer** (`ShapeView`): `#rrggbb` decoding, property defaults, and
  the outline chosen by `shapeType`.

`CanvasInvariants` proves what every reachable state satisfies:

- a valid history window;
- z-indices in `[0, nextZIndex)`;
- unique ids, both live and in every snapshot;
- a selection that names a live element.

These hold when callers keep to `Admissible`: fresh ids on ADD, distinct batch
ids, no id or z-index in UPDATE, and SELECT only of live ids. The reducer
itself never checks id uniqueness.

Modelling choices:

- Coordinates and sizes are integers.
- Opacity and numeric properties are opaque reals.
- Element properties are a `map<string, Value>`.
- The clock reading used in ids (`Date.now()`) is a `stamp` parameter.
- File reads are a sequence of completion events, in whatever order they complete.

The UNDO behaviour is reproduced exactly as written. It is also reported as a
finding below, with a corrected UNDO proved separately.

Two behaviours of the code a reader may not expect, kept as written:

- From the initial state, "add t1, add t2, undo" leaves an empty canvas, not `[t1]`.
- SELECT_ELEMENT accepts an id that no element carries.

## Model

| member | source | states |
|---|---|---|
| CanvasState.Find | app/components/canvas.tsx:40 | `find` by id: None exactly when no element has the id; otherwise a matching element with no earlier match |
| CanvasState.KeepLast | app/context/canvas-context.tsx:57 | `slice(-n)`: the last min(len, n) entries, in order |
| CanvasState.SaveToHistory | app/context/canvas-context.tsx:52-60 | truncates after the index, pushes the current elements, keeps the last 50, points the index at the pushed snapshot, and changes nothing else |
| CanvasState.MapMatching | app/context/canvas-context.tsx:88 | same length; position i is f(e) when e has the id and e unchanged otherwise |
| CanvasState.RemoveId | app/context/canvas-context.tsx:95 | the survivors are exactly the elements without the id; the result is no longer; with no match it is the input itself |
| CanvasState.AddOne | app/context/canvas-context.tsx:64-70 | snapshot taken; old elements kept as a prefix; one element appended equal to the input but with z-index = old counter and opacity 1; counter + 1 |
| CanvasState.Stamped | app/context/canvas-context.tsx:74-78 | the i-th batch element gets z-index base + i and opacity 1, all else kept |
| CanvasState.AddBatch | app/context/canvas-context.tsx:72-83 | one snapshot; old elements kept as a prefix; the batch appended in order with consecutive z-indices from the counter; counter + k |
| CanvasState.Merge | app/context/canvas-context.tsx:88 | each supplied field overwrites and each absent field is kept |
| CanvasState.UpdateMatching | app/context/canvas-context.tsx:85-89 | only matching elements are merged; nothing but the element list changes |
| CanvasState.DeleteMatching | app/context/canvas-context.tsx:91-97 | snapshot taken; survivors are exactly the non-matching elements; the selection becomes null iff it was null or the deleted id |
| CanvasState.Select | app/context/canvas-context.tsx:99-100 | the selection becomes the target, unchecked; nothing else changes |
| CanvasState.MoveMatching | app/context/canvas-context.tsx:102-106 | matching elements get the new x,y and nothing else; others unchanged |
| CanvasState.ResizeMatching | app/context/canvas-context.tsx:108-114 | matching elements get the new width,height and nothing else; others unchanged |
| CanvasState.RaiseToTop | app/context/canvas-context.tsx:116-122 | empty list: no change; otherwise, for an element j holding the largest z-index, the target gets z(j)+1 and the counter becomes max(counter, z(j)+2); the target is strictly above every other element, only z-indices of the target change, and every z-index stays below the counter |
| CanvasState.LowerToBottom | app/context/canvas-context.tsx:124-129 | empty list: no change; otherwise, for an element j holding the smallest z-index, the target gets max(0, z(j)-1); only z-indices of the target change |
| CanvasState.SetBackground | app/context/canvas-context.tsx:131-132 | the background becomes the argument; nothing else changes |
| CanvasState.UndoOnce | app/context/canvas-context.tsx:134-144 | index 0: no change; otherwise elements := history[index-1], index - 1, selection cleared, all else unchanged |
| CanvasState.Step | app/context/canvas-context.tsx:62-149 | history stays valid; the counter never decreases; ADD, ADD_MULTIPLE and DELETE snapshot even when nothing matches; other commands except UNDO keep history and index; UNDO keeps history; only SET_CANVAS_BACKGROUND changes the background |
| CanvasState.Run | app/context/canvas-context.tsx:156-157 | any command sequence keeps the history valid and the counter monotone |
| Numbers.SeqMin | app/context/canvas-context.tsx:125 | `Math.min` of a non-empty list: a lower bound that is attained |
| Numbers.SeqMax | app/context/canvas-context.tsx:117 | `Math.max` of a non-empty list: an upper bound that is attained |
| Numbers.NatString | app/components/toolbar.tsx:12 | the template-literal rendering of a clock reading: at least one decimal digit, starting with '0' only for 0 |
| Numbers.IntString | app/components/drawing-canvas.tsx:58 | the rendering of a coordinate: at least one character, digits and '-', starting with '-' exactly for negative numbers |
| Numbers.NatStringRoundTrip | app/components/toolbar.tsx:12 | decimal rendering of a clock reading parses back to it |
| Numbers.IntStringRoundTrip | app/components/drawing-canvas.tsx:58 | decimal rendering of a coordinate, sign included, parses back to it |
| Numbers.NatStringInjective | app/components/toolbar.tsx:45 | different numbers render differently |
| CanvasInvariants.InitSatisfiesInv | app/context/canvas-context.tsx:43-50 | the initial state satisfies the invariant |
| CanvasInvariants.SnapshotKeepsInv | app/context/canvas-context.tsx:52-60 | a snapshot keeps every history entry z-bounded and id-unique |
| CanvasInvariants.AddKeepsInv | app/context/canvas-context.tsx:64-70 | ADD with a fresh id keeps the invariant |
| CanvasInvariants.AddBatchKeepsInv | app/context/canvas-context.tsx:72-83 | ADD_MULTIPLE with distinct fresh ids keeps the invariant |
| CanvasInvariants.DeleteKeepsInv | app/context/canvas-context.tsx:91-97 | DELETE keeps the invariant, including a selection that names a live element |
| CanvasInvariants.RaiseKeepsInv | app/context/canvas-context.tsx:116-122 | BRING_FORWARD keeps every z-index in [0, counter) |
| CanvasInvariants.LowerKeepsInv | app/context/canvas-context.tsx:124-129 | SEND_BACKWARD keeps every z-index in [0, counter) |
| CanvasInvariants.UndoKeepsInv | app/context/canvas-context.tsx:134-144 | UNDO keeps the invariant, since snapshots satisfy it too |
| CanvasInvariants.StepPreservesInv | app/context/canvas-context.tsx:62-149 | every admissible command keeps the invariant |
| CanvasInvariants.RunPreservesInv | app/context/canvas-context.tsx:62-149 | every admissible command sequence keeps the invariant |
| CanvasInvariants.ReachableInv | app/context/canvas-context.tsx:43-60 | every state reached from the initial state by admissible commands satisfies the invariant |
| CanvasInvariants.HistoryAlwaysBounded | app/context/canvas-context.tsx:53-58 | from the initial state, any commands keep 1 <= history length <= 50 and the index in range |
| CanvasInvariants.UndoAfterSnapshot | app/context/canvas-context.tsx:134-139 | UNDO right after a snapshotting command reloads the entry below the one that command pushed |
| CanvasInvariants.TwoAddsThenUndoEmpties | app/context/canvas-context.tsx:134-139 | from the initial state, ADD a, ADD b, UNDO leaves no elements, although the state before ADD b held one |
| CanvasInvariants.UndoRestoringSnapshot | app/context/canvas-context.tsx:134-144 | corrected UNDO: loads history[index], so the elements come from before the latest snapshotting command |
| CanvasInvariants.UndoRestoringSnapshotInverts | app/context/canvas-context.tsx:52-58 | with the corrected UNDO, undoing ADD, ADD_MULTIPLE or DELETE restores exactly the previous elements |
| CanvasInvariants.NonSnapshotRunKeepsHistory | app/context/canvas-context.tsx:85-114 | commands that take no snapshot never change history, index, or what UNDO restores |
| CanvasInvariants.RemoveIdDistributes | app/context/canvas-context.tsx:95 | the delete filter distributes over concatenation |
| CanvasInvariants.DeletePreservesOrder | app/context/canvas-context.tsx:91-97 | DELETE keeps each surviving element between what survives before and after it |
| CanvasInvariants.UnknownIdLeavesElements | app/context/canvas-context.tsx:85-129 | UPDATE, MOVE, RESIZE, BRING_FORWARD and SEND_BACKWARD with an unknown id leave the elements unchanged; the first three leave the whole state unchanged |
| DrawingCanvas.StartDrawing | app/components/drawing-canvas.tsx:22-23 | drawing on, path = just the press point |
| DrawingCanvas.Draw | app/components/drawing-canvas.tsx:32-43 | while drawing, appends exactly one sample; otherwise no change |
| DrawingCanvas.GesturePath | app/components/drawing-canvas.tsx:22-43 | a press then moves yields path = press point followed by the moves, in order |
| DrawingCanvas.PathData | app/components/drawing-canvas.tsx:58 | the path string is empty exactly for no samples, and otherwise starts with the "M" of the first sample (its inverse is stated by PathDataRoundTrip) |
| DrawingCanvas.PathDataRoundTrip | app/components/drawing-canvas.tsx:58 | the "M x y L x y ..." string decodes back to exactly the samples |
| DrawingCanvas.StrokeElement | app/components/drawing-canvas.tsx:57-78 | box origin at min x,y (attained); every sample inside [x, x+w-10] x [y, y+h-10]; w,h >= 10; path decodes to the samples; black, width 2; z placeholder 0 |
| DrawingCanvas.StopDrawing | app/components/drawing-canvas.tsx:54-92 | not drawing or under 2 samples: nothing; otherwise one ADD of the stroke element and the layer goes idle |
| DrawingCanvas.ClickAddsNothing | app/components/drawing-canvas.tsx:55 | a press without a move adds nothing |
| DrawingCanvas.StrokeAddsOneDrawing | app/components/drawing-canvas.tsx:54-80 | a press and at least one move, reduced, append exactly one drawing on top whose path decodes to the gesture |
| DraggableElement.HandleMouseDown | app/components/draggable-element.tsx:26-51 | non-left buttons do nothing; left selects this element, then resizes on a handle or drags with offset = cursor - position |
| DraggableElement.HandleMouseMove | app/components/draggable-element.tsx:53-69 | a drag yields MOVE to cursor - offset clamped at 0; a resize yields RESIZE to the cursor measured from the element's corner, exactly 20 along an axis where that is below 20; idle yields nothing |
| DraggableElement.HandleMouseUp | app/components/draggable-element.tsx:71-74 | leaves both modes |
| DraggableElement.MoveAfterReleaseIsSilent | app/components/draggable-element.tsx:53-74 | after mouseup, moves dispatch nothing |
| DraggableElement.DragTranslates | app/components/draggable-element.tsx:44-58 | press at p then move to p+d moves the element by d, clamped; returning to p restores an on-canvas position |
| DraggableElement.DragKeepsOnCanvas | app/components/draggable-element.tsx:55-58 | a reduced drag leaves the element at x,y >= 0, changes nothing else of it, and keeps the history |
| CanvasView.NudgeDistance | app/components/canvas.tsx:42 | 10 exactly when Shift is held, else 1 |
| CanvasView.Nudge | app/components/canvas.tsx:43-59 | up and left clamp at 0, down and right do not; one coordinate changes; x,y >= 0 is kept |
| CanvasView.Truthy | app/components/canvas.tsx:25 | the JavaScript truthiness of the selected id that both the Delete and the arrow branch test: neither null nor "" |
| CanvasView.HandleKeyDown | app/components/canvas.tsx:23-64 | Delete with a selection deletes exactly the selected id and wins; a DELETE is only ever dispatched that way; Ctrl+z undoes; an arrow moves a live selected element by Nudge; no MOVE without a live selection; nothing else dispatches |
| CanvasView.HandleCanvasClick | app/components/canvas.tsx:70-78 | a click on the bare canvas clears the selection; otherwise nothing |
| CanvasView.NudgeKeepsOnCanvas | app/components/canvas.tsx:38-61 | a reduced arrow nudge keeps every element at x,y >= 0 |
| CanvasView.InsertByZ | app/components/canvas.tsx:111 | inserting into a z-sorted list keeps it sorted and adds exactly one copy of the element |
| CanvasView.RenderOrder | app/components/canvas.tsx:110-111 | the paint order is sorted by non-decreasing z-index and is a permutation of the elements |
| CanvasView.LastIsHighest | app/components/canvas.tsx:110-111 | the last painted element has the largest z-index |
| CanvasView.RenderOrderSameMembers | app/components/canvas.tsx:110-111 | the paint order has as many entries as there are elements and holds exactly the elements |
| CanvasView.TopPaintsLast | app/components/canvas.tsx:110-111 | if the elements with an id are strictly above the rest, one of them is painted last |
| CanvasView.RaisedPaintsLast | app/components/canvas.tsx:110-111 | after BRING_FORWARD of a live id, that id is painted last |
| Toolbar.StampOf | app/components/toolbar.tsx:12 | a decoded clock reading re-encodes to the id |
| Toolbar.StampedId | app/components/toolbar.tsx:12 | a factory id is the prefix followed by a non-empty run of decimal digits |
| Toolbar.StampedIdRoundTrip | app/components/toolbar.tsx:12 | prefix + decimal clock decodes back to the clock, so factory ids differ for different readings |
| Toolbar.TextElement | app/components/toolbar.tsx:10-27 | text at (100,100), 200x50, "New Text", 16, normal, "#000000", Arial, z 0, no opacity, id decoding to the clock |
| Toolbar.ArrowElement | app/components/toolbar.tsx:71-87 | arrow at (100,100), 100x50, black border, transparent fill, direction right, z 0, no opacity |
| Toolbar.ShapeElement | app/components/toolbar.tsx:89-105 | shape at (100,100), 100x100 with the given shapeType, white fill, black border, z 0, no opacity |
| Toolbar.AddedIsTopmost | app/components/toolbar.tsx:18 | the reducer overwrites the placeholder z-index and the missing opacity: the added element sits strictly above all others, opaque, otherwise as built |
| Toolbar.UndoDisabled | app/components/toolbar.tsx:120 | the undo button's disabled flag, `historyIndex <= 0` (its meaning is stated by UndoDisabledIffNoOp) |
| Toolbar.UndoDisabledIffNoOp | app/components/toolbar.tsx:120 | the undo button is disabled exactly when UNDO would change nothing |
| Toolbar.ImageFor | app/components/toolbar.tsx:44-55 | image at (100+20i, 100+20i), 200x150, src = data URL, z 0, no opacity; the id decodes back to (clock, index), so images from distinct positions never collide |
| Toolbar.ImageId | app/components/toolbar.tsx:45 | an image id starts with "image-" and continues with digits and dashes only |
| Toolbar.ImageIdRoundTrip | app/components/toolbar.tsx:45 | `image-<clock>-<index>` decodes back to the clock and the index |
| Toolbar.ImageIdInjective | app/components/toolbar.tsx:45 | different (clock, index) pairs give different image ids |
| Toolbar.OnLoad | app/components/toolbar.tsx:43-62 | pushes the image, counts it, and dispatches the whole collection exactly when the count reaches the number of files |
| Toolbar.CollectState | app/components/toolbar.tsx:41-63 | after any completions, every image is collected in completion order and counted |
| Toolbar.CollectDispatches | app/components/toolbar.tsx:41-63 | what any run of completions dispatches equals the closed form `Expected`: one batch holding the images collected before plus the completions up to the one that brings the count to the number of files, and nothing when the count never reaches it |
| Toolbar.UploadImages | app/components/toolbar.tsx:35-66 | no files chosen, or fewer completions than files: nothing dispatched; otherwise exactly one ADD_MULTIPLE holding the images of the first N completions, in completion order |
| Toolbar.UploadDispatchesOnce | app/components/toolbar.tsx:35-66 | N >= 1 files, all loaded: exactly one ADD_MULTIPLE with N images; fewer loaded: nothing dispatched |
| Toolbar.ImagesHaveUniqueIds | app/components/toolbar.tsx:41-56 | completions for distinct files yield a batch with distinct ids |
| PropertyPanel.SelectedElement | app/components/property-panel.tsx:12 | no selection: none; otherwise the first element with the selected id, or none when no element has it |
| PropertyPanel.PropertiesOnly | app/components/property-panel.tsx:19-24 | an update carrying only the property bag |
| PropertyPanel.UpdateElementProperty | app/components/property-panel.tsx:14-26 | nothing without a selection; otherwise UPDATE of the selected id with the old bag plus one key set |
| PropertyPanel.DeleteSelected | app/components/property-panel.tsx:28-31 | nothing without a selection; otherwise DELETE of the selected id |
| PropertyPanel.BackgroundChange | app/components/property-panel.tsx:33-35 | SET_CANVAS_BACKGROUND with exactly the given kind and value |
| PropertyPanel.BackgroundImageUpload | app/components/property-panel.tsx:37-52 | a chosen file's data URL becomes an image background; no file: nothing |
| PropertyPanel.ColorInputValue | app/components/property-panel.tsx:65 | shows the background value for a colour background, "#ffffff" for an image |
| PropertyPanel.ColorInputShowsPick | app/components/property-panel.tsx:65-66 | after picking c the input shows c; after an image upload it shows white |
| PropertyPanel.TextDefaultsAreListed | app/components/property-panel.tsx:116-158 | a new text element's weight and family are the first options of their selects |
| PropertyPanel.PanelFieldsExist | app/components/property-panel.tsx:94-235 | every field the panel edits exists on the element the toolbar or the drawing layer built |
| PropertyPanel.PropertyEditSetsOneKey | app/components/property-panel.tsx:14-26 | a reduced edit sets exactly one key on exactly the selected element; other keys, other elements, selection and history unchanged |
| PropertyPanel.PanelDeleteRemovesSelected | app/components/property-panel.tsx:28-31 | a reduced panel delete removes the selected id, keeps the others, clears the selection, and the corrected UNDO restores the elements |
| ShapeView.Slice | app/components/elements/shape-element.tsx:13-15 | `slice` with both ends clamped to the length |
| ShapeView.HexRun | app/components/elements/shape-element.tsx:13-15 | the length of the leading run of hex digits |
| ShapeView.ParseHex | app/components/elements/shape-element.tsx:13-15 | `parseInt(t, 16)`: NaN (None) for the empty text and for text starting with neither a sign nor a hex digit; without a sign or "0x" prefix, the value of the leading hex-digit run (the whole text when it is all hex digits); non-negative when the text starts with a digit |
| ShapeView.ParseHexAllDigits | app/components/elements/shape-element.tsx:13-15 | a text made only of hex digits reads as its whole base-16 value |
| ShapeView.PairValue | app/components/elements/shape-element.tsx:13-15 | two hex digits read as 16*hi + lo |
| ShapeView.HexToRgba | app/components/elements/shape-element.tsx:12-17 | channels from characters 1-2, 3-4, 5-6; for `#rrggbb` each is 16*hi + lo; alpha as given |
| ShapeView.ChannelsInRange | app/components/elements/shape-element.tsx:12-15 | for `#rrggbb` each channel is defined and in [0,255] |
| ShapeView.RgbToHex | app/components/elements/shape-element.tsx:12-16 | reference encoder: channels to lower-case `#rrggbb` |
| ShapeView.DecodeEncode | app/components/elements/shape-element.tsx:12-16 | decoding an encoded colour gives back its channels |
| ShapeView.EncodeDecode | app/components/elements/shape-element.tsx:12-16 | encoding the decoded channels of a lower-case colour gives back the colour |
| ShapeView.PropOr | app/components/elements/shape-element.tsx:8 | destructuring default: the stored value, else the default |
| ShapeView.ShapeStyle | app/components/elements/shape-element.tsx:8-25 | defined iff the background colour is a string; "transparent" passes through, anything else is decoded; border width defaults to 2 and opacity to 1 |
| ShapeView.Render | app/components/elements/shape-element.tsx:27-49 | circle rounded, oval elliptical, line a border-thick bar at the background opacity, square and unknown types plain |
| ShapeView.ShapeButtonsRender | app/components/elements/shape-element.tsx:8-49 | each toolbar shape renders: white, 2px black border, the outline its button names; every shape button's element renders without failing |
| ShapeView.PickedColourIsDrawn | app/components/elements/shape-element.tsx:19-21 | a lower-case colour set from the panel is drawn with channels that encode back to it |

## Left out

- React plumbing is left out: the context, provider, hooks, listener registration and JSX markup. Nothing observable by the model happens there.
- A missing DOM node (a null ref, so no rectangle) is left out. The drawing layer and the draggable element stop early in that case. A missing node is a DOM condition, and the model takes the rectangle as a parameter (`corner`, canvas-relative points).
- The case where a left mousedown finds no element rectangle is left out. The source then selects but enters neither mode; the model always enters a mode.
- The 2D canvas drawing calls (`moveTo`, `lineTo`, `stroke`, `clearRect`) are left out. They only paint the live preview.
- `Date.now()` and `FileReader` are parameters. A clock reading is a `stamp`, and a file read is a `Load` event carrying the data URL. A file whose read never completes is an event that never arrives.
- Floating point is not modelled. Coordinates are integers, and opacity and numeric properties are opaque reals.
- Number-to-string conversion is modelled only for integers. JavaScript's exponent notation above 1e21 and fractional digits are left out.
- The `rgba(...)` text itself is left out. The fill is kept structured as channels and alpha.
- `parseInt` on the property panel's number inputs (font size, stroke width) is left out. The parsed value is a parameter of `UpdateElementProperty`.
- `ShapeView.ParseHex` does not skip leading whitespace.
- The in-place `sort` at canvas.tsx line 111 is left out. It also reorders the state's own element array. The model computes the paint order as a sorted copy.
- `CanvasView.RenderOrder` states sortedness and permutation but not stability.
- The undo history holds copies of the element arrays. The copying is not modelled because Dafny sequences are values.
- The pure renderers are left out: text, image, arrow and drawing elements, and the page layout. They compute no state.
- The context menu is left out. Its handlers only dispatch BRING_FORWARD, SEND_BACKWARD and DELETE, which the reducer model covers.
- The font weight and font family option lists are recorded as constants, used only to state that a new text element opens on a listed choice. The panel passes whatever value is chosen.
- CanvasInvariants.HistoryAlwaysBounded: stated for runs from the initial state only. Step's own contract covers every valid state.

## Findings

| source | as written | input that shows it | evidently intended | confidence | as-written member | corrected member |
|---|---|---|---|---|---|---|
| app/context/canvas-context.tsx:134-139 | UNDO loads `history[historyIndex - 1]`, but `saveToHistory` stores the pre-command elements at `history[historyIndex]`, so UNDO jumps back two structural commands | from the initial state: ADD a, ADD b, UNDO gives no elements instead of [a] | UNDO after a snapshotting command restores the elements from just before that command | not executed | CanvasInvariants.TwoAddsThenUndoEmpties | CanvasInvariants.UndoRestoringSnapshotInverts |
