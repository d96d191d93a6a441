/** The property panel: the lookup of the selected element, single-key
    property edits, the delete button, and the canvas background controls. */
module PropertyPanel {
  import opened Wrappers
  import opened CanvasState
  import opened CanvasInvariants
  import Toolbar
  import DrawingCanvas

  /** `state.elements.find(el => el.id === state.selectedElementId)`: with no
      selection nothing matches, since no id is null. */
  function SelectedElement(s: State): (r: Option<Element>)
    ensures s.selectedElementId.None? ==> r.None?
    ensures r.None? && s.selectedElementId.Some? ==>
              forall i :: 0 <= i < |s.elements| ==> s.elements[i].id != s.selectedElementId.value
    ensures r.Some? ==>
              && s.selectedElementId == Some(r.value.id)
              && exists i :: 0 <= i < |s.elements| && s.elements[i] == r.value
                               && forall j :: 0 <= j < i ==> s.elements[j].id != r.value.id
  {
    match s.selectedElementId
    case None => None
    case Some(id) => Find(s.elements, id)
  }

  /** Updates that replace the property bag and nothing else. */
  function PropertiesOnly(p: Props): (u: Updates)
    ensures u.properties == Some(p)
    ensures u.id.None? && u.kind.None? && u.x.None? && u.y.None? && u.width.None? && u.height.None?
    ensures u.zIndex.None? && u.opacity.None?
  {
    Updates(None, None, None, None, None, None, None, None, Some(p))
  }

  /** updateElementProperty: nothing without a selection; otherwise an
      UPDATE_ELEMENT for the selected id whose only update is the old
      property bag with `key` set to `v`. */
  function UpdateElementProperty(s: State, key: string, v: Value): (r: Option<Action>)
    ensures r.None? <==> SelectedElement(s).None?
    ensures r.Some? ==>
              var el := SelectedElement(s).value;
              r.value == UpdateElement(el.id, PropertiesOnly(el.properties[key := v]))
  {
    match SelectedElement(s)
    case None => None
    case Some(el) => Some(UpdateElement(el.id, PropertiesOnly(el.properties[key := v])))
  }

  /** deleteElement: nothing without a selection, else DELETE_ELEMENT for the selected id. */
  function DeleteSelected(s: State): (r: Option<Action>)
    ensures r.None? <==> SelectedElement(s).None?
    ensures r.Some? ==> r.value == DeleteElement(SelectedElement(s).value.id)
  {
    match SelectedElement(s)
    case None => None
    case Some(el) => Some(DeleteElement(el.id))
  }

  /** handleCanvasBackgroundChange: forwards the kind and value unchanged. */
  function BackgroundChange(kind: BackgroundKind, value: string): (r: Action)
    ensures r.SetCanvasBackground? && r.background.kind == kind && r.background.value == value
  {
    SetCanvasBackground(Background(kind, value))
  }

  /** The background image button: a chosen file's data URL becomes an image
      background; closing the dialog without a file dispatches nothing. */
  function BackgroundImageUpload(dataUrl: Option<string>): (r: Option<Action>)
    ensures r.Some? <==> dataUrl.Some?
    ensures r.Some? ==> r.value == BackgroundChange(ImageFill, dataUrl.value)
  {
    match dataUrl
    case None => None
    case Some(url) => Some(BackgroundChange(ImageFill, url))
  }

  /** What the background colour input shows. */
  function ColorInputValue(s: State): (c: string)
    ensures s.canvasBackground.kind == ColorFill ==> c == s.canvasBackground.value
    ensures s.canvasBackground.kind == ImageFill ==> c == "#ffffff"
  {
    if s.canvasBackground.kind == ColorFill then s.canvasBackground.value else "#ffffff"
  }

  /** The colour input shows back whatever colour was last picked in it, and
      falls back to white once an image background is uploaded. */
  lemma ColorInputShowsPick(s: State, c: string, url: string)
    requires HistoryValid(s)
    ensures ColorInputValue(Step(s, BackgroundChange(ColorFill, c))) == c
    ensures ColorInputValue(Step(s, BackgroundImageUpload(Some(url)).value)) == "#ffffff"
  {
  }

  /** The editable fields per element kind, in the order the panel lists them. */
  function Fields(k: Kind): seq<string> {
    match k
    case Text => ["text", "fontSize", "fontWeight", "color", "fontFamily"]
    case Arrow => ["borderColor", "backgroundColor"]
    case Shape => ["backgroundColor", "borderColor"]
    case Drawing => ["strokeColor", "strokeWidth"]
    case Image => []
  }

  /** Every field the panel edits already exists on the element the
      toolbar or the drawing layer created, so an edit replaces a value
      rather than adding a key. */
  lemma PanelFieldsExist(stamp: nat, shapeType: string, pts: seq<Point>)
    requires |pts| >= 1
    ensures forall f :: f in Fields(Text) ==> f in Toolbar.TextElement(stamp).properties
    ensures forall f :: f in Fields(Arrow) ==> f in Toolbar.ArrowElement(stamp).properties
    ensures forall f :: f in Fields(Shape) ==> f in Toolbar.ShapeElement(stamp, shapeType).properties
    ensures forall f :: f in Fields(Drawing) ==> f in DrawingCanvas.StrokeElement(stamp, pts).properties
  {
    TextFieldsExist(stamp);
    ArrowFieldsExist(stamp);
    ShapeFieldsExist(stamp, shapeType);
    DrawingFieldsExist(stamp, pts);
  }

  lemma TextFieldsExist(stamp: nat)
    ensures forall f :: f in Fields(Text) ==> f in Toolbar.TextElement(stamp).properties
  {
    var keys := Toolbar.TextElement(stamp).properties.Keys;
    assert keys == {"text", "fontSize", "fontWeight", "color", "fontFamily"};
    FieldsIn(Fields(Text), keys);
  }

  lemma ArrowFieldsExist(stamp: nat)
    ensures forall f :: f in Fields(Arrow) ==> f in Toolbar.ArrowElement(stamp).properties
  {
    var props := Toolbar.ArrowElement(stamp).properties;
    assert "borderColor" in props && "backgroundColor" in props;
    FieldsIn(Fields(Arrow), props.Keys);
  }

  lemma ShapeFieldsExist(stamp: nat, shapeType: string)
    ensures forall f :: f in Fields(Shape) ==> f in Toolbar.ShapeElement(stamp, shapeType).properties
  {
    var props := Toolbar.ShapeElement(stamp, shapeType).properties;
    assert "backgroundColor" in props && "borderColor" in props;
    FieldsIn(Fields(Shape), props.Keys);
  }

  lemma DrawingFieldsExist(stamp: nat, pts: seq<Point>)
    requires |pts| >= 1
    ensures forall f :: f in Fields(Drawing) ==> f in DrawingCanvas.StrokeElement(stamp, pts).properties
  {
    var keys := DrawingCanvas.StrokeElement(stamp, pts).properties.Keys;
    DrawingKeys(keys);
  }

  lemma DrawingKeys(keys: set<string>)
    requires keys == {"pathData", "strokeColor", "strokeWidth"}
    ensures forall f :: f in Fields(Drawing) ==> f in keys
  {
    FieldsIn(Fields(Drawing), keys);
  }

  /** Every listed field is in the key set. */
  lemma FieldsIn(fs: seq<string>, keys: set<string>)
    requires forall i :: 0 <= i < |fs| ==> fs[i] in keys
    ensures forall f :: f in fs ==> f in keys
  {
  }

  /** The options of the font weight and font family selects. */
  const FontWeights: seq<string> := ["normal", "bold", "lighter"]
  const FontFamilies: seq<string> := ["Arial", "Helvetica", "Times New Roman", "Georgia", "Verdana"]

  /** A new text element's weight and family are the first option of their
      selects, so the selects open on a listed choice. */
  lemma TextDefaultsAreListed(stamp: nat)
    ensures Toolbar.TextElement(stamp).properties["fontWeight"] == Str(FontWeights[0])
    ensures Toolbar.TextElement(stamp).properties["fontFamily"] == Str(FontFamilies[0])
  {
  }

  /** `after` is `before` with property `key` set to `v`: the other keys and
      every other field are as they were. */
  ghost predicate SetsKey(before: Element, after: Element, key: string, v: Value) {
    && after.(properties := before.properties) == before
    && after.properties.Keys == before.properties.Keys + {key}
    && after.properties[key] == v
    && forall k :: k in before.properties && k != key ==> after.properties[k] == before.properties[k]
  }

  /** Merging a property-only update that sets one key sets that key and nothing else. */
  lemma MergeSetsKey(el: Element, key: string, v: Value)
    ensures SetsKey(el, Merge(el, PropertiesOnly(el.properties[key := v])), key, v)
  {
  }

  /** With unique ids, the element at `k` is the only one carrying its id. */
  lemma OnlyOneWithId(es: seq<Element>, k: nat)
    requires UniqueIds(es) && k < |es|
    ensures forall i :: 0 <= i < |es| && es[i].id == es[k].id ==> es[i] == es[k]
  {
    forall i | 0 <= i < |es| && es[i].id == es[k].id ensures es[i] == es[k] {
      assert !(i < k) && !(k < i);
    }
  }

  /** A property edit of the selected element, once reduced, sets exactly
      that key on exactly that element: the other keys, the other elements,
      the rest of the element, the selection and the history are untouched. */
  lemma PropertyEditSetsOneKey(s: State, key: string, v: Value)
    requires Inv(s) && SelectedElement(s).Some?
    ensures var el := SelectedElement(s).value;
            var r := Step(s, UpdateElementProperty(s, key, v).value);
            && r.history == s.history && r.historyIndex == s.historyIndex
            && r.selectedElementId == s.selectedElementId
            && |r.elements| == |s.elements|
            && forall i :: 0 <= i < |s.elements| ==>
                 if s.elements[i].id == el.id then SetsKey(el, r.elements[i], key, v)
                 else r.elements[i] == s.elements[i]
  {
    var el := SelectedElement(s).value;
    var u := PropertiesOnly(el.properties[key := v]);
    var r := UpdateMatching(s, el.id, u);
    assert Step(s, UpdateElementProperty(s, key, v).value) == r;
    var k :| 0 <= k < |s.elements| && s.elements[k] == el;
    MergeSetsKey(el, key, v);
    OnlyOneWithId(s.elements, k);
  }

  /** Deleting from the panel removes the selected element, clears the selection, and can be undone
      by the corrected UNDO. */
  lemma PanelDeleteRemovesSelected(s: State)
    requires Inv(s) && SelectedElement(s).Some?
    ensures var r := Step(s, DeleteSelected(s).value);
            && r.selectedElementId.None?
            && !HasId(r.elements, SelectedElement(s).value.id)
            && (forall e :: e in s.elements && e.id != SelectedElement(s).value.id ==> e in r.elements)
            && UndoRestoringSnapshot(r).elements == s.elements
  {
    UndoRestoringSnapshotInverts(s, DeleteSelected(s).value);
  }
}
