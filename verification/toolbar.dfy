/** The toolbar: factories for the elements it adds, the multi-image upload
    that joins one batch out of per-file load events, and the undo button. */
module Toolbar {
  import opened Wrappers
  import opened Numbers
  import opened CanvasState
  import opened CanvasInvariants

  /** The id a factory gives an element: a kind prefix, then the clock
      reading in decimal. */
  function StampedId(prefix: string, stamp: nat): (id: string)
    ensures |id| > |prefix| && id[..|prefix|] == prefix && AllDigits(id[|prefix|..])
  {
    prefix + NatString(stamp)
  }

  /** Reads the clock reading back out of an id with the given prefix. */
  function StampOf(prefix: string, id: string): (r: Option<nat>)
    ensures r.Some? ==> StampedId(prefix, r.value) == id
  {
    if |prefix| < |id| && id[..|prefix|] == prefix && AllDigits(id[|prefix|..])
       && NatString(ParseNat(id[|prefix|..])) == id[|prefix|..]
    then
      assert id == prefix + id[|prefix|..];
      Some(ParseNat(id[|prefix|..]))
    else None
  }

  /** Ids of one factory are decoded back to the clock reading that made them,
      so two readings never give the same id. */
  lemma StampedIdRoundTrip(prefix: string, stamp: nat)
    ensures StampOf(prefix, StampedId(prefix, stamp)) == Some(stamp)
  {
    var id := StampedId(prefix, stamp);
    assert id[..|prefix|] == prefix;
    assert id[|prefix|..] == NatString(stamp);
    NatStringRoundTrip(stamp);
  }

  /** "Add Text": a 200x50 box at (100, 100) reading "New Text" in 16px
      normal black Arial. */
  function TextElement(stamp: nat): (e: Element)
    ensures e.kind == Text && StampOf("text-", e.id) == Some(stamp)
    ensures Point(e.x, e.y) == Point(100, 100) && e.width == 200 && e.height == 50
    ensures e.properties.Keys == {"text", "fontSize", "fontWeight", "color", "fontFamily"}
    ensures e.properties["text"] == Str("New Text") && e.properties["fontSize"] == Num(16.0)
    ensures e.properties["fontWeight"] == Str("normal") && e.properties["color"] == Str("#000000")
    ensures e.properties["fontFamily"] == Str("Arial")
    ensures e.zIndex == 0 && e.opacity.None?
  {
    StampedIdRoundTrip("text-", stamp);
    Element(StampedId("text-", stamp), Text, 100, 100, 200, 50, 0, None,
      map["text" := Str("New Text"), "fontSize" := Num(16.0), "fontWeight" := Str("normal"),
          "color" := Str("#000000"), "fontFamily" := Str("Arial")])
  }

  /** "Add Arrow": a 100x50 right-pointing black arrow on a transparent fill at (100, 100). */
  function ArrowElement(stamp: nat): (e: Element)
    ensures e.kind == Arrow && StampOf("arrow-", e.id) == Some(stamp)
    ensures Point(e.x, e.y) == Point(100, 100) && e.width == 100 && e.height == 50
    ensures e.properties.Keys == {"borderColor", "backgroundColor", "direction"}
    ensures e.properties["borderColor"] == Str("#000000")
    ensures e.properties["backgroundColor"] == Str("transparent")
    ensures e.properties["direction"] == Str("right")
    ensures e.zIndex == 0 && e.opacity.None?
  {
    StampedIdRoundTrip("arrow-", stamp);
    Element(StampedId("arrow-", stamp), Arrow, 100, 100, 100, 50, 0, None,
      map["borderColor" := Str("#000000"), "backgroundColor" := Str("transparent"),
          "direction" := Str("right")])
  }

  /** The four shape buttons, in the order they are laid out. */
  const ShapeButtons: seq<string> := ["circle", "square", "oval", "line"]

  /** A shape button: a 100x100 white shape with a black border at (100, 100). */
  function ShapeElement(stamp: nat, shapeType: string): (e: Element)
    ensures e.kind == Shape && StampOf("shape-", e.id) == Some(stamp)
    ensures Point(e.x, e.y) == Point(100, 100) && e.width == 100 && e.height == 100
    ensures e.properties.Keys == {"shapeType", "backgroundColor", "borderColor"}
    ensures e.properties["shapeType"] == Str(shapeType)
    ensures e.properties["backgroundColor"] == Str("#ffffff")
    ensures e.properties["borderColor"] == Str("#000000")
    ensures e.zIndex == 0 && e.opacity.None?
  {
    StampedIdRoundTrip("shape-", stamp);
    Element(StampedId("shape-", stamp), Shape, 100, 100, 100, 100, 0, None,
      map["shapeType" := Str(shapeType), "backgroundColor" := Str("#ffffff"),
          "borderColor" := Str("#000000")])
  }

  /** Whatever z-index and opacity a factory gives, the reducer puts the
      added element strictly above every element already on the canvas,
      fully opaque, and keeps everything else of it. */
  lemma AddedIsTopmost(s: State, e: Element)
    requires Inv(s)
    ensures var r := Step(s, AddElement(e));
            && |r.elements| == |s.elements| + 1
            && var top := r.elements[|s.elements|];
            && top.(zIndex := e.zIndex, opacity := e.opacity) == e
            && top.opacity == Some(1.0)
            && forall i :: 0 <= i < |s.elements| ==> r.elements[i].zIndex < top.zIndex
  {
    var r := Step(s, AddElement(e));
    forall i | 0 <= i < |s.elements| ensures r.elements[i].zIndex < s.nextZIndex {
      assert r.elements[i] == s.elements[i];
      assert s.elements[i] in s.elements;
    }
  }

  /** The undo button is disabled exactly when UNDO would change nothing. */
  predicate UndoDisabled(s: State) {
    s.historyIndex <= 0
  }

  lemma UndoDisabledIffNoOp(s: State)
    requires HistoryValid(s)
    ensures UndoDisabled(s) <==> Step(s, Undo) == s
  {
    if !UndoDisabled(s) {
      assert Step(s, Undo).historyIndex == s.historyIndex - 1;
    }
  }

  /** One FileReader completion: which file (its position in the
      selection), the clock when it completed, and the data URL read. */
  datatype Load = Load(index: nat, stamp: nat, src: string)

  /** The image element made for one completed file: offset 20 pixels
      right and down per position in the selection. */
  function ImageFor(ev: Load): (e: Element)
    ensures e.kind == Image && e.width == 200 && e.height == 150
    ensures e.x == 100 + 20 * ev.index && e.y == e.x
    ensures e.properties == map["src" := Str(ev.src)]
    ensures e.zIndex == 0 && e.opacity.None?
    ensures ParseImageId(e.id) == Some((ev.stamp, ev.index))
  {
    ImageIdRoundTrip(ev.stamp, ev.index);
    Element(ImageId(ev.stamp, ev.index), Image, 100 + 20 * ev.index, 100 + 20 * ev.index, 200, 150, 0, None,
      map["src" := Str(ev.src)])
  }

  /** `image-<clock>-<position>`. */
  function ImageId(stamp: nat, index: nat): (id: string)
    ensures |id| > 6 && id[..6] == "image-"
    ensures forall k :: 6 <= k < |id| ==> IsDigit(id[k]) || id[k] == '-'
  {
    var a, b := NatString(stamp), NatString(index);
    assert forall k :: 0 <= k < |a| ==> IsDigit(a[k]);
    assert forall k :: 0 <= k < |b| ==> IsDigit(b[k]);
    "image-" + a + "-" + b
  }

  /** Position of the first '-' in `s`, or |s| when there is none. */
  function DashAt(s: string): (i: nat)
    ensures i <= |s|
    ensures forall k :: 0 <= k < i ==> s[k] != '-'
    ensures i < |s| ==> s[i] == '-'
  {
    if |s| == 0 || s[0] == '-' then 0 else 1 + DashAt(s[1..])
  }

  /** Reads the clock and the position back out of an image id. */
  function ParseImageId(id: string): Option<(nat, nat)> {
    if |id| < 6 || id[..6] != "image-" then None
    else
      var rest := id[6..];
      var d := DashAt(rest);
      if d < |rest| && AllDigits(rest[..d]) && AllDigits(rest[d + 1..])
      then Some((ParseNat(rest[..d]), ParseNat(rest[d + 1..])))
      else None
  }

  /** The first dash after a run of digits is the one that follows it. */
  lemma {:induction false} DashAfterDigits(a: string, b: string)
    requires AllDigits(a)
    ensures DashAt(a + "-" + b) == |a|
    decreases |a|
  {
    var s := a + "-" + b;
    if |a| > 0 {
      assert s[0] == a[0] && IsDigit(a[0]);
      assert s[1..] == a[1..] + "-" + b;
      DashAfterDigits(a[1..], b);
    }
  }

  lemma ImageIdRoundTrip(stamp: nat, index: nat)
    ensures ParseImageId(ImageId(stamp, index)) == Some((stamp, index))
  {
    var id := ImageId(stamp, index);
    var a, b := NatString(stamp), NatString(index);
    assert id[..6] == "image-";
    var rest := id[6..];
    assert rest == a + "-" + b;
    DashAfterDigits(a, b);
    assert rest[..|a|] == a;
    assert rest[|a| + 1..] == b;
    NatStringRoundTrip(stamp);
    NatStringRoundTrip(index);
  }

  /** Two completions with different positions, or different clocks, never get the same id. */
  lemma ImageIdInjective(s1: nat, i1: nat, s2: nat, i2: nat)
    requires ImageId(s1, i1) == ImageId(s2, i2)
    ensures s1 == s2 && i1 == i2
  {
    ImageIdRoundTrip(s1, i1);
    ImageIdRoundTrip(s2, i2);
  }

  /** The state one upload's closures share: how many files were chosen,
      the elements pushed so far, and `processedCount`. */
  datatype Upload = Upload(files: nat, collected: seq<Element>, processed: nat)

  /** reader.onload: push the element, count it, and dispatch the whole
      batch when the count reaches the number of files. */
  function OnLoad(u: Upload, ev: Load): (r: (Upload, Option<Action>))
    ensures r.0 == Upload(u.files, u.collected + [ImageFor(ev)], u.processed + 1)
    ensures r.1.Some? <==> u.processed + 1 == u.files
    ensures r.1.Some? ==> r.1.value == AddMultipleElements(r.0.collected)
  {
    var u' := Upload(u.files, u.collected + [ImageFor(ev)], u.processed + 1);
    if u'.processed == u.files then (u', Some(AddMultipleElements(u'.collected))) else (u', None)
  }

  /** The images of a run of completions, in completion order. */
  function Images(evs: seq<Load>): (r: seq<Element>)
    ensures |r| == |evs| && forall k :: 0 <= k < |evs| ==> r[k] == ImageFor(evs[k])
  {
    seq(|evs|, k requires 0 <= k < |evs| => ImageFor(evs[k]))
  }

  /** Feeds completions one after another to the shared closure state,
      collecting what they dispatch. */
  function Collect(u: Upload, evs: seq<Load>): (r: (Upload, seq<Action>))
    decreases |evs|
  {
    if |evs| == 0 then (u, [])
    else
      var first := OnLoad(u, evs[0]);
      var rest := Collect(first.0, evs[1..]);
      (rest.0, (if first.1.Some? then [first.1.value] else []) + rest.1)
  }

  /** Splitting the first completion off a prefix of the images. */
  lemma ImagesSplit(evs: seq<Load>, n: nat)
    requires 1 <= n <= |evs|
    ensures Images(evs[..n]) == [ImageFor(evs[0])] + Images(evs[1..][..n - 1])
  {
    assert evs[1..][..n - 1] == evs[1..n];
  }

  /** What a run of completions does to the shared state: all images are
      collected in completion order and each completion is counted. */
  lemma {:induction false} CollectState(u: Upload, evs: seq<Load>)
    ensures Collect(u, evs).0 == Upload(u.files, u.collected + Images(evs), u.processed + |evs|)
    decreases |evs|
  {
    if |evs| > 0 {
      var u1 := OnLoad(u, evs[0]).0;
      assert Collect(u, evs).0 == Collect(u1, evs[1..]).0;
      CollectState(u1, evs[1..]);
      ImagesCons(evs);
      assert u1.collected + Images(evs[1..]) == u.collected + ([ImageFor(evs[0])] + Images(evs[1..]));
    }
  }

  lemma ImagesCons(evs: seq<Load>)
    requires |evs| > 0
    ensures Images(evs) == [ImageFor(evs[0])] + Images(evs[1..])
  {
  }

  /** In closed form, what a run of completions dispatches: exactly one
      batch, when the count crosses the number of files, holding what was
      collected by then; nothing otherwise. */
  function Expected(u: Upload, evs: seq<Load>): seq<Action> {
    if u.processed < u.files <= u.processed + |evs|
    then [AddMultipleElements(u.collected + Images(evs[..u.files - u.processed]))]
    else []
  }

  /** The closed form obeys the same one-completion step as `Collect`. */
  lemma ExpectedStep(u: Upload, evs: seq<Load>)
    requires |evs| > 0
    ensures var first := OnLoad(u, evs[0]);
            Expected(u, evs) == (if first.1.Some? then [first.1.value] else []) + Expected(first.0, evs[1..])
  {
    if u.processed + 1 == u.files {
      ExpectedStepLast(u, evs);
    } else if u.processed + 1 < u.files {
      ExpectedStepBefore(u, evs);
    } else {
      assert OnLoad(u, evs[0]).1.None?;
    }
  }

  lemma ExpectedStepLast(u: Upload, evs: seq<Load>)
    requires |evs| > 0 && u.processed + 1 == u.files
    ensures Expected(u, evs) == [OnLoad(u, evs[0]).1.value] + Expected(OnLoad(u, evs[0]).0, evs[1..])
  {
    var u1 := OnLoad(u, evs[0]).0;
    assert Expected(u1, evs[1..]) == [];
    assert evs[..1] == [evs[0]];
    assert Images(evs[..1]) == [ImageFor(evs[0])];
  }

  lemma ExpectedStepBefore(u: Upload, evs: seq<Load>)
    requires |evs| > 0 && u.processed + 1 < u.files
    ensures OnLoad(u, evs[0]).1.None?
    ensures Expected(u, evs) == Expected(OnLoad(u, evs[0]).0, evs[1..])
  {
    var u1 := OnLoad(u, evs[0]).0;
    assert u1 == Upload(u.files, u.collected + [ImageFor(evs[0])], u.processed + 1);
    if u.files <= u.processed + |evs| {
      var n := u.files - u.processed;
      ImagesSplit(evs, n);
      var tail := Images(evs[1..][..n - 1]);
      assert Expected(u, evs) == [AddMultipleElements(u.collected + Images(evs[..n]))];
      assert Expected(u1, evs[1..]) == [AddMultipleElements(u1.collected + tail)];
      assert u1.collected + tail == u.collected + ([ImageFor(evs[0])] + tail);
    } else {
      assert Expected(u1, evs[1..]) == [];
    }
  }

  /** What a run of completions dispatches is the closed form. */
  lemma {:induction false} CollectDispatches(u: Upload, evs: seq<Load>)
    ensures Collect(u, evs).1 == Expected(u, evs)
    decreases |evs|
  {
    if |evs| > 0 {
      var first := OnLoad(u, evs[0]);
      assert Collect(u, evs).1 == (if first.1.Some? then [first.1.value] else []) + Collect(first.0, evs[1..]).1;
      CollectDispatches(first.0, evs[1..]);
      ExpectedStep(u, evs);
    }
  }

  /** The input's change handler: with no files chosen nothing happens;
      otherwise the completions are fed to a fresh shared state. */
  function UploadImages(files: nat, evs: seq<Load>): (acts: seq<Action>)
    ensures files == 0 ==> acts == []
    ensures files > |evs| ==> acts == []
    ensures 0 < files <= |evs| ==> acts == [AddMultipleElements(Images(evs[..files]))]
  {
    if files == 0 then []
    else
      CollectDispatches(Upload(files, [], 0), evs);
      assert files <= |evs| ==> [] + Images(evs[..files]) == Images(evs[..files]);
      Collect(Upload(files, [], 0), evs).1
  }

  /** Once every chosen file has loaded, exactly one ADD_MULTIPLE_ELEMENTS
      has been dispatched, holding one image per file in completion order;
      while any file is still loading (or failed to load), nothing has. */
  lemma UploadDispatchesOnce(files: nat, evs: seq<Load>)
    ensures |evs| == files > 0 ==> UploadImages(files, evs) == [AddMultipleElements(Images(evs))]
    ensures |evs| < files ==> UploadImages(files, evs) == []
  {
    if files > 0 {
      CollectDispatches(Upload(files, [], 0), evs);
      if |evs| == files {
        assert evs[..files] == evs;
        assert [] + Images(evs) == Images(evs);
      }
    }
  }

  /** Images whose completions name distinct files carry distinct ids. */
  lemma ImagesHaveUniqueIds(evs: seq<Load>)
    requires forall i, j :: 0 <= i < j < |evs| ==> evs[i].index != evs[j].index
    ensures UniqueIds(Images(evs))
  {
    var es := Images(evs);
    forall i, j | 0 <= i < j < |es| ensures es[i].id != es[j].id {
      assert ParseImageId(es[i].id) == Some((evs[i].stamp, evs[i].index));
      assert ParseImageId(es[j].id) == Some((evs[j].stamp, evs[j].index));
    }
  }
}
