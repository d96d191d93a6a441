/** The freehand layer: cursor samples are collected while the button is
    down and, on release, turned into one `drawing` element whose SVG path
    visits every sample and whose box encloses them with a 10px margin. */
module DrawingCanvas {
  import opened Wrappers
  import opened Numbers
  import opened CanvasState

  /** The component's `isDrawing` flag and `currentPath`. */
  datatype Stroke = Stroke(isDrawing: bool, path: seq<Point>)

  const Idle := Stroke(false, [])

  /** Pressing starts a fresh path holding only the press point. */
  function StartDrawing(st: Stroke, p: Point): (r: Stroke)
    ensures r.isDrawing && r.path == [p]
  {
    Stroke(true, [p])
  }

  /** Moving while drawing appends one sample; otherwise nothing happens. */
  function Draw(st: Stroke, p: Point): (r: Stroke)
    ensures st.isDrawing ==> r.isDrawing && r.path == st.path + [p]
    ensures !st.isDrawing ==> r == st
  {
    if st.isDrawing then st.(path := st.path + [p]) else st
  }

  /** One press followed by a run of moves. */
  function Gesture(st: Stroke, press: Point, moves: seq<Point>): Stroke
    decreases |moves|
  {
    if |moves| == 0 then StartDrawing(st, press)
    else Draw(Gesture(st, press, moves[..|moves| - 1]), moves[|moves| - 1])
  }

  /** A gesture's path is exactly the press point followed by every move, in order. */
  lemma {:induction false} GesturePath(st: Stroke, press: Point, moves: seq<Point>)
    ensures Gesture(st, press, moves).isDrawing
    ensures Gesture(st, press, moves).path == [press] + moves
    decreases |moves|
  {
    if |moves| > 0 {
      GesturePath(st, press, moves[..|moves| - 1]);
      assert moves == moves[..|moves| - 1] + [moves[|moves| - 1]];
    }
  }

  function Xs(pts: seq<Point>): (xs: seq<int>)
    ensures |xs| == |pts| && forall i :: 0 <= i < |pts| ==> xs[i] == pts[i].x
  {
    seq(|pts|, i requires 0 <= i < |pts| => pts[i].x)
  }

  function Ys(pts: seq<Point>): (ys: seq<int>)
    ensures |ys| == |pts| && forall i :: 0 <= i < |pts| ==> ys[i] == pts[i].y
  {
    seq(|pts|, i requires 0 <= i < |pts| => pts[i].y)
  }

  /** "M x y" for the first sample, "L x y" for the others. */
  function Segment(first: bool, p: Point): string {
    (if first then "M" else "L") + " " + IntString(p.x) + " " + IntString(p.y)
  }

  function Segments(pts: seq<Point>, first: bool): seq<string>
    decreases |pts|
  {
    if |pts| == 0 then [] else [Segment(first, pts[0])] + Segments(pts[1..], false)
  }

  /** `parts.join(" ")` */
  function Join(parts: seq<string>): string
    decreases |parts|
  {
    if |parts| == 0 then "" else if |parts| == 1 then parts[0] else parts[0] + " " + Join(parts[1..])
  }

  /** The SVG path of a stroke. */
  function PathData(pts: seq<Point>): (d: string)
    ensures |pts| == 0 <==> d == ""
    ensures |pts| > 0 ==> d[0] == 'M'
  {
    var parts := Segments(pts, true);
    if |pts| == 0 then
      assert parts == [];
      Join(parts)
    else
      assert parts[0] == Segment(true, pts[0]) && parts[0][0] == 'M';
      assert Join(parts) == parts[0] || Join(parts) == parts[0] + " " + Join(parts[1..]);
      Join(parts)
  }

  /** Splits at every space. */
  function Split(s: string): (r: seq<string>)
    ensures |r| >= 1
    decreases |s|
  {
    if ' ' !in s then [s]
    else
      var i := IndexOfSpace(s);
      [s[..i]] + Split(s[i + 1..])
  }

  function IndexOfSpace(s: string): (i: nat)
    requires ' ' in s
    ensures i < |s| && s[i] == ' ' && ' ' !in s[..i]
  {
    if s[0] == ' ' then 0
    else
      var j := IndexOfSpace(s[1..]);
      assert s[..j + 1] == [s[0]] + s[1..][..j];
      j + 1
  }

  /** Reads a token sequence "M x y L x y ..." back into points. */
  function ParseTokens(ts: seq<string>, first: bool): Option<seq<Point>>
    decreases |ts|
  {
    if |ts| == 0 then Some([])
    else if |ts| < 3 || ts[0] != (if first then "M" else "L") then None
    else
      match (ParseInt(ts[1]), ParseInt(ts[2]), ParseTokens(ts[3..], false))
      case (Some(x), Some(y), Some(rest)) => Some([Point(x, y)] + rest)
      case _ => None
  }

  /** The inverse of `PathData`: recovers the samples from an SVG path string. */
  function ParsePath(s: string): Option<seq<Point>> {
    ParseTokens(Split(s), true)
  }

  lemma NoSpaceInIntString(n: int)
    ensures ' ' !in IntString(n)
  {
  }

  lemma SplitNoSpace(t: string)
    requires ' ' !in t
    ensures Split(t) == [t]
  {
  }

  lemma SplitAfter(t: string, u: string)
    requires ' ' !in t
    ensures Split(t + " " + u) == [t] + Split(u)
  {
    var s := t + " " + u;
    assert s[|t|] == ' ';
    assert forall k :: 0 <= k < |t| ==> s[k] == t[k];
    var i := IndexOfSpace(s);
    assert i == |t|;
    assert s[..i] == t;
    assert s[i + 1..] == u;
  }

  /** Token stream of a sequence of segments. */
  function Tokens(pts: seq<Point>, first: bool): seq<string>
    decreases |pts|
  {
    if |pts| == 0 then []
    else [if first then "M" else "L", IntString(pts[0].x), IntString(pts[0].y)] + Tokens(pts[1..], false)
  }

  lemma Regroup(c: string, xs: string, ys: string, tail: string)
    ensures c + " " + xs + " " + ys + " " + tail == c + " " + (xs + " " + (ys + " " + tail))
  {
  }

  /** Three space-free words and a tail split into the words and the tail's pieces. */
  lemma SplitThreeThen(c: string, xs: string, ys: string, tail: string)
    requires ' ' !in c && ' ' !in xs && ' ' !in ys
    ensures Split(c + " " + (xs + " " + (ys + " " + tail))) == [c, xs, ys] + Split(tail)
  {
    SplitAfter(ys, tail);
    SplitAfter(xs, ys + " " + tail);
    SplitAfter(c, xs + " " + (ys + " " + tail));
    ConsThree(c, xs, ys, Split(tail));
  }

  lemma ConsThree<T>(a: T, b: T, c: T, r: seq<T>)
    ensures [a] + ([b] + ([c] + r)) == [a, b, c] + r
  {
  }

  /** A segment followed by more text splits into its three tokens and the rest. */
  lemma SplitSegmentThen(first: bool, p: Point, tail: string)
    ensures Split(Segment(first, p) + " " + tail)
            == [if first then "M" else "L", IntString(p.x), IntString(p.y)] + Split(tail)
  {
    var c, xs, ys := if first then "M" else "L", IntString(p.x), IntString(p.y);
    NoSpaceInIntString(p.x);
    NoSpaceInIntString(p.y);
    SplitThreeThen(c, xs, ys, tail);
    Regroup(c, xs, ys, tail);
  }

  /** A lone segment splits into its three tokens. */
  lemma SplitSegment(first: bool, p: Point)
    ensures Split(Segment(first, p)) == [if first then "M" else "L", IntString(p.x), IntString(p.y)]
  {
    var c := if first then "M" else "L";
    var xs, ys := IntString(p.x), IntString(p.y);
    NoSpaceInIntString(p.x);
    NoSpaceInIntString(p.y);
    assert Segment(first, p) == c + " " + (xs + " " + ys);
    SplitAfter(c, xs + " " + ys);
    SplitAfter(xs, ys);
    SplitNoSpace(ys);
  }

  lemma {:induction false} SplitSegments(pts: seq<Point>, first: bool)
    requires |pts| >= 1
    ensures Split(Join(Segments(pts, first))) == Tokens(pts, first)
    decreases |pts|
  {
    var segs := Segments(pts, first);
    if |pts| == 1 {
      assert Segments(pts[1..], false) == [];
      assert segs == [Segment(first, pts[0])];
      SplitSegment(first, pts[0]);
    } else {
      var rest := Segments(pts[1..], false);
      assert segs == [Segment(first, pts[0])] + rest && |rest| >= 1;
      assert Join(segs) == Segment(first, pts[0]) + " " + Join(rest);
      SplitSegmentThen(first, pts[0], Join(rest));
      SplitSegments(pts[1..], false);
    }
  }

  lemma {:induction false} ParseTokensRoundTrip(pts: seq<Point>, first: bool)
    ensures ParseTokens(Tokens(pts, first), first) == Some(pts)
    decreases |pts|
  {
    if |pts| > 0 {
      var ts := Tokens(pts, first);
      var head := [if first then "M" else "L", IntString(pts[0].x), IntString(pts[0].y)];
      assert ts == head + Tokens(pts[1..], false);
      assert |ts| >= 3 && ts[0] == head[0] && ts[1] == head[1] && ts[2] == head[2];
      assert ts[3..] == Tokens(pts[1..], false);
      IntStringRoundTrip(pts[0].x);
      IntStringRoundTrip(pts[0].y);
      ParseTokensRoundTrip(pts[1..], false);
      assert ParseTokens(ts, first) == Some([pts[0]] + pts[1..]);
      assert [pts[0]] + pts[1..] == pts;
    }
  }

  /** The path string of a non-empty stroke decodes back to exactly its samples. */
  lemma PathDataRoundTrip(pts: seq<Point>)
    requires |pts| >= 1
    ensures ParsePath(PathData(pts)) == Some(pts)
  {
    SplitSegments(pts, true);
    ParseTokensRoundTrip(pts, true);
  }

  /** The element a finished stroke becomes: the box spans the samples and
      adds a 10px margin to the far sides, the path string decodes back to
      the samples, the stroke is black and 2 wide, and the z-index is the
      placeholder 0 the reducer overwrites. */
  function StrokeElement(stamp: nat, pts: seq<Point>): (e: Element)
    requires |pts| >= 1
    ensures e.kind == Drawing && e.id == "drawing-" + NatString(stamp)
    ensures forall i :: 0 <= i < |pts| ==> e.x <= pts[i].x <= e.x + e.width - 10
    ensures forall i :: 0 <= i < |pts| ==> e.y <= pts[i].y <= e.y + e.height - 10
    ensures exists i :: 0 <= i < |pts| && pts[i].x == e.x
    ensures exists i :: 0 <= i < |pts| && pts[i].y == e.y
    ensures exists i :: 0 <= i < |pts| && pts[i].x == e.x + e.width - 10
    ensures exists i :: 0 <= i < |pts| && pts[i].y == e.y + e.height - 10
    ensures e.width >= 10 && e.height >= 10
    ensures "pathData" in e.properties && e.properties["pathData"].Str?
            && ParsePath(e.properties["pathData"].s) == Some(pts)
    ensures e.properties.Keys == {"pathData", "strokeColor", "strokeWidth"}
    ensures e.properties["strokeColor"] == Str("#000000") && e.properties["strokeWidth"] == Num(2.0)
    ensures e.zIndex == 0 && e.opacity.None?
  {
    var minX, minY := SeqMin(Xs(pts)), SeqMin(Ys(pts));
    var maxX, maxY := SeqMax(Xs(pts)), SeqMax(Ys(pts));
    PathDataRoundTrip(pts);
    Element(
      "drawing-" + NatString(stamp), Drawing, minX, minY, maxX - minX + 10, maxY - minY + 10, 0, None,
      map["pathData" := Str(PathData(pts)), "strokeColor" := Str("#000000"), "strokeWidth" := Num(2.0)])
  }

  /** Release: a stroke of at least two samples becomes exactly one
      ADD_ELEMENT and the layer goes idle; otherwise nothing is dispatched
      and nothing changes. */
  function StopDrawing(st: Stroke, stamp: nat): (r: (Stroke, Option<Action>))
    ensures !st.isDrawing || |st.path| < 2 ==> r == (st, None)
    ensures st.isDrawing && |st.path| >= 2 ==>
              r.0 == Idle && r.1 == Some(AddElement(StrokeElement(stamp, st.path)))
  {
    if !st.isDrawing || |st.path| < 2 then (st, None)
    else (Idle, Some(AddElement(StrokeElement(stamp, st.path))))
  }

  /** A press with no move is a click, not a stroke: releasing it adds nothing. */
  lemma ClickAddsNothing(st: Stroke, p: Point, stamp: nat)
    ensures StopDrawing(StartDrawing(st, p), stamp).1.None?
  {
  }

  /** A press and at least one move, once released and reduced, put exactly
      one new drawing element on top of the canvas whose path decodes to
      the press point and the moves. */
  lemma StrokeAddsOneDrawing(s: State, st: Stroke, press: Point, moves: seq<Point>, stamp: nat)
    requires HistoryValid(s) && |moves| >= 1
    ensures StopDrawing(Gesture(st, press, moves), stamp).1.Some?
    ensures var a := StopDrawing(Gesture(st, press, moves), stamp).1.value;
            var r := Step(s, a);
            && |r.elements| == |s.elements| + 1
            && r.elements[..|s.elements|] == s.elements
            && r.elements[|s.elements|].kind == Drawing
            && r.elements[|s.elements|].zIndex == s.nextZIndex
            && ParsePath(r.elements[|s.elements|].properties["pathData"].s) == Some([press] + moves)
  {
    GesturePath(st, press, moves);
  }
}
