/** How a shape element is drawn: the fill colour decoded from `#rrggbb`
    (or passed through when transparent), the border, the defaults for
    absent properties, and the outline chosen by `shapeType`. */
module ShapeView {
  import opened Wrappers
  import opened Numbers
  import opened CanvasState
  import Toolbar

  predicate IsHexDigit(c: char) {
    '0' <= c <= '9' || 'a' <= c <= 'f' || 'A' <= c <= 'F'
  }

  predicate IsLowerHexDigit(c: char) {
    '0' <= c <= '9' || 'a' <= c <= 'f'
  }

  function HexValue(c: char): (v: nat)
    requires IsHexDigit(c)
    ensures v < 16
  {
    if '0' <= c <= '9' then c as int - '0' as int
    else if 'a' <= c <= 'f' then c as int - 'a' as int + 10
    else c as int - 'A' as int + 10
  }

  /** The lower-case digit for a value below 16. */
  function LowerHexChar(v: nat): (c: char)
    requires v < 16
    ensures IsLowerHexDigit(c) && IsHexDigit(c) && HexValue(c) == v
  {
    if v < 10 then ('0' as int + v) as char else ('a' as int + v - 10) as char
  }

  lemma LowerHexCharOfValue(c: char)
    requires IsLowerHexDigit(c)
    ensures LowerHexChar(HexValue(c)) == c
  {
  }

  /** `s.slice(from, to)` for 0 <= from <= to: both ends clamp to the length. */
  function Slice(s: string, from: nat, to: nat): (r: string)
    requires from <= to
    ensures to <= |s| ==> r == s[from..to]
    ensures |s| <= from ==> r == []
    ensures from < |s| < to ==> r == s[from..]
  {
    if |s| <= from then [] else s[from..Min(to, |s|)]
  }

  /** Number of leading hexadecimal digits. */
  function HexRun(t: string): (n: nat)
    ensures n <= |t|
    ensures forall k :: 0 <= k < n ==> IsHexDigit(t[k])
    ensures n < |t| ==> !IsHexDigit(t[n])
  {
    if |t| == 0 || !IsHexDigit(t[0]) then 0 else 1 + HexRun(t[1..])
  }

  /** Value of a string of hexadecimal digits, most significant first. */
  function HexNat(t: string): nat
    requires forall k :: 0 <= k < |t| ==> IsHexDigit(t[k])
  {
    if |t| == 0 then 0 else 16 * HexNat(t[..|t| - 1]) + HexValue(t[|t| - 1])
  }

  /** `t` starts with exactly `n` > 0 hexadecimal digits. */
  predicate LeadingHex(t: string, n: nat) {
    0 < n <= |t| && (forall k :: 0 <= k < n ==> IsHexDigit(t[k])) && (n == |t| || !IsHexDigit(t[n]))
  }

  /** `t` starts with the radix prefix "0x" or "0X". */
  predicate HexPrefixed(t: string) {
    |t| >= 2 && t[0] == '0' && (t[1] == 'x' || t[1] == 'X')
  }

  /** `Number.parseInt(t, 16)`: an optional sign, an optional "0x" or "0X",
      then the value of the leading run of hex digits; None (NaN) when that
      run is empty. */
  function ParseHex(t: string): (r: Option<int>)
    ensures r.Some? && |t| > 0 && IsHexDigit(t[0]) ==> r.value >= 0
    ensures |t| == 0 ==> r.None?
    ensures |t| > 0 && !IsHexDigit(t[0]) && t[0] != '-' && t[0] != '+' ==> r.None?
    ensures forall n: nat :: LeadingHex(t, n) && !HexPrefixed(t) ==> r == Some(HexNat(t[..n]))
  {
    var neg := |t| > 0 && t[0] == '-';
    var u := if |t| > 0 && (t[0] == '-' || t[0] == '+') then t[1..] else t;
    var w := if |u| >= 2 && u[0] == '0' && (u[1] == 'x' || u[1] == 'X') then u[2..] else u;
    var n := HexRun(w);
    assert forall m: nat :: LeadingHex(t, m) && !HexPrefixed(t) ==> w == t && n == m by {
      forall m: nat | LeadingHex(t, m) && !HexPrefixed(t) ensures w == t && n == m {
        assert !(n < m) && !(m < n);
      }
    }
    if n == 0 then None
    else
      var v: int := HexNat(w[..n]);
      Some(if neg then -v else v)
  }

  /** A text of hex digits only reads as its whole value. */
  lemma ParseHexAllDigits(t: string)
    requires |t| > 0 && forall k :: 0 <= k < |t| ==> IsHexDigit(t[k])
    ensures ParseHex(t) == Some(HexNat(t))
  {
    assert LeadingHex(t, |t|) && !HexPrefixed(t);
    assert t[..|t|] == t;
  }

  predicate IsHexColor(hex: string) {
    |hex| == 7 && hex[0] == '#' && forall k :: 1 <= k < 7 ==> IsHexDigit(hex[k])
  }

  /** What an `<input type="color">` produces: `#rrggbb` in lower case. */
  predicate IsLowerHexColor(hex: string) {
    |hex| == 7 && hex[0] == '#' && forall k :: 1 <= k < 7 ==> IsLowerHexDigit(hex[k])
  }

  /** The fill a shape is painted with: the keyword, or the rgba() channels
      where None is the NaN `parseInt` yields, and the alpha as stored. */
  datatype Fill = Transparent | Rgba(r: Option<int>, g: Option<int>, b: Option<int>, alpha: Value)

  /** hexToRgba: channels from characters 1-2, 3-4 and 5-6 read base 16. */
  function HexToRgba(hex: string, opacity: Value): (f: Fill)
    ensures f.Rgba? && f.alpha == opacity
    ensures IsHexColor(hex) ==>
              && f.r == Some(16 * HexValue(hex[1]) + HexValue(hex[2]))
              && f.g == Some(16 * HexValue(hex[3]) + HexValue(hex[4]))
              && f.b == Some(16 * HexValue(hex[5]) + HexValue(hex[6]))
  {
    Rgba(Channel(hex, 1), Channel(hex, 3), Channel(hex, 5), opacity)
  }

  /** `parseInt(hex.slice(k, k + 2), 16)`: for a valid colour, the two
      characters from position k read as one channel. */
  function Channel(hex: string, k: nat): (c: Option<int>)
    requires 1 <= k <= 5
    ensures IsHexColor(hex) ==> c == Some(16 * HexValue(hex[k]) + HexValue(hex[k + 1]))
  {
    if IsHexColor(hex) then
      assert Slice(hex, k, k + 2) == [hex[k], hex[k + 1]];
      PairValue(hex[k], hex[k + 1]);
      ParseHex(Slice(hex, k, k + 2))
    else
      ParseHex(Slice(hex, k, k + 2))
  }

  /** Two hex digits read as a base-16 number. */
  lemma PairValue(hi: char, lo: char)
    requires IsHexDigit(hi) && IsHexDigit(lo)
    ensures ParseHex([hi, lo]) == Some(16 * HexValue(hi) + HexValue(lo))
  {
    var t := [hi, lo];
    assert t[1..] == [lo] && [lo][1..] == [];
    assert HexRun([lo]) == 1;
    assert HexRun(t) == 2;
    assert t[..2] == t && t[..1] == [hi] && [hi][..0] == [];
    assert HexNat([hi]) == HexValue(hi);
    assert HexNat(t) == 16 * HexValue(hi) + HexValue(lo);
  }

  /** Each channel of a valid colour lies in [0, 255]. */
  lemma ChannelsInRange(hex: string, opacity: Value)
    requires IsHexColor(hex)
    ensures var f := HexToRgba(hex, opacity);
            && f.r.Some? && f.g.Some? && f.b.Some?
            && 0 <= f.r.value <= 255 && 0 <= f.g.value <= 255 && 0 <= f.b.value <= 255
  {
  }

  /** The inverse direction: channels in [0, 255] written as lower-case `#rrggbb`. */
  function RgbToHex(r: nat, g: nat, b: nat): (hex: string)
    requires r < 256 && g < 256 && b < 256
    ensures IsLowerHexColor(hex) && IsHexColor(hex)
  {
    ['#', LowerHexChar(r / 16), LowerHexChar(r % 16), LowerHexChar(g / 16), LowerHexChar(g % 16),
     LowerHexChar(b / 16), LowerHexChar(b % 16)]
  }

  /** Decoding an encoded colour gives back its channels. */
  lemma DecodeEncode(r: nat, g: nat, b: nat, opacity: Value)
    requires r < 256 && g < 256 && b < 256
    ensures HexToRgba(RgbToHex(r, g, b), opacity) == Rgba(Some(r), Some(g), Some(b), opacity)
  {
    var hex := RgbToHex(r, g, b);
    EncodedChars(r, g, b);
    assert 16 * HexValue(hex[1]) + HexValue(hex[2]) == r;
    assert 16 * HexValue(hex[3]) + HexValue(hex[4]) == g;
    assert 16 * HexValue(hex[5]) + HexValue(hex[6]) == b;
  }

  /** A lower-case digit pair survives reading as a number and writing back. */
  lemma PairRoundTrip(hi: char, lo: char)
    requires IsLowerHexDigit(hi) && IsLowerHexDigit(lo)
    ensures var v := 16 * HexValue(hi) + HexValue(lo);
            v < 256 && LowerHexChar(v / 16) == hi && LowerHexChar(v % 16) == lo
  {
    var v := 16 * HexValue(hi) + HexValue(lo);
    assert v / 16 == HexValue(hi) && v % 16 == HexValue(lo);
    LowerHexCharOfValue(hi);
    LowerHexCharOfValue(lo);
  }

  /** Encoding the channels of a colour picked in a colour input gives back the colour. */
  lemma EncodeDecode(hex: string, opacity: Value)
    requires IsLowerHexColor(hex)
    ensures var f := HexToRgba(hex, opacity);
            && f.r.Some? && f.g.Some? && f.b.Some?
            && 0 <= f.r.value < 256 && 0 <= f.g.value < 256 && 0 <= f.b.value < 256
            && RgbToHex(f.r.value, f.g.value, f.b.value) == hex
  {
    assert IsHexColor(hex);
    var f := HexToRgba(hex, opacity);
    var r := 16 * HexValue(hex[1]) + HexValue(hex[2]);
    var g := 16 * HexValue(hex[3]) + HexValue(hex[4]);
    var b := 16 * HexValue(hex[5]) + HexValue(hex[6]);
    assert f.r == Some(r) && f.g == Some(g) && f.b == Some(b);
    EncodePairs(hex, r, g, b);
  }

  /** The channels read off a lower-case colour encode back to it. */
  lemma EncodePairs(hex: string, r: nat, g: nat, b: nat)
    requires IsLowerHexColor(hex)
    requires r == 16 * HexValue(hex[1]) + HexValue(hex[2])
    requires g == 16 * HexValue(hex[3]) + HexValue(hex[4])
    requires b == 16 * HexValue(hex[5]) + HexValue(hex[6])
    ensures r < 256 && g < 256 && b < 256 && RgbToHex(r, g, b) == hex
  {
    PairRoundTrip(hex[1], hex[2]);
    PairRoundTrip(hex[3], hex[4]);
    PairRoundTrip(hex[5], hex[6]);
    EncodedChars(r, g, b);
    SevenChars(RgbToHex(r, g, b), hex);
  }

  lemma EncodedChars(r: nat, g: nat, b: nat)
    requires r < 256 && g < 256 && b < 256
    ensures var e := RgbToHex(r, g, b);
            && e[0] == '#' && e[1] == LowerHexChar(r / 16) && e[2] == LowerHexChar(r % 16)
            && e[3] == LowerHexChar(g / 16) && e[4] == LowerHexChar(g % 16)
            && e[5] == LowerHexChar(b / 16) && e[6] == LowerHexChar(b % 16)
  {
  }

  /** Two seven-character strings that agree at every position are equal. */
  lemma SevenChars(a: string, b: string)
    requires |a| == 7 && |b| == 7
    requires a[0] == b[0] && a[1] == b[1] && a[2] == b[2] && a[3] == b[3]
    requires a[4] == b[4] && a[5] == b[5] && a[6] == b[6]
    ensures a == b
  {
    assert forall k :: 0 <= k < 7 ==> a[k] == b[k];
  }

  /** The style every outline shares: the fill and the border. */
  datatype Style = Style(fill: Fill, borderWidth: Value, borderColor: Option<Value>)

  /** What a shape element draws. A line is a bar as thick as the border,
      in the border colour, at the background opacity. */
  datatype Look =
    | Rounded(style: Style)
    | Plain(style: Style)
    | Ellipse(style: Style)
    | Line(thickness: Value, color: Option<Value>, opacity: Value)

  /** Destructuring with a default: the stored value, or the default when the key is absent. */
  function PropOr(props: Props, key: string, default: Value): (v: Value)
    ensures key in props ==> v == props[key]
    ensures key !in props ==> v == default
  {
    if key in props then props[key] else default
  }

  /** The style object; None where rendering throws, because the background
      colour is absent or not a string and so has no `slice`. */
  function ShapeStyle(props: Props): (r: Option<Style>)
    ensures r.Some? <==> "backgroundColor" in props && props["backgroundColor"].Str?
    ensures r.Some? ==>
              && r.value.borderWidth == PropOr(props, "borderWidth", Num(2.0))
              && r.value.borderColor == (if "borderColor" in props then Some(props["borderColor"]) else None)
              && (props["backgroundColor"] == Str("transparent") <==> r.value.fill.Transparent?)
              && (r.value.fill.Rgba? ==>
                    r.value.fill == HexToRgba(props["backgroundColor"].s, PropOr(props, "backgroundOpacity", Num(1.0))))
  {
    var opacity := PropOr(props, "backgroundOpacity", Num(1.0));
    var width := PropOr(props, "borderWidth", Num(2.0));
    var border := if "borderColor" in props then Some(props["borderColor"]) else None;
    if "backgroundColor" !in props || !props["backgroundColor"].Str? then None
    else
      var bg := props["backgroundColor"].s;
      var fill := if bg == "transparent" then Transparent else HexToRgba(bg, opacity);
      Some(Style(fill, width, border))
  }

  /** renderShape: the style is built first, then `shapeType` picks the outline. */
  function Render(props: Props): (r: Option<Look>)
    ensures r.Some? <==> ShapeStyle(props).Some?
    ensures r.Some? ==>
              var st := ShapeStyle(props).value;
              var t := PropOr(props, "shapeType", Str(""));
              && (t == Str("circle") <==> r.value == Rounded(st))
              && (t == Str("oval") <==> r.value == Ellipse(st))
              && (t == Str("line") <==> r.value.Line?)
              && (t != Str("circle") && t != Str("oval") && t != Str("line") <==> r.value == Plain(st))
              && (r.value.Line? ==>
                    r.value == Line(st.borderWidth, st.borderColor, PropOr(props, "backgroundOpacity", Num(1.0))))
  {
    match ShapeStyle(props)
    case None => None
    case Some(st) =>
      var t := if "shapeType" in props then props["shapeType"] else Str("");
      if t == Str("circle") then Some(Rounded(st))
      else if t == Str("oval") then Some(Ellipse(st))
      else if t == Str("line") then
        Some(Line(st.borderWidth, st.borderColor, PropOr(props, "backgroundOpacity", Num(1.0))))
      else Some(Plain(st))
  }

  /** The fill and border every shape button starts with: opaque white, a 2px black border. */
  const ButtonStyle := Style(Rgba(Some(255), Some(255), Some(255), Num(1.0)), Num(2.0), Some(Str("#000000")))

  /** Each shape button's element renders without failing, white with a
      black 2px border: circle rounded, square plain, oval elliptical, and
      line a 2px black bar. */
  lemma ShapeButtonsRender(stamp: nat)
    ensures Render(Toolbar.ShapeElement(stamp, "circle").properties) == Some(Rounded(ButtonStyle))
    ensures Render(Toolbar.ShapeElement(stamp, "square").properties) == Some(Plain(ButtonStyle))
    ensures Render(Toolbar.ShapeElement(stamp, "oval").properties) == Some(Ellipse(ButtonStyle))
    ensures Render(Toolbar.ShapeElement(stamp, "line").properties) == Some(Line(Num(2.0), Some(Str("#000000")), Num(1.0)))
    ensures forall t :: t in Toolbar.ShapeButtons ==> Render(Toolbar.ShapeElement(stamp, t).properties).Some?
  {
    ButtonShapeStyle(stamp, "circle");
    ButtonShapeStyle(stamp, "square");
    ButtonShapeStyle(stamp, "oval");
    ButtonShapeStyle(stamp, "line");
    forall t | t in Toolbar.ShapeButtons ensures Render(Toolbar.ShapeElement(stamp, t).properties).Some? {
      ButtonShapeStyle(stamp, t);
    }
  }

  /** Whatever its type, a toolbar shape has the button style. */
  lemma ButtonShapeStyle(stamp: nat, t: string)
    ensures var props := Toolbar.ShapeElement(stamp, t).properties;
            && ShapeStyle(props) == Some(ButtonStyle)
            && PropOr(props, "shapeType", Str("")) == Str(t)
            && PropOr(props, "backgroundOpacity", Num(1.0)) == Num(1.0)
  {
    var props := Toolbar.ShapeElement(stamp, t).properties;
    assert "borderWidth" !in props && "backgroundOpacity" !in props;
    assert props["backgroundColor"] == Str("#ffffff") && props["borderColor"] == Str("#000000");
    WhiteFill();
  }

  /** Opaque white decodes to full channels. */
  lemma WhiteFill()
    ensures HexToRgba("#ffffff", Num(1.0)) == Rgba(Some(255), Some(255), Some(255), Num(1.0))
  {
    var w := "#ffffff";
    assert w[1] == 'f' && w[2] == 'f' && w[3] == 'f' && w[4] == 'f' && w[5] == 'f' && w[6] == 'f';
    assert IsHexColor(w);
    assert HexValue('f') == 15;
  }

  /** A background picked in the colour input is drawn with channels that
      encode back to exactly the picked colour, at the stored opacity. */
  lemma PickedColourIsDrawn(props: Props, c: string)
    requires IsLowerHexColor(c)
    ensures var st := ShapeStyle(props["backgroundColor" := Str(c)]);
            && st.Some? && st.value.fill.Rgba?
            && st.value.fill.alpha == PropOr(props, "backgroundOpacity", Num(1.0))
            && var f := st.value.fill;
            && f.r.Some? && f.g.Some? && f.b.Some?
            && 0 <= f.r.value < 256 && 0 <= f.g.value < 256 && 0 <= f.b.value < 256
            && RgbToHex(f.r.value, f.g.value, f.b.value) == c
  {
    var p := props["backgroundColor" := Str(c)];
    assert c != "transparent" by { assert c[0] == '#'; }
    assert PropOr(p, "backgroundOpacity", Num(1.0)) == PropOr(props, "backgroundOpacity", Num(1.0));
    var o := PropOr(props, "backgroundOpacity", Num(1.0));
    assert ShapeStyle(p).value.fill == HexToRgba(c, o);
    EncodeDecode(c, o);
  }
}
