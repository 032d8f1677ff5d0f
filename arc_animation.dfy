/**
 * `useArcAnimation`: every arc of the data set, unchanged, with one colour
 * attached — the theme's arc colour as a fully opaque `rgba(...)` string.
 */
module ArcAnimation {
  import opened Wrappers
  import opened Types
  import opened ColorUtils

  /** The two arc colours of the motion controls, as `#rrggbb` strings. */
  datatype MotionColors = MotionColors(darkArcColor: string, lightArcColor: string)

  /** An arc of the data set spread into a new object together with its `color`. */
  datatype ColoredArc = ColoredArc(
    startLat: real, startLng: real,
    endLat: real, endLng: real,
    from: string, to: string,
    order: nat,
    color: string)

  /** The hex colour the theme selects. */
  function ThemeArcHex(theme: Theme, colors: MotionColors): string {
    if theme == Dark then colors.darkArcColor else colors.lightArcColor
  }

  /**
   * `hexToRgba(arcColor, 1.0)`: opacity 1.0 is 100 hundredths. For a `#rrggbb`
   * arc colour, the colour string reads back as that colour's channels at full
   * opacity.
   */
  function ArcColor(theme: Theme, colors: MotionColors): (c: string)
    ensures var hex := if theme == Dark then colors.darkArcColor else colors.lightArcColor;
      IsHexColor(hex) ==>
      ParseRgba(c) == Some((PairValue(hex[1], hex[2]), PairValue(hex[3], hex[4]), PairValue(hex[5], hex[6]), 100))
  {
    var hex := ThemeArcHex(theme, colors);
    if IsHexColor(hex) then ParseRgbaOfHexToRgba(hex, 100); HexToRgba(hex, 100)
    else HexToRgba(hex, 100)
  }

  /** `{ ...arc, color }`. */
  function WithColor(arc: Arc, color: string): ColoredArc {
    ColoredArc(arc.startLat, arc.startLng, arc.endLat, arc.endLng, arc.from, arc.to, arc.order, color)
  }

  /** The `map` over the arc data: one coloured arc per arc, in order. */
  function ColorArcs(arcs: seq<Arc>, color: string): seq<ColoredArc> {
    if arcs == [] then []
    else ColorArcs(arcs[..|arcs| - 1], color) + [WithColor(arcs[|arcs| - 1], color)]
  }

  /** The memoised value of the hook. */
  function AllArcs(theme: Theme, colors: MotionColors, arcs: seq<Arc>): seq<ColoredArc> {
    ColorArcs(arcs, ArcColor(theme, colors))
  }

  /**
   * The map keeps the length and the order of the data; the i-th output
   * carries every field of the i-th arc and the given colour.
   */
  lemma {:induction false} ColorArcsAt(arcs: seq<Arc>, color: string, i: nat)
    requires i < |arcs|
    ensures |ColorArcs(arcs, color)| == |arcs|
    ensures var c := ColorArcs(arcs, color)[i];
      && c.startLat == arcs[i].startLat && c.startLng == arcs[i].startLng
      && c.endLat == arcs[i].endLat && c.endLng == arcs[i].endLng
      && c.from == arcs[i].from && c.to == arcs[i].to && c.order == arcs[i].order
      && c.color == color
    decreases |arcs|
  {
    var init := arcs[..|arcs| - 1];
    ColorArcsLength(init, color);
    if i < |arcs| - 1 {
      ColorArcsAt(init, color, i);
    }
  }

  lemma {:induction false} ColorArcsLength(arcs: seq<Arc>, color: string)
    ensures |ColorArcs(arcs, color)| == |arcs|
    decreases |arcs|
  {
    if arcs != [] {
      ColorArcsLength(arcs[..|arcs| - 1], color);
    }
  }

  /**
   * The hook's result: as many arcs as the data, each with its own fields,
   * and all of them with the one colour the theme selects.
   */
  lemma AllArcsRule(theme: Theme, colors: MotionColors, arcs: seq<Arc>)
    ensures |AllArcs(theme, colors, arcs)| == |arcs|
    ensures forall i :: 0 <= i < |arcs| ==>
      var c := AllArcs(theme, colors, arcs)[i];
      && c == WithColor(arcs[i], c.color)
      && c.color == HexToRgba(if theme == Dark then colors.darkArcColor else colors.lightArcColor, 100)
  {
    ColorArcsLength(arcs, ArcColor(theme, colors));
    forall i | 0 <= i < |arcs|
      ensures var c := AllArcs(theme, colors, arcs)[i];
        && c == WithColor(arcs[i], c.color)
        && c.color == HexToRgba(if theme == Dark then colors.darkArcColor else colors.lightArcColor, 100)
    {
      ColorArcsAt(arcs, ArcColor(theme, colors), i);
    }
  }

  /** Any two output arcs share their colour. */
  lemma OneColour(theme: Theme, colors: MotionColors, arcs: seq<Arc>, i: nat, j: nat)
    requires i < |arcs| && j < |arcs|
    ensures |AllArcs(theme, colors, arcs)| == |arcs|
    ensures AllArcs(theme, colors, arcs)[i].color == AllArcs(theme, colors, arcs)[j].color
  {
    ColorArcsAt(arcs, ArcColor(theme, colors), i);
    ColorArcsAt(arcs, ArcColor(theme, colors), j);
  }
}
