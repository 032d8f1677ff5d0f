/**
 * The globe texture of src/utils/generateGlobeTexture.ts.
 *
 * The texture is a 4096 x 2048 equirectangular canvas: a background fill,
 * then either a grid of dots coloured by a land mask ("dot mode") or the
 * country polygons filled and outlined ("solid mode"), then one circular
 * marker per base. Drawing is recorded as the paint log of a `Context2D`;
 * the mask's pixels, which the browser rasterises from the mask canvas,
 * are an input. The country and base lists, which the source imports from
 * JSON files, are parameters.
 */
module GlobeTexture {
  import opened Wrappers
  import opened Canvas
  import opened SeqFacts

  const Width: nat := 4096
  const Height: nat := 2048

  // ---------------------------------------------------------------------
  // Inputs
  // ---------------------------------------------------------------------

  /** An RGBA channel value of the mask image. */
  newtype byte = x: int | 0 <= x < 256

  /**
   * `GlobeThemeConfig`. Optional members are `Option`s; the source tests
   * them by JavaScript truthiness, so an empty string and a zero count as absent.
   */
  datatype ThemeConfig = ThemeConfig(
    ocean: string, land: string, border: string, bases: string,
    borderWidth: real, baseMarkerRadius: real,
    baseBorderColor: Option<string>, baseBorderWidth: Option<real>,
    useDots: Option<bool>, dotRadius: Option<real>, dotSpacing: Option<nat>,
    dotColor: Option<string>, dotBackground: Option<string>)

  /** A GeoJSON position: longitude first. */
  datatype Position = Position(lng: real, lat: real)

  type Ring = seq<Position>

  /** The `type` of a geometry that is neither a polygon nor a multi-polygon. */
  type OtherKind = k: string | k != "Polygon" && k != "MultiPolygon" witness "Point"

  /** A feature's geometry; a ring may be missing (`null`) or empty. */
  datatype Geometry =
    | Polygon(rings: seq<Option<Ring>>)
    | MultiPolygon(polygons: seq<seq<Option<Ring>>>)
    | OtherGeometry(kind: OtherKind)

  datatype Feature = Feature(geometry: Geometry)

  /** An entry of bases.json. */
  datatype Base = Base(lat: real, lng: real, name: string)

  /** JavaScript truthiness of an optional string. */
  predicate IsSet(s: Option<string>) {
    s.Some? && s.value != ""
  }

  predicate UsesDots(config: ThemeConfig) {
    config.useDots == Some(true)
  }

  // ---------------------------------------------------------------------
  // Projection
  // ---------------------------------------------------------------------

  datatype Point = Point(x: real, y: real)

  /** The equirectangular projection onto the texture. */
  function Project(lng: real, lat: real): (p: Point)
    ensures -180.0 <= lng <= 180.0 && -90.0 <= lat <= 90.0 ==> 0.0 <= p.x <= 4096.0 && 0.0 <= p.y <= 2048.0
  {
    Point((lng + 180.0) / 360.0 * 4096.0, (90.0 - lat) / 180.0 * 2048.0)
  }

  /** The inverse map from texture coordinates back to longitude and latitude. */
  function Unproject(p: Point): (pos: Position)
    ensures 0.0 <= p.x <= 4096.0 && 0.0 <= p.y <= 2048.0 ==> -180.0 <= pos.lng <= 180.0 && -90.0 <= pos.lat <= 90.0
  {
    Position(p.x / 4096.0 * 360.0 - 180.0, 90.0 - p.y / 2048.0 * 180.0)
  }

  /** The projection is invertible, so distinct positions land on distinct points. */
  lemma ProjectRoundTrip(lng: real, lat: real)
    ensures Unproject(Project(lng, lat)) == Position(lng, lat)
  {
  }

  /** The north-west corner, the south-east corner and the origin. */
  lemma ProjectCorners()
    ensures Project(-180.0, 90.0) == Point(0.0, 0.0)
    ensures Project(180.0, -90.0) == Point(4096.0, 2048.0)
    ensures Project(0.0, 0.0) == Point(2048.0, 1024.0)
  {
  }

  // ---------------------------------------------------------------------
  // Colour and size selection
  // ---------------------------------------------------------------------

  /** `config.useDots && config.dotBackground ? config.dotBackground : config.ocean`. */
  function Background(config: ThemeConfig): string {
    if UsesDots(config) && IsSet(config.dotBackground) then config.dotBackground.value else config.ocean
  }

  /** The background is the dot background exactly when dots are on and one is set. */
  lemma BackgroundRule(config: ThemeConfig)
    ensures UsesDots(config) && IsSet(config.dotBackground) ==> Background(config) == config.dotBackground.value
    ensures !(UsesDots(config) && IsSet(config.dotBackground)) ==> Background(config) == config.ocean
    ensures Background(config) != config.ocean ==> UsesDots(config) && config.dotBackground == Some(Background(config))
  {
  }

  /** The settings of the dot grid. */
  datatype DotStyle = DotStyle(spacing: nat, radius: real, land: string, ocean: string)

  /** `dotRadius || 3`, `dotSpacing || 20`, `dotColor || land`, and always `ocean` for sea dots. */
  function DotStyleOf(config: ThemeConfig): (d: DotStyle)
    ensures d.spacing > 0
  {
    DotStyle(
      if config.dotSpacing.Some? && config.dotSpacing.value != 0 then config.dotSpacing.value else 20,
      if config.dotRadius.Some? && config.dotRadius.value != 0.0 then config.dotRadius.value else 3.0,
      if IsSet(config.dotColor) then config.dotColor.value else config.land,
      config.ocean)
  }

  /** Absent or zero settings fall back to radius 3, spacing 20 and the land colour. */
  lemma DotDefaults(config: ThemeConfig)
    ensures config.dotSpacing.None? || config.dotSpacing == Some(0) ==> DotStyleOf(config).spacing == 20
    ensures config.dotRadius.None? || config.dotRadius == Some(0.0) ==> DotStyleOf(config).radius == 3.0
    ensures !IsSet(config.dotColor) ==> DotStyleOf(config).land == config.land
    ensures DotStyleOf(config).ocean == config.ocean
  {
  }

  /** `baseBorderColor && baseBorderWidth && baseBorderWidth > 0`. */
  predicate BorderOn(config: ThemeConfig) {
    IsSet(config.baseBorderColor) && config.baseBorderWidth.Some?
    && config.baseBorderWidth.value != 0.0 && config.baseBorderWidth.value > 0.0
  }

  /** The border is drawn exactly when a non-empty colour and a positive width are set. */
  lemma BorderRule(config: ThemeConfig)
    ensures BorderOn(config) <==>
            (config.baseBorderColor.Some? && config.baseBorderColor.value != ""
             && config.baseBorderWidth.Some? && config.baseBorderWidth.value > 0.0)
  {
  }

  // ---------------------------------------------------------------------
  // Country outlines
  // ---------------------------------------------------------------------

  /** The path one ring traces: a move to its first point, then lines to the others. */
  function RingPath(ring: Ring): (path: seq<PathCmd>)
    ensures |path| == |ring|
  {
    seq(|ring|, i requires 0 <= i < |ring| =>
      var p := Project(ring[i].lng, ring[i].lat);
      if i == 0 then PathCmd.MoveTo(p.x, p.y) else PathCmd.LineTo(p.x, p.y))
  }

  /** The closed path of one ring. */
  function Trace(ring: Ring): seq<PathCmd> {
    RingPath(ring) + [ClosePath]
  }

  /** A ring is drawn unless it is missing or empty. */
  function RingTrace(ring: Option<Ring>): seq<seq<PathCmd>> {
    if ring.Some? && |ring.value| > 0 then [Trace(ring.value)] else []
  }

  /** The traces of a polygon's rings, in order. */
  function RingTraces(rings: seq<Option<Ring>>): seq<seq<PathCmd>> {
    if |rings| == 0 then [] else RingTraces(rings[..|rings| - 1]) + RingTrace(rings[|rings| - 1])
  }

  /** The traces of a multi-polygon: each polygon's rings in turn. */
  function PolygonTraces(polygons: seq<seq<Option<Ring>>>): seq<seq<PathCmd>> {
    if |polygons| == 0 then []
    else PolygonTraces(polygons[..|polygons| - 1]) + RingTraces(polygons[|polygons| - 1])
  }

  /** Polygons and multi-polygons are drawn; any other geometry draws nothing. */
  function FeatureTraces(f: Feature): seq<seq<PathCmd>> {
    match f.geometry
    case Polygon(rings) => RingTraces(rings)
    case MultiPolygon(polygons) => PolygonTraces(polygons)
    case OtherGeometry(_) => []
  }

  function Traces(features: seq<Feature>): seq<seq<PathCmd>> {
    if |features| == 0 then [] else Traces(features[..|features| - 1]) + FeatureTraces(features[|features| - 1])
  }

  /** One traced ring is filled, and in solid mode stroked after the fill. */
  function PaintTrace(t: seq<PathCmd>, pen: Pen, outline: bool): seq<Paint> {
    [FillPath(t, pen.fill)] + if outline then [StrokePath(t, pen.stroke, pen.width, pen.join)] else []
  }

  function PaintTraces(ts: seq<seq<PathCmd>>, pen: Pen, outline: bool): seq<Paint> {
    if |ts| == 0 then [] else PaintTraces(ts[..|ts| - 1], pen, outline) + PaintTrace(ts[|ts| - 1], pen, outline)
  }

  lemma {:induction false} PaintTracesAppend(a: seq<seq<PathCmd>>, b: seq<seq<PathCmd>>, pen: Pen, outline: bool)
    ensures PaintTraces(a + b, pen, outline) == PaintTraces(a, pen, outline) + PaintTraces(b, pen, outline)
    decreases |b|
  {
    if |b| == 0 {
      assert a + b == a;
    } else {
      var b' := b[..|b| - 1];
      assert (a + b)[..|a + b| - 1] == a + b';
      assert (a + b)[|a + b| - 1] == b[|b| - 1];
      PaintTracesAppend(a, b', pen, outline);
    }
  }

  /** The land layer with a given pen: the traced rings of every feature. */
  function LandPaints(features: seq<Feature>, pen: Pen, outline: bool): seq<Paint> {
    PaintTraces(Traces(features), pen, outline)
  }

  /**
   * Both modes trace the same rings: the mask fills each traced ring once,
   * solid mode fills it and then strokes it.
   */
  lemma {:induction false} PaintTracesAt(ts: seq<seq<PathCmd>>, pen: Pen, outline: bool, k: nat)
    requires k < |ts|
    ensures |PaintTraces(ts, pen, outline)| == |ts| * (if outline then 2 else 1)
    ensures !outline ==> PaintTraces(ts, pen, outline)[k] == FillPath(ts[k], pen.fill)
    ensures outline ==> PaintTraces(ts, pen, outline)[2 * k] == FillPath(ts[k], pen.fill)
    ensures outline ==> PaintTraces(ts, pen, outline)[2 * k + 1] == StrokePath(ts[k], pen.stroke, pen.width, pen.join)
  {
    var ts' := ts[..|ts| - 1];
    PaintTracesLength(ts', pen, outline);
    if k < |ts| - 1 {
      PaintTracesAt(ts', pen, outline, k);
    }
  }

  lemma {:induction false} PaintTracesLength(ts: seq<seq<PathCmd>>, pen: Pen, outline: bool)
    ensures |PaintTraces(ts, pen, outline)| == |ts| * (if outline then 2 else 1)
  {
    if |ts| > 0 {
      PaintTracesLength(ts[..|ts| - 1], pen, outline);
    }
  }

  /** A traced ring starts at its first projected point, visits the rest in order and closes. */
  lemma TraceShape(ring: Ring, k: nat)
    requires 0 < k < |ring|
    ensures |Trace(ring)| == |ring| + 1 && Trace(ring)[|ring|] == ClosePath
    ensures Trace(ring)[0] == PathCmd.MoveTo(Project(ring[0].lng, ring[0].lat).x, Project(ring[0].lng, ring[0].lat).y)
    ensures Trace(ring)[k] == PathCmd.LineTo(Project(ring[k].lng, ring[k].lat).x, Project(ring[k].lng, ring[k].lat).y)
  {
  }

  /** A multi-polygon is drawn exactly as its polygons would be, one `Polygon` feature each. */
  lemma {:induction false} MultiPolygonAsPolygons(polygons: seq<seq<Option<Ring>>>)
    ensures FeatureTraces(Feature(MultiPolygon(polygons))) == Traces(AsPolygons(polygons))
  {
    if |polygons| > 0 {
      var ps := polygons[..|polygons| - 1];
      assert AsPolygons(polygons)[..|polygons| - 1] == AsPolygons(ps);
      MultiPolygonAsPolygons(ps);
    }
  }

  function AsPolygons(polygons: seq<seq<Option<Ring>>>): (fs: seq<Feature>)
    ensures |fs| == |polygons|
  {
    seq(|polygons|, i requires 0 <= i < |polygons| => Feature(Polygon(polygons[i])))
  }

  /** Missing and empty rings draw nothing, wherever they stand in a polygon. */
  lemma {:induction false} SkippedRings(a: seq<Option<Ring>>, b: seq<Option<Ring>>, ring: Option<Ring>)
    requires ring.None? || ring.value == []
    ensures RingTraces(a + [ring] + b) == RingTraces(a + b)
    decreases |b|
  {
    if |b| == 0 {
      assert (a + [ring] + b)[..|a|] == a && a + b == a;
    } else {
      var b' := b[..|b| - 1];
      assert (a + [ring] + b)[..|a + [ring] + b| - 1] == a + [ring] + b';
      assert (a + b)[..|a + b| - 1] == a + b';
      SkippedRings(a, b', ring);
    }
  }

  /** The mask canvas: black everywhere, then every traced ring filled white. */
  function MaskPaints(features: seq<Feature>): seq<Paint> {
    [Paint.FillRect(0.0, 0.0, 4096.0, 2048.0, "#000000")]
    + LandPaints(features, Pen("#ffffff", "#000000", 1.0, "miter"), false)
  }

  // ---------------------------------------------------------------------
  // The dot grid
  // ---------------------------------------------------------------------

  /** The number of grid columns `x = 0, s, 2s, ... < 4096`: `ceil(4096 / s)`. */
  function Cols(s: nat): nat
    requires s > 0
  {
    (Width + s - 1) / s
  }

  /** The number of grid rows `y = 0, s, 2s, ... < 2048`: `ceil(2048 / s)`. */
  function Rows(s: nat): nat
    requires s > 0
  {
    (Height + s - 1) / s
  }

  /** `i * s < n` exactly for the first `ceil(n / s)` values of `i`. */
  lemma CeilCount(n: nat, s: nat, i: nat)
    requires s > 0
    ensures i * s < n <==> i < (n + s - 1) / s
  {
    var c := (n + s - 1) / s;
    assert c * s <= n + s - 1 < c * s + s;
    if i * s < n {
      assert (i + 1) * s <= n + s - 1;
      if i >= c {
        MulMono(c + 1, i + 1, s);
      }
    } else if i < c {
      MulMono(i + 1, c, s);
    }
  }

  lemma MulMono(a: nat, b: nat, s: nat)
    requires a <= b
    ensures a * s <= b * s
  {
  }

  /** The index of the red byte of pixel (x, y) in the mask data. */
  function PixelIndex(x: nat, y: nat): nat {
    (y * Width + x) * 4
  }

  /** Every grid pixel's four bytes lie inside a 4096 x 2048 RGBA image. */
  lemma PixelIndexInBounds(x: nat, y: nat)
    requires x < Width && y < Height
    ensures PixelIndex(x, y) + 3 < Width * Height * 4
  {
  }

  /** `maskData.data[pixelIndex] > 128`; a byte past the end reads as `undefined`, which is not. */
  predicate IsLand(mask: seq<byte>, x: nat, y: nat) {
    PixelIndex(x, y) < |mask| && mask[PixelIndex(x, y)] > 128
  }

  /** For a full mask image, a grid point is land exactly when its red byte exceeds 128. */
  lemma IsLandRule(mask: seq<byte>, x: nat, y: nat)
    requires |mask| == Width * Height * 4 && x < Width && y < Height
    ensures PixelIndex(x, y) < |mask|
    ensures IsLand(mask, x, y) <==> mask[PixelIndex(x, y)] > 128
  {
    PixelIndexInBounds(x, y);
  }

  /** The dot drawn at grid point (x, y). */
  function Dot(x: nat, y: nat, d: DotStyle, mask: seq<byte>): Paint {
    FillPath([Circle(x as real, y as real, d.radius)], if IsLand(mask, x, y) then d.land else d.ocean)
  }

  /** The first `i` dots of the row at height `y`. */
  function RowDots(i: nat, y: nat, d: DotStyle, mask: seq<byte>): seq<Paint> {
    if i == 0 then [] else RowDots(i - 1, y, d, mask) + [Dot((i - 1) * d.spacing, y, d, mask)]
  }

  /** The first `j` complete rows of dots. */
  function GridDots(j: nat, d: DotStyle, mask: seq<byte>): seq<Paint>
    requires d.spacing > 0
  {
    if j == 0 then [] else GridDots(j - 1, d, mask) + RowDots(Cols(d.spacing), (j - 1) * d.spacing, d, mask)
  }

  /** The dot layer: every row of the grid. */
  function DotPaints(config: ThemeConfig, mask: seq<byte>): seq<Paint> {
    GridDots(Rows(DotStyleOf(config).spacing), DotStyleOf(config), mask)
  }

  lemma {:induction false} RowDotsAt(i: nat, y: nat, d: DotStyle, mask: seq<byte>, k: nat)
    requires k < i
    ensures |RowDots(i, y, d, mask)| == i
    ensures RowDots(i, y, d, mask)[k] == Dot(k * d.spacing, y, d, mask)
  {
    RowDotsLength(i - 1, y, d, mask);
    if k < i - 1 {
      RowDotsAt(i - 1, y, d, mask, k);
    }
  }

  lemma {:induction false} RowDotsLength(i: nat, y: nat, d: DotStyle, mask: seq<byte>)
    ensures |RowDots(i, y, d, mask)| == i
  {
    if i > 0 {
      RowDotsLength(i - 1, y, d, mask);
    }
  }

  lemma {:induction false} GridDotsLength(j: nat, d: DotStyle, mask: seq<byte>)
    requires d.spacing > 0
    ensures |GridDots(j, d, mask)| == j * Cols(d.spacing)
  {
    if j > 0 {
      var cols := Cols(d.spacing);
      GridDotsLength(j - 1, d, mask);
      RowDotsLength(cols, (j - 1) * d.spacing, d, mask);
      assert j * cols == (j - 1) * cols + cols;
    }
  }

  /** Row-major order: dot number `r * cols + c` is the one at (c * s, r * s). */
  lemma {:induction false} GridDotsAt(j: nat, d: DotStyle, mask: seq<byte>, r: nat, c: nat)
    requires d.spacing > 0 && r < j && c < Cols(d.spacing)
    ensures |GridDots(j, d, mask)| == j * Cols(d.spacing)
    ensures r * Cols(d.spacing) + c < |GridDots(j, d, mask)|
    ensures GridDots(j, d, mask)[r * Cols(d.spacing) + c] == Dot(c * d.spacing, r * d.spacing, d, mask)
  {
    var cols := Cols(d.spacing);
    GridDotsLength(j, d, mask);
    GridDotsLength(j - 1, d, mask);
    RowIndexBelow(r, c, cols, j);
    if r == j - 1 {
      RowDotsAt(cols, (j - 1) * d.spacing, d, mask, c);
    } else {
      RowIndexBelow(r, c, cols, j - 1);
      GridDotsAt(j - 1, d, mask, r, c);
    }
  }



  /** Index arithmetic of a row-major grid. */
  lemma RowIndexBelow(r: nat, c: nat, cols: nat, j: nat)
    requires r < j && c < cols
    ensures r * cols + c < j * cols
    ensures r == j - 1 ==> r * cols + c - (j - 1) * cols == c
  {
    MulMono(r + 1, j, cols);
  }

  /**
   * The dot layer holds one dot per grid point, `ceil(2048 / s) * ceil(4096 / s)`
   * of them; the dot at row r, column c lies at (c * s, r * s), inside the texture,
   * and is painted with the land colour exactly when the mask says land there and
   * with `ocean` otherwise, never with the dot background.
   */
  lemma DotLayer(config: ThemeConfig, mask: seq<byte>, r: nat, c: nat)
    requires r < Rows(DotStyleOf(config).spacing) && c < Cols(DotStyleOf(config).spacing)
    ensures |DotPaints(config, mask)| == Rows(DotStyleOf(config).spacing) * Cols(DotStyleOf(config).spacing)
    ensures r * Cols(DotStyleOf(config).spacing) + c < |DotPaints(config, mask)|
    ensures var d := DotStyleOf(config);
      c * d.spacing < Width && r * d.spacing < Height
      && DotPaints(config, mask)[r * Cols(d.spacing) + c]
         == FillPath([Circle((c * d.spacing) as real, (r * d.spacing) as real, d.radius)],
                     if IsLand(mask, c * d.spacing, r * d.spacing) then d.land else config.ocean)
  {
    var d := DotStyleOf(config);
    GridDotsAt(Rows(d.spacing), d, mask, r, c);
    CeilCount(Width, d.spacing, c);
    CeilCount(Height, d.spacing, r);
  }

  // ---------------------------------------------------------------------
  // Base markers
  // ---------------------------------------------------------------------

  /** The circle of a base marker. */
  function MarkerCircle(b: Base, config: ThemeConfig): seq<PathCmd> {
    var p := Project(b.lng, b.lat);
    [Circle(p.x, p.y, config.baseMarkerRadius)]
  }

  /** One marker: the optional border stroke, then the fill in `bases`. */
  function Marker(b: Base, config: ThemeConfig, join: string): seq<Paint> {
    (if BorderOn(config)
     then [StrokePath(MarkerCircle(b, config), config.baseBorderColor.value, config.baseBorderWidth.value, join)]
     else [])
    + [FillPath(MarkerCircle(b, config), config.bases)]
  }

  function MarkerPaints(bases: seq<Base>, config: ThemeConfig, join: string): seq<Paint> {
    if |bases| == 0 then [] else MarkerPaints(bases[..|bases| - 1], config, join) + Marker(bases[|bases| - 1], config, join)
  }

  lemma {:induction false} MarkerPaintsLength(bases: seq<Base>, config: ThemeConfig, join: string)
    ensures |MarkerPaints(bases, config, join)| == |bases| * (if BorderOn(config) then 2 else 1)
  {
    if |bases| > 0 {
      MarkerPaintsLength(bases[..|bases| - 1], config, join);
    }
  }

  /**
   * Every base gets a marker filled with `bases` at `baseMarkerRadius`; the
   * marker's border stroke comes just before its fill, exactly when the border
   * colour is set and the border width positive.
   */
  lemma {:induction false} MarkerAt(bases: seq<Base>, config: ThemeConfig, join: string, k: nat)
    requires k < |bases|
    ensures var m := if BorderOn(config) then 2 else 1;
      |MarkerPaints(bases, config, join)| == |bases| * m
      && MarkerPaints(bases, config, join)[k * m + m - 1] == FillPath(MarkerCircle(bases[k], config), config.bases)
      && (BorderOn(config) ==>
          MarkerPaints(bases, config, join)[k * m]
          == StrokePath(MarkerCircle(bases[k], config), config.baseBorderColor.value, config.baseBorderWidth.value, join))
  {
    var bs := bases[..|bases| - 1];
    MarkerPaintsLength(bases, config, join);
    MarkerPaintsLength(bs, config, join);
    if k < |bases| - 1 {
      MarkerAt(bs, config, join, k);
      assert bs[k] == bases[k];
    }
  }

  // ---------------------------------------------------------------------
  // The whole texture
  // ---------------------------------------------------------------------

  /**
   * Solid mode's pen. `lineWidth = borderWidth` takes effect only for a positive
   * width; otherwise the fresh context keeps its default width of 1.
   */
  function LandPen(config: ThemeConfig): (p: Pen)
    ensures p.fill == config.land && p.stroke == config.border && p.join == "round"
    ensures p.width > 0.0
    ensures config.borderWidth > 0.0 ==> p.width == config.borderWidth
    ensures config.borderWidth <= 0.0 ==> p.width == 1.0
  {
    Pen(config.land, config.border, if config.borderWidth > 0.0 then config.borderWidth else 1.0, "round")
  }

  /** The paint log of the texture canvas: background, land or dots, then markers. */
  function TexturePaints(config: ThemeConfig, features: seq<Feature>, bases: seq<Base>, mask: seq<byte>): seq<Paint> {
    [Paint.FillRect(0.0, 0.0, 4096.0, 2048.0, Background(config))]
    + (if UsesDots(config) then DotPaints(config, mask)
       else LandPaints(features, LandPen(config), true))
    + MarkerPaints(bases, config, if UsesDots(config) then "miter" else "round")
  }

  /** `drawPolygon` (and `drawMaskPolygon` without the stroke): one ring. */
  method DrawRing(ctx: Context2D, ring: Option<Ring>, outline: bool)
    modifies ctx`path, ctx`painted
    ensures ctx.painted == old(ctx.painted) + PaintTraces(RingTrace(ring), ctx.CurrentPen(), outline)
  {
    if ring.None? || |ring.value| == 0 {
      assert PaintTraces(RingTrace(ring), ctx.CurrentPen(), outline) == [];
      assert ctx.painted == old(ctx.painted) + [];
      return;
    }
    var coords := ring.value;
    ctx.BeginPath();
    var i := 0;
    while i < |coords|
      invariant 0 <= i <= |coords|
      invariant ctx.path == RingPath(coords)[..i]
      invariant ctx.painted == old(ctx.painted)
    {
      var p := Project(coords[i].lng, coords[i].lat);
      if i == 0 {
        ctx.MoveTo(p.x, p.y);
      } else {
        ctx.LineTo(p.x, p.y);
      }
      assert RingPath(coords)[..i + 1] == RingPath(coords)[..i] + [RingPath(coords)[i]];
      i := i + 1;
    }
    assert RingPath(coords)[..i] == RingPath(coords);
    ctx.ClosePath();
    assert ctx.path == Trace(coords);
    var t := Trace(coords);
    ctx.Fill();
    assert ctx.painted == old(ctx.painted) + [FillPath(t, ctx.fillStyle)];
    if outline {
      ctx.Stroke();
      assert ctx.painted == old(ctx.painted) + ([FillPath(t, ctx.fillStyle)] + [StrokePath(t, ctx.strokeStyle, ctx.lineWidth, ctx.lineJoin)]);
    }
    assert ctx.painted == old(ctx.painted) + PaintTrace(t, ctx.CurrentPen(), outline);
    assert RingTrace(ring) == [Trace(coords)] && [Trace(coords)][..0] == [];
    assert PaintTraces(RingTrace(ring), ctx.CurrentPen(), outline) == PaintTrace(Trace(coords), ctx.CurrentPen(), outline);
  }

  /** Painting one more ring extends the paints of the rings before it. */
  lemma RingPaintsStep(prev: seq<Paint>, cur: seq<Paint>, start: seq<Paint>, rings: seq<Option<Ring>>, k: nat, pen: Pen, outline: bool)
    requires k < |rings|
    requires prev == start + PaintTraces(RingTraces(rings[..k]), pen, outline)
    requires cur == prev + PaintTraces(RingTrace(rings[k]), pen, outline)
    ensures cur == start + PaintTraces(RingTraces(rings[..k + 1]), pen, outline)
  {
    assert rings[..k + 1][..k] == rings[..k];
    PaintTracesAppend(RingTraces(rings[..k]), RingTrace(rings[k]), pen, outline);
    AppendAssoc(start, PaintTraces(RingTraces(rings[..k]), pen, outline), PaintTraces(RingTrace(rings[k]), pen, outline));
  }

  /** Painting one more polygon extends the paints of the polygons before it. */
  lemma PolygonPaintsStep(prev: seq<Paint>, cur: seq<Paint>, start: seq<Paint>, polygons: seq<seq<Option<Ring>>>, m: nat, pen: Pen, outline: bool)
    requires m < |polygons|
    requires prev == start + PaintTraces(PolygonTraces(polygons[..m]), pen, outline)
    requires cur == prev + PaintTraces(RingTraces(polygons[m]), pen, outline)
    ensures cur == start + PaintTraces(PolygonTraces(polygons[..m + 1]), pen, outline)
  {
    assert polygons[..m + 1][..m] == polygons[..m];
    PaintTracesAppend(PolygonTraces(polygons[..m]), RingTraces(polygons[m]), pen, outline);
    AppendAssoc(start, PaintTraces(PolygonTraces(polygons[..m]), pen, outline), PaintTraces(RingTraces(polygons[m]), pen, outline));
  }

  /** Painting one more feature extends the paints of the features before it. */
  lemma FeaturePaintsStep(prev: seq<Paint>, cur: seq<Paint>, start: seq<Paint>, features: seq<Feature>, k: nat, pen: Pen, outline: bool)
    requires k < |features|
    requires prev == start + PaintTraces(Traces(features[..k]), pen, outline)
    requires cur == prev + PaintTraces(FeatureTraces(features[k]), pen, outline)
    ensures cur == start + PaintTraces(Traces(features[..k + 1]), pen, outline)
  {
    assert features[..k + 1][..k] == features[..k];
    PaintTracesAppend(Traces(features[..k]), FeatureTraces(features[k]), pen, outline);
    AppendAssoc(start, PaintTraces(Traces(features[..k]), pen, outline), PaintTraces(FeatureTraces(features[k]), pen, outline));
  }

  /** `coordinates.forEach(drawPolygon)` over a polygon's rings. */
  method DrawRings(ctx: Context2D, rings: seq<Option<Ring>>, outline: bool)
    modifies ctx`path, ctx`painted
    ensures ctx.painted == old(ctx.painted) + PaintTraces(RingTraces(rings), ctx.CurrentPen(), outline)
  {
    ghost var pen := ctx.CurrentPen();
    ghost var start := ctx.painted;
    var k := 0;
    while k < |rings|
      invariant 0 <= k <= |rings|
      invariant ctx.CurrentPen() == pen
      invariant ctx.painted == start + PaintTraces(RingTraces(rings[..k]), pen, outline)
    {
      ghost var prev := ctx.painted;
      DrawRing(ctx, rings[k], outline);
      RingPaintsStep(prev, ctx.painted, start, rings, k, pen, outline);
      k := k + 1;
    }
    AllPrefix(rings);
  }

  /** `polygons.forEach(polygon => polygon.forEach(drawPolygon))` for a multi-polygon. */
  method DrawPolygons(ctx: Context2D, polygons: seq<seq<Option<Ring>>>, outline: bool)
    modifies ctx`path, ctx`painted
    ensures ctx.painted == old(ctx.painted) + PaintTraces(PolygonTraces(polygons), ctx.CurrentPen(), outline)
  {
    ghost var pen := ctx.CurrentPen();
    ghost var start := ctx.painted;
    var m := 0;
    while m < |polygons|
      invariant 0 <= m <= |polygons|
      invariant ctx.CurrentPen() == pen
      invariant ctx.painted == start + PaintTraces(PolygonTraces(polygons[..m]), pen, outline)
    {
      ghost var prev := ctx.painted;
      DrawRings(ctx, polygons[m], outline);
      PolygonPaintsStep(prev, ctx.painted, start, polygons, m, pen, outline);
      m := m + 1;
    }
    assert polygons[..m] == polygons;
  }

  /** The geometry-type dispatch for one feature: polygons are drawn, other geometries skipped. */
  method DrawFeature(ctx: Context2D, f: Feature, outline: bool)
    modifies ctx`path, ctx`painted
    ensures ctx.painted == old(ctx.painted) + PaintTraces(FeatureTraces(f), ctx.CurrentPen(), outline)
  {
    match f.geometry {
      case Polygon(rings) =>
        DrawRings(ctx, rings, outline);
      case MultiPolygon(polygons) =>
        DrawPolygons(ctx, polygons, outline);
      case OtherGeometry(_) =>
        assert ctx.painted == old(ctx.painted) + [];
    }
  }

  /** `features.forEach(...)` over every feature. */
  method DrawFeatures(ctx: Context2D, features: seq<Feature>, outline: bool)
    modifies ctx`path, ctx`painted
    ensures ctx.painted == old(ctx.painted) + LandPaints(features, ctx.CurrentPen(), outline)
  {
    ghost var pen := ctx.CurrentPen();
    ghost var start := ctx.painted;
    var k := 0;
    while k < |features|
      invariant 0 <= k <= |features|
      invariant ctx.painted == start + PaintTraces(Traces(features[..k]), pen, outline)
    {
      ghost var prev := ctx.painted;
      DrawFeature(ctx, features[k], outline);
      FeaturePaintsStep(prev, ctx.painted, start, features, k, pen, outline);
      k := k + 1;
    }
    assert features[..k] == features;
  }

  /** One more dot extends a row. */
  lemma RowDotsStep(start: seq<Paint>, i: nat, y: nat, d: DotStyle, mask: seq<byte>)
    ensures start + RowDots(i, y, d, mask) + [Dot(i * d.spacing, y, d, mask)] == start + RowDots(i + 1, y, d, mask)
  {
    AppendAssoc(start, RowDots(i, y, d, mask), [Dot(i * d.spacing, y, d, mask)]);
  }

  /** One more complete row extends the grid. */
  lemma GridDotsStep(start: seq<Paint>, j: nat, d: DotStyle, mask: seq<byte>)
    requires d.spacing > 0
    ensures start + GridDots(j, d, mask) + RowDots(Cols(d.spacing), j * d.spacing, d, mask) == start + GridDots(j + 1, d, mask)
  {
    AppendAssoc(start, GridDots(j, d, mask), RowDots(Cols(d.spacing), j * d.spacing, d, mask));
  }

  lemma NextMultiple(i: nat, s: nat)
    ensures i * s + s == (i + 1) * s
  {
  }

  /** The two nested loops of dot mode. */
  method DrawDots(ctx: Context2D, d: DotStyle, mask: seq<byte>)
    requires d.spacing > 0
    modifies ctx`fillStyle, ctx`path, ctx`painted
    ensures ctx.painted == old(ctx.painted) + GridDots(Rows(d.spacing), d, mask)
  {
    ghost var start := ctx.painted;
    var s := d.spacing;
    var y := 0;
    ghost var j := 0;
    while y < Height
      invariant y == j * s && j <= Rows(s)
      invariant ctx.painted == start + GridDots(j, d, mask)
      decreases Height - y
    {
      CeilCount(Height, s, j);
      ghost var rowStart := ctx.painted;
      var x := 0;
      ghost var i := 0;
      while x < Width
        invariant x == i * s && i <= Cols(s)
        invariant ctx.painted == rowStart + RowDots(i, y, d, mask)
        decreases Width - x
      {
        CeilCount(Width, s, i);
        var pixelIndex := (y * Width + x) * 4;
        var isLand := pixelIndex < |mask| && mask[pixelIndex] > 128;
        ctx.fillStyle := if isLand then d.land else d.ocean;
        ctx.BeginPath();
        ctx.Arc(x as real, y as real, d.radius);
        assert pixelIndex == PixelIndex(x, y);
        assert isLand == IsLand(mask, x, y);
        ghost var before := ctx.painted;
        assert ctx.path == [Circle(x as real, y as real, d.radius)];
        assert ctx.fillStyle == if IsLand(mask, x, y) then d.land else d.ocean;
        ctx.Fill();
        assert ctx.painted == before + [Dot(x, y, d, mask)];
        RowDotsStep(rowStart, i, y, d, mask);
        NextMultiple(i, s);
        x := x + s;
        i := i + 1;
      }
      CeilCount(Width, s, i);
      GridDotsStep(start, j, d, mask);
      NextMultiple(j, s);
      y := y + s;
      j := j + 1;
    }
    CeilCount(Height, s, j);
  }

  /** Drawing one more marker, border part first, extends the markers before it. */
  lemma MarkerPaintsStep(start: seq<Paint>, bases: seq<Base>, config: ThemeConfig, join: string, k: nat, border: seq<Paint>)
    requires k < |bases|
    requires border == start + MarkerPaints(bases[..k], config, join)
                       + (if BorderOn(config)
                          then [StrokePath(MarkerCircle(bases[k], config), config.baseBorderColor.value, config.baseBorderWidth.value, join)]
                          else [])
    ensures border + [FillPath(MarkerCircle(bases[k], config), config.bases)] == start + MarkerPaints(bases[..k + 1], config, join)
  {
    assert bases[..k + 1][..k] == bases[..k];
    var done := MarkerPaints(bases[..k], config, join);
    var stroke := if BorderOn(config)
                  then [StrokePath(MarkerCircle(bases[k], config), config.baseBorderColor.value, config.baseBorderWidth.value, join)]
                  else [];
    var fill := [FillPath(MarkerCircle(bases[k], config), config.bases)];
    AppendAssoc(start + done, stroke, fill);
    AppendAssoc(start, done, stroke + fill);
  }

  /** `bases.forEach(...)`: one marker per base, in order. */
  method DrawMarkers(ctx: Context2D, bases: seq<Base>, config: ThemeConfig)
    modifies ctx`fillStyle, ctx`strokeStyle, ctx`lineWidth, ctx`path, ctx`painted
    ensures ctx.painted == old(ctx.painted) + MarkerPaints(bases, config, ctx.lineJoin)
  {
    var k := 0;
    while k < |bases|
      invariant 0 <= k <= |bases|
      invariant ctx.painted == old(ctx.painted) + MarkerPaints(bases[..k], config, ctx.lineJoin)
    {
      ghost var before := ctx.painted;
      ghost var circle := MarkerCircle(bases[k], config);
      var p := Project(bases[k].lng, bases[k].lat);
      if BorderOn(config) {
        ctx.strokeStyle := config.baseBorderColor.value;
        ctx.SetLineWidth(config.baseBorderWidth.value);
        ctx.BeginPath();
        ctx.Arc(p.x, p.y, config.baseMarkerRadius);
        assert ctx.path == circle;
        ctx.Stroke();
      }
      ghost var border := ctx.painted;
      assert border == before + (if BorderOn(config) then [StrokePath(circle, config.baseBorderColor.value, config.baseBorderWidth.value, ctx.lineJoin)] else []);
      ctx.fillStyle := config.bases;
      ctx.BeginPath();
      ctx.Arc(p.x, p.y, config.baseMarkerRadius);
      assert ctx.path == circle;
      ctx.Fill();
      assert ctx.painted == border + [FillPath(circle, config.bases)];
      MarkerPaintsStep(old(ctx.painted), bases, config, ctx.lineJoin, k, border);
      k := k + 1;
    }
    assert bases[..k] == bases;
  }

  /**
   * `generateGlobeTexture(config)`. `canvasAvailable` and `maskCanvasAvailable`
   * say whether `getContext("2d")` returns a context for the texture and the
   * mask canvas. The result is null exactly when a needed context is missing;
   * otherwise its paint log is `TexturePaints`. The mask canvas is returned too,
   * so that what is drawn on it can be stated.
   */
  method GenerateGlobeTexture(config: ThemeConfig, features: seq<Feature>, bases: seq<Base>, mask: seq<byte>,
                              canvasAvailable: bool, maskCanvasAvailable: bool)
    returns (canvas: Context2D?, maskCanvas: Context2D?)
    ensures canvas != null <==> canvasAvailable && (UsesDots(config) ==> maskCanvasAvailable)
    ensures canvas != null ==> fresh(canvas) && canvas.painted == TexturePaints(config, features, bases, mask)
    ensures maskCanvas != null <==> canvas != null && UsesDots(config)
    ensures maskCanvas != null ==> fresh(maskCanvas) && maskCanvas.painted == MaskPaints(features)
  {
    canvas, maskCanvas := null, null;
    if !canvasAvailable {
      return;
    }
    var ctx := new Context2D();
    ctx.fillStyle := Background(config);
    ctx.FillRect(0.0, 0.0, 4096.0, 2048.0);
    assert ctx.lineWidth == 1.0;
    ghost var background := ctx.painted;
    if UsesDots(config) {
      if !maskCanvasAvailable {
        return;
      }
      maskCanvas := DrawMask(features);
      DrawDots(ctx, DotStyleOf(config), mask);
    } else {
      DrawSolidLand(ctx, config, features);
    }
    ghost var layered := ctx.painted;
    DrawMarkers(ctx, bases, config);
    TextureLayers(config, features, bases, mask, background, layered, ctx.painted, ctx.lineJoin);
    canvas := ctx;
  }

  /** Dot mode's mask canvas: black everywhere, then every ring filled white. */
  method DrawMask(features: seq<Feature>) returns (maskCtx: Context2D)
    ensures fresh(maskCtx) && maskCtx.painted == MaskPaints(features)
  {
    maskCtx := new Context2D();
    maskCtx.fillStyle := "#000000";
    maskCtx.FillRect(0.0, 0.0, 4096.0, 2048.0);
    maskCtx.fillStyle := "#ffffff";
    DrawFeatures(maskCtx, features, false);
  }

  /**
   * Solid mode: the land pen with round joins, then every ring filled and
   * outlined. A border width that is not positive leaves the width as it was.
   */
  method DrawSolidLand(ctx: Context2D, config: ThemeConfig, features: seq<Feature>)
    modifies ctx`fillStyle, ctx`strokeStyle, ctx`lineWidth, ctx`lineJoin, ctx`path, ctx`painted
    ensures ctx.painted == old(ctx.painted)
      + LandPaints(features, Pen(config.land, config.border, if config.borderWidth > 0.0 then config.borderWidth else old(ctx.lineWidth), "round"), true)
    ensures ctx.lineJoin == "round"
  {
    ctx.fillStyle := config.land;
    ctx.strokeStyle := config.border;
    ctx.SetLineWidth(config.borderWidth);
    ctx.lineJoin := "round";
    DrawFeatures(ctx, features, true);
  }

  /** The background, then the land layer of the mode, then the markers, make up the texture. */
  lemma TextureLayers(config: ThemeConfig, features: seq<Feature>, bases: seq<Base>, mask: seq<byte>,
                      background: seq<Paint>, layered: seq<Paint>, painted: seq<Paint>, join: string)
    requires background == [Paint.FillRect(0.0, 0.0, 4096.0, 2048.0, Background(config))]
    requires layered == background + (if UsesDots(config) then DotPaints(config, mask)
                                      else LandPaints(features, LandPen(config), true))
    requires join == if UsesDots(config) then "miter" else "round"
    requires painted == layered + MarkerPaints(bases, config, join)
    ensures painted == TexturePaints(config, features, bases, mask)
  {
  }
}
