/**
 * The background vector field: a grid of short strokes, 40 px apart, each
 * turning a little every animation frame towards the mouse cursor, with
 * React's copy of the grid refreshed only every third frame.
 *
 * `Math.random` and `Math.atan2` are not modelled: the random numbers of a
 * grid are a parameter, and so is the function giving the heading, in
 * degrees, of an offset (dx, dy). Numbers are Dafny reals, not IEEE doubles.
 */
module VectorField {
  import opened Wrappers
  import opened Types
  import opened ColorUtils

  /** The grid pitch in pixels. */
  const Spacing: nat := 40

  /** One stroke: its centre and its heading in degrees. */
  datatype Vector = Vector(x: real, y: real, angle: real)

  // ---------------------------------------------------------------------
  // generateVectors
  // ---------------------------------------------------------------------

  /** `Math.ceil(n / 40)` for a whole number of pixels. */
  function CeilSpacing(n: nat): (q: nat)
    ensures q * Spacing >= n
    ensures q > 0 ==> (q - 1) * Spacing < n
  {
    (n + Spacing - 1) / Spacing
  }

  /** Grid lines across an extent of `n` pixels: one more than needed to cover it. */
  function CellsAcross(n: nat): (c: nat)
    ensures c >= 1
  {
    CeilSpacing(n) + 1
  }

  function GridCount(width: nat, height: nat): nat {
    CellsAcross(height) * CellsAcross(width)
  }

  /** The vector pushed `k`-th when the rows are `cols` long, from random number `u`. */
  function Cell(cols: nat, k: nat, u: real): Vector
    requires cols > 0
  {
    Vector(((k % cols) * Spacing) as real + (Spacing as real) / 2.0,
           ((k / cols) * Spacing) as real + (Spacing as real) / 2.0,
           u * 360.0)
  }

  /** The grid `generateVectors` builds, one random number per vector. */
  function Grid(width: nat, height: nat, random: seq<real>): seq<Vector>
    requires |random| == GridCount(width, height)
  {
    seq(|random|, k requires 0 <= k < |random| => Cell(CellsAcross(width), k, random[k]))
  }

  lemma DivModOfIndex(cols: nat, r: nat, c: nat)
    requires c < cols
    ensures (r * cols + c) / cols == r && (r * cols + c) % cols == c
  {
    var k := r * cols + c;
    var q, m := k / cols, k % cols;
    assert k == q * cols + m;
    MulAtLeast(q - r, cols);
    MulAtLeast(r - q, cols);
    assert (q - r) * cols == q * cols - r * cols;
    assert (r - q) * cols == r * cols - q * cols;
  }

  lemma MulAtLeast(a: int, b: nat)
    ensures a >= 1 ==> a * b >= b
  {
    if a >= 1 {
      assert a * b == (a - 1) * b + b;
    }
  }

  lemma IndexBelow(rows: nat, cols: nat, r: nat, c: nat)
    requires r < rows && c < cols
    ensures r * cols + c < rows * cols
  {
    assert (r + 1) * cols <= rows * cols;
  }

  /**
   * Row-major order: `cols * rows` vectors, the one at row `r` and column
   * `c` at index `r * cols + c`, centred at (c * 40 + 20, r * 40 + 20).
   */
  lemma GridAt(width: nat, height: nat, random: seq<real>, r: nat, c: nat)
    requires |random| == GridCount(width, height)
    requires r < CellsAcross(height) && c < CellsAcross(width)
    ensures |Grid(width, height, random)| == CellsAcross(height) * CellsAcross(width)
    ensures r * CellsAcross(width) + c < |random|
    ensures Grid(width, height, random)[r * CellsAcross(width) + c]
            == Vector((c * 40) as real + 20.0, (r * 40) as real + 20.0, random[r * CellsAcross(width) + c] * 360.0)
  {
    IndexBelow(CellsAcross(height), CellsAcross(width), r, c);
    DivModOfIndex(CellsAcross(width), r, c);
  }

  /** `vs` holds the first `|vs|` vectors of the grid. */
  predicate CellsUpTo(vs: seq<Vector>, cols: nat, random: seq<real>)
    requires cols > 0
  {
    |vs| <= |random| && forall k :: 0 <= k < |vs| ==> vs[k] == Cell(cols, k, random[k])
  }

  /** The vector pushed at row `row` and column `col` is the next cell of the grid. */
  lemma PushCell(vs: seq<Vector>, cols: nat, random: seq<real>, row: nat, col: nat)
    requires cols > 0 && col < cols && |vs| == row * cols + col && |vs| < |random|
    requires CellsUpTo(vs, cols, random)
    ensures CellsUpTo(vs + [Vector((col * Spacing) as real + (Spacing as real) / 2.0,
                                   (row * Spacing) as real + (Spacing as real) / 2.0,
                                   random[|vs|] * 360.0)], cols, random)
  {
    DivModOfIndex(cols, row, col);
  }

  /** All the cells, in order, are the grid. */
  lemma AllCells(vs: seq<Vector>, width: nat, height: nat, random: seq<real>)
    requires |random| == GridCount(width, height) && |vs| == |random|
    requires CellsUpTo(vs, CellsAcross(width), random)
    ensures vs == Grid(width, height, random)
  {
  }

  /** `generateVectors`: the two nested `for` loops pushing one vector each. */
  method GenerateVectors(width: nat, height: nat, random: seq<real>) returns (vs: seq<Vector>)
    requires |random| == GridCount(width, height)
    ensures vs == Grid(width, height, random)
  {
    var cols := CellsAcross(width);
    var rows := CellsAcross(height);
    vs := [];
    var row := 0;
    while row < rows
      invariant 0 <= row <= rows
      invariant |vs| == row * cols && CellsUpTo(vs, cols, random)
    {
      var col := 0;
      while col < cols
        invariant 0 <= col <= cols
        invariant |vs| == row * cols + col && CellsUpTo(vs, cols, random)
      {
        IndexBelow(rows, cols, row, col);
        PushCell(vs, cols, random, row, col);
        vs := vs + [Vector((col * Spacing) as real + (Spacing as real) / 2.0,
                           (row * Spacing) as real + (Spacing as real) / 2.0,
                           random[|vs|] * 360.0)];
        col := col + 1;
      }
      row := row + 1;
    }
    AllCells(vs, width, height, random);
  }

  // ---------------------------------------------------------------------
  // Heading smoothing
  // ---------------------------------------------------------------------

  /** `q` is a whole number. */
  predicate Whole(q: real) {
    q.Floor as real == q
  }

  lemma WholeOf(n: int)
    ensures Whole(n as real)
  {
  }

  /** Two headings that differ by whole turns. */
  predicate SameDirection(a: real, b: real) {
    Whole((a - b) / 360.0)
  }

  function Abs(a: real): real {
    if a < 0.0 then -a else a
  }

  /** The smallest whole number at least `q`. */
  function Ceil(q: real): (n: int)
    ensures n as real >= q && (n - 1) as real < q
  {
    -((-q).Floor)
  }

  /**
   * The loops' result in closed form: unchanged within [-180, 180];
   * otherwise moved by the fewest whole turns that bring it into range.
   */
  function ShortestTurn(diff: real): real {
    if diff > 180.0 then diff - 360.0 * Ceil((diff - 180.0) / 360.0) as real
    else if diff < -180.0 then diff + 360.0 * Ceil((-180.0 - diff) / 360.0) as real
    else diff
  }

  /**
   * `ShortestTurn` lies in [-180, 180], points the same way as `diff`, and
   * reaches -180 or 180 only from inside the range or from the far side.
   */
  lemma ShortestTurnSpec(diff: real)
    ensures var d := ShortestTurn(diff);
      && -180.0 <= d <= 180.0 && SameDirection(d, diff)
      && (-180.0 <= diff <= 180.0 ==> d == diff)
      && (diff > 180.0 ==> d > -180.0)
      && (diff < -180.0 ==> d < 180.0)
  {
    var d := ShortestTurn(diff);
    if diff > 180.0 {
      var n := Ceil((diff - 180.0) / 360.0);
      assert d == diff - 360.0 * n as real;
      assert (d - diff) / 360.0 == (-n) as real;
      WholeOf(-n);
    } else if diff < -180.0 {
      var n := Ceil((-180.0 - diff) / 360.0);
      assert d == diff + 360.0 * n as real;
      assert (d - diff) / 360.0 == n as real;
      WholeOf(n);
    } else {
      assert (d - diff) / 360.0 == 0 as real;
      WholeOf(0);
    }
  }

  /**
   * The loops can stop at either end of the range: a difference of -540
   * becomes -180 and one of 540 becomes 180, so both ends are reached.
   */
  lemma HalfTurnBothWays()
    ensures ShortestTurn(-540.0) == -180.0
    ensures ShortestTurn(540.0) == 180.0
  {
    assert Ceil(1.0) == 1;
  }

  /** Of all headings that point the same way as `diff`, `ShortestTurn(diff)` is the smallest turn. */
  lemma ShortestTurnMinimal(diff: real, m: real)
    requires SameDirection(m, diff)
    ensures Abs(ShortestTurn(diff)) <= Abs(m)
  {
    ShortestTurnSpec(diff);
    var d := ShortestTurn(diff);
    var n := ((m - diff) / 360.0).Floor;
    var e := ((d - diff) / 360.0).Floor;
    assert m - d == 360.0 * (n - e) as real;
    assert n > e ==> m - d >= 360.0;
    assert n < e ==> d - m >= 360.0;
  }

  /** Two results of the loops for one `diff` are equal. */
  lemma TurnUnique(diff: real, d1: real, d2: real)
    requires -180.0 <= d1 <= 180.0 && -180.0 <= d2 <= 180.0
    requires SameDirection(d1, diff) && SameDirection(d2, diff)
    requires diff > 180.0 ==> d1 > -180.0 && d2 > -180.0
    requires diff < -180.0 ==> d1 < 180.0 && d2 < 180.0
    requires -180.0 <= diff <= 180.0 ==> d1 == diff && d2 == diff
    ensures d1 == d2
  {
    var n1 := ((d1 - diff) / 360.0).Floor;
    var n2 := ((d2 - diff) / 360.0).Floor;
    assert d1 - d2 == 360.0 * (n1 - n2) as real;
    assert n1 > n2 ==> d1 - d2 >= 360.0;
    assert n1 < n2 ==> d2 - d1 >= 360.0;
  }

  /** The two `while` loops that bring `target - current` into [-180, 180]. */
  method NormaliseDiff(raw: real) returns (diff: real)
    ensures -180.0 <= diff <= 180.0 && SameDirection(diff, raw)
    ensures raw > 180.0 ==> diff > -180.0
    ensures raw < -180.0 ==> diff < 180.0
    ensures -180.0 <= raw <= 180.0 ==> diff == raw
    ensures diff == ShortestTurn(raw)
  {
    diff := raw;
    ghost var turns: int := 0;
    while diff > 180.0
      invariant diff == raw + 360.0 * turns as real
      invariant raw > 180.0 ==> diff > -180.0
      invariant raw <= 180.0 ==> diff == raw
      decreases diff.Floor
    {
      diff := diff - 360.0;
      turns := turns - 1;
    }
    while diff < -180.0
      invariant diff == raw + 360.0 * turns as real && diff <= 180.0
      invariant raw > 180.0 ==> diff > -180.0
      invariant raw < -180.0 ==> diff < 180.0
      invariant -180.0 <= raw <= 180.0 ==> diff == raw
      decreases (-diff).Floor
    {
      diff := diff + 360.0;
      turns := turns + 1;
    }
    LoopsStop(raw, diff, turns);
  }

  /** Where the loops stop: whole turns away from `raw`, in range, so at `ShortestTurn(raw)`. */
  lemma LoopsStop(raw: real, diff: real, turns: int)
    requires diff == raw + 360.0 * turns as real && -180.0 <= diff <= 180.0
    requires raw > 180.0 ==> diff > -180.0
    requires raw < -180.0 ==> diff < 180.0
    requires -180.0 <= raw <= 180.0 ==> diff == raw
    ensures SameDirection(diff, raw) && diff == ShortestTurn(raw)
  {
    assert (diff - raw) / 360.0 == turns as real;
    WholeOf(turns);
    TurnIsShortest(raw, diff);
  }

  /** The only heading in range that the loops can stop at is `ShortestTurn(raw)`. */
  lemma TurnIsShortest(raw: real, diff: real)
    requires -180.0 <= diff <= 180.0 && SameDirection(diff, raw)
    requires raw > 180.0 ==> diff > -180.0
    requires raw < -180.0 ==> diff < 180.0
    requires -180.0 <= raw <= 180.0 ==> diff == raw
    ensures diff == ShortestTurn(raw)
  {
    ShortestTurnSpec(raw);
    TurnUnique(raw, diff, ShortestTurn(raw));
  }

  /** A vector after one frame, turned 8% of the shortest way towards `target`. */
  function Turned(v: Vector, target: real): Vector {
    v.(angle := v.angle + ShortestTurn(target - v.angle) * 0.08)
  }

  /**
   * One frame turns a vector by at most 14.4 degrees, the way the shorter
   * turn to the target goes, and moves nothing else.
   */
  lemma TurnedStep(v: Vector, target: real)
    ensures var w := Turned(v, target);
      && w.x == v.x && w.y == v.y
      && Abs(w.angle - v.angle) <= 14.4
      && (w.angle > v.angle <==> ShortestTurn(target - v.angle) > 0.0)
      && (w.angle < v.angle <==> ShortestTurn(target - v.angle) < 0.0)
  {
    ShortestTurnSpec(target - v.angle);
  }

  /** The `map` of one frame; `heading(dx, dy)` stands for `atan2(dy, dx)` in degrees. */
  function Animated(vs: seq<Vector>, mouseX: real, mouseY: real, heading: (real, real) -> real): (ws: seq<Vector>)
    ensures |ws| == |vs|
    ensures forall i :: 0 <= i < |vs| ==> ws[i].x == vs[i].x && ws[i].y == vs[i].y
  {
    seq(|vs|, i requires 0 <= i < |vs| => Turned(vs[i], heading(mouseX - vs[i].x, mouseY - vs[i].y)))
  }

  /** Whether the frame with this (incremented) number republishes the vectors. */
  predicate Publishes(frameCount: nat) {
    frameCount % 3 == 0
  }

  /** Exactly one frame of any three consecutive ones publishes. */
  lemma OneInThree(n: nat)
    ensures Publishes(n) || Publishes(n + 1) || Publishes(n + 2)
    ensures Publishes(n) ==> !Publishes(n + 1) && !Publishes(n + 2)
  {
    var q := n / 3;
    var r := n - 3 * q;
    assert 0 <= r < 3;
    CountMod(q, r);
    CountMod(q, r + 1);
    CountMod(q, r + 2);
  }

  lemma CountMod(q: nat, r: nat)
    requires r < 5
    ensures (3 * q + r) % 3 == r % 3
  {
  }

  /**
   * The component's refs and state: `vectorsRef`, the React `vectors`
   * state it publishes, `frameCountRef` and `mousePosRef`.
   */
  class FieldState {
    var vectors: seq<Vector>
    var published: seq<Vector>
    var frameCount: nat
    var mouseX: real
    var mouseY: real

    /** The first render and the grid effect: a fresh grid, published at once. */
    constructor (width: nat, height: nat, random: seq<real>)
      requires |random| == GridCount(width, height)
      ensures vectors == Grid(width, height, random) && published == vectors
      ensures frameCount == 0 && mouseX == 0.0 && mouseY == 0.0
    {
      var vs := GenerateVectors(width, height, random);
      vectors := vs;
      published := vs;
      frameCount := 0;
      mouseX := 0.0;
      mouseY := 0.0;
    }

    /** `handleResize`: the whole list replaced by a freshly generated grid. */
    method Resize(width: nat, height: nat, random: seq<real>)
      requires |random| == GridCount(width, height)
      modifies this`vectors, this`published
      ensures vectors == Grid(width, height, random) && published == vectors
    {
      var vs := GenerateVectors(width, height, random);
      vectors := vs;
      published := vs;
    }

    /** `handleMouseMove`. */
    method MouseMove(x: real, y: real)
      modifies this`mouseX, this`mouseY
      ensures mouseX == x && mouseY == y
    {
      mouseX := x;
      mouseY := y;
    }

    /** `animate`: one frame of turning, then the every-third-frame publish. */
    method Animate(heading: (real, real) -> real)
      modifies this`vectors, this`published, this`frameCount
      ensures frameCount == old(frameCount) + 1
      ensures vectors == Animated(old(vectors), mouseX, mouseY, heading)
      ensures published == if Publishes(frameCount) then vectors else old(published)
    {
      frameCount := frameCount + 1;
      var next: seq<Vector> := [];
      var i := 0;
      while i < |vectors|
        invariant 0 <= i <= |vectors| && vectors == old(vectors)
        invariant frameCount == old(frameCount) + 1 && published == old(published)
        invariant |next| == i
        invariant forall j :: 0 <= j < i ==> next[j] == Turned(vectors[j], heading(mouseX - vectors[j].x, mouseY - vectors[j].y))
      {
        var w := TurnVector(vectors[i], mouseX, mouseY, heading);
        next := next + [w];
        i := i + 1;
      }
      vectors := next;
      if frameCount % 3 == 0 {
        published := vectors;
      }
    }
  }

  /** The `map` callback: the heading to the mouse, the two loops, and 8% of the turn. */
  method TurnVector(v: Vector, mouseX: real, mouseY: real, heading: (real, real) -> real) returns (w: Vector)
    ensures w == Turned(v, heading(mouseX - v.x, mouseY - v.y))
  {
    var targetAngle := heading(mouseX - v.x, mouseY - v.y);
    var diff := NormaliseDiff(targetAngle - v.angle);
    w := v.(angle := v.angle + diff * 0.08);
  }

  // ---------------------------------------------------------------------
  // Stroke colour
  // ---------------------------------------------------------------------

  /** The colour controls; opacities in hundredths (0.12 is 12). */
  datatype VectorColors = VectorColors(
    darkVectorColor: string, darkVectorOpacity: nat,
    lightVectorColor: string, lightVectorOpacity: nat)

  /** The stroke colour for the theme. */
  function StrokeColor(theme: Theme, colors: VectorColors): string {
    if theme == Dark then HexToRgba(colors.darkVectorColor, colors.darkVectorOpacity)
    else HexToRgba(colors.lightVectorColor, colors.lightVectorOpacity)
  }

  /** For a `#rrggbb` control, the stroke colour reads back as its channels and the theme's opacity. */
  lemma StrokeColorChannels(theme: Theme, colors: VectorColors, hex: string, opacity: nat)
    requires hex == if theme == Dark then colors.darkVectorColor else colors.lightVectorColor
    requires opacity == if theme == Dark then colors.darkVectorOpacity else colors.lightVectorOpacity
    requires IsHexColor(hex)
    ensures ParseRgba(StrokeColor(theme, colors))
            == Some((PairValue(hex[1], hex[2]), PairValue(hex[3], hex[4]), PairValue(hex[5], hex[6]), opacity))
  {
    ParseRgbaOfHexToRgba(hex, opacity);
  }
}
