/**
 * The part of the browser's 2D canvas context that the globe texture uses.
 *
 * Rasterisation is not modelled: the context keeps its drawing state
 * (styles and the current path) and records every paint operation, in
 * order, in `painted`. Colour strings are kept as given.
 */
module Canvas {
  /** One command of the current path. */
  datatype PathCmd =
    | MoveTo(x: real, y: real)
    | LineTo(x: real, y: real)
    | ClosePath
      /** `arc(x, y, r, 0, 2π)`: a whole circle, the only arc the texture draws. */
    | Circle(x: real, y: real, r: real)

  /** One paint operation: what was painted, and with which style. */
  datatype Paint =
    | FillRect(x: real, y: real, w: real, h: real, style: string)
    | FillPath(path: seq<PathCmd>, style: string)
    | StrokePath(path: seq<PathCmd>, style: string, width: real, join: string)

  /** The drawing state a `fill` and a `stroke` read. */
  datatype Pen = Pen(fill: string, stroke: string, width: real, join: string)

  class Context2D {
    var fillStyle: string
    var strokeStyle: string
    var lineWidth: real
    var lineJoin: string
    var path: seq<PathCmd>
    var painted: seq<Paint>

    /** A fresh context with the canvas defaults: black fill and stroke, width 1, mitred joins. */
    constructor ()
      ensures fillStyle == "#000000" && strokeStyle == "#000000"
      ensures lineWidth == 1.0 && lineJoin == "miter"
      ensures path == [] && painted == []
    {
      fillStyle := "#000000";
      strokeStyle := "#000000";
      lineWidth := 1.0;
      lineJoin := "miter";
      path := [];
      painted := [];
    }

    /** The styles a paint operation would use now. */
    function CurrentPen(): (p: Pen)
      reads this`fillStyle, this`strokeStyle, this`lineWidth, this`lineJoin
      ensures p.fill == fillStyle && p.stroke == strokeStyle && p.width == lineWidth && p.join == lineJoin
    {
      Pen(fillStyle, strokeStyle, lineWidth, lineJoin)
    }

    /**
     * `lineWidth = w`: the setter ignores a zero or negative width and keeps
     * the current one (infinite and NaN widths, which it ignores as well, are
     * not reals).
     */
    method SetLineWidth(w: real)
      modifies this`lineWidth
      ensures lineWidth == if w > 0.0 then w else old(lineWidth)
    {
      if w > 0.0 {
        lineWidth := w;
      }
    }

    method BeginPath()
      modifies this`path
      ensures path == []
    {
      path := [];
    }

    method MoveTo(x: real, y: real)
      modifies this`path
      ensures path == old(path) + [PathCmd.MoveTo(x, y)]
    {
      path := path + [PathCmd.MoveTo(x, y)];
    }

    method LineTo(x: real, y: real)
      modifies this`path
      ensures path == old(path) + [PathCmd.LineTo(x, y)]
    {
      path := path + [PathCmd.LineTo(x, y)];
    }

    method ClosePath()
      modifies this`path
      ensures path == old(path) + [PathCmd.ClosePath]
    {
      path := path + [PathCmd.ClosePath];
    }

    /** `arc(x, y, r, 0, 2 * Math.PI)`. */
    method Arc(x: real, y: real, r: real)
      modifies this`path
      ensures path == old(path) + [Circle(x, y, r)]
    {
      path := path + [Circle(x, y, r)];
    }

    /** Fills the current path with the current fill style; the path stays. */
    method Fill()
      modifies this`painted
      ensures painted == old(painted) + [FillPath(path, fillStyle)]
    {
      painted := painted + [FillPath(path, fillStyle)];
    }

    /** Strokes the current path with the current stroke style, width and join. */
    method Stroke()
      modifies this`painted
      ensures painted == old(painted) + [StrokePath(path, strokeStyle, lineWidth, lineJoin)]
    {
      painted := painted + [StrokePath(path, strokeStyle, lineWidth, lineJoin)];
    }

    /** Fills a rectangle with the current fill style; the path is untouched. */
    method FillRect(x: real, y: real, w: real, h: real)
      modifies this`painted
      ensures painted == old(painted) + [Paint.FillRect(x, y, w, h, fillStyle)]
    {
      painted := painted + [Paint.FillRect(x, y, w, h, fillStyle)];
    }
  }
}
