/**
 A small option type shared by the other modules.
 */
module Options {

  datatype Option<+T> = None | Some(value: T)
}

/**
 The Canvas 2D calls the whiteboard makes, kept as an opaque command log,
 plus the geometry needed to talk about the pixels a rectangle call touches.

 The canvas standard normalises a rectangle whose width or height is negative:
 the covered interval on an axis runs from min(origin, origin + size) to
 max(origin, origin + size). Strokes are drawn with line width 2, so a stroked
 outline can paint up to one pixel outside that interval on every side.
 A `clearRect` with zero width or height clears nothing; `BoxOf` still gives it
 a one-coordinate span, so containment claims below are only made for boxes
 whose sizes are non-zero.
 */
module Canvas {

  /** A rectangle exactly as passed to `clearRect`/`strokeRect`: corner and signed size. */
  datatype Rect = Rect(x: int, y: int, w: int, h: int)

  /** One canvas call, in the order the component issues them. */
  datatype Command =
    | BeginPath
    | ClosePath
    | MoveTo(x: int, y: int)
    | LineTo(x: int, y: int)
    | Stroke
    | ClearRect(r: Rect)
    | StrokeRect(r: Rect)

  /** A closed interval of coordinates on one axis. */
  datatype Span = Span(lo: int, hi: int)

  /** An axis-aligned region: one span per axis. */
  datatype Box = Box(xs: Span, ys: Span)

  /** Line width the component configures on the context at mount. */
  const LineWidth: int := 2

  /** The normalised interval covered by `size` pixels starting at `origin`. */
  function SpanOf(origin: int, size: int): (s: Span)
    ensures s.lo <= s.hi
    ensures s.hi - s.lo == if size < 0 then -size else size
    ensures s.lo == origin || s.hi == origin
    ensures s.lo == origin + size || s.hi == origin + size
  {
    if size < 0 then Span(origin + size, origin) else Span(origin, origin + size)
  }

  /** The region a rectangle call addresses, after normalisation. */
  function BoxOf(r: Rect): Box {
    Box(SpanOf(r.x, r.w), SpanOf(r.y, r.h))
  }

  /** A box grown by `d` pixels on every side. */
  function Inflate(b: Box, d: int): Box {
    Box(Span(b.xs.lo - d, b.xs.hi + d), Span(b.ys.lo - d, b.ys.hi + d))
  }

  /** Every pixel `strokeRect(r)` may paint: the outline grown by half the line width. */
  function Footprint(r: Rect): Box {
    Inflate(BoxOf(r), LineWidth / 2)
  }

  predicate SpanWithin(inner: Span, outer: Span) {
    outer.lo <= inner.lo && inner.hi <= outer.hi
  }

  /** True when every pixel of `inner` lies in `outer`. */
  predicate Contains(outer: Box, inner: Box) {
    SpanWithin(inner.xs, outer.xs) && SpanWithin(inner.ys, outer.ys)
  }
}
