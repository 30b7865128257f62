/**
 The rectangle gesture of the whiteboard component: press, move and release
 handlers over the module-level rectangle globals (`startX`, `startY`,
 `widthRect`, `heightRect`, `maxWidth`, `maxHeight`) and the component's
 `isDrawing` flag. Each handler returns the next state and the canvas calls it
 made. The unwired freehand handlers are modelled at the end.
 */
module Gesture {
  import opened Canvas

  datatype Point = Point(x: int, y: int)

  /** The rectangle globals plus the `isDrawing` flag. */
  datatype GestureState = GestureState(
    startX: int,
    startY: int,
    widthRect: int,
    heightRect: int,
    maxWidth: int,
    maxHeight: int,
    isDrawing: bool)

  /** The component's props and whether a 2D context was acquired at mount. */
  datatype Surface = Surface(width: int, height: int, hasContext: bool)

  /** Result of one handler: the next state and the canvas calls, in order. */
  datatype Step = Step(next: GestureState, emitted: seq<Command>)

  /** Values of the globals at module load, before any event. */
  const Initial: GestureState := GestureState(0, 0, 0, 0, 0, 0, false)

  /** The rectangle most recently stroked from this state's globals. */
  function PreviousStroke(g: GestureState): Rect {
    Rect(g.startX, g.startY, g.widthRect, g.heightRect)
  }

  /** `startDrawingRectangle`: with a context, anchor the gesture at the pointer. */
  function Press(surface: Surface, g: GestureState, p: Point): (r: Step)
    ensures surface.hasContext ==>
              && r.next.startX == p.x && r.next.startY == p.y
              && r.next.widthRect == 0 && r.next.heightRect == 0
              && r.next.isDrawing
              && r.next.maxWidth == g.maxWidth && r.next.maxHeight == g.maxHeight
              && r.emitted == [BeginPath]
    ensures !surface.hasContext ==> r.next == g && r.emitted == []
  {
    if surface.hasContext then
      Step(g.(startX := p.x, startY := p.y, widthRect := 0, heightRect := 0, isDrawing := true),
           [BeginPath])
    else
      Step(g, [])
  }

  /** The four erase branches, tested in source order. Screen y grows downward. */
  datatype Branch = UpLeft | UpRight | DownLeft | Fallback

  /** Which erase branch a move to `c` takes: strict comparisons against the start point. */
  function BranchOf(g: GestureState, c: Point): (b: Branch)
    ensures b == UpLeft <==> c.x < g.startX && c.y < g.startY
    ensures b == UpRight <==> c.x > g.startX && c.y < g.startY
    ensures b == DownLeft <==> c.x < g.startX && c.y > g.startY
    ensures b == Fallback <==> c.x == g.startX || c.y == g.startY || (c.x > g.startX && c.y > g.startY)
  {
    if c.x < g.startX && c.y < g.startY then UpLeft
    else if c.x > g.startX && c.y < g.startY then UpRight
    else if c.x < g.startX && c.y > g.startY then DownLeft
    else Fallback
  }

  /** The box `drawRectangle` clears before redrawing, from the PREVIOUS width and height. */
  function EraseBox(g: GestureState, c: Point): Rect {
    match BranchOf(g, c)
    case UpLeft => Rect(g.startX + 1, g.startY + 1, g.widthRect - 2, g.heightRect - 2)
    case UpRight => Rect(g.startX - 1, g.startY + 1, g.widthRect + 2, g.heightRect - 2)
    case DownLeft => Rect(g.startX + 1, g.startY - 1, g.widthRect - 2, g.heightRect + 2)
    case Fallback => Rect(g.startX - 1, g.startY - 1, g.widthRect + 2, g.heightRect + 2)
  }

  /**
   One axis of an erase box: an "inward" axis moves the origin in by one and
   shrinks the size by two; otherwise the origin moves out by one and the size
   grows by two.
   */
  function AxisErase(origin: int, size: int, inward: bool): (int, int) {
    if inward then (origin + 1, size - 2) else (origin - 1, size + 2)
  }

  /** Builds an erase rectangle from an independent choice per axis. */
  function PerAxisErase(g: GestureState, inwardX: bool, inwardY: bool): Rect {
    var (x, w) := AxisErase(g.startX, g.widthRect, inwardX);
    var (y, h) := AxisErase(g.startY, g.heightRect, inwardY);
    Rect(x, y, w, h)
  }

  /**
   The four branches are a per-axis choice: the x axis is treated inward exactly
   when the pointer is left of the start and not level with it, and likewise for y.
   */
  lemma EraseBoxPerAxis(g: GestureState, c: Point)
    ensures EraseBox(g, c) ==
            PerAxisErase(g, c.x < g.startX && c.y != g.startY, c.y < g.startY && c.x != g.startX)
  {
  }

  /** An axis choice that suits the previous size's sign on that axis (either fits size 0). */
  predicate SuitsSign(size: int, inward: bool) {
    (size < 0 ==> inward) && (size > 0 ==> !inward)
  }

  lemma AxisEraseFootprint(origin: int, size: int, inward: bool)
    ensures var (o, s) := AxisErase(origin, size, inward);
            SuitsSign(size, inward) ==>
              SpanOf(o, s) == Span(SpanOf(origin, size).lo - 1, SpanOf(origin, size).hi + 1)
    ensures var (o, s) := AxisErase(origin, size, inward);
            !SuitsSign(size, inward) ==>
              !SpanWithin(Span(SpanOf(origin, size).lo - 1, SpanOf(origin, size).hi + 1), SpanOf(o, s))
  {
  }

  /**
   The per-axis erase covers the previous stroke's footprint exactly when both
   axis choices suit the previous size's sign, and then it is exactly that footprint.
   */
  lemma PerAxisEraseFootprint(g: GestureState, inwardX: bool, inwardY: bool)
    ensures SuitsSign(g.widthRect, inwardX) && SuitsSign(g.heightRect, inwardY) ==>
              BoxOf(PerAxisErase(g, inwardX, inwardY)) == Footprint(PreviousStroke(g))
    ensures Contains(BoxOf(PerAxisErase(g, inwardX, inwardY)), Footprint(PreviousStroke(g))) <==>
              SuitsSign(g.widthRect, inwardX) && SuitsSign(g.heightRect, inwardY)
  {
    AxisEraseFootprint(g.startX, g.widthRect, inwardX);
    AxisEraseFootprint(g.startY, g.heightRect, inwardY);
  }

  /**
   As written, a move's erase box removes the previous outline exactly when the
   pointer's quadrant agrees with the previous rectangle's signs; in that case the
   erase box is the previous stroked box grown by one pixel on each side.
   */
  lemma EraseCoversPreviousIff(g: GestureState, c: Point)
    ensures var inwardX := c.x < g.startX && c.y != g.startY;
            var inwardY := c.y < g.startY && c.x != g.startX;
            && (Contains(BoxOf(EraseBox(g, c)), Footprint(PreviousStroke(g))) <==>
                  SuitsSign(g.widthRect, inwardX) && SuitsSign(g.heightRect, inwardY))
            && (SuitsSign(g.widthRect, inwardX) && SuitsSign(g.heightRect, inwardY) ==>
                  BoxOf(EraseBox(g, c)) == Footprint(PreviousStroke(g)))
  {
    EraseBoxPerAxis(g, c);
    PerAxisEraseFootprint(g, c.x < g.startX && c.y != g.startY, c.y < g.startY && c.x != g.startX);
  }

  /** The fall-through branch with a non-negative previous size erases the grown previous box. */
  lemma FallbackErasesGrownBox(g: GestureState, c: Point)
    requires BranchOf(g, c) == Fallback
    requires g.widthRect >= 0 && g.heightRect >= 0
    ensures BoxOf(EraseBox(g, c)) ==
            Box(Span(g.startX - 1, g.startX + g.widthRect + 1), Span(g.startY - 1, g.startY + g.heightRect + 1))
    ensures BoxOf(EraseBox(g, c)) == Footprint(PreviousStroke(g))
  {
    EraseCoversPreviousIff(g, c);
  }

  /** The up-left branch with a non-positive previous size erases the grown, normalised previous box. */
  lemma UpLeftErasesGrownBox(g: GestureState, c: Point)
    requires BranchOf(g, c) == UpLeft
    requires g.widthRect <= 0 && g.heightRect <= 0
    ensures BoxOf(EraseBox(g, c)) ==
            Box(Span(g.startX + g.widthRect - 1, g.startX + 1), Span(g.startY + g.heightRect - 1, g.startY + 1))
    ensures BoxOf(EraseBox(g, c)) == Footprint(PreviousStroke(g))
  {
    EraseCoversPreviousIff(g, c);
  }

  /**
   Press at (10,10), drag to (20,20), then move to (5,5): the up-left branch
   clears x in [11,19] while the previous outline reaches x = 9 and x = 21, so the
   old rectangle stays on the canvas.
   */
  lemma CrossingMoveLeavesOutline(surface: Surface)
    requires surface.hasContext
    ensures var g := Move(surface, Press(surface, Initial, Point(10, 10)).next, Point(20, 20)).next;
            && PreviousStroke(g) == Rect(10, 10, 10, 10)
            && BoxOf(EraseBox(g, Point(5, 5))) == Box(Span(11, 19), Span(11, 19))
            && Footprint(PreviousStroke(g)) == Box(Span(9, 21), Span(9, 21))
            && !Contains(BoxOf(EraseBox(g, Point(5, 5))), Footprint(PreviousStroke(g)))
  {
  }

  /**
   Crossing one axis while landing level with the start on the other falls
   through to the last branch, which still covers an outline of non-negative size.
   */
  lemma LevelCrossingMoveErasesOutline(surface: Surface)
    requires surface.hasContext
    ensures var g := Move(surface, Press(surface, Initial, Point(10, 10)).next, Point(20, 20)).next;
            && BranchOf(g, Point(5, 10)) == Fallback
            && Contains(BoxOf(EraseBox(g, Point(5, 10))), Footprint(PreviousStroke(g)))
  {
  }

  /**
   A move level with the start leaves the outline when the previous size was
   negative on that same axis: after a drag from (10,10) to (20,0), a move to
   (20,10) clears y in [1,9] while the outline spans y in [-1,11].
   */
  lemma LevelMoveAfterNegativeSizeLeavesOutline(surface: Surface)
    requires surface.hasContext
    ensures var g := Move(surface, Press(surface, Initial, Point(10, 10)).next, Point(20, 0)).next;
            && PreviousStroke(g) == Rect(10, 10, 10, -10)
            && BranchOf(g, Point(20, 10)) == Fallback
            && BoxOf(EraseBox(g, Point(20, 10))) == Box(Span(9, 21), Span(1, 9))
            && Footprint(PreviousStroke(g)) == Box(Span(9, 21), Span(-1, 11))
            && !Contains(BoxOf(EraseBox(g, Point(20, 10))), Footprint(PreviousStroke(g)))
  {
  }

  /** The rectangle a move to `c` strokes: from the unchanged start point to `c`. */
  function StrokeTo(g: GestureState, c: Point): Rect {
    Rect(g.startX, g.startY, c.x - g.startX, c.y - g.startY)
  }

  function Max(a: int, b: int): int {
    if a < b then b else a
  }

  /**
   `drawRectangle`: while drawing with a context, clear the erase box computed
   from the previous size, update the size to the pointer's offset from the
   start, raise the max globals to the props, and stroke the new rectangle.
   */
  function Move(surface: Surface, g: GestureState, c: Point): (r: Step)
    ensures !(g.isDrawing && surface.hasContext) ==> r.next == g && r.emitted == []
    ensures g.isDrawing && surface.hasContext ==>
              && r.next.startX == g.startX && r.next.startY == g.startY
              && r.next.widthRect == c.x - g.startX && r.next.heightRect == c.y - g.startY
              && r.next.isDrawing
              && r.next.maxWidth >= g.maxWidth && r.next.maxWidth >= surface.width
              && (r.next.maxWidth == g.maxWidth || r.next.maxWidth == surface.width)
              && r.next.maxHeight >= g.maxHeight && r.next.maxHeight >= surface.height
              && (r.next.maxHeight == g.maxHeight || r.next.maxHeight == surface.height)
              && |r.emitted| == 2
              && r.emitted[0] == ClearRect(EraseBox(g, c))
              && r.emitted[0].r.w in {g.widthRect - 2, g.widthRect + 2}
              && r.emitted[0].r.h in {g.heightRect - 2, g.heightRect + 2}
              && r.emitted[1] == StrokeRect(Rect(r.next.startX, r.next.startY, r.next.widthRect, r.next.heightRect))
  {
    if g.isDrawing && surface.hasContext then
      var erase := EraseBox(g, c);
      var next := g.(widthRect := c.x - g.startX,
                     heightRect := c.y - g.startY,
                     maxWidth := Max(g.maxWidth, surface.width),
                     maxHeight := Max(g.maxHeight, surface.height));
      Step(next, [ClearRect(erase), StrokeRect(StrokeTo(g, c))])
    else
      Step(g, [])
  }

  /** `stopDrawing` (mouse up and mouse leave): end the gesture, keep start and size. */
  function Release(surface: Surface, g: GestureState): (r: Step)
    ensures !r.next.isDrawing
    ensures r.next.startX == g.startX && r.next.startY == g.startY
    ensures r.next.widthRect == g.widthRect && r.next.heightRect == g.heightRect
    ensures r.next.maxWidth == g.maxWidth && r.next.maxHeight == g.maxHeight
    ensures r.emitted == if surface.hasContext then [ClosePath] else []
  {
    Step(g.(isDrawing := false), if surface.hasContext then [ClosePath] else [])
  }

  /** Moving twice to the same point leaves the same state and strokes the same rectangle. */
  lemma MoveIdempotent(surface: Surface, g: GestureState, c: Point)
    ensures Move(surface, Move(surface, g, c).next, c).next == Move(surface, g, c).next
    ensures g.isDrawing && surface.hasContext ==>
              Move(surface, Move(surface, g, c).next, c).emitted[1] == Move(surface, g, c).emitted[1]
  {
  }

  /** After a release, moves change nothing and draw nothing. */
  lemma MoveAfterReleaseIsInert(surface: Surface, g: GestureState, c: Point)
    ensures var idle := Release(surface, g).next;
            Move(surface, idle, c) == Step(idle, [])
  {
  }

  function Min(a: int, b: int): int {
    if a < b then a else b
  }

  /**
   A press followed by a move strokes the rectangle whose opposite corners are the
   two points, and the region it addresses is the same whichever corner came first.
   */
  lemma PressThenMoveStrokesSpan(surface: Surface, g: GestureState, p: Point, c: Point)
    requires surface.hasContext
    ensures var moved := Move(surface, Press(surface, g, p).next, c);
            && moved.emitted[1] == StrokeRect(Rect(p.x, p.y, c.x - p.x, c.y - p.y))
            && BoxOf(moved.emitted[1].r) ==
               Box(Span(Min(p.x, c.x), Max(p.x, c.x)), Span(Min(p.y, c.y), Max(p.y, c.y)))
    ensures BoxOf(Move(surface, Press(surface, g, p).next, c).emitted[1].r) ==
            BoxOf(Move(surface, Press(surface, g, c).next, p).emitted[1].r)
  {
  }

  /** Feeds a sequence of pointer positions to `drawRectangle`, concatenating the calls. */
  function Drag(surface: Surface, g: GestureState, points: seq<Point>): Step
    decreases |points|
  {
    if |points| == 0 then Step(g, [])
    else
      var first := Move(surface, g, points[0]);
      var rest := Drag(surface, first.next, points[1..]);
      Step(rest.next, first.emitted + rest.emitted)
  }

  /** The state `g` with the size a move to `p` leaves behind. */
  function SizedTo(g: GestureState, p: Point): GestureState {
    g.(widthRect := p.x - g.startX, heightRect := p.y - g.startY)
  }

  /**
   During a drag the start point never moves, the size tracks the latest pointer
   position, and every move issues exactly two canvas calls.
   */
  lemma {:induction false} DragTracksPointer(surface: Surface, g: GestureState, points: seq<Point>)
    requires surface.hasContext && g.isDrawing && |points| > 0
    decreases |points|
    ensures var r := Drag(surface, g, points);
            && r.next.startX == g.startX && r.next.startY == g.startY
            && r.next.widthRect == points[|points| - 1].x - g.startX
            && r.next.heightRect == points[|points| - 1].y - g.startY
            && r.next.isDrawing
            && |r.emitted| == 2 * |points|
  {
    if |points| > 1 {
      var g1 := Move(surface, g, points[0]).next;
      DragTracksPointer(surface, g1, points[1..]);
      assert points[1..][|points| - 2] == points[|points| - 1];
    }
  }

  /**
   Each move of a drag strokes the rectangle from the start point to its own
   pointer position, and erases using the size left by the move before it
   (the state's size for the first move).
   */
  lemma {:induction false} DragCalls(surface: Surface, g: GestureState, points: seq<Point>, i: nat)
    requires surface.hasContext && g.isDrawing && i < |points|
    decreases i
    ensures |Drag(surface, g, points).emitted| == 2 * |points|
    ensures Drag(surface, g, points).emitted[2 * i + 1] == StrokeRect(StrokeTo(g, points[i]))
    ensures Drag(surface, g, points).emitted[2 * i] ==
            ClearRect(EraseBox(if i == 0 then g else SizedTo(g, points[i - 1]), points[i]))
  {
    DragTracksPointer(surface, g, points);
    var first := Move(surface, g, points[0]);
    var r := Drag(surface, g, points);
    if i > 0 {
      var g1 := first.next;
      var tail := points[1..];
      DragCalls(surface, g1, tail, i - 1);
      var rest := Drag(surface, g1, tail);
      assert r.emitted == first.emitted + rest.emitted;
      assert r.emitted[2 * i + 1] == rest.emitted[2 * (i - 1) + 1];
      assert r.emitted[2 * i] == rest.emitted[2 * (i - 1)];
      assert tail[i - 1] == points[i];
      if i > 1 {
        assert tail[i - 2] == points[i - 1];
        assert SizedTo(g1, tail[i - 2]) == SizedTo(g, points[i - 1]).(maxWidth := g1.maxWidth, maxHeight := g1.maxHeight);
      } else {
        assert g1 == SizedTo(g, points[0]).(maxWidth := g1.maxWidth, maxHeight := g1.maxHeight);
      }
    }
  }

  // Corrected erase (see the Findings section of the README).

  /**
   The erase box chosen from the signs of the previous width and height, which
   is what the rectangle being erased actually depends on.
   */
  function CorrectedEraseBox(g: GestureState): (r: Rect)
    ensures BoxOf(r) == Footprint(PreviousStroke(g))
  {
    PerAxisEraseFootprint(g, g.widthRect < 0, g.heightRect < 0);
    PerAxisErase(g, g.widthRect < 0, g.heightRect < 0)
  }

  /** `drawRectangle` with the corrected erase; everything else as in `Move`. */
  function CorrectedMove(surface: Surface, g: GestureState, c: Point): (r: Step)
    ensures r.next == Move(surface, g, c).next
    ensures g.isDrawing && surface.hasContext ==>
              && |r.emitted| == 2
              && r.emitted[1] == Move(surface, g, c).emitted[1]
              && r.emitted[0].ClearRect?
              && Contains(BoxOf(r.emitted[0].r), Footprint(PreviousStroke(g)))
    ensures !(g.isDrawing && surface.hasContext) ==> r.emitted == []
  {
    var m := Move(surface, g, c);
    if g.isDrawing && surface.hasContext then
      Step(m.next, [ClearRect(CorrectedEraseBox(g)), m.emitted[1]])
    else
      m
  }

  /**
   With the corrected erase, every move of a gesture clears the whole footprint
   of the rectangle the previous move stroked, wherever the pointer goes.
   */
  lemma CorrectedMoveErasesPreviousStroke(surface: Surface, g: GestureState, c: Point, d: Point)
    requires surface.hasContext && g.isDrawing
    ensures var first := Move(surface, g, c);
            var second := CorrectedMove(surface, first.next, d);
            Contains(BoxOf(second.emitted[0].r), Footprint(first.emitted[1].r))
  {
  }

  // Freehand handlers `startDrawing`/`draw`: defined in the component but not
  // attached to any canvas event.

  /** `startDrawing`: with a context, begin a path at the pointer and set `isDrawing`. */
  function StartFreehand(surface: Surface, g: GestureState, p: Point): (r: Step)
    ensures surface.hasContext ==> r.next == g.(isDrawing := true) && r.emitted == [BeginPath, MoveTo(p.x, p.y)]
    ensures !surface.hasContext ==> r == Step(g, [])
  {
    if surface.hasContext then Step(g.(isDrawing := true), [BeginPath, MoveTo(p.x, p.y)]) else Step(g, [])
  }

  /** `draw`: while drawing with a context, extend the path to the pointer and stroke it. */
  function FreehandMove(surface: Surface, g: GestureState, p: Point): (r: Step)
    ensures r.next == g
    ensures r.emitted == if g.isDrawing && surface.hasContext then [LineTo(p.x, p.y), Stroke] else []
  {
    if g.isDrawing && surface.hasContext then Step(g, [LineTo(p.x, p.y), Stroke]) else Step(g, [])
  }

  /** Feeds a sequence of pointer positions to `draw`, concatenating the calls. */
  function FreehandDrag(surface: Surface, g: GestureState, points: seq<Point>): Step
    decreases |points|
  {
    if |points| == 0 then Step(g, [])
    else
      var first := FreehandMove(surface, g, points[0]);
      var rest := FreehandDrag(surface, first.next, points[1..]);
      Step(rest.next, first.emitted + rest.emitted)
  }

  /**
   While drawing with a context, a freehand drag extends the path to each point
   in order and strokes after each one, and it never touches the rectangle
   globals; otherwise it draws nothing.
   */
  lemma {:induction false} FreehandDragCalls(surface: Surface, g: GestureState, points: seq<Point>)
    decreases |points|
    ensures FreehandDrag(surface, g, points).next == g
    ensures !(g.isDrawing && surface.hasContext) ==> FreehandDrag(surface, g, points).emitted == []
    ensures g.isDrawing && surface.hasContext ==>
              && |FreehandDrag(surface, g, points).emitted| == 2 * |points|
              && (forall i :: 0 <= i < |points| ==>
                    && FreehandDrag(surface, g, points).emitted[2 * i] == LineTo(points[i].x, points[i].y)
                    && FreehandDrag(surface, g, points).emitted[2 * i + 1] == Stroke)
  {
    if |points| > 0 {
      var first := FreehandMove(surface, g, points[0]);
      var tail := points[1..];
      FreehandDragCalls(surface, g, tail);
      var r := FreehandDrag(surface, g, points);
      var rest := FreehandDrag(surface, g, tail);
      assert r.emitted == first.emitted + rest.emitted;
      if g.isDrawing && surface.hasContext {
        forall i | 0 <= i < |points|
          ensures r.emitted[2 * i] == LineTo(points[i].x, points[i].y) && r.emitted[2 * i + 1] == Stroke
        {
          if i > 0 {
            assert r.emitted[2 * i] == rest.emitted[2 * (i - 1)];
            assert r.emitted[2 * i + 1] == rest.emitted[2 * (i - 1) + 1];
            assert tail[i - 1] == points[i];
          }
        }
      }
    }
  }

  /**
   A freehand press then drag: the path starts at the press point, visits the
   drag points in order, and only the `isDrawing` flag changes.
   */
  lemma FreehandGesture(surface: Surface, g: GestureState, p: Point, points: seq<Point>)
    requires surface.hasContext && |points| > 0
    ensures var start := StartFreehand(surface, g, p);
            var drag := FreehandDrag(surface, start.next, points);
            && start.emitted == [BeginPath, MoveTo(p.x, p.y)]
            && drag.next == g.(isDrawing := true)
            && drag.emitted[0] == LineTo(points[0].x, points[0].y)
            && drag.emitted[|drag.emitted| - 1] == Stroke
  {
    FreehandDragCalls(surface, StartFreehand(surface, g, p).next, points);
  }
}
