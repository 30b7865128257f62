/**
 The whiteboard component as one event-driven machine: the canvas listeners
 (mouse down, move, up, leave), the three buttons (clear, record, download) and
 the two recorder notifications, each processed to completion before the next.
 */
module Whiteboard {
  import opened Options
  import opened Canvas
  import Gesture
  import Recording

  datatype State = State(gesture: Gesture.GestureState, recording: Recording.RecordingState)

  /** Inputs the component reacts to. Download is a query, see `Recording.Download`. */
  datatype Event =
    | MouseDown(p: Gesture.Point)
    | MouseMove(p: Gesture.Point)
    | MouseUp
    | MouseLeave
    | ClearClick
    | RecordClick
    | DataAvailable(size: nat)
    | RecorderStopped

  datatype Outcome = Outcome(next: State, emitted: seq<Command>)

  /** Module-load globals and mount-time React state, after the mount effects ran. */
  function Mounted(surface: Gesture.Surface): (s: State)
    ensures s.gesture == Gesture.Initial && s.recording == Recording.Initial
  {
    State(Gesture.Initial, Recording.RecordingEffect(surface.hasContext, Recording.Initial))
  }

  predicate IsPointerEvent(e: Event) {
    e.MouseDown? || e.MouseMove? || e.MouseUp? || e.MouseLeave?
  }

  predicate IsRecorderEvent(e: Event) {
    e.RecordClick? || e.DataAvailable? || e.RecorderStopped?
  }

  /** `clearDrawing`: with a context, clear the whole canvas. */
  function Clear(surface: Gesture.Surface, s: State): (r: Outcome)
    ensures r.next == s
    ensures surface.hasContext ==> r.emitted == [ClearRect(Rect(0, 0, surface.width, surface.height))]
    ensures !surface.hasContext ==> r.emitted == []
  {
    if surface.hasContext then Outcome(s, [ClearRect(Rect(0, 0, surface.width, surface.height))])
    else Outcome(s, [])
  }

  /** The clear command addresses every pixel of the canvas. */
  lemma ClearCoversCanvas(surface: Gesture.Surface, s: State)
    requires surface.hasContext && surface.width > 0 && surface.height > 0
    ensures var c := Clear(surface, s).emitted[0];
            c.ClearRect? &&
            Contains(BoxOf(c.r), Box(Span(0, surface.width), Span(0, surface.height)))
  {
  }

  function WithGesture(s: State, st: Gesture.Step): Outcome {
    Outcome(s.(gesture := st.next), st.emitted)
  }

  /** Routes one event to the handler the component attaches to it. */
  function Step(surface: Gesture.Surface, s: State, e: Event): (r: Outcome)
    ensures IsPointerEvent(e) ==> r.next.recording == s.recording
    ensures !IsPointerEvent(e) ==> r.next.gesture == s.gesture
    ensures IsRecorderEvent(e) ==> r.emitted == []
    ensures e.ClearClick? ==> r.next == s
  {
    match e
    case MouseDown(p) => WithGesture(s, Gesture.Press(surface, s.gesture, p))
    case MouseMove(p) => WithGesture(s, Gesture.Move(surface, s.gesture, p))
    case MouseUp => WithGesture(s, Gesture.Release(surface, s.gesture))
    case MouseLeave => WithGesture(s, Gesture.Release(surface, s.gesture))
    case ClearClick => Clear(surface, s)
    case RecordClick =>
      Outcome(s.(recording := Recording.ToggleRecording(surface.hasContext, s.recording)), [])
    case DataAvailable(size) =>
      Outcome(s.(recording := Recording.OnDataAvailable(s.recording, size)), [])
    case RecorderStopped =>
      Outcome(s.(recording := Recording.OnRecorderStop(s.recording)), [])
  }

  /** Processes events in order, concatenating the canvas calls. */
  function Run(surface: Gesture.Surface, s: State, events: seq<Event>): Outcome
    decreases |events|
  {
    if |events| == 0 then Outcome(s, [])
    else
      var first := Step(surface, s, events[0]);
      var rest := Run(surface, first.next, events[1..]);
      Outcome(rest.next, first.emitted + rest.emitted)
  }

  /** Mouse up and mouse leave run the same handler. */
  lemma LeaveIsRelease(surface: Gesture.Surface, s: State)
    ensures Step(surface, s, MouseLeave) == Step(surface, s, MouseUp)
    ensures !Step(surface, s, MouseLeave).next.gesture.isDrawing
  {
  }

  /** The max globals only grow, whatever happens. */
  lemma {:induction false} RunNeverShrinksMax(surface: Gesture.Surface, s: State, events: seq<Event>)
    decreases |events|
    ensures Run(surface, s, events).next.gesture.maxWidth >= s.gesture.maxWidth
    ensures Run(surface, s, events).next.gesture.maxHeight >= s.gesture.maxHeight
  {
    if |events| > 0 {
      RunNeverShrinksMax(surface, Step(surface, s, events[0]).next, events[1..]);
    }
  }

  /** The recording toggle and the recorder stay in step over any run. */
  lemma {:induction false} RunPreservesConsistent(surface: Gesture.Surface, s: State, events: seq<Event>)
    requires Recording.Consistent(surface.hasContext, s.recording)
    decreases |events|
    ensures Recording.Consistent(surface.hasContext, Run(surface, s, events).next.recording)
  {
    if |events| > 0 {
      var e := events[0];
      var size := if e.DataAvailable? then e.size else 0;
      Recording.HandlersPreserveConsistent(surface.hasContext, s.recording, size);
      RunPreservesConsistent(surface, Step(surface, s, e).next, events[1..]);
    }
  }

  /** With no gesture in progress, any number of mouse moves do nothing at all. */
  lemma {:induction false} IdleMovesAreInert(surface: Gesture.Surface, s: State, events: seq<Event>)
    requires !s.gesture.isDrawing
    requires forall i :: 0 <= i < |events| ==> events[i].MouseMove?
    decreases |events|
    ensures Run(surface, s, events) == Outcome(s, [])
  {
    if |events| > 0 {
      IdleMovesAreInert(surface, Step(surface, s, events[0]).next, events[1..]);
    }
  }

  /** Without a 2D context nothing is ever drawn and no recorder is ever created. */
  lemma {:induction false} NoContextDrawsNothing(surface: Gesture.Surface, s: State, events: seq<Event>)
    requires !surface.hasContext && !s.gesture.isDrawing && s.recording.recorder.None?
    decreases |events|
    ensures Run(surface, s, events).emitted == []
    ensures !Run(surface, s, events).next.gesture.isDrawing
    ensures Run(surface, s, events).next.recording.recorder.None?
    ensures Run(surface, s, events).next.recording.recordedChunks == s.recording.recordedChunks
  {
    if |events| > 0 {
      RunNoContextStep(surface, s, events[0]);
      NoContextDrawsNothing(surface, Step(surface, s, events[0]).next, events[1..]);
    }
  }

  lemma RunNoContextStep(surface: Gesture.Surface, s: State, e: Event)
    requires !surface.hasContext && !s.gesture.isDrawing && s.recording.recorder.None?
    ensures Step(surface, s, e).emitted == []
    ensures !Step(surface, s, e).next.gesture.isDrawing
    ensures Step(surface, s, e).next.recording.recorder.None?
    ensures Step(surface, s, e).next.recording.recordedChunks == s.recording.recordedChunks
  {
  }

  /** The recorder handler an event runs, if any; other events leave the recording state alone. */
  function RecorderStep(hasContext: bool, r: Recording.RecordingState, e: Event): Recording.RecordingState {
    match e
    case RecordClick => Recording.ToggleRecording(hasContext, r)
    case DataAvailable(size) => Recording.OnDataAvailable(r, size)
    case RecorderStopped => Recording.OnRecorderStop(r)
    case _ => r
  }

  /** The recording state after a run, computed from the recorder events alone. */
  function RecorderRun(hasContext: bool, r: Recording.RecordingState, events: seq<Event>): Recording.RecordingState
    decreases |events|
  {
    if |events| == 0 then r else RecorderRun(hasContext, RecorderStep(hasContext, r, events[0]), events[1..])
  }

  /** Pointer and clear events never influence the recording state, however they interleave. */
  lemma {:induction false} RunRecordingIsRecorderRun(surface: Gesture.Surface, s: State, events: seq<Event>)
    decreases |events|
    ensures Run(surface, s, events).next.recording == RecorderRun(surface.hasContext, s.recording, events)
  {
    if |events| > 0 {
      var first := Step(surface, s, events[0]);
      assert first.next.recording == RecorderStep(surface.hasContext, s.recording, events[0]);
      RunRecordingIsRecorderRun(surface, first.next, events[1..]);
    }
  }

  /** The events of one recording session, with a drag in the middle of it. */
  const SessionEvents: seq<Event> :=
    [RecordClick, DataAvailable(5), MouseDown(Gesture.Point(1, 1)),
     DataAvailable(0), MouseMove(Gesture.Point(4, 4)), RecordClick,
     DataAvailable(7), RecorderStopped]

  lemma SessionRecorderRun()
    ensures var r := RecorderRun(true, Recording.Initial, SessionEvents);
            !r.isRecording && r.recordedChunks == [5, 7]
  {
  }

  /**
   Record, receive chunks of sizes 5 and 0, draw, press stop, receive a chunk of
   size 7 still in flight, then the stop notification: the download holds
   exactly [5, 7].
   */
  lemma RecordingScenario(surface: Gesture.Surface)
    requires surface.hasContext
    ensures var r := Run(surface, Mounted(surface), SessionEvents);
            && !r.next.recording.isRecording
            && Recording.Download(r.next.recording) == Some(Recording.Artifact([5, 7], "video/webm", "whiteboard_recording.webm"))
  {
    RunRecordingIsRecorderRun(surface, Mounted(surface), SessionEvents);
    SessionRecorderRun();
  }

  /** Before the first session publishes anything, there is nothing to download. */
  lemma NothingBeforeFirstStop(surface: Gesture.Surface)
    requires surface.hasContext
    ensures var r := Run(surface, Mounted(surface), [RecordClick, DataAvailable(5)]);
            r.next.recording.isRecording && Recording.Download(r.next.recording) == None
  {
  }

  /** The freehand path calls, which only the unattached freehand handlers issue. */
  predicate IsFreehandCall(c: Command) {
    c.MoveTo? || c.LineTo? || c.Stroke?
  }

  /** No attached handler draws a freehand path: no run ever emits a path call. */
  lemma {:induction false} RunNeverDrawsFreehand(surface: Gesture.Surface, s: State, events: seq<Event>)
    decreases |events|
    ensures forall i :: 0 <= i < |Run(surface, s, events).emitted| ==>
              !IsFreehandCall(Run(surface, s, events).emitted[i])
  {
    if |events| > 0 {
      var first := Step(surface, s, events[0]);
      RunNeverDrawsFreehand(surface, first.next, events[1..]);
      assert forall i :: 0 <= i < |first.emitted| ==> !IsFreehandCall(first.emitted[i]);
    }
  }
}
