# Whiteboard controller model

A Dafny model of the event-driven controller in `components/whiteboard.tsx`,
a React canvas whiteboard. The model covers the two pieces that hold real state.

- **The rectangle gesture.** Mouse down anchors a rectangle at the pointer. Each
  mouse move clears an "erase box" computed from the previous width and height
  and the pointer's quadrant relative to the start point. It then updates the
  size and strokes the new rectangle. Mouse up and mouse leave end the gesture.
  The state is the module-level globals `startX`, `startY`, `widthRect`,
  `heightRect`, `maxWidth` and `maxHeight`, plus the component's `isDrawing` flag.
- **The recording machine.** The record button flips `isRecording`, and an
  effect then starts or stops the media recorder. The recorder's data handler
  collects the non-empty chunks of one session. Its stop handler publishes that
  list as `recordedChunks`, replacing earlier ones. The download button is
  guarded on that list being non-empty.

Canvas calls are an emitted command log (`Canvas.Command`). Whether a 2D
context was acquired, and the `width`/`height` props, are a `Gesture.Surface`
parameter. Encoder output is a sequence of chunk sizes, delivered one
notification at a time.

Modules:
- `Options` holds a small option type.
- `Canvas` holds the command log and the geometry of the rectangles a call addresses.
- `Gesture` holds the rectangle handlers, the erase-box analysis and the unwired freehand handlers.
- `Recording` holds the recorder, the chunk accumulator and the download guard.
- `Whiteboard` dispatches events and holds the properties of whole runs.

Canvas rectangles with a negative width or height are normalised, as the
HTML canvas standard prescribes for `clearRect` and `strokeRect`. Strokes use
line width 2, so a stroked rectangle may paint up to one pixel outside its
outline (`Canvas.Footprint`). The standard also makes a `clearRect` with zero
width or height a no-op. `Canvas.BoxOf` still gives such a call a
one-coordinate span. No proved containment depends on this: every erase box
that covers the previous stroke has sizes of at least 2, and the clear-canvas
claim assumes a canvas of positive size.

## Model

| member | source | states |
|---|---|---|
| Gesture.Press | components/whiteboard.tsx:106-123 | With a context, the press sets the start point to the pointer, the size to 0 and `isDrawing` to true, and leaves the max globals alone. It only begins a path. Without a context, nothing changes and nothing is drawn. |
| Gesture.BranchOf | components/whiteboard.tsx:129-157 | The erase branch is chosen by strict comparison of the pointer against the start, each branch exactly under its condition. Equality on either axis falls through to the last branch. |
| Gesture.EraseBoxPerAxis | components/whiteboard.tsx:129-157 | The four branches amount to an independent choice per axis. The x axis shifts inward (+1, −2) exactly when the pointer is left of the start and not level with it, and likewise for y. Every branch is built from the previous width and height. |
| Gesture.EraseCoversPreviousIff | components/whiteboard.tsx:129-157 | The erase box contains every pixel the previous stroke may have painted if and only if each axis choice suits the sign of the previous size. In that case it equals the previous stroked box grown by one pixel on each side. |
| Gesture.FallbackErasesGrownBox | components/whiteboard.tsx:150-156 | In the fall-through branch with previous w, h ≥ 0, the erase box is [startX−1, startX+w+1] × [startY−1, startY+h+1]. That is the previous box grown by one pixel. |
| Gesture.UpLeftErasesGrownBox | components/whiteboard.tsx:129-135 | In the up-left branch with previous w, h ≤ 0, the normalised erase box is [startX+w−1, startX+1] × [startY+h−1, startY+1]. That is the previous box grown by one pixel. |
| Gesture.CrossingMoveLeavesOutline | components/whiteboard.tsx:129-135 | As written, after a press at (10,10) and a move to (20,20), a move to (5,5) clears only [11,19]². The previous outline spans [9,21]², so it is not erased. |
| Gesture.LevelCrossingMoveErasesOutline | components/whiteboard.tsx:150-156 | After the same press and move, a move to (5,10) crosses x = 10 but is level with the start on y. It takes the last branch, which covers the whole previous outline. |
| Gesture.LevelMoveAfterNegativeSizeLeavesOutline | components/whiteboard.tsx:150-156 | After a press at (10,10) and a move to (20,0), a move to (20,10) is level with the start on y. The last branch clears y in [1,9], while the outline of negative height spans y in [−1,11], so it is not erased. |
| Gesture.Move | components/whiteboard.tsx:125-179 | When not drawing, or without a context, a move changes nothing and draws nothing. Otherwise the start point is kept and the size becomes pointer minus start. The max globals become the larger of old and prop. The move emits exactly the erase box (whose size is the previous size ±2) and then `StrokeRect(startX, startY, widthRect, heightRect)` of the new state. |
| Gesture.Release | components/whiteboard.tsx:181-184 | The release clears `isDrawing` whether or not there is a context. It keeps the start, size and max globals, and closes the path only when a context exists. |
| Gesture.MoveIdempotent | components/whiteboard.tsx:159-176 | Moving twice to the same point gives the same state as moving once, and strokes the same rectangle. |
| Gesture.MoveAfterReleaseIsInert | components/whiteboard.tsx:125-126 | After a release, a move leaves every gesture global unchanged and emits no canvas call. |
| Gesture.PressThenMoveStrokesSpan | components/whiteboard.tsx:159-176 | A press at p followed by a move to c strokes the rectangle with opposite corners p and c. The region it addresses is [min, max] on each axis, and it is the same if the press was at c and the move to p. |
| Gesture.DragTracksPointer | components/whiteboard.tsx:159-160 | Over any sequence of moves, the start point never changes and the size ends as the last pointer minus the start. `isDrawing` stays set, and each move issues exactly two calls. |
| Gesture.DragCalls | components/whiteboard.tsx:125-176 | In a drag, move i strokes the rectangle from the start to point i. Its erase box is computed from the size that move i−1 left behind, or from the state's own size for the first move. |
| Gesture.CorrectedEraseBox | components/whiteboard.tsx:129-157 | Corrected erase: choosing each axis by the sign of the previous size yields exactly the previous stroke's footprint, for every previous size. |
| Gesture.CorrectedMove | components/whiteboard.tsx:125-179 | The move with the corrected erase produces the same next state and the same stroke as `Move`. Its erase box always contains the previous stroke's footprint. |
| Gesture.CorrectedMoveErasesPreviousStroke | components/whiteboard.tsx:125-179 | With the corrected erase, a move clears everything the previous move stroked, wherever the pointer goes. |
| Gesture.StartFreehand | components/whiteboard.tsx:91-97 | With a context, the unwired freehand press begins a path at the pointer and sets `isDrawing`. Without one, nothing happens. |
| Gesture.FreehandMove | components/whiteboard.tsx:99-104 | The unwired freehand move extends the path to the pointer and strokes, only while drawing with a context. It never changes state. |
| Gesture.FreehandDragCalls | components/whiteboard.tsx:99-104 | Over any sequence of freehand moves while drawing with a context, point i emits `lineTo(pᵢ)` then `stroke`, in order. The rectangle globals and the flag are unchanged. Otherwise nothing is drawn. |
| Gesture.FreehandGesture | components/whiteboard.tsx:91-104 | A freehand press then drag begins the path at the press point, extends it to the first drag point first and ends with a stroke. Of the state, only `isDrawing` changes. |
| Recording.StartRecording | components/whiteboard.tsx:47-66 | With a canvas and context, the current recorder is replaced by a fresh one that is recording into an empty chunk list. Without them, nothing changes. The flag and the published chunks are untouched. |
| Recording.StopRecording | components/whiteboard.tsx:68-75 | The recorder is stopped only if it exists and is in state "recording". Otherwise, including when there is no recorder, nothing changes. Afterwards no recorder is recording. |
| Recording.ToggleRecording | components/whiteboard.tsx:39-45 | The record button flips `isRecording`, and the effect for the new value runs. When switched on with a context, a recorder is recording an empty session. When switched on without one, the recorder is left as it was. When switched off, none is recording, but the same recorder survives with its session chunks, so in-flight chunks still join that session. Published chunks are kept. |
| Recording.OnDataAvailable | components/whiteboard.tsx:54-58 | A chunk of size > 0 is appended to the current session's list. An empty chunk is dropped. With no recorder there is no handler. Nothing else changes. |
| Recording.OnRecorderStop | components/whiteboard.tsx:60-62 | On stop, `recordedChunks` becomes exactly the session's list, replacing rather than extending earlier ones. The notification means the recorder is inactive, whether it was asked to stop or stopped on its own. `isRecording` is not touched. |
| Recording.SelfStopLeavesFlagSet | components/whiteboard.tsx:39-75 | A recorder that stops on its own publishes its chunks but leaves `isRecording` set. The next click only clears the flag, because `stopRecording` finds nothing recording. The click after that starts a fresh session. |
| Recording.NonEmptyAppend | components/whiteboard.tsx:54-58 | Filtering out empty chunks distributes over concatenation. So arrival order is preserved across any split of the notifications. |
| Recording.NonEmptyMembers | components/whiteboard.tsx:55-57 | A size survives filtering if and only if it arrived and is positive. |
| Recording.DeliverAppendsNonEmpty | components/whiteboard.tsx:52-58 | Over any sequence of notifications, the session list grows by exactly the non-empty chunks in arrival order. The flag, recorder state and published chunks are unchanged. |
| Recording.DeliverWithoutRecorder | components/whiteboard.tsx:47-58 | With no recorder, data notifications change nothing. |
| Recording.Download | components/whiteboard.tsx:77-89 | A download happens if and only if `recordedChunks` is non-empty. It holds exactly those chunks, as `video/webm` named `whiteboard_recording.webm`. |
| Recording.DownloadEnabledIffArtifact | components/whiteboard.tsx:213-217 | The download button is enabled exactly when a download would produce an artifact. |
| Recording.MountEffectIsNoOp | components/whiteboard.tsx:39-45 | On mount, the effect runs with `isRecording` false and no recorder, and changes nothing. The initial state is consistent. |
| Recording.HandlersPreserveConsistent | components/whiteboard.tsx:39-75 | With the flag off, no recorder is recording. With a context and the flag on, a recorder exists. Without a context, no recorder exists. The toggle, data and stop handlers each preserve this, including a stop the recorder makes on its own. |
| Recording.SessionPublishesItsChunks | components/whiteboard.tsx:47-66 | Start, data, stop, in-flight data, then the stop notification: the published chunks are exactly the session's non-empty chunks in order, whatever was published before. A download exists if and only if some chunk was non-empty. |
| Recording.EmptySessionHasNoArtifact | components/whiteboard.tsx:60-62 | Starting and stopping with no chunks leaves recording off and nothing to download, even after an earlier session. |
| Whiteboard.Mounted | components/whiteboard.tsx:9-45 | After module load and the mount effects, every gesture global is 0, `isDrawing` is false, recording is off, there is no recorder and there are no chunks. |
| Whiteboard.Clear | components/whiteboard.tsx:186-190 | The clear button emits `clearRect(0, 0, width, height)` only with a context, and changes no gesture or recording state. |
| Whiteboard.ClearCoversCanvas | components/whiteboard.tsx:186-190 | The clear command addresses every pixel of the canvas. |
| Whiteboard.Step | components/whiteboard.tsx:194-216 | Pointer events never touch recording state. Other events never touch gesture state. Recorder events emit no canvas call. Clear changes no state. |
| Whiteboard.LeaveIsRelease | components/whiteboard.tsx:199-202 | Mouse leave and mouse up run the same handler and end the gesture. |
| Whiteboard.RunNeverShrinksMax | components/whiteboard.tsx:162-169 | Over any event sequence, `maxWidth` and `maxHeight` never decrease. |
| Whiteboard.RunPreservesConsistent | components/whiteboard.tsx:39-75 | The toggle/recorder consistency holds after any event sequence that starts consistent. This includes sequences in which the recorder stops on its own. |
| Whiteboard.RunNeverDrawsFreehand | components/whiteboard.tsx:199-202 | No event sequence emits a freehand path call (`moveTo`, `lineTo`, `stroke`), because no attached handler issues one. |
| Whiteboard.IdleMovesAreInert | components/whiteboard.tsx:125-126 | With no gesture in progress, any number of mouse moves change nothing and draw nothing. |
| Whiteboard.NoContextDrawsNothing | components/whiteboard.tsx:26-37 | Without a 2D context, no event sequence draws anything or sets `isDrawing`. No recorder is ever created, and the published chunks never change. |
| Whiteboard.RunNoContextStep | components/whiteboard.tsx:106-190 | The single-event case of the above: without a context, each handler draws nothing and creates no recorder. |
| Whiteboard.RunRecordingIsRecorderRun | components/whiteboard.tsx:39-75 | The recording state after any run depends only on the recorder events, however pointer and clear events interleave. |
| Whiteboard.SessionRecorderRun | components/whiteboard.tsx:52-62 | For chunks 5, 0, (stop), 7, then the stop notification: recording is off and the published chunks are [5, 7]. |
| Whiteboard.RecordingScenario | components/whiteboard.tsx:47-89 | The same session with a drag interleaved, starting from mount, makes the download hold exactly [5, 7]. |
| Whiteboard.NothingBeforeFirstStop | components/whiteboard.tsx:77-78 | While the first session is still recording, nothing has been published and there is nothing to download. |

## Findings

| source | as written | input that shows it | evidently intended | confidence | as-written member | corrected member |
|---|---|---|---|---|---|---|
| components/whiteboard.tsx:129-157 | The erase branch is chosen by the current pointer's quadrant, but the box is sized from the previous width and height. | Press at (10,10), move to (20,20), then move to (5,5). The up-left branch clears [11,19]², while the previous outline spans [9,21]². | The erase box should cover the previous rectangle's footprint, choosing each axis by the sign of the previous size. | medium, not executed | Gesture.CrossingMoveLeavesOutline | Gesture.CorrectedEraseBox |

`Gesture.EraseCoversPreviousIff` characterises the as-written erase exactly, one axis at a time. The x axis is erased inward exactly when the pointer is strictly left of the start and not level with it on y. An inward choice covers the old outline only if the previous width was ≤ 0, and an outward choice only if it was ≥ 0. The y axis works the same way. So a move into another quadrant leaves the outline behind whenever the previous size was non-zero on an axis it crossed (`Gesture.CrossingMoveLeavesOutline`). A move level with the start leaves it whenever either previous size was negative (`Gesture.LevelMoveAfterNegativeSizeLeavesOutline`). A move that crosses one axis but lands level on the other still covers it when both previous sizes were ≥ 0 (`Gesture.LevelCrossingMoveErasesOutline`).

The corrected erase is used by `Gesture.CorrectedMove`. That move equals `Gesture.Move` in state and stroke, and `Gesture.CorrectedMoveErasesPreviousStroke` proves it always clears the previous stroke. The event machine `Whiteboard.Step` keeps the as-written move. That way, its other properties describe the component as shipped.

## Left out

- Pixels. The Canvas 2D calls are opaque commands; only the rectangle geometry they address is modelled. The setup at mount (`lineCap`, `strokeStyle`, `lineWidth`) and the `fillStyle` assignment in the move handler are not modelled. Only the line width enters, as `Canvas.LineWidth`.
- Media. `canvas.captureStream`, `MediaRecorder`, `Blob`, `URL.createObjectURL`, `revokeObjectURL` and the hidden anchor click are browser I/O. A chunk is its size, and `Recording.Download` returns the artifact's contents, type and file name instead of saving a file.
- Recorder notifications from a replaced recorder. Events always reach the current recorder. A stop notification that arrives only after a new session has started is therefore not modelled. The recorder's `paused` state is never used by the component.
- Recording.OnRecorderStop: publishes a copy of the session's list, while the component publishes the session's array itself, which its data handler still holds. The two differ only if data arrives after the stop notification. A media recorder never delivers data after `stop`, but the model's event set allows it; there a late chunk reaches the recorder's list and not `recordedChunks`.
- React timing. Each event is processed to completion, and the next event sees the state it left. Re-renders, effect scheduling, JSX and `console.log` are not modelled.
- Pointer coordinates are integers. The browser's `offsetX`/`offsetY` may be fractional; the arithmetic is the same, but fractions are not modelled.
- The rectangle globals live at module level and are shared by every mounted whiteboard. The model has a single instance.
- The canvas is never resized. `app/page.tsx` mounts the component at 800×600. Here width, height and context presence are the parameter `Gesture.Surface`.
- The freehand handlers (`Gesture.StartFreehand`, `Gesture.FreehandMove`) are modelled but not attached to any event, because the component does not attach them either.
- The component has no undo history, circle shapes, separate preview buffer, coordinate clamping or capture-failure report. Without a context, starting a recording silently leaves `isRecording` true with no recorder (`Whiteboard.NoContextDrawsNothing`). The erase-and-redraw preview clears whatever lies under the previous rectangle, including earlier drawings. Mouse leave ends the gesture exactly like mouse up, and the last stroked rectangle stays on the canvas.
