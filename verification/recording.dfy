/**
 The recording half of the whiteboard component: the `isRecording` toggle and
 the effect it drives, the current media recorder with the chunk list its
 `ondataavailable` handler fills, the `onstop` handler that publishes that
 list as `recordedChunks`, and the download guard.

 Encoder output is modelled only by chunk sizes, delivered one notification at
 a time in arrival order.
 */
module Recording {
  import opened Options

  /** The two recorder states the component ever reaches (`paused` is never used). */
  datatype RecorderState = Inactive | Recording

  /** One media recorder and the session-local `chunks` array its handlers close over. */
  datatype Recorder = Recorder(state: RecorderState, chunks: seq<nat>)

  /** `isRecording`, `mediaRecorderRef.current` and `recordedChunks`. */
  datatype RecordingState = RecordingState(
    isRecording: bool,
    recorder: Option<Recorder>,
    recordedChunks: seq<nat>)

  /** What the download writes: every published chunk, in order, as one webm file. */
  datatype Artifact = Artifact(chunks: seq<nat>, mimeType: string, fileName: string)

  const Initial: RecordingState := RecordingState(false, None, [])

  const MimeType: string := "video/webm"
  const FileName: string := "whiteboard_recording.webm"

  /** True when the current recorder exists and is in state `"recording"`. */
  predicate Live(s: RecordingState) {
    s.recorder.Some? && s.recorder.value.state == Recording
  }

  /** The chunks of `sizes` that the data handler keeps: the non-empty ones, in order. */
  function NonEmpty(sizes: seq<nat>): seq<nat>
    decreases |sizes|
  {
    if |sizes| == 0 then []
    else if sizes[0] > 0 then [sizes[0]] + NonEmpty(sizes[1..])
    else NonEmpty(sizes[1..])
  }

  /** Filtering distributes over concatenation, so arrival order is kept. */
  lemma {:induction false} NonEmptyAppend(a: seq<nat>, b: seq<nat>)
    decreases |a|
    ensures NonEmpty(a + b) == NonEmpty(a) + NonEmpty(b)
  {
    if |a| > 0 {
      assert (a + b)[1..] == a[1..] + b;
      NonEmptyAppend(a[1..], b);
    } else {
      assert a + b == b;
    }
  }

  /** Exactly the positive sizes survive, and nothing else appears. */
  lemma {:induction false} NonEmptyMembers(sizes: seq<nat>)
    decreases |sizes|
    ensures forall c :: c in NonEmpty(sizes) <==> c in sizes && c > 0
    ensures |NonEmpty(sizes)| <= |sizes|
  {
    if |sizes| > 0 {
      NonEmptyMembers(sizes[1..]);
      assert sizes == [sizes[0]] + sizes[1..];
    }
  }

  /**
   `startRecording`: with a canvas and a context, replace the current recorder
   by a fresh one that is recording into an empty chunk list.
   */
  function StartRecording(hasContext: bool, s: RecordingState): (r: RecordingState)
    ensures hasContext ==> Live(r) && r.recorder.value.chunks == []
    ensures r.isRecording == s.isRecording && r.recordedChunks == s.recordedChunks
    ensures !hasContext ==> r == s
  {
    if hasContext then s.(recorder := Some(Recorder(Recording, []))) else s
  }

  /** `stopRecording`: stop the recorder only if it exists and is recording. */
  function StopRecording(s: RecordingState): (r: RecordingState)
    ensures !Live(r)
    ensures Live(s) ==> r.recorder == Some(s.recorder.value.(state := Inactive))
    ensures !Live(s) ==> r == s
    ensures r.isRecording == s.isRecording && r.recordedChunks == s.recordedChunks
  {
    if Live(s) then s.(recorder := Some(s.recorder.value.(state := Inactive))) else s
  }

  /** The effect that runs on mount and whenever `isRecording` changes. */
  function RecordingEffect(hasContext: bool, s: RecordingState): RecordingState {
    if s.isRecording then StartRecording(hasContext, s) else StopRecording(s)
  }

  /** The record button: flip `isRecording`, then run the effect for the new value. */
  function ToggleRecording(hasContext: bool, s: RecordingState): (r: RecordingState)
    ensures r.isRecording == !s.isRecording
    ensures r.recordedChunks == s.recordedChunks
    ensures r.isRecording && hasContext ==> Live(r) && r.recorder.value.chunks == []
    ensures !r.isRecording ==> !Live(r)
    ensures !r.isRecording ==>
              && r.recorder.Some? == s.recorder.Some?
              && (r.recorder.Some? ==> r.recorder.value.chunks == s.recorder.value.chunks)
    ensures r.isRecording && !hasContext ==> r.recorder == s.recorder
  {
    RecordingEffect(hasContext, s.(isRecording := !s.isRecording))
  }

  /** `ondataavailable` of the current recorder: keep the chunk only if it is non-empty. */
  function OnDataAvailable(s: RecordingState, size: nat): (r: RecordingState)
    ensures r.isRecording == s.isRecording && r.recordedChunks == s.recordedChunks
    ensures r.recorder.Some? == s.recorder.Some?
    ensures r.recorder.Some? ==> r.recorder.value.state == s.recorder.value.state
    ensures r.recorder.Some? ==>
              r.recorder.value.chunks == s.recorder.value.chunks + (if size > 0 then [size] else [])
    ensures s.recorder.None? ==> r == s
  {
    match s.recorder
    case None => s
    case Some(rec) =>
      if size > 0 then s.(recorder := Some(rec.(chunks := rec.chunks + [size]))) else s
  }

  /**
   `onstop` of the current recorder: publish that session's chunks, replacing
   earlier ones. A recorder fires `stop` once it is inactive, whether
   `stopRecording` asked it to stop or it stopped on its own (an encoder error,
   the captured track ending); either way it is inactive afterwards.
   */
  function OnRecorderStop(s: RecordingState): (r: RecordingState)
    ensures s.recorder.Some? ==> r.recordedChunks == s.recorder.value.chunks
    ensures s.recorder.None? ==> r.recordedChunks == s.recordedChunks
    ensures r.isRecording == s.isRecording
    ensures r.recorder.Some? == s.recorder.Some?
    ensures r.recorder.Some? ==> r.recorder.value == s.recorder.value.(state := Inactive)
    ensures !Live(r)
  {
    match s.recorder
    case None => s
    case Some(rec) => s.(recorder := Some(rec.(state := Inactive)), recordedChunks := rec.chunks)
  }

  /** Delivers a sequence of data notifications, in order, to the current recorder. */
  function Deliver(s: RecordingState, sizes: seq<nat>): RecordingState
    decreases |sizes|
  {
    if |sizes| == 0 then s else Deliver(OnDataAvailable(s, sizes[0]), sizes[1..])
  }

  /**
   Over any run of notifications the recorder appends exactly the non-empty
   chunks, in arrival order, and nothing else about the state changes.
   */
  lemma {:induction false} DeliverAppendsNonEmpty(s: RecordingState, sizes: seq<nat>)
    requires s.recorder.Some?
    decreases |sizes|
    ensures var r := Deliver(s, sizes);
            && r.isRecording == s.isRecording
            && r.recordedChunks == s.recordedChunks
            && r.recorder.Some?
            && r.recorder.value.state == s.recorder.value.state
            && r.recorder.value.chunks == s.recorder.value.chunks + NonEmpty(sizes)
  {
    if |sizes| > 0 {
      var s1 := OnDataAvailable(s, sizes[0]);
      DeliverAppendsNonEmpty(s1, sizes[1..]);
      assert sizes == [sizes[0]] + sizes[1..];
      NonEmptyAppend([sizes[0]], sizes[1..]);
    }
  }

  /** Without a recorder, notifications have no handler and change nothing. */
  lemma {:induction false} DeliverWithoutRecorder(s: RecordingState, sizes: seq<nat>)
    requires s.recorder.None?
    decreases |sizes|
    ensures Deliver(s, sizes) == s
  {
    if |sizes| > 0 {
      DeliverWithoutRecorder(OnDataAvailable(s, sizes[0]), sizes[1..]);
    }
  }

  /** `downloadRecording`: an artifact only when some chunk has been published. */
  function Download(s: RecordingState): (r: Option<Artifact>)
    ensures r.Some? <==> |s.recordedChunks| > 0
    ensures r.Some? ==> r.value.chunks == s.recordedChunks
    ensures r.Some? ==> r.value.mimeType == "video/webm" && r.value.fileName == "whiteboard_recording.webm"
  {
    if |s.recordedChunks| > 0 then Some(Artifact(s.recordedChunks, MimeType, FileName)) else None
  }

  /** The `disabled` attribute of the download button. */
  predicate DownloadDisabled(s: RecordingState) {
    |s.recordedChunks| == 0
  }

  /** The button is disabled exactly when clicking it would produce nothing. */
  lemma DownloadEnabledIffArtifact(s: RecordingState)
    ensures !DownloadDisabled(s) <==> Download(s).Some?
  {
  }

  /**
   The relation between the toggle and the recorder that every handler keeps:
   when the flag is off no recorder is recording; with a context, a set flag
   means a recorder exists (it may have stopped on its own); without a context
   no recorder is ever created.
   */
  predicate Consistent(hasContext: bool, s: RecordingState) {
    && (!s.isRecording ==> !Live(s))
    && (hasContext && s.isRecording ==> s.recorder.Some?)
    && (!hasContext ==> s.recorder.None?)
  }

  /** On mount the effect runs with `isRecording` false and no recorder: it does nothing. */
  lemma MountEffectIsNoOp(hasContext: bool)
    ensures RecordingEffect(hasContext, Initial) == Initial
    ensures Consistent(hasContext, Initial)
  {
  }

  /** Every handler keeps the toggle and the recorder in step. */
  lemma HandlersPreserveConsistent(hasContext: bool, s: RecordingState, size: nat)
    requires Consistent(hasContext, s)
    ensures Consistent(hasContext, ToggleRecording(hasContext, s))
    ensures Consistent(hasContext, OnDataAvailable(s, size))
    ensures Consistent(hasContext, OnRecorderStop(s))
  {
  }

  /**
   One recording session: from a stopped state, press record, receive `during`,
   press stop, receive `inFlight` (chunks still pending when stop was requested),
   then the stop notification. The published chunks are exactly the non-empty
   chunks of that session in arrival order, whatever was published before.
   */
  lemma {:induction false} SessionPublishesItsChunks(s: RecordingState, during: seq<nat>, inFlight: seq<nat>)
    requires !s.isRecording
    ensures var started := ToggleRecording(true, s);
            var stopped := ToggleRecording(true, Deliver(started, during));
            var published := OnRecorderStop(Deliver(stopped, inFlight));
            && !published.isRecording
            && !Live(published)
            && published.recordedChunks == NonEmpty(during + inFlight)
            && (Download(published).Some? <==> exists i :: 0 <= i < |during + inFlight| && (during + inFlight)[i] > 0)
  {
    var started := ToggleRecording(true, s);
    DeliverAppendsNonEmpty(started, during);
    var mid := Deliver(started, during);
    var stopped := ToggleRecording(true, mid);
    DeliverAppendsNonEmpty(stopped, inFlight);
    NonEmptyAppend(during, inFlight);
    var published := OnRecorderStop(Deliver(stopped, inFlight));
    var all := during + inFlight;
    NonEmptyMembers(all);
    if exists i :: 0 <= i < |all| && all[i] > 0 {
      var i :| 0 <= i < |all| && all[i] > 0;
      assert all[i] in NonEmpty(all);
    }
    if |NonEmpty(all)| > 0 {
      assert NonEmpty(all)[0] in all;
    }
  }

  /** Starting and immediately stopping with no chunks leaves nothing to download. */
  lemma EmptySessionHasNoArtifact(s: RecordingState)
    requires !s.isRecording
    ensures var published := OnRecorderStop(ToggleRecording(true, ToggleRecording(true, s)));
            !published.isRecording && Download(published) == None
  {
  }

  /**
   A recorder that stops on its own publishes its chunks but leaves the flag
   set: the next click only clears the flag (there is nothing left to stop),
   and the click after that starts a fresh session.
   */
  lemma SelfStopLeavesFlagSet(s: RecordingState)
    requires s.isRecording && Live(s)
    ensures var stopped := OnRecorderStop(s);
            && stopped.isRecording && !Live(stopped)
            && stopped.recordedChunks == s.recorder.value.chunks
            && ToggleRecording(true, stopped) == stopped.(isRecording := false)
            && Live(ToggleRecording(true, ToggleRecording(true, stopped)))
  {
  }
}
