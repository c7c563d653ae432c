/**
  The per-frame decision logic of `operationRecording` as a pure state
  machine. One `Step` is one turn of the `while` loop: the writer's readiness
  is tested, a sample is pulled (or the reader is exhausted), the detector's
  verdict updates the `Recording` struct as `processObservations` does, the
  frame is appended if a session is open, and the pass is finished when a
  terminal condition holds. Finishing the writer and starting the next pass
  on the same reader output are folded into the same step.
 */
module RecordingLoop {
  import opened Optional
  import opened Trigger

  /** `debounceTimeConstant`: seconds a session survives without a detection; also each pass's initial deadline. */
  const DebounceTimeConstant: real := 5.0

  /** A session ends once a frame is more than this many seconds after its first frame. */
  const MaxSegmentAge: real := 10.0

  /** The `Recording` struct. */
  datatype Recording = Recording(
    personPrediction: Option<Observation>,
    startRecording: bool,
    firstTimeStamp: Option<real>,
    readDone: bool)

  const InitialRecording: Recording := Recording(None, false, None, false)

  /**
    What the detector saw of a frame. `NoImageBuffer`: the sample carries no
    image buffer, so `predict` does nothing, no image can be made from it and
    there is no raw buffer to append either. `Skipped`: there is a buffer
    but `processObservations` never ran (the Vision request threw).
    Otherwise the request's results, `None` when they were not object
    observations.
   */
  datatype Inference = NoImageBuffer | Skipped | Finished(results: Option<seq<Observation>>)

  /**
    How converting an annotated frame went: `ImageFailed` when the sample
    could not be turned into an image (the raw buffer is written instead),
    `PixelBufferFailed` when the annotated image could not be turned back
    into a pixel buffer (nothing is written).
   */
  datatype Conversion = Converted | ImageFailed | PixelBufferFailed

  /** One sample pulled from the reader, with the outcomes of the calls made on it. */
  datatype Sample = Sample(time: real, inference: Inference, conversion: Conversion, appendOk: bool)

  /**
    One turn of the loop: a sample was pulled; the reader was exhausted
    (`copyNextSampleBuffer` returned nil); or the writer input was not ready,
    which ends the loop before anything is pulled.
   */
  datatype Event = Pulled(sample: Sample) | EndOfStream | NotReady

  /** `Running` while the loop turns; `Stalled` after the readiness test failed; `Exhausted` after the last pass finished. */
  datatype Status = Running | Stalled | Exhausted

  /** A finished output file: the time its session was anchored at and the times of the frames it accepted. */
  datatype Segment = Segment(start: Option<real>, frames: seq<real>)

  /** The calls the loop makes on the writer. */
  datatype Action =
    | StartSession(at: real)
    | Append(time: real, annotation: Option<Observation>, accepted: bool)
    | Finalize(segment: Segment)
    | OpenWriter

  /**
    The loop's state: the `Recording` struct, the loop-local `debounceTime`,
    whether the loop still turns, and the frames the current writer accepted.
   */
  datatype Loop = Loop(recording: Recording, debounceTime: real, status: Status, written: seq<real>)

  datatype Transition = Transition(next: Loop, actions: seq<Action>)

  /** The first pass, as `loadVideoFile` starts it. */
  const Start: Loop := Loop(InitialRecording, DebounceTimeConstant, Running, [])

  /**
    `processObservations`: a qualifying detection opens (or keeps open) the
    session and becomes the prediction; any other verdict clears the
    prediction but never closes the session.
   */
  function ProcessObservations(rec: Recording, inference: Inference): (r: Recording)
    ensures r.firstTimeStamp == rec.firstTimeStamp && r.readDone == rec.readDone
    ensures rec.startRecording ==> r.startRecording
    ensures !inference.Finished? ==> r == rec
    ensures inference.Finished? ==> r.personPrediction == Select(inference.results)
    ensures inference.Finished? && Detected(inference.results) ==>
      r.startRecording && r.personPrediction.Some? &&
      Qualifies(r.personPrediction.value) && r.personPrediction.value in inference.results.value
    ensures inference.Finished? && !Detected(inference.results) ==>
      r.personPrediction.None? && r.startRecording == rec.startRecording
  {
    match inference
    case NoImageBuffer => rec
    case Skipped => rec
    case Finished(results) =>
      match Select(results)
      case Some(prediction) => rec.(startRecording := true, personPrediction := Some(prediction))
      case None => rec.(personPrediction := None)
  }

  /**
    The writer is finished (`markAsFinished` and `finishWriting`), the
    session fields are cleared, and a fresh pass with the initial deadline
    starts unless the reader is exhausted.
   */
  function Finish(l: Loop): Transition {
    var segment := Segment(l.recording.firstTimeStamp, l.written);
    var rec := l.recording.(startRecording := false, firstTimeStamp := None);
    if rec.readDone then Transition(Loop(rec, l.debounceTime, Exhausted, []), [Finalize(segment)])
    else Transition(Loop(rec, DebounceTimeConstant, Running, []), [Finalize(segment), OpenWriter])
  }

  /** The session's anchor: its first time stamp, or this frame's time when the frame opens it. */
  function Anchor(rec: Recording, s: Sample): real {
    if rec.firstTimeStamp.Some? then rec.firstTimeStamp.value else s.time
  }

  /** The frame is drawn on: there is a prediction and the sample became an image. */
  predicate Annotates(rec: Recording, s: Sample) {
    rec.personPrediction.Some? && !s.inference.NoImageBuffer? && s.conversion != ImageFailed
  }

  /**
    A buffer to append exists: the annotated one if the frame is drawn on and
    it could be made, otherwise the sample's raw image buffer, if it has one.
   */
  predicate HasBuffer(rec: Recording, s: Sample) {
    if Annotates(rec, s) then s.conversion == Converted else !s.inference.NoImageBuffer?
  }

  /** `debounceTime` after the frame. */
  function Deadline(l: Loop, rec: Recording, s: Sample): real {
    if Annotates(rec, s) then s.time + DebounceTimeConstant else l.debounceTime
  }

  /** The calls a recorded frame makes before the terminal check. */
  function FrameCalls(rec: Recording, s: Sample): seq<Action> {
    var session := if rec.firstTimeStamp.Some? then [] else [StartSession(s.time)];
    var annotation := if Annotates(rec, s) then rec.personPrediction else None;
    var append := if HasBuffer(rec, s) then [Append(s.time, annotation, s.appendOk)] else [];
    session + append
  }

  /** The loop's state after a recorded frame, before the terminal check. */
  function Recorded(l: Loop, rec: Recording, s: Sample): Loop {
    var written := if HasBuffer(rec, s) && s.appendOk then l.written + [s.time] else l.written;
    Loop(rec.(firstTimeStamp := Some(Anchor(rec, s))), Deadline(l, rec, s), Running, written)
  }

  /** The `finish` flag after a recorded frame. */
  predicate EndsPass(l: Loop, rec: Recording, s: Sample) {
    || (HasBuffer(rec, s) && !s.appendOk)
    || s.time - Anchor(rec, s) > MaxSegmentAge
    || s.time > Deadline(l, rec, s)
  }

  /** The body of the loop for a pulled sample. */
  function RecordFrame(l: Loop, s: Sample): Transition {
    var rec := ProcessObservations(l.recording, s.inference);
    if !rec.startRecording then Transition(l.(recording := rec), [])
    else if EndsPass(l, rec, s) then
      var f := Finish(Recorded(l, rec, s));
      Transition(f.next, FrameCalls(rec, s) + f.actions)
    else Transition(Recorded(l, rec, s), FrameCalls(rec, s))
  }

  /** One turn of the loop; once the loop has stopped, nothing more happens. */
  function Step(l: Loop, e: Event): Transition {
    if l.status != Running then Transition(l, [])
    else match e
      case NotReady => Transition(l.(status := Stalled), [])
      case EndOfStream => Finish(l.(recording := l.recording.(readDone := true)))
      case Pulled(s) => RecordFrame(l, s)
  }

  // ---------------------------------------------------------------------
  // Observers

  /** The segments the writer calls hand over, in order. */
  function Segments(actions: seq<Action>): seq<Segment> {
    if |actions| == 0 then []
    else (if actions[0].Finalize? then [actions[0].segment] else []) + Segments(actions[1..])
  }

  /** The times of the frames handed to `append`, accepted or not, in order. */
  function AppendTimes(actions: seq<Action>): seq<real> {
    if |actions| == 0 then []
    else (if actions[0].Append? then [actions[0].time] else []) + AppendTimes(actions[1..])
  }

  /** The times of the frames the writer accepted, in order. */
  function AcceptedTimes(actions: seq<Action>): seq<real> {
    if |actions| == 0 then []
    else (if actions[0].Append? && actions[0].accepted then [actions[0].time] else []) + AcceptedTimes(actions[1..])
  }

  predicate Finalizes(actions: seq<Action>) {
    Segments(actions) != []
  }

  predicate SessionOpen(l: Loop) {
    l.recording.startRecording
  }

  lemma {:induction false} SegmentsDistribute(a: seq<Action>, b: seq<Action>)
    ensures Segments(a + b) == Segments(a) + Segments(b)
  {
    if |a| == 0 {
      assert a + b == b;
    } else {
      assert (a + b)[0] == a[0];
      assert (a + b)[1..] == a[1..] + b;
      var head := if a[0].Finalize? then [a[0].segment] else [];
      assert Segments(a + b) == head + Segments(a[1..] + b);
      SegmentsDistribute(a[1..], b);
      assert Segments(a) == head + Segments(a[1..]);
    }
  }

  lemma {:induction false} AppendTimesDistribute(a: seq<Action>, b: seq<Action>)
    ensures AppendTimes(a + b) == AppendTimes(a) + AppendTimes(b)
  {
    if |a| == 0 {
      assert a + b == b;
    } else {
      assert (a + b)[0] == a[0];
      assert (a + b)[1..] == a[1..] + b;
      var head := if a[0].Append? then [a[0].time] else [];
      assert AppendTimes(a + b) == head + AppendTimes(a[1..] + b);
      AppendTimesDistribute(a[1..], b);
      assert AppendTimes(a) == head + AppendTimes(a[1..]);
    }
  }

  lemma {:induction false} AcceptedTimesDistribute(a: seq<Action>, b: seq<Action>)
    ensures AcceptedTimes(a + b) == AcceptedTimes(a) + AcceptedTimes(b)
  {
    if |a| == 0 {
      assert a + b == b;
    } else {
      assert (a + b)[0] == a[0];
      assert (a + b)[1..] == a[1..] + b;
      var head := if a[0].Append? && a[0].accepted then [a[0].time] else [];
      assert AcceptedTimes(a + b) == head + AcceptedTimes(a[1..] + b);
      AcceptedTimesDistribute(a[1..], b);
      assert AcceptedTimes(a) == head + AcceptedTimes(a[1..]);
    }
  }

  /** The observers of a sequence of writer calls distribute over concatenation. */
  lemma ObserversDistribute(a: seq<Action>, b: seq<Action>)
    ensures Segments(a + b) == Segments(a) + Segments(b)
    ensures AppendTimes(a + b) == AppendTimes(a) + AppendTimes(b)
    ensures AcceptedTimes(a + b) == AcceptedTimes(a) + AcceptedTimes(b)
  {
    SegmentsDistribute(a, b);
    AppendTimesDistribute(a, b);
    AcceptedTimesDistribute(a, b);
  }

  lemma ObserversOfSingleton(x: Action)
    ensures Segments([x]) == if x.Finalize? then [x.segment] else []
    ensures AppendTimes([x]) == if x.Append? then [x.time] else []
    ensures AcceptedTimes([x]) == if x.Append? && x.accepted then [x.time] else []
  {
    assert [x][1..] == [];
  }

  /** What `Finish` hands over: one segment, holding the current writer's frames, and no frame. */
  lemma FinishObservers(l: Loop)
    ensures Segments(Finish(l).actions) == [Segment(l.recording.firstTimeStamp, l.written)]
    ensures AppendTimes(Finish(l).actions) == [] && AcceptedTimes(Finish(l).actions) == []
  {
    var seg := Segment(l.recording.firstTimeStamp, l.written);
    ObserversOfSingleton(Finalize(seg));
    ObserversOfSingleton(OpenWriter);
    ObserversDistribute([Finalize(seg)], [OpenWriter]);
    assert [Finalize(seg), OpenWriter] == [Finalize(seg)] + [OpenWriter];
  }

  /** The calls of a recorded frame: an optional `startSession`, an optional append, no finish. */
  lemma FrameCallsObservers(rec: Recording, s: Sample)
    ensures |FrameCalls(rec, s)| > 0 ==> (FrameCalls(rec, s)[0] == StartSession(s.time) <==> rec.firstTimeStamp.None?)
    ensures rec.firstTimeStamp.None? ==> |FrameCalls(rec, s)| > 0
    ensures forall a <- FrameCalls(rec, s) :: a.StartSession? ==> a.at == s.time && rec.firstTimeStamp.None?
    ensures forall a <- FrameCalls(rec, s) :: a.Append? ==>
      a.time == s.time && a.accepted == s.appendOk &&
      a.annotation == (if Annotates(rec, s) then rec.personPrediction else None)
    ensures AppendTimes(FrameCalls(rec, s)) == if HasBuffer(rec, s) then [s.time] else []
    ensures AcceptedTimes(FrameCalls(rec, s)) == if HasBuffer(rec, s) && s.appendOk then [s.time] else []
    ensures Segments(FrameCalls(rec, s)) == []
  {
    var annotation := if Annotates(rec, s) then rec.personPrediction else None;
    assert FrameCalls(rec, s) == Pieces(s.time, rec.firstTimeStamp.None?, HasBuffer(rec, s), annotation, s.appendOk);
    PiecesObservers(s.time, rec.firstTimeStamp.None?, HasBuffer(rec, s), annotation, s.appendOk);
  }

  /** An optional `startSession` at `t` followed by an optional append of the frame at `t`. */
  function Pieces(t: real, opens: bool, buffer: bool, annotation: Option<Observation>, ok: bool): seq<Action> {
    (if opens then [StartSession(t)] else []) + (if buffer then [Append(t, annotation, ok)] else [])
  }

  lemma PiecesObservers(t: real, opens: bool, buffer: bool, annotation: Option<Observation>, ok: bool)
    ensures AppendTimes(Pieces(t, opens, buffer, annotation, ok)) == if buffer then [t] else []
    ensures AcceptedTimes(Pieces(t, opens, buffer, annotation, ok)) == if buffer && ok then [t] else []
    ensures Segments(Pieces(t, opens, buffer, annotation, ok)) == []
  {
    var append := if buffer then [Append(t, annotation, ok)] else [];
    ObserversOfSingleton(StartSession(t));
    ObserversOfSingleton(Append(t, annotation, ok));
    if !opens {
      assert Pieces(t, opens, buffer, annotation, ok) == append;
    } else if buffer {
      ObserversDistribute([StartSession(t)], append);
    } else {
      assert Pieces(t, opens, buffer, annotation, ok) == [StartSession(t)];
    }
  }

  /** The outcome of a pulled sample while a session is open, in terms of the frame's pieces. */
  lemma RecordFrameOutcome(l: Loop, s: Sample)
    requires ProcessObservations(l.recording, s.inference).startRecording
    ensures
      var rec := ProcessObservations(l.recording, s.inference);
      var t := RecordFrame(l, s);
      && AppendTimes(t.actions) == AppendTimes(FrameCalls(rec, s))
      && AcceptedTimes(t.actions) == AcceptedTimes(FrameCalls(rec, s))
      && Segments(t.actions) == (if EndsPass(l, rec, s) then [Segment(Some(Anchor(rec, s)), Recorded(l, rec, s).written)] else [])
      && (forall a <- t.actions :: a.StartSession? || a.Append? ==> a in FrameCalls(rec, s))
      && (!EndsPass(l, rec, s) ==> t.next == Recorded(l, rec, s))
      && (EndsPass(l, rec, s) ==> t.next == Finish(Recorded(l, rec, s)).next)
  {
    var rec := ProcessObservations(l.recording, s.inference);
    FrameCallsObservers(rec, s);
    if EndsPass(l, rec, s) {
      FinishedFrame(l, rec, s);
    }
  }

  lemma FinishedFrame(l: Loop, rec: Recording, s: Sample)
    ensures
      var f := Finish(Recorded(l, rec, s));
      var calls := FrameCalls(rec, s) + f.actions;
      && AppendTimes(calls) == AppendTimes(FrameCalls(rec, s))
      && AcceptedTimes(calls) == AcceptedTimes(FrameCalls(rec, s))
      && Segments(calls) == Segments(FrameCalls(rec, s)) + [Segment(Some(Anchor(rec, s)), Recorded(l, rec, s).written)]
      && (forall a <- calls :: a.StartSession? || a.Append? ==> a in FrameCalls(rec, s))
  {
    var m := Recorded(l, rec, s);
    assert m.recording.firstTimeStamp == Some(Anchor(rec, s));
    FinishAfter(FrameCalls(rec, s), m);
  }

  /** Calls followed by a finish: the finish adds its one segment and no frame. */
  lemma FinishAfter(calls: seq<Action>, m: Loop)
    ensures
      var all := calls + Finish(m).actions;
      && AppendTimes(all) == AppendTimes(calls)
      && AcceptedTimes(all) == AcceptedTimes(calls)
      && Segments(all) == Segments(calls) + [Segment(m.recording.firstTimeStamp, m.written)]
      && (forall a <- all :: a.StartSession? || a.Append? ==> a in calls)
  {
    FinishObservers(m);
    ObserversDistribute(calls, Finish(m).actions);
  }

  /**
    The invariant between turns: a session is open exactly when its first
    time stamp is known, a writer holds frames only during a session, and
    the reader is marked done exactly when the loop has stopped for good.
   */
  predicate Inv(l: Loop) {
    && (l.recording.startRecording <==> l.recording.firstTimeStamp.Some?)
    && (l.recording.firstTimeStamp.None? ==> l.written == [])
    && (l.recording.readDone <==> l.status == Exhausted)
  }

  // ---------------------------------------------------------------------
  // Properties of one turn

  lemma StartSatisfiesInv()
    ensures Inv(Start) && Start.status == Running && !SessionOpen(Start)
  {
  }

  /** Every turn keeps the invariant. */
  lemma StepPreservesInv(l: Loop, e: Event)
    requires Inv(l)
    ensures Inv(Step(l, e).next)
  {
    if l.status == Running && e.Pulled? && ProcessObservations(l.recording, e.sample.inference).startRecording {
      RecordFrameOutcome(l, e.sample);
    }
  }

  /**
    While no session is open and the frame brings no qualifying detection,
    the frame is consumed and nothing is written or finished.
   */
  lemma IdleFrameIsConsumed(l: Loop, s: Sample)
    requires Inv(l) && l.status == Running && !SessionOpen(l)
    requires !(s.inference.Finished? && Detected(s.inference.results))
    ensures Step(l, Pulled(s)).actions == []
    ensures Step(l, Pulled(s)).next.status == Running
    ensures !SessionOpen(Step(l, Pulled(s)).next)
    ensures Step(l, Pulled(s)).next.written == l.written
    ensures Step(l, Pulled(s)).next.debounceTime == l.debounceTime
  {
  }

  /**
    A qualifying detection while no session is open opens one anchored at
    the frame's time: the first call on the writer is `startSession` with
    that time, and if the frame does not end the session at once its time
    becomes the first time stamp.
   */
  lemma DetectionOpensSession(l: Loop, s: Sample)
    requires Inv(l) && l.status == Running && !SessionOpen(l)
    requires s.inference.Finished? && Detected(s.inference.results)
    ensures |Step(l, Pulled(s)).actions| > 0 && Step(l, Pulled(s)).actions[0] == StartSession(s.time)
    ensures !Finalizes(Step(l, Pulled(s)).actions) ==>
      Step(l, Pulled(s)).next.recording.firstTimeStamp == Some(s.time)
    ensures forall g <- Segments(Step(l, Pulled(s)).actions) :: g.start == Some(s.time)
  {
    RecordFrameOutcome(l, s);
  }

  /** A session is only ever anchored on a frame carrying a qualifying detection. */
  lemma SessionStartsOnDetection(l: Loop, s: Sample)
    requires Inv(l)
    requires exists a <- Step(l, Pulled(s)).actions :: a.StartSession?
    ensures l.status == Running && !SessionOpen(l)
    ensures s.inference.Finished? && Detected(s.inference.results)
  {
    RecordFrameOutcome(l, s);
  }

  /**
    Later frames of an open session never move its first time stamp and
    never call `startSession` again; the segment it finishes with is
    anchored at that time stamp.
   */
  lemma FirstTimeStampIsKept(l: Loop, s: Sample)
    requires Inv(l) && l.status == Running && SessionOpen(l)
    ensures forall a <- Step(l, Pulled(s)).actions :: !a.StartSession?
    ensures !Finalizes(Step(l, Pulled(s)).actions) ==>
      Step(l, Pulled(s)).next.recording.firstTimeStamp == l.recording.firstTimeStamp
    ensures forall g <- Segments(Step(l, Pulled(s)).actions) :: g.start == l.recording.firstTimeStamp
  {
    RecordFrameOutcome(l, s);
  }

  /**
    During a session, a frame without a prediction, or whose conversion to
    an image failed, is written raw and leaves the deadline where it was.
   */
  lemma UndetectedFrameKeepsDeadline(l: Loop, s: Sample)
    requires Inv(l) && l.status == Running && SessionOpen(l)
    requires !s.inference.NoImageBuffer?
    requires ProcessObservations(l.recording, s.inference).personPrediction.None? || s.conversion == ImageFailed
    ensures AppendTimes(Step(l, Pulled(s)).actions) == [s.time]
    ensures forall a <- Step(l, Pulled(s)).actions :: a.Append? ==> a.annotation.None?
    ensures !Finalizes(Step(l, Pulled(s)).actions) ==> Step(l, Pulled(s)).next.debounceTime == l.debounceTime
  {
    RecordFrameOutcome(l, s);
  }

  /**
    During a session, a sample without an image buffer appends nothing and
    leaves the deadline where it was; only the two limits can end the session
    on it.
   */
  lemma BufferlessFrameWritesNothing(l: Loop, s: Sample)
    requires Inv(l) && l.status == Running && SessionOpen(l)
    requires s.inference.NoImageBuffer?
    ensures AppendTimes(Step(l, Pulled(s)).actions) == []
    ensures Finalizes(Step(l, Pulled(s)).actions) <==>
      s.time - l.recording.firstTimeStamp.value > MaxSegmentAge || s.time > l.debounceTime
    ensures !Finalizes(Step(l, Pulled(s)).actions) ==>
      Step(l, Pulled(s)).next.debounceTime == l.debounceTime && Step(l, Pulled(s)).next.written == l.written
  {
    RecordFrameOutcome(l, s);
    FrameCallsObservers(ProcessObservations(l.recording, s.inference), s);
  }

  /**
    During a session, a frame with a prediction whose image conversion
    succeeded pushes the deadline to its time plus the debounce constant; the
    annotated buffer, carrying the prediction, is written unless turning it
    back into a pixel buffer failed. The prediction is this frame's selection
    when the request ran, and the one left over from an earlier frame when
    the request threw.
   */
  lemma DetectedFrameExtendsDeadline(l: Loop, s: Sample)
    requires Inv(l) && l.status == Running
    requires ProcessObservations(l.recording, s.inference).startRecording
    requires ProcessObservations(l.recording, s.inference).personPrediction.Some?
    requires !s.inference.NoImageBuffer? && s.conversion != ImageFailed
    ensures AppendTimes(Step(l, Pulled(s)).actions) == if s.conversion == Converted then [s.time] else []
    ensures forall a <- Step(l, Pulled(s)).actions :: a.Append? ==>
      a.annotation == ProcessObservations(l.recording, s.inference).personPrediction
    ensures s.inference.Finished? ==>
      forall a <- Step(l, Pulled(s)).actions :: a.Append? ==> a.annotation == Select(s.inference.results)
    ensures s.inference.Skipped? ==>
      forall a <- Step(l, Pulled(s)).actions :: a.Append? ==> a.annotation == l.recording.personPrediction
    ensures !Finalizes(Step(l, Pulled(s)).actions) ==>
      Step(l, Pulled(s)).next.debounceTime == s.time + DebounceTimeConstant
  {
    RecordFrameOutcome(l, s);
    var rec := ProcessObservations(l.recording, s.inference);
    assert Annotates(rec, s);
    FrameCallsObservers(rec, s);
  }

  /**
    The frame that ends a session is written first, then the terminal
    conditions are checked. With the session's anchor `first` (this frame's
    time if it opens the session), the frame ends the session if and only if
    its append was refused, it is more than 10 seconds after `first`, or it
    carries no fresh deadline and is later than the standing one: a frame
    that pushed the deadline can never be past it.
   */
  lemma FrameEndsSessionIff(l: Loop, s: Sample)
    requires Inv(l) && l.status == Running
    requires ProcessObservations(l.recording, s.inference).startRecording
    ensures
      var p := ProcessObservations(l.recording, s.inference).personPrediction;
      var first := if SessionOpen(l) then l.recording.firstTimeStamp.value else s.time;
      var t := Step(l, Pulled(s));
      Finalizes(t.actions) <==>
        || (!s.appendOk && !s.inference.NoImageBuffer? && !(p.Some? && s.conversion == PixelBufferFailed))
        || s.time - first > MaxSegmentAge
        || (!(p.Some? && !s.inference.NoImageBuffer? && s.conversion != ImageFailed) && s.time > l.debounceTime)
    ensures
      var t := Step(l, Pulled(s));
      Finalizes(t.actions) ==> !SessionOpen(t.next) && t.next.written == []
  {
    RecordFrameOutcome(l, s);
  }

  /**
    A session goes on while its frames keep within both limits: after a turn
    that leaves it open, the frame's time is at most the deadline and at
    most 10 seconds after the first time stamp.
   */
  lemma OpenSessionWithinLimits(l: Loop, s: Sample)
    requires Inv(l) && l.status == Running
    requires SessionOpen(Step(l, Pulled(s)).next)
    ensures
      var n := Step(l, Pulled(s)).next;
      n.status == Running && n.recording.firstTimeStamp.Some? &&
      s.time <= n.debounceTime && s.time - n.recording.firstTimeStamp.value <= MaxSegmentAge
  {
    RecordFrameOutcome(l, s);
  }

  /** A gap of exactly the debounce time, at an age of exactly 10 seconds, does not end the session. */
  lemma BoundaryFrameContinues(l: Loop, s: Sample)
    requires Inv(l) && l.status == Running && SessionOpen(l)
    requires s.appendOk && s.inference.Finished? && !Detected(s.inference.results)
    requires s.time == l.debounceTime == l.recording.firstTimeStamp.value + MaxSegmentAge
    ensures !Finalizes(Step(l, Pulled(s)).actions)
    ensures Step(l, Pulled(s)).next.written == l.written + [s.time]
  {
    RecordFrameOutcome(l, s);
  }

  /** A frame past the deadline without a fresh detection ends the session, even though it is written. */
  lemma LateFrameEnds(l: Loop, s: Sample)
    requires Inv(l) && l.status == Running && SessionOpen(l)
    requires s.inference.Finished? && !Detected(s.inference.results)
    requires s.time > l.debounceTime
    ensures Finalizes(Step(l, Pulled(s)).actions)
  {
    RecordFrameOutcome(l, s);
  }

  /** Detections do not keep a session open past its age cap. */
  lemma OldFrameEnds(l: Loop, s: Sample)
    requires Inv(l) && l.status == Running && SessionOpen(l)
    requires s.time - l.recording.firstTimeStamp.value > MaxSegmentAge
    ensures Finalizes(Step(l, Pulled(s)).actions)
  {
    RecordFrameOutcome(l, s);
  }

  /**
    The deadline a pass starts with is the absolute time 5 s, not 5 s after
    the session's first frame: a session opened, later than 5 s into the
    stream, by a frame whose conversion to an image fails is finished by
    that very frame, which is still written raw.
   */
  lemma UnannotatedOpeningFrameEndsAtOnce(l: Loop, s: Sample)
    requires Inv(l) && l.status == Running && !SessionOpen(l) && l.debounceTime == DebounceTimeConstant
    requires s.inference.Finished? && Detected(s.inference.results) && s.conversion == ImageFailed
    requires DebounceTimeConstant < s.time
    ensures Segments(Step(l, Pulled(s)).actions) == [Segment(Some(s.time), if s.appendOk then [s.time] else [])]
    ensures Step(l, Pulled(s)).next.status == Running && !SessionOpen(Step(l, Pulled(s)).next)
  {
    RecordFrameOutcome(l, s);
    var rec := ProcessObservations(l.recording, s.inference);
    assert !Annotates(rec, s) && HasBuffer(rec, s) && Anchor(rec, s) == s.time;
    assert EndsPass(l, rec, s);
    assert l.written == [];
    assert Recorded(l, rec, s).written == if s.appendOk then [s.time] else [];
  }

  /**
    End of stream always finishes the writer, whether or not a session is
    open, and stops the loop for good: no new pass is started.
   */
  lemma EndOfStreamFinishes(l: Loop)
    requires Inv(l) && l.status == Running
    ensures Step(l, EndOfStream).actions == [Finalize(Segment(l.recording.firstTimeStamp, l.written))]
    ensures Step(l, EndOfStream).next.status == Exhausted
    ensures Step(l, EndOfStream).next.recording.readDone
    ensures !SessionOpen(Step(l, EndOfStream).next)
  {
  }

  /** A writer that is not ready ends the loop with no finish and no new pass. */
  lemma NotReadyStalls(l: Loop)
    requires l.status == Running
    ensures Step(l, NotReady).actions == []
    ensures Step(l, NotReady).next == l.(status := Stalled)
  {
  }

  /**
    Whenever a turn finishes the writer, the session fields are cleared and
    a new pass (with the initial deadline) is opened if and only if the
    reader is not exhausted.
   */
  lemma FinishResetsSession(l: Loop, e: Event)
    requires Inv(l)
    requires Finalizes(Step(l, e).actions)
    ensures var n := Step(l, e).next;
      && !n.recording.startRecording && n.recording.firstTimeStamp.None? && n.written == []
      && (OpenWriter in Step(l, e).actions <==> !n.recording.readDone)
      && (n.status == Running <==> !n.recording.readDone)
      && (n.status == Running ==> n.debounceTime == DebounceTimeConstant)
  {
    if l.status == Running && e.Pulled? {
      RecordFrameOutcome(l, e.sample);
      var rec := ProcessObservations(l.recording, e.sample.inference);
      if rec.startRecording {
        var t := Step(l, e);
        assert OpenWriter in t.actions <==> !t.next.recording.readDone;
      }
    }
  }
}
