/**
  The recording loop driven over a whole stream: `Run` folds `Step` over the
  sequence of loop turns, restarting passes on the same reader output, and
  collects the writer calls. The lemmas state what the whole run promises:
  frames are written in reader order and never twice, every accepted frame
  ends up in exactly one output segment, end of stream closes the last one,
  a writer that is not ready stops everything, and each segment is anchored
  at its first frame with all frames but the last within the age cap.
 */
module RecordingRun {
  import opened Optional
  import opened Geometry
  import opened Trigger
  import opened RecordingLoop

  /** Feed the loop one turn after the other. */
  function Run(l: Loop, events: seq<Event>): Transition
    decreases |events|
  {
    if |events| == 0 then Transition(l, [])
    else
      var first := Step(l, events[0]);
      var rest := Run(first.next, events[1..]);
      Transition(rest.next, first.actions + rest.actions)
  }

  /** The output segments of a whole stream, from the first pass on. */
  function Record(events: seq<Event>): seq<Segment> {
    Segments(Run(Start, events).actions)
  }

  /** The presentation times of the samples the reader hands out, in order. */
  function FrameTimes(events: seq<Event>): seq<real> {
    if |events| == 0 then []
    else (if events[0].Pulled? then [events[0].sample.time] else []) + FrameTimes(events[1..])
  }

  /** All frames of the given segments, one segment after the other. */
  function SegmentFrames(segments: seq<Segment>): seq<real> {
    if |segments| == 0 then [] else segments[0].frames + SegmentFrames(segments[1..])
  }

  /** `a` is `b` with some elements left out. */
  predicate Subsequence(a: seq<real>, b: seq<real>)
    decreases |b|
  {
    if |a| == 0 then true
    else if |b| == 0 then false
    else (a[0] == b[0] && Subsequence(a[1..], b[1..])) || Subsequence(a, b[1..])
  }

  predicate Increasing(s: seq<real>) {
    forall i, j :: 0 <= i < j < |s| ==> s[i] < s[j]
  }

  // ---------------------------------------------------------------------
  // The run as a whole

  lemma {:induction false} RunPreservesInv(l: Loop, events: seq<Event>)
    requires Inv(l)
    ensures Inv(Run(l, events).next)
    decreases |events|
  {
    if |events| > 0 {
      StepPreservesInv(l, events[0]);
      RunPreservesInv(Step(l, events[0]).next, events[1..]);
    }
  }

  /** Once the loop has stopped, later turns do nothing at all. */
  lemma {:induction false} StoppedRunIsInert(l: Loop, events: seq<Event>)
    requires l.status != Running
    ensures Run(l, events) == Transition(l, [])
    decreases |events|
  {
    if |events| > 0 {
      StoppedRunIsInert(l, events[1..]);
    }
  }

  /**
    A writer that is not ready stops processing for good: nothing of the
    stream that follows is read, written or finished, and the open writer
    is left unfinished.
   */
  lemma NotReadyStopsProcessing(l: Loop, rest: seq<Event>)
    requires l.status == Running
    ensures Run(l, [NotReady] + rest) == Transition(l.(status := Stalled), [])
  {
    assert ([NotReady] + rest)[0] == NotReady;
    assert ([NotReady] + rest)[1..] == rest;
    StoppedRunIsInert(l.(status := Stalled), rest);
  }

  lemma {:induction false} FrameTimesConcat(a: seq<Event>, b: seq<Event>)
    ensures FrameTimes(a + b) == FrameTimes(a) + FrameTimes(b)
  {
    if |a| == 0 {
      assert a + b == b;
    } else {
      assert (a + b)[0] == a[0];
      assert (a + b)[1..] == a[1..] + b;
      FrameTimesConcat(a[1..], b);
    }
  }

  lemma {:induction false} SegmentFramesConcat(a: seq<Segment>, b: seq<Segment>)
    ensures SegmentFrames(a + b) == SegmentFrames(a) + SegmentFrames(b)
  {
    if |a| == 0 {
      assert a + b == b;
    } else {
      assert (a + b)[0] == a[0];
      assert (a + b)[1..] == a[1..] + b;
      SegmentFramesConcat(a[1..], b);
    }
  }

  /** The observers of a whole run split at its first turn. */
  lemma RunObservers(l: Loop, events: seq<Event>)
    requires |events| > 0
    ensures
      var first := Step(l, events[0]);
      var rest := Run(first.next, events[1..]);
      && Segments(Run(l, events).actions) == Segments(first.actions) + Segments(rest.actions)
      && AppendTimes(Run(l, events).actions) == AppendTimes(first.actions) + AppendTimes(rest.actions)
      && AcceptedTimes(Run(l, events).actions) == AcceptedTimes(first.actions) + AcceptedTimes(rest.actions)
      && FrameTimes(events) == FrameTimes([events[0]]) + FrameTimes(events[1..])
  {
    var first := Step(l, events[0]);
    ObserversDistribute(first.actions, Run(first.next, events[1..]).actions);
    assert events == [events[0]] + events[1..];
    FrameTimesConcat([events[0]], events[1..]);
  }

  // ---------------------------------------------------------------------
  // Frames are written in reader order, each at most once

  /** One turn appends at most the frame it pulled. */
  lemma StepAppends(l: Loop, e: Event)
    requires Inv(l)
    ensures AppendTimes(Step(l, e).actions) == [] ||
      (e.Pulled? && AppendTimes(Step(l, e).actions) == [e.sample.time])
  {
    if l.status == Running {
      match e
      case NotReady =>
      case EndOfStream =>
        FinishObservers(l.(recording := l.recording.(readDone := true)));
      case Pulled(s) =>
        var rec := ProcessObservations(l.recording, s.inference);
        if rec.startRecording {
          RecordFrameOutcome(l, s);
          FrameCallsObservers(rec, s);
        }
    }
  }

  lemma SubsequenceSkip(a: seq<real>, b: seq<real>, x: real)
    requires Subsequence(a, b)
    ensures Subsequence(a, [x] + b)
  {
    assert ([x] + b)[1..] == b;
  }

  lemma SubsequenceKeep(a: seq<real>, b: seq<real>, x: real)
    requires Subsequence(a, b)
    ensures Subsequence([x] + a, [x] + b)
  {
    assert ([x] + a)[1..] == a;
    assert ([x] + b)[1..] == b;
  }

  /**
    The frames handed to the writer, over all passes, are the reader's
    frames in reader order with some left out: none is read twice or
    reordered across passes.
   */
  lemma {:induction false} RunAppendsInReaderOrder(l: Loop, events: seq<Event>)
    requires Inv(l)
    ensures Subsequence(AppendTimes(Run(l, events).actions), FrameTimes(events))
    decreases |events|
  {
    if |events| > 0 {
      var first := Step(l, events[0]);
      var rest := Run(first.next, events[1..]);
      RunObservers(l, events);
      StepAppends(l, events[0]);
      StepPreservesInv(l, events[0]);
      RunAppendsInReaderOrder(first.next, events[1..]);
      assert FrameTimes([events[0]]) == if events[0].Pulled? then [events[0].sample.time] else [] by {
        assert [events[0]][1..] == [];
      }
      if AppendTimes(first.actions) == [] {
        assert AppendTimes(Run(l, events).actions) == AppendTimes(rest.actions);
        if events[0].Pulled? {
          SubsequenceSkip(AppendTimes(rest.actions), FrameTimes(events[1..]), events[0].sample.time);
        } else {
          assert FrameTimes(events) == FrameTimes(events[1..]);
        }
      } else {
        SubsequenceKeep(AppendTimes(rest.actions), FrameTimes(events[1..]), events[0].sample.time);
      }
    }
  }

  lemma {:induction false} SubsequenceMembers(a: seq<real>, b: seq<real>)
    requires Subsequence(a, b)
    ensures forall i :: 0 <= i < |a| ==> a[i] in b
    decreases |b|
  {
    if |a| > 0 && |b| > 0 {
      if a[0] == b[0] && Subsequence(a[1..], b[1..]) {
        SubsequenceMembers(a[1..], b[1..]);
        assert forall i :: 1 <= i < |a| ==> a[i] == a[1..][i - 1];
      } else {
        SubsequenceMembers(a, b[1..]);
      }
    }
  }

  /** Leaving elements out of an increasing sequence keeps it increasing. */
  lemma {:induction false} SubsequenceOfIncreasing(a: seq<real>, b: seq<real>)
    requires Subsequence(a, b) && Increasing(b)
    ensures Increasing(a)
    decreases |b|
  {
    if |a| > 0 && |b| > 0 {
      if a[0] == b[0] && Subsequence(a[1..], b[1..]) {
        SubsequenceOfIncreasing(a[1..], b[1..]);
        SubsequenceMembers(a[1..], b[1..]);
        forall i, j | 0 <= i < j < |a|
          ensures a[i] < a[j]
        {
          assert a[j] == a[1..][j - 1];
          if i > 0 {
            assert a[i] == a[1..][i - 1];
          } else {
            var k :| 0 <= k < |b[1..]| && b[1..][k] == a[j];
            assert b[k + 1] == a[j];
          }
        }
      } else {
        SubsequenceOfIncreasing(a, b[1..]);
      }
    }
  }

  /** With a reader whose time stamps increase, no frame is handed to the writer twice. */
  lemma NoFrameWrittenTwice(l: Loop, events: seq<Event>)
    requires Inv(l) && Increasing(FrameTimes(events))
    ensures Increasing(AppendTimes(Run(l, events).actions))
    ensures |AppendTimes(Run(l, events).actions)| <= |FrameTimes(events)|
  {
    RunAppendsInReaderOrder(l, events);
    SubsequenceOfIncreasing(AppendTimes(Run(l, events).actions), FrameTimes(events));
    SubsequenceNoLonger(AppendTimes(Run(l, events).actions), FrameTimes(events));
  }

  lemma {:induction false} SubsequenceNoLonger(a: seq<real>, b: seq<real>)
    requires Subsequence(a, b)
    ensures |a| <= |b|
    decreases |b|
  {
    if |a| > 0 && |b| > 0 {
      if a[0] == b[0] && Subsequence(a[1..], b[1..]) {
        SubsequenceNoLonger(a[1..], b[1..]);
      } else {
        SubsequenceNoLonger(a, b[1..]);
      }
    }
  }

  // ---------------------------------------------------------------------
  // Every accepted frame ends up in exactly one segment

  /** One turn moves frames from the open writer into finished segments without loss. */
  lemma StepConservesFrames(l: Loop, e: Event)
    requires Inv(l)
    ensures l.written + AcceptedTimes(Step(l, e).actions) ==
      SegmentFrames(Segments(Step(l, e).actions)) + Step(l, e).next.written
  {
    if l.status == Running {
      match e
      case NotReady =>
      case EndOfStream =>
        var m := l.(recording := l.recording.(readDone := true));
        FinishObservers(m);
        assert SegmentFrames([Segment(m.recording.firstTimeStamp, m.written)]) == l.written by {
          assert [Segment(m.recording.firstTimeStamp, m.written)][1..] == [];
        }
      case Pulled(s) =>
        FrameConservesFrames(l, s);
    }
  }

  /** A pulled frame either stays in the open writer or leaves in the segment it finishes. */
  lemma FrameConservesFrames(l: Loop, s: Sample)
    ensures l.written + AcceptedTimes(RecordFrame(l, s).actions) ==
      SegmentFrames(Segments(RecordFrame(l, s).actions)) + RecordFrame(l, s).next.written
  {
    var rec := ProcessObservations(l.recording, s.inference);
    if rec.startRecording {
      RecordFrameOutcome(l, s);
      FrameCallsObservers(rec, s);
      if EndsPass(l, rec, s) {
        FinishingFrameConserves(l, s);
      } else {
        assert RecordFrame(l, s).next == Recorded(l, rec, s);
      }
    } else {
      assert RecordFrame(l, s).actions == [];
    }
  }

  /** The frame that ends a pass leaves, with the writer's earlier frames, in the one segment it finishes. */
  lemma FinishingFrameConserves(l: Loop, s: Sample)
    requires ProcessObservations(l.recording, s.inference).startRecording
    requires EndsPass(l, ProcessObservations(l.recording, s.inference), s)
    ensures l.written + AcceptedTimes(RecordFrame(l, s).actions) == SegmentFrames(Segments(RecordFrame(l, s).actions))
    ensures RecordFrame(l, s).next.written == []
  {
    var rec := ProcessObservations(l.recording, s.inference);
    RecordFrameOutcome(l, s);
    FrameCallsObservers(rec, s);
    var g := Segment(Some(Anchor(rec, s)), Recorded(l, rec, s).written);
    assert SegmentFrames([g]) == g.frames by {
      assert [g][1..] == [];
    }
  }

  lemma ChainConservation(w0: seq<real>, a1: seq<real>, a2: seq<real>, f1: seq<real>, f2: seq<real>,
                          w1: seq<real>, w2: seq<real>)
    requires w0 + a1 == f1 + w1 && w1 + a2 == f2 + w2
    ensures w0 + (a1 + a2) == (f1 + f2) + w2
  {
    assert w0 + (a1 + a2) == (w0 + a1) + a2 == (f1 + w1) + a2 == f1 + (w1 + a2);
  }

  /**
    Over any stretch of the run, the frames the open writer held plus the
    frames accepted since are exactly the frames of the segments finished
    since, in order, followed by the frames the writer holds now.
   */
  lemma {:induction false} RunConservesFrames(l: Loop, events: seq<Event>)
    requires Inv(l)
    ensures l.written + AcceptedTimes(Run(l, events).actions) ==
      SegmentFrames(Segments(Run(l, events).actions)) + Run(l, events).next.written
    decreases |events|
  {
    if |events| > 0 {
      var first := Step(l, events[0]);
      var rest := Run(first.next, events[1..]);
      RunObservers(l, events);
      StepConservesFrames(l, events[0]);
      StepPreservesInv(l, events[0]);
      RunConservesFrames(first.next, events[1..]);
      SegmentFramesConcat(Segments(first.actions), Segments(rest.actions));
      ChainConservation(l.written, AcceptedTimes(first.actions), AcceptedTimes(rest.actions),
        SegmentFrames(Segments(first.actions)), SegmentFrames(Segments(rest.actions)),
        first.next.written, rest.next.written);
    }
  }

  /** A pulled sample never stops the loop: only end of stream or a writer that is not ready do. */
  lemma PulledKeepsRunning(l: Loop, s: Sample)
    requires Inv(l) && l.status == Running
    ensures Step(l, Pulled(s)).next.status == Running
  {
    var rec := ProcessObservations(l.recording, s.inference);
    if rec.startRecording {
      RecordFrameOutcome(l, s);
    }
  }

  /**
    If the writer stays ready until the reader is exhausted, the run ends
    with the reader marked done, no writer left open, and every frame the
    writers accepted inside exactly one finished segment.
   */
  lemma {:induction false} EndOfStreamClosesEverything(l: Loop, events: seq<Event>)
    requires Inv(l) && l.status == Running
    requires EndOfStream in events && NotReady !in events
    ensures Run(l, events).next.status == Exhausted
    ensures Run(l, events).next.written == []
    ensures l.written + AcceptedTimes(Run(l, events).actions) == SegmentFrames(Segments(Run(l, events).actions))
    decreases |events|
  {
    RunConservesFrames(l, events);
    var first := Step(l, events[0]);
    if events[0] == EndOfStream {
      StoppedRunIsInert(first.next, events[1..]);
    } else {
      assert events[0].Pulled?;
      PulledKeepsRunning(l, events[0].sample);
      StepPreservesInv(l, events[0]);
      assert EndOfStream in events[1..] && NotReady !in events[1..] by {
        assert events == [events[0]] + events[1..];
      }
      EndOfStreamClosesEverything(first.next, events[1..]);
    }
    assert Run(l, events).next.written == [];
  }

  /** Processing a stream that ends normally: all accepted frames are in the recorded segments. */
  lemma RecordKeepsEveryAcceptedFrame(events: seq<Event>)
    requires EndOfStream in events && NotReady !in events
    ensures AcceptedTimes(Run(Start, events).actions) == SegmentFrames(Record(events))
  {
    StartSatisfiesInv();
    EndOfStreamClosesEverything(Start, events);
  }

  // ---------------------------------------------------------------------
  // Shape of the segments

  /**
    A finished segment: a segment without an anchor holds no frames; one
    with an anchor holds increasing frame times, none before the anchor,
    and all but the last within the age cap of it (the frame that crosses
    the cap is written before the check that ends the session).
   */
  predicate WellFormed(g: Segment) {
    match g.start
    case None => g.frames == []
    case Some(t0) =>
      && Increasing(g.frames)
      && (forall i :: 0 <= i < |g.frames| ==> t0 <= g.frames[i])
      && (forall i :: 0 <= i < |g.frames| - 1 ==> g.frames[i] - t0 <= MaxSegmentAge)
  }

  /** The open writer's frames increase and lie within the age cap of the anchor. */
  predicate OpenWriterShape(l: Loop) {
    match l.recording.firstTimeStamp
    case None => true
    case Some(t0) =>
      && Increasing(l.written)
      && (forall i :: 0 <= i < |l.written| ==> t0 <= l.written[i] && l.written[i] - t0 <= MaxSegmentAge)
  }

  /** Everything the loop has recorded so far precedes time `t`. */
  predicate Precedes(l: Loop, t: real) {
    && (l.recording.firstTimeStamp.Some? ==> l.recording.firstTimeStamp.value < t)
    && (forall i :: 0 <= i < |l.written| ==> l.written[i] < t)
  }

  /** The open writer's frames after a recorded frame, before the terminal check. */
  lemma RecordedShape(l: Loop, rec: Recording, s: Sample)
    requires Inv(l) && OpenWriterShape(l) && Precedes(l, s.time)
    requires rec.firstTimeStamp == l.recording.firstTimeStamp
    ensures var w := Recorded(l, rec, s).written;
      && Increasing(w)
      && (forall i :: 0 <= i < |w| ==> Anchor(rec, s) <= w[i] <= s.time)
      && (forall i :: 0 <= i < |w| - 1 ==> w[i] - Anchor(rec, s) <= MaxSegmentAge)
  {
    var w := Recorded(l, rec, s).written;
    assert forall i :: 0 <= i < |l.written| ==> w[i] == l.written[i];
    if rec.firstTimeStamp.None? {
      assert l.written == [];
    }
  }

  lemma FrameKeepsShape(l: Loop, s: Sample)
    requires Inv(l) && OpenWriterShape(l) && l.status == Running && Precedes(l, s.time)
    ensures OpenWriterShape(Step(l, Pulled(s)).next)
    ensures forall g <- Segments(Step(l, Pulled(s)).actions) :: WellFormed(g)
    ensures forall t :: s.time < t ==> Precedes(Step(l, Pulled(s)).next, t)
  {
    var rec := ProcessObservations(l.recording, s.inference);
    if !rec.startRecording {
      assert RecordFrame(l, s) == Transition(l.(recording := rec), []);
    } else if EndsPass(l, rec, s) {
      FinishingFrameKeepsShape(l, s);
    } else {
      ContinuingFrameKeepsShape(l, s);
      FrameCallsObservers(rec, s);
    }
  }

  /** The frame that ends a pass finishes a well-formed segment and leaves an empty writer. */
  lemma FinishingFrameKeepsShape(l: Loop, s: Sample)
    requires Inv(l) && OpenWriterShape(l) && Precedes(l, s.time)
    requires ProcessObservations(l.recording, s.inference).startRecording
    requires EndsPass(l, ProcessObservations(l.recording, s.inference), s)
    ensures RecordFrame(l, s).next.recording.firstTimeStamp.None? && RecordFrame(l, s).next.written == []
    ensures forall g <- Segments(RecordFrame(l, s).actions) :: WellFormed(g)
  {
    var rec := ProcessObservations(l.recording, s.inference);
    RecordFrameOutcome(l, s);
    RecordedShape(l, rec, s);
    var g := Segment(Some(Anchor(rec, s)), Recorded(l, rec, s).written);
    assert WellFormed(g);
    assert Segments(RecordFrame(l, s).actions) == [g];
  }

  /** A frame that does not end the pass keeps the writer's frames increasing and within the age cap. */
  lemma ContinuingFrameKeepsShape(l: Loop, s: Sample)
    requires Inv(l) && OpenWriterShape(l) && Precedes(l, s.time)
    requires ProcessObservations(l.recording, s.inference).startRecording
    requires !EndsPass(l, ProcessObservations(l.recording, s.inference), s)
    ensures OpenWriterShape(RecordFrame(l, s).next)
    ensures RecordFrame(l, s).actions == FrameCalls(ProcessObservations(l.recording, s.inference), s)
    ensures forall t :: s.time < t ==> Precedes(RecordFrame(l, s).next, t)
  {
    var rec := ProcessObservations(l.recording, s.inference);
    RecordedShape(l, rec, s);
    assert s.time - Anchor(rec, s) <= MaxSegmentAge;
    assert OpenWriterShape(Recorded(l, rec, s));
  }

  lemma StepKeepsShape(l: Loop, e: Event)
    requires Inv(l) && OpenWriterShape(l)
    requires e.Pulled? ==> Precedes(l, e.sample.time)
    ensures OpenWriterShape(Step(l, e).next)
    ensures forall g <- Segments(Step(l, e).actions) :: WellFormed(g)
    ensures !e.Pulled? ==> forall t :: Precedes(l, t) ==> Precedes(Step(l, e).next, t)
    ensures e.Pulled? ==> forall t :: e.sample.time < t ==> Precedes(Step(l, e).next, t)
  {
    if l.status == Running {
      match e
      case NotReady =>
      case EndOfStream =>
        FinishObservers(l.(recording := l.recording.(readDone := true)));
      case Pulled(s) =>
        FrameKeepsShape(l, s);
    }
  }

  /** The tail of an increasing sequence is increasing and lies above its head. */
  lemma IncreasingSplit(head: seq<real>, tail: seq<real>)
    requires Increasing(head + tail)
    ensures Increasing(tail)
    ensures forall i, j :: 0 <= i < |head| && 0 <= j < |tail| ==> head[i] < tail[j]
  {
    var s := head + tail;
    assert forall j :: 0 <= j < |tail| ==> tail[j] == s[|head| + j];
    assert forall i :: 0 <= i < |head| ==> head[i] == s[i];
  }

  /**
    After the first event of a stream with increasing time stamps, the loop
    still keeps its shape and everything it holds precedes every later frame.
   */
  lemma FirstStepKeepsShape(l: Loop, events: seq<Event>)
    requires |events| > 0
    requires Inv(l) && OpenWriterShape(l)
    requires Increasing(FrameTimes(events))
    requires forall i :: 0 <= i < |FrameTimes(events)| ==> Precedes(l, FrameTimes(events)[i])
    ensures var next := Step(l, events[0]).next;
      && Inv(next) && OpenWriterShape(next)
      && Increasing(FrameTimes(events[1..]))
      && (forall i :: 0 <= i < |FrameTimes(events[1..])| ==> Precedes(next, FrameTimes(events[1..])[i]))
    ensures forall g <- Segments(Step(l, events[0]).actions) :: WellFormed(g)
  {
    var e := events[0];
    var first := Step(l, e);
    var head, tail := FrameTimes([e]), FrameTimes(events[1..]);
    assert events == [e] + events[1..];
    FrameTimesConcat([e], events[1..]);
    assert head == if e.Pulled? then [e.sample.time] else [] by {
      assert [e][1..] == [];
    }
    IncreasingSplit(head, tail);
    if e.Pulled? {
      assert FrameTimes(events)[0] == head[0] == e.sample.time;
      assert Precedes(l, FrameTimes(events)[0]);
    }
    StepKeepsShape(l, e);
    StepPreservesInv(l, e);
    if e.Pulled? {
      forall j | 0 <= j < |tail|
        ensures Precedes(first.next, tail[j])
      {
        assert head[0] < tail[j];
      }
    } else {
      assert tail == FrameTimes(events);
    }
  }

  /**
    With increasing reader time stamps, every segment the run finishes is
    well formed: anchored at its first frame, increasing, and capped in age
    except for the frame that ended it.
   */
  lemma {:induction false} RunSegmentsWellFormed(l: Loop, events: seq<Event>)
    requires Inv(l) && OpenWriterShape(l)
    requires Increasing(FrameTimes(events))
    requires forall i :: 0 <= i < |FrameTimes(events)| ==> Precedes(l, FrameTimes(events)[i])
    ensures forall g <- Segments(Run(l, events).actions) :: WellFormed(g)
    decreases |events|
  {
    if |events| > 0 {
      var first := Step(l, events[0]);
      RunObservers(l, events);
      FirstStepKeepsShape(l, events);
      RunSegmentsWellFormed(first.next, events[1..]);
    }
  }

  /** Every segment recorded from a stream with increasing time stamps is well formed. */
  lemma RecordIsWellFormed(events: seq<Event>)
    requires Increasing(FrameTimes(events))
    ensures forall g <- Record(events) :: WellFormed(g)
  {
    StartSatisfiesInv();
    RunSegmentsWellFormed(Start, events);
  }

  // ---------------------------------------------------------------------
  // A worked stream

  /** A confident "person" detection in the middle of the frame. */
  const PersonObservation: Observation :=
    Observation([Label(TriggerIdentifier, 0.95)], Rect(0.25, 0.25, 0.5, 0.5))

  /** A frame at time `t` showing a person, and one showing nothing. */
  function Hit(t: real): Event {
    Pulled(Sample(t, Finished(Some([PersonObservation])), Converted, true))
  }

  function Miss(t: real): Event {
    Pulled(Sample(t, Finished(Some([])), Converted, true))
  }

  /** The segments of a run are those of its first turn followed by those of the rest. */
  lemma RunSegmentsCons(l: Loop, e: Event, rest: seq<Event>)
    ensures Segments(Run(l, [e] + rest).actions) ==
      Segments(Step(l, e).actions) + Segments(Run(Step(l, e).next, rest).actions)
  {
    assert ([e] + rest)[0] == e && ([e] + rest)[1..] == rest;
    RunObservers(l, [e] + rest);
  }

  /** The state of the worked stream while a session anchored at `t0` is open. */
  function Open(t0: real, deadline: real, written: seq<real>): Loop {
    Loop(Recording(Some(PersonObservation), true, Some(t0), false), deadline, Running, written)
  }

  lemma HitOpensSession(l: Loop, t: real)
    requires l.status == Running && !l.recording.startRecording && l.recording.firstTimeStamp.None?
    requires !l.recording.readDone && l.written == []
    ensures Step(l, Hit(t)).next == Open(t, t + DebounceTimeConstant, [t])
    ensures Segments(Step(l, Hit(t)).actions) == []
  {
    assert Qualifies(PersonObservation);
    assert Select(Some([PersonObservation])) == Some(PersonObservation);
    RecordFrameOutcome(l, Hit(t).sample);
  }

  lemma HitExtendsSession(t0: real, deadline: real, written: seq<real>, t: real)
    requires t - t0 <= MaxSegmentAge
    ensures Step(Open(t0, deadline, written), Hit(t)).next == Open(t0, t + DebounceTimeConstant, written + [t])
    ensures Segments(Step(Open(t0, deadline, written), Hit(t)).actions) == []
  {
    assert Qualifies(PersonObservation);
    assert Select(Some([PersonObservation])) == Some(PersonObservation);
    RecordFrameOutcome(Open(t0, deadline, written), Hit(t).sample);
  }

  lemma LateMissEndsSession(t0: real, deadline: real, written: seq<real>, t: real)
    requires deadline < t
    ensures Step(Open(t0, deadline, written), Miss(t)).next == Start
    ensures Segments(Step(Open(t0, deadline, written), Miss(t)).actions) == [Segment(Some(t0), written + [t])]
  {
    assert Select(Some([])) == None;
    RecordFrameOutcome(Open(t0, deadline, written), Miss(t).sample);
  }

  lemma IdleMiss(t: real)
    ensures Step(Start, Miss(t)) == Transition(Start, [])
  {
    assert Select(Some([])) == None;
  }

  lemma EndClosesSession(t0: real, deadline: real, written: seq<real>)
    ensures Segments(Step(Open(t0, deadline, written), EndOfStream).actions) == [Segment(Some(t0), written)]
    ensures Segments(Run(Step(Open(t0, deadline, written), EndOfStream).next, []).actions) == []
  {
    FinishObservers(Open(t0, deadline, written).(recording := Open(t0, deadline, written).recording.(readDone := true)));
  }

  /** A session opened by two detections at most 10 s apart ends at a later silent frame past the deadline. */
  lemma FirstSession(t1: real, t2: real, t3: real, rest: seq<Event>)
    requires t2 - t1 <= MaxSegmentAge && t2 + DebounceTimeConstant < t3
    ensures Segments(Run(Start, [Hit(t1), Hit(t2), Miss(t3)] + rest).actions) ==
      [Segment(Some(t1), [t1, t2, t3])] + Segments(Run(Start, rest).actions)
  {
    var e3 := [Miss(t3)] + rest;
    var e2 := [Hit(t2)] + e3;
    assert [Hit(t1), Hit(t2), Miss(t3)] + rest == [Hit(t1)] + e2;
    LateMissEndsSession(t1, t2 + DebounceTimeConstant, [t1, t2], t3);
    assert [t1, t2] + [t3] == [t1, t2, t3];
    RunSegmentsCons(Open(t1, t2 + DebounceTimeConstant, [t1, t2]), Miss(t3), rest);
    HitExtendsSession(t1, t1 + DebounceTimeConstant, [t1], t2);
    assert [t1] + [t2] == [t1, t2];
    RunSegmentsCons(Open(t1, t1 + DebounceTimeConstant, [t1]), Hit(t2), e3);
    HitOpensSession(Start, t1);
    RunSegmentsCons(Start, Hit(t1), e2);
  }

  /** From a fresh pass, a silent frame is skipped and two detections open a session that end of stream closes. */
  lemma SecondSession(t4: real, t5: real, t6: real)
    requires t6 - t5 <= MaxSegmentAge
    ensures Segments(Run(Start, [Miss(t4), Hit(t5), Hit(t6), EndOfStream]).actions) ==
      [Segment(Some(t5), [t5, t6])]
  {
    var e7 := [EndOfStream];
    var e6 := [Hit(t6)] + e7;
    var e5 := [Hit(t5)] + e6;
    assert [Miss(t4), Hit(t5), Hit(t6), EndOfStream] == [Miss(t4)] + e5;
    EndClosesSession(t5, t6 + DebounceTimeConstant, [t5, t6]);
    assert e7 == [EndOfStream] + [];
    RunSegmentsCons(Open(t5, t6 + DebounceTimeConstant, [t5, t6]), EndOfStream, []);
    HitExtendsSession(t5, t5 + DebounceTimeConstant, [t5], t6);
    assert [t5] + [t6] == [t5, t6];
    RunSegmentsCons(Open(t5, t5 + DebounceTimeConstant, [t5]), Hit(t6), e7);
    HitOpensSession(Start, t5);
    RunSegmentsCons(Start, Hit(t5), e6);
    IdleMiss(t4);
    RunSegmentsCons(Start, Miss(t4), e5);
  }

  /**
    Two bursts of detections: the first session ends with the silent frame
    past the deadline set by its last detection (that frame is written
    nonetheless), the next silent frame is consumed without a session, and
    end of stream closes the second session. For instance detections at 2 s
    and 4 s, silence at 9.5 s and 15 s, detections at 20 s and 21 s give the
    segments [2, 4, 9.5] and [20, 21].
   */
  lemma TwoSessionStream(t1: real, t2: real, t3: real, t4: real, t5: real, t6: real)
    requires t2 - t1 <= MaxSegmentAge && t2 + DebounceTimeConstant < t3 && t6 - t5 <= MaxSegmentAge
    ensures Record([Hit(t1), Hit(t2), Miss(t3), Miss(t4), Hit(t5), Hit(t6), EndOfStream]) ==
      [Segment(Some(t1), [t1, t2, t3]), Segment(Some(t5), [t5, t6])]
  {
    var rest := [Miss(t4), Hit(t5), Hit(t6), EndOfStream];
    FirstSession(t1, t2, t3, rest);
    SecondSession(t4, t5, t6);
    assert [Hit(t1), Hit(t2), Miss(t3)] + rest ==
      [Hit(t1), Hit(t2), Miss(t3), Miss(t4), Hit(t5), Hit(t6), EndOfStream];
  }
}
