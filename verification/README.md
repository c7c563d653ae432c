# ObjectDetection segment recorder — a Dafny model

The ObjectDetection app reads a video frame by frame. Each frame goes through an
object detector. While a confident "person" detection keeps showing up, the app
writes the frames to a new movie file, with the detected box drawn on them. A
session opens on the first qualifying detection. A detection pushes the
session's deadline five seconds past its frame. A session ends when a frame is
past that deadline, when a frame is more than ten seconds after the session's
first frame, when the writer refuses a frame, or when the video ends. After
each finished file, a new pass on the same reader output starts with a fresh
writer, unless the reader is exhausted.

The model has six modules:

- `Optional` (`optional.dfy`): Swift's `T?`.
- `Geometry` (`geometry.dfy`): the Core Graphics arithmetic the annotation
  code relies on, over exact reals:
  - `CGRect`, which may have a negative size;
  - the scale and translate `CGAffineTransform`s;
  - `CGRect.applying` (the bounding box of the transformed corners);
  - `CGRect.insetBy`, which returns `CGRect.null` (here `None`) when an inset
    would leave a negative size.
- `Trigger` (`trigger.dfy`): detector observations, and the trigger
  selection of `processObservations`.
- `ImageAnnotation` (`image.dfy`): `addBoundingBox` and `addBorder`.
  - An image is its size plus the list of rectangles stroked on it.
  - Whether the graphics context yields an image is a parameter.
- `RecordingLoop` (`recording.dfy`): the `Recording` struct and one turn of
  the `while` loop of `operationRecording`, as a pure function
  `Step(loop, event) -> (loop, writer calls)`.
  - The loop's state adds two things to the struct: the loop-local
    `debounceTime`, and the frames the open writer accepted.
  - An event is one of three things:
    - a pulled sample, carrying its time, the detector's verdict, how the
      image conversions went and whether `append` succeeded;
    - end of stream;
    - a writer input that is not ready.
  - A finish (`markAsFinished`/`finishWriting`) and the restart of the next
    pass happen inside the same step.
- `RecordingRun` (`run.dfy`): `Run` folds `Step` over a stream of events.
  `Record` is the resulting list of output segments. Each segment is the
  time its session was anchored at, plus the times of the frames its writer
  accepted.

Behaviours of the code that are easy to miss, all kept by the model:

- The trigger is the *first* qualifying observation in result order, not the
  most confident one.
- A writer input that is not ready does not make the loop wait. It ends the
  loop with no finish and no new pass, so processing stops silently
  (`RecordingRun.NotReadyStopsProcessing`).
- A refused `append` ends the session at once. It is not retried.
- A sample without an image buffer is neither run through the detector nor
  written, but it can still end a session on either limit
  (`RecordingLoop.BufferlessFrameWritesNothing`).
- A frame pushes the deadline only when it has a prediction *and* turning the
  sample into an image succeeds.
- `debounceTime` starts every pass at the absolute value 5 s, not 5 s after
  anything. A session opened by a frame whose image conversion fails is
  therefore finished by that same frame once the stream is past 5 s
  (`RecordingLoop.UnannotatedOpeningFrameEndsAtOnce`).
- The frame that crosses a limit is written before the limits are checked.
  A segment can therefore end with a frame more than 10 s after its first one,
  or past the deadline (`RecordingRun.WellFormed`).

## Model

| member | source | states |
|---|---|---|
| Geometry.Standardized | ObjectDetection/ObjectDetection/Extension+Image.swift:20 | the standardized rect has a non-negative size and the same extents as the input |
| Geometry.MakeScale | ObjectDetection/ObjectDetection/Extension+Image.swift:19 | no contract of its own; `CGAffineTransform(scaleX:y:)`, specified through the flip by `FlipIsInvolution` and `BoxTransform` |
| Geometry.ScaledBy | ObjectDetection/ObjectDetection/Extension+Image.swift:18 | no contract of its own; `scaledBy(x:y:)`, which scales a point before the transform, specified through the scale by `ScaleStage` and `BoxTransform` |
| Geometry.TranslatedBy | ObjectDetection/ObjectDetection/Extension+Image.swift:19 | no contract of its own; `translatedBy(x:y:)`, which translates a point before the transform, specified through the flip by `FlipIsInvolution` and `BoxTransform` |
| Geometry.ApplyRect | ObjectDetection/ObjectDetection/Extension+Image.swift:20 | no contract of its own; `CGRect.applying` for an axis-aligned transform, specified by `ApplyRectExtents`, `ApplyRectCoversImage` and `ApplyRectIsTight` |
| Geometry.ApplyRectExtents | ObjectDetection/ObjectDetection/Extension+Image.swift:20 | `applying` yields a standardized rect whose extents are the images of the input's extents under each axis map |
| Geometry.ApplyRectCoversImage | ObjectDetection/ObjectDetection/Extension+Image.swift:20 | every point of the input rect is mapped into the rect `applying` returns |
| Geometry.ApplyRectIsTight | ObjectDetection/ObjectDetection/Extension+Image.swift:20 | any rect holding the images of all points of the input encloses the result of `applying`, so the result is the smallest such rect |
| Geometry.SpanIsCornerHull | ObjectDetection/ObjectDetection/Extension+Image.swift:20 | along one axis, the interval `applying` produces runs from the smaller to the larger image of the two interval ends |
| Geometry.ConcatenatingComposes | ObjectDetection/ObjectDetection/Extension+Image.swift:18-20 | `concatenating` is composition: the concatenated transform maps a point as the first transform followed by the second |
| Geometry.InsetBy | ObjectDetection/ObjectDetection/Extension+Image.swift:42 | no contract of its own; `CGRect.insetBy`, specified by `InsetByKeepsCentre` and `InsetByRoundTrip` |
| Geometry.InsetByKeepsCentre | ObjectDetection/ObjectDetection/Extension+Image.swift:42 | `insetBy` succeeds iff twice each inset fits in the size; on success the result is standard, keeps the centre, is smaller by twice each inset, and lies inside the input for non-negative insets |
| Geometry.InsetByRoundTrip | ObjectDetection/ObjectDetection/Extension+Image.swift:42 | insetting by the negated amounts undoes a successful inset, giving back the standardized rect |
| Trigger.Qualifies | ObjectDetection/ObjectDetection/ViewController.swift:154 | no contract of its own; the closure handed to `first(where:)`: top label "person" with confidence above 0.9; `SelectIsFirst` states what selecting with it yields |
| Trigger.FirstQualifying | ObjectDetection/ObjectDetection/ViewController.swift:154 | the index returned holds a qualifying observation and none before it qualifies; no index is returned only when none qualifies |
| Trigger.Select | ObjectDetection/ObjectDetection/ViewController.swift:154 | a trigger is found iff the results are present and some observation's top label is "person" with confidence above 0.9; the trigger qualifies and is one of the results |
| Trigger.SelectIsFirst | ObjectDetection/ObjectDetection/ViewController.swift:154 | an observation is the trigger iff it qualifies and nothing before it in result order qualifies |
| Trigger.SelectConcat | ObjectDetection/ObjectDetection/ViewController.swift:154 | over concatenated results the first part decides whenever it holds a qualifying observation, otherwise the second part does |
| ImageAnnotation.AddBoundingBox | ObjectDetection/ObjectDetection/Extension+Image.swift:15-35 | the result has the input's size; with no context image the input itself is returned; otherwise exactly one stroke is added on top of the existing ones: the detector box mapped to image points, (bx*W, H - (by+bh)*H, bw*W, bh*H) for its standardized form, red, 5 points wide |
| ImageAnnotation.AddBorder | ObjectDetection/ObjectDetection/Extension+Image.swift:36-51 | the result has the input's size and keeps the existing strokes; when there is no context image, or the line is wider or taller than the image (the border rect is `CGRect.null`, so nothing is drawn), the input is returned unchanged; otherwise exactly one stroke is added: the rect (w/2, w/2, W - w, H - w) in the given width and colour |
| ImageAnnotation.ScaleToImage | ObjectDetection/ObjectDetection/Extension+Image.swift:18 | no contract of its own; the `scale` transform, specified by `ScaleStage` and `BoxTransform` |
| ImageAnnotation.FlipToTopLeft | ObjectDetection/ObjectDetection/Extension+Image.swift:19 | no contract of its own; the `transform` that flips the vertical axis, specified by `FlipIsInvolution`, `FlipRectIsInvolution` and `BoxTransform` |
| ImageAnnotation.BoxRect | ObjectDetection/ObjectDetection/Extension+Image.swift:18-20 | no contract of its own; the box mapped by the scale and then the flip, specified by `BoxRectClosedForm`, `BoxRectIgnoresOrientation` and `BoxRectRoundTrip` |
| ImageAnnotation.ScaleStage | ObjectDetection/ObjectDetection/Extension+Image.swift:18-20 | the first transform scales each coordinate and size of a standard box by the image width or height |
| ImageAnnotation.BoxRectClosedForm | ObjectDetection/ObjectDetection/Extension+Image.swift:16-20 | a standard box (bx, by, bw, bh) on a W x H image becomes (bx*W, H - (by+bh)*H, bw*W, bh*H) |
| ImageAnnotation.BoxRectIgnoresOrientation | ObjectDetection/ObjectDetection/Extension+Image.swift:20 | a box with a negative size maps like its standardized form |
| ImageAnnotation.FlipIsInvolution | ObjectDetection/ObjectDetection/Extension+Image.swift:19 | the flip maps (x, y) to (x, H - y), and applying it twice gives back every point |
| ImageAnnotation.FlipRectIsInvolution | ObjectDetection/ObjectDetection/Extension+Image.swift:19-20 | flipping a rect twice gives back its points, standardized |
| ImageAnnotation.UnitBoxStaysInImage | ObjectDetection/ObjectDetection/Extension+Image.swift:18-20 | a box inside the unit square maps into [0, W] x [0, H] |
| ImageAnnotation.FullBoxIsImage | ObjectDetection/ObjectDetection/Extension+Image.swift:18-20 | the unit square maps to the full image rect (0, 0, W, H) |
| ImageAnnotation.BoxTransform | ObjectDetection/ObjectDetection/Extension+Image.swift:18-20 | applying the scale and then the flip maps a point (x, y) to (W*x, H - H*y), and the concatenation of the two transforms is that map |
| ImageAnnotation.BoxTransformInverse | ObjectDetection/ObjectDetection/Extension+Image.swift:18-20 | for a positive image size, mapping a point back to normalized coordinates after the scale and the flip gives back the point |
| ImageAnnotation.PlacedBoxNormalizes | ObjectDetection/ObjectDetection/Extension+Image.swift:18-20 | on an image of positive size, dividing the closed-form stroked rect back by the image size and undoing the flip gives back the standard detector box |
| ImageAnnotation.BoxRectRoundTrip | ObjectDetection/ObjectDetection/Extension+Image.swift:18-20 | on an image of positive size, mapping the stroked rect back to normalized coordinates recovers the detector box, standardized |
| ImageAnnotation.CentredBoxExample | ObjectDetection/ObjectDetection/Extension+Image.swift:16-20 | the box (0.25, 0.25, 0.5, 0.5) on a 720 x 1280 frame is stroked at (180, 320, 360, 640) |
| ImageAnnotation.OffCentreBoxExample | ObjectDetection/ObjectDetection/Extension+Image.swift:16-20 | the box (0.1, 0.2, 0.3, 0.4) on 720 x 1280 scales to (72, 256, 216, 512) and is flipped to (72, 512, 216, 512) |
| ImageAnnotation.BorderRect | ObjectDetection/ObjectDetection/Extension+Image.swift:42 | no contract of its own; the border inset, specified by `BorderRectClosedForm` and `BorderStrokeReachesEdge` |
| ImageAnnotation.BorderRectClosedForm | ObjectDetection/ObjectDetection/Extension+Image.swift:38-42 | the border rect for line width w is (w/2, w/2, W - w, H - w) when w fits in both dimensions, and `CGRect.null` otherwise |
| ImageAnnotation.BorderStrokeReachesEdge | ObjectDetection/ObjectDetection/Extension+Image.swift:42-46 | growing the border rect by half the line width on each side gives back the image rect, so the stroke reaches the image edge exactly |
| RecordingLoop.ProcessObservations | ObjectDetection/ObjectDetection/ViewController.swift:153-159 | when the request ran, the stored prediction is exactly the selection of `first(where:)` (see `Trigger.SelectIsFirst`); a qualifying detection sets `startRecording`, any other verdict clears the prediction; `startRecording` is never cleared; with no request the struct is unchanged; the time stamp and `readDone` are untouched |
| RecordingLoop.Annotates | ObjectDetection/ObjectDetection/ViewController.swift:288 | no contract of its own; the `if let prediction …, let image …` test, specified by `DetectedFrameExtendsDeadline` and `UndetectedFrameKeepsDeadline` |
| RecordingLoop.HasBuffer | ObjectDetection/ObjectDetection/ViewController.swift:287-296 | no contract of its own; `cvPixelBuffer` being non-nil, specified by `FrameCallsObservers`, `DetectedFrameExtendsDeadline` and `BufferlessFrameWritesNothing` |
| RecordingLoop.Deadline | ObjectDetection/ObjectDetection/ViewController.swift:289 | no contract of its own; `debounceTime` after the frame, specified by `DetectedFrameExtendsDeadline`, `UndetectedFrameKeepsDeadline` and `OpenSessionWithinLimits` |
| RecordingLoop.EndsPass | ObjectDetection/ObjectDetection/ViewController.swift:294-301 | no contract of its own; the `finish` flag of a recorded frame, specified by `FrameEndsSessionIff` |
| RecordingLoop.Finish | ObjectDetection/ObjectDetection/ViewController.swift:308-326 | no contract of its own; `markAsFinished`, `finishWriting` and its completion, specified by `FinishObservers` and `FinishResetsSession` |
| RecordingLoop.RecordFrame | ObjectDetection/ObjectDetection/ViewController.swift:278-303 | no contract of its own; the body of the loop for a pulled sample, specified by `RecordFrameOutcome`, `FrameEndsSessionIff` and the per-frame lemmas below |
| RecordingLoop.Step | ObjectDetection/ObjectDetection/ViewController.swift:276-327 | no contract of its own; one turn of the loop, specified by `StepPreservesInv`, `FrameEndsSessionIff`, `EndOfStreamFinishes` and `NotReadyStalls` |
| RecordingLoop.FinishObservers | ObjectDetection/ObjectDetection/ViewController.swift:308-326 | a finish hands over exactly one segment, holding the session anchor and the open writer's frames, and appends nothing |
| RecordingLoop.FrameCallsObservers | ObjectDetection/ObjectDetection/ViewController.swift:283-298 | a recorded frame calls `startSession` at its own time iff no time stamp is set yet; it appends itself, annotated iff it has a prediction and an image, iff a buffer exists; it finishes nothing |
| RecordingLoop.RecordFrameOutcome | ObjectDetection/ObjectDetection/ViewController.swift:282-327 | during a session a pulled frame's writer calls come from that frame; it finishes a segment iff the `finish` flag is raised, and the next state is the recorded state or the state after the finish |
| RecordingLoop.StartSatisfiesInv | ObjectDetection/ObjectDetection/ViewController.swift:8-14 | the first pass starts idle and running, and satisfies the loop invariant |
| RecordingLoop.StepPreservesInv | ObjectDetection/ObjectDetection/ViewController.swift:276-327 | every turn keeps the invariant: a session is open iff its time stamp is set, the writer holds frames only during a session, and `readDone` holds iff the loop stopped for good |
| RecordingLoop.IdleFrameIsConsumed | ObjectDetection/ObjectDetection/ViewController.swift:278-282 | with no session open and no qualifying detection, a frame is consumed with no writer call, no session and no deadline change |
| RecordingLoop.DetectionOpensSession | ObjectDetection/ObjectDetection/ViewController.swift:282-286 | a qualifying detection with no session open first calls `startSession` at the frame's time, and anchors the session (and any segment it finishes) there |
| RecordingLoop.SessionStartsOnDetection | ObjectDetection/ObjectDetection/ViewController.swift:154-156 | `startSession` is called only on an idle running loop by a frame that carries a qualifying detection |
| RecordingLoop.FirstTimeStampIsKept | ObjectDetection/ObjectDetection/ViewController.swift:283-286 | later frames of a session never call `startSession` and never move its first time stamp; a finished segment is anchored there |
| RecordingLoop.UndetectedFrameKeepsDeadline | ObjectDetection/ObjectDetection/ViewController.swift:288-293 | during a session, a frame that has an image buffer but no prediction, or whose image could not be made, is appended raw and leaves the deadline unchanged |
| RecordingLoop.BufferlessFrameWritesNothing | ObjectDetection/ObjectDetection/ViewController.swift:287-301 | during a session, a sample without an image buffer appends nothing and keeps the deadline; it ends the session iff it is more than 10 s after the anchor or past the deadline |
| RecordingLoop.DetectedFrameExtendsDeadline | ObjectDetection/ObjectDetection/ViewController.swift:287-297 | during a session, a frame with a prediction and an image sets the deadline to its time plus 5 s, and is appended with that prediction unless the pixel buffer conversion failed; the prediction is this frame's selection when the request ran, and the one left over from an earlier frame when the request threw |
| RecordingLoop.FrameEndsSessionIff | ObjectDetection/ObjectDetection/ViewController.swift:294-301 | during a session a frame finishes the segment iff the append was made and refused, or the frame is more than 10 s after the anchor, or it set no new deadline and is past the standing one; the finish clears the session |
| RecordingLoop.OpenSessionWithinLimits | ObjectDetection/ObjectDetection/ViewController.swift:294-301 | after a turn that leaves a session open, the frame's time is within the deadline and at most 10 s after the anchor |
| RecordingLoop.BoundaryFrameContinues | ObjectDetection/ObjectDetection/ViewController.swift:299 | a frame exactly at the deadline and exactly 10 s after the anchor is written and does not end the session (both tests are strict) |
| RecordingLoop.LateFrameEnds | ObjectDetection/ObjectDetection/ViewController.swift:299-300 | a frame past the deadline without a fresh detection ends the session |
| RecordingLoop.OldFrameEnds | ObjectDetection/ObjectDetection/ViewController.swift:295-300 | a frame more than 10 s after the anchor ends the session, detection or not |
| RecordingLoop.UnannotatedOpeningFrameEndsAtOnce | ObjectDetection/ObjectDetection/ViewController.swift:275-299 | the pass-start deadline is the absolute 5 s: a session opened after 5 s by a frame without an image ends with that frame, and a new pass starts |
| RecordingLoop.EndOfStreamFinishes | ObjectDetection/ObjectDetection/ViewController.swift:304-307 | end of stream finishes the writer with the open session's frames (or an empty one), sets `readDone` and stops the loop |
| RecordingLoop.NotReadyStalls | ObjectDetection/ObjectDetection/ViewController.swift:276 | a writer input that is not ready stops the loop with no writer call and nothing else changed |
| RecordingLoop.FinishResetsSession | ObjectDetection/ObjectDetection/ViewController.swift:319-325 | after any finish the session fields are cleared; a new pass with the 5 s deadline is opened iff the reader is not exhausted |
| RecordingRun.Run | ObjectDetection/ObjectDetection/ViewController.swift:276-325 | no contract of its own; the turns of all passes over one reader output, specified by `RunConservesFrames`, `RunAppendsInReaderOrder` and `RunSegmentsWellFormed` |
| RecordingRun.Record | ObjectDetection/ObjectDetection/ViewController.swift:276-325 | no contract of its own; the segments a whole stream produces, specified by `RecordKeepsEveryAcceptedFrame`, `RecordIsWellFormed` and `TwoSessionStream` |
| RecordingRun.RunPreservesInv | ObjectDetection/ObjectDetection/ViewController.swift:276-327 | the loop invariant holds after any stream of turns |
| RecordingRun.StoppedRunIsInert | ObjectDetection/ObjectDetection/ViewController.swift:276 | once the loop has stopped, further turns change nothing and call nothing |
| RecordingRun.NotReadyStopsProcessing | ObjectDetection/ObjectDetection/ViewController.swift:276 | a not-ready writer stops processing for good: nothing of the rest of the stream is read, written or finished |
| RecordingRun.RunObservers | ObjectDetection/ObjectDetection/ViewController.swift:276-327 | the segments, appends and accepted frames of a run are those of its first turn followed by those of the rest |
| RecordingRun.StepAppends | ObjectDetection/ObjectDetection/ViewController.swift:278-298 | one turn appends nothing, or only the frame it pulled |
| RecordingRun.RunAppendsInReaderOrder | ObjectDetection/ObjectDetection/ViewController.swift:278-325 | across all passes the appended frames are a subsequence of the reader's frames: none is read twice or reordered |
| RecordingRun.NoFrameWrittenTwice | ObjectDetection/ObjectDetection/ViewController.swift:278-325 | with increasing reader time stamps, the appended times increase strictly and are no more than the reader's frames |
| RecordingRun.StepConservesFrames | ObjectDetection/ObjectDetection/ViewController.swift:296-320 | in one turn, the open writer's frames plus the frames accepted equal the frames of the finished segments followed by the writer's frames after the turn |
| RecordingRun.RunConservesFrames | ObjectDetection/ObjectDetection/ViewController.swift:296-325 | the same conservation over any stretch of turns: no accepted frame is lost or duplicated between segments |
| RecordingRun.PulledKeepsRunning | ObjectDetection/ObjectDetection/ViewController.swift:278-325 | a pulled sample never stops the loop: a finish it causes restarts a pass |
| RecordingRun.EndOfStreamClosesEverything | ObjectDetection/ObjectDetection/ViewController.swift:304-325 | if the writer stays ready until end of stream, the run ends exhausted with no writer open, and every accepted frame is in exactly one finished segment |
| RecordingRun.RecordKeepsEveryAcceptedFrame | ObjectDetection/ObjectDetection/ViewController.swift:304-325 | for a stream that ends normally, the recorded segments hold exactly the accepted frames, in order |
| RecordingRun.RecordedShape | ObjectDetection/ObjectDetection/ViewController.swift:283-297 | after a recorded frame the writer's frames increase, lie between the anchor and the frame, and all but the last are within 10 s of the anchor |
| RecordingRun.FrameKeepsShape | ObjectDetection/ObjectDetection/ViewController.swift:282-325 | a pulled frame keeps the open writer's frames increasing and within the age cap, and any segment it finishes is well formed |
| RecordingRun.StepKeepsShape | ObjectDetection/ObjectDetection/ViewController.swift:276-325 | every turn keeps the writer's shape and finishes only well-formed segments |
| RecordingRun.RunSegmentsWellFormed | ObjectDetection/ObjectDetection/ViewController.swift:276-325 | with increasing reader time stamps, every finished segment starts at its anchor, increases, and has all frames but the last within 10 s of the anchor |
| RecordingRun.RecordIsWellFormed | ObjectDetection/ObjectDetection/ViewController.swift:276-325 | every segment recorded from a stream with increasing time stamps is well formed |
| RecordingRun.RunSegmentsCons | ObjectDetection/ObjectDetection/ViewController.swift:276-325 | the segments of a run are those of its first turn followed by those of the rest |
| RecordingRun.HitOpensSession | ObjectDetection/ObjectDetection/ViewController.swift:282-290 | from an idle pass, a person frame opens a session anchored at its time, with deadline time + 5 and itself written |
| RecordingRun.HitExtendsSession | ObjectDetection/ObjectDetection/ViewController.swift:288-299 | within the age cap a person frame is written and pushes the deadline to its time + 5 |
| RecordingRun.LateMissEndsSession | ObjectDetection/ObjectDetection/ViewController.swift:292-325 | an empty frame past the deadline is written, ends the segment and opens a fresh pass |
| RecordingRun.IdleMiss | ObjectDetection/ObjectDetection/ViewController.swift:278-282 | an empty frame on an idle pass changes nothing |
| RecordingRun.EndClosesSession | ObjectDetection/ObjectDetection/ViewController.swift:304-307 | end of stream during a session hands over that session's segment and nothing after it |
| RecordingRun.FirstSession | ObjectDetection/ObjectDetection/ViewController.swift:276-325 | two person frames at most 10 s apart, then an empty frame past the deadline, give one segment of those three frames, after which a fresh pass runs |
| RecordingRun.SecondSession | ObjectDetection/ObjectDetection/ViewController.swift:276-325 | from a fresh pass, an empty frame is skipped and two person frames form a segment closed by end of stream |
| RecordingRun.TwoSessionStream | ObjectDetection/ObjectDetection/ViewController.swift:276-325 | two bursts of detections separated by a gap past the deadline record exactly two segments, the first including the late frame that ended it |

## Left out

- Vision and Core ML inference (`predict`, the request set-up) is not modelled. A frame carries the detector's verdict as an input: the results, absent results, a request that threw, or no image buffer at all.
- Reader and writer set-up and encoding are not modelled, including the writer configuration failure at the top of `operationRecording`. Readiness, end of stream and the outcome of `append` are event inputs.
- Saving to the photo album and removing files after `finishWriting` are not modelled. The outcome of a finished writer (publish or discard) is not distinguished: a `Finalize` call carries the segment either way.
- Dispatch queues and asynchronous completion are not modelled. The `finishWriting` completion (clearing the session and restarting) runs synchronously within the step that raised `finish`.
- The pixel conversions `sampleBufferToImage` and `imageToCVPixelBuffer` are not modelled; their outcome is a field of the sample. This includes the integer truncation of the image size inside them. A sample without an image buffer is its own case (`NoImageBuffer`): no inference, no image, nothing appended.
- Drawing is not modelled: pixels, colour spaces and the stroke itself. An image records the rectangles stroked on it, and the line width is a number.
- The preview UI is not modelled: `show`, the bounding-box views, random colours, the display layer and the letterbox arithmetic of the preview.
- Floating point is not modelled. `CMTime.seconds`, `CGFloat` and the `Float` confidence are exact reals, so the comparison with 0.9 is exact.
- Only the axis-aligned affine transforms the code builds are modelled: no rotation or shear. `CGRect.null` and infinite rects are never inputs.
- The constant `debounceTimeConstant` is a field of the `Recording` struct in the code. It is a module constant here, because it never changes.
