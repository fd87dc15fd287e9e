/**
 * The first-generation entry point (Spitfire/Classes/Spitfire.swift):
 * `makeVideo`'s input validation, the frame loop inside its
 * `requestMediaDataWhenReady` closure, and the `Spitfire` object whose
 * `videoWriter` field `makeVideo` sets.
 */
module Spitfire {
  import opened Wrappers
  import opened Media
  import opened Traces
  import opened LegacyErrors
  import opened Configuration
  import PixelBuffer

  /** The frame rate `makeVideo` uses when the caller gives none. */
  const DefaultFps: int32 := 30

  const FramerateMessage := "Framerate must be between 1 and 60"
  const WidthMessage := "Image width must be divisble by 16"

  /** `outputURL`: the fixed file output.mov in the app's documents directory. */
  const OutputURL := Url("Documents/output.mov")

  /**
   * The guards at the top of `makeVideo`, in their order: a non-empty image
   * list, a frame rate in 1...60, then a first-image width that is a
   * multiple of 16. The first failing guard decides the error; on success
   * the first image's size is the frame size.
   */
  function Validate(images: seq<Image>, fps: int32): (r: Result<Size, SpitfireError>)
    ensures r == Failure(ImageArrayEmpty) <==> images == []
    ensures r == Failure(InvalidFramerate(FramerateMessage)) <==> images != [] && !(0 < fps <= 60)
    ensures r == Failure(ImageDimensionsMultiplierFailure(WidthMessage)) <==>
      images != [] && 0 < fps <= 60 && images[0].size.width % 16 != 0
    ensures r.Success? <==> images != [] && 0 < fps <= 60 && images[0].size.width % 16 == 0
    ensures r.Success? ==> r.value == images[0].size
  {
    if images == [] then Failure(ImageArrayEmpty)
    else
      var size := images[0].size;
      if !(fps > 0 && fps <= 60) then Failure(InvalidFramerate(FramerateMessage))
      else if size.width % 16 != 0 then Failure(ImageDimensionsMultiplierFailure(WidthMessage))
      else Success(size)
  }

  /** testInitEmptyArray: an empty image list is refused, whatever the frame rate. */
  lemma EmptyImageListIsRefused(fps: int32)
    ensures Validate([], fps) == Failure(ImageArrayEmpty)
  {
  }

  /** testFrameRateTooLow and testFrameRateTooHigh: 0 and 61 frames per second are refused. */
  lemma OutOfRangeFrameratesAreRefused(images: seq<Image>)
    requires images != []
    ensures Validate(images, 0) == Failure(InvalidFramerate(FramerateMessage))
    ensures Validate(images, 61) == Failure(InvalidFramerate(FramerateMessage))
  {
  }

  /**
   * testDivisbleBy16: the test's image is 1x1 in points at screen scale 1,
   * but 2 or 3 points wide on a 2x or 3x screen; any width that is not a
   * multiple of 16 is refused at the default frame rate.
   */
  lemma UnalignedWidthIsRefused(width: nat, height: nat, hasBitmap: bool)
    requires width % 16 != 0
    ensures Validate([Image(Size(width, height), hasBitmap)], DefaultFps)
         == Failure(ImageDimensionsMultiplierFailure(WidthMessage))
  {
  }

  /** The default frame rate passes the frame-rate guard. */
  lemma DefaultFramerateIsValid(images: seq<Image>)
    ensures !Validate(images, DefaultFps).Failure? || !Validate(images, DefaultFps).error.InvalidFramerate?
  {
  }

  /** The size guard inside the closure; what it throws is caught and discarded. */
  function CheckDimensions(image: Image, size: Size): (r: Option<SpitfireError>)
    ensures r == None <==> image.size == size
    ensures r != None ==> r == Some(ImageDimensionsMatchFailure)
  {
    if image.size == size then None else Some(ImageDimensionsMatchFailure)
  }

  /** The closure's captured `frameCount`, its `Progress` and what has happened so far. */
  datatype ClosureState = ClosureState(frameCount: nat, progress: Progress, trace: seq<Event>)

  /** Before the first pass: no frame appended, progress 0 of images.count, nothing reported. */
  function ClosureStart(images: seq<Image>): (s: ClosureState)
    ensures s.frameCount == 0 && s.trace == []
    ensures s.progress.total == |images| && s.progress.completed == s.frameCount
  {
    ClosureState(0, Progress(0, |images|), [])
  }

  /**
   * One pass of the closure's loop. Not ready: nothing happens. Otherwise
   * the frame is appended whatever its size (the size error is swallowed),
   * errors thrown by `append` are swallowed too, and only the `success`
   * closure advances the frame count and reports progress.
   */
  function ClosureStep(images: seq<Image>, fps: int32, s: ClosureState, signal: WriterSignal): (t: ClosureState)
    requires s.frameCount < |images|
    ensures t.frameCount == s.frameCount || t.frameCount == s.frameCount + 1
    ensures !signal.ready ==> t == s
    ensures |s.trace| <= |t.trace| && t.trace[..|s.trace|] == s.trace
  {
    if !signal.ready then s
    else
      var time := PresentationTime(s.frameCount, fps);
      var (result, submissions) := PixelBuffer.AppendOutcome(signal, images[s.frameCount], time);
      if result == PixelBuffer.Returned(true) then
        var progress := s.progress.(completed := s.frameCount + 1);
        ClosureState(s.frameCount + 1, progress, s.trace + submissions + [ProgressReported(progress)])
      else
        s.(trace := s.trace + submissions)
  }

  function ClosureDrive(images: seq<Image>, fps: int32, s: ClosureState, signals: seq<WriterSignal>): (t: ClosureState)
    requires s.frameCount <= |images|
    ensures s.frameCount <= t.frameCount <= |images|
    ensures |s.trace| <= |t.trace| && t.trace[..|s.trace|] == s.trace
    decreases |signals|
  {
    if s.frameCount == |images| || signals == [] then s
    else ClosureDrive(images, fps, ClosureStep(images, fps, s, signals[0]), signals[1..])
  }

  /** How the closure ends: all frames appended and `success` called, or still spinning. */
  datatype ClosureOutcome = Succeeded | Spinning

  /** The closure passed to `requestMediaDataWhenReady`, on the given signals. */
  function ClosureResult(images: seq<Image>, fps: int32, signals: seq<WriterSignal>): (r: (ClosureOutcome, ClosureState))
    ensures r.0 == Succeeded <==> r.1.frameCount == |images|
  {
    var s := ClosureDrive(images, fps, ClosureStart(images), signals);
    if s.frameCount == |images| then
      (Succeeded, s.(trace := s.trace + [MarkedAsFinished, FinishedWriting, Completed(OutputURL)]))
    else (Spinning, s)
  }

  /** One pass of the closure's loop: nothing happens unless the input is ready for more data. */
  method ClosurePass(images: seq<Image>, size: Size, fps: int32, s: ClosureState, signal: WriterSignal) returns (t: ClosureState)
    requires s.frameCount < |images|
    ensures t == ClosureStep(images, fps, s, signal)
  {
    t := s;
    if signal.ready {
      var time := PresentationTime(s.frameCount, fps);
      var image := images[s.frameCount];
      var discarded := CheckDimensions(image, size);
      var result, submissions := PixelBuffer.Append(signal, image, time);
      t := t.(trace := t.trace + submissions);
      if result == PixelBuffer.Returned(true) {
        var progress := t.progress.(completed := t.frameCount + 1);
        t := ClosureState(t.frameCount + 1, progress, t.trace + [ProgressReported(progress)]);
      }
    }
  }

  /** The closure's loop as the source runs it: a loop over the captured frame count. */
  method RunClosure(images: seq<Image>, size: Size, fps: int32, signals: seq<WriterSignal>) returns (outcome: ClosureOutcome, s: ClosureState)
    ensures (outcome, s) == ClosureResult(images, fps, signals)
  {
    s := ClosureStart(images);
    var i := 0;
    while s.frameCount < |images| && i < |signals|
      invariant 0 <= i <= |signals| && s.frameCount <= |images|
      invariant ClosureDrive(images, fps, ClosureStart(images), signals) == ClosureDrive(images, fps, s, signals[i..])
    {
      assert signals[i..][0] == signals[i] && signals[i..][1..] == signals[i + 1..];
      s := ClosurePass(images, size, fps, s, signals[i]);
      i := i + 1;
    }
    if s.frameCount < |images| {
      outcome := Spinning;
      return;
    }
    s := s.(trace := s.trace + [MarkedAsFinished, FinishedWriting, Completed(OutputURL)]);
    outcome := Succeeded;
  }

  /**
   * What holds after every pass of the closure's loop: progress is the frame
   * count out of the image count, the progress reports are 1, ...,
   * frameCount, the accepted frames are the first frameCount images at their
   * presentation times, nothing has closed the video and no error has been
   * reported anywhere.
   */
  ghost predicate ClosureInv(images: seq<Image>, fps: int32, s: ClosureState) {
    && s.progress == Progress(s.frameCount, |images|)
    && Reported(images, fps, s.frameCount, s.trace)
    && Failures(s.trace) == []
  }

  lemma ClosureAdvanceKeepsInv(images: seq<Image>, fps: int32, s: ClosureState, events: seq<Event>)
    requires ClosureInv(images, fps, s) && s.frameCount < |images|
    requires Accepted(events) == [(images[s.frameCount], PresentationTime(s.frameCount, fps))]
    requires Progresses(events) == [] && NoClosing(events) && Failures(events) == []
    ensures var progress := Progress(s.frameCount + 1, |images|);
      ClosureInv(images, fps, ClosureState(s.frameCount + 1, progress, s.trace + events + [ProgressReported(progress)]))
  {
    var report := [ProgressReported(Progress(s.frameCount + 1, |images|))];
    ReportedAdvance(images, fps, s.frameCount, s.trace, events);
    FailuresAppend(s.trace, events);
    FailuresAppend(s.trace + events, report);
  }

  lemma ClosureRetryKeepsInv(images: seq<Image>, fps: int32, s: ClosureState, events: seq<Event>)
    requires ClosureInv(images, fps, s)
    requires Accepted(events) == [] && Progresses(events) == [] && NoClosing(events) && Failures(events) == []
    ensures ClosureInv(images, fps, s.(trace := s.trace + events))
  {
    ReportedRetry(images, fps, s.frameCount, s.trace, events);
    FailuresAppend(s.trace, events);
  }

  lemma ClosureStepKeepsInv(images: seq<Image>, fps: int32, s: ClosureState, signal: WriterSignal)
    requires ClosureInv(images, fps, s) && s.frameCount < |images|
    ensures ClosureInv(images, fps, ClosureStep(images, fps, s, signal))
  {
    if signal.ready {
      var r := PixelBuffer.AppendOutcome(signal, images[s.frameCount], PresentationTime(s.frameCount, fps));
      if r.0 == PixelBuffer.Returned(true) {
        var progress := Progress(s.frameCount + 1, |images|);
        assert ClosureStep(images, fps, s, signal) == ClosureState(s.frameCount + 1, progress, s.trace + r.1 + [ProgressReported(progress)]);
        ClosureAdvanceKeepsInv(images, fps, s, r.1);
      } else {
        assert ClosureStep(images, fps, s, signal) == s.(trace := s.trace + r.1);
        ClosureRetryKeepsInv(images, fps, s, r.1);
      }
    }
  }

  lemma {:induction false} ClosureDriveKeepsInv(images: seq<Image>, fps: int32, s: ClosureState, signals: seq<WriterSignal>)
    requires ClosureInv(images, fps, s)
    ensures ClosureInv(images, fps, ClosureDrive(images, fps, s, signals))
    decreases |signals|
  {
    if !(s.frameCount == |images| || signals == []) {
      ClosureStepKeepsInv(images, fps, s, signals[0]);
      ClosureDriveKeepsInv(images, fps, ClosureStep(images, fps, s, signals[0]), signals[1..]);
    }
  }

  /**
   * However the closure ends: the progress reports are 1, 2, ..., frameCount
   * out of the image count, the accepted frames are the first frameCount
   * images in array order at their presentation times, and no error is
   * reported. `success` is called once, last, with output.mov, after
   * markAsFinished and finishWriting, and only when every image was
   * appended; otherwise nothing closes the video.
   */
  lemma ClosureGuarantees(images: seq<Image>, fps: int32, signals: seq<WriterSignal>)
    ensures var (outcome, s) := ClosureResult(images, fps, signals);
      && s.progress == Progress(s.frameCount, |images|)
      && Progresses(s.trace) == ProgressRun(s.frameCount, |images|)
      && Accepted(s.trace) == Schedule(images, fps, s.frameCount)
      && Failures(s.trace) == []
      && (outcome == Succeeded ==>
            && |s.trace| >= 3
            && s.trace[|s.trace| - 3..] == [MarkedAsFinished, FinishedWriting, Completed(OutputURL)]
            && NoClosing(s.trace[..|s.trace| - 3])
            && Closings(s.trace) == 3)
      && (outcome == Spinning ==> s.frameCount < |images| && NoClosing(s.trace))
  {
    var s := ClosureDrive(images, fps, ClosureStart(images), signals);
    assert ClosureInv(images, fps, ClosureStart(images));
    ClosureDriveKeepsInv(images, fps, ClosureStart(images), signals);
    if s.frameCount == |images| {
      var closing := [MarkedAsFinished, FinishedWriting, Completed(OutputURL)];
      var trace := s.trace + closing;
      ClosingIsSilent(OutputURL);
      ProgressesAppend(s.trace, closing);
      AcceptedAppend(s.trace, closing);
      FailuresAppend(s.trace, closing);
      ClosingsAppend(s.trace, closing);
      assert trace[|trace| - 3..] == closing;
      assert trace[..|trace| - 3] == s.trace;
    }
  }

  /**
   * A frame whose size differs from the first image's is still appended:
   * the closure swallows the size error, and a cooperating writer accepts
   * the frame, which advances the count and is reported.
   */
  lemma MismatchedFrameIsAppended(images: seq<Image>, size: Size, fps: int32, s: ClosureState, signal: WriterSignal)
    requires s.frameCount < |images|
    requires CheckDimensions(images[s.frameCount], size) == Some(ImageDimensionsMatchFailure)
    requires signal.ready && signal.poolPresent && signal.bufferPresent && signal.status == 0 && signal.appendAccepted
    ensures var t := ClosureStep(images, fps, s, signal);
      && t.frameCount == s.frameCount + 1
      && Accepted(t.trace) == Accepted(s.trace) + [(images[s.frameCount], PresentationTime(s.frameCount, fps))]
  {
    var r := PixelBuffer.AppendOutcome(signal, images[s.frameCount], PresentationTime(s.frameCount, fps));
    var progress := s.progress.(completed := s.frameCount + 1);
    var report := [ProgressReported(progress)];
    AcceptedAppend(s.trace, r.1);
    AcceptedAppend(s.trace + r.1, report);
  }

  /**
   * An error thrown by `append` is swallowed: the frame count and progress
   * stay, so the next ready pass retries the same image at the same time.
   */
  lemma ThrownAppendIsSwallowed(images: seq<Image>, fps: int32, s: ClosureState, signal: WriterSignal)
    requires s.frameCount < |images| && signal.ready
    requires PixelBuffer.AppendOutcome(signal, images[s.frameCount], PresentationTime(s.frameCount, fps)).0.Threw?
    ensures var t := ClosureStep(images, fps, s, signal);
      t.frameCount == s.frameCount && t.progress == s.progress && Progresses(t.trace) == Progresses(s.trace)
  {
    var r := PixelBuffer.AppendOutcome(signal, images[s.frameCount], PresentationTime(s.frameCount, fps));
    ProgressesAppend(s.trace, r.1);
  }

  /** AVFileTypeQuickTimeMovie. */
  datatype FileType = QuickTimeMovie

  /** An AVAssetWriterInput with its output settings, and its pixel buffer adaptor's attributes. */
  datatype WriterInput = WriterInput(outputSettings: map<string, Setting>, sourceBufferAttributes: map<string, Setting>)

  /** An AVAssetWriter: destination, file type and the inputs added to it. */
  datatype AssetWriter = AssetWriter(url: Url, fileType: FileType, inputs: seq<WriterInput>)

  /** What `makeVideo` throws: its own errors, or the AVAssetWriter initializer's. */
  datatype MakeVideoError = Threw(error: SpitfireError) | AssetWriterInitFailed

  /**
   * What AVFoundation does during `makeVideo`: whether the AVAssetWriter
   * initializer succeeds, whether `startWriting()` returns true, and how
   * the writer answers on each pass of the frame loop.
   */
  datatype Environment = Environment(writerOpens: bool, startsWriting: bool, signals: seq<WriterSignal>)

  class Spitfire {
    var videoWriter: Option<AssetWriter>

    constructor ()
      ensures videoWriter == None
    {
      videoWriter := None;
    }

    /**
     * `makeVideo(with:fps:progress:success:)`. A failed guard throws before
     * anything else happens: no writer is made, neither handler is ever
     * called. A writer that cannot be made throws its error and leaves the
     * field as it was. Otherwise the field holds a QuickTime writer on
     * output.mov with one H.264 input at the first image's size; if
     * `startWriting()` fails, nothing more happens, and if it succeeds the
     * closure runs. The returned events are what the run then does, the
     * handler calls among them.
     */
    method MakeVideo(env: Environment, images: seq<Image>, fps: int32 := DefaultFps)
      returns (thrown: Option<MakeVideoError>, events: seq<Event>)
      modifies this
      ensures Validate(images, fps).Failure? ==>
        thrown == Some(Threw(Validate(images, fps).error)) && events == [] && videoWriter == old(videoWriter)
      ensures Validate(images, fps).Success? && !env.writerOpens ==>
        thrown == Some(AssetWriterInitFailed) && events == [] && videoWriter == old(videoWriter)
      ensures Validate(images, fps).Success? && env.writerOpens ==>
        var config := VideoData(fps, images[0].size, OutputURL);
        && thrown == None
        && videoWriter == Some(AssetWriter(OutputURL, QuickTimeMovie,
                                           [WriterInput(config.VideoSettings(), config.SourceBufferAttributes())]))
        && events == (if env.startsWriting then ClosureResult(images, fps, env.signals).1.trace else [])
    {
      var validated := Validate(images, fps);
      if validated.Failure? {
        return Some(Threw(validated.error)), [];
      }
      var size := validated.value;
      if !env.writerOpens {
        return Some(AssetWriterInitFailed), [];
      }
      videoWriter := Some(AssetWriter(OutputURL, QuickTimeMovie, []));
      var config := VideoData(fps, size, OutputURL);
      var input := WriterInput(config.VideoSettings(), config.SourceBufferAttributes());
      videoWriter := Some(videoWriter.value.(inputs := videoWriter.value.inputs + [input]));
      assert videoWriter.value.inputs == [input];
      thrown, events := None, [];
      if env.startsWriting {
        var outcome, s := RunClosure(images, size, fps, env.signals);
        events := s.trace;
      }
    }
  }
}
