/**
 * How the delegate-based writer (Writer.swift) relates to the first
 * generation (Spitfire.swift, PixelBuffer.swift): the same check chain and
 * the same loop, except that the newer one reports what the older one
 * throws and swallows, and stops at a frame of the wrong size.
 */
module Generations {
  import opened Media
  import opened Traces
  import opened Configuration
  import LegacyErrors
  import WriterErrors
  import PixelBuffer
  import Writer
  import Spitfire

  /** The renaming of the error enum between the two generations. */
  function Modernize(e: LegacyErrors.SpitfireError): (r: WriterErrors.SpitfireError)
    ensures Legacy(r) == e
  {
    match e
    case ImageArrayEmpty => WriterErrors.imageArrayEmpty
    case InvalidFramerate(m) => WriterErrors.invalidFramerate(m)
    case ImageDimensionsMatchFailure => WriterErrors.imageDimensionsMatchFailure
    case ImageDimensionsMultiplierFailure(m) => WriterErrors.imageDimensionsMultiplierFailure(m)
    case VideoWriterFailure => WriterErrors.videoWriterFailure
    case PixelBufferPointeeFailure => WriterErrors.pixelBufferPointeeFailure
    case InvalidStatusCode(c) => WriterErrors.invalidStatusCode(c)
    case PixelBufferApendFailure => WriterErrors.pixelBufferApendFailure
  }

  function Legacy(e: WriterErrors.SpitfireError): LegacyErrors.SpitfireError {
    match e
    case imageArrayEmpty => LegacyErrors.ImageArrayEmpty
    case invalidFramerate(m) => LegacyErrors.InvalidFramerate(m)
    case imageDimensionsMatchFailure => LegacyErrors.ImageDimensionsMatchFailure
    case imageDimensionsMultiplierFailure(m) => LegacyErrors.ImageDimensionsMultiplierFailure(m)
    case videoWriterFailure => LegacyErrors.VideoWriterFailure
    case pixelBufferPointeeFailure => LegacyErrors.PixelBufferPointeeFailure
    case invalidStatusCode(c) => LegacyErrors.InvalidStatusCode(c)
    case pixelBufferApendFailure => LegacyErrors.PixelBufferApendFailure
  }

  /** The two enums have the same cases: the renaming is a bijection. */
  lemma RenamingIsBijective(e: LegacyErrors.SpitfireError, f: WriterErrors.SpitfireError)
    ensures Legacy(Modernize(e)) == e
    ensures Modernize(Legacy(f)) == f
  {
  }

  /**
   * The two `append` chains decide alike: the delegate version returns true
   * exactly when the throwing one calls `success`, the adaptor receives the
   * same buffers, and the delegate version reports exactly the error the
   * throwing one throws (nothing when it returns).
   */
  lemma AppendGenerationsAgree(signal: WriterSignal, image: Image, time: Time)
    ensures var (appended, events) := Writer.AppendOutcome(signal, image, time);
      var (result, submissions) := PixelBuffer.AppendOutcome(signal, image, time);
      && (appended <==> result == PixelBuffer.Returned(true))
      && WithoutFailures(events) == submissions
      && Failures(events) == (if result.Threw? then [Modernize(result.error)] else [])
  {
    if signal.poolPresent && signal.bufferPresent && signal.status == 0 {
      SubmittingAppendsAgree(signal, image, time);
    }
  }

  /** The case in which both chains reach the adaptor. */
  lemma SubmittingAppendsAgree(signal: WriterSignal, image: Image, time: Time)
    requires signal.poolPresent && signal.bufferPresent && signal.status == 0
    ensures WithoutFailures(Writer.AppendOutcome(signal, image, time).1) == PixelBuffer.AppendOutcome(signal, image, time).1
  {
    var submitted := [Submitted(image, time, PixelBuffer.Filled(PixelBuffer.Fresh, image, signal.contextCreated), signal.appendAccepted)];
    var rejected := [Failed(WriterErrors.pixelBufferApendFailure)];
    assert submitted[1..] == [] && rejected[1..] == [];
    assert WithoutFailures(submitted) == submitted;
    assert WithoutFailures(rejected) == [];
    WithoutFailuresAppend(submitted, rejected);
  }

  /** The writer's loop and the closure's loop are in step. */
  ghost predicate InStep(w: Writer.LoopState, c: Spitfire.ClosureState) {
    && w.phase == Writer.Looping
    && w.frameCount == c.frameCount
    && w.progress == c.progress
    && WithoutFailures(w.trace) == c.trace
  }

  lemma AdvanceInStep(w: Writer.LoopState, c: Spitfire.ClosureState, events: seq<Event>, submissions: seq<Event>, p: Progress)
    requires InStep(w, c) && WithoutFailures(events) == submissions
    ensures InStep(w.(frameCount := w.frameCount + 1, progress := p, trace := w.trace + events + [ProgressReported(p)]),
                   Spitfire.ClosureState(c.frameCount + 1, p, c.trace + submissions + [ProgressReported(p)]))
  {
    WithoutFailuresAppend(w.trace, events);
    WithoutFailuresAppend(w.trace + events, [ProgressReported(p)]);
  }

  lemma RetryInStep(w: Writer.LoopState, c: Spitfire.ClosureState, events: seq<Event>, submissions: seq<Event>)
    requires InStep(w, c) && WithoutFailures(events) == submissions
    ensures InStep(w.(trace := w.trace + events), c.(trace := c.trace + submissions))
  {
    WithoutFailuresAppend(w.trace, events);
  }

  lemma StepsAgree(images: seq<Image>, vd: VideoData, w: Writer.LoopState, c: Spitfire.ClosureState, signal: WriterSignal)
    requires InStep(w, c) && w.frameCount < |images| && images[w.frameCount].size == vd.size
    ensures InStep(Writer.Step(images, vd, w, signal), Spitfire.ClosureStep(images, vd.fps, c, signal))
  {
    if signal.ready {
      var time := PresentationTime(w.frameCount, vd.fps);
      if Writer.AppendOutcome(signal, images[w.frameCount], time).0 {
        AcceptingStepsAgree(images, vd, w, c, signal);
      } else {
        RejectingStepsAgree(images, vd, w, c, signal);
      }
    }
  }

  lemma AcceptingStepsAgree(images: seq<Image>, vd: VideoData, w: Writer.LoopState, c: Spitfire.ClosureState, signal: WriterSignal)
    requires InStep(w, c) && w.frameCount < |images| && images[w.frameCount].size == vd.size && signal.ready
    requires Writer.AppendOutcome(signal, images[w.frameCount], PresentationTime(w.frameCount, vd.fps)).0
    ensures InStep(Writer.Step(images, vd, w, signal), Spitfire.ClosureStep(images, vd.fps, c, signal))
  {
    var time := PresentationTime(w.frameCount, vd.fps);
    var wr := Writer.AppendOutcome(signal, images[w.frameCount], time);
    var cr := PixelBuffer.AppendOutcome(signal, images[w.frameCount], time);
    AppendGenerationsAgree(signal, images[w.frameCount], time);
    var p := w.progress.(completed := w.frameCount + 1);
    assert Writer.Step(images, vd, w, signal) == w.(frameCount := w.frameCount + 1, progress := p, trace := w.trace + wr.1 + [ProgressReported(p)]);
    assert Spitfire.ClosureStep(images, vd.fps, c, signal) == Spitfire.ClosureState(c.frameCount + 1, p, c.trace + cr.1 + [ProgressReported(p)]);
    AdvanceInStep(w, c, wr.1, cr.1, p);
  }

  lemma RejectingStepsAgree(images: seq<Image>, vd: VideoData, w: Writer.LoopState, c: Spitfire.ClosureState, signal: WriterSignal)
    requires InStep(w, c) && w.frameCount < |images| && images[w.frameCount].size == vd.size && signal.ready
    requires !Writer.AppendOutcome(signal, images[w.frameCount], PresentationTime(w.frameCount, vd.fps)).0
    ensures InStep(Writer.Step(images, vd, w, signal), Spitfire.ClosureStep(images, vd.fps, c, signal))
  {
    var time := PresentationTime(w.frameCount, vd.fps);
    var wr := Writer.AppendOutcome(signal, images[w.frameCount], time);
    var cr := PixelBuffer.AppendOutcome(signal, images[w.frameCount], time);
    AppendGenerationsAgree(signal, images[w.frameCount], time);
    assert Writer.Step(images, vd, w, signal) == w.(trace := w.trace + wr.1);
    assert Spitfire.ClosureStep(images, vd.fps, c, signal) == c.(trace := c.trace + cr.1);
    RetryInStep(w, c, wr.1, cr.1);
  }

  lemma {:induction false} DrivesAgree(images: seq<Image>, vd: VideoData, w: Writer.LoopState, c: Spitfire.ClosureState, signals: seq<WriterSignal>)
    requires InStep(w, c) && w.frameCount <= |images|
    requires forall k :: 0 <= k < |images| ==> images[k].size == vd.size
    ensures InStep(Writer.Drive(images, vd, w, signals), Spitfire.ClosureDrive(images, vd.fps, c, signals))
    decreases |signals|
  {
    if w.frameCount < |images| && signals != [] {
      StepsAgree(images, vd, w, c, signals[0]);
      DrivesAgree(images, vd, Writer.Step(images, vd, w, signals[0]), Spitfire.ClosureStep(images, vd.fps, c, signals[0]), signals[1..]);
    }
  }

  /**
   * When every image has the configured size and the configured URL is
   * output.mov, the two generations behave alike on every writer: the
   * newer one never aborts, finishes exactly when the older one calls
   * `success`, and does the same things in the same order, except for the
   * errors it reports where the older one swallows them.
   */
  lemma GenerationsAgreeOnUniformImages(images: seq<Image>, vd: VideoData, signals: seq<WriterSignal>)
    requires forall k :: 0 <= k < |images| ==> images[k].size == vd.size
    requires vd.url == Spitfire.OutputURL
    ensures var (written, w) := Writer.WriteFramesResult(images, vd, signals);
      var (closed, c) := Spitfire.ClosureResult(images, vd.fps, signals);
      && written != Writer.Aborted
      && (written == Writer.VideoWritten <==> closed == Spitfire.Succeeded)
      && w.frameCount == c.frameCount
      && WithoutFailures(w.trace) == c.trace
  {
    var w := Writer.Drive(images, vd, Writer.Start(images), signals);
    var c := Spitfire.ClosureDrive(images, vd.fps, Spitfire.ClosureStart(images), signals);
    DrivesAgree(images, vd, Writer.Start(images), Spitfire.ClosureStart(images), signals);
    if w.frameCount == |images| {
      var closing := [MarkedAsFinished, FinishedWriting, Completed(vd.url)];
      ClosingIsSilent(vd.url);
      WithoutFailuresAppend(w.trace, closing);
    }
  }

  /**
   * Where the generations part: on a frame of the wrong size and a writer
   * that would accept it, the newer loop reports imageDimensionsMatchFailure
   * and returns, while the older one appends the frame and moves on.
   */
  lemma MismatchSeparatesGenerations(images: seq<Image>, vd: VideoData, w: Writer.LoopState, c: Spitfire.ClosureState, signal: WriterSignal)
    requires InStep(w, c) && w.frameCount < |images| && images[w.frameCount].size != vd.size
    requires Writer.Cooperates(signal)
    ensures var w' := Writer.Step(images, vd, w, signal);
      && w'.phase == Writer.Returned
      && w'.frameCount == w.frameCount
      && w'.trace == w.trace + [Failed(WriterErrors.imageDimensionsMatchFailure)]
    ensures Spitfire.ClosureStep(images, vd.fps, c, signal).frameCount == c.frameCount + 1
  {
  }
}
