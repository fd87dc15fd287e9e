/**
 * Values shared by both generations of the frame writer: image sizes,
 * CMTime-style presentation times, progress records, what the external
 * writer does on one pass of a frame loop, and the events a run produces.
 */
module Media {
  import opened Wrappers
  import WriterErrors

  /** Swift's Int32, the type of the frame rate and of a CMTime timescale. */
  newtype int32 = x: int | -0x8000_0000 <= x < 0x8000_0000

  /** Dimensions of an image or a frame, in whole points, as `UIImage.size` gives them. */
  datatype Size = Size(width: nat, height: nat)

  /**
   * A source image: its size and whether it is backed by a bitmap
   * (`image.cgImage != nil`), which is all the core looks at.
   */
  datatype Image = Image(size: Size, hasBitmap: bool)

  /** A CMTime: `value` ticks of a clock with `timescale` ticks per second. */
  datatype Time = Time(value: int, timescale: int)

  /** A file URL, kept opaque. */
  datatype Url = Url(path: string)

  /** A Foundation `Progress`: completedUnitCount of totalUnitCount. */
  datatype Progress = Progress(completed: nat, total: nat)

  /** A pixel buffer as the adaptor receives it: base-address lock depth and drawn contents. */
  datatype BufferState = BufferState(lockCount: nat, contents: Option<Image>)

  /**
   * What the external writer answers during one pass of a frame loop:
   * `isReadyForMoreMediaData`, whether the adaptor has a buffer pool,
   * whether the pool call stored a buffer, the status code it returned,
   * whether a CGContext could be made over the buffer, and the result of
   * `adaptor.append`.
   */
  datatype WriterSignal = WriterSignal(
    ready: bool,
    poolPresent: bool,
    bufferPresent: bool,
    status: int,
    contextCreated: bool,
    appendAccepted: bool)

  /** The observable events of a run, in the order they happen. */
  datatype Event =
      /** `adaptor.append(buffer, withPresentationTime: time)` for a buffer filled from `image`. */
    | Submitted(image: Image, time: Time, buffer: BufferState, accepted: bool)
      /** A progress report (`videoProgress(progress:)` or the `progress` handler). */
    | ProgressReported(progress: Progress)
      /** `delegate.videoFailed(error:)`. */
    | Failed(error: WriterErrors.SpitfireError)
      /** `videoWriterInput.markAsFinished()`. */
    | MarkedAsFinished
      /** `videoWriter.finishWriting`. */
    | FinishedWriting
      /** `delegate.videoCompleted(url:)` or the `success` handler. */
    | Completed(url: Url)
  {
    /** The events that close a video: none may happen before the last frame. */
    predicate IsClosing() {
      MarkedAsFinished? || FinishedWriting? || Completed?
    }
  }

  /** CMTimeMake(value: v, timescale: s). */
  function MakeTime(value: int, timescale: int32): (t: Time)
    ensures t.timescale == timescale as int && t.value == value
    ensures timescale != 0 ==> Seconds(t) == value as real / timescale as real
  {
    Time(value, timescale as int)
  }

  /** CMTimeAdd of two times on the same clock (the only case the core uses). */
  function AddTimes(a: Time, b: Time): (t: Time)
    requires a.timescale == b.timescale
    ensures t.timescale == a.timescale
    ensures a.timescale != 0 ==> Seconds(t) == Seconds(a) + Seconds(b)
  {
    var c := a.timescale as real;
    assert c != 0.0 ==> (a.value as real + b.value as real) / c == a.value as real / c + b.value as real / c;
    Time(a.value + b.value, a.timescale)
  }

  /** The time of a time value in seconds. */
  ghost function Seconds(t: Time): real
    requires t.timescale != 0
  {
    t.value as real / t.timescale as real
  }

  /**
   * The presentation time both frame loops give frame number `frameCount`:
   * `CMTimeMake(frameCount, fps)` for the first frame, and that time plus
   * one frame duration for every later one.
   */
  function PresentationTime(frameCount: nat, fps: int32): (t: Time)
    ensures t.timescale == fps as int
    ensures t.value == if frameCount == 0 then 0 else frameCount + 1
  {
    var frameDuration := MakeTime(1, fps);
    var lastFrameTime := MakeTime(frameCount, fps);
    if frameCount == 0 then lastFrameTime else AddTimes(lastFrameTime, frameDuration)
  }

  /** Later frames get later presentation times, on the same clock. */
  lemma PresentationTimesIncrease(j: nat, k: nat, fps: int32)
    requires j < k
    ensures PresentationTime(j, fps).timescale == PresentationTime(k, fps).timescale
    ensures PresentationTime(j, fps).value < PresentationTime(k, fps).value
    ensures fps > 0 ==> Seconds(PresentationTime(j, fps)) < Seconds(PresentationTime(k, fps))
  {
    if fps > 0 {
      var a, b, c := PresentationTime(j, fps).value as real, PresentationTime(k, fps).value as real, fps as real;
      assert b / c - a / c == (b - a) / c;
    }
  }

  /**
   * The timeline as written has a one-frame gap after the first frame: frame 1
   * is two frame durations after frame 0, every later frame one duration
   * after its predecessor.
   */
  lemma PresentationTimeSpacing(k: nat, fps: int32)
    ensures PresentationTime(1, fps).value - PresentationTime(0, fps).value == 2
    ensures k >= 1 ==> PresentationTime(k + 1, fps).value - PresentationTime(k, fps).value == 1
  {
  }
}
