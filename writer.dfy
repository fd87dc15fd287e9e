/**
 * The delegate-based frame writer (Spitfire/Classes/Writer.swift): the
 * `append` check chain and the `writeFrames` loop. The external writer is a
 * finite sequence of signals; the loop consumes one per pass and stalls when
 * they run out while frames remain, where the real loop would spin on.
 */
module Writer {
  import opened Wrappers
  import opened Media
  import opened Traces
  import opened WriterErrors
  import opened Configuration
  import PixelBuffer

  /**
   * `append(pixelBufferAdaptor:with:at:delegate:)`: its Bool result and the
   * events it causes. No pool: false and nothing reported. Then, in this
   * order, a missing buffer, a non-zero status and a rejected append are
   * each reported once and give false; true exactly when the adaptor
   * accepted the filled buffer.
   */
  function AppendOutcome(signal: WriterSignal, image: Image, time: Time): (r: (bool, seq<Event>))
    ensures r.0 <==> signal.poolPresent && signal.bufferPresent && signal.status == 0 && signal.appendAccepted
    ensures !signal.poolPresent ==> r.1 == []
    ensures signal.poolPresent && !signal.bufferPresent ==> Failures(r.1) == [pixelBufferPointeeFailure]
    ensures signal.poolPresent && signal.bufferPresent && signal.status != 0 ==>
      Failures(r.1) == [invalidStatusCode(signal.status)]
    ensures signal.poolPresent && signal.bufferPresent && signal.status == 0 ==>
      Failures(r.1) == (if signal.appendAccepted then [] else [pixelBufferApendFailure])
    ensures Accepted(r.1) == (if r.0 then [(image, time)] else [])
    ensures Progresses(r.1) == [] && NoClosing(r.1)
    ensures imageDimensionsMatchFailure !in Failures(r.1)
    ensures signal.poolPresent && signal.bufferPresent && signal.status == 0 ==>
      r.1[0].Submitted? && r.1[0].image == image && r.1[0].time == time
    ensures signal.poolPresent && signal.bufferPresent && signal.status == 0 && !signal.appendAccepted ==>
      r.1[|r.1| - 1] == Failed(pixelBufferApendFailure)
  {
    if !signal.poolPresent then (false, [])
    else if !signal.bufferPresent then (false, [Failed(pixelBufferPointeeFailure)])
    else if signal.status != 0 then (false, [Failed(invalidStatusCode(signal.status))])
    else
      var submitted := [Submitted(image, time, PixelBuffer.Filled(PixelBuffer.Fresh, image, signal.contextCreated), signal.appendAccepted)];
      var rejected := [Failed(pixelBufferApendFailure)];
      ProgressesAppend(submitted, rejected);
      AcceptedAppend(submitted, rejected);
      FailuresAppend(submitted, rejected);
      ClosingsAppend(submitted, rejected);
      assert submitted[1..] == [] && rejected[1..] == [];
      if signal.appendAccepted then (true, submitted)
      else (false, submitted + rejected)
  }

  /** The `append` chain, step by step on a buffer taken from the pool. */
  method Append(signal: WriterSignal, image: Image, time: Time) returns (appended: bool, events: seq<Event>)
    ensures (appended, events) == AppendOutcome(signal, image, time)
  {
    appended, events := false, [];
    if signal.poolPresent {
      if !signal.bufferPresent {
        events := [Failed(pixelBufferPointeeFailure)];
        return;
      }
      if signal.status != 0 {
        events := [Failed(invalidStatusCode(signal.status))];
        return;
      }
      var buffer := new PixelBuffer.Buffer();
      buffer.Fill(image, signal.contextCreated);
      events := [Submitted(image, time, buffer.State(), signal.appendAccepted)];
      if signal.appendAccepted {
        appended := true;
        return;
      }
      events := events + [Failed(pixelBufferApendFailure)];
    }
  }

  /** Still in the loop, or left it by the `return` after a size mismatch. */
  datatype Phase = Looping | Returned

  /** The locals of `writeFrames` and what has been reported so far. */
  datatype LoopState = LoopState(frameCount: nat, progress: Progress, trace: seq<Event>, phase: Phase)

  /** Before the first pass: no frame appended, progress 0 of images.count, nothing reported. */
  function Start(images: seq<Image>): (s: LoopState)
    ensures s.frameCount == 0 && s.phase == Looping && s.trace == []
    ensures s.progress.total == |images| && s.progress.completed == s.frameCount
  {
    LoopState(0, Progress(0, |images|), [], Looping)
  }

  /**
   * One pass of the `writeFrames` loop. Not ready: nothing happens. A frame
   * whose size differs from the configured one is reported and ends the
   * loop. Otherwise the frame is appended at its presentation time, and only
   * a successful append advances the frame count and reports progress.
   */
  function Step(images: seq<Image>, vd: VideoData, s: LoopState, signal: WriterSignal): (t: LoopState)
    requires s.phase == Looping && s.frameCount < |images|
    ensures t.frameCount == s.frameCount || t.frameCount == s.frameCount + 1
    ensures !signal.ready ==> t == s
    ensures |s.trace| <= |t.trace| && t.trace[..|s.trace|] == s.trace
  {
    if !signal.ready then s
    else
      var time := PresentationTime(s.frameCount, vd.fps);
      var image := images[s.frameCount];
      if image.size != vd.size then
        s.(trace := s.trace + [Failed(imageDimensionsMatchFailure)], phase := Returned)
      else
        var (appended, events) := AppendOutcome(signal, image, time);
        if appended then
          var progress := s.progress.(completed := s.frameCount + 1);
          s.(frameCount := s.frameCount + 1, progress := progress,
             trace := s.trace + events + [ProgressReported(progress)])
        else
          s.(trace := s.trace + events)
  }

  /** The loop run on a finite supply of signals, one per pass. */
  function Drive(images: seq<Image>, vd: VideoData, s: LoopState, signals: seq<WriterSignal>): (t: LoopState)
    requires s.frameCount <= |images|
    ensures s.frameCount <= t.frameCount <= |images|
    ensures |s.trace| <= |t.trace| && t.trace[..|s.trace|] == s.trace
    decreases |signals|
  {
    if s.phase == Returned || s.frameCount == |images| || signals == [] then s
    else Drive(images, vd, Step(images, vd, s, signals[0]), signals[1..])
  }

  /** How `writeFrames` ends. */
  datatype WriteOutcome =
      /** Every frame appended; the input marked finished, the file finished, completion reported. */
    | VideoWritten
      /** Returned after reporting a size mismatch. */
    | Aborted
      /** The signals ran out with frames left: the real loop is still spinning. */
    | Stalled

  /** `writeFrames(images:videoData:delegate:)` on the given signals. */
  function WriteFramesResult(images: seq<Image>, vd: VideoData, signals: seq<WriterSignal>): (r: (WriteOutcome, LoopState))
    ensures r.0 == VideoWritten <==> r.1.frameCount == |images| && r.1.phase == Looping
  {
    var s := Drive(images, vd, Start(images), signals);
    if s.phase == Returned then (Aborted, s)
    else if s.frameCount == |images| then
      (VideoWritten, s.(trace := s.trace + [MarkedAsFinished, FinishedWriting, Completed(vd.url)]))
    else (Stalled, s)
  }

  /** `writeFrames` as the source runs it: a loop over the frame count. */
  method WriteFrames(images: seq<Image>, vd: VideoData, signals: seq<WriterSignal>) returns (outcome: WriteOutcome, s: LoopState)
    ensures (outcome, s) == WriteFramesResult(images, vd, signals)
  {
    var frameCount: nat := 0;
    var progress := Progress(0, |images|);
    var trace: seq<Event> := [];
    var i := 0;
    while frameCount < |images| && i < |signals|
      invariant 0 <= i <= |signals| && frameCount <= |images|
      invariant Drive(images, vd, Start(images), signals)
             == Drive(images, vd, LoopState(frameCount, progress, trace, Looping), signals[i..])
    {
      var signal := signals[i];
      ghost var before := LoopState(frameCount, progress, trace, Looping);
      ghost var after := Step(images, vd, before, signal);
      assert signals[i..][0] == signal && signals[i..][1..] == signals[i + 1..];
      assert Drive(images, vd, before, signals[i..]) == Drive(images, vd, after, signals[i + 1..]);
      i := i + 1;
      if signal.ready {
        var time := PresentationTime(frameCount, vd.fps);
        var image := images[frameCount];
        if image.size != vd.size {
          trace := trace + [Failed(imageDimensionsMatchFailure)];
          outcome, s := Aborted, LoopState(frameCount, progress, trace, Returned);
          assert s == after;
          return;
        }
        var appended, events := Append(signal, image, time);
        trace := trace + events;
        if appended {
          frameCount := frameCount + 1;
          progress := progress.(completed := frameCount);
          trace := trace + [ProgressReported(progress)];
        }
      }
      assert LoopState(frameCount, progress, trace, Looping) == after;
    }
    if frameCount < |images| {
      outcome, s := Stalled, LoopState(frameCount, progress, trace, Looping);
      return;
    }
    trace := trace + [MarkedAsFinished, FinishedWriting, Completed(vd.url)];
    outcome, s := VideoWritten, LoopState(frameCount, progress, trace, Looping);
  }

  /**
   * What holds of the loop's state after every pass: progress equals the
   * frame count out of the image count; the progress reports so far are
   * 1, 2, ..., frameCount; the accepted frames are the first frameCount
   * images at their presentation times, all of the configured size; nothing
   * has closed the video; and a size mismatch has been reported exactly
   * when the loop has returned, once, as the last event, for the image at
   * the frame count.
   */
  ghost predicate Inv(images: seq<Image>, vd: VideoData, s: LoopState) {
    && s.progress == Progress(s.frameCount, |images|)
    && Reported(images, vd.fps, s.frameCount, s.trace)
    && SizesMatch(images, vd.size, s.frameCount)
    && PhaseAgrees(images, vd, s)
  }

  /** The first `n` images all have the configured size. */
  ghost predicate SizesMatch(images: seq<Image>, size: Size, n: nat) {
    forall k :: 0 <= k < n <= |images| ==> images[k].size == size
  }

  /**
   * While looping no mismatch has been reported; once returned, the frame at the
   * count mismatched and its failure is the last event and the only mismatch.
   */
  ghost predicate PhaseAgrees(images: seq<Image>, vd: VideoData, s: LoopState) {
    && (s.phase == Looping ==> imageDimensionsMatchFailure !in Failures(s.trace))
    && (s.phase == Returned ==>
          && s.frameCount < |images| && images[s.frameCount].size != vd.size
          && |s.trace| > 0 && s.trace[|s.trace| - 1] == Failed(imageDimensionsMatchFailure)
          && imageDimensionsMatchFailure !in Failures(s.trace[..|s.trace| - 1]))
  }

  lemma StartInv(images: seq<Image>, vd: VideoData)
    ensures Inv(images, vd, Start(images))
  {
  }

  lemma MismatchKeepsInv(images: seq<Image>, vd: VideoData, s: LoopState, signal: WriterSignal)
    requires Inv(images, vd, s) && s.phase == Looping && s.frameCount < |images|
    requires signal.ready && images[s.frameCount].size != vd.size
    ensures Inv(images, vd, Step(images, vd, s, signal))
  {
    var mismatch := [Failed(imageDimensionsMatchFailure)];
    var t := Step(images, vd, s, signal);
    assert t.trace == s.trace + mismatch;
    assert t.trace[..|t.trace| - 1] == s.trace;
    ReportedRetry(images, vd.fps, s.frameCount, s.trace, mismatch);
  }

  lemma SizesMatchGrow(images: seq<Image>, size: Size, n: nat)
    requires SizesMatch(images, size, n) && n < |images| && images[n].size == size
    ensures SizesMatch(images, size, n + 1)
  {
  }

  lemma LoopingAgrees(images: seq<Image>, vd: VideoData, s: LoopState)
    requires s.phase == Looping && imageDimensionsMatchFailure !in Failures(s.trace)
    ensures PhaseAgrees(images, vd, s)
  {
  }

  /** The invariant survives appending `events` that hold the current frame and then a progress report. */
  lemma AdvanceKeepsInv(images: seq<Image>, vd: VideoData, s: LoopState, events: seq<Event>)
    requires Inv(images, vd, s) && s.phase == Looping && s.frameCount < |images|
    requires images[s.frameCount].size == vd.size
    requires Accepted(events) == [(images[s.frameCount], PresentationTime(s.frameCount, vd.fps))]
    requires Progresses(events) == [] && NoClosing(events) && imageDimensionsMatchFailure !in Failures(events)
    ensures var progress := Progress(s.frameCount + 1, |images|);
      Inv(images, vd, LoopState(s.frameCount + 1, progress, s.trace + events + [ProgressReported(progress)], Looping))
  {
    var progress := Progress(s.frameCount + 1, |images|);
    var report := [ProgressReported(progress)];
    var t := LoopState(s.frameCount + 1, progress, s.trace + events + report, Looping);
    ReportedAdvance(images, vd.fps, s.frameCount, s.trace, events);
    UnreportedAppend(imageDimensionsMatchFailure, s.trace, events);
    UnreportedAppend(imageDimensionsMatchFailure, s.trace + events, report);
    LoopingAgrees(images, vd, t);
    SizesMatchGrow(images, vd.size, s.frameCount);
  }

  /** The invariant survives appending `events` that hold no accepted frame. */
  lemma RetryKeepsInv(images: seq<Image>, vd: VideoData, s: LoopState, events: seq<Event>)
    requires Inv(images, vd, s) && s.phase == Looping
    requires Accepted(events) == [] && Progresses(events) == [] && NoClosing(events)
    requires imageDimensionsMatchFailure !in Failures(events)
    ensures Inv(images, vd, s.(trace := s.trace + events))
  {
    ReportedRetry(images, vd.fps, s.frameCount, s.trace, events);
    UnreportedAppend(imageDimensionsMatchFailure, s.trace, events);
  }

  lemma StepKeepsInv(images: seq<Image>, vd: VideoData, s: LoopState, signal: WriterSignal)
    requires Inv(images, vd, s) && s.phase == Looping && s.frameCount < |images|
    ensures Inv(images, vd, Step(images, vd, s, signal))
  {
    if signal.ready {
      if images[s.frameCount].size != vd.size {
        MismatchKeepsInv(images, vd, s, signal);
      } else {
        var r := AppendOutcome(signal, images[s.frameCount], PresentationTime(s.frameCount, vd.fps));
        if r.0 {
          var progress := Progress(s.frameCount + 1, |images|);
          assert Step(images, vd, s, signal) == LoopState(s.frameCount + 1, progress, s.trace + r.1 + [ProgressReported(progress)], Looping);
          AdvanceKeepsInv(images, vd, s, r.1);
        } else {
          assert Step(images, vd, s, signal) == s.(trace := s.trace + r.1);
          RetryKeepsInv(images, vd, s, r.1);
        }
      }
    }
  }

  lemma {:induction false} DriveKeepsInv(images: seq<Image>, vd: VideoData, s: LoopState, signals: seq<WriterSignal>)
    requires Inv(images, vd, s)
    ensures Inv(images, vd, Drive(images, vd, s, signals))
    decreases |signals|
  {
    if !(s.phase == Returned || s.frameCount == |images| || signals == []) {
      StepKeepsInv(images, vd, s, signals[0]);
      DriveKeepsInv(images, vd, Step(images, vd, s, signals[0]), signals[1..]);
    }
  }

  /**
   * Progress and frames, however `writeFrames` ends: the progress reports
   * are 1, 2, ..., frameCount out of the image count, the accepted frames
   * are the first frameCount images in array order at strictly increasing
   * presentation times, and all of them have the configured size. The last
   * report says completed == total exactly when the video is written.
   */
  lemma WriteFramesReportsProgress(images: seq<Image>, vd: VideoData, signals: seq<WriterSignal>)
    ensures var (outcome, s) := WriteFramesResult(images, vd, signals);
      && s.progress == Progress(s.frameCount, |images|)
      && Progresses(s.trace) == ProgressRun(s.frameCount, |images|)
      && Accepted(s.trace) == Schedule(images, vd.fps, s.frameCount)
      && (forall k :: 0 <= k < s.frameCount ==> images[k].size == vd.size)
      && (outcome == VideoWritten <==> s.frameCount == |images|)
  {
    var s := Drive(images, vd, Start(images), signals);
    StartInv(images, vd);
    DriveKeepsInv(images, vd, Start(images), signals);
    if s.phase == Looping && s.frameCount == |images| {
      var closing := [MarkedAsFinished, FinishedWriting, Completed(vd.url)];
      ClosingIsSilent(vd.url);
      ProgressesAppend(s.trace, closing);
      AcceptedAppend(s.trace, closing);
    }
  }

  /**
   * The video is closed once, at the very end, and only when every frame
   * was appended: the trace then ends with markAsFinished, finishWriting and
   * videoCompleted(url: videoData.url), these are its only closing events,
   * and no size mismatch was reported.
   */
  lemma WriteFramesCompletesLast(images: seq<Image>, vd: VideoData, signals: seq<WriterSignal>)
    ensures var (outcome, s) := WriteFramesResult(images, vd, signals);
      outcome == VideoWritten ==>
        && s.frameCount == |images|
        && |s.trace| >= 3
        && s.trace[|s.trace| - 3..] == [MarkedAsFinished, FinishedWriting, Completed(vd.url)]
        && NoClosing(s.trace[..|s.trace| - 3])
        && Closings(s.trace) == 3
        && imageDimensionsMatchFailure !in Failures(s.trace)
  {
    var s := Drive(images, vd, Start(images), signals);
    StartInv(images, vd);
    DriveKeepsInv(images, vd, Start(images), signals);
    if s.phase == Looping && s.frameCount == |images| {
      var closing := [MarkedAsFinished, FinishedWriting, Completed(vd.url)];
      var trace := s.trace + closing;
      assert trace[|trace| - 3..] == closing;
      assert trace[..|trace| - 3] == s.trace;
      ClosingIsSilent(vd.url);
      FailuresAppend(s.trace, closing);
      ClosingsAppend(s.trace, closing);
    }
  }

  /**
   * A frame of the wrong size ends the run: exactly one
   * imageDimensionsMatchFailure is reported, as the last event; nothing
   * closes the video; and the frame count is the number of frames appended
   * before it, the mismatching image being the next one.
   */
  lemma WriteFramesAbortsOnMismatch(images: seq<Image>, vd: VideoData, signals: seq<WriterSignal>)
    ensures var (outcome, s) := WriteFramesResult(images, vd, signals);
      outcome == Aborted ==>
        && s.frameCount == |Accepted(s.trace)| < |images|
        && images[s.frameCount].size != vd.size
        && NoClosing(s.trace)
        && |s.trace| > 0 && s.trace[|s.trace| - 1] == Failed(imageDimensionsMatchFailure)
        && imageDimensionsMatchFailure !in Failures(s.trace[..|s.trace| - 1])
  {
    StartInv(images, vd);
    DriveKeepsInv(images, vd, Start(images), signals);
  }

  /** A run that stalls has closed nothing and reported no mismatch; frames remain. */
  lemma WriteFramesStallsOpen(images: seq<Image>, vd: VideoData, signals: seq<WriterSignal>)
    ensures var (outcome, s) := WriteFramesResult(images, vd, signals);
      outcome == Stalled ==>
        s.frameCount < |images| && NoClosing(s.trace) && imageDimensionsMatchFailure !in Failures(s.trace)
  {
    StartInv(images, vd);
    DriveKeepsInv(images, vd, Start(images), signals);
  }

  /** A writer that is ready and accepts every buffer on this pass. */
  predicate Cooperates(signal: WriterSignal) {
    signal.ready && signal.poolPresent && signal.bufferPresent && signal.status == 0 && signal.appendAccepted
  }

  lemma {:induction false} DriveCooperating(images: seq<Image>, vd: VideoData, s: LoopState, signals: seq<WriterSignal>)
    requires s.phase == Looping && s.frameCount <= |images|
    requires forall k :: 0 <= k < |images| ==> images[k].size == vd.size
    requires |signals| >= |images| - s.frameCount
    requires forall i :: 0 <= i < |signals| ==> Cooperates(signals[i])
    ensures Drive(images, vd, s, signals).frameCount == |images|
    ensures Drive(images, vd, s, signals).phase == Looping
    decreases |signals|
  {
    if s.frameCount < |images| {
      var t := Step(images, vd, s, signals[0]);
      assert t.frameCount == s.frameCount + 1 && t.phase == Looping;
      DriveCooperating(images, vd, t, signals[1..]);
    }
  }

  /**
   * Images all of the configured size, and a writer that is ready and
   * accepts every buffer for at least as many passes as there are images:
   * the video is written.
   */
  lemma CooperatingWriterCompletes(images: seq<Image>, vd: VideoData, signals: seq<WriterSignal>)
    requires forall k :: 0 <= k < |images| ==> images[k].size == vd.size
    requires |signals| >= |images|
    requires forall i :: 0 <= i < |signals| ==> Cooperates(signals[i])
    ensures WriteFramesResult(images, vd, signals).0 == VideoWritten
  {
    DriveCooperating(images, vd, Start(images), signals);
  }

  /**
   * A ready pass on a frame of the right size appends images[frameCount]
   * at its presentation time; a failed append leaves the frame count where
   * it was, so the next ready pass retries the same image at the same time,
   * and a successful one advances it by one and reports it.
   */
  lemma ReadyStepAppendsCurrentFrame(images: seq<Image>, vd: VideoData, s: LoopState, signal: WriterSignal)
    requires s.phase == Looping && s.frameCount < |images|
    requires signal.ready && images[s.frameCount].size == vd.size
    ensures var t := Step(images, vd, s, signal);
      var (appended, events) := AppendOutcome(signal, images[s.frameCount], PresentationTime(s.frameCount, vd.fps));
      && t.phase == Looping
      && (appended ==>
            t.frameCount == s.frameCount + 1 &&
            t.trace == s.trace + events + [ProgressReported(Progress(s.frameCount + 1, s.progress.total))])
      && (!appended ==> t.frameCount == s.frameCount && t.progress == s.progress && t.trace == s.trace + events)
  {
  }
}
