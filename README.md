# Spitfire, modelled in Dafny

Spitfire turns a list of images into a QuickTime video. The repository holds two generations of the same engine.

- **The first generation** is `Spitfire.makeVideo(with:fps:progress:success:)` in Spitfire/Classes/Spitfire.swift, together with the throwing pixel-buffer `append` in Spitfire/Classes/PixelBuffer.swift. `makeVideo` validates its inputs and creates an `AVAssetWriter`, which it stores in the object's `videoWriter` field. It then runs a frame loop inside a `requestMediaDataWhenReady` closure. That loop swallows every error and calls the `progress` and `success` handlers.
- **The second generation** is the delegate-based `Writer` in Spitfire/Classes/Writer.swift, which takes a `VideoData` record (Spitfire/Classes/VideoData.swift). Its `writeFrames` loop reports progress, failures and completion to a `SpitfireDelegate`. It stops at the first frame of the wrong size.

This project models both generations.

- The input guards, both frame loops, both `append` check chains and `fill` are modelled. `fill` covers both locking its buffer and unlocking it again.
- The configuration record, its two derived settings dictionaries and both error enums are modelled.
- The AVFoundation, CoreVideo, CoreMedia and Core Graphics calls fall into five groups:
  - Computed by the model: `CMTimeMake` and `CMTimeAdd` are `Media.MakeTime` and `Media.AddTimes`. `CVPixelBufferLockBaseAddress`, `CVPixelBufferUnlockBaseAddress` and `context.draw` are the methods `LockBaseAddress`, `UnlockBaseAddress` and `Draw` of `PixelBuffer.Buffer`.
  - Values built by `Spitfire.MakeVideo`: the `AVAssetWriterInput` and adaptor initializers and `videoWriter.add` become the `WriterInput` held in `AssetWriter.inputs`.
  - Recorded as events: `markAsFinished` and `finishWriting`.
  - Dropped: `startSession`, `CVPixelBufferGetBaseAddress` and `CVPixelBufferGetBytesPerRow`.
  - Oracle answers: the `AVAssetWriter` initializer and `startWriting` answer through `Spitfire.Environment`. `isReadyForMoreMediaData`, the pool, `CVPixelBufferPoolCreatePixelBuffer`, the `CGContext` initializer and `adaptor.append` answer through `Media.WriterSignal`.
- On each pass of a frame loop, the external writer is one `Media.WriterSignal`, which answers six questions:
  - whether the input is ready for more data;
  - whether the adaptor has a buffer pool;
  - whether the pool stored a buffer;
  - the status code it returned;
  - whether a bitmap context could be made over the buffer;
  - whether the adaptor accepted the buffer.
- A run consumes a finite sequence of signals, one per pass.
- Everything the run does that can be observed, with a delegate set, is recorded, in order, as a trace of `Media.Event`s:
  - the buffers submitted to the adaptor;
  - the progress reports;
  - the failure reports;
  - `markAsFinished`, `finishWriting` and the completion report.

Modules follow the source files:

- `LegacyErrors` mirrors Errors.swift.
- `WriterErrors` mirrors SpitfireError.swift.
- `Media` holds the shared values and the presentation time.
- `Traces` holds projections of a trace, plus the reference progress run and the frame schedule. A loop is specified against these.
- `Configuration` mirrors VideoData.swift.
- `PixelBuffer` mirrors PixelBuffer.swift. It holds the `Buffer` class and the throwing `append`.
- `Writer` mirrors Writer.swift.
- `Spitfire` mirrors Spitfire.swift. It holds the validation, the closure loop and the `Spitfire` class.
- `Generations` relates the two generations.

Each loop is written twice:

- as a `method` with a `while` loop, in the source's own form;
- as a step function folded over the signals (`Step`/`Drive` and `ClosureStep`/`ClosureDrive`).

Each method is proved equal to its fold. Properties are proved about the fold, through invariants the step functions preserve.

Notes on the code as written, which the model follows:

- **Presentation time.** Frame k ≥ 1 is placed at (k+1)/fps, and frame 0 at 0. Frame 1 therefore sits two frame durations after frame 0 (`Media.PresentationTimeSpacing`).
- **Append failures in Writer.swift.** A missing buffer, a non-zero status and a rejected append are each reported through `videoFailed`. The loop goes on, and retries the same frame on its next ready pass.
- **Failed `fill`.** When no bitmap context can be made, or the image has no bitmap, `fill` leaves the buffer locked and undrawn. The buffer is still submitted.

## Model

| member | source | states |
|---|---|---|
| Media.MakeTime | Spitfire/Classes/Writer.swift:60-68 | `CMTimeMake`: the time has the given value and timescale, so it stands for value/timescale seconds |
| Media.AddTimes | Spitfire/Classes/Writer.swift:69 | `CMTimeAdd` of two times on one clock stays on that clock and adds their lengths in seconds |
| Media.PresentationTime | Spitfire/Classes/Writer.swift:60-69 | frame k gets timescale fps; its value is 0 for k = 0 and k+1 for every later frame |
| Media.PresentationTimesIncrease | Spitfire/Classes/Writer.swift:60-69 | a later frame gets a strictly larger time value on the same clock, and a strictly later time in seconds when fps > 0 |
| Media.PresentationTimeSpacing | Spitfire/Classes/Spitfire.swift:85-93 | frames 0 and 1 are two ticks apart; every later pair of neighbouring frames is one tick apart |
| Traces.ScheduleIsOrdered | Spitfire/Classes/Writer.swift:68-70 | the reference schedule lists the images in array order, none skipped, at strictly increasing times on the fps clock |
| Traces.NoClosingMeans | Spitfire/Classes/Writer.swift:89-92 | a trace counts zero closing events exactly when none of its positions holds markAsFinished, finishWriting or a completion report |
| Traces.WithoutFailuresKeepsObservations | Spitfire/Classes/Spitfire.swift:96-108 | removing the failure reports leaves no failures, and keeps the progress reports, the accepted frames and the closing count unchanged |
| Configuration.VideoData.VideoSettings | Spitfire/Classes/VideoData.swift:15-20 | the output settings hold exactly the codec, width and height keys; the codec is H.264, and the width and height read back as the record's size |
| Configuration.VideoData.SourceBufferAttributes | Spitfire/Classes/VideoData.swift:22-27 | the buffer attributes hold exactly the pixel-format, width and height keys; the format is 32ARGB, and the width and height read back as the record's size |
| Configuration.DerivedSettingsDetermineSize | Spitfire/Classes/VideoData.swift:10-27 | two records give equal settings, and equal attributes, exactly when their sizes are equal, whatever their fps and URL |
| Configuration.SettingsAgreeOnFrameSize | Spitfire/Classes/VideoData.swift:15-27 | the output settings and the buffer attributes describe the same frame size |
| PixelBuffer.Buffer.constructor | Spitfire/Classes/PixelBuffer.swift:16-17 | a buffer from the pool starts unlocked and undrawn |
| PixelBuffer.Buffer.LockBaseAddress | Spitfire/Classes/PixelBuffer.swift:41 | the lock depth grows by one and the contents stay |
| PixelBuffer.Buffer.UnlockBaseAddress | Spitfire/Classes/PixelBuffer.swift:57 | it is allowed only under a lock; the depth drops by one and the contents stay |
| PixelBuffer.Buffer.Draw | Spitfire/Classes/PixelBuffer.swift:54-55 | it is allowed only under a lock; the buffer then holds the image and the lock depth stays |
| PixelBuffer.Buffer.Fill | Spitfire/Classes/PixelBuffer.swift:40-58 | the new buffer state is `Filled` of the old one: locked, then drawn and unlocked; or left locked by either early return |
| PixelBuffer.FillBracketsDrawing | Spitfire/Classes/PixelBuffer.swift:40-58 | the lock is balanced exactly when the image is drawn, and a drawn buffer holds the image; at most one lock is left behind; the contents change only by drawing |
| PixelBuffer.AppendOutcome | Spitfire/Classes/PixelBuffer.swift:13-37 | `success` is called iff pool, buffer, status 0 and acceptance all hold; with no pool it returns silently; throws in the order pointee failure, then `InvalidStatusCode(status)`, then append failure; a buffer reaches the adaptor exactly when pool, buffer and status are all good; no event reports progress or closes the video |
| PixelBuffer.Append | Spitfire/Classes/PixelBuffer.swift:13-37 | the step-by-step chain on a freshly filled `Buffer` gives exactly `AppendOutcome` |
| Writer.AppendOutcome | Spitfire/Classes/Writer.swift:103-133 | true iff pool, buffer, status 0 and acceptance all hold; no pool gives false with nothing reported; otherwise exactly one failure is reported, in the order pointee, `invalidStatusCode(status)`, append failure; the accepted frame list is this frame iff true; never a size mismatch, a progress report or a closing event; once a buffer is in hand the trace starts with this frame's submission at its time, and a rejected append ends it with `pixelBufferApendFailure` |
| Writer.Append | Spitfire/Classes/Writer.swift:103-133 | the step-by-step chain on a freshly filled `Buffer` gives exactly `AppendOutcome` |
| Writer.Start | Spitfire/Classes/Writer.swift:60-62 | the loop starts at frame 0, with progress 0 of images.count and nothing reported |
| Writer.Step | Spitfire/Classes/Writer.swift:64-86 | one pass advances the frame count by 0 or 1; a pass that is not ready changes nothing; the trace only grows |
| Writer.Drive | Spitfire/Classes/Writer.swift:64-87 | running the loop over any signals never lowers frameCount, never takes it past images.count, and only extends the trace |
| Writer.WriteFramesResult | Spitfire/Classes/Writer.swift:57-93 | the video counts as written exactly when all frames were appended and the loop did not return early |
| Writer.WriteFrames | Spitfire/Classes/Writer.swift:57-93 | the `while` loop over frameCount computes exactly `WriteFramesResult` |
| Writer.StepKeepsInv | Spitfire/Classes/Writer.swift:64-86 | one pass preserves the loop invariant: progress equals frameCount over the image count; reports are 1..frameCount; accepted frames are the schedule; every appended image has the configured size; nothing has closed; a mismatch, if reported, is the single last event |
| Writer.DriveKeepsInv | Spitfire/Classes/Writer.swift:64-87 | every run of the loop preserves that invariant |
| Writer.WriteFramesReportsProgress | Spitfire/Classes/Writer.swift:61-62 | however the run ends: the reports are 1, 2, ..., frameCount out of images.count; the accepted frames are the first frameCount images at their presentation times; all have the configured size; written iff frameCount == images.count |
| Writer.WriteFramesCompletesLast | Spitfire/Classes/Writer.swift:89-92 | a written video ends with markAsFinished, finishWriting and videoCompleted(videoData.url); these are the only three closing events in the trace; no mismatch was reported |
| Writer.WriteFramesAbortsOnMismatch | Spitfire/Classes/Writer.swift:72-76 | an aborted run reports exactly one size mismatch, as its last event; it closes nothing; its frame count equals the frames accepted so far, and the next image is the mismatched one |
| Writer.WriteFramesStallsOpen | Spitfire/Classes/Writer.swift:64-87 | a run whose signals run out has frames left over, has closed nothing and has reported no mismatch |
| Writer.CooperatingWriterCompletes | Spitfire/Classes/Writer.swift:57-93 | with images all of the configured size, and a writer that accepts every buffer for at least images.count passes, the video is written |
| Writer.ReadyStepAppendsCurrentFrame | Spitfire/Classes/Writer.swift:68-85 | a ready pass on a correctly sized frame appends images[frameCount] at its presentation time; success advances the count by one and reports it; failure keeps count and progress, so the same frame is retried at the same time |
| Spitfire.Validate | Spitfire/Classes/Spitfire.swift:33-45 | each error comes out iff its guard is the first to fail, in the order empty list, fps outside 1...60, width not a multiple of 16; success iff all pass, and the result is then the first image's size |
| Spitfire.EmptyImageListIsRefused | Example/Tests/SpitfireTests.swift:15-31 | an empty list gives ImageArrayEmpty at any fps |
| Spitfire.OutOfRangeFrameratesAreRefused | Example/Tests/SpitfireTests.swift:33-69 | fps 0 and fps 61 give InvalidFramerate with the exact message |
| Spitfire.UnalignedWidthIsRefused | Example/Tests/SpitfireTests.swift:71-87 | a one-image list whose width is not a multiple of 16 (whatever the height, so at any screen scale `UIImage(color:)` draws at) gives ImageDimensionsMultiplierFailure with the exact message at the default fps |
| Spitfire.DefaultFramerateIsValid | Spitfire/Classes/Spitfire.swift:32 | the default fps of 30 never fails the framerate guard |
| Spitfire.CheckDimensions | Spitfire/Classes/Spitfire.swift:96-100 | the size guard yields ImageDimensionsMatchFailure exactly when the frame's size differs from the first image's, and nothing otherwise; each caller discards the result |
| Spitfire.ClosureStart | Spitfire/Classes/Spitfire.swift:85-87 | the closure starts at frame 0, with progress 0 of images.count and nothing reported |
| Spitfire.ClosureStep | Spitfire/Classes/Spitfire.swift:89-109 | one pass advances the frame count by 0 or 1; a pass that is not ready changes nothing; the trace only grows |
| Spitfire.ClosureDrive | Spitfire/Classes/Spitfire.swift:89-110 | running the closure loop over any signals never lowers frameCount, never takes it past images.count, and only extends the trace |
| Spitfire.ClosureResult | Spitfire/Classes/Spitfire.swift:84-118 | the closure succeeds exactly when every frame was appended |
| Spitfire.ClosurePass | Spitfire/Classes/Spitfire.swift:91-109 | one imperative pass over the captured state gives exactly `ClosureStep` |
| Spitfire.RunClosure | Spitfire/Classes/Spitfire.swift:84-118 | the `while` loop over the captured frameCount computes exactly `ClosureResult` |
| Spitfire.ClosureDriveKeepsInv | Spitfire/Classes/Spitfire.swift:89-110 | every run of the closure loop keeps progress equal to frameCount, the reports 1..frameCount, the accepted frames equal to the schedule, nothing closed and no error reported |
| Spitfire.ClosureGuarantees | Spitfire/Classes/Spitfire.swift:84-118 | however the closure ends: reports are 1..frameCount; accepted frames are the schedule; no error reached any handler; on success the trace ends with markAsFinished, finishWriting and success(output.mov), and these are its only closing events; otherwise frames remain and nothing has closed |
| Spitfire.MismatchedFrameIsAppended | Spitfire/Classes/Spitfire.swift:94-108 | a frame whose size differs is still appended, and a cooperating writer advances the count by one |
| Spitfire.ThrownAppendIsSwallowed | Spitfire/Classes/Spitfire.swift:102-108 | an error thrown by `append` leaves frameCount, progress and the progress reports unchanged |
| Spitfire.Spitfire.constructor | Spitfire/Classes/Spitfire.swift:13-15 | a new object holds no video writer |
| Spitfire.Spitfire.MakeVideo | Spitfire/Classes/Spitfire.swift:32-120 | when a guard fails, its error is thrown; nothing happens and the field is unchanged; a failing writer init throws and leaves the field as it was; otherwise the field holds a QuickTime writer on output.mov with one input carrying the record's settings and attributes, and the events are the closure's trace when `startWriting()` succeeds, else none |
| Generations.Modernize | Spitfire/Classes/Errors.swift:11-20 | maps each legacy error to the lower-case case of SpitfireError.swift with the same payload; `Legacy` maps it back |
| Generations.RenamingIsBijective | Spitfire/Classes/SpitfireError.swift:10-19 | the legacy enum (Errors.swift) and the modern enum have the same cases |
| Generations.AppendGenerationsAgree | Spitfire/Classes/Writer.swift:103-133 | the two `append` chains agree: true iff `success` is called; the same buffers reach the adaptor; the delegate version reports exactly the error the throwing version throws |
| Generations.StepsAgree | Spitfire/Classes/Writer.swift:64-86 | on a correctly sized frame, one pass of each loop keeps them in step: same frame count and progress, and the same trace once failure reports are removed |
| Generations.DrivesAgree | Spitfire/Classes/Spitfire.swift:89-110 | on uniformly sized images the two loops stay in step over any signal sequence |
| Generations.GenerationsAgreeOnUniformImages | Spitfire/Classes/Writer.swift:57-93 | when all images have the configured size and the URL is output.mov, the newer loop never aborts; it writes the video iff the older one succeeds, with the same frame count and the same trace once failure reports are removed |
| Generations.MismatchSeparatesGenerations | Spitfire/Classes/Writer.swift:72-76 | on a mismatched frame and a cooperating writer, the newer loop reports the mismatch and returns, while the older one appends the frame |

## Left out

- The framework's own behaviour is not modelled, because these are foreign library calls. The `AVAssetWriter` initializer, `startWriting`, `isReadyForMoreMediaData`, the adaptor's pool, `CVPixelBufferPoolCreatePixelBuffer`, the `CGContext` initializer and `adaptor.append` become oracle answers in `Environment` or `WriterSignal`. `markAsFinished` and `finishWriting` are recorded as events. `context.draw` is `Buffer.Draw`, which always succeeds and stores the image. `startSession` (Spitfire.swift:81, Writer.swift:40), `CVPixelBufferGetBaseAddress` and `CVPixelBufferGetBytesPerRow` are not modelled.
- `CMTimeAdd`: only the case of two times on the same timescale is modelled, which is the only case either loop uses. The rescaling of mixed timescales is not modelled.
- `Writer.write` (Writer.swift:37-49) is left out, with its `startSession` and its pool assert. It registers `writeFrames` with `requestMediaDataWhenReady`, which calls the block again whenever the input is ready and has not been marked finished. The early return after a size mismatch (Writer.swift:75) skips `markAsFinished`, so the real writer may start `writeFrames` again from frameCount 0. The model covers one call of `writeFrames`.
- Writer.WriteFramesAbortsOnMismatch: "exactly one imageDimensionsMatchFailure" holds for one call of `writeFrames`, not across the repeated calls that `requestMediaDataWhenReady` may make.
- The pool assert in the first generation (`assert(pixelBufferAdaptor.pixelBufferPool != nil)`, Spitfire.swift:82) is not modelled. The closure's `append` may still see a missing pool (`poolPresent == false`), as it would in a release build, where asserts are compiled out.
- The `Writer` delegate is taken to be present. It is optional (`delegate: SpitfireDelegate?`, reached through `delegate?.`), and with `delegate == nil` the trace of `writeFrames` would hold only `Submitted`, `MarkedAsFinished` and `FinishedWriting`.
- Concurrency and object lifetime are left out: `DispatchQueue`, `requestMediaDataWhenReady`, the `[weak self]` captures and the `Thread.isMainThread` assert. A released `Spitfire` object, which would skip `append` and `success`, is not modelled either.
- The unbounded busy-spin is not modelled. The loops consume a finite signal sequence instead. When the signals run out while frames remain, the outcome is `Stalled` or `Spinning`, where the real loop would keep spinning.
- Floating point is not modelled: `CGSize`, `CGFloat`, `truncatingRemainder` and the `Float(...)` conversions. Sizes are whole points (`UIImage.size`) as naturals, and settings hold integers.
- File and path operations are not modelled: the removal of any earlier `output.mov`, and the documents-directory lookup. `OutputURL` is a constant.
- Manual pointer handling is not modelled: allocating, deinitializing and deallocating `pixelBufferPointer`, including the leak on the failure paths.
- `NSLocalizedString` is taken to return its key unchanged.
- `Progress` is a shared reference in the source. The model records a value snapshot at each report.
- `assert(videoWriter.canAdd(videoWriterInput))` (Spitfire.swift:77) is taken to hold. `makeVideo` always adds its one input.
- The guard at Spitfire.swift:55-57, which throws `VideoWriterFailure`, is unreachable: the field has just been assigned a writer. So `VideoWriterFailure` is never produced, and no path of the model produces it.
- The error thrown by the `AVAssetWriter` initializer is kept abstract, as `AssetWriterInitFailed`.
- Each pool checkout is modelled as a fresh buffer, unlocked and blank (`PixelBuffer.Fresh`). A real CVPixelBufferPool reuses buffers: one that an early return in `fill` left locked (PixelBuffer.swift:51-52, Writer.swift:152-153) may come back still locked, holding an old frame.
- Writer.WriteFrames: the Int64 `frameCount` and the Int64 CMTime value cannot overflow for any image array that fits in memory, so integers are unbounded.
- Spitfire.RunClosure: the same applies to the Int64 `frameCount` and the Int64 CMTime value.
- The UI code in Example/Spitfire/ViewController.swift is not part of this model. The same goes for the test helper `UIImage(color:)` and the empty performance test.
