/**
 * Pixel buffers and the first generation's throwing `append`
 * (Spitfire/Classes/PixelBuffer.swift). `fill` is shared with the
 * delegate-based writer, whose private `fill` does the same.
 */
module PixelBuffer {
  import opened Wrappers
  import opened Media
  import opened LegacyErrors
  import opened Traces

  /**
   * A CVPixelBuffer from the adaptor's pool: the depth of its base-address
   * lock and the image last drawn into it (None: as the pool handed it out).
   */
  class Buffer {
    var lockCount: nat
    var contents: Option<Image>

    /** A buffer as the pool hands it out: unlocked and blank. */
    constructor ()
      ensures State() == Fresh
    {
      lockCount := 0;
      contents := None;
    }

    function State(): BufferState
      reads this
    {
      BufferState(lockCount, contents)
    }

    /** CVPixelBufferLockBaseAddress. */
    method LockBaseAddress()
      modifies this
      ensures lockCount == old(lockCount) + 1 && contents == old(contents)
    {
      lockCount := lockCount + 1;
    }

    /** CVPixelBufferUnlockBaseAddress, which must follow a lock. */
    method UnlockBaseAddress()
      requires lockCount > 0
      modifies this
      ensures lockCount == old(lockCount) - 1 && contents == old(contents)
    {
      lockCount := lockCount - 1;
    }

    /** `context.draw(cgImage, in: rect)` into the locked base address. */
    method Draw(image: Image)
      requires lockCount > 0
      modifies this
      ensures lockCount == old(lockCount) && contents == Some(image)
    {
      contents := Some(image);
    }

    /**
     * `fill(pixelBuffer:with:)`: lock, give up (still locked) when no CGContext
     * can be made over the buffer or the image has no CGImage, otherwise draw
     * the image and unlock.
     */
    method Fill(image: Image, contextCreated: bool)
      modifies this
      ensures State() == Filled(old(State()), image, contextCreated)
    {
      LockBaseAddress();
      if !contextCreated || !image.hasBitmap {
        return;
      }
      Draw(image);
      UnlockBaseAddress();
    }
  }

  const Fresh := BufferState(0, None)

  /** The state `fill` leaves a buffer in. */
  function Filled(b: BufferState, image: Image, contextCreated: bool): BufferState {
    if contextCreated && image.hasBitmap then BufferState(b.lockCount, Some(image))
    else BufferState(b.lockCount + 1, b.contents)
  }

  /**
   * `fill` leaves the lock balanced exactly when it draws; the early returns
   * leave the buffer locked once more and undrawn.
   */
  lemma FillBracketsDrawing(b: BufferState, image: Image, contextCreated: bool)
    ensures Filled(b, image, contextCreated).lockCount == b.lockCount <==> contextCreated && image.hasBitmap
    ensures contextCreated && image.hasBitmap ==> Filled(b, image, contextCreated).contents == Some(image)
    ensures b.lockCount <= Filled(b, image, contextCreated).lockCount <= b.lockCount + 1
    ensures Filled(b, image, contextCreated).contents != b.contents ==> contextCreated && image.hasBitmap
  {
  }

  /** How the throwing `append` ends: it returns (having called `success` or not), or it throws. */
  datatype AppendResult = Returned(successCalled: bool) | Threw(error: SpitfireError)

  /**
   * `append(pixelBufferAdaptor:with:at:success:)`: with no pool it returns
   * without a word; otherwise it throws for a missing buffer, then for a
   * non-zero status, fills the buffer, submits it, and calls `success` if
   * the adaptor accepted it and throws otherwise. The second component is
   * what the adaptor received. The surrounding `catch` rethrows unchanged.
   */
  function AppendOutcome(signal: WriterSignal, image: Image, time: Time): (r: (AppendResult, seq<Event>))
    ensures r.0 == Returned(true) <==>
      signal.poolPresent && signal.bufferPresent && signal.status == 0 && signal.appendAccepted
    ensures r.0 == Returned(false) <==> !signal.poolPresent
    ensures signal.poolPresent && !signal.bufferPresent ==> r.0 == Threw(PixelBufferPointeeFailure)
    ensures signal.poolPresent && signal.bufferPresent && signal.status != 0 ==>
      r.0 == Threw(InvalidStatusCode(signal.status))
    ensures signal.poolPresent && signal.bufferPresent && signal.status == 0 && !signal.appendAccepted ==>
      r.0 == Threw(PixelBufferApendFailure)
    ensures r.1 == if signal.poolPresent && signal.bufferPresent && signal.status == 0
      then [Submitted(image, time, Filled(Fresh, image, signal.contextCreated), signal.appendAccepted)]
      else []
    ensures Accepted(r.1) == (if r.0 == Returned(true) then [(image, time)] else [])
    ensures Progresses(r.1) == [] && Failures(r.1) == [] && NoClosing(r.1)
  {
    if !signal.poolPresent then (Returned(false), [])
    else if !signal.bufferPresent then (Threw(PixelBufferPointeeFailure), [])
    else if signal.status != 0 then (Threw(InvalidStatusCode(signal.status)), [])
    else
      var buffer := Filled(Fresh, image, signal.contextCreated);
      var submission := [Submitted(image, time, buffer, signal.appendAccepted)];
      assert submission[1..] == [] && NoClosing(submission);
      if signal.appendAccepted then (Returned(true), submission)
      else (Threw(PixelBufferApendFailure), submission)
  }

  /** The throwing `append`, step by step on a buffer taken from the pool. */
  method Append(signal: WriterSignal, image: Image, time: Time) returns (result: AppendResult, submissions: seq<Event>)
    ensures (result, submissions) == AppendOutcome(signal, image, time)
  {
    result, submissions := Returned(false), [];
    if signal.poolPresent {
      if !signal.bufferPresent {
        result := Threw(PixelBufferPointeeFailure);
        return;
      }
      if signal.status != 0 {
        result := Threw(InvalidStatusCode(signal.status));
        return;
      }
      var buffer := new Buffer();
      buffer.Fill(image, signal.contextCreated);
      submissions := [Submitted(image, time, buffer.State(), signal.appendAccepted)];
      if signal.appendAccepted {
        result := Returned(true);
      } else {
        result := Threw(PixelBufferApendFailure);
      }
    }
  }
}
