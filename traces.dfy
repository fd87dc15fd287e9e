/**
 * Projections of a run's event trace (what a progress observer, an error
 * observer or the encoder sees of it) and the reference sequences the
 * frame loops are proved against.
 */
module Traces {
  import opened Media
  import opened WriterErrors

  /** The progress records reported, in order. */
  function Progresses(t: seq<Event>): seq<Progress> {
    if t == [] then []
    else (if t[0].ProgressReported? then [t[0].progress] else []) + Progresses(t[1..])
  }

  /** The frames the encoder accepted, with their presentation times, in order. */
  function Accepted(t: seq<Event>): seq<(Image, Time)> {
    if t == [] then []
    else (if t[0].Submitted? && t[0].accepted then [(t[0].image, t[0].time)] else []) + Accepted(t[1..])
  }

  /** The errors reported through `videoFailed`, in order. */
  function Failures(t: seq<Event>): seq<SpitfireError> {
    if t == [] then []
    else (if t[0].Failed? then [t[0].error] else []) + Failures(t[1..])
  }

  /** The trace with every `videoFailed` report removed. */
  function WithoutFailures(t: seq<Event>): seq<Event> {
    if t == [] then []
    else (if t[0].Failed? then [] else [t[0]]) + WithoutFailures(t[1..])
  }

  /** How many events of `t` close the video. */
  function Closings(t: seq<Event>): nat {
    if t == [] then 0
    else (if t[0].IsClosing() then 1 else 0) + Closings(t[1..])
  }

  /** No event of `t` closes the video. */
  predicate NoClosing(t: seq<Event>) {
    Closings(t) == 0
  }

  lemma {:induction false} ClosingsAppend(a: seq<Event>, b: seq<Event>)
    ensures Closings(a + b) == Closings(a) + Closings(b)
  {
    if a != [] {
      assert (a + b)[1..] == a[1..] + b;
      ClosingsAppend(a[1..], b);
    } else {
      assert a + b == b;
    }
  }

  /** `NoClosing` holds exactly when no position of the trace holds a closing event. */
  lemma {:induction false} NoClosingMeans(t: seq<Event>)
    ensures NoClosing(t) <==> forall i :: 0 <= i < |t| ==> !t[i].IsClosing()
  {
    if t != [] {
      NoClosingMeans(t[1..]);
      assert forall i :: 1 <= i < |t| ==> t[i] == t[1..][i - 1];
    }
  }

  lemma {:induction false} ProgressesAppend(a: seq<Event>, b: seq<Event>)
    ensures Progresses(a + b) == Progresses(a) + Progresses(b)
  {
    if a != [] {
      assert (a + b)[1..] == a[1..] + b;
      ProgressesAppend(a[1..], b);
    } else {
      assert a + b == b;
    }
  }

  lemma {:induction false} AcceptedAppend(a: seq<Event>, b: seq<Event>)
    ensures Accepted(a + b) == Accepted(a) + Accepted(b)
  {
    if a != [] {
      assert (a + b)[1..] == a[1..] + b;
      AcceptedAppend(a[1..], b);
    } else {
      assert a + b == b;
    }
  }

  lemma {:induction false} FailuresAppend(a: seq<Event>, b: seq<Event>)
    ensures Failures(a + b) == Failures(a) + Failures(b)
  {
    if a != [] {
      assert (a + b)[1..] == a[1..] + b;
      FailuresAppend(a[1..], b);
    } else {
      assert a + b == b;
    }
  }

  lemma {:induction false} WithoutFailuresAppend(a: seq<Event>, b: seq<Event>)
    ensures WithoutFailures(a + b) == WithoutFailures(a) + WithoutFailures(b)
  {
    if a != [] {
      assert (a + b)[1..] == a[1..] + b;
      WithoutFailuresAppend(a[1..], b);
    } else {
      assert a + b == b;
    }
  }

  /** Removing failure reports removes all of them and changes neither the progress reports nor the accepted frames. */
  lemma {:induction false} WithoutFailuresKeepsObservations(t: seq<Event>)
    ensures Failures(WithoutFailures(t)) == []
    ensures Progresses(WithoutFailures(t)) == Progresses(t)
    ensures Accepted(WithoutFailures(t)) == Accepted(t)
    ensures Closings(WithoutFailures(t)) == Closings(t)
  {
    if t != [] {
      var head := if t[0].Failed? then [] else [t[0]];
      WithoutFailuresKeepsObservations(t[1..]);
      ProgressesAppend(head, WithoutFailures(t[1..]));
      AcceptedAppend(head, WithoutFailures(t[1..]));
      FailuresAppend(head, WithoutFailures(t[1..]));
      ClosingsAppend(head, WithoutFailures(t[1..]));
    }
  }

  /** The three closing events close the video three times and report no progress, no frame and no failure. */
  lemma ClosingIsSilent(url: Url)
    ensures Closings([MarkedAsFinished, FinishedWriting, Completed(url)]) == 3
    ensures Progresses([MarkedAsFinished, FinishedWriting, Completed(url)]) == []
    ensures Accepted([MarkedAsFinished, FinishedWriting, Completed(url)]) == []
    ensures Failures([MarkedAsFinished, FinishedWriting, Completed(url)]) == []
    ensures WithoutFailures([MarkedAsFinished, FinishedWriting, Completed(url)]) == [MarkedAsFinished, FinishedWriting, Completed(url)]
  {
    var t := [MarkedAsFinished, FinishedWriting, Completed(url)];
    var last := [Completed(url)];
    assert last[1..] == [];
    assert t[1..][1..] == last;
    assert Progresses(last) == [];
    assert Accepted(last) == [];
    assert Failures(last) == [];
    assert WithoutFailures(last) == last;
    assert Closings(last) == 1;
    assert t[1..] == [FinishedWriting] + last;
    assert t == [MarkedAsFinished] + t[1..];
  }

  /** The progress reports 1, 2, ..., n, each out of `total`. */
  function ProgressRun(n: nat, total: nat): (r: seq<Progress>)
    ensures |r| == n
  {
    if n == 0 then [] else ProgressRun(n - 1, total) + [Progress(n, total)]
  }

  lemma {:induction false} ProgressRunAt(n: nat, total: nat, k: nat)
    requires k < n
    ensures ProgressRun(n, total)[k] == Progress(k + 1, total)
  {
    if k < n - 1 {
      ProgressRunAt(n - 1, total, k);
    }
  }

  /** The first `n` images, each at the presentation time of its position. */
  function Schedule(images: seq<Image>, fps: int32, n: nat): (r: seq<(Image, Time)>)
    requires n <= |images|
    ensures |r| == n
  {
    if n == 0 then [] else Schedule(images, fps, n - 1) + [(images[n - 1], PresentationTime(n - 1, fps))]
  }

  lemma {:induction false} ScheduleAt(images: seq<Image>, fps: int32, n: nat, k: nat)
    requires k < n <= |images|
    ensures Schedule(images, fps, n)[k] == (images[k], PresentationTime(k, fps))
  {
    if k < n - 1 {
      ScheduleAt(images, fps, n - 1, k);
    }
  }

  /**
   * A schedule lists the images in array order, none skipped, at strictly
   * increasing presentation times on the frame-rate clock.
   */
  lemma ScheduleIsOrdered(images: seq<Image>, fps: int32, n: nat)
    requires n <= |images|
    ensures forall k :: 0 <= k < n ==> Schedule(images, fps, n)[k].0 == images[k]
    ensures forall j, k :: 0 <= j < k < n ==>
      Schedule(images, fps, n)[j].1.timescale == Schedule(images, fps, n)[k].1.timescale == fps as int &&
      Schedule(images, fps, n)[j].1.value < Schedule(images, fps, n)[k].1.value
  {
    forall k | 0 <= k < n ensures Schedule(images, fps, n)[k] == (images[k], PresentationTime(k, fps)) {
      ScheduleAt(images, fps, n, k);
    }
  }

  /**
   * What a frame loop has reported after appending `n` frames: progress
   * 1, ..., n out of the image count, the first `n` images accepted at their
   * presentation times, and nothing that closes the video.
   */
  ghost predicate Reported(images: seq<Image>, fps: int32, n: nat, t: seq<Event>) {
    && n <= |images|
    && Progresses(t) == ProgressRun(n, |images|)
    && Accepted(t) == Schedule(images, fps, n)
    && NoClosing(t)
  }

  lemma NoClosingJoin(a: seq<Event>, b: seq<Event>)
    requires NoClosing(a) && NoClosing(b)
    ensures NoClosing(a + b)
  {
    ClosingsAppend(a, b);
  }

  /** Appending the events of an accepted frame `n` and its progress report keeps what was reported. */
  lemma ReportedAdvance(images: seq<Image>, fps: int32, n: nat, t: seq<Event>, events: seq<Event>)
    requires Reported(images, fps, n, t) && n < |images|
    requires Accepted(events) == [(images[n], PresentationTime(n, fps))]
    requires Progresses(events) == [] && NoClosing(events)
    ensures Reported(images, fps, n + 1, t + events + [ProgressReported(Progress(n + 1, |images|))])
  {
    var report := [ProgressReported(Progress(n + 1, |images|))];
    ProgressesAppend(t, events);
    ProgressesAppend(t + events, report);
    AcceptedAppend(t, events);
    AcceptedAppend(t + events, report);
    NoClosingJoin(t, events);
    NoClosingJoin(t + events, report);
  }

  /** Appending events without an accepted frame or a progress report keeps what was reported. */
  lemma ReportedRetry(images: seq<Image>, fps: int32, n: nat, t: seq<Event>, events: seq<Event>)
    requires Reported(images, fps, n, t)
    requires Accepted(events) == [] && Progresses(events) == [] && NoClosing(events)
    ensures Reported(images, fps, n, t + events)
  {
    ProgressesAppend(t, events);
    AcceptedAppend(t, events);
    NoClosingJoin(t, events);
  }

  /** Appending events that report no given error keeps that error unreported. */
  lemma UnreportedAppend(e: SpitfireError, t: seq<Event>, events: seq<Event>)
    requires e !in Failures(t) && e !in Failures(events)
    ensures e !in Failures(t + events)
  {
    FailuresAppend(t, events);
  }
}
