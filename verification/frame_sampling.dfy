/** The arithmetic and control of `extractFrames`
    (src/hooks/useVideoAnalysis.ts, lines 30-93): cap the canvas, seek to
    `numFrames` evenly spaced interior timestamps one after another, capture
    one frame per completed seek, report per-frame progress, and settle.

    The video and canvas elements are not modelled. A frame is described by
    what was captured: the seek target it was drawn at and the canvas size;
    its JPEG encoding is left out. Times are exact reals where the source
    uses doubles. */
module FrameSampling {
  import opened Wrappers

  const MaxCanvasWidth: int := 640
  const MaxCanvasHeight: int := 480
  /** Seeks stop this many seconds short of the end of the stream. */
  const EndMargin: real := 0.1
  /** Share of the overall progress given to frame extraction. */
  const ExtractionBudget: int := 30

  const CanvasContextMessage: string := "Could not create canvas context"
  const LoadFailedMessage: string := "Failed to load video"
  const TimeoutMessage: string := "Video loading timed out"

  /** Metadata of the loaded video: duration in seconds and native size. */
  datatype Media = Media(duration: real, width: int, height: int)

  /** One captured frame: the time the decoder was asked to seek to and the
      canvas size it was drawn at. */
  datatype Frame = Frame(time: real, width: int, height: int)

  /** How the media pipeline behaves for one call: no 2D context, an error
      before metadata, the 30-second metadata timeout, or loaded metadata
      with an optional element error after a number of completed seeks. */
  datatype LoadOutcome =
    | NoCanvasContext
    | LoadError
    | MetadataTimeout
    | Loaded(media: Media, errorAfter: Option<nat>)

  /** How the returned promise settles. */
  datatype Settled = Resolved(frames: seq<Frame>) | Rejected(message: string)

  /** Everything one call does that a caller can observe: the progress values
      it reported, in order, and how it settled. */
  datatype Extraction = Extraction(progress: seq<int>, outcome: Settled)

  /** `Math.min(video.videoWidth, 640)`. */
  function CanvasWidth(videoWidth: int): (w: int)
    ensures w <= MaxCanvasWidth && w <= videoWidth
    ensures w == videoWidth || w == MaxCanvasWidth
  {
    if videoWidth <= MaxCanvasWidth then videoWidth else MaxCanvasWidth
  }

  /** `Math.min(video.videoHeight, 480)`. */
  function CanvasHeight(videoHeight: int): (h: int)
    ensures h <= MaxCanvasHeight && h <= videoHeight
    ensures h == videoHeight || h == MaxCanvasHeight
  {
    if videoHeight <= MaxCanvasHeight then videoHeight else MaxCanvasHeight
  }

  /** `interval * (currentFrame + 1)` with `interval = duration / (numFrames + 1)`:
      the `k`-th (0-based) interior boundary of `n + 1` equal slices. */
  function TargetTime(duration: real, n: nat, k: nat): real {
    (duration / (n + 1) as real) * (k + 1) as real
  }

  /** The position actually assigned to `currentTime`. */
  function SeekTime(duration: real, n: nat, k: nat): (t: real)
    ensures t <= duration - EndMargin
    ensures t <= TargetTime(duration, n, k)
    ensures t == TargetTime(duration, n, k) || t == duration - EndMargin
  {
    var target := TargetTime(duration, n, k);
    if target <= duration - EndMargin then target else duration - EndMargin
  }

  /** JavaScript's `Math.round`: halves round up. */
  function Round(x: real): (r: int)
    ensures x - 0.5 < r as real <= x + 0.5
  {
    (x + 0.5).Floor
  }

  /** `Math.round((currentFrame / numFrames) * 30)` after the `k`-th capture. */
  function FrameProgress(k: nat, n: nat): int
    requires n > 0
  {
    Round((k as real / n as real) * ExtractionBudget as real)
  }

  /** The frame captured after the `k`-th seek completes. */
  function FrameAt(m: Media, n: nat, k: nat): Frame {
    Frame(SeekTime(m.duration, n, k), CanvasWidth(m.width), CanvasHeight(m.height))
  }

  /** The progress values reported by the first `count` captures. */
  function ProgressAfter(count: nat, n: nat): (ps: seq<int>)
    requires n > 0
    ensures |ps| == count
  {
    seq(count, k requires 0 <= k < count => FrameProgress(k + 1, n))
  }

  /** Reference definition of a completed capture run: frame `k` is the one
      drawn at seek target `k`. */
  function SampledFrames(m: Media, n: nat): (fs: seq<Frame>)
    ensures |fs| == n
  {
    seq(n, k requires 0 <= k < n => FrameAt(m, n, k))
  }

  /** The capture loop of lines 55-77 written sequentially: `captureFrame`
      settles once `currentFrame` reaches `numFrames`, otherwise seeks;
      every completed seek pushes a frame, counts it and reports progress. */
  method CaptureFrames(m: Media, n: nat) returns (frames: seq<Frame>, progress: seq<int>)
    ensures |frames| == n && |progress| == n
    ensures forall k :: 0 <= k < n ==> frames[k] == FrameAt(m, n, k)
    ensures forall k :: 0 <= k < n ==> progress[k] == FrameProgress(k + 1, n)
  {
    frames := [];
    progress := [];
    var currentFrame: nat := 0;
    while currentFrame < n
      invariant currentFrame <= n
      invariant |frames| == currentFrame && |progress| == currentFrame
      invariant forall k :: 0 <= k < currentFrame ==> frames[k] == FrameAt(m, n, k)
      invariant forall k :: 0 <= k < currentFrame ==> progress[k] == FrameProgress(k + 1, n)
    {
      var seekTime := SeekTime(m.duration, n, currentFrame);
      frames := frames + [Frame(seekTime, CanvasWidth(m.width), CanvasHeight(m.height))];
      currentFrame := currentFrame + 1;
      progress := progress + [FrameProgress(currentFrame, n)];
    }
  }

  /** One call of `extractFrames(video, n)`. An element error after metadata
      rejects the promise only while captures are still outstanding; the
      progress already reported for earlier captures stays reported. */
  function ExtractFrames(load: LoadOutcome, n: nat): (e: Extraction)
    ensures e.outcome.Resolved? <==> load.Loaded? && (load.errorAfter.None? || n <= load.errorAfter.value)
    ensures e.outcome.Resolved? ==> e.outcome.frames == SampledFrames(load.media, n)
    ensures n > 0 && load.Loaded? ==> e.progress == ProgressAfter(|e.progress|, n)
    ensures e.outcome.Resolved? ==> |e.progress| == n
    ensures e.outcome.Rejected? && load.Loaded? ==> |e.progress| < n
    ensures load.Loaded? && load.errorAfter.Some? && load.errorAfter.value < n ==>
      |e.progress| == load.errorAfter.value
    ensures !load.Loaded? ==> e.progress == []
    ensures load == NoCanvasContext ==> e.outcome == Rejected(CanvasContextMessage)
    ensures load == LoadError ==> e.outcome == Rejected(LoadFailedMessage)
    ensures load == MetadataTimeout ==> e.outcome == Rejected(TimeoutMessage)
    ensures load.Loaded? && e.outcome.Rejected? ==> e.outcome.message == LoadFailedMessage
  {
    match load
    case NoCanvasContext => Extraction([], Rejected(CanvasContextMessage))
    case LoadError => Extraction([], Rejected(LoadFailedMessage))
    case MetadataTimeout => Extraction([], Rejected(TimeoutMessage))
    case Loaded(media, errorAfter) =>
      if n == 0 then Extraction([], Resolved([]))
      else if errorAfter.Some? && errorAfter.value < n then
        Extraction(ProgressAfter(errorAfter.value, n), Rejected(LoadFailedMessage))
      else
        Extraction(ProgressAfter(n, n), Resolved(SampledFrames(media, n)))
  }

  // ---------------------------------------------------------------------
  // Properties of the schedule
  // ---------------------------------------------------------------------

  /** For a positive duration the unclamped targets lie strictly inside the
      video. */
  lemma TargetsInterior(duration: real, n: nat, k: nat)
    requires duration > 0.0 && k < n
    ensures 0.0 < TargetTime(duration, n, k) < duration
  {
    var slice := duration / (n + 1) as real;
    assert slice > 0.0;
    assert slice * (n + 1) as real == duration;
    assert (k + 1) as real < (n + 1) as real;
    assert slice * (k + 1) as real < slice * (n + 1) as real;
  }

  /** ... and strictly increase with the frame index. */
  lemma TargetsIncreasing(duration: real, n: nat, j: nat, k: nat)
    requires duration > 0.0 && j < k
    ensures TargetTime(duration, n, j) < TargetTime(duration, n, k)
  {
    var slice := duration / (n + 1) as real;
    assert slice > 0.0;
    assert (j + 1) as real < (k + 1) as real;
    assert slice * (j + 1) as real < slice * (k + 1) as real;
  }

  /** The clamped seek positions never go backwards. */
  lemma SeeksNonDecreasing(duration: real, n: nat, j: nat, k: nat)
    requires duration >= 0.0 && j <= k
    ensures SeekTime(duration, n, j) <= SeekTime(duration, n, k)
  {
    var slice := duration / (n + 1) as real;
    assert slice >= 0.0;
    assert slice * (j + 1) as real <= slice * (k + 1) as real;
  }

  /** Once the video is longer than the end margin, every clamped seek
      position lies strictly inside it. (A video of at most 0.1 s is asked
      to seek to a time at or before 0.) */
  lemma SeeksInterior(duration: real, n: nat, k: nat)
    requires duration > EndMargin && k < n
    ensures 0.0 < SeekTime(duration, n, k) < duration
  {
    TargetsInterior(duration, n, k);
  }

  /** A completed capture run has exactly `n` frames, taken in time order,
      all at the capped canvas size. */
  lemma SampledFramesOrdered(m: Media, n: nat)
    requires m.duration >= 0.0
    ensures var fs := SampledFrames(m, n);
      && (forall j, k :: 0 <= j <= k < n ==> fs[j].time <= fs[k].time)
      && (forall k :: 0 <= k < n ==> fs[k].time <= m.duration - EndMargin)
      && (forall k :: 0 <= k < n ==> fs[k].width <= MaxCanvasWidth && fs[k].height <= MaxCanvasHeight)
  {
    var fs := SampledFrames(m, n);
    forall j, k | 0 <= j <= k < n
      ensures fs[j].time <= fs[k].time
    {
      SeeksNonDecreasing(m.duration, n, j, k);
    }
  }

  /** Rounding preserves order. */
  lemma RoundMonotone(x: real, y: real)
    requires x <= y
    ensures Round(x) <= Round(y)
  {
  }

  /** Division by a positive count preserves order. */
  lemma QuotientMonotone(j: nat, k: nat, n: nat)
    requires 0 < n && j <= k
    ensures j as real / n as real <= k as real / n as real
  {
    var nr := n as real;
    var a := j as real / nr;
    var b := k as real / nr;
    assert a * nr == j as real;
    assert b * nr == k as real;
  }

  /** Per-frame progress stays within the extraction budget, never goes
      backwards, and reaches the whole budget with the last frame. */
  lemma FrameProgressBounds(j: nat, k: nat, n: nat)
    requires 0 < n && j <= k <= n
    ensures 0 <= FrameProgress(j, n) <= FrameProgress(k, n) <= ExtractionBudget
    ensures FrameProgress(n, n) == ExtractionBudget
  {
    var nr := n as real;
    QuotientMonotone(0, j, n);
    QuotientMonotone(j, k, n);
    QuotientMonotone(k, n, n);
    var a := j as real / nr;
    var b := k as real / nr;
    assert 0.0 as real / nr == 0.0 && nr / nr == 1.0;
    assert 0.0 <= a <= b <= 1.0;
    var x := a * 30.0;
    var y := b * 30.0;
    assert 0.0 <= x <= y <= 30.0;
    RoundMonotone(0.0, x);
    RoundMonotone(x, y);
    RoundMonotone(y, 30.0);
  }

  /** With the eight frames the hook asks for, the reported values are
      4, 8, 11, 15, 19, 23, 26, 30 (every quotient is exact in binary
      floating point, so doubles give the same values). */
  lemma EightFrameProgress()
    ensures ProgressAfter(8, 8) == [4, 8, 11, 15, 19, 23, 26, 30]
  {
    assert FrameProgress(1, 8) == 4;
    assert FrameProgress(2, 8) == 8;
    assert FrameProgress(3, 8) == 11;
    assert FrameProgress(4, 8) == 15;
    assert FrameProgress(5, 8) == 19;
    assert FrameProgress(6, 8) == 23;
    assert FrameProgress(7, 8) == 26;
    assert FrameProgress(8, 8) == 30;
  }

  /** An element error after `k` of `n` captures leaves exactly the progress
      values of those `k` completed seeks, and the promise rejects. */
  lemma ErrorKeepsCompletedProgress(media: Media, k: nat, n: nat)
    requires k < n
    ensures var e := ExtractFrames(Loaded(media, Some(k)), n);
      e.progress == ProgressAfter(k, n) && e.outcome == Rejected(LoadFailedMessage)
  {
  }
}
