/**
 * The frame sampler behind `processVideo`: it resolves a duration through a
 * forced seek and a file-size estimate, plans `ceil(duration / 5)` evenly
 * spaced sample times, captures a thumbnail at each one (skipping the ones
 * whose capture throws), and never returns an empty frame list.
 *
 * The browser is abstracted: a `VideoSource` says how loading ended, what
 * `video.duration` reads after the forced seek, the intrinsic size, whether a
 * 2D canvas context exists, and answers each capture request with a thumbnail
 * or with `None` when drawing or encoding throws.
 */
module VideoProcessing {
  import opened Wrappers
  import opened Types
  import Text

  const SamplingInterval: real := 5.0
  const DurationFloor: real := 10.0
  const BytesPerMegabyte: nat := 1024 * 1024

  const ThumbnailWidth: nat := 320
  const DefaultWidth: nat := 640
  const DefaultHeight: nat := 480

  /** How the wait for `loadeddata` ended: the event, the `error` event, or the 20 s timeout. */
  datatype LoadOutcome = Loaded | LoadFailed | LoadTimedOut

  /**
   * The `attempt`-th capture (counting from 0 over the whole run), made with the
   * playback position at `position` onto a `width` x `height` canvas.
   */
  datatype CaptureRequest = CaptureRequest(attempt: nat, position: real, width: nat, height: nat)

  /**
   * What the media element and canvas report. `probedDuration` is `video.duration`
   * read after the forced seek, `None` when it is NaN or infinite. `capture` is
   * the outcome of `drawImage` followed by `toDataURL`.
   */
  datatype VideoSource = VideoSource(
    load: LoadOutcome,
    probedDuration: Option<real>,
    videoWidth: nat,
    videoHeight: nat,
    hasContext: bool,
    capture: CaptureRequest -> Option<string>)

  /** Only the byte size of the uploaded `File` is consulted. */
  datatype VideoFile = VideoFile(size: nat)

  function Max(a: real, b: real): (m: real)
    ensures m >= a && m >= b && (m == a || m == b)
  {
    if a >= b then a else b
  }

  /** `Math.ceil` on a real. */
  function Ceil(x: real): (n: int)
    ensures (n - 1) as real < x <= n as real
  {
    if x == x.Floor as real then x.Floor else x.Floor + 1
  }

  /**
   * The duration the sampler settles on: the probed duration when it is finite
   * and positive, otherwise the size in MiB (one MiB per second assumed) but at
   * least the 10 s floor.
   */
  function ResolveDuration(probed: Option<real>, fileSize: nat): (d: real)
    ensures d > 0.0
    ensures probed.Some? && probed.value > 0.0 ==> d == probed.value
    ensures !(probed.Some? && probed.value > 0.0) ==>
              d >= DurationFloor && d >= fileSize as real / BytesPerMegabyte as real
              && (d == DurationFloor || d == fileSize as real / BytesPerMegabyte as real)
  {
    if probed.Some? && probed.value > 0.0 then probed.value
    else Max(fileSize as real / BytesPerMegabyte as real, DurationFloor)
  }

  /** `Math.ceil(duration / 5)`: the fewest 5-second slots that cover the duration. */
  function FrameCount(duration: real): (n: nat)
    requires duration > 0.0
    ensures n >= 1
    ensures (n - 1) as real * SamplingInterval < duration <= n as real * SamplingInterval
  {
    Ceil(duration / SamplingInterval)
  }

  /** `duration / frameCount`: the time between consecutive samples. */
  function FrameInterval(duration: real, count: nat): (step: real)
    requires count > 0
    ensures step * count as real == duration
    ensures duration > 0.0 ==> step > 0.0
  {
    duration / count as real
  }

  /** The planned time of sample `i`: `i * frameInterval`. */
  function PlanTimestamp(duration: real, count: nat, i: nat): (t: real)
    requires count > 0
    ensures t * count as real == i as real * duration
    ensures duration >= 0.0 ==> t >= 0.0
  {
    i as real * FrameInterval(duration, count)
  }

  /** The interval is positive, at most 5 s, and `count` intervals span the duration exactly. */
  lemma FrameIntervalBounds(duration: real)
    requires duration > 0.0
    ensures var n := FrameCount(duration);
            var step := duration / n as real;
            0.0 < step <= SamplingInterval && step * n as real == duration
  {
    var n := FrameCount(duration);
    var step := duration / n as real;
    assert step * n as real == duration;
  }

  /** Every planned time lies in `[0, duration)`. */
  lemma PlanWithinDuration(duration: real, i: nat)
    requires duration > 0.0
    requires i < FrameCount(duration)
    ensures 0.0 <= PlanTimestamp(duration, FrameCount(duration), i) < duration
  {
    var n := FrameCount(duration);
    var step := duration / n as real;
    FrameIntervalBounds(duration);
    assert PlanTimestamp(duration, n, i) == i as real * step;
    assert (n - i) as real * step > 0.0;
    assert i as real * step + (n - i) as real * step == n as real * step;
    assert i as real * step < duration;
  }

  /** Planned times strictly increase with the sample index. */
  lemma PlanStrictlyIncreasing(duration: real, count: nat, i: nat, j: nat)
    requires duration > 0.0 && count > 0 && i < j
    ensures PlanTimestamp(duration, count, i) < PlanTimestamp(duration, count, j)
  {
    var step := duration / count as real;
    assert step > 0.0;
    assert (j - i) as real * step > 0.0;
    assert j as real * step == i as real * step + (j - i) as real * step;
  }

  /** A 12-second source is sampled three times, at 0, 4 and 8 seconds. */
  lemma TwelveSecondExample()
    ensures FrameCount(12.0) == 3
    ensures PlanTimestamp(12.0, 3, 0) == 0.0
    ensures PlanTimestamp(12.0, 3, 1) == 4.0
    ensures PlanTimestamp(12.0, 3, 2) == 8.0
  {
    assert (12.0 / SamplingInterval).Floor == 2;
  }

  /** `video.videoWidth || 640` and the like: zero falls back to the default. */
  function OrDefault(v: nat, default: nat): (r: nat)
    ensures v != 0 ==> r == v
    ensures v == 0 ==> r == default
  {
    if v != 0 then v else default
  }

  function ResolutionOf(video: VideoSource): (r: Resolution)
    ensures r.width > 0 && r.height > 0
    ensures r.width == (if video.videoWidth == 0 then DefaultWidth else video.videoWidth)
    ensures r.height == (if video.videoHeight == 0 then DefaultHeight else video.videoHeight)
  {
    Resolution(OrDefault(video.videoWidth, DefaultWidth), OrDefault(video.videoHeight, DefaultHeight))
  }

  /** `Math.floor(320 * (height / width))`: the thumbnail height that keeps the aspect ratio, rounded down. */
  function ThumbnailHeight(width: nat, height: nat): (h: nat)
    requires width > 0
    ensures h as real <= ThumbnailWidth as real * (height as real / width as real) < h as real + 1.0
  {
    (ThumbnailWidth as real * (height as real / width as real)).Floor
  }

  /** `30 + Math.floor((i / frameCount) * 60)`, the progress reported before sample `i`. */
  function LoopProgress(i: nat, count: nat): (p: int)
    requires 0 < count && i <= count
    ensures 30 <= p <= 90
    ensures i < count ==> p <= 89
  {
    var exact := i as real / count as real * 60.0;
    assert exact <= 60.0 by {
      assert i as real / count as real <= 1.0;
    }
    assert i < count ==> exact < 60.0 by {
      if i < count {
        assert i as real / count as real < 1.0;
      }
    }
    30 + exact.Floor
  }

  lemma LoopProgressMonotone(i: nat, j: nat, count: nat)
    requires 0 < count && i <= j <= count
    ensures LoopProgress(i, count) <= LoopProgress(j, count)
  {
    var a := i as real / count as real;
    var b := j as real / count as real;
    assert a * count as real == i as real;
    assert b * count as real == j as real;
    assert a <= b;
    assert a * 60.0 <= b * 60.0;
  }

  /** The id given to the frame captured by sample `i`: `frame-${i}`. */
  function FrameId(i: nat): string {
    "frame-" + Text.NatToString(i)
  }

  lemma FrameIdZero()
    ensures FrameId(0) == "frame-0"
  {
    assert Text.NatToString(0) == "0";
  }

  lemma FrameIdInjective(i: nat, j: nat)
    ensures FrameId(i) == FrameId(j) <==> i == j
  {
    if FrameId(i) == FrameId(j) {
      assert Text.NatToString(i) == FrameId(i)[6..];
      assert Text.NatToString(j) == FrameId(j)[6..];
      Text.NatToStringInjective(i, j);
    }
  }

  function NewFrame(id: string, timestamp: real, thumbnail: string): FrameData {
    FrameData(id, timestamp, EmptySegmentation, thumbnail)
  }

  /** The capture request of sample `i` of a run with `count` samples. */
  function SampleRequest(duration: real, count: nat, thumbHeight: nat, i: nat): CaptureRequest
    requires count > 0
  {
    CaptureRequest(i, PlanTimestamp(duration, count, i), ThumbnailWidth, thumbHeight)
  }

  /** The frames collected by samples `0 .. k-1`: one per capture that did not fail, in order. */
  function CapturedFrames(video: VideoSource, duration: real, count: nat, thumbHeight: nat, k: nat): seq<FrameData>
    requires count > 0
  {
    if k == 0 then []
    else
      var earlier := CapturedFrames(video, duration, count, thumbHeight, k - 1);
      match video.capture(SampleRequest(duration, count, thumbHeight, k - 1))
      case Some(thumb) => earlier + [NewFrame(FrameId(k - 1), PlanTimestamp(duration, count, k - 1), thumb)]
      case None => earlier
  }

  /** The sample indices whose capture succeeded, among `0 .. k-1`, in increasing order. */
  ghost function CapturedIndices(video: VideoSource, duration: real, count: nat, thumbHeight: nat, k: nat): seq<nat>
    requires count > 0
  {
    if k == 0 then []
    else
      var earlier := CapturedIndices(video, duration, count, thumbHeight, k - 1);
      if video.capture(SampleRequest(duration, count, thumbHeight, k - 1)).Some? then earlier + [k - 1] else earlier
  }

  /** Sample `k`'s step of the capture loop: its frame is appended exactly when its capture succeeded. */
  lemma CapturedFramesStep(video: VideoSource, duration: real, count: nat, thumbHeight: nat, k: nat)
    requires count > 0
    ensures var shot := video.capture(SampleRequest(duration, count, thumbHeight, k));
            CapturedFrames(video, duration, count, thumbHeight, k + 1)
            == CapturedFrames(video, duration, count, thumbHeight, k)
               + (if shot.Some? then [NewFrame(FrameId(k), PlanTimestamp(duration, count, k), shot.value)] else [])
  {
  }

  /** The selected indices lie below `k`, increase, and are exactly the samples whose capture succeeded. */
  lemma {:induction false} CapturedIndicesSelect(video: VideoSource, duration: real, count: nat, thumbHeight: nat, k: nat)
    requires count > 0
    ensures var idx := CapturedIndices(video, duration, count, thumbHeight, k);
            && (forall j :: 0 <= j < |idx| ==> idx[j] < k)
            && (forall a, b :: 0 <= a < b < |idx| ==> idx[a] < idx[b])
            && (forall i :: 0 <= i < k ==> (i in idx <==> video.capture(SampleRequest(duration, count, thumbHeight, i)).Some?))
  {
    if k > 0 {
      var idx := CapturedIndices(video, duration, count, thumbHeight, k);
      var prev := CapturedIndices(video, duration, count, thumbHeight, k - 1);
      CapturedIndicesSelect(video, duration, count, thumbHeight, k - 1);
      if video.capture(SampleRequest(duration, count, thumbHeight, k - 1)).Some? {
        assert idx == prev + [k - 1];
        assert forall j :: 0 <= j < |prev| ==> idx[j] == prev[j];
        assert forall i :: 0 <= i < k - 1 ==> (i in idx <==> i in prev);
      } else {
        assert idx == prev;
      }
    }
  }

  /** Frame `j` of the loop's output is sample `idx[j]`, with its planned time, its id and its thumbnail. */
  lemma {:induction false} CapturedFramesMatchIndices(video: VideoSource, duration: real, count: nat, thumbHeight: nat, k: nat)
    requires count > 0
    ensures var frames := CapturedFrames(video, duration, count, thumbHeight, k);
            var idx := CapturedIndices(video, duration, count, thumbHeight, k);
            && |frames| == |idx|
            && (forall j :: 0 <= j < |idx| ==>
                  var req := SampleRequest(duration, count, thumbHeight, idx[j]);
                  && video.capture(req).Some?
                  && frames[j] == NewFrame(FrameId(idx[j]), PlanTimestamp(duration, count, idx[j]), video.capture(req).value))
  {
    if k > 0 {
      var frames := CapturedFrames(video, duration, count, thumbHeight, k);
      var idx := CapturedIndices(video, duration, count, thumbHeight, k);
      var prevFrames := CapturedFrames(video, duration, count, thumbHeight, k - 1);
      var prevIdx := CapturedIndices(video, duration, count, thumbHeight, k - 1);
      CapturedFramesMatchIndices(video, duration, count, thumbHeight, k - 1);
      var shot := video.capture(SampleRequest(duration, count, thumbHeight, k - 1));
      if shot.Some? {
        assert frames == prevFrames + [NewFrame(FrameId(k - 1), PlanTimestamp(duration, count, k - 1), shot.value)];
        assert idx == prevIdx + [k - 1];
        assert forall j :: 0 <= j < |prevIdx| ==> frames[j] == prevFrames[j] && idx[j] == prevIdx[j];
      } else {
        assert frames == prevFrames && idx == prevIdx;
      }
    }
  }

  /**
   * The captured frames are an order-preserving selection of the plan: frame `j`
   * is sample `idx[j]`, the indices increase, and a sample is selected exactly
   * when its capture succeeded.
   */
  lemma CapturedFramesFollowPlan(video: VideoSource, duration: real, count: nat, thumbHeight: nat, k: nat)
    requires count > 0
    ensures var frames := CapturedFrames(video, duration, count, thumbHeight, k);
            var idx := CapturedIndices(video, duration, count, thumbHeight, k);
            && |frames| == |idx|
            && (forall j :: 0 <= j < |idx| ==> idx[j] < k)
            && (forall a, b :: 0 <= a < b < |idx| ==> idx[a] < idx[b])
            && (forall i :: 0 <= i < k ==> (i in idx <==> video.capture(SampleRequest(duration, count, thumbHeight, i)).Some?))
            && (forall j :: 0 <= j < |idx| ==>
                  var req := SampleRequest(duration, count, thumbHeight, idx[j]);
                  && video.capture(req).Some?
                  && frames[j] == NewFrame(FrameId(idx[j]), PlanTimestamp(duration, count, idx[j]), video.capture(req).value))
  {
    CapturedIndicesSelect(video, duration, count, thumbHeight, k);
    CapturedFramesMatchIndices(video, duration, count, thumbHeight, k);
  }

  lemma {:induction false} NothingCaptured(video: VideoSource, duration: real, count: nat, thumbHeight: nat, k: nat)
    requires count > 0
    requires forall i :: 0 <= i < k ==> video.capture(SampleRequest(duration, count, thumbHeight, i)).None?
    ensures CapturedFrames(video, duration, count, thumbHeight, k) == []
  {
    if k > 0 {
      NothingCaptured(video, duration, count, thumbHeight, k - 1);
    }
  }

  /** The last-resort frame: `frame-0` at time 0 with whatever the extra capture at position 0 gave, or ''. */
  function FallbackFrame(video: VideoSource, count: nat, thumbHeight: nat): FrameData {
    match video.capture(CaptureRequest(count, 0.0, ThumbnailWidth, thumbHeight))
    case Some(thumb) => NewFrame("frame-0", 0.0, thumb)
    case None => NewFrame("frame-0", 0.0, "")
  }

  /** The frames of a run: the captured ones, or the single fallback frame when none was captured. */
  function SampleFrames(video: VideoSource, duration: real, count: nat, thumbHeight: nat): (frames: seq<FrameData>)
    requires count > 0
    ensures frames != []
  {
    var captured := CapturedFrames(video, duration, count, thumbHeight, count);
    if captured == [] then [FallbackFrame(video, count, thumbHeight)] else captured
  }

  /** What a successful `processVideo` returns for this source and file. */
  function SampledVideo(video: VideoSource, file: VideoFile): ProcessedVideoData {
    var duration := ResolveDuration(video.probedDuration, file.size);
    var resolution := ResolutionOf(video);
    var thumbHeight := ThumbnailHeight(resolution.width, resolution.height);
    ProcessedVideoData(SampleFrames(video, duration, FrameCount(duration), thumbHeight), duration, resolution)
  }

  /**
   * Shape of the result: at least one frame, a positive duration, a positive
   * resolution; every frame has an empty segmentation, a timestamp in
   * `[0, duration)`, timestamps strictly increase and ids are pairwise distinct.
   */
  lemma SampledVideoWellFormed(video: VideoSource, file: VideoFile)
    ensures var data := SampledVideo(video, file);
            && |data.frames| >= 1
            && data.duration > 0.0
            && data.resolution.width > 0 && data.resolution.height > 0
            && (forall j :: 0 <= j < |data.frames| ==> data.frames[j].segmentation == EmptySegmentation)
            && (forall j :: 0 <= j < |data.frames| ==> 0.0 <= data.frames[j].timestamp < data.duration)
            && (forall a, b :: 0 <= a < b < |data.frames| ==> data.frames[a].timestamp < data.frames[b].timestamp)
            && (forall a, b :: 0 <= a < b < |data.frames| ==> data.frames[a].id != data.frames[b].id)
  {
    var data := SampledVideo(video, file);
    var duration := data.duration;
    var count := FrameCount(duration);
    var thumbHeight := ThumbnailHeight(data.resolution.width, data.resolution.height);
    var captured := CapturedFrames(video, duration, count, thumbHeight, count);
    var idx := CapturedIndices(video, duration, count, thumbHeight, count);
    CapturedFramesFollowPlan(video, duration, count, thumbHeight, count);
    if captured != [] {
      forall j | 0 <= j < |captured|
        ensures 0.0 <= captured[j].timestamp < duration
      {
        PlanWithinDuration(duration, idx[j]);
      }
      forall a, b | 0 <= a < b < |captured|
        ensures captured[a].timestamp < captured[b].timestamp
        ensures captured[a].id != captured[b].id
      {
        PlanStrictlyIncreasing(duration, count, idx[a], idx[b]);
        FrameIdInjective(idx[a], idx[b]);
      }
    }
  }

  /**
   * A failed capture drops exactly its own sample: sample `i` appears in the
   * result, with its planned time and the id `frame-i`, exactly when its capture
   * succeeded (as long as at least one capture succeeded).
   */
  lemma SampleKeptIffCaptured(video: VideoSource, file: VideoFile, i: nat)
    requires var duration := ResolveDuration(video.probedDuration, file.size);
             i < FrameCount(duration)
    ensures var data := SampledVideo(video, file);
            var count := FrameCount(data.duration);
            var thumbHeight := ThumbnailHeight(data.resolution.width, data.resolution.height);
            CapturedFrames(video, data.duration, count, thumbHeight, count) != [] ==>
              ((exists j :: 0 <= j < |data.frames| && data.frames[j].id == FrameId(i)) <==>
                video.capture(SampleRequest(data.duration, count, thumbHeight, i)).Some?)
  {
    var data := SampledVideo(video, file);
    var duration := data.duration;
    var count := FrameCount(duration);
    var thumbHeight := ThumbnailHeight(data.resolution.width, data.resolution.height);
    var captured := CapturedFrames(video, duration, count, thumbHeight, count);
    var idx := CapturedIndices(video, duration, count, thumbHeight, count);
    CapturedFramesFollowPlan(video, duration, count, thumbHeight, count);
    if captured != [] {
      if video.capture(SampleRequest(duration, count, thumbHeight, i)).Some? {
        var j :| 0 <= j < |idx| && idx[j] == i;
        assert data.frames[j].id == FrameId(i);
      } else {
        forall j | 0 <= j < |data.frames|
          ensures data.frames[j].id != FrameId(i)
        {
          FrameIdInjective(idx[j], i);
        }
      }
    }
  }

  /**
   * When every sample's capture fails, the result is the single frame `frame-0`
   * at time 0, carrying the extra capture's thumbnail or '' if that failed too.
   */
  lemma FallbackWhenNothingCaptured(video: VideoSource, file: VideoFile)
    ensures var data := SampledVideo(video, file);
            var count := FrameCount(data.duration);
            var thumbHeight := ThumbnailHeight(data.resolution.width, data.resolution.height);
            (forall i :: 0 <= i < count ==> video.capture(SampleRequest(data.duration, count, thumbHeight, i)).None?) ==>
              && |data.frames| == 1
              && data.frames[0].id == "frame-0"
              && data.frames[0].timestamp == 0.0
              && data.frames[0].segmentation == EmptySegmentation
              && data.frames[0].thumbnail ==
                   video.capture(CaptureRequest(count, 0.0, ThumbnailWidth, thumbHeight)).GetOr("")
  {
    var data := SampledVideo(video, file);
    var duration := data.duration;
    var count := FrameCount(duration);
    var thumbHeight := ThumbnailHeight(data.resolution.width, data.resolution.height);
    var idx := CapturedIndices(video, duration, count, thumbHeight, count);
    CapturedFramesFollowPlan(video, duration, count, thumbHeight, count);
    if forall i :: 0 <= i < count ==> video.capture(SampleRequest(duration, count, thumbHeight, i)).None? {
      NothingCaptured(video, duration, count, thumbHeight, count);
    }
  }

  /** Progress reports never decrease and stay within `[0, 100]`. */
  ghost predicate ProgressWellFormed(progress: seq<int>) {
    && (forall k :: 0 <= k < |progress| ==> 0 <= progress[k] <= 100)
    && (forall k :: 0 < k < |progress| ==> progress[k - 1] <= progress[k])
  }

  lemma ProgressConcat(p: seq<int>, q: seq<int>)
    requires ProgressWellFormed(p) && ProgressWellFormed(q)
    requires |p| > 0 && |q| > 0 ==> p[|p| - 1] <= q[0]
    ensures ProgressWellFormed(p + q)
  {
    var r := p + q;
    forall k | 0 < k < |r|
      ensures r[k - 1] <= r[k]
    {
      if k == |p| {
        assert r[k - 1] == p[|p| - 1] && r[k] == q[0];
      } else if k < |p| {
        assert r[k - 1] == p[k - 1] && r[k] == p[k];
      } else {
        assert r[k - 1] == q[k - 1 - |p|] && r[k] == q[k - |p|];
      }
    }
  }

  /** The progress values reported at the top of iterations `0 .. n-1` of a run with `count` samples. */
  function LoopProgressLog(n: nat, count: nat): (log: seq<int>)
    requires 0 < count && n <= count
    ensures |log| == n
  {
    if n == 0 then [] else LoopProgressLog(n - 1, count) + [LoopProgress(n - 1, count)]
  }

  /** The loop's progress reports never decrease and stay within `[30, 89]`. */
  lemma {:induction false} LoopProgressLogWellFormed(n: nat, count: nat)
    requires 0 < count && n <= count
    ensures ProgressWellFormed(LoopProgressLog(n, count))
    ensures forall k :: 0 <= k < n ==> 30 <= LoopProgressLog(n, count)[k] <= 89
  {
    if n > 0 {
      var log := LoopProgressLog(n, count);
      var prev := LoopProgressLog(n - 1, count);
      LoopProgressLogWellFormed(n - 1, count);
      assert log == prev + [LoopProgress(n - 1, count)];
      assert forall k :: 0 <= k < n - 1 ==> log[k] == prev[k];
      if n > 1 {
        assert prev[n - 2] == LoopProgress(n - 2, count) by {
          assert prev == LoopProgressLog(n - 2, count) + [LoopProgress(n - 2, count)];
        }
        LoopProgressMonotone(n - 2, n - 1, count);
      }
      ProgressConcat(prev, [LoopProgress(n - 1, count)]);
    }
  }

  /**
   * The `for (i < frameCount)` loop of `processVideo`: seek to sample `i`'s time,
   * capture, and keep the frame unless the capture threw. `progress` logs the
   * value reported at the top of each iteration.
   */
  method CaptureSamples(video: VideoSource, duration: real, frameCount: nat, thumbHeight: nat)
      returns (frames: seq<FrameData>, ghost progress: seq<int>)
    requires frameCount > 0
    ensures frames == CapturedFrames(video, duration, frameCount, thumbHeight, frameCount)
    ensures ProgressWellFormed(progress) && |progress| == frameCount
    ensures forall k :: 0 <= k < frameCount ==> 30 <= progress[k] <= 89
  {
    var position := 0.0;
    frames, progress := [], [];
    for i := 0 to frameCount
      invariant frames == CapturedFrames(video, duration, frameCount, thumbHeight, i)
      invariant progress == LoopProgressLog(i, frameCount)
    {
      progress := progress + [LoopProgress(i, frameCount)];
      var timestamp := PlanTimestamp(duration, frameCount, i);
      position := timestamp;
      var request := CaptureRequest(i, position, ThumbnailWidth, thumbHeight);
      assert request == SampleRequest(duration, frameCount, thumbHeight, i);
      CapturedFramesStep(video, duration, frameCount, thumbHeight, i);
      var shot := video.capture(request);
      match shot {
        case Some(thumbnail) => frames := frames + [NewFrame(FrameId(i), timestamp, thumbnail)];
        case None =>
      }
    }
    LoopProgressLogWellFormed(frameCount, frameCount);
  }

  /**
   * The duration probe: the forced seek to the end, then `video.duration` when
   * it is finite and positive, otherwise the file-size estimate.
   */
  method ProbeDuration(video: VideoSource, file: VideoFile) returns (duration: real)
    ensures duration == ResolveDuration(video.probedDuration, file.size)
  {
    if video.probedDuration.Some? && video.probedDuration.value > 0.0 {
      duration := video.probedDuration.value;
    } else {
      var fileSizeMB := file.size as real / BytesPerMegabyte as real;
      duration := Max(fileSizeMB, DurationFloor);
    }
  }

  /**
   * The sampling loop followed by the fallback capture when the loop kept
   * nothing. `progress` logs the values reported by the loop.
   */
  method ExtractFrames(video: VideoSource, duration: real, frameCount: nat, thumbHeight: nat)
      returns (frames: seq<FrameData>, ghost progress: seq<int>)
    requires frameCount > 0
    ensures frames == SampleFrames(video, duration, frameCount, thumbHeight)
    ensures ProgressWellFormed(progress) && |progress| == frameCount
    ensures forall k :: 0 <= k < frameCount ==> 30 <= progress[k] <= 89
  {
    frames, progress := CaptureSamples(video, duration, frameCount, thumbHeight);
    if |frames| == 0 {
      var position := 0.0;
      var shot := video.capture(CaptureRequest(frameCount, position, ThumbnailWidth, thumbHeight));
      match shot {
        case Some(thumbnail) => frames := [NewFrame("frame-0", 0.0, thumbnail)];
        case None => frames := [NewFrame("frame-0", 0.0, "")];
      }
    }
  }

  /**
   * `processVideo`. A failed or timed-out load and a missing canvas context are
   * the errors it reports (with the message it throws); otherwise it returns
   * `SampledVideo(video, file)`, which always has at least one frame and a
   * positive duration. `progress` logs every `setProgress` value in order.
   */
  method ProcessVideo(video: VideoSource, file: VideoFile)
      returns (result: Result<ProcessedVideoData, string>, ghost progress: seq<int>)
    ensures result.Failure? <==> video.load != Loaded || !video.hasContext
    ensures video.load == LoadFailed ==> result == Failure("Failed to load video")
    ensures video.load == LoadTimedOut ==> result == Failure("Video load timeout")
    ensures video.load == Loaded && !video.hasContext ==> result == Failure("Could not create canvas context")
    ensures result.Success? ==> result.value == SampledVideo(video, file)
    ensures result.Success? ==> |result.value.frames| >= 1 && result.value.duration > 0.0
    ensures ProgressWellFormed(progress) && |progress| > 0 && progress[0] == 0
    ensures result.Success? ==> progress[|progress| - 1] == 100
  {
    progress := [0, 5];
    match video.load {
      case LoadFailed => result := Failure("Failed to load video"); return;
      case LoadTimedOut => result := Failure("Video load timeout"); return;
      case Loaded =>
    }
    progress := progress + [20];

    var duration := ProbeDuration(video, file);

    var width := OrDefault(video.videoWidth, DefaultWidth);
    var height := OrDefault(video.videoHeight, DefaultHeight);
    progress := progress + [30];

    var frameCount := FrameCount(duration);
    var thumbHeight := ThumbnailHeight(width, height);
    if !video.hasContext {
      result := Failure("Could not create canvas context");
      return;
    }
    var frames, loopProgress := ExtractFrames(video, duration, frameCount, thumbHeight);
    ghost var before := progress;
    assert before == [0, 5, 20, 30];
    ProgressConcat(before, loopProgress);
    ProgressConcat(before + loopProgress, [90, 100]);
    progress := before + loopProgress + [90, 100];
    assert progress[|progress| - 1] == 100;

    result := Success(ProcessedVideoData(frames, duration, Resolution(width, height)));
  }
}
