/**
  The frame resampler: the decoded frames of a video become exactly M frames with a
  frame rate that keeps the video's duration.  Frames are opaque; the weighted
  blend of two frames is a given function blend(a, wa, b, wb) = wa*a + wb*b.
  Decoding, encoding and the container metadata come from outside: the metadata
  and the decoded frame list are inputs, the output frames and rate are the result.
*/
module VideoFramecount {
  import opened Outcomes
  import opened IndexMap
  import opened Resample

  /** Container metadata; a missing entry reads as 0. */
  datatype Metadata = Metadata(fps: real, frameCount: int, width: int, height: int)

  /** The frames to write, with the rate and dimensions handed to the encoder. */
  datatype Video<F> = Video(frames: seq<F>, fps: real, width: int, height: int)

  /** The decoded source: its frames and the frame rate it is taken to have. */
  datatype Source<F> = Source(frames: seq<F>, fps: real)

  /** The frame rate assumed when the container reports none and the frame count was unknown. */
  const DefaultFps: real := 30.0

  /**
    The metadata's frame count, when it is positive, is the number of frames the
    decoder delivers; the resampler indexes the decoded list with it.
  */
  predicate CountMatches<F>(meta: Metadata, decoded: seq<F>) {
    meta.frameCount > 0 ==> meta.frameCount == |decoded|
  }

  /**
    Reading the source.  Without a positive frame count the frames are counted as
    decoded: none is an error, and an unknown rate becomes DefaultFps.  With a
    positive frame count the reported rate is kept as it is.
  */
  function Load<F>(meta: Metadata, decoded: seq<F>): (r: Result<Source<F>>)
    requires CountMatches(meta, decoded)
    ensures r.Err? <==> |decoded| == 0
    ensures r.Err? ==> r.error == EmptyInput
    ensures r.Ok? ==> r.value.frames == decoded
    ensures r.Ok? && meta.frameCount <= 0 ==> r.value.fps > 0.0
    ensures r.Ok? && meta.frameCount <= 0 && meta.fps <= 0.0 ==> r.value.fps == DefaultFps
    ensures r.Ok? && meta.frameCount <= 0 && meta.fps > 0.0 ==> r.value.fps == meta.fps
    ensures r.Ok? && meta.frameCount > 0 ==> r.value.fps == meta.fps
  {
    if meta.frameCount <= 0 then
      if |decoded| == 0 then Err(EmptyInput)
      else Ok(Source(decoded, if meta.fps <= 0.0 then DefaultFps else meta.fps))
    else
      Ok(Source(decoded, meta.fps))
  }

  /** The source duration: N/fps for a positive rate, otherwise N. */
  function Duration(n: nat, fps: real): (d: real)
    requires n > 0
    ensures d > 0.0
    ensures fps > 0.0 ==> d * fps == n as real
    ensures fps <= 0.0 ==> d == n as real
  {
    if fps > 0.0 then n as real / fps else n as real
  }

  /**
    The output rate M/duration.  For a positive source rate it keeps the
    duration (M/fpsNew = N/fps); without one it is M/N.
  */
  function DeriveFps(n: nat, m: nat, fps: real): (fpsNew: real)
    requires n > 0 && m > 0
    ensures fpsNew > 0.0
    ensures fps > 0.0 ==> m as real / fpsNew == n as real / fps
    ensures fps <= 0.0 ==> fpsNew == m as real / n as real
  {
    var duration := Duration(n, fps);
    if duration > 0.0 then m as real / duration else fps
  }

  /** A blend that returns its first frame when that frame carries all the weight. */
  ghost predicate FullWeightIsFirst<F(!new)>(blend: (F, real, F, real) -> F) {
    forall a, b :: blend(a, 1.0, b, 0.0) == a
  }

  /** A blend that returns its second frame when that frame carries all the weight. */
  ghost predicate FullWeightIsSecond<F(!new)>(blend: (F, real, F, real) -> F) {
    forall a, b :: blend(a, 0.0, b, 1.0) == b
  }

  /** An interpolation that gives its first frame at alpha = 0. */
  ghost predicate AtZeroIsFirst<F(!new)>(f: (F, F, real) -> F) {
    forall a, b :: f(a, b, 0.0) == a
  }

  /** An interpolation that gives its second frame at alpha = 1. */
  ghost predicate AtOneIsSecond<F(!new)>(f: (F, F, real) -> F) {
    forall a, b :: f(a, b, 1.0) == b
  }

  /**
    The frame interpolation: weight 1-alpha on the lower neighbour and alpha on the
    upper, so alpha = 0 gives the lower frame and alpha = 1 the upper one whenever the
    blend returns the frame that carries full weight. Frames are pixel arrays, plain
    values, hence F(!new).
  */
  function FrameInterp<F(!new)>(blend: (F, real, F, real) -> F): (f: (F, F, real) -> F)
    ensures FullWeightIsFirst(blend) ==> AtZeroIsFirst(f)
    ensures FullWeightIsSecond(blend) ==> AtOneIsSecond(f)
  {
    (a: F, b: F, alpha: real) => blend(a, 1.0 - alpha, b, alpha)
  }

  /**
    The encoder's dimensions: the metadata's, unless either is 0, then the first
    frame's (height, width). The contract is this two-way choice on purpose: the
    choice is the whole of what the script promises about the dimensions.
  */
  function Dimensions<F>(meta: Metadata, frames: seq<F>, shape: F -> (int, int)): (wh: (int, int))
    requires |frames| > 0
    ensures meta.width != 0 && meta.height != 0 ==> wh == (meta.width, meta.height)
    ensures meta.width == 0 || meta.height == 0 ==> wh == (shape(frames[0]).1, shape(frames[0]).0)
  {
    if meta.width == 0 || meta.height == 0 then
      var (h, w) := shape(frames[0]);
      (w, h)
    else
      (meta.width, meta.height)
  }

  /**
    The frames of the resampled video: exactly m frames; a clamped index emits the
    last frame as it is, any other blends its two neighbours with weights
    (1-alpha, alpha).
  */
  function BlendResample<F(!new)>(frames: seq<F>, m: nat, blend: (F, real, F, real) -> F): (out: seq<F>)
    requires |frames| > 0
    ensures |out| == m
    ensures forall k :: 0 <= k < m && (k * |frames|) / m >= |frames| - 1 ==>
      out[k] == frames[|frames| - 1]
    ensures forall k :: 0 <= k < m && (k * |frames|) / m < |frames| - 1 ==>
      var (i, alpha) := ((k * |frames|) / m, Weight(|frames|, m, k));
      out[k] == blend(frames[i], 1.0 - alpha, frames[i + 1], alpha)
  {
    ResampleWith(frames, m, FrameInterp(blend))
  }

  /** The contract of BlendResample, restated for the target count as an int. */
  lemma BlendedFrames<F(!new)>(decoded: seq<F>, target: int, blend: (F, real, F, real) -> F, frames: seq<F>)
    requires |decoded| > 0 && target > 0 && frames == BlendResample(decoded, target, blend)
    ensures |frames| == target
    ensures forall k :: 0 <= k < target && (k * |decoded|) / target >= |decoded| - 1 ==>
      frames[k] == decoded[|decoded| - 1]
    ensures forall k :: 0 <= k < target && (k * |decoded|) / target < |decoded| - 1 ==>
      var (i, alpha) := ((k * |decoded|) / target, Weight(|decoded|, target, k));
      frames[k] == blend(decoded[i], 1.0 - alpha, decoded[i + 1], alpha)
  {
  }

  /**
    Resample a decoded video to target frames.  Errors come in the order the
    script raises them: no decoded frame, then a non-positive target.  On success
    there are exactly target frames; a clamped index emits the last frame as it
    is, any other blends its two neighbours with weights (1-alpha, alpha); and the
    new rate keeps the duration.
  */
  function ResampleFrames<F(!new)>(meta: Metadata, decoded: seq<F>, target: int,
                             blend: (F, real, F, real) -> F, shape: F -> (int, int)): (r: Result<Video<F>>)
    requires CountMatches(meta, decoded)
    ensures r == Err(EmptyInput) <==> |decoded| == 0
    ensures r == Err(InvalidTargetCount) <==> |decoded| > 0 && target <= 0
    ensures r.Ok? ==> |r.value.frames| == target
    ensures r.Ok? ==> forall k :: 0 <= k < target && (k * |decoded|) / target >= |decoded| - 1 ==>
      r.value.frames[k] == decoded[|decoded| - 1]
    ensures r.Ok? ==> forall k :: 0 <= k < target && (k * |decoded|) / target < |decoded| - 1 ==>
      var (i, alpha) := ((k * |decoded|) / target, Weight(|decoded|, target, k));
      r.value.frames[k] == blend(decoded[i], 1.0 - alpha, decoded[i + 1], alpha)
    ensures r.Ok? ==> r.value.fps == DeriveFps(|decoded|, target, Load(meta, decoded).value.fps)
    ensures r.Ok? ==> (r.value.width, r.value.height) == Dimensions(meta, decoded, shape)
  {
    match Load(meta, decoded)
    case Err(e) => Err(e)
    case Ok(src) =>
      var (width, height) := Dimensions(meta, src.frames, shape);
      if target <= 0 then Err(InvalidTargetCount)
      else
        var frames := BlendResample(src.frames, target, blend);
        BlendedFrames(decoded, target, blend, frames);
        Ok(Video(frames, DeriveFps(|src.frames|, target, src.fps), width, height))
  }

  /**
    The writing loop: one frame per k in 0..m-1, appended in order, each the
    frame the resampling rule selects for k.
  */
  method WriteFrames<F(!new)>(frames: seq<F>, m: nat, blend: (F, real, F, real) -> F) returns (written: seq<F>)
    requires |frames| > 0
    ensures written == ResampleWith(frames, m, FrameInterp(blend))
  {
    var n := |frames|;
    written := [];
    var k := 0;
    while k < m
      invariant 0 <= k <= m
      invariant |written| == k
      invariant forall j :: 0 <= j < k ==> written[j] == ItemAt(frames, m, j, FrameInterp(blend))
    {
      var frame;
      var i := SourceIndex(n, m, k);
      var alpha := Weight(n, m, k);
      // The script's branch for a negative index is left out: SourceIndex is never negative.
      if i >= n - 1 {
        frame := frames[n - 1];
      } else {
        frame := blend(frames[i], 1.0 - alpha, frames[i + 1], alpha);
      }
      written := written + [frame];
      k := k + 1;
    }
  }

  /**
    Whenever the container reports a positive rate, the written video lasts as
    long as the source: target/fpsNew = N/fps.
  */
  lemma ResampleKeepsDuration<F(!new)>(meta: Metadata, decoded: seq<F>, target: int,
                                 blend: (F, real, F, real) -> F, shape: F -> (int, int))
    requires CountMatches(meta, decoded) && |decoded| > 0 && target > 0 && meta.fps > 0.0
    ensures var r := ResampleFrames(meta, decoded, target, blend, shape);
      r.Ok? && target as real / r.value.fps == |decoded| as real / meta.fps
  {
  }

  /**
    A target index that lands exactly on a source position (alpha = 0) and is not
    clamped blends with weight 1 on frame i and weight 0 on frame i+1.
  */
  lemma ExactHitWeights<F(!new)>(meta: Metadata, decoded: seq<F>, target: int,
                           blend: (F, real, F, real) -> F, shape: F -> (int, int), k: nat)
    requires CountMatches(meta, decoded) && |decoded| > 0 && k < target
    requires (k * |decoded|) / target < |decoded| - 1 && (k * |decoded|) % target == 0
    ensures var (r, i) := (ResampleFrames(meta, decoded, target, blend, shape), (k * |decoded|) / target);
      r.Ok? && r.value.frames[k] == blend(decoded[i], 1.0, decoded[i + 1], 0.0)
  {
    var n := |decoded|;
    var r := ResampleFrames(meta, decoded, target, blend, shape);
    var (i, alpha) := ((k * n) / target, Weight(n, target, k));
    assert alpha == 0.0 by {
      assert ((k * n) % target) as real == 0.0;
    }
    assert r.value.frames[k] == blend(decoded[i], 1.0 - alpha, decoded[i + 1], alpha);
  }

  /**
    Resampling N frames to N frames returns them unchanged when a blend with
    weights (1, 0) returns its first frame; the rate is then the source rate.
  */
  lemma SameCountKeepsFrames<F(!new)>(meta: Metadata, decoded: seq<F>,
                                blend: (F, real, F, real) -> F, shape: F -> (int, int))
    requires CountMatches(meta, decoded) && |decoded| > 0
    requires forall a, b :: blend(a, 1.0, b, 0.0) == a
    ensures var r := ResampleFrames(meta, decoded, |decoded|, blend, shape);
      r.Ok? && r.value.frames == decoded && (meta.fps > 0.0 ==> r.value.fps == meta.fps)
  {
    var interp := FrameInterp(blend);
    assert FullWeightIsFirst(blend);
    assert AtZeroIsFirst(interp);
    ResampleSameCount(decoded, interp);
    if meta.fps > 0.0 {
      SameCountKeepsRate(|decoded|, meta.fps);
    }
  }

  /** Keeping the frame count keeps a positive rate. */
  lemma SameCountKeepsRate(n: nat, fps: real)
    requires n > 0 && fps > 0.0
    ensures DeriveFps(n, n, fps) == fps
  {
    var d := Duration(n, fps);
    assert d * fps == n as real;
    assert DeriveFps(n, n, fps) == n as real / d;
  }

  /**
    Without a positive source rate: when the frame count was known the output
    rate is M/N; when it had to be counted the rate is taken as DefaultFps and the
    output lasts N/DefaultFps.
  */
  lemma UnknownRateFallback<F(!new)>(meta: Metadata, decoded: seq<F>, target: int,
                               blend: (F, real, F, real) -> F, shape: F -> (int, int))
    requires CountMatches(meta, decoded) && |decoded| > 0 && target > 0 && meta.fps <= 0.0
    ensures var r := ResampleFrames(meta, decoded, target, blend, shape);
      && r.Ok?
      && (meta.frameCount > 0 ==> r.value.fps == target as real / |decoded| as real)
      && (meta.frameCount <= 0 ==> target as real / r.value.fps == |decoded| as real / DefaultFps)
  {
  }

  /** Ten frames at 30 per second resampled to five are written at 15 per second. */
  lemma TenAtThirtyToFive()
    ensures DeriveFps(10, 5, 30.0) == 15.0
  {
  }

  /**
    The frame the script emits for k when it indexes the decoded list with a
    count n taken from the container (the metadata path), or None where that
    indexing fails: no frame at all, or an upper neighbour past the decoded list.
    The last frame is found from the decoded list's own length, not from n.
  */
  function FrameAtAsWritten<F(!new)>(frames: seq<F>, n: nat, m: nat, k: nat,
                               blend: (F, real, F, real) -> F): (r: Option<F>)
    requires k < m
    ensures r.None? <==> |frames| == 0 || (Select(n, m, k).Interpolate? && Select(n, m, k).lo + 1 >= |frames|)
    ensures Select(n, m, k) == Last && |frames| > 0 ==> r == Some(frames[|frames| - 1])
    ensures n == |frames| && n > 0 ==> r == Some(ItemAt(frames, m, k, FrameInterp(blend)))
  {
    var i := SourceIndex(n, m, k);
    var alpha := Weight(n, m, k);
    if i >= n - 1 then
      if |frames| == 0 then None else Some(frames[|frames| - 1])
    else if i + 1 >= |frames| then None
    else Some(blend(frames[i], 1.0 - alpha, frames[i + 1], alpha))
  }

  /**
    A container that reports 3 frames while only 2 decode: target index 1 of 3
    maps to position 1 with neighbour 2, which does not exist.
  */
  lemma MetadataCountOverrun<F(!new)>(a: F, b: F, blend: (F, real, F, real) -> F)
    ensures FrameAtAsWritten([a, b], 3, 3, 1, blend) == None
  {
  }
}
