/**
  The pose resampler: N camera poses (4x4 rigid transforms) become exactly M poses.
  Clamped target indices copy the last source pose; the others rebuild a pose from
  the spherical interpolation of the neighbours' rotation quaternions and the linear
  blend of their translations.  Matrix-to-quaternion conversion and slerp are
  floating-point numerics and are taken as given functions.
*/
module CameraFramecount {
  import opened Outcomes
  import opened IndexMap
  import opened Resample
  import opened Rigid

  /** The two rotation routines the resampler relies on, left uninterpreted. */
  datatype RotationOps = RotationOps(
    toQuat: Mat3 -> Quat,              // rotation matrix to unit quaternion
    slerp: (Quat, Quat, real) -> Quat) // spherical interpolation at a weight

  /** Two poses agree on their upper-left 3x3 rotation block. */
  predicate SameRotationBlock(a: Mat4, b: Mat4) {
    forall i, j :: 0 <= i < 3 && 0 <= j < 3 ==> a[i][j] == b[i][j]
  }

  /** q is the quaternion of every pose that shares p's rotation block. */
  ghost predicate QuatOfBlock(ops: RotationOps, p: Mat4, q: Quat) {
    forall p': Mat4 :: SameRotationBlock(p, p') ==> ops.toQuat(Mat4ToRt(p').0) == q
  }

  /**
    The rotation quaternion of a pose: it is read from the rotation block alone, so
    poses that differ only in translation (or bottom row) get the same quaternion.
  */
  function PoseQuat(ops: RotationOps, p: Mat4): (q: Quat)
    ensures QuatOfBlock(ops, p, q)
  {
    ops.toQuat(Mat4ToRt(p).0)
  }

  /**
    The pose between a and b at weight alpha: its rotation is the slerp of the two
    quaternions, its translation the linear blend, and its bottom row is fixed.
  */
  function InterpolatePose(ops: RotationOps, a: Mat4, b: Mat4, alpha: real): (c: Mat4)
    ensures c[3] == BottomRow
    ensures Mat4ToRt(c).0 == QuatToRot(ops.slerp(PoseQuat(ops, a), PoseQuat(ops, b), alpha))
    ensures Translation(c) == Lerp(Translation(a), Translation(b), alpha)
  {
    var q := ops.slerp(PoseQuat(ops, a), PoseQuat(ops, b), alpha);
    var t := Lerp(Translation(a), Translation(b), alpha);
    RtToMat4(QuatToRot(q), t)
  }

  /**
    When slerp delivers a unit quaternion, the rotation block of the interpolated
    pose has orthonormal rows.
  */
  lemma InterpolatedRotationOrthonormal(ops: RotationOps, a: Mat4, b: Mat4, alpha: real)
    requires NormSq(ops.slerp(PoseQuat(ops, a), PoseQuat(ops, b), alpha)) == 1.0
    ensures var r := Mat4ToRt(InterpolatePose(ops, a, b, alpha)).0;
      Dot(r.r0, r.r0) == 1.0 && Dot(r.r1, r.r1) == 1.0 && Dot(r.r2, r.r2) == 1.0 &&
      Dot(r.r0, r.r1) == 0.0 && Dot(r.r0, r.r2) == 0.0 && Dot(r.r1, r.r2) == 0.0
  {
    QuatToRotOrthonormal(ops.slerp(PoseQuat(ops, a), PoseQuat(ops, b), alpha));
  }

  /** The interpolation rule of the pose resampler, as a value. */
  function PoseInterp(ops: RotationOps): (Mat4, Mat4, real) -> Mat4 {
    (a: Mat4, b: Mat4, alpha: real) => InterpolatePose(ops, a, b, alpha)
  }

  /** The number of iterations of a loop over range(m). */
  function RangeLength(m: int): nat {
    if m > 0 then m else 0
  }

  /**
    Resample the poses to the target count m.  An empty pose list is an error;
    otherwise there is one output pose per k in 0..m-1: the last source pose when
    k is clamped, an interpolated pose between the in-range neighbours i and i+1
    otherwise.
  */
  function ResamplePoses(poses: seq<Mat4>, m: int, ops: RotationOps): (r: Result<seq<Mat4>>)
    ensures r.Err? <==> |poses| == 0
    ensures r.Err? ==> r.error == EmptyInput
    ensures r.Ok? ==> |r.value| == RangeLength(m)
    ensures r.Ok? ==> forall k :: 0 <= k < |r.value| && (k * |poses|) / m >= |poses| - 1 ==>
      r.value[k] == poses[|poses| - 1]
    ensures r.Ok? ==> forall k :: 0 <= k < |r.value| && (k * |poses|) / m < |poses| - 1 ==>
      var (i, alpha) := ((k * |poses|) / m, Weight(|poses|, m, k));
      && r.value[k][3] == BottomRow
      && Translation(r.value[k]) == Lerp(Translation(poses[i]), Translation(poses[i + 1]), alpha)
      && Mat4ToRt(r.value[k]).0 == QuatToRot(ops.slerp(PoseQuat(ops, poses[i]), PoseQuat(ops, poses[i + 1]), alpha))
  {
    if |poses| == 0 then Err(EmptyInput)
    else
      var out := ResampleWith(poses, RangeLength(m), PoseInterp(ops));
      PoseSequenceFacts(poses, m, ops, out);
      Ok(out)
  }

  /** The per-index facts about the resampled pose sequence, one k at a time. */
  lemma PoseSequenceFacts(poses: seq<Mat4>, m: int, ops: RotationOps, out: seq<Mat4>)
    requires |poses| > 0 && out == ResampleWith(poses, RangeLength(m), PoseInterp(ops))
    ensures |out| == RangeLength(m)
    ensures forall k :: 0 <= k < |out| && (k * |poses|) / m >= |poses| - 1 ==>
      out[k] == poses[|poses| - 1]
    ensures forall k :: 0 <= k < |out| && (k * |poses|) / m < |poses| - 1 ==>
      var (i, alpha) := ((k * |poses|) / m, Weight(|poses|, m, k));
      && out[k][3] == BottomRow
      && Translation(out[k]) == Lerp(Translation(poses[i]), Translation(poses[i + 1]), alpha)
      && Mat4ToRt(out[k]).0 == QuatToRot(ops.slerp(PoseQuat(ops, poses[i]), PoseQuat(ops, poses[i + 1]), alpha))
  {
    forall k | 0 <= k < |out| && (k * |poses|) / m < |poses| - 1
      ensures var (i, alpha) := ((k * |poses|) / m, Weight(|poses|, m, k));
        out[k] == InterpolatePose(ops, poses[i], poses[i + 1], alpha)
    {
      assert out[k] == ItemAt(poses, RangeLength(m), k, PoseInterp(ops));
    }
  }

  /**
    Every interpolated translation lies, component by component, between the
    translations of the two neighbouring source poses.
  */
  lemma TranslationStaysBetween(poses: seq<Mat4>, m: int, ops: RotationOps, k: nat)
    requires |poses| > 0 && 0 <= k < m
    requires (k * |poses|) / m < |poses| - 1
    ensures var i := (k * |poses|) / m;
      var (ta, tb, t) := (Translation(poses[i]), Translation(poses[i + 1]), Translation(ResamplePoses(poses, m, ops).value[k]));
      Between(ta.x, tb.x, t.x) && Between(ta.y, tb.y, t.y) && Between(ta.z, tb.z, t.z)
  {
    var (i, alpha) := ((k * |poses|) / m, Weight(|poses|, m, k));
    InterpolatedPoseAt(poses, m, ops, k);
    InterpolatedTranslationBetween(ops, poses[i], poses[i + 1], alpha);
  }

  /** An unclamped output pose is the interpolation of its two neighbours, at a weight in [0, 1). */
  lemma InterpolatedPoseAt(poses: seq<Mat4>, m: int, ops: RotationOps, k: nat)
    requires |poses| > 0 && 0 <= k < m
    requires (k * |poses|) / m < |poses| - 1
    ensures var (i, alpha) := ((k * |poses|) / m, Weight(|poses|, m, k));
      && 0.0 <= alpha < 1.0
      && ResamplePoses(poses, m, ops).value[k] == InterpolatePose(ops, poses[i], poses[i + 1], alpha)
  {
    assert ResamplePoses(poses, m, ops).value[k] == ItemAt(poses, m, k, PoseInterp(ops));
  }

  /** For a weight in [0, 1] the interpolated translation lies between the two endpoints'. */
  lemma InterpolatedTranslationBetween(ops: RotationOps, a: Mat4, b: Mat4, alpha: real)
    requires 0.0 <= alpha <= 1.0
    ensures var (ta, tb, t) := (Translation(a), Translation(b), Translation(InterpolatePose(ops, a, b, alpha)));
      Between(ta.x, tb.x, t.x) && Between(ta.y, tb.y, t.y) && Between(ta.z, tb.z, t.z)
  {
  }

  /**
    Resampling N poses to N: the last pose is copied unchanged, and every other
    output pose keeps its source pose's translation exactly (weight 0).
  */
  lemma SameCountKeepsTranslations(poses: seq<Mat4>, ops: RotationOps)
    requires |poses| > 0
    ensures var out := ResamplePoses(poses, |poses|, ops).value;
      && |out| == |poses|
      && out[|poses| - 1] == poses[|poses| - 1]
      && forall k :: 0 <= k < |poses| ==> Translation(out[k]) == Translation(poses[k])
  {
    forall k | 0 <= k < |poses|
      ensures Translation(ResamplePoses(poses, |poses|, ops).value[k]) == Translation(poses[k])
    {
      SameCountTranslationAt(poses, ops, k);
    }
    SameCountKeepsLast(poses, ops);
  }

  /** Resampling N poses to N copies the last pose unchanged. */
  lemma SameCountKeepsLast(poses: seq<Mat4>, ops: RotationOps)
    requires |poses| > 0
    ensures |ResamplePoses(poses, |poses|, ops).value| == |poses|
    ensures ResamplePoses(poses, |poses|, ops).value[|poses| - 1] == poses[|poses| - 1]
  {
    var n := |poses|;
    SameCountIsIdentity(n, n - 1);
    assert ResamplePoses(poses, n, ops).value[n - 1] == ItemAt(poses, n, n - 1, PoseInterp(ops));
  }

  /** Resampling N poses to N keeps the translation of pose k. */
  lemma SameCountTranslationAt(poses: seq<Mat4>, ops: RotationOps, k: nat)
    requires k < |poses|
    ensures |ResamplePoses(poses, |poses|, ops).value| == |poses|
    ensures Translation(ResamplePoses(poses, |poses|, ops).value[k]) == Translation(poses[k])
  {
    var n := |poses|;
    SameCountIsIdentity(n, k);
    if k < n - 1 {
      InterpolatedPoseAt(poses, n, ops, k);
    } else {
      SameCountKeepsLast(poses, ops);
    }
  }

  /**
    A pose the numerics reproduce exactly: its bottom row is [0,0,0,1] and turning
    its rotation block into a quaternion and back gives the same block.
  */
  predicate RoundTrips(ops: RotationOps, p: Mat4) {
    p[3] == BottomRow && QuatToRot(ops.toQuat(Mat4ToRt(p).0)) == Mat4ToRt(p).0
  }

  /**
    Resampling N poses to N returns them unchanged, provided slerp at weight 0
    returns its first quaternion when that one has unit length, every pose's
    quaternion has unit length, and every pose survives the quaternion round trip.
  */
  lemma SameCountKeepsPoses(poses: seq<Mat4>, ops: RotationOps)
    requires |poses| > 0
    requires forall q0, q1 :: NormSq(q0) == 1.0 ==> ops.slerp(q0, q1, 0.0) == q0
    requires forall k :: 0 <= k < |poses| ==> NormSq(PoseQuat(ops, poses[k])) == 1.0
    requires forall k :: 0 <= k < |poses| ==> RoundTrips(ops, poses[k])
    ensures ResamplePoses(poses, |poses|, ops).value == poses
  {
    var n := |poses|;
    var out := ResamplePoses(poses, n, ops).value;
    forall k | 0 <= k < n
      ensures out[k] == poses[k]
    {
      SameCountIsIdentity(n, k);
      if k < n - 1 {
        assert RoundTrips(ops, poses[k]);
        assert NormSq(PoseQuat(ops, poses[k])) == 1.0;
        assert ops.slerp(PoseQuat(ops, poses[k]), PoseQuat(ops, poses[k + 1]), 0.0) == PoseQuat(ops, poses[k]);
        PackAfterSplit(poses[k]);
      }
    }
  }
}
