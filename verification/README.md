# Frame-count resampling, modelled in Dafny

This project models the core of two scripts. Each resamples a uniformly spaced
sequence of N items into exactly M items over the same time span:

- `change_camera_framecount.py` resamples camera poses. A pose is a 4x4 rigid transform.
- `change_video_framecount.py` resamples decoded video frames. It also derives the
  output frame rate.

Both scripts use the same mapping from target index to source position. Target
index k sits at p = k·N/M. Its lower neighbour is i = floor(p), with weight
alpha = p − i. A negative i would take the first item. An i at or past N−1 takes
the last item unchanged, whatever alpha is. Any other i blends items i and i+1.

All arithmetic in the model is exact:

- p is the rational k·N/M.
- i is its floor, proved equal to the integer division (k·N) div M.
- alpha is ((k·N) mod M)/M.

Modules:

- `Outcomes` (`outcomes.dfy`): the error kinds `EmptyInput` and `InvalidTargetCount`,
  plus `Result` and `Option`.
- `IndexMap` (`index_map.dfy`): position, neighbour index, weight and the clamp
  policy (`Select`). It also holds their monotonicity, the clamp region and the M = N identity.
- `Resample` (`resample.dfy`): the per-index loop over an abstract item type and an
  abstract interpolation.
- `Rigid` (`rigid.dfy`): 4x4 pack/unpack (`mat4_to_rt`, `rt_to_mat4`), `quat_to_rot`
  and the translation blend, over reals.
- `CameraFramecount` (`camera_framecount.dfy`): `resample_poses`. The routines
  `rot_to_quat` and `quat_slerp` are given functions (`RotationOps`).
- `VideoFramecount` (`video_framecount.dfy`): `resample_frames`. This covers source
  loading, the target-count check, the dimension choice, the duration-preserving
  rate and the writing loop. Frames are an abstract type and `cv2.addWeighted` is
  an abstract `blend(a, wa, b, wb)`.

Assumption on the video metadata: when the container reports a positive frame
count, the script takes N from that count and indexes the decoded list with it. It
does not use the length of the decoded list for i and i+1, but `frames[-1]` in the
clamped branch does take the decoded list's own last frame. The model requires the
two counts to agree (`CountMatches`) and then uses N = |decoded|. `FrameAtAsWritten` models the
script's indexing with an arbitrary reported count. `MetadataCountOverrun` shows
that a count of 3 with only 2 decoded frames makes target 1 of 3 read past the list.

With two poses resampled to three, target k = 0 lands on p = 0 with i = 0 < N−1,
so `resample_poses` interpolates it at weight 0 rather than copying pose 0
(`IndexMap.TwoToThree`).

## Model

| member | source | states |
|---|---|---|
| `IndexMap.FloorIsDivision` | change_camera_framecount.py:117-118 | the floor of the exact quotient a/m is the integer division a div m |
| `IndexMap.SourceIndex` | change_camera_framecount.py:117-118 | the neighbour index floor(k·N/M) is never negative and equals (k·N) div M |
| `IndexMap.Weight` | change_camera_framecount.py:117-119 | alpha = p − i equals ((k·N) mod M)/M and lies in [0, 1) |
| `IndexMap.Select` | change_camera_framecount.py:121-126 | with p = `Position(n, m, k)` = k·N/M (line 117): the first-item branch is unreachable; the last item is taken exactly when i ≥ N−1; otherwise both neighbours i and i+1 are below N, i ≤ p < i+1, and i + alpha = p |
| `IndexMap.SourceIndexMonotone` | change_camera_framecount.py:117-118 | the neighbour index is non-decreasing in k |
| `IndexMap.ClampRegion` | change_camera_framecount.py:123-124 | target k is clamped to the last item exactly when k·N ≥ (N−1)·M |
| `IndexMap.ClampIsSuffix` | change_camera_framecount.py:123-124 | once a target index is clamped, every later one is too |
| `IndexMap.SameCountIsIdentity` | change_camera_framecount.py:117-126 | with M = N, index k maps to i = k with alpha = 0; it is interpolated at weight 0 below N−1 and clamped at N−1 |
| `IndexMap.TwoToThree` | change_camera_framecount.py:116-129 | two poses to three: k=0 blends poses 0,1 at weight 0; k=1 blends them at 2/3; k=2 is clamped |
| `IndexMap.TenToFive` | change_video_framecount.py:76-89 | ten frames to five: k=2 lands exactly on frame 4 and k=4 on frame 8, both with weight 0 |
| `Resample.ItemAt` | change_camera_framecount.py:121-129 | the item emitted for target k: the last item when i = (k·N) div M ≥ N−1, otherwise the interpolation of items i and i+1 at weight alpha (the same rule is change_video_framecount.py:81-89) |
| `Resample.ResampleWith` | change_video_framecount.py:76-91 | exactly M items, one per k; a clamped k yields the last item; any other k yields the interpolation of items i and i+1 at weight alpha |
| `Resample.ResampleSameCount` | change_video_framecount.py:76-89 | resampling N items to N returns them unchanged when interpolation at weight 0 returns its first operand |
| `Rigid.Mat4ToRt` | change_camera_framecount.py:21-24 | rotation entry (i, j) is the pose's entry (i, j) for i, j < 3, and translation component i is the pose's entry (i, 3); `Rigid.PackAfterSplit` inverts it |
| `Rigid.RtToMat4` | change_camera_framecount.py:27-30 | the packed matrix has bottom row [0,0,0,1], and splitting it gives back the rotation and translation |
| `Rigid.PackAfterSplit` | change_camera_framecount.py:21-30 | splitting a 4x4 pose and packing it again gives the same matrix if and only if its bottom row is [0,0,0,1] |
| `Rigid.QuatToRot` | change_camera_framecount.py:65-75 | the rotation matrix of q = (w, x, y, z), pinned down by what `rot_to_quat` reads back from it (change_camera_framecount.py:35-60): with S = w²+x²+y²+z², the trace is 4w² − S and m00−m11−m22, m11−m00−m22, m22−m00−m11 are 4x² − S, 4y² − S, 4z² − S; m21−m12, m02−m20, m10−m01 are 4wx, 4wy, 4wz; m01+m10, m02+m20, m12+m21 are 4xy, 4xz, 4yz. `Rigid.Negate` and `Rigid.QuatToRotOrthonormal` carry its sign invariance and orthonormality |
| `Rigid.Negate` | change_camera_framecount.py:65-75 | −q gives the same rotation matrix as q and has the same norm |
| `Rigid.QuatToRotOrthonormal` | change_camera_framecount.py:65-75 | the rotation matrix of a unit quaternion has orthonormal rows |
| `Rigid.MixBetween` | change_camera_framecount.py:127 | for alpha in [0,1] the blend (1−alpha)·a + alpha·b lies between a and b |
| `Rigid.Mix` | change_camera_framecount.py:127 | the scalar blend is a at alpha 0, b at alpha 1, and between them for alpha in [0,1] |
| `Rigid.Lerp` | change_camera_framecount.py:127 | the translation blend is the first vector at alpha 0 and the second at alpha 1; for alpha in [0,1] each component lies between the two inputs' components |
| `CameraFramecount.PoseQuat` | change_camera_framecount.py:105-109 | the quaternion of a pose is `rot_to_quat` of its rotation block only: two poses that agree on that block get the same quaternion, whatever their translations |
| `CameraFramecount.InterpolatePose` | change_camera_framecount.py:126-129 | an interpolated pose has bottom row [0,0,0,1], the rotation of the slerped quaternion, and the blended translation |
| `CameraFramecount.InterpolatedPoseAt` | change_camera_framecount.py:117-129 | an unclamped output pose is `InterpolatePose` of poses i and i+1 at the weight alpha, and alpha lies in [0, 1) |
| `CameraFramecount.InterpolatedRotationOrthonormal` | change_camera_framecount.py:126-128 | when slerp returns a unit quaternion, the rotation block of the interpolated pose has orthonormal rows |
| `CameraFramecount.ResamplePoses` | change_camera_framecount.py:96-131 | an empty pose list fails with EmptyInput, and only then; otherwise there is one pose per k in range(M); a clamped k copies the last pose; any other k has the blended translation and slerped rotation of poses i and i+1 |
| `CameraFramecount.TranslationStaysBetween` | change_camera_framecount.py:127 | every interpolated output translation lies, componentwise, between the two neighbouring source translations |
| `CameraFramecount.SameCountKeepsTranslations` | change_camera_framecount.py:115-131 | resampling N poses to N copies the last pose and keeps every pose's translation |
| `CameraFramecount.SameCountKeepsLast` | change_camera_framecount.py:123-124 | resampling N poses to N copies the last pose unchanged |
| `CameraFramecount.SameCountTranslationAt` | change_camera_framecount.py:115-131 | resampling N poses to N keeps the translation of each pose k |
| `CameraFramecount.SameCountKeepsPoses` | change_camera_framecount.py:115-131 | resampling N poses to N returns them unchanged, provided: slerp at weight 0 returns its first quaternion whenever that one has unit length (`quat_slerp` normalises q0, line 79); every pose's quaternion has unit length (`rot_to_quat` normalises, line 62); and every pose has bottom row [0,0,0,1] and survives `quat_to_rot(rot_to_quat(R)) = R` |
| `VideoFramecount.Load` | change_video_framecount.py:34-56 | an empty decode is an error, and only then; in the counted path an unknown rate becomes 30, and in the metadata path the reported rate is kept |
| `VideoFramecount.Dimensions` | change_video_framecount.py:58-60 | the metadata's width and height are used unless either is 0; then the first frame's shape is used |
| `VideoFramecount.Duration` | change_video_framecount.py:67 | the duration is positive; it is N/fps for a positive rate and N otherwise |
| `VideoFramecount.DeriveFps` | change_video_framecount.py:67-68 | the new rate is positive; for a positive source rate M/fpsNew = N/fps; otherwise fpsNew = M/N |
| `VideoFramecount.BlendResample` | change_video_framecount.py:76-89 | exactly M frames; a clamped k is the last frame; any other k is blend(frames[i], 1−alpha, frames[i+1], alpha) |
| `VideoFramecount.FrameInterp` | change_video_framecount.py:86-89 | alpha = 0 gives the lower frame and alpha = 1 the upper one, as the comment at line 88 promises, whenever `cv2.addWeighted` returns the frame that carries all the weight; `ExactHitWeights` and `SameCountKeepsFrames` carry its consequences for the resampler |
| `VideoFramecount.ResampleFrames` | change_video_framecount.py:24-93 | EmptyInput exactly when nothing decodes; InvalidTargetCount exactly when frames decode and M ≤ 0; on success exactly M frames; a clamped k emits the last frame; any other k emits blend(frames[i], 1−alpha, frames[i+1], alpha); the rate is the derived one and the dimensions are the chosen ones |
| `VideoFramecount.WriteFrames` | change_video_framecount.py:76-91 | the writing loop appends one frame per k in order and produces exactly the resampled sequence |
| `VideoFramecount.ResampleKeepsDuration` | change_video_framecount.py:67-68 | with a positive source rate the output lasts as long as the source: M/fpsNew = N/fps |
| `VideoFramecount.SameCountKeepsRate` | change_video_framecount.py:67-68 | resampling N frames to N keeps a positive source rate exactly |
| `VideoFramecount.UnknownRateFallback` | change_video_framecount.py:46-68 | without a positive rate the output rate is M/N in the metadata path, and in the counted path the output lasts N/30 |
| `VideoFramecount.ExactHitWeights` | change_video_framecount.py:86-89 | an unclamped index with alpha = 0 blends with weight 1 on frame i and weight 0 on frame i+1 |
| `VideoFramecount.SameCountKeepsFrames` | change_video_framecount.py:76-91 | resampling N frames to N returns them unchanged when a (1, 0) blend returns its first frame; with a positive source rate the output rate equals it |
| `VideoFramecount.TenAtThirtyToFive` | change_video_framecount.py:67-68 | ten frames at 30 per second resampled to five are written at 15 per second |
| `VideoFramecount.FrameAtAsWritten` | change_video_framecount.py:62-89 | indexing with a reported count n fails exactly when nothing decoded or the upper neighbour is past the decoded list; a clamped k takes the decoded list's own last frame whatever n is; it agrees with the resampler when n = number of decoded frames |
| `VideoFramecount.MetadataCountOverrun` | change_video_framecount.py:62-89 | a reported count of 3 with 2 decoded frames makes target 1 of 3 read past the decoded list |

## Left out

- `rot_to_quat` and `quat_slerp` depend on square roots, trigonometry, normalisation and a 0.9995 threshold. They are parameters of `RotationOps` and the model proves nothing about them. `CameraFramecount.InterpolatedRotationOrthonormal` takes a unit-length slerp result as a hypothesis; that `quat_slerp` normalises its output is not proved.
- `cv2.addWeighted` saturates and rounds to 8-bit pixels. It is the abstract `blend` parameter.
- Floating-point rounding of k·N/M and `math.floor` is not modelled. The model uses exact rationals and integer division.
- Video capture and writer, FourCC codec, metadata reads, and the decoder and encoder open failures (`change_video_framecount.py:25-32, 70-73`) are I/O. Metadata and decoded frames are inputs, and the output video is the result.
- JSON load and dump, pass-through of other fields, and the `original_num_poses`/`target_num_poses` fields are document I/O.
- Argument parsing, file-existence checks, exit codes, and the pose tool's `M <= 0` check in `main` are command-line plumbing. `ResamplePoses` models `range(M)` itself: a non-positive M gives no poses.
- The script reads only the first three rows and their first four entries. Poses of other shapes that contain those entries (for example 3x4) are accepted, and a clamped k copies them unchanged. The model covers only the documented 4x4 shape (`Mat4`).
- CameraFramecount.SameCountKeepsTranslations: without hypotheses only translations are shown to survive M = N resampling. `SameCountKeepsPoses` covers rotations too, but takes three facts about the uninterpreted `rot_to_quat` and `quat_slerp` as hypotheses. First, `quat_slerp(q0, q1, 0)` returns q0 only when q0 has unit length, because it normalises q0 (change_camera_framecount.py:79). Second, `rot_to_quat` returns a unit quaternion, because it normalises its result (line 62). Third, `quat_to_rot(rot_to_quat(R)) = R`. The program meets these only up to floating-point error. `quat_to_rot` itself is modelled exactly (`Rigid.QuatToRot`).
- Frames of different shapes within one video are not modelled. Frames are opaque values.
- The `else fps_orig` branch of the rate derivation is modelled, but it is never taken: N ≥ 1 makes the duration positive.
