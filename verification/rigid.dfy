/**
  Rigid transforms as the pose script holds them: a 4x4 homogeneous matrix, its
  3x3 rotation and 3-vector translation parts, rotation quaternions (w, x, y, z)
  and the linear blend of translations.  All arithmetic is exact over reals.
*/
module Rigid {

  datatype Vec3 = Vec3(x: real, y: real, z: real)

  /** A 3x3 matrix stored by rows. */
  datatype Mat3 = Mat3(r0: Vec3, r1: Vec3, r2: Vec3)

  datatype Quat = Quat(w: real, x: real, y: real, z: real)

  /** A matrix given as 4 rows of 4 numbers, the layout of one pose in the input document. */
  predicate Is4x4(m: seq<seq<real>>) {
    |m| == 4 && forall i :: 0 <= i < 4 ==> |m[i]| == 4
  }

  type Mat4 = m: seq<seq<real>> | Is4x4(m)
    witness [[0.0, 0.0, 0.0, 0.0], [0.0, 0.0, 0.0, 0.0], [0.0, 0.0, 0.0, 0.0], [0.0, 0.0, 0.0, 0.0]]

  /** The fixed bottom row of a homogeneous rigid transform. */
  const BottomRow: seq<real> := [0.0, 0.0, 0.0, 1.0]

  /** Component i of a vector, counting from 0. */
  function Component(v: Vec3, i: nat): real
    requires i < 3
  {
    if i == 0 then v.x else if i == 1 then v.y else v.z
  }

  /** Row i of a 3x3 matrix, counting from 0. */
  function Row(r: Mat3, i: nat): Vec3
    requires i < 3
  {
    if i == 0 then r.r0 else if i == 1 then r.r1 else r.r2
  }

  /**
    Split a 4x4 pose: entry (i, j) of the rotation is m[i][j] for i, j < 3, and
    component i of the translation is m[i][3].
  */
  function Mat4ToRt(m: Mat4): (rt: (Mat3, Vec3))
    ensures forall i, j :: 0 <= i < 3 && 0 <= j < 3 ==> Component(Row(rt.0, i), j) == m[i][j]
    ensures forall i :: 0 <= i < 3 ==> Component(rt.1, i) == m[i][3]
  {
    (Mat3(Vec3(m[0][0], m[0][1], m[0][2]),
          Vec3(m[1][0], m[1][1], m[1][2]),
          Vec3(m[2][0], m[2][1], m[2][2])),
     Vec3(m[0][3], m[1][3], m[2][3]))
  }

  /** The translation part of a pose. */
  function Translation(m: Mat4): Vec3 {
    Mat4ToRt(m).1
  }

  /** Assemble a 4x4 pose from a rotation and a translation; splitting it again gives them back. */
  function RtToMat4(r: Mat3, t: Vec3): (m: Mat4)
    ensures m[3] == BottomRow
    ensures Mat4ToRt(m) == (r, t)
  {
    [[r.r0.x, r.r0.y, r.r0.z, t.x],
     [r.r1.x, r.r1.y, r.r1.z, t.y],
     [r.r2.x, r.r2.y, r.r2.z, t.z],
     [0.0, 0.0, 0.0, 1.0]]
  }

  /** Splitting then reassembling a pose restores it exactly when its bottom row is [0,0,0,1]. */
  lemma PackAfterSplit(m: Mat4)
    ensures RtToMat4(Mat4ToRt(m).0, Mat4ToRt(m).1) == m <==> m[3] == BottomRow
  {
    var m' := RtToMat4(Mat4ToRt(m).0, Mat4ToRt(m).1);
    if m[3] == BottomRow {
      forall i | 0 <= i < 4
        ensures m'[i] == m[i]
      {
        assert |m[i]| == 4;
      }
    }
  }

  /** The rotation matrix of the quaternion (w, x, y, z), written out entry by entry. */
  function RotOf(w: real, x: real, y: real, z: real): Mat3 {
    Mat3(Vec3(w * w + x * x - y * y - z * z,
              2.0 * (x * y - w * z),
              2.0 * (x * z + w * y)),
         Vec3(2.0 * (x * y + w * z),
              w * w - x * x + y * y - z * z,
              2.0 * (y * z - w * x)),
         Vec3(2.0 * (x * z - w * y),
              2.0 * (y * z + w * x),
              w * w - x * x - y * y + z * z))
  }

  /**
    Rotation matrix of a quaternion.  The quaternion can be read back from it:
    the four signed diagonal sums give 4w^2, 4x^2, 4y^2, 4z^2 less |q|^2, the
    antisymmetric differences give 4wx, 4wy, 4wz, and the symmetric sums give
    4xy, 4xz, 4yz.
  */
  function QuatToRot(q: Quat): (r: Mat3)
    ensures r.r0.x + r.r1.y + r.r2.z == 4.0 * (q.w * q.w) - NormSq(q)
    ensures r.r0.x - r.r1.y - r.r2.z == 4.0 * (q.x * q.x) - NormSq(q)
    ensures r.r1.y - r.r0.x - r.r2.z == 4.0 * (q.y * q.y) - NormSq(q)
    ensures r.r2.z - r.r0.x - r.r1.y == 4.0 * (q.z * q.z) - NormSq(q)
    ensures r.r2.y - r.r1.z == 4.0 * (q.w * q.x)
    ensures r.r0.z - r.r2.x == 4.0 * (q.w * q.y)
    ensures r.r1.x - r.r0.y == 4.0 * (q.w * q.z)
    ensures r.r0.y + r.r1.x == 4.0 * (q.x * q.y)
    ensures r.r0.z + r.r2.x == 4.0 * (q.x * q.z)
    ensures r.r1.z + r.r2.y == 4.0 * (q.y * q.z)
  {
    RotOfDiagonal(q.w, q.x, q.y, q.z);
    RotOfAntisymmetric(q.w, q.x, q.y, q.z);
    RotOfSymmetric(q.w, q.x, q.y, q.z);
    RotOf(q.w, q.x, q.y, q.z)
  }

  /** The signed diagonal sums of the rotation matrix, with s = w^2 + x^2 + y^2 + z^2. */
  lemma RotOfDiagonal(w: real, x: real, y: real, z: real)
    ensures var r, s := RotOf(w, x, y, z), w * w + x * x + y * y + z * z;
      && r.r0.x + r.r1.y + r.r2.z == 4.0 * (w * w) - s
      && r.r0.x - r.r1.y - r.r2.z == 4.0 * (x * x) - s
      && r.r1.y - r.r0.x - r.r2.z == 4.0 * (y * y) - s
      && r.r2.z - r.r0.x - r.r1.y == 4.0 * (z * z) - s
  {
  }

  /** The antisymmetric differences of the rotation matrix. */
  lemma RotOfAntisymmetric(w: real, x: real, y: real, z: real)
    ensures var r := RotOf(w, x, y, z);
      && r.r2.y - r.r1.z == 4.0 * (w * x)
      && r.r0.z - r.r2.x == 4.0 * (w * y)
      && r.r1.x - r.r0.y == 4.0 * (w * z)
  {
  }

  /** The symmetric sums of the rotation matrix. */
  lemma RotOfSymmetric(w: real, x: real, y: real, z: real)
    ensures var r := RotOf(w, x, y, z);
      && r.r0.y + r.r1.x == 4.0 * (x * y)
      && r.r0.z + r.r2.x == 4.0 * (x * z)
      && r.r1.z + r.r2.y == 4.0 * (y * z)
  {
  }

  /** The opposite quaternion -q; it encodes the same rotation as q. */
  function Negate(q: Quat): (r: Quat)
    ensures QuatToRot(r) == QuatToRot(q)
    ensures NormSq(r) == NormSq(q)
  {
    NegationKeepsRotation(q.w, q.x, q.y, q.z);
    Quat(-q.w, -q.x, -q.y, -q.z)
  }

  /** Negating all four components changes none of their pairwise products, so none of the entries. */
  lemma NegationKeepsRotation(w: real, x: real, y: real, z: real)
    ensures RotOf(-w, -x, -y, -z) == RotOf(w, x, y, z)
  {
    NegMul(w, w); NegMul(x, x); NegMul(y, y); NegMul(z, z);
    NegMul(x, y); NegMul(x, z); NegMul(y, z);
    NegMul(w, x); NegMul(w, y); NegMul(w, z);
  }

  lemma NegMul(a: real, b: real)
    ensures (-a) * (-b) == a * b
  {
  }

  function Dot(a: Vec3, b: Vec3): real {
    a.x * b.x + a.y * b.y + a.z * b.z
  }

  function NormSq(q: Quat): real {
    q.w * q.w + q.x * q.x + q.y * q.y + q.z * q.z
  }

  /**
    The dot product of (a0, a1, a2) and (b0, b1, b2).  Stating the row
    identities below through it keeps each one a polynomial identity in the
    components of q.
  */
  function Dot3(a0: real, a1: real, a2: real, b0: real, b1: real, b2: real): real {
    a0 * b0 + a1 * b1 + a2 * b2
  }

  lemma DotComponents(a: Vec3, b: Vec3)
    ensures Dot(a, b) == Dot3(a.x, a.y, a.z, b.x, b.y, b.z)
  {
  }

  /** Row 0 written out: multiplied out entry by entry, its squared length is |q|^4. */
  lemma Row0LengthExpanded(q: Quat)
    ensures Dot3(q.w * q.w + q.x * q.x - q.y * q.y - q.z * q.z,
                 2.0 * (q.x * q.y - q.w * q.z),
                 2.0 * (q.x * q.z + q.w * q.y),
                 q.w * q.w + q.x * q.x - q.y * q.y - q.z * q.z,
                 2.0 * (q.x * q.y - q.w * q.z),
                 2.0 * (q.x * q.z + q.w * q.y)) == NormSq(q) * NormSq(q)
  {
    assert (q.w * q.w + q.x * q.x - q.y * q.y - q.z * q.z) * (q.w * q.w + q.x * q.x - q.y * q.y - q.z * q.z) ==
      q.w * q.w * q.w * q.w + 2.0 * q.w * q.w * q.x * q.x - 2.0 * q.w * q.w * q.y * q.y
      - 2.0 * q.w * q.w * q.z * q.z + q.x * q.x * q.x * q.x - 2.0 * q.x * q.x * q.y * q.y
      - 2.0 * q.x * q.x * q.z * q.z + q.y * q.y * q.y * q.y + 2.0 * q.y * q.y * q.z * q.z
      + q.z * q.z * q.z * q.z;
    assert (2.0 * (q.x * q.y - q.w * q.z)) * (2.0 * (q.x * q.y - q.w * q.z)) ==
      4.0 * q.w * q.w * q.z * q.z - 8.0 * q.w * q.x * q.y * q.z
      + 4.0 * q.x * q.x * q.y * q.y;
    assert (2.0 * (q.x * q.z + q.w * q.y)) * (2.0 * (q.x * q.z + q.w * q.y)) ==
      4.0 * q.w * q.w * q.y * q.y + 8.0 * q.w * q.x * q.y * q.z
      + 4.0 * q.x * q.x * q.z * q.z;
    assert NormSq(q) * NormSq(q) ==
      q.w * q.w * q.w * q.w + 2.0 * q.w * q.w * q.x * q.x + 2.0 * q.w * q.w * q.y * q.y
      + 2.0 * q.w * q.w * q.z * q.z + q.x * q.x * q.x * q.x + 2.0 * q.x * q.x * q.y * q.y
      + 2.0 * q.x * q.x * q.z * q.z + q.y * q.y * q.y * q.y + 2.0 * q.y * q.y * q.z * q.z
      + q.z * q.z * q.z * q.z;
  }

  /** Row 0 of the rotation matrix has squared length |q|^4. */
  lemma Row0Length(q: Quat)
    ensures Dot(QuatToRot(q).r0, QuatToRot(q).r0) == NormSq(q) * NormSq(q)
  {
    var r := QuatToRot(q);
    DotComponents(r.r0, r.r0);
    Row0LengthExpanded(q);
  }

  /** Rows 0 and 1 written out: multiplied out entry by entry, their dot product cancels. */
  lemma Rows01OrthogonalExpanded(q: Quat)
    ensures Dot3(q.w * q.w + q.x * q.x - q.y * q.y - q.z * q.z,
                 2.0 * (q.x * q.y - q.w * q.z),
                 2.0 * (q.x * q.z + q.w * q.y),
                 2.0 * (q.x * q.y + q.w * q.z),
                 q.w * q.w - q.x * q.x + q.y * q.y - q.z * q.z,
                 2.0 * (q.y * q.z - q.w * q.x)) == 0.0
  {
    assert (q.w * q.w + q.x * q.x - q.y * q.y - q.z * q.z) * (2.0 * (q.x * q.y + q.w * q.z)) ==
      2.0 * q.w * q.w * q.w * q.z + 2.0 * q.w * q.w * q.x * q.y
      + 2.0 * q.w * q.x * q.x * q.z - 2.0 * q.w * q.y * q.y * q.z
      - 2.0 * q.w * q.z * q.z * q.z + 2.0 * q.x * q.x * q.x * q.y
      - 2.0 * q.x * q.y * q.y * q.y - 2.0 * q.x * q.y * q.z * q.z;
    assert (2.0 * (q.x * q.y - q.w * q.z)) * (q.w * q.w - q.x * q.x + q.y * q.y - q.z * q.z) ==
      - 2.0 * q.w * q.w * q.w * q.z + 2.0 * q.w * q.w * q.x * q.y
      + 2.0 * q.w * q.x * q.x * q.z - 2.0 * q.w * q.y * q.y * q.z
      + 2.0 * q.w * q.z * q.z * q.z - 2.0 * q.x * q.x * q.x * q.y
      + 2.0 * q.x * q.y * q.y * q.y - 2.0 * q.x * q.y * q.z * q.z;
    assert (2.0 * (q.x * q.z + q.w * q.y)) * (2.0 * (q.y * q.z - q.w * q.x)) ==
      - 4.0 * q.w * q.w * q.x * q.y - 4.0 * q.w * q.x * q.x * q.z
      + 4.0 * q.w * q.y * q.y * q.z + 4.0 * q.x * q.y * q.z * q.z;
  }

  /** Rows 0 and 1 of the rotation matrix are orthogonal, whatever the length of q. */
  lemma Rows01Orthogonal(q: Quat)
    ensures Dot(QuatToRot(q).r0, QuatToRot(q).r1) == 0.0
  {
    var r := QuatToRot(q);
    DotComponents(r.r0, r.r1);
    Rows01OrthogonalExpanded(q);
  }

  /** Rows 0 and 2 written out: multiplied out entry by entry, their dot product cancels. */
  lemma Rows02OrthogonalExpanded(q: Quat)
    ensures Dot3(q.w * q.w + q.x * q.x - q.y * q.y - q.z * q.z,
                 2.0 * (q.x * q.y - q.w * q.z),
                 2.0 * (q.x * q.z + q.w * q.y),
                 2.0 * (q.x * q.z - q.w * q.y),
                 2.0 * (q.y * q.z + q.w * q.x),
                 q.w * q.w - q.x * q.x - q.y * q.y + q.z * q.z) == 0.0
  {
    assert (q.w * q.w + q.x * q.x - q.y * q.y - q.z * q.z) * (2.0 * (q.x * q.z - q.w * q.y)) ==
      - 2.0 * q.w * q.w * q.w * q.y + 2.0 * q.w * q.w * q.x * q.z
      - 2.0 * q.w * q.x * q.x * q.y + 2.0 * q.w * q.y * q.y * q.y
      + 2.0 * q.w * q.y * q.z * q.z + 2.0 * q.x * q.x * q.x * q.z
      - 2.0 * q.x * q.y * q.y * q.z - 2.0 * q.x * q.z * q.z * q.z;
    assert (2.0 * (q.x * q.y - q.w * q.z)) * (2.0 * (q.y * q.z + q.w * q.x)) ==
      - 4.0 * q.w * q.w * q.x * q.z + 4.0 * q.w * q.x * q.x * q.y
      - 4.0 * q.w * q.y * q.z * q.z + 4.0 * q.x * q.y * q.y * q.z;
    assert (2.0 * (q.x * q.z + q.w * q.y)) * (q.w * q.w - q.x * q.x - q.y * q.y + q.z * q.z) ==
      2.0 * q.w * q.w * q.w * q.y + 2.0 * q.w * q.w * q.x * q.z
      - 2.0 * q.w * q.x * q.x * q.y - 2.0 * q.w * q.y * q.y * q.y
      + 2.0 * q.w * q.y * q.z * q.z - 2.0 * q.x * q.x * q.x * q.z
      - 2.0 * q.x * q.y * q.y * q.z + 2.0 * q.x * q.z * q.z * q.z;
  }

  /** Rows 0 and 2 of the rotation matrix are orthogonal, whatever the length of q. */
  lemma Rows02Orthogonal(q: Quat)
    ensures Dot(QuatToRot(q).r0, QuatToRot(q).r2) == 0.0
  {
    var r := QuatToRot(q);
    DotComponents(r.r0, r.r2);
    Rows02OrthogonalExpanded(q);
  }

  /** Row 1 written out: multiplied out entry by entry, its squared length is |q|^4. */
  lemma Row1LengthExpanded(q: Quat)
    ensures Dot3(2.0 * (q.x * q.y + q.w * q.z),
                 q.w * q.w - q.x * q.x + q.y * q.y - q.z * q.z,
                 2.0 * (q.y * q.z - q.w * q.x),
                 2.0 * (q.x * q.y + q.w * q.z),
                 q.w * q.w - q.x * q.x + q.y * q.y - q.z * q.z,
                 2.0 * (q.y * q.z - q.w * q.x)) == NormSq(q) * NormSq(q)
  {
    assert (2.0 * (q.x * q.y + q.w * q.z)) * (2.0 * (q.x * q.y + q.w * q.z)) ==
      4.0 * q.w * q.w * q.z * q.z + 8.0 * q.w * q.x * q.y * q.z
      + 4.0 * q.x * q.x * q.y * q.y;
    assert (q.w * q.w - q.x * q.x + q.y * q.y - q.z * q.z) * (q.w * q.w - q.x * q.x + q.y * q.y - q.z * q.z) ==
      q.w * q.w * q.w * q.w - 2.0 * q.w * q.w * q.x * q.x + 2.0 * q.w * q.w * q.y * q.y
      - 2.0 * q.w * q.w * q.z * q.z + q.x * q.x * q.x * q.x - 2.0 * q.x * q.x * q.y * q.y
      + 2.0 * q.x * q.x * q.z * q.z + q.y * q.y * q.y * q.y - 2.0 * q.y * q.y * q.z * q.z
      + q.z * q.z * q.z * q.z;
    assert (2.0 * (q.y * q.z - q.w * q.x)) * (2.0 * (q.y * q.z - q.w * q.x)) ==
      4.0 * q.w * q.w * q.x * q.x - 8.0 * q.w * q.x * q.y * q.z
      + 4.0 * q.y * q.y * q.z * q.z;
    assert NormSq(q) * NormSq(q) ==
      q.w * q.w * q.w * q.w + 2.0 * q.w * q.w * q.x * q.x + 2.0 * q.w * q.w * q.y * q.y
      + 2.0 * q.w * q.w * q.z * q.z + q.x * q.x * q.x * q.x + 2.0 * q.x * q.x * q.y * q.y
      + 2.0 * q.x * q.x * q.z * q.z + q.y * q.y * q.y * q.y + 2.0 * q.y * q.y * q.z * q.z
      + q.z * q.z * q.z * q.z;
  }

  /** Row 1 of the rotation matrix has squared length |q|^4. */
  lemma Row1Length(q: Quat)
    ensures Dot(QuatToRot(q).r1, QuatToRot(q).r1) == NormSq(q) * NormSq(q)
  {
    var r := QuatToRot(q);
    DotComponents(r.r1, r.r1);
    Row1LengthExpanded(q);
  }

  /** Rows 1 and 2 written out: multiplied out entry by entry, their dot product cancels. */
  lemma Rows12OrthogonalExpanded(q: Quat)
    ensures Dot3(2.0 * (q.x * q.y + q.w * q.z),
                 q.w * q.w - q.x * q.x + q.y * q.y - q.z * q.z,
                 2.0 * (q.y * q.z - q.w * q.x),
                 2.0 * (q.x * q.z - q.w * q.y),
                 2.0 * (q.y * q.z + q.w * q.x),
                 q.w * q.w - q.x * q.x - q.y * q.y + q.z * q.z) == 0.0
  {
    assert (2.0 * (q.x * q.y + q.w * q.z)) * (2.0 * (q.x * q.z - q.w * q.y)) ==
      - 4.0 * q.w * q.w * q.y * q.z - 4.0 * q.w * q.x * q.y * q.y
      + 4.0 * q.w * q.x * q.z * q.z + 4.0 * q.x * q.x * q.y * q.z;
    assert (q.w * q.w - q.x * q.x + q.y * q.y - q.z * q.z) * (2.0 * (q.y * q.z + q.w * q.x)) ==
      2.0 * q.w * q.w * q.w * q.x + 2.0 * q.w * q.w * q.y * q.z
      - 2.0 * q.w * q.x * q.x * q.x + 2.0 * q.w * q.x * q.y * q.y
      - 2.0 * q.w * q.x * q.z * q.z - 2.0 * q.x * q.x * q.y * q.z
      + 2.0 * q.y * q.y * q.y * q.z - 2.0 * q.y * q.z * q.z * q.z;
    assert (2.0 * (q.y * q.z - q.w * q.x)) * (q.w * q.w - q.x * q.x - q.y * q.y + q.z * q.z) ==
      - 2.0 * q.w * q.w * q.w * q.x + 2.0 * q.w * q.w * q.y * q.z
      + 2.0 * q.w * q.x * q.x * q.x + 2.0 * q.w * q.x * q.y * q.y
      - 2.0 * q.w * q.x * q.z * q.z - 2.0 * q.x * q.x * q.y * q.z
      - 2.0 * q.y * q.y * q.y * q.z + 2.0 * q.y * q.z * q.z * q.z;
  }

  /** Rows 1 and 2 of the rotation matrix are orthogonal, whatever the length of q. */
  lemma Rows12Orthogonal(q: Quat)
    ensures Dot(QuatToRot(q).r1, QuatToRot(q).r2) == 0.0
  {
    var r := QuatToRot(q);
    DotComponents(r.r1, r.r2);
    Rows12OrthogonalExpanded(q);
  }

  /** Row 2 written out: multiplied out entry by entry, its squared length is |q|^4. */
  lemma Row2LengthExpanded(q: Quat)
    ensures Dot3(2.0 * (q.x * q.z - q.w * q.y),
                 2.0 * (q.y * q.z + q.w * q.x),
                 q.w * q.w - q.x * q.x - q.y * q.y + q.z * q.z,
                 2.0 * (q.x * q.z - q.w * q.y),
                 2.0 * (q.y * q.z + q.w * q.x),
                 q.w * q.w - q.x * q.x - q.y * q.y + q.z * q.z) == NormSq(q) * NormSq(q)
  {
    assert (2.0 * (q.x * q.z - q.w * q.y)) * (2.0 * (q.x * q.z - q.w * q.y)) ==
      4.0 * q.w * q.w * q.y * q.y - 8.0 * q.w * q.x * q.y * q.z
      + 4.0 * q.x * q.x * q.z * q.z;
    assert (2.0 * (q.y * q.z + q.w * q.x)) * (2.0 * (q.y * q.z + q.w * q.x)) ==
      4.0 * q.w * q.w * q.x * q.x + 8.0 * q.w * q.x * q.y * q.z
      + 4.0 * q.y * q.y * q.z * q.z;
    assert (q.w * q.w - q.x * q.x - q.y * q.y + q.z * q.z) * (q.w * q.w - q.x * q.x - q.y * q.y + q.z * q.z) ==
      q.w * q.w * q.w * q.w - 2.0 * q.w * q.w * q.x * q.x - 2.0 * q.w * q.w * q.y * q.y
      + 2.0 * q.w * q.w * q.z * q.z + q.x * q.x * q.x * q.x + 2.0 * q.x * q.x * q.y * q.y
      - 2.0 * q.x * q.x * q.z * q.z + q.y * q.y * q.y * q.y - 2.0 * q.y * q.y * q.z * q.z
      + q.z * q.z * q.z * q.z;
    assert NormSq(q) * NormSq(q) ==
      q.w * q.w * q.w * q.w + 2.0 * q.w * q.w * q.x * q.x + 2.0 * q.w * q.w * q.y * q.y
      + 2.0 * q.w * q.w * q.z * q.z + q.x * q.x * q.x * q.x + 2.0 * q.x * q.x * q.y * q.y
      + 2.0 * q.x * q.x * q.z * q.z + q.y * q.y * q.y * q.y + 2.0 * q.y * q.y * q.z * q.z
      + q.z * q.z * q.z * q.z;
  }

  /** Row 2 of the rotation matrix has squared length |q|^4. */
  lemma Row2Length(q: Quat)
    ensures Dot(QuatToRot(q).r2, QuatToRot(q).r2) == NormSq(q) * NormSq(q)
  {
    var r := QuatToRot(q);
    DotComponents(r.r2, r.r2);
    Row2LengthExpanded(q);
  }

  /** The rows of the rotation matrix of a unit quaternion are orthonormal. */
  lemma QuatToRotOrthonormal(q: Quat)
    requires NormSq(q) == 1.0
    ensures var r := QuatToRot(q);
      Dot(r.r0, r.r0) == 1.0 && Dot(r.r1, r.r1) == 1.0 && Dot(r.r2, r.r2) == 1.0 &&
      Dot(r.r0, r.r1) == 0.0 && Dot(r.r0, r.r2) == 0.0 && Dot(r.r1, r.r2) == 0.0
  {
    Row0Length(q);
    Row1Length(q);
    Row2Length(q);
    Rows01Orthogonal(q);
    Rows02Orthogonal(q);
    Rows12Orthogonal(q);
  }

  lemma MulNonneg(p: real, q: real)
    requires p >= 0.0 && q >= 0.0
    ensures p * q >= 0.0
  {
  }

  predicate Between(lo: real, hi: real, v: real) {
    (lo <= v <= hi) || (hi <= v <= lo)
  }

  /** For alpha in [0,1] the blend (1-alpha)*a + alpha*b lies between a and b. */
  lemma MixBetween(a: real, b: real, alpha: real)
    ensures 0.0 <= alpha <= 1.0 ==> Between(a, b, (1.0 - alpha) * a + alpha * b)
  {
    var v := (1.0 - alpha) * a + alpha * b;
    if 0.0 <= alpha <= 1.0 {
      assert v - a == alpha * (b - a) && b - v == (1.0 - alpha) * (b - a);
      if a <= b {
        MulNonneg(alpha, b - a);
        MulNonneg(1.0 - alpha, b - a);
      } else {
        MulNonneg(alpha, a - b);
        MulNonneg(1.0 - alpha, a - b);
      }
    }
  }

  /** (1-alpha)*a + alpha*b: a at alpha 0, b at alpha 1, and between them for alpha in [0,1]. */
  function Mix(a: real, b: real, alpha: real): (v: real)
    ensures alpha == 0.0 ==> v == a
    ensures alpha == 1.0 ==> v == b
    ensures 0.0 <= alpha <= 1.0 ==> Between(a, b, v)
  {
    MixBetween(a, b, alpha);
    (1.0 - alpha) * a + alpha * b
  }

  /** The componentwise translation blend (1-alpha)*a + alpha*b. */
  function Lerp(a: Vec3, b: Vec3, alpha: real): (v: Vec3)
    ensures alpha == 0.0 ==> v == a
    ensures alpha == 1.0 ==> v == b
    ensures 0.0 <= alpha <= 1.0 ==> Between(a.x, b.x, v.x) && Between(a.y, b.y, v.y) && Between(a.z, b.z, v.z)
  {
    Vec3(Mix(a.x, b.x, alpha), Mix(a.y, b.y, alpha), Mix(a.z, b.z, alpha))
  }
}

