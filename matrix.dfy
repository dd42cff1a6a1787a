/**
 * The 3x3 matrix helpers of the math crate: products with matrices and vectors,
 * the adjugate inverse, and the in-place LUP decomposition with its solver.
 * Matrices are stored as three columns, as glam's `Mat3` is; the flat arrays of
 * `lup_decompose` are column-major, entry (row, col) at index row + col * 3.
 */
module Matrix {
  import opened Vectors
  import opened Basics

  datatype Mat3 = Mat3(xAxis: Vec3, yAxis: Vec3, zAxis: Vec3)

  const Identity := Mat3(Vec3(1.0, 0.0, 0.0), Vec3(0.0, 1.0, 0.0), Vec3(0.0, 0.0, 1.0))

  function Col(m: Mat3, c: nat): Vec3
    requires c < 3
  {
    if c == 0 then m.xAxis else if c == 1 then m.yAxis else m.zAxis
  }

  /** The entry in row `r` and column `c`. */
  function Entry(m: Mat3, r: nat, c: nat): real
    requires r < 3 && c < 3
  {
    Get(Col(m, c), r)
  }

  // ---------------------------------------------------------------------------
  // Products

  /** One lane of a matrix-vector product: c1 * v1 + c2 * v2 + c3 * v3. */
  function Lane(c1: real, c2: real, c3: real, v1: real, v2: real, v3: real): real
  {
    c1 * v1 + c2 * v2 + c3 * v3
  }

  /** `mat3_mul_vec3`: the linear combination of the columns weighted by v. */
  function MulVec(m: Mat3, v: Vec3): Vec3
  {
    Vec3(Lane(m.xAxis.x, m.yAxis.x, m.zAxis.x, v.x, v.y, v.z),
         Lane(m.xAxis.y, m.yAxis.y, m.zAxis.y, v.x, v.y, v.z),
         Lane(m.xAxis.z, m.yAxis.z, m.zAxis.z, v.x, v.y, v.z))
  }

  /** `mat3_mul_mat3`: every column of the product is m1 applied to that column of m2. */
  function Mul(m1: Mat3, m2: Mat3): Mat3
  {
    Mat3(MulVec(m1, m2.xAxis), MulVec(m1, m2.yAxis), MulVec(m1, m2.zAxis))
  }

  /** One lane of (a b) v regrouped as a (b v). */
  lemma LaneRegroup(a1: real, a2: real, a3: real, b11: real, b21: real, b31: real, b12: real, b22: real, b32: real,
                    b13: real, b23: real, b33: real, v1: real, v2: real, v3: real)
    ensures Lane(Lane(a1, a2, a3, b11, b21, b31), Lane(a1, a2, a3, b12, b22, b32), Lane(a1, a2, a3, b13, b23, b33), v1, v2, v3)
         == Lane(a1, a2, a3, Lane(b11, b12, b13, v1, v2, v3), Lane(b21, b22, b23, v1, v2, v3), Lane(b31, b32, b33, v1, v2, v3))
  {
  }

  /** Applying a product is applying its factors one after the other. */
  lemma MulVecOfMul(a: Mat3, b: Mat3, v: Vec3)
    ensures MulVec(Mul(a, b), v) == MulVec(a, MulVec(b, v))
  {
    LaneRegroup(a.xAxis.x, a.yAxis.x, a.zAxis.x, b.xAxis.x, b.xAxis.y, b.xAxis.z, b.yAxis.x, b.yAxis.y, b.yAxis.z,
                b.zAxis.x, b.zAxis.y, b.zAxis.z, v.x, v.y, v.z);
    LaneRegroup(a.xAxis.y, a.yAxis.y, a.zAxis.y, b.xAxis.x, b.xAxis.y, b.xAxis.z, b.yAxis.x, b.yAxis.y, b.yAxis.z,
                b.zAxis.x, b.zAxis.y, b.zAxis.z, v.x, v.y, v.z);
    LaneRegroup(a.xAxis.z, a.yAxis.z, a.zAxis.z, b.xAxis.x, b.xAxis.y, b.xAxis.z, b.yAxis.x, b.yAxis.y, b.yAxis.z,
                b.zAxis.x, b.zAxis.y, b.zAxis.z, v.x, v.y, v.z);
  }

  lemma MulIdentityLeft(m: Mat3)
    ensures Mul(Identity, m) == m
  {
  }

  // ---------------------------------------------------------------------------
  // Inverse

  /** The cofactor expansion along the first row, as `mat3_inverse` computes it. */
  function Det(m: Mat3): real
  {
    m.xAxis.x * (m.yAxis.y * m.zAxis.z - m.zAxis.y * m.yAxis.z)
    - m.yAxis.x * (m.xAxis.y * m.zAxis.z - m.zAxis.y * m.xAxis.z)
    + m.zAxis.x * (m.xAxis.y * m.yAxis.z - m.yAxis.y * m.xAxis.z)
  }

  /** The transposed cofactor matrix scaled entry by entry by `invDet`, as `mat3_inverse` builds it. */
  function InverseWith(m: Mat3, invDet: real): Mat3
  {
    Mat3(
      Vec3((m.yAxis.y * m.zAxis.z - m.zAxis.y * m.yAxis.z) * invDet,
           -(m.xAxis.y * m.zAxis.z - m.zAxis.y * m.xAxis.z) * invDet,
           (m.xAxis.y * m.yAxis.z - m.yAxis.y * m.xAxis.z) * invDet),
      Vec3(-(m.yAxis.x * m.zAxis.z - m.zAxis.x * m.yAxis.z) * invDet,
           (m.xAxis.x * m.zAxis.z - m.zAxis.x * m.xAxis.z) * invDet,
           -(m.xAxis.x * m.yAxis.z - m.yAxis.x * m.xAxis.z) * invDet),
      Vec3((m.yAxis.x * m.zAxis.y - m.zAxis.x * m.yAxis.y) * invDet,
           -(m.xAxis.x * m.zAxis.y - m.zAxis.x * m.xAxis.y) * invDet,
           (m.xAxis.x * m.yAxis.y - m.yAxis.x * m.xAxis.y) * invDet))
  }

  /**
   * `mat3_inverse`. With det = 0 the f32 code multiplies by an infinite 1/det and
   * produces non-finite entries; the model reports that case as None.
   */
  function Inverse(m: Mat3): (r: Option<Mat3>)
    ensures r.None? <==> Det(m) == 0.0
  {
    if Det(m) == 0.0 then None else Some(InverseWith(m, 1.0 / Det(m)))
  }

  // The nine entries of InverseWith(m, k) * m for k = 1/det: each is a cofactor
  // expansion of det (on the diagonal) or of a matrix with a repeated column (off it).

  lemma InverseEntryScalarXx(xx: real, xy: real, xz: real, yx: real, yy: real, yz: real, zx: real, zy: real, zz: real,
                              k: real, d: real, i1: real, i2: real, i3: real, e: real)
    requires d == xx * (yy * zz - zy * yz) - yx * (xy * zz - zy * xz) + zx * (xy * yz - yy * xz)
    requires d * k == 1.0
    requires i1 == (yy * zz - zy * yz) * k && i2 == -(yx * zz - zx * yz) * k && i3 == (yx * zy - zx * yy) * k
    requires e == i1 * xx + i2 * xy + i3 * xz
    ensures e == 1.0
  {
    assert (yy * zz - zy * yz) * xx + -(yx * zz - zx * yz) * xy + (yx * zy - zx * yy) * xz == 1.0 * d;
    assert e == ((yy * zz - zy * yz) * xx + -(yx * zz - zx * yz) * xy + (yx * zy - zx * yy) * xz) * k;
  }

  lemma InverseEntryXx(m: Mat3, k: real)
    requires Det(m) * k == 1.0
    ensures MulVec(InverseWith(m, k), m.xAxis).x == 1.0
  {
    var xx, xy, xz, yx, yy, yz, zx, zy, zz := m.xAxis.x, m.xAxis.y, m.xAxis.z, m.yAxis.x, m.yAxis.y, m.yAxis.z, m.zAxis.x, m.zAxis.y, m.zAxis.z;
    var d := xx * (yy * zz - zy * yz) - yx * (xy * zz - zy * xz) + zx * (xy * yz - yy * xz);
    var i1, i2, i3 := (yy * zz - zy * yz) * k, -(yx * zz - zx * yz) * k, (yx * zy - zx * yy) * k;
    InverseEntryScalarXx(xx, xy, xz, yx, yy, yz, zx, zy, zz, k, d, i1, i2, i3, i1 * xx + i2 * xy + i3 * xz);
  }

  lemma InverseEntryScalarXy(xx: real, xy: real, xz: real, yx: real, yy: real, yz: real, zx: real, zy: real, zz: real,
                              k: real, d: real, i1: real, i2: real, i3: real, e: real)
    requires d == xx * (yy * zz - zy * yz) - yx * (xy * zz - zy * xz) + zx * (xy * yz - yy * xz)
    requires d * k == 1.0
    requires i1 == -(xy * zz - zy * xz) * k && i2 == (xx * zz - zx * xz) * k && i3 == -(xx * zy - zx * xy) * k
    requires e == i1 * xx + i2 * xy + i3 * xz
    ensures e == 0.0
  {
    assert -(xy * zz - zy * xz) * xx + (xx * zz - zx * xz) * xy + -(xx * zy - zx * xy) * xz == 0.0 * d;
    assert e == (-(xy * zz - zy * xz) * xx + (xx * zz - zx * xz) * xy + -(xx * zy - zx * xy) * xz) * k;
  }

  lemma InverseEntryXy(m: Mat3, k: real)
    requires Det(m) * k == 1.0
    ensures MulVec(InverseWith(m, k), m.xAxis).y == 0.0
  {
    var xx, xy, xz, yx, yy, yz, zx, zy, zz := m.xAxis.x, m.xAxis.y, m.xAxis.z, m.yAxis.x, m.yAxis.y, m.yAxis.z, m.zAxis.x, m.zAxis.y, m.zAxis.z;
    var d := xx * (yy * zz - zy * yz) - yx * (xy * zz - zy * xz) + zx * (xy * yz - yy * xz);
    var i1, i2, i3 := -(xy * zz - zy * xz) * k, (xx * zz - zx * xz) * k, -(xx * zy - zx * xy) * k;
    InverseEntryScalarXy(xx, xy, xz, yx, yy, yz, zx, zy, zz, k, d, i1, i2, i3, i1 * xx + i2 * xy + i3 * xz);
  }

  lemma InverseEntryScalarXz(xx: real, xy: real, xz: real, yx: real, yy: real, yz: real, zx: real, zy: real, zz: real,
                              k: real, d: real, i1: real, i2: real, i3: real, e: real)
    requires d == xx * (yy * zz - zy * yz) - yx * (xy * zz - zy * xz) + zx * (xy * yz - yy * xz)
    requires d * k == 1.0
    requires i1 == (xy * yz - yy * xz) * k && i2 == -(xx * yz - yx * xz) * k && i3 == (xx * yy - yx * xy) * k
    requires e == i1 * xx + i2 * xy + i3 * xz
    ensures e == 0.0
  {
    assert (xy * yz - yy * xz) * xx + -(xx * yz - yx * xz) * xy + (xx * yy - yx * xy) * xz == 0.0 * d;
    assert e == ((xy * yz - yy * xz) * xx + -(xx * yz - yx * xz) * xy + (xx * yy - yx * xy) * xz) * k;
  }

  lemma InverseEntryXz(m: Mat3, k: real)
    requires Det(m) * k == 1.0
    ensures MulVec(InverseWith(m, k), m.xAxis).z == 0.0
  {
    var xx, xy, xz, yx, yy, yz, zx, zy, zz := m.xAxis.x, m.xAxis.y, m.xAxis.z, m.yAxis.x, m.yAxis.y, m.yAxis.z, m.zAxis.x, m.zAxis.y, m.zAxis.z;
    var d := xx * (yy * zz - zy * yz) - yx * (xy * zz - zy * xz) + zx * (xy * yz - yy * xz);
    var i1, i2, i3 := (xy * yz - yy * xz) * k, -(xx * yz - yx * xz) * k, (xx * yy - yx * xy) * k;
    InverseEntryScalarXz(xx, xy, xz, yx, yy, yz, zx, zy, zz, k, d, i1, i2, i3, i1 * xx + i2 * xy + i3 * xz);
  }

  lemma InverseEntryScalarYx(xx: real, xy: real, xz: real, yx: real, yy: real, yz: real, zx: real, zy: real, zz: real,
                              k: real, d: real, i1: real, i2: real, i3: real, e: real)
    requires d == xx * (yy * zz - zy * yz) - yx * (xy * zz - zy * xz) + zx * (xy * yz - yy * xz)
    requires d * k == 1.0
    requires i1 == (yy * zz - zy * yz) * k && i2 == -(yx * zz - zx * yz) * k && i3 == (yx * zy - zx * yy) * k
    requires e == i1 * yx + i2 * yy + i3 * yz
    ensures e == 0.0
  {
    assert (yy * zz - zy * yz) * yx + -(yx * zz - zx * yz) * yy + (yx * zy - zx * yy) * yz == 0.0 * d;
    assert e == ((yy * zz - zy * yz) * yx + -(yx * zz - zx * yz) * yy + (yx * zy - zx * yy) * yz) * k;
  }

  lemma InverseEntryYx(m: Mat3, k: real)
    requires Det(m) * k == 1.0
    ensures MulVec(InverseWith(m, k), m.yAxis).x == 0.0
  {
    var xx, xy, xz, yx, yy, yz, zx, zy, zz := m.xAxis.x, m.xAxis.y, m.xAxis.z, m.yAxis.x, m.yAxis.y, m.yAxis.z, m.zAxis.x, m.zAxis.y, m.zAxis.z;
    var d := xx * (yy * zz - zy * yz) - yx * (xy * zz - zy * xz) + zx * (xy * yz - yy * xz);
    var i1, i2, i3 := (yy * zz - zy * yz) * k, -(yx * zz - zx * yz) * k, (yx * zy - zx * yy) * k;
    InverseEntryScalarYx(xx, xy, xz, yx, yy, yz, zx, zy, zz, k, d, i1, i2, i3, i1 * yx + i2 * yy + i3 * yz);
  }

  lemma InverseEntryScalarYy(xx: real, xy: real, xz: real, yx: real, yy: real, yz: real, zx: real, zy: real, zz: real,
                              k: real, d: real, i1: real, i2: real, i3: real, e: real)
    requires d == xx * (yy * zz - zy * yz) - yx * (xy * zz - zy * xz) + zx * (xy * yz - yy * xz)
    requires d * k == 1.0
    requires i1 == -(xy * zz - zy * xz) * k && i2 == (xx * zz - zx * xz) * k && i3 == -(xx * zy - zx * xy) * k
    requires e == i1 * yx + i2 * yy + i3 * yz
    ensures e == 1.0
  {
    assert -(xy * zz - zy * xz) * yx + (xx * zz - zx * xz) * yy + -(xx * zy - zx * xy) * yz == 1.0 * d;
    assert e == (-(xy * zz - zy * xz) * yx + (xx * zz - zx * xz) * yy + -(xx * zy - zx * xy) * yz) * k;
  }

  lemma InverseEntryYy(m: Mat3, k: real)
    requires Det(m) * k == 1.0
    ensures MulVec(InverseWith(m, k), m.yAxis).y == 1.0
  {
    var xx, xy, xz, yx, yy, yz, zx, zy, zz := m.xAxis.x, m.xAxis.y, m.xAxis.z, m.yAxis.x, m.yAxis.y, m.yAxis.z, m.zAxis.x, m.zAxis.y, m.zAxis.z;
    var d := xx * (yy * zz - zy * yz) - yx * (xy * zz - zy * xz) + zx * (xy * yz - yy * xz);
    var i1, i2, i3 := -(xy * zz - zy * xz) * k, (xx * zz - zx * xz) * k, -(xx * zy - zx * xy) * k;
    InverseEntryScalarYy(xx, xy, xz, yx, yy, yz, zx, zy, zz, k, d, i1, i2, i3, i1 * yx + i2 * yy + i3 * yz);
  }

  lemma InverseEntryScalarYz(xx: real, xy: real, xz: real, yx: real, yy: real, yz: real, zx: real, zy: real, zz: real,
                              k: real, d: real, i1: real, i2: real, i3: real, e: real)
    requires d == xx * (yy * zz - zy * yz) - yx * (xy * zz - zy * xz) + zx * (xy * yz - yy * xz)
    requires d * k == 1.0
    requires i1 == (xy * yz - yy * xz) * k && i2 == -(xx * yz - yx * xz) * k && i3 == (xx * yy - yx * xy) * k
    requires e == i1 * yx + i2 * yy + i3 * yz
    ensures e == 0.0
  {
    assert (xy * yz - yy * xz) * yx + -(xx * yz - yx * xz) * yy + (xx * yy - yx * xy) * yz == 0.0 * d;
    assert e == ((xy * yz - yy * xz) * yx + -(xx * yz - yx * xz) * yy + (xx * yy - yx * xy) * yz) * k;
  }

  lemma InverseEntryYz(m: Mat3, k: real)
    requires Det(m) * k == 1.0
    ensures MulVec(InverseWith(m, k), m.yAxis).z == 0.0
  {
    var xx, xy, xz, yx, yy, yz, zx, zy, zz := m.xAxis.x, m.xAxis.y, m.xAxis.z, m.yAxis.x, m.yAxis.y, m.yAxis.z, m.zAxis.x, m.zAxis.y, m.zAxis.z;
    var d := xx * (yy * zz - zy * yz) - yx * (xy * zz - zy * xz) + zx * (xy * yz - yy * xz);
    var i1, i2, i3 := (xy * yz - yy * xz) * k, -(xx * yz - yx * xz) * k, (xx * yy - yx * xy) * k;
    InverseEntryScalarYz(xx, xy, xz, yx, yy, yz, zx, zy, zz, k, d, i1, i2, i3, i1 * yx + i2 * yy + i3 * yz);
  }

  lemma InverseEntryScalarZx(xx: real, xy: real, xz: real, yx: real, yy: real, yz: real, zx: real, zy: real, zz: real,
                              k: real, d: real, i1: real, i2: real, i3: real, e: real)
    requires d == xx * (yy * zz - zy * yz) - yx * (xy * zz - zy * xz) + zx * (xy * yz - yy * xz)
    requires d * k == 1.0
    requires i1 == (yy * zz - zy * yz) * k && i2 == -(yx * zz - zx * yz) * k && i3 == (yx * zy - zx * yy) * k
    requires e == i1 * zx + i2 * zy + i3 * zz
    ensures e == 0.0
  {
    assert (yy * zz - zy * yz) * zx + -(yx * zz - zx * yz) * zy + (yx * zy - zx * yy) * zz == 0.0 * d;
    assert e == ((yy * zz - zy * yz) * zx + -(yx * zz - zx * yz) * zy + (yx * zy - zx * yy) * zz) * k;
  }

  lemma InverseEntryZx(m: Mat3, k: real)
    requires Det(m) * k == 1.0
    ensures MulVec(InverseWith(m, k), m.zAxis).x == 0.0
  {
    var xx, xy, xz, yx, yy, yz, zx, zy, zz := m.xAxis.x, m.xAxis.y, m.xAxis.z, m.yAxis.x, m.yAxis.y, m.yAxis.z, m.zAxis.x, m.zAxis.y, m.zAxis.z;
    var d := xx * (yy * zz - zy * yz) - yx * (xy * zz - zy * xz) + zx * (xy * yz - yy * xz);
    var i1, i2, i3 := (yy * zz - zy * yz) * k, -(yx * zz - zx * yz) * k, (yx * zy - zx * yy) * k;
    InverseEntryScalarZx(xx, xy, xz, yx, yy, yz, zx, zy, zz, k, d, i1, i2, i3, i1 * zx + i2 * zy + i3 * zz);
  }

  lemma InverseEntryScalarZy(xx: real, xy: real, xz: real, yx: real, yy: real, yz: real, zx: real, zy: real, zz: real,
                              k: real, d: real, i1: real, i2: real, i3: real, e: real)
    requires d == xx * (yy * zz - zy * yz) - yx * (xy * zz - zy * xz) + zx * (xy * yz - yy * xz)
    requires d * k == 1.0
    requires i1 == -(xy * zz - zy * xz) * k && i2 == (xx * zz - zx * xz) * k && i3 == -(xx * zy - zx * xy) * k
    requires e == i1 * zx + i2 * zy + i3 * zz
    ensures e == 0.0
  {
    assert -(xy * zz - zy * xz) * zx + (xx * zz - zx * xz) * zy + -(xx * zy - zx * xy) * zz == 0.0 * d;
    assert e == (-(xy * zz - zy * xz) * zx + (xx * zz - zx * xz) * zy + -(xx * zy - zx * xy) * zz) * k;
  }

  lemma InverseEntryZy(m: Mat3, k: real)
    requires Det(m) * k == 1.0
    ensures MulVec(InverseWith(m, k), m.zAxis).y == 0.0
  {
    var xx, xy, xz, yx, yy, yz, zx, zy, zz := m.xAxis.x, m.xAxis.y, m.xAxis.z, m.yAxis.x, m.yAxis.y, m.yAxis.z, m.zAxis.x, m.zAxis.y, m.zAxis.z;
    var d := xx * (yy * zz - zy * yz) - yx * (xy * zz - zy * xz) + zx * (xy * yz - yy * xz);
    var i1, i2, i3 := -(xy * zz - zy * xz) * k, (xx * zz - zx * xz) * k, -(xx * zy - zx * xy) * k;
    InverseEntryScalarZy(xx, xy, xz, yx, yy, yz, zx, zy, zz, k, d, i1, i2, i3, i1 * zx + i2 * zy + i3 * zz);
  }

  lemma InverseEntryScalarZz(xx: real, xy: real, xz: real, yx: real, yy: real, yz: real, zx: real, zy: real, zz: real,
                              k: real, d: real, i1: real, i2: real, i3: real, e: real)
    requires d == xx * (yy * zz - zy * yz) - yx * (xy * zz - zy * xz) + zx * (xy * yz - yy * xz)
    requires d * k == 1.0
    requires i1 == (xy * yz - yy * xz) * k && i2 == -(xx * yz - yx * xz) * k && i3 == (xx * yy - yx * xy) * k
    requires e == i1 * zx + i2 * zy + i3 * zz
    ensures e == 1.0
  {
    assert (xy * yz - yy * xz) * zx + -(xx * yz - yx * xz) * zy + (xx * yy - yx * xy) * zz == 1.0 * d;
    assert e == ((xy * yz - yy * xz) * zx + -(xx * yz - yx * xz) * zy + (xx * yy - yx * xy) * zz) * k;
  }

  lemma InverseEntryZz(m: Mat3, k: real)
    requires Det(m) * k == 1.0
    ensures MulVec(InverseWith(m, k), m.zAxis).z == 1.0
  {
    var xx, xy, xz, yx, yy, yz, zx, zy, zz := m.xAxis.x, m.xAxis.y, m.xAxis.z, m.yAxis.x, m.yAxis.y, m.yAxis.z, m.zAxis.x, m.zAxis.y, m.zAxis.z;
    var d := xx * (yy * zz - zy * yz) - yx * (xy * zz - zy * xz) + zx * (xy * yz - yy * xz);
    var i1, i2, i3 := (xy * yz - yy * xz) * k, -(xx * yz - yx * xz) * k, (xx * yy - yx * xy) * k;
    InverseEntryScalarZz(xx, xy, xz, yx, yy, yz, zx, zy, zz, k, d, i1, i2, i3, i1 * zx + i2 * zy + i3 * zz);
  }

  /** For a matrix with nonzero determinant the inverse is a left inverse. */
  lemma InverseIsLeftInverse(m: Mat3)
    requires Det(m) != 0.0
    ensures Inverse(m).Some? && Mul(Inverse(m).value, m) == Identity
  {
    var d := Det(m);
    var k := 1.0 / d;
    assert d * k == 1.0;
    InverseEntryXx(m, k); InverseEntryXy(m, k); InverseEntryXz(m, k);
    InverseEntryYx(m, k); InverseEntryYy(m, k); InverseEntryYz(m, k);
    InverseEntryZx(m, k); InverseEntryZy(m, k); InverseEntryZz(m, k);
  }

  // ---------------------------------------------------------------------------
  // LUP decomposition

  function Abs(x: real): real { if x < 0.0 then -x else x }

  /** The flat column-major layout of `to_cols_array`. */
  function ColsArray(m: Mat3): (r: seq<real>)
    ensures |r| == 9
  {
    [m.xAxis.x, m.xAxis.y, m.xAxis.z, m.yAxis.x, m.yAxis.y, m.yAxis.z, m.zAxis.x, m.zAxis.y, m.zAxis.z]
  }

  /** `from_cols_array`: the matrix whose columns are a[0..3], a[3..6] and a[6..9]. */
  function FromCols(a: seq<real>): Mat3
    requires |a| == 9
  {
    Mat3(Vec3(a[0], a[1], a[2]), Vec3(a[3], a[4], a[5]), Vec3(a[6], a[7], a[8]))
  }

  /** Entry (row, col) of a flat column-major matrix. */
  function At(a: seq<real>, row: nat, col: nat): real
    requires |a| == 9 && row < 3 && col < 3
  {
    a[row + col * 3]
  }

  /** Where the pivot search of stage i starts. */
  datatype PivotStart = FirstColumn | Diagonal

  /**
   * The pivot search: scan row i of a over columns k..2, keeping the first strictly
   * larger magnitude. The result is the chosen column and its magnitude.
   */
  function PivotScan(a: seq<real>, i: nat, k: nat, col: nat, val: real): (r: (nat, real))
    requires |a| == 9 && i < 3 && k <= 3
    ensures r.1 >= val
    ensures (r.0 == col && r.1 == val) || (k <= r.0 < 3 && r.1 == Abs(At(a, i, r.0)))
    ensures forall c :: k <= c < 3 ==> Abs(At(a, i, c)) <= r.1
    decreases 3 - k
  {
    if k == 3 then (col, val)
    else
      var v := Abs(At(a, i, k));
      if v > val then PivotScan(a, i, k + 1, k, v) else PivotScan(a, i, k + 1, col, val)
  }

  /** The magnitude the search of stage i starts from; column i is the initial choice. */
  function StartValue(a: seq<real>, i: nat, start: PivotStart): real
    requires |a| == 9 && i < 3
  {
    match start
    case FirstColumn => Abs(At(a, i, 0))
    case Diagonal => Abs(At(a, i, i))
  }

  /** The first `rows` entries of columns c1 and c2 exchanged. */
  function SwapUpTo(a: seq<real>, c1: nat, c2: nat, rows: nat): (r: seq<real>)
    requires |a| == 9 && c1 < 3 && c2 < 3 && c1 != c2
    ensures |r| == 9
  {
    seq(9, n requires 0 <= n < 9 =>
      if n % 3 < rows && n / 3 == c1 then a[n % 3 + c2 * 3]
      else if n % 3 < rows && n / 3 == c2 then a[n % 3 + c1 * 3]
      else a[n])
  }

  /** Exchanging columns c1 and c2 of the flat matrix. */
  function SwapColumns(a: seq<real>, c1: nat, c2: nat): (r: seq<real>)
    requires |a| == 9 && c1 < 3 && c2 < 3 && c1 != c2
    ensures |r| == 9
    ensures forall j :: 0 <= j < 3 ==> At(r, j, c1) == At(a, j, c2) && At(r, j, c2) == At(a, j, c1)
    ensures forall j, c :: 0 <= j < 3 && 0 <= c < 3 && c != c1 && c != c2 ==> At(r, j, c) == At(a, j, c)
  {
    SwapUpTo(a, c1, c2, 3)
  }

  function SwapEntries(p: seq<nat>, i: nat, j: nat): (r: seq<nat>)
    requires i < |p| && j < |p|
    ensures |r| == |p| && multiset(r) == multiset(p)
  {
    p[i := p[j]][j := p[i]]
  }

  /**
   * The first `rows` entries of column i of L: zero above the diagonal, one on it,
   * and row i of a divided by its diagonal entry below it.
   */
  function FillLUpTo(l: seq<real>, a: seq<real>, i: nat, rows: nat): (r: seq<real>)
    requires |l| == 9 && |a| == 9 && i < 3 && (i < 2 ==> At(a, i, i) != 0.0)
    ensures |r| == 9
  {
    seq(9, n requires 0 <= n < 9 =>
      if n / 3 != i || n % 3 >= rows then l[n]
      else if n % 3 < i then 0.0
      else if n % 3 == i then 1.0
      else At(a, i, n % 3) / At(a, i, i))
  }

  /** The first `cols` entries of row i of U: zero left of the diagonal, row i of a from it on. */
  function FillUUpTo(u: seq<real>, a: seq<real>, i: nat, cols: nat): (r: seq<real>)
    requires |u| == 9 && |a| == 9 && i < 3
    ensures |r| == 9
  {
    seq(9, n requires 0 <= n < 9 =>
      if n % 3 != i || n / 3 >= cols then u[n] else if n / 3 < i then 0.0 else a[n])
  }

  /** Whether entry n lies in the part of the stage-i elimination done before (col, row). */
  predicate EliminatedBefore(n: nat, i: nat, col: nat, row: nat)
  {
    n / 3 > i && n % 3 >= i && (n / 3 < col || (n / 3 == col && n % 3 < row))
  }

  /**
   * The elimination of stage i done up to column `col`, row `row`: in every column
   * c > i, the rows from i on lose At(a, i, c) / At(a, i, i) times column i.
   */
  function EliminateUpTo(a: seq<real>, i: nat, col: nat, row: nat): (r: seq<real>)
    requires |a| == 9 && i < 3 && (i < 2 ==> At(a, i, i) != 0.0)
    ensures |r| == 9
  {
    seq(9, n requires 0 <= n < 9 =>
      if EliminatedBefore(n, i, col, row) then a[n] - (At(a, i, n / 3) / At(a, i, i)) * At(a, n % 3, i) else a[n])
  }

  /** The working state of the decomposition: the flat a, p, l and u arrays. */
  datatype LupState = LupState(a: seq<real>, p: seq<nat>, l: seq<real>, u: seq<real>)

  predicate ValidState(s: LupState)
  {
    |s.a| == 9 && |s.p| == 3 && |s.l| == 9 && |s.u| == 9
  }

  /**
   * The outcome of `lup_decompose`. `Singular` is the panic on a pivot below epsilon.
   * `NonFinite` is a division by a zero diagonal entry, where the f32 code goes on
   * with infinite or NaN entries.
   */
  datatype LupResult = Decomposed(l: seq<real>, u: seq<real>, p: seq<nat>) | Singular | NonFinite

  function Initial(m: Mat3): (s: LupState)
    ensures ValidState(s)
  {
    LupState(ColsArray(m), [0, 1, 2], seq(9, _ => 0.0), seq(9, _ => 0.0))
  }

  /** Whether stage i divides by a zero diagonal entry after its exchange. */
  predicate ZeroDivisor(a: seq<real>, i: nat)
    requires |a| == 9 && i < 3
  {
    i < 2 && At(a, i, i) == 0.0
  }

  /** The exchange step of stage i: columns of a and entries of p. */
  function Exchange(s: LupState, i: nat, col: nat): (r: LupState)
    requires ValidState(s) && i < 3 && col < 3
    ensures ValidState(r) && r.l == s.l && r.u == s.u
  {
    if col != i then LupState(SwapColumns(s.a, i, col), SwapEntries(s.p, i, col), s.l, s.u) else s
  }

  /** Stage i after the exchange: fill column i of L and row i of U, then eliminate. */
  function Step(x: LupState, i: nat): (r: LupState)
    requires ValidState(x) && i < 3 && !ZeroDivisor(x.a, i)
    ensures ValidState(r) && r.p == x.p
  {
    LupState(EliminateUpTo(x.a, i, 3, 0), x.p, FillLUpTo(x.l, x.a, i, 3), FillUUpTo(x.u, x.a, i, 3))
  }

  /** The stages i..2 of the decomposition from state s. */
  function Stages(s: LupState, i: nat, epsilon: real, start: PivotStart): LupResult
    requires ValidState(s) && i <= 3
    decreases 3 - i
  {
    if i == 3 then Decomposed(s.l, s.u, s.p)
    else
      var pivot := PivotScan(s.a, i, i + 1, i, StartValue(s.a, i, start));
      if pivot.1 < epsilon then Singular
      else
        var x := Exchange(s, i, pivot.0);
        if ZeroDivisor(x.a, i) then NonFinite else Stages(Step(x, i), i + 1, epsilon, start)
  }

  function Lup(m: Mat3, epsilon: real, start: PivotStart): LupResult
  {
    Stages(Initial(m), 0, epsilon, start)
  }

  predicate IsPermutation3(p: seq<nat>)
  {
    |p| == 3 && multiset(p) == multiset{0, 1, 2}
  }

  /** Unit diagonal and zeros above it, in the column-major layout. */
  predicate UnitLower(l: seq<real>)
  {
    |l| == 9 && forall r, c :: 0 <= r < 3 && 0 <= c < 3 && r <= c ==> At(l, r, c) == (if r == c then 1.0 else 0.0)
  }

  /** Zeros below the diagonal, in the column-major layout. */
  predicate UpperTriangular(u: seq<real>)
  {
    |u| == 9 && forall r, c :: 0 <= r < 3 && 0 <= c < 3 && c < r ==> At(u, r, c) == 0.0
  }

  /** After stages 0..i-1 the first i columns of L and rows of U have their shape. */
  predicate ShapedUpTo(s: LupState, i: nat)
  {
    ValidState(s) && IsPermutation3(s.p) &&
    (forall r, c :: 0 <= r < 3 && 0 <= c < i && c < 3 && r <= c ==> At(s.l, r, c) == (if r == c then 1.0 else 0.0)) &&
    (forall r, c :: 0 <= r < i && r < 3 && 0 <= c < 3 && c < r ==> At(s.u, r, c) == 0.0)
  }

  /** Stage i writes column i of L as a unit-lower column and leaves the others. */
  lemma FillLShape(l: seq<real>, a: seq<real>, i: nat)
    requires |l| == 9 && |a| == 9 && i < 3 && (i < 2 ==> At(a, i, i) != 0.0)
    ensures forall r, c :: 0 <= r < 3 && 0 <= c < 3 ==>
              (c != i ==> At(FillLUpTo(l, a, i, 3), r, c) == At(l, r, c)) &&
              (c == i && r <= c ==> At(FillLUpTo(l, a, i, 3), r, c) == (if r == c then 1.0 else 0.0))
  {
    forall r, c | 0 <= r < 3 && 0 <= c < 3
      ensures (c != i ==> At(FillLUpTo(l, a, i, 3), r, c) == At(l, r, c)) &&
              (c == i && r <= c ==> At(FillLUpTo(l, a, i, 3), r, c) == (if r == c then 1.0 else 0.0))
    {
      var n := r + c * 3;
      assert n / 3 == c && n % 3 == r;
    }
  }

  /** Stage i writes row i of U with zeros left of the diagonal and leaves the others. */
  lemma FillUShape(u: seq<real>, a: seq<real>, i: nat)
    requires |u| == 9 && |a| == 9 && i < 3
    ensures forall r, c :: 0 <= r < 3 && 0 <= c < 3 ==>
              (r != i ==> At(FillUUpTo(u, a, i, 3), r, c) == At(u, r, c)) &&
              (r == i && c < r ==> At(FillUUpTo(u, a, i, 3), r, c) == 0.0)
  {
    forall r, c | 0 <= r < 3 && 0 <= c < 3
      ensures (r != i ==> At(FillUUpTo(u, a, i, 3), r, c) == At(u, r, c)) &&
              (r == i && c < r ==> At(FillUUpTo(u, a, i, 3), r, c) == 0.0)
    {
      var n := r + c * 3;
      assert n / 3 == c && n % 3 == r;
    }
  }

  lemma {:induction false} StagesShape(s: LupState, i: nat, epsilon: real, start: PivotStart)
    requires i <= 3 && ShapedUpTo(s, i)
    ensures Stages(s, i, epsilon, start).Decomposed? ==>
              IsPermutation3(Stages(s, i, epsilon, start).p) &&
              UnitLower(Stages(s, i, epsilon, start).l) && UpperTriangular(Stages(s, i, epsilon, start).u)
    decreases 3 - i
  {
    if i < 3 {
      var pivot := PivotScan(s.a, i, i + 1, i, StartValue(s.a, i, start));
      if pivot.1 >= epsilon {
        var x := Exchange(s, i, pivot.0);
        if !ZeroDivisor(x.a, i) {
          var next := Step(x, i);
          FillLShape(x.l, x.a, i);
          FillUShape(x.u, x.a, i);
          StagesShape(next, i + 1, epsilon, start);
        }
      }
    }
  }

  /** One stage of Stages, unfolded for a given pivot search result. */
  lemma StagesUnfold(s: LupState, i: nat, epsilon: real, start: PivotStart, col: nat, val: real)
    requires ValidState(s) && i < 3 && col < 3
    requires (col, val) == PivotScan(s.a, i, i + 1, i, StartValue(s.a, i, start))
    ensures val < epsilon ==> Stages(s, i, epsilon, start) == Singular
    ensures val >= epsilon && ZeroDivisor(Exchange(s, i, col).a, i) ==> Stages(s, i, epsilon, start) == NonFinite
    ensures val >= epsilon && !ZeroDivisor(Exchange(s, i, col).a, i) ==>
              Stages(s, i, epsilon, start) == Stages(Step(Exchange(s, i, col), i), i + 1, epsilon, start)
  {
  }

  /**
   * `lup_decompose` on the flat arrays, stage by stage as the source runs them: the
   * pivot search, the exchange of columns and of p entries, column i of L and row i
   * of U, then the elimination. The result is the stage function's.
   */
  method LupDecompose(m: Mat3, epsilon: real) returns (r: LupResult)
    ensures r == Lup(m, epsilon, FirstColumn)
    ensures r.Decomposed? ==> IsPermutation3(r.p) && UnitLower(r.l) && UpperTriangular(r.u)
  {
    var a, p, l, u := InitialArrays(m);
    var i := 0;
    while i < 3
      invariant 0 <= i <= 3
      invariant a.Length == 9 && p.Length == 3 && l.Length == 9 && u.Length == 9
      invariant a != l && a != u && l != u
      invariant Stages(LupState(a[..], p[..], l[..], u[..]), i, epsilon, FirstColumn) == Lup(m, epsilon, FirstColumn)
    {
      var stopped := DecomposeStage(a, p, l, u, i, epsilon);
      if stopped.Some? {
        return stopped.value;
      }
      i := i + 1;
    }
    r := Decomposed(l[..], u[..], p[..]);
    LupShape(m, epsilon, FirstColumn);
  }

  /**
   * Stage i of `lup_decompose` on the arrays. It either stops the decomposition with
   * the stage's outcome (the singular panic or a division by zero) or leaves the state
   * from which the remaining stages go on.
   */
  method DecomposeStage(a: array<real>, p: array<nat>, l: array<real>, u: array<real>, i: nat, epsilon: real)
    returns (stopped: Option<LupResult>)
    requires a.Length == 9 && p.Length == 3 && l.Length == 9 && u.Length == 9 && i < 3
    requires a != l && a != u && l != u
    modifies a, p, l, u
    ensures stopped.Some? ==> stopped.value == Singular || stopped.value == NonFinite
    ensures var s := LupState(old(a[..]), old(p[..]), old(l[..]), old(u[..]));
            if stopped.Some? then stopped.value == Stages(s, i, epsilon, FirstColumn)
            else Stages(s, i, epsilon, FirstColumn) == Stages(LupState(a[..], p[..], l[..], u[..]), i + 1, epsilon, FirstColumn)
  {
    ghost var s := LupState(a[..], p[..], l[..], u[..]);
    var maxCol, maxVal := PivotSearch(a, i);
    StagesUnfold(s, i, epsilon, FirstColumn, maxCol, maxVal);
    if maxVal < epsilon {
      return Some(Singular);
    }
    ghost var x := Exchange(s, i, maxCol);
    if maxCol != i {
      ExchangeColumns(a, p, i, maxCol);
    }
    assert a[..] == x.a && p[..] == x.p && l[..] == x.l && u[..] == x.u;
    if i < 2 && a[i + i * 3] == 0.0 {
      return Some(NonFinite);
    }
    assert !ZeroDivisor(x.a, i);
    ghost var y := Step(x, i);
    FillFactors(a, l, u, i);
    EliminateStage(a, i);
    assert a[..] == y.a && p[..] == y.p && l[..] == y.l && u[..] == y.u;
    assert LupState(a[..], p[..], l[..], u[..]) == y;
    stopped := None;
  }

  method InitialArrays(m: Mat3) returns (a: array<real>, p: array<nat>, l: array<real>, u: array<real>)
    ensures fresh(a) && fresh(p) && fresh(l) && fresh(u) && a != l && a != u && l != u
    ensures a.Length == 9 && p.Length == 3 && l.Length == 9 && u.Length == 9
    ensures a[..] == Initial(m).a && p[..] == Initial(m).p && l[..] == Initial(m).l && u[..] == Initial(m).u
  {
    var init := ColsArray(m);
    a := new real[9](n requires 0 <= n < 9 => init[n]);
    p := new nat[3](n => n);
    l := new real[9](_ => 0.0);
    u := new real[9](_ => 0.0);
    assert p[..] == [0, 1, 2];
  }

  /** The pivot search of stage i, starting from column 0's magnitude as the source does. */
  method PivotSearch(a: array<real>, i: nat) returns (maxCol: nat, maxVal: real)
    requires a.Length == 9 && i < 3
    ensures (maxCol, maxVal) == PivotScan(a[..], i, i + 1, i, StartValue(a[..], i, FirstColumn))
    ensures maxCol < 3
  {
    ghost var s := a[..];
    maxCol := i;
    maxVal := Abs(a[i + 0 * 3]);
    var k := i + 1;
    while k < 3
      invariant i + 1 <= k <= 3 && maxCol < 3
      invariant PivotScan(s, i, k, maxCol, maxVal) == PivotScan(s, i, i + 1, i, StartValue(s, i, FirstColumn))
    {
      assert a[i + k * 3] == At(s, i, k);
      var v := Abs(a[i + k * 3]);
      if v > maxVal {
        maxVal := v;
        maxCol := k;
      }
      k := k + 1;
    }
  }

  /** One step of the exchange: row j of columns c1 and c2. */
  lemma SwapStep(a: seq<real>, cur: seq<real>, c1: nat, c2: nat, j: nat)
    requires |a| == 9 && c1 < 3 && c2 < 3 && c1 != c2 && j < 3
    requires cur == SwapUpTo(a, c1, c2, j)
    ensures cur[j + c1 * 3 := cur[j + c2 * 3]][j + c2 * 3 := cur[j + c1 * 3]] == SwapUpTo(a, c1, c2, j + 1)
  {
    var n1, n2 := j + c1 * 3, j + c2 * 3;
    assert n1 / 3 == c1 && n1 % 3 == j && n2 / 3 == c2 && n2 % 3 == j;
  }

  /** The exchange of stage i: entries i and c of p, columns i and c of a. */
  method ExchangeColumns(a: array<real>, p: array<nat>, i: nat, c: nat)
    requires a.Length == 9 && p.Length == 3 && i < 3 && c < 3 && i != c
    modifies a, p
    ensures a[..] == SwapColumns(old(a[..]), i, c)
    ensures p[..] == SwapEntries(old(p[..]), i, c)
  {
    var tmp := p[i];
    p[i] := p[c];
    p[c] := tmp;
    ghost var a0, p1 := a[..], p[..];
    var j := 0;
    while j < 3
      invariant 0 <= j <= 3
      invariant a[..] == SwapUpTo(a0, i, c, j) && p[..] == p1
    {
      var idx1 := j + i * 3;
      var idx2 := j + c * 3;
      ghost var cur := a[..];
      var temp := a[idx1];
      a[idx1] := a[idx2];
      a[idx2] := temp;
      assert a[..] == cur[idx1 := cur[idx2]][idx2 := cur[idx1]];
      SwapStep(a0, cur, i, c, j);
      j := j + 1;
    }
  }

  /** One step of filling L and U: row j of column i of L and column j of row i of U. */
  lemma FillStep(l: seq<real>, u: seq<real>, cur_l: seq<real>, cur_u: seq<real>, a: seq<real>, i: nat, j: nat)
    requires |l| == 9 && |u| == 9 && |a| == 9 && i < 3 && j < 3 && (i < 2 ==> At(a, i, i) != 0.0)
    requires cur_l == FillLUpTo(l, a, i, j) && cur_u == FillUUpTo(u, a, i, j)
    ensures cur_l[j + i * 3 := if j < i then 0.0 else if j == i then 1.0 else At(a, i, j) / At(a, i, i)] == FillLUpTo(l, a, i, j + 1)
    ensures cur_u[i + j * 3 := if j < i then 0.0 else a[i + j * 3]] == FillUUpTo(u, a, i, j + 1)
  {
    var li, ui := j + i * 3, i + j * 3;
    assert li / 3 == i && li % 3 == j && ui / 3 == j && ui % 3 == i;
  }

  /** Column i of L and row i of U, written entry by entry. */
  method FillFactors(a: array<real>, l: array<real>, u: array<real>, i: nat)
    requires a.Length == 9 && l.Length == 9 && u.Length == 9 && i < 3 && (i < 2 ==> a[i + i * 3] != 0.0)
    requires a != l && a != u && l != u
    modifies l, u
    ensures l[..] == FillLUpTo(old(l[..]), a[..], i, 3)
    ensures u[..] == FillUUpTo(old(u[..]), a[..], i, 3)
  {
    ghost var l0, u0 := l[..], u[..];
    var j := 0;
    while j < 3
      invariant 0 <= j <= 3
      invariant l[..] == FillLUpTo(l0, a[..], i, j)
      invariant u[..] == FillUUpTo(u0, a[..], i, j)
    {
      var li := j + i * 3;
      var ui := i + j * 3;
      ghost var cur_l, cur_u := l[..], u[..];
      if j < i {
        l[li] := 0.0;
      } else if j == i {
        l[li] := 1.0;
      } else {
        l[li] := a[i + j * 3] / a[i + i * 3];
      }
      u[ui] := if j < i then 0.0 else a[i + j * 3];
      assert l[..] == cur_l[li := if j < i then 0.0 else if j == i then 1.0 else At(a[..], i, j) / At(a[..], i, i)];
      assert u[..] == cur_u[ui := if j < i then 0.0 else a[i + j * 3]];
      FillStep(l0, u0, cur_l, cur_u, a[..], i, j);
      j := j + 1;
    }
  }

  /** Entry (row, col), not yet reached, and entry (row, i) of column i keep their value. */
  lemma EliminateKeeps(a: seq<real>, i: nat, col: nat, row: nat)
    requires |a| == 9 && i < 3 && (i < 2 ==> At(a, i, i) != 0.0) && col < 3 && row < 3
    ensures EliminateUpTo(a, i, col, row)[row + col * 3] == a[row + col * 3]
    ensures EliminateUpTo(a, i, col, row)[row + i * 3] == a[row + i * 3]
  {
    assert (row + col * 3) / 3 == col && (row + col * 3) % 3 == row;
    assert (row + i * 3) / 3 == i;
  }

  /** Before the first later column nothing is eliminated. */
  lemma EliminateNone(a: seq<real>, i: nat)
    requires |a| == 9 && i < 3 && (i < 2 ==> At(a, i, i) != 0.0)
    ensures EliminateUpTo(a, i, i + 1, i) == a
  {
    forall n | 0 <= n < 9 ensures EliminateUpTo(a, i, i + 1, i)[n] == a[n] {
    }
  }

  /** Finishing column col is starting column col + 1 at row i. */
  lemma EliminateNextColumn(a: seq<real>, i: nat, col: nat)
    requires |a| == 9 && i < 3 && (i < 2 ==> At(a, i, i) != 0.0) && i < col < 3
    ensures EliminateUpTo(a, i, col, 3) == EliminateUpTo(a, i, col + 1, i)
  {
    forall n | 0 <= n < 9 ensures EliminatedBefore(n, i, col, 3) == EliminatedBefore(n, i, col + 1, i) {
    }
  }

  /** After the last column the elimination is complete. */
  lemma EliminateComplete(a: seq<real>, i: nat)
    requires |a| == 9 && i < 3 && (i < 2 ==> At(a, i, i) != 0.0)
    ensures EliminateUpTo(a, i, 3, i) == EliminateUpTo(a, i, 3, 0)
  {
    forall n | 0 <= n < 9 ensures EliminatedBefore(n, i, 3, i) == EliminatedBefore(n, i, 3, 0) {
    }
  }

  /** Advancing the elimination by one row changes entry (row, col) only. */
  lemma EliminateAdvance(a: seq<real>, i: nat, col: nat, row: nat)
    requires |a| == 9 && i < 3 && (i < 2 ==> At(a, i, i) != 0.0) && i < col < 3 && i <= row < 3
    ensures forall n :: 0 <= n < 9 && n != row + col * 3 ==> EliminateUpTo(a, i, col, row)[n] == EliminateUpTo(a, i, col, row + 1)[n]
    ensures EliminateUpTo(a, i, col, row + 1)[row + col * 3] == a[row + col * 3] - (At(a, i, col) / At(a, i, i)) * At(a, row, i)
  {
    var n0 := row + col * 3;
    assert n0 / 3 == col && n0 % 3 == row;
    assert EliminatedBefore(n0, i, col, row + 1);
    forall n | 0 <= n < 9 && n != n0 ensures EliminatedBefore(n, i, col, row) == EliminatedBefore(n, i, col, row + 1) {
      assert n / 3 != col || n % 3 != row;
    }
  }

  /** One entry of the elimination: entry (row, col) loses factor times entry (row, i). */
  lemma EliminateStep(a: seq<real>, cur: seq<real>, i: nat, col: nat, row: nat, v: real, w: real, factor: real)
    requires |a| == 9 && i < 3 && (i < 2 ==> At(a, i, i) != 0.0) && i < col < 3 && i <= row < 3
    requires cur == EliminateUpTo(a, i, col, row)
    requires v == cur[row + col * 3] && w == cur[row + i * 3] && factor == At(a, i, col) / At(a, i, i)
    ensures cur[row + col * 3 := v - factor * w] == EliminateUpTo(a, i, col, row + 1)
  {
    EliminateKeeps(a, i, col, row);
    EliminateAdvance(a, i, col, row);
    UpdateMatches(cur, EliminateUpTo(a, i, col, row + 1), row + col * 3, v - factor * w);
  }

  /** Writing a sequence's one differing entry makes it equal to the target. */
  lemma UpdateMatches(cur: seq<real>, target: seq<real>, n0: nat, x: real)
    requires |cur| == |target| && n0 < |cur| && target[n0] == x
    requires forall n :: 0 <= n < |cur| && n != n0 ==> cur[n] == target[n]
    ensures cur[n0 := x] == target
  {
  }

  /** The elimination of stage i: every later column loses a multiple of column i. */
  method EliminateStage(a: array<real>, i: nat)
    requires a.Length == 9 && i < 3 && (i < 2 ==> a[i + i * 3] != 0.0)
    modifies a
    ensures a[..] == EliminateUpTo(old(a[..]), i, 3, 0)
  {
    ghost var a0 := a[..];
    EliminateNone(a0, i);
    var j := i + 1;
    while j < 3
      invariant i + 1 <= j <= 3
      invariant a[..] == EliminateUpTo(a0, i, j, i)
    {
      EliminateColumn(a, i, j, a0);
      j := j + 1;
    }
    EliminateComplete(a0, i);
  }

  /** Column j of stage i: rows i..2 lose factor times column i, factor = At(a, i, j) / At(a, i, i). */
  method EliminateColumn(a: array<real>, i: nat, j: nat, ghost a0: seq<real>)
    requires a.Length == 9 && |a0| == 9 && i < j < 3 && (i < 2 ==> At(a0, i, i) != 0.0)
    requires a[..] == EliminateUpTo(a0, i, j, i)
    modifies a
    ensures a[..] == EliminateUpTo(a0, i, j + 1, i)
  {
    EliminateKeeps(a0, i, j, i);
    assert a[i + j * 3] == At(a0, i, j) && a[i + i * 3] == At(a0, i, i);
    var factor := a[i + j * 3] / a[i + i * 3];
    var k := i;
    while k < 3
      invariant i <= k <= 3
      invariant a[..] == EliminateUpTo(a0, i, j, k)
      invariant factor == At(a0, i, j) / At(a0, i, i)
    {
      EliminateEntry(a, i, j, k, factor, a0);
      k := k + 1;
    }
    EliminateNextColumn(a0, i, j);
  }

  /** Entry (k, j) of stage i: `a[k + j * 3] -= factor * a[k + i * 3]`. */
  method EliminateEntry(a: array<real>, i: nat, j: nat, k: nat, factor: real, ghost a0: seq<real>)
    requires a.Length == 9 && |a0| == 9 && i < j < 3 && i <= k < 3 && (i < 2 ==> At(a0, i, i) != 0.0)
    requires a[..] == EliminateUpTo(a0, i, j, k) && factor == At(a0, i, j) / At(a0, i, i)
    modifies a
    ensures a[..] == EliminateUpTo(a0, i, j, k + 1)
  {
    var idx := k + j * 3;
    ghost var cur := a[..];
    var v, w := a[idx], a[k + i * 3];
    a[idx] := v - factor * w;
    assert a[..] == cur[idx := v - factor * w];
    EliminateStep(a0, cur, i, j, k, v, w, factor);
  }

  /** A completed decomposition has a permutation p, a unit lower L and an upper U. */
  lemma LupShape(m: Mat3, epsilon: real, start: PivotStart)
    ensures Lup(m, epsilon, start).Decomposed? ==>
              IsPermutation3(Lup(m, epsilon, start).p) &&
              UnitLower(Lup(m, epsilon, start).l) && UpperTriangular(Lup(m, epsilon, start).u)
  {
    assert multiset([0, 1, 2]) == multiset{0, 1, 2};
    StagesShape(Initial(m), 0, epsilon, start);
  }

  /** A first row whose magnitudes are all below epsilon is reported singular at stage 0. */
  lemma SmallFirstRowIsSingular(m: Mat3, epsilon: real, start: PivotStart)
    requires Abs(m.xAxis.x) < epsilon && Abs(m.yAxis.x) < epsilon && Abs(m.zAxis.x) < epsilon
    ensures Lup(m, epsilon, start) == Singular
  {
    var a := Initial(m).a;
    var pivot := PivotScan(a, 0, 1, 0, StartValue(a, 0, start));
    assert pivot.1 < epsilon;
  }

  /** With epsilon at most zero no pivot magnitude is below it, so nothing is reported singular. */
  lemma {:induction false} NonPositiveEpsilonNeverSingular(s: LupState, i: nat, epsilon: real, start: PivotStart)
    requires ValidState(s) && i <= 3 && epsilon <= 0.0
    ensures Stages(s, i, epsilon, start) != Singular
    decreases 3 - i
  {
    if i < 3 {
      var pivot := PivotScan(s.a, i, i + 1, i, StartValue(s.a, i, start));
      assert pivot.1 >= 0.0;
      var x := Exchange(s, i, pivot.0);
      if !ZeroDivisor(x.a, i) {
        NonPositiveEpsilonNeverSingular(Step(x, i), i + 1, epsilon, start);
      }
    }
  }

  /**
   * With the diagonal start the chosen pivot is the diagonal entry after the exchange,
   * so a pivot that passes the epsilon test is never zero.
   */
  lemma {:induction false} DiagonalStagesFinite(s: LupState, i: nat, epsilon: real)
    requires ValidState(s) && i <= 3 && epsilon > 0.0
    ensures Stages(s, i, epsilon, Diagonal) != NonFinite
    decreases 3 - i
  {
    if i < 3 {
      var pivot := PivotScan(s.a, i, i + 1, i, StartValue(s.a, i, Diagonal));
      if pivot.1 >= epsilon {
        var x := Exchange(s, i, pivot.0);
        assert Abs(At(x.a, i, i)) == pivot.1;
        DiagonalStagesFinite(Step(x, i), i + 1, epsilon);
      }
    }
  }

  /**
   * The decomposition with the pivot search starting at the diagonal entry: for a
   * positive epsilon it never divides by zero.
   */
  function LupDiagonalPivot(m: Mat3, epsilon: real): (r: LupResult)
    ensures epsilon > 0.0 ==> r != NonFinite
  {
    if epsilon > 0.0 then DiagonalStagesFinite(Initial(m), 0, epsilon); Lup(m, epsilon, Diagonal)
    else Lup(m, epsilon, Diagonal)
  }

  /** The search starting at column 0 reports the identity as singular at stage 1. */
  lemma IdentityIsSingularAsWritten(epsilon: real)
    requires epsilon > 0.0
    ensures Lup(Identity, epsilon, FirstColumn) == Singular
  {
    var s0 := Initial(Identity);
    var p0 := PivotScan(s0.a, 0, 1, 0, StartValue(s0.a, 0, FirstColumn));
    assert p0 == (0, 1.0);
    if p0.1 >= epsilon {
      var s1 := Step(s0, 0);
      assert At(s1.a, 1, 0) == 0.0 && At(s1.a, 1, 2) == 0.0;
      var p1 := PivotScan(s1.a, 1, 2, 1, StartValue(s1.a, 1, FirstColumn));
      assert p1 == (1, 0.0);
    }
  }

  /** With the search starting at the diagonal the identity decomposes for any epsilon up to 1. */
  lemma IdentityDecomposesWithDiagonalPivot(epsilon: real)
    requires 0.0 < epsilon <= 1.0
    ensures LupDiagonalPivot(Identity, epsilon).Decomposed?
  {
    var s0 := Initial(Identity);
    var p0 := PivotScan(s0.a, 0, 1, 0, StartValue(s0.a, 0, Diagonal));
    assert p0 == (0, 1.0);
    var s1 := Step(Exchange(s0, 0, 0), 0);
    assert At(s1.a, 1, 1) == 1.0 && At(s1.a, 1, 2) == 0.0;
    var p1 := PivotScan(s1.a, 1, 2, 1, StartValue(s1.a, 1, Diagonal));
    assert p1 == (1, 1.0);
    var s2 := Step(Exchange(s1, 1, 1), 1);
    assert At(s2.a, 2, 2) == 1.0;
    var p2 := PivotScan(s2.a, 2, 3, 2, StartValue(s2.a, 2, Diagonal));
    assert p2 == (2, 1.0);
  }

  // ---------------------------------------------------------------------------
  // Solving with the factors

  /** The outcome of `lup_solve`: an index of p outside 0..2 panics, a zero diagonal entry of U makes the f32 result non-finite. */
  datatype SolveResult = Solution(x: Vec3) | IndexOutOfBounds | DivisionByZero

  predicate IndicesInRange(p: seq<nat>)
  {
    |p| == 3 && p[0] < 3 && p[1] < 3 && p[2] < 3
  }

  /** P * b: entry i of the result is entry p[i] of b. */
  function Permute(b: Vec3, p: seq<nat>): Vec3
    requires IndicesInRange(p)
  {
    Vec3(Get(b, p[0]), Get(b, p[1]), Get(b, p[2]))
  }

  /**
   * `lup_solve` as written: forward substitution reads l[3], l[6] and l[7], and back
   * substitution reads u[1], u[2] and u[5], as if the arrays were row-major.
   */
  function LupSolveAsWritten(l: seq<real>, u: seq<real>, p: seq<nat>, b: Vec3): SolveResult
    requires |l| == 9 && |u| == 9 && |p| == 3
  {
    if !IndicesInRange(p) then IndexOutOfBounds
    else if u[8] == 0.0 || u[4] == 0.0 || u[0] == 0.0 then DivisionByZero
    else
      var pb := Permute(b, p);
      var y0 := pb.x;
      var y1 := pb.y - l[3] * y0;
      var y2 := pb.z - l[6] * y0 - l[7] * y1;
      var x2 := y2 / u[8];
      var x1 := (y1 - u[5] * x2) / u[4];
      var x0 := (y0 - u[1] * x1 - u[2] * x2) / u[0];
      Solution(Vec3(x0, x1, x2))
  }

  /**
   * Forward and back substitution reading the column-major layout that `lup_decompose`
   * writes: L's entries below the diagonal are l[1], l[2] and l[5], U's entries above
   * it are u[3], u[6] and u[7].
   */
  function LupSolve(l: seq<real>, u: seq<real>, p: seq<nat>, b: Vec3): SolveResult
    requires |l| == 9 && |u| == 9 && |p| == 3
  {
    if !IndicesInRange(p) then IndexOutOfBounds
    else if u[8] == 0.0 || u[4] == 0.0 || u[0] == 0.0 then DivisionByZero
    else
      var pb := Permute(b, p);
      var y0 := pb.x;
      var y1 := pb.y - l[1] * y0;
      var y2 := pb.z - l[2] * y0 - l[5] * y1;
      var x2 := y2 / u[8];
      var x1 := (y1 - u[7] * x2) / u[4];
      var x0 := (y0 - u[3] * x1 - u[6] * x2) / u[0];
      Solution(Vec3(x0, x1, x2))
  }

  lemma MulDiv(n: real, d: real)
    requires d != 0.0
    ensures d * (n / d) == n
  {
  }

  /** Back substitution: U x = y for an upper U with nonzero diagonal. */
  lemma BackSubstitution(u: seq<real>, y: Vec3, x: Vec3)
    requires UpperTriangular(u) && u[0] != 0.0 && u[4] != 0.0 && u[8] != 0.0
    requires x.z == y.z / u[8] && x.y == (y.y - u[7] * x.z) / u[4] && x.x == (y.x - u[3] * x.y - u[6] * x.z) / u[0]
    ensures MulVec(FromCols(u), x) == y
  {
    assert At(u, 1, 0) == 0.0 && At(u, 2, 0) == 0.0 && At(u, 2, 1) == 0.0;
    MulDiv(y.z, u[8]);
    MulDiv(y.y - u[7] * x.z, u[4]);
    MulDiv(y.x - u[3] * x.y - u[6] * x.z, u[0]);
  }

  /** Forward substitution: L y = Pb for a unit lower L. */
  lemma ForwardSubstitution(l: seq<real>, pb: Vec3, y: Vec3)
    requires UnitLower(l)
    requires y.x == pb.x && y.y == pb.y - l[1] * y.x && y.z == pb.z - l[2] * y.x - l[5] * y.y
    ensures MulVec(FromCols(l), y) == pb
  {
    assert At(l, 0, 0) == 1.0 && At(l, 1, 1) == 1.0 && At(l, 2, 2) == 1.0;
    assert At(l, 0, 1) == 0.0 && At(l, 0, 2) == 0.0 && At(l, 1, 2) == 0.0;
  }

  /**
   * With a unit lower L and an upper U, as `lup_decompose` produces them, the solution x
   * satisfies L U x = P b; the only failures are an index of p out of range and a zero
   * diagonal entry of U.
   */
  lemma LupSolveSolves(l: seq<real>, u: seq<real>, p: seq<nat>, b: Vec3)
    requires UnitLower(l) && UpperTriangular(u) && |p| == 3
    ensures LupSolve(l, u, p, b) == IndexOutOfBounds <==> !IndicesInRange(p)
    ensures LupSolve(l, u, p, b) == DivisionByZero <==> IndicesInRange(p) && (u[0] == 0.0 || u[4] == 0.0 || u[8] == 0.0)
    ensures LupSolve(l, u, p, b).Solution? ==>
              MulVec(Mul(FromCols(l), FromCols(u)), LupSolve(l, u, p, b).x) == Permute(b, p)
  {
    if IndicesInRange(p) && u[0] != 0.0 && u[4] != 0.0 && u[8] != 0.0 {
      var pb := Permute(b, p);
      var y0 := pb.x;
      var y1 := pb.y - l[1] * y0;
      var y2 := pb.z - l[2] * y0 - l[5] * y1;
      var y := Vec3(y0, y1, y2);
      var x := LupSolve(l, u, p, b).x;
      BackSubstitution(u, y, x);
      ForwardSubstitution(l, pb, y);
      MulVecOfMul(FromCols(l), FromCols(u), x);
    }
  }

  /**
   * As written, the solver ignores the factor below L's diagonal: with L(1, 0) = 2,
   * U = I and b = (1, 0, 0) it returns (1, 0, 0), which L U maps to (1, 2, 0).
   */
  lemma LupSolveAsWrittenIgnoresFactors()
    ensures var l, u, p, b := [1.0, 2.0, 0.0, 0.0, 1.0, 0.0, 0.0, 0.0, 1.0], ColsArray(Identity), [0, 1, 2], Vec3(1.0, 0.0, 0.0);
            UnitLower(l) && UpperTriangular(u) &&
            LupSolveAsWritten(l, u, p, b) == Solution(Vec3(1.0, 0.0, 0.0)) &&
            MulVec(Mul(FromCols(l), FromCols(u)), Vec3(1.0, 0.0, 0.0)) != Permute(b, p)
  {
    var l := [1.0, 2.0, 0.0, 0.0, 1.0, 0.0, 0.0, 0.0, 1.0];
    var u := ColsArray(Identity);
    assert MulVec(Mul(FromCols(l), FromCols(u)), Vec3(1.0, 0.0, 0.0)).y == 2.0;
  }
}
