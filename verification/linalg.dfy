/**
  Exact real-valued stand-ins for Unity's Vector2, Vector3, Vector4 and
  Matrix4x4. Matrices act on column vectors (`clip = P * view * point`), and
  entry `mIJ` is Unity's `m[I, J]` (row I, column J).
 */
module LinAlg {

  datatype Vec2 = Vec2(x: real, y: real)

  datatype Vec3 = Vec3(x: real, y: real, z: real) {
    function Add(o: Vec3): Vec3 { Vec3(x + o.x, y + o.y, z + o.z) }
    function Sub(o: Vec3): Vec3 { Vec3(x - o.x, y - o.y, z - o.z) }
    function Scale(k: real): Vec3 { Vec3(k * x, k * y, k * z) }
    function Neg(): Vec3 { Vec3(-x, -y, -z) }
    /** Unity's implicit Vector3 -> Vector2 conversion drops z. */
    function XY(): Vec2 { Vec2(x, y) }
    /** The homogeneous point (x, y, z, 1). */
    function Point(): Vec4 { Vec4(x, y, z, 1.0) }
  }

  datatype Vec4 = Vec4(x: real, y: real, z: real, w: real) {
    /** Unity's implicit Vector4 -> Vector3 conversion drops w. */
    function XYZ(): Vec3 { Vec3(x, y, z) }
  }

  /** A row (r0, r1, r2, r3) of a matrix times a column (c0, c1, c2, c3). */
  function RowTimes(r0: real, r1: real, r2: real, r3: real, c0: real, c1: real, c2: real, c3: real): real
  {
    r0 * c0 + r1 * c1 + r2 * c2 + r3 * c3
  }

  const Origin: Vec3 := Vec3(0.0, 0.0, 0.0)

  function SqDist(a: Vec3, b: Vec3): real
  {
    var d := a.Sub(b);
    d.x * d.x + d.y * d.y + d.z * d.z
  }

  datatype Mat4 = Mat4(
    m00: real, m01: real, m02: real, m03: real,
    m10: real, m11: real, m12: real, m13: real,
    m20: real, m21: real, m22: real, m23: real,
    m30: real, m31: real, m32: real, m33: real)
  {
    /** Unity's indexer `m[i, j]`. */
    function Entry(i: nat, j: nat): real
      requires i < 4 && j < 4
    {
      match (i, j)
      case (0, 0) => m00 case (0, 1) => m01 case (0, 2) => m02 case (0, 3) => m03
      case (1, 0) => m10 case (1, 1) => m11 case (1, 2) => m12 case (1, 3) => m13
      case (2, 0) => m20 case (2, 1) => m21 case (2, 2) => m22 case (2, 3) => m23
      case (3, 0) => m30 case (3, 1) => m31 case (3, 2) => m32 case (3, 3) => m33
      case _ => 0.0
    }

    /** `Matrix4x4 * Vector4`. */
    function Transform(v: Vec4): Vec4
    {
      Vec4(RowTimes(m00, m01, m02, m03, v.x, v.y, v.z, v.w), RowTimes(m10, m11, m12, m13, v.x, v.y, v.z, v.w),
           RowTimes(m20, m21, m22, m23, v.x, v.y, v.z, v.w), RowTimes(m30, m31, m32, m33, v.x, v.y, v.z, v.w))
    }

    /** `MultiplyPoint3x4`: the affine image of a point, the bottom row ignored. */
    function MultiplyPoint3x4(p: Vec3): Vec3
    {
      Vec3(m00 * p.x + m01 * p.y + m02 * p.z + m03,
           m10 * p.x + m11 * p.y + m12 * p.z + m13,
           m20 * p.x + m21 * p.y + m22 * p.z + m23)
    }

    /** The homogeneous weight the full product gives the point `p`. */
    function WeightOf(p: Vec3): real
    {
      m30 * p.x + m31 * p.y + m32 * p.z + m33
    }

    /** `MultiplyPoint`: the full product followed by the divide by w. */
    function MultiplyPoint(p: Vec3): Vec3
      requires WeightOf(p) != 0.0
    {
      PerspectiveDivide(Transform(p.Point()))
    }

    predicate IsAffine()
    {
      m30 == 0.0 && m31 == 0.0 && m32 == 0.0 && m33 == 1.0
    }

    /** Column j, i.e. the image of the j-th basis vector. */
    function Column(j: nat): Vec4
      requires j < 4
    {
      if j == 0 then Vec4(m00, m10, m20, m30)
      else if j == 1 then Vec4(m01, m11, m21, m31)
      else if j == 2 then Vec4(m02, m12, m22, m32)
      else Vec4(m03, m13, m23, m33)
    }
  }

  /** `v /= v.w` followed by the conversion to Vector3. */
  function PerspectiveDivide(v: Vec4): Vec3
    requires v.w != 0.0
  {
    Vec3(v.x / v.w, v.y / v.w, v.z / v.w)
  }

  /** `new Matrix4x4()`: every entry zero. */
  const Zero: Mat4 := Mat4(0.0, 0.0, 0.0, 0.0, 0.0, 0.0, 0.0, 0.0,
                           0.0, 0.0, 0.0, 0.0, 0.0, 0.0, 0.0, 0.0)

  const Identity: Mat4 := Mat4(1.0, 0.0, 0.0, 0.0, 0.0, 1.0, 0.0, 0.0,
                               0.0, 0.0, 1.0, 0.0, 0.0, 0.0, 0.0, 1.0)

  function Basis(j: nat): Vec4
    requires j < 4
  {
    if j == 0 then Vec4(1.0, 0.0, 0.0, 0.0)
    else if j == 1 then Vec4(0.0, 1.0, 0.0, 0.0)
    else if j == 2 then Vec4(0.0, 0.0, 1.0, 0.0)
    else Vec4(0.0, 0.0, 0.0, 1.0)
  }

  /** `a * b`, the matrix applied after `b`. */
  function MatMul(a: Mat4, b: Mat4): Mat4
  {
    Mat4(RowTimes(a.m00, a.m01, a.m02, a.m03, b.m00, b.m10, b.m20, b.m30),
         RowTimes(a.m00, a.m01, a.m02, a.m03, b.m01, b.m11, b.m21, b.m31),
         RowTimes(a.m00, a.m01, a.m02, a.m03, b.m02, b.m12, b.m22, b.m32),
         RowTimes(a.m00, a.m01, a.m02, a.m03, b.m03, b.m13, b.m23, b.m33),
         RowTimes(a.m10, a.m11, a.m12, a.m13, b.m00, b.m10, b.m20, b.m30),
         RowTimes(a.m10, a.m11, a.m12, a.m13, b.m01, b.m11, b.m21, b.m31),
         RowTimes(a.m10, a.m11, a.m12, a.m13, b.m02, b.m12, b.m22, b.m32),
         RowTimes(a.m10, a.m11, a.m12, a.m13, b.m03, b.m13, b.m23, b.m33),
         RowTimes(a.m20, a.m21, a.m22, a.m23, b.m00, b.m10, b.m20, b.m30),
         RowTimes(a.m20, a.m21, a.m22, a.m23, b.m01, b.m11, b.m21, b.m31),
         RowTimes(a.m20, a.m21, a.m22, a.m23, b.m02, b.m12, b.m22, b.m32),
         RowTimes(a.m20, a.m21, a.m22, a.m23, b.m03, b.m13, b.m23, b.m33),
         RowTimes(a.m30, a.m31, a.m32, a.m33, b.m00, b.m10, b.m20, b.m30),
         RowTimes(a.m30, a.m31, a.m32, a.m33, b.m01, b.m11, b.m21, b.m31),
         RowTimes(a.m30, a.m31, a.m32, a.m33, b.m02, b.m12, b.m22, b.m32),
         RowTimes(a.m30, a.m31, a.m32, a.m33, b.m03, b.m13, b.m23, b.m33))
  }

  lemma IdentityTransform(v: Vec4)
    ensures Identity.Transform(v) == v
  {
  }

  lemma TransformBasis(m: Mat4, j: nat)
    requires j < 4
    ensures m.Transform(Basis(j)) == m.Column(j)
  {
  }

  /** Transforming by a product is transforming by each factor in turn. */
  lemma TransformMatMul(a: Mat4, b: Mat4, v: Vec4)
    ensures MatMul(a, b).Transform(v) == a.Transform(b.Transform(v))
  {
    RowTimesColumns(a.m00, a.m01, a.m02, a.m03, b.m00, b.m01, b.m02, b.m03, b.m10, b.m11, b.m12, b.m13,
                    b.m20, b.m21, b.m22, b.m23, b.m30, b.m31, b.m32, b.m33, v.x, v.y, v.z, v.w);
    RowTimesColumns(a.m10, a.m11, a.m12, a.m13, b.m00, b.m01, b.m02, b.m03, b.m10, b.m11, b.m12, b.m13,
                    b.m20, b.m21, b.m22, b.m23, b.m30, b.m31, b.m32, b.m33, v.x, v.y, v.z, v.w);
    RowTimesColumns(a.m20, a.m21, a.m22, a.m23, b.m00, b.m01, b.m02, b.m03, b.m10, b.m11, b.m12, b.m13,
                    b.m20, b.m21, b.m22, b.m23, b.m30, b.m31, b.m32, b.m33, v.x, v.y, v.z, v.w);
    RowTimesColumns(a.m30, a.m31, a.m32, a.m33, b.m00, b.m01, b.m02, b.m03, b.m10, b.m11, b.m12, b.m13,
                    b.m20, b.m21, b.m22, b.m23, b.m30, b.m31, b.m32, b.m33, v.x, v.y, v.z, v.w);
  }

  /**
    One row (a0, a1, a2, a3) of a product: the row times B, applied to
    (x, y, z, w), is the row applied to B (x, y, z, w).
   */
  lemma RowTimesColumns(a0: real, a1: real, a2: real, a3: real,
                        b00: real, b01: real, b02: real, b03: real, b10: real, b11: real, b12: real, b13: real,
                        b20: real, b21: real, b22: real, b23: real, b30: real, b31: real, b32: real, b33: real,
                        x: real, y: real, z: real, w: real)
    ensures RowTimes(RowTimes(a0, a1, a2, a3, b00, b10, b20, b30), RowTimes(a0, a1, a2, a3, b01, b11, b21, b31),
                     RowTimes(a0, a1, a2, a3, b02, b12, b22, b32), RowTimes(a0, a1, a2, a3, b03, b13, b23, b33), x, y, z, w)
         == RowTimes(a0, a1, a2, a3, RowTimes(b00, b01, b02, b03, x, y, z, w), RowTimes(b10, b11, b12, b13, x, y, z, w),
                     RowTimes(b20, b21, b22, b23, x, y, z, w), RowTimes(b30, b31, b32, b33, x, y, z, w))
  {
    RowsFirst(a0, a1, a2, a3, b00, b01, b02, b03, b10, b11, b12, b13,
              b20, b21, b22, b23, b30, b31, b32, b33, x, y, z, w);
    ColumnsFirst(a0, a1, a2, a3, b00, b01, b02, b03, b10, b11, b12, b13,
                 b20, b21, b22, b23, b30, b31, b32, b33, x, y, z, w);
    Associate(a0, a1, a2, a3, b00, b01, b02, b03, b10, b11, b12, b13,
              b20, b21, b22, b23, b30, b31, b32, b33, x, y, z, w);
  }

  /** The left side of `RowTimesColumns` with the inner products multiplied out. */
  lemma RowsFirst(a0: real, a1: real, a2: real, a3: real,
                  b00: real, b01: real, b02: real, b03: real, b10: real, b11: real, b12: real, b13: real,
                  b20: real, b21: real, b22: real, b23: real, b30: real, b31: real, b32: real, b33: real,
                  x: real, y: real, z: real, w: real)
    ensures RowTimes(RowTimes(a0, a1, a2, a3, b00, b10, b20, b30), RowTimes(a0, a1, a2, a3, b01, b11, b21, b31),
                     RowTimes(a0, a1, a2, a3, b02, b12, b22, b32), RowTimes(a0, a1, a2, a3, b03, b13, b23, b33), x, y, z, w)
         == (a0 * b00 + a1 * b10 + a2 * b20 + a3 * b30) * x + (a0 * b01 + a1 * b11 + a2 * b21 + a3 * b31) * y
          + (a0 * b02 + a1 * b12 + a2 * b22 + a3 * b32) * z + (a0 * b03 + a1 * b13 + a2 * b23 + a3 * b33) * w
  {
    TimesEqual(RowTimes(a0, a1, a2, a3, b00, b10, b20, b30), a0 * b00 + a1 * b10 + a2 * b20 + a3 * b30, x);
    TimesEqual(RowTimes(a0, a1, a2, a3, b01, b11, b21, b31), a0 * b01 + a1 * b11 + a2 * b21 + a3 * b31, y);
    TimesEqual(RowTimes(a0, a1, a2, a3, b02, b12, b22, b32), a0 * b02 + a1 * b12 + a2 * b22 + a3 * b32, z);
    TimesEqual(RowTimes(a0, a1, a2, a3, b03, b13, b23, b33), a0 * b03 + a1 * b13 + a2 * b23 + a3 * b33, w);
  }

  /** The right side of `RowTimesColumns` with the inner products multiplied out. */
  lemma ColumnsFirst(a0: real, a1: real, a2: real, a3: real,
                     b00: real, b01: real, b02: real, b03: real, b10: real, b11: real, b12: real, b13: real,
                     b20: real, b21: real, b22: real, b23: real, b30: real, b31: real, b32: real, b33: real,
                     x: real, y: real, z: real, w: real)
    ensures RowTimes(a0, a1, a2, a3, RowTimes(b00, b01, b02, b03, x, y, z, w), RowTimes(b10, b11, b12, b13, x, y, z, w),
                     RowTimes(b20, b21, b22, b23, x, y, z, w), RowTimes(b30, b31, b32, b33, x, y, z, w))
         == (b00 * x + b01 * y + b02 * z + b03 * w) * a0 + (b10 * x + b11 * y + b12 * z + b13 * w) * a1
          + (b20 * x + b21 * y + b22 * z + b23 * w) * a2 + (b30 * x + b31 * y + b32 * z + b33 * w) * a3
  {
    TimesEqual(RowTimes(b00, b01, b02, b03, x, y, z, w), b00 * x + b01 * y + b02 * z + b03 * w, a0);
    TimesEqual(RowTimes(b10, b11, b12, b13, x, y, z, w), b10 * x + b11 * y + b12 * z + b13 * w, a1);
    TimesEqual(RowTimes(b20, b21, b22, b23, x, y, z, w), b20 * x + b21 * y + b22 * z + b23 * w, a2);
    TimesEqual(RowTimes(b30, b31, b32, b33, x, y, z, w), b30 * x + b31 * y + b32 * z + b33 * w, a3);
  }

  /** The scalar identity behind `RowTimesColumns`, multiplied out column by column and row by row. */
  lemma Associate(a0: real, a1: real, a2: real, a3: real,
                  b00: real, b01: real, b02: real, b03: real, b10: real, b11: real, b12: real, b13: real,
                  b20: real, b21: real, b22: real, b23: real, b30: real, b31: real, b32: real, b33: real,
                  x: real, y: real, z: real, w: real)
    ensures (a0 * b00 + a1 * b10 + a2 * b20 + a3 * b30) * x + (a0 * b01 + a1 * b11 + a2 * b21 + a3 * b31) * y
          + (a0 * b02 + a1 * b12 + a2 * b22 + a3 * b32) * z + (a0 * b03 + a1 * b13 + a2 * b23 + a3 * b33) * w
         == (b00 * x + b01 * y + b02 * z + b03 * w) * a0 + (b10 * x + b11 * y + b12 * z + b13 * w) * a1
          + (b20 * x + b21 * y + b22 * z + b23 * w) * a2 + (b30 * x + b31 * y + b32 * z + b33 * w) * a3
  {
    Regroup(a0, a1, a2, a3, b00, b10, b20, b30, x);
    Regroup(a0, a1, a2, a3, b01, b11, b21, b31, y);
    Regroup(a0, a1, a2, a3, b02, b12, b22, b32, z);
    Regroup(a0, a1, a2, a3, b03, b13, b23, b33, w);
    Spread(a0, b00 * x, b01 * y, b02 * z, b03 * w);
    Spread(a1, b10 * x, b11 * y, b12 * z, b13 * w);
    Spread(a2, b20 * x, b21 * y, b22 * z, b23 * w);
    Spread(a3, b30 * x, b31 * y, b32 * z, b33 * w);
  }

  /** Equal factors give equal products. */
  lemma TimesEqual(p: real, q: real, t: real)
    requires p == q
    ensures p * t == q * t
  {
  }

  lemma Spread(a: real, t0: real, t1: real, t2: real, t3: real)
    ensures (t0 + t1 + t2 + t3) * a == a * t0 + a * t1 + a * t2 + a * t3
  {
  }

  /** One column's share of a row-times-column product, multiplied out. */
  lemma Regroup(a0: real, a1: real, a2: real, a3: real, c0: real, c1: real, c2: real, c3: real, t: real)
    ensures (a0 * c0 + a1 * c1 + a2 * c2 + a3 * c3) * t == a0 * (c0 * t) + a1 * (c1 * t) + a2 * (c2 * t) + a3 * (c3 * t)
  {
  }

  /** Two matrices that agree on every basis vector are equal. */
  lemma EqualByBasis(m: Mat4, n: Mat4)
    requires forall j :: 0 <= j < 4 ==> m.Transform(Basis(j)) == n.Transform(Basis(j))
    ensures m == n
  {
    TransformBasis(m, 0); TransformBasis(n, 0);
    TransformBasis(m, 1); TransformBasis(n, 1);
    TransformBasis(m, 2); TransformBasis(n, 2);
    TransformBasis(m, 3); TransformBasis(n, 3);
  }

  lemma ScaleOfScale(v: Vec3, a: real, k: real, b: real)
    requires k * a == b
    ensures v.Scale(a).Scale(k) == v.Scale(b)
  {
    assert k * (a * v.x) == (k * a) * v.x;
    assert k * (a * v.y) == (k * a) * v.y;
    assert k * (a * v.z) == (k * a) * v.z;
  }

  lemma ScaleDistributes(a: Vec3, b: Vec3, k: real)
    ensures a.Add(b).Scale(k) == a.Scale(k).Add(b.Scale(k))
    ensures a.Sub(b).Scale(k) == a.Scale(k).Sub(b.Scale(k))
  {
  }

  /** Division undoes multiplication by a non-zero factor. */
  lemma QuotientOf(p: real, q: real, r: real)
    requires q != 0.0 && p == r * q
    ensures p / q == r
  {
  }

  /** A non-zero common factor cancels. */
  lemma CancelFactor(p: real, q: real, d: real)
    requires d != 0.0 && p * d == q * d
    ensures p == q
  {
    QuotientOf(p * d, d, p);
    QuotientOf(q * d, d, q);
  }

  /** The weight of a point is the w of its full homogeneous image. */
  lemma WeightOfIsW(m: Mat4, p: Vec3)
    ensures m.WeightOf(p) == m.Transform(p.Point()).w
  {
  }

  /** Scaling the divided point back by the weight restores the product. */
  lemma DivideUndone(v: Vec4)
    requires v.w != 0.0
    ensures PerspectiveDivide(v).Scale(v.w) == v.XYZ()
  {
  }

  /** Dividing by a weight of one changes nothing. */
  lemma DivideByOne(v: Vec4)
    requires v.w == 1.0
    ensures PerspectiveDivide(v) == v.XYZ()
  {
  }

  /** A matrix that undoes `b` on every vector is the left inverse of `b`. */
  lemma InverseByTransform(a: Mat4, b: Mat4)
    requires forall v: Vec4 :: a.Transform(b.Transform(v)) == v
    ensures MatMul(a, b) == Identity
  {
    forall j | 0 <= j < 4
      ensures MatMul(a, b).Transform(Basis(j)) == Identity.Transform(Basis(j))
    {
      TransformMatMul(a, b, Basis(j));
      IdentityTransform(Basis(j));
    }
    EqualByBasis(MatMul(a, b), Identity);
  }
}
