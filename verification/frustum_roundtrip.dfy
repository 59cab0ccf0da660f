/**
  The two ways the code builds a camera's view volume agree: recovering it
  from the camera's matrices (`GetFrustum`) gives the same eight corners as
  laying it out from the camera's pose and field of view (`CreateFrustum`),
  when the matrices are those of a symmetric perspective camera.
 */
module FrustumRoundTrip {
  import opened LinAlg
  import opened Hexahedra
  import CameraCutter

  /**
    The closed-form inverse of the symmetric perspective matrix with near
    half-height `tanHalfFov * near` and half-width that times `aspect`: what
    `camera.projectionMatrix.inverse` evaluates to for such a camera.
   */
  function SymmetricInverse(tanHalfFov: real, aspect: real, near: real, far: real): Mat4
    requires near != 0.0 && far != 0.0
  {
    Zero.(m00 := tanHalfFov * aspect, m11 := tanHalfFov, m23 := -1.0,
          m32 := (near - far) / (2.0 * far * near), m33 := (far + near) / (2.0 * far * near))
  }

  /**
    A camera's `cameraToWorldMatrix` for a camera at `center` whose transform
    has the given unit axes: Unity's view space looks down -z, so the third
    column is the negated forward axis.
   */
  function CameraToWorld(center: Vec3, forward: Vec3, right: Vec3, up: Vec3): Mat4
  {
    Mat4(right.x, up.x, -forward.x, center.x,
         right.y, up.y, -forward.y, center.y,
         right.z, up.z, -forward.z, center.z,
         0.0, 0.0, 0.0, 1.0)
  }

  /**
    `SymmetricInverse` is the inverse of the frustum matrix over the near
    rectangle [-w, w] x [-h, h], with h = tanHalfFov * near and w = h * aspect.
   */
  lemma SymmetricInverseIsInverse(tanHalfFov: real, aspect: real, near: real, far: real)
    requires tanHalfFov != 0.0 && aspect != 0.0
    requires near != 0.0 && far != 0.0 && far != near
    ensures var h := tanHalfFov * near;
            var w := tanHalfFov * near * aspect;
            MatMul(CameraCutter.Frustum(-w, w, -h, h, near, far), SymmetricInverse(tanHalfFov, aspect, near, far))
            == Identity
  {
    var h := tanHalfFov * near;
    var w := tanHalfFov * near * aspect;
    FrustumTimesInverse(CameraCutter.Frustum(-w, w, -h, h, near, far), w, h, tanHalfFov * aspect, tanHalfFov,
                        (near - far) / (2.0 * far * near), (far + near) / (2.0 * far * near), near, far);
  }

  /**
    A matrix p with the frustum's entries over [-w, w] x [-h, h] times the
    matrix with x and y scales sx = w / near and sy = h / near and the
    symmetric inverse's depth row (a, b), a = (near - far) / (2 far near) and
    b = (far + near) / (2 far near), is the identity.
   */
  lemma FrustumTimesInverse(p: Mat4, w: real, h: real, sx: real, sy: real, a: real, b: real, near: real, far: real)
    requires w != 0.0 && h != 0.0 && near != 0.0 && far != 0.0 && far != near
    requires forall i: nat, j: nat :: i < 4 && j < 4 && !CameraCutter.IsFrustumSlot(i, j) ==> p.Entry(i, j) == 0.0
    requires p.m00 * (w - -w) == 2.0 * near && p.m02 * (w - -w) == w + -w
    requires p.m11 * (h - -h) == 2.0 * near && p.m12 * (h - -h) == h + -h
    requires p.m22 * (far - near) == -(far + near) && p.m23 * (far - near) == -2.0 * far * near
    requires p.m32 == -1.0
    requires sx * near == w && sy * near == h
    requires a * (2.0 * far * near) == near - far && b * (2.0 * far * near) == far + near
    ensures MatMul(p, Zero.(m00 := sx, m11 := sy, m23 := -1.0, m32 := a, m33 := b)) == Identity
  {
    SymmetricSlots(near, w, p.m00, p.m02, sx);
    SymmetricSlots(near, h, p.m11, p.m12, sy);
    DepthSlots(near, far, p.m22, p.m23, p.m32, a, b);
    SparseProduct(p, sx, sy, a, b);
  }

  /**
    One horizontal (or vertical) row of the frustum over [-r, r] meets the
    inverse's matching entry s = r / n in 1, and its off-centre slot is 0.
   */
  lemma SymmetricSlots(n: real, r: real, m0: real, m2: real, s: real)
    requires n != 0.0 && r != 0.0
    requires m0 * (r - -r) == 2.0 * n && m2 * (r - -r) == r + -r
    requires s * n == r
    ensures m0 * s == 1.0 && m2 == 0.0
  {
    assert r - -r == 2.0 * r;
    assert m0 * r == n;
    assert (m0 * s) * (n * r) == (m0 * r) * (s * n);
    CancelFactor(m0 * s, 1.0, n * r);
  }

  /**
    The depth rows (c, e) and weight -1 of the frustum against the inverse's
    weight column -1 and depth row (a, b) give the identity's last two rows.
   */
  lemma DepthSlots(near: real, far: real, c: real, e: real, m32: real, a: real, b: real)
    requires near != 0.0 && far != 0.0 && far != near
    requires c * (far - near) == -(far + near) && e * (far - near) == -2.0 * far * near
    requires m32 == -1.0
    requires a * (2.0 * far * near) == near - far && b * (2.0 * far * near) == far + near
    ensures e * a == 1.0 && c * -1.0 + e * b == 0.0 && m32 * -1.0 == 1.0
  {
    var d := far - near;
    var k := 2.0 * far * near;
    assert a * k == near - far && b * k == far + near;
    assert (e * a) * (d * k) == (e * d) * (a * k);
    TimesEqual(e * d, -k, a * k);
    TimesEqual(a * k, -d, -k);
    CancelFactor(e * a, 1.0, d * k);
    TimesEqual(e * d, -k, b * k);
    TimesEqual(b * k, far + near, -k);
    assert (c * -1.0 + e * b) * (d * k) == -(c * d) * k + (e * d) * (b * k);
    assert -(c * d) * k + (e * d) * (b * k) == 0.0 * (d * k);
    CancelFactor(c * -1.0 + e * b, 0.0, d * k);
  }

  /**
    The product of a matrix with the frustum's sparsity and one with the
    symmetric inverse's sparsity, entry by entry.
   */
  lemma SparseProduct(p: Mat4, sx: real, sy: real, a: real, b: real)
    requires forall i: nat, j: nat :: i < 4 && j < 4 && !CameraCutter.IsFrustumSlot(i, j) ==> p.Entry(i, j) == 0.0
    ensures MatMul(p, Zero.(m00 := sx, m11 := sy, m23 := -1.0, m32 := a, m33 := b))
            == Mat4(p.m00 * sx, 0.0, 0.0, p.m02 * -1.0,
                    0.0, p.m11 * sy, 0.0, p.m12 * -1.0,
                    0.0, 0.0, p.m23 * a, p.m22 * -1.0 + p.m23 * b,
                    0.0, 0.0, 0.0, p.m32 * -1.0)
  {
    assert p.Entry(0, 1) == 0.0 && p.Entry(0, 3) == 0.0;
    assert p.Entry(1, 0) == 0.0 && p.Entry(1, 3) == 0.0;
    assert p.Entry(2, 0) == 0.0 && p.Entry(2, 1) == 0.0;
    assert p.Entry(3, 0) == 0.0 && p.Entry(3, 1) == 0.0 && p.Entry(3, 3) == 0.0;
  }

  lemma DivideByReciprocal(a: real, d: real)
    requires d != 0.0
    ensures 1.0 / d != 0.0 && a / (1.0 / d) == a * d
  {
    QuotientOf(a * d, d, a);
    assert (a * d) * (1.0 / d) == a;
    QuotientOf(a, 1.0 / d, a * d);
  }

  /** The weight the inverse gives the back (z = -1) and front (z = +1) faces of the clip cube. */
  lemma InverseWeights(near: real, far: real)
    requires near != 0.0 && far != 0.0
    ensures (near - far) / (2.0 * far * near) * -1.0 + (far + near) / (2.0 * far * near) == 1.0 / near
    ensures (near - far) / (2.0 * far * near) * 1.0 + (far + near) / (2.0 * far * near) == 1.0 / far
  {
    var k := 2.0 * far * near;
    var a := (near - far) / k;
    var b := (far + near) / k;
    assert a * k == near - far && b * k == far + near;
    assert (-a + b) * k == 2.0 * far;
    assert (a + b) * k == 2.0 * near;
    QuotientOf(2.0 * far, k, 1.0 / near);
    QuotientOf(2.0 * near, k, 1.0 / far);
  }

  /**
    Taking the clip-space point (sx, sy, sz) on the back (sz = -1) or front
    (sz = +1) face back through the inverse gives the view-space point
    (sx * w, sy * h, -d) on the plane at distance d, near for the back face
    and far for the front.
   */
  lemma UnprojectPoint(tanHalfFov: real, aspect: real, near: real, far: real, sx: real, sy: real, sz: real, d: real)
    requires near != 0.0 && far != 0.0
    requires (sz == -1.0 && d == near) || (sz == 1.0 && d == far)
    ensures var inv := SymmetricInverse(tanHalfFov, aspect, near, far);
            var s := Vec3(sx, sy, sz);
            && inv.WeightOf(s) != 0.0
            && inv.MultiplyPoint(s) == Vec3(sx * (tanHalfFov * d * aspect), sy * (tanHalfFov * d), -d)
  {
    var inv := SymmetricInverse(tanHalfFov, aspect, near, far);
    var s := Vec3(sx, sy, sz);
    InverseWeights(near, far);
    var v := inv.Transform(s.Point());
    assert v.x == sx * (tanHalfFov * aspect) && v.y == sy * tanHalfFov && v.z == -1.0;
    assert v.w == 1.0 / d;
    DivideByReciprocal(v.x, d);
    DivideByReciprocal(v.y, d);
    DivideByReciprocal(v.z, d);
  }

  /** The camera-to-world matrix moves a view-space point out along the camera's axes. */
  lemma CameraToWorldPoint(center: Vec3, forward: Vec3, right: Vec3, up: Vec3, x: real, y: real, d: real)
    ensures CameraToWorld(center, forward, right, up).MultiplyPoint3x4(Vec3(x, y, -d))
            == center.Add(right.Scale(x)).Add(up.Scale(y)).Add(forward.Scale(d))
  {
  }

  /** A clip-cube corner taken back to world space lands on the face at distance d. */
  lemma UnprojectToWorld(center: Vec3, forward: Vec3, right: Vec3, up: Vec3,
                         tanHalfFov: real, far: real, near: real, aspect: real, s: Vec3, d: real)
    requires near != 0.0 && far != 0.0
    requires (s.z == -1.0 && d == near) || (s.z == 1.0 && d == far)
    ensures var inv := SymmetricInverse(tanHalfFov, aspect, near, far);
            && inv.WeightOf(s) != 0.0
            && CameraToWorld(center, forward, right, up).MultiplyPoint3x4(inv.MultiplyPoint(s))
               == center.Add(right.Scale(tanHalfFov * d * aspect).Scale(s.x))
                        .Add(up.Scale(tanHalfFov * d).Scale(s.y)).Add(forward.Scale(d))
  {
    UnprojectPoint(tanHalfFov, aspect, near, far, s.x, s.y, s.z, d);
    CameraToWorldPoint(center, forward, right, up, s.x * (tanHalfFov * d * aspect), s.y * (tanHalfFov * d), d);
    ScaleOfScale(right, tanHalfFov * d * aspect, s.x, s.x * (tanHalfFov * d * aspect));
    ScaleOfScale(up, tanHalfFov * d, s.y, s.y * (tanHalfFov * d));
  }

  /** Corner i of the back face of the recovered volume is that of the laid-out one. */
  lemma GetFrustumNearCorner(center: Vec3, forward: Vec3, right: Vec3, up: Vec3,
                             tanHalfFov: real, far: real, near: real, aspect: real, i: nat)
    requires near != 0.0 && far != 0.0 && i < 4
    requires DividesCleanly(ClipCube, SymmetricInverse(tanHalfFov, aspect, near, far))
    ensures GetFrustum(SymmetricInverse(tanHalfFov, aspect, near, far), CameraToWorld(center, forward, right, up)).corners[i]
            == CreateFrustum(center, forward, right, up, tanHalfFov, far, near, aspect).corners[i]
  {
    UnprojectToWorld(center, forward, right, up, tanHalfFov, far, near, aspect, CornerSign(i), near);
  }

  /** Corner i of the front face of the recovered volume is that of the laid-out one. */
  lemma GetFrustumFarCorner(center: Vec3, forward: Vec3, right: Vec3, up: Vec3,
                            tanHalfFov: real, far: real, near: real, aspect: real, i: nat)
    requires near != 0.0 && far != 0.0 && 4 <= i < 8
    requires DividesCleanly(ClipCube, SymmetricInverse(tanHalfFov, aspect, near, far))
    ensures GetFrustum(SymmetricInverse(tanHalfFov, aspect, near, far), CameraToWorld(center, forward, right, up)).corners[i]
            == CreateFrustum(center, forward, right, up, tanHalfFov, far, near, aspect).corners[i]
  {
    UnprojectToWorld(center, forward, right, up, tanHalfFov, far, near, aspect, CornerSign(i), far);
  }

  /**
    Round trip: the view volume recovered from the symmetric perspective
    camera's inverse projection and camera-to-world matrices is the frustum
    laid out from the same pose, field of view, aspect, near and far.
   */
  lemma GetFrustumIsCreateFrustum(center: Vec3, forward: Vec3, right: Vec3, up: Vec3,
                                  tanHalfFov: real, far: real, near: real, aspect: real)
    requires near != 0.0 && far != 0.0
    ensures DividesCleanly(ClipCube, SymmetricInverse(tanHalfFov, aspect, near, far))
    ensures GetFrustum(SymmetricInverse(tanHalfFov, aspect, near, far), CameraToWorld(center, forward, right, up))
            == CreateFrustum(center, forward, right, up, tanHalfFov, far, near, aspect)
  {
    var inv := SymmetricInverse(tanHalfFov, aspect, near, far);
    forall i | 0 <= i < 8
      ensures inv.WeightOf(ClipCube.corners[i]) != 0.0
    {
      ClipCubeCorners(i);
      var s := CornerSign(i);
      UnprojectPoint(tanHalfFov, aspect, near, far, s.x, s.y, s.z, if i < 4 then near else far);
    }
    var g := GetFrustum(inv, CameraToWorld(center, forward, right, up));
    var c := CreateFrustum(center, forward, right, up, tanHalfFov, far, near, aspect);
    forall i | 0 <= i < 8
      ensures g.corners[i] == c.corners[i]
    {
      if i < 4 {
        GetFrustumNearCorner(center, forward, right, up, tanHalfFov, far, near, aspect, i);
      } else {
        GetFrustumFarCorner(center, forward, right, up, tanHalfFov, far, near, aspect, i);
      }
    }
  }
}
