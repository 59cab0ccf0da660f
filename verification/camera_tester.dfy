/**
  A hand-built perspective projection: x and y are scaled by the focal
  factors, depth runs from 0 at the near plane to 1 at the far plane, and
  the homogeneous weight is the view-space z itself (the camera looks down
  +z, unlike Unity's own view space).
 */
module CameraTester {
  import opened LinAlg

  /** The entries `GetProjectionMatrix` may set; every other entry stays zero. */
  predicate IsProjectionSlot(i: nat, j: nat)
  {
    (i == 0 && j == 0) || (i == 1 && j == 1) || (i == 2 && j == 2) || (i == 2 && j == 3) || (i == 3 && j == 2)
  }

  /**
    The projection with horizontal scale `xScale` (the cotangent of half the
    horizontal angle, computed by the caller) and vertical scale `xScale *
    aspect`. With q = far / (far - near), depth is q * z - q * near, and the
    bottom row copies z into w.
   */
  function GetProjectionMatrix(xScale: real, aspect: real, near: real, far: real): (m: Mat4)
    requires far != near
    ensures forall i: nat, j: nat :: i < 4 && j < 4 && !IsProjectionSlot(i, j) ==> m.Entry(i, j) == 0.0
    ensures m.m00 == xScale && m.m11 == xScale * aspect
    ensures m.m22 * (far - near) == far && m.m23 == -m.m22 * near
    ensures m.m32 == 1.0
    ensures forall p: Vec3 :: m.WeightOf(p) == p.z
  {
    var q := far / (far - near);
    Zero.(m00 := xScale, m11 := xScale * aspect, m22 := q, m23 := -q * near, m32 := 1.0)
  }

  /**
    A view point in front of the camera (z != 0) lands, after the divide by
    w = z, at x * xScale / z and y * xScale * aspect / z, with depth
    q * (z - near) / z for q = far / (far - near).
   */
  lemma ProjectPoint(xScale: real, aspect: real, near: real, far: real, p: Vec3)
    requires far != near && p.z != 0.0
    ensures var m := GetProjectionMatrix(xScale, aspect, near, far);
            var r := m.MultiplyPoint(p);
            && r.x * p.z == xScale * p.x
            && r.y * p.z == xScale * aspect * p.y
            && r.z * p.z == m.m22 * (p.z - near)
  {
    var m := GetProjectionMatrix(xScale, aspect, near, far);
    var v := m.Transform(p.Point());
    assert v.w == p.z;
    assert v.x == xScale * p.x && v.y == xScale * aspect * p.y;
    assert v.z == m.m22 * (p.z - near);
    DivideUndone(v);
  }

  /**
    Depth is 0 on the near plane and 1 on the far plane, wherever the point
    lies on that plane.
   */
  lemma ProjectionDepth(xScale: real, aspect: real, near: real, far: real, x: real, y: real)
    requires far != near && near != 0.0 && far != 0.0
    ensures var m := GetProjectionMatrix(xScale, aspect, near, far);
            && m.MultiplyPoint(Vec3(x, y, near)).z == 0.0
            && m.MultiplyPoint(Vec3(x, y, far)).z == 1.0
  {
    var m := GetProjectionMatrix(xScale, aspect, near, far);
    ProjectPoint(xScale, aspect, near, far, Vec3(x, y, near));
    ProjectPoint(xScale, aspect, near, far, Vec3(x, y, far));
    var zn := m.MultiplyPoint(Vec3(x, y, near)).z;
    var zf := m.MultiplyPoint(Vec3(x, y, far)).z;
    assert zn * near == 0.0;
    QuotientOf(zn * near, near, zn);
    QuotientOf(0.0, near, 0.0);
    assert zf * far == m.m22 * (far - near);
    assert m.m22 * (far - near) == far;
    QuotientOf(zf * far, far, zf);
    QuotientOf(far, far, 1.0);
  }
}
