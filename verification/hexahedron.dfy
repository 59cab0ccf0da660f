/**
  A view volume given by its eight corners. Corners 0-3 are the back (near)
  face and corners 4-7 the front (far) face, each in the order left-bottom,
  right-bottom, right-top, left-top.
 */
module Hexahedra {
  import opened LinAlg

  datatype Hexahedron = Hexahedron(corners: seq<Vec3>)

  /**
    The sign pattern of corner i (0 <= i < 8) relative to the centre: x is
    negative on the left corners, y on the bottom corners, z on the back face.
   */
  function CornerSign(i: nat): (s: Vec3)
    requires i < 8
  {
    var k := i % 4;
    Vec3(if k == 0 || k == 3 then -1.0 else 1.0,
         if k < 2 then -1.0 else 1.0,
         if i < 4 then -1.0 else 1.0)
  }

  /** The corner diagonally opposite to corner i through the centre. */
  function Opposite(i: nat): (j: nat)
    requires i < 8
    ensures j < 8
    ensures CornerSign(j) == CornerSign(i).Neg()
  {
    if i < 4 then (i + 2) % 4 + 4 else (i - 4 + 2) % 4
  }

  /** Componentwise product, used to scale a corner sign by an extent. */
  function Mul(a: Vec3, b: Vec3): Vec3
  {
    Vec3(a.x * b.x, a.y * b.y, a.z * b.z)
  }

  /**
    The axis-aligned box with the given centre and size: corner i is the
    centre offset by half the size with the sign pattern of corner i.
   */
  function Box(center: Vec3, size: Vec3): (h: Hexahedron)
    ensures |h.corners| == 8
    ensures forall i :: 0 <= i < 8 ==> h.corners[i] == center.Add(Mul(CornerSign(i), size.Scale(0.5)))
  {
    var e := size.Scale(0.5);
    var h := Hexahedron([
      center.Add(Vec3(-e.x, -e.y, -e.z)),
      center.Add(Vec3(e.x, -e.y, -e.z)),
      center.Add(Vec3(e.x, e.y, -e.z)),
      center.Add(Vec3(-e.x, e.y, -e.z)),
      center.Add(Vec3(-e.x, -e.y, e.z)),
      center.Add(Vec3(e.x, -e.y, e.z)),
      center.Add(Vec3(e.x, e.y, e.z)),
      center.Add(Vec3(-e.x, e.y, e.z))]);
    assert forall i :: 0 <= i < 8 ==> h.corners[i] == center.Add(Mul(CornerSign(i), e)) by {
      forall i | 0 <= i < 8
        ensures h.corners[i] == center.Add(Mul(CornerSign(i), e))
      {
        BoxCorner(center, e, i);
      }
    }
    h
  }

  lemma BoxCorner(center: Vec3, e: Vec3, i: nat)
    requires i < 8
    ensures var s := CornerSign(i);
            center.Add(Mul(s, e)) == center.Add(Vec3(s.x * e.x, s.y * e.y, s.z * e.z))
  {
  }

  /** Diagonally opposite box corners average to the centre. */
  lemma BoxOppositeCorners(center: Vec3, size: Vec3, i: nat)
    requires i < 8
    ensures var h := Box(center, size);
            h.corners[i].Add(h.corners[Opposite(i)]) == center.Scale(2.0)
  {
    var e := size.Scale(0.5);
    var s := CornerSign(i);
    assert CornerSign(Opposite(i)) == s.Neg();
    assert Mul(s.Neg(), e) == Mul(s, e).Neg();
  }

  /** The clip-space cube [-1, 1]^3, with the corner signs as its corners. */
  lemma ClipCubeCorners(i: nat)
    requires i < 8
    ensures Box(Origin, Vec3(2.0, 2.0, 2.0)).corners[i] == CornerSign(i)
  {
    var s := CornerSign(i);
    assert Mul(s, Vec3(1.0, 1.0, 1.0)) == s;
  }

  /**
    The point `center + d` offset by the half-extent `rs` with the sign
    `s.x` and by `us` with the sign `s.y`: where a face corner with sign
    pattern `s` lies.
   */
  function SignedCorner(center: Vec3, rs: Vec3, us: Vec3, d: Vec3, s: Vec3): Vec3
  {
    center.Add(rs.Scale(s.x)).Add(us.Scale(s.y)).Add(d)
  }

  /**
    The four corners of one face of the frustum: the face centre `center + d`
    offset by the half-extents `rs` and `us`, in the order left-bottom,
    right-bottom, right-top, left-top; corner k has the sign pattern of
    corner k of the box.
   */
  function FaceCorners(center: Vec3, rs: Vec3, us: Vec3, d: Vec3): (q: seq<Vec3>)
    ensures |q| == 4
    ensures forall k :: 0 <= k < 4 ==> q[k] == SignedCorner(center, rs, us, d, CornerSign(k))
  {
    [center.Sub(rs).Sub(us).Add(d),
     center.Add(rs).Sub(us).Add(d),
     center.Add(rs).Add(us).Add(d),
     center.Sub(rs).Add(us).Add(d)]
  }

  /**
    The frustum of a camera at `center` with orientation axes `forward`,
    `right` and `up`, between the planes at distances `near` and `far`;
    `tanHalfFov` is the tangent of half the vertical field of view. Corner i
    lies on the plane at distance near (i < 4) or far (i >= 4) along
    `forward`, offset from the view axis by the half-width `tan * d * aspect`
    along `right` and the half-height `tan * d` along `up`, with the signs of
    box corner i.
   */
  function CreateFrustum(center: Vec3, forward: Vec3, right: Vec3, up: Vec3,
                         tanHalfFov: real, far: real, near: real, aspect: real): (h: Hexahedron)
    ensures |h.corners| == 8
    ensures forall i :: 0 <= i < 4 ==>
              h.corners[i] == SignedCorner(center, right.Scale(tanHalfFov * near * aspect), up.Scale(tanHalfFov * near),
                                           forward.Scale(near), CornerSign(i))
    ensures forall i :: 4 <= i < 8 ==>
              h.corners[i] == SignedCorner(center, right.Scale(tanHalfFov * far * aspect), up.Scale(tanHalfFov * far),
                                           forward.Scale(far), CornerSign(i))
  {
    var nearFace := FaceCorners(center, right.Scale(tanHalfFov * near * aspect), up.Scale(tanHalfFov * near), forward.Scale(near));
    var farFace := FaceCorners(center, right.Scale(tanHalfFov * far * aspect), up.Scale(tanHalfFov * far), forward.Scale(far));
    var h := Hexahedron(nearFace + farFace);
    assert forall i :: 4 <= i < 8 ==>
             h.corners[i] == SignedCorner(center, right.Scale(tanHalfFov * far * aspect), up.Scale(tanHalfFov * far),
                                          forward.Scale(far), CornerSign(i)) by {
      forall i | 4 <= i < 8
        ensures h.corners[i] == SignedCorner(center, right.Scale(tanHalfFov * far * aspect), up.Scale(tanHalfFov * far),
                                             forward.Scale(far), CornerSign(i))
      {
        assert h.corners[i] == farFace[i - 4];
        SignedCornerFront(center, right.Scale(tanHalfFov * far * aspect), up.Scale(tanHalfFov * far), forward.Scale(far), i - 4);
      }
    }
    h
  }

  /** Front-face corner k + 4 has the same x and y signs as back-face corner k. */
  lemma SignedCornerFront(center: Vec3, rs: Vec3, us: Vec3, d: Vec3, k: nat)
    requires k < 4
    ensures SignedCorner(center, rs, us, d, CornerSign(k + 4)) == SignedCorner(center, rs, us, d, CornerSign(k))
  {
    FrontSign(k);
  }

  /** The front-face corner k + 4 has the signs of back-face corner k, but z = +1. */
  lemma FrontSign(k: nat)
    requires k < 4
    ensures CornerSign(k + 4) == CornerSign(k).(z := 1.0)
  {
    assert (k + 4) % 4 == k;
  }

  /**
    The faces of the frustum at distance d (near for corners 0..3, far for
    4..7): the edge from the first corner to the second is `right` scaled by
    the face width 2 * tan * d * aspect, the edge from the first to the
    fourth is `up` scaled by the face height 2 * tan * d, and the diagonal
    from the first corner to the third has its midpoint on the view axis at
    distance d along `forward`.
   */
  lemma CreateFrustumFaces(center: Vec3, forward: Vec3, right: Vec3, up: Vec3,
                           tanHalfFov: real, far: real, near: real, aspect: real)
    ensures var h := CreateFrustum(center, forward, right, up, tanHalfFov, far, near, aspect);
            && h.corners[1].Sub(h.corners[0]) == right.Scale(2.0 * (tanHalfFov * near * aspect))
            && h.corners[3].Sub(h.corners[0]) == up.Scale(2.0 * (tanHalfFov * near))
            && h.corners[0].Add(h.corners[2]) == center.Add(forward.Scale(near)).Scale(2.0)
            && h.corners[5].Sub(h.corners[4]) == right.Scale(2.0 * (tanHalfFov * far * aspect))
            && h.corners[7].Sub(h.corners[4]) == up.Scale(2.0 * (tanHalfFov * far))
            && h.corners[4].Add(h.corners[6]) == center.Add(forward.Scale(far)).Scale(2.0)
  {
    var nearFace := FaceCorners(center, right.Scale(tanHalfFov * near * aspect), up.Scale(tanHalfFov * near), forward.Scale(near));
    var farFace := FaceCorners(center, right.Scale(tanHalfFov * far * aspect), up.Scale(tanHalfFov * far), forward.Scale(far));
    var h := CreateFrustum(center, forward, right, up, tanHalfFov, far, near, aspect);
    assert h.corners == nearFace + farFace;
    assert h.corners[0] == nearFace[0] && h.corners[1] == nearFace[1];
    assert h.corners[2] == nearFace[2] && h.corners[3] == nearFace[3];
    assert h.corners[4] == farFace[0] && h.corners[5] == farFace[1];
    assert h.corners[6] == farFace[2] && h.corners[7] == farFace[3];
    FrustumFace(center, forward, right, up, tanHalfFov, near, aspect);
    FrustumFace(center, forward, right, up, tanHalfFov, far, aspect);
  }

  /** The face of the frustum at distance d: edges 2 * tan * d * aspect and 2 * tan * d, centre at `center + forward * d`. */
  lemma FrustumFace(center: Vec3, forward: Vec3, right: Vec3, up: Vec3, tanHalfFov: real, d: real, aspect: real)
    ensures var p := FaceCorners(center, right.Scale(tanHalfFov * d * aspect), up.Scale(tanHalfFov * d), forward.Scale(d));
            && p[1].Sub(p[0]) == right.Scale(2.0 * (tanHalfFov * d * aspect))
            && p[3].Sub(p[0]) == up.Scale(2.0 * (tanHalfFov * d))
            && p[0].Add(p[2]) == center.Add(forward.Scale(d)).Scale(2.0)
  {
    FaceShape(center, right.Scale(tanHalfFov * d * aspect), up.Scale(tanHalfFov * d), forward.Scale(d));
    ScaleTwice(right, tanHalfFov * d * aspect);
    ScaleTwice(up, tanHalfFov * d);
  }

  /**
    The far face is the near face scaled about the apex `center` by
    far / near: every edge of the frustum runs through the camera position.
   */
  lemma CreateFrustumApex(center: Vec3, forward: Vec3, right: Vec3, up: Vec3,
                          tanHalfFov: real, far: real, near: real, aspect: real, k: nat)
    requires near != 0.0 && k < 4
    ensures var h := CreateFrustum(center, forward, right, up, tanHalfFov, far, near, aspect);
            h.corners[k + 4].Sub(center) == h.corners[k].Sub(center).Scale(far / near)
  {
    var nearFace := FaceCorners(center, right.Scale(tanHalfFov * near * aspect), up.Scale(tanHalfFov * near), forward.Scale(near));
    var farFace := FaceCorners(center, right.Scale(tanHalfFov * far * aspect), up.Scale(tanHalfFov * far), forward.Scale(far));
    var h := CreateFrustum(center, forward, right, up, tanHalfFov, far, near, aspect);
    assert h.corners == nearFace + farFace;
    RatioOfProducts(near, far, tanHalfFov, aspect);
    ScaleOfScale(right, tanHalfFov * near * aspect, far / near, tanHalfFov * far * aspect);
    ScaleOfScale(up, tanHalfFov * near, far / near, tanHalfFov * far);
    ScaleOfScale(forward, near, far / near, far);
    FaceScaling(center, right.Scale(tanHalfFov * near * aspect), up.Scale(tanHalfFov * near), forward.Scale(near), far / near, k);
    assert h.corners[k] == nearFace[k] && h.corners[k + 4] == farFace[k];
  }

  /** Scaling a face's offsets by q scales each corner's offset from the centre by q. */
  lemma FaceScaling(center: Vec3, rs: Vec3, us: Vec3, d: Vec3, q: real, k: nat)
    requires k < 4
    ensures FaceCorners(center, rs.Scale(q), us.Scale(q), d.Scale(q))[k].Sub(center)
            == FaceCorners(center, rs, us, d)[k].Sub(center).Scale(q)
  {
    var p := FaceCorners(center, rs, us, d);
    var fs := [d.Sub(rs).Sub(us), d.Add(rs).Sub(us), d.Add(rs).Add(us), d.Sub(rs).Add(us)];
    assert p[k].Sub(center) == fs[k];
    ScaleDistributes(d.Sub(rs), us, q);
    ScaleDistributes(d.Add(rs), us, q);
    ScaleDistributes(d, rs, q);
  }

  lemma RatioOfProducts(near: real, far: real, t: real, a: real)
    requires near != 0.0
    ensures (far / near) * near == far
    ensures (far / near) * (t * near) == t * far
    ensures (far / near) * (t * near * a) == t * far * a
  {
    var q := far / near;
    assert q * near == far;
    assert q * (t * near) == t * (q * near);
    assert q * (t * near * a) == t * (q * near) * a;
  }

  /**
    One face as the frustum builder lays it out: the edges are twice the
    half-extents and the diagonal's midpoint is the face centre.
   */
  lemma FaceShape(c: Vec3, rs: Vec3, us: Vec3, d: Vec3)
    ensures var p := FaceCorners(c, rs, us, d);
            && p[1].Sub(p[0]) == rs.Scale(2.0)
            && p[3].Sub(p[0]) == us.Scale(2.0)
            && p[0].Add(p[2]) == c.Add(d).Scale(2.0)
  {
  }

  lemma ScaleTwice(v: Vec3, a: real)
    ensures v.Scale(a).Scale(2.0) == v.Scale(2.0 * a)
  {
  }

  /** The image of every corner under `m`, the bottom row of `m` ignored. */
  function ApplyNoDivide(h: Hexahedron, m: Mat4): (r: Hexahedron)
    ensures |r.corners| == |h.corners|
    ensures forall i :: 0 <= i < |h.corners| ==> r.corners[i] == m.MultiplyPoint3x4(h.corners[i])
  {
    Hexahedron(seq(|h.corners|, i requires 0 <= i < |h.corners| => m.MultiplyPoint3x4(h.corners[i])))
  }

  /** Whether `m` gives every corner a non-zero weight; the code does not check. */
  predicate DividesCleanly(h: Hexahedron, m: Mat4)
  {
    forall i :: 0 <= i < |h.corners| ==> m.WeightOf(h.corners[i]) != 0.0
  }

  /** The full homogeneous image of every corner, divided by its weight. */
  function ApplyWithDivide(h: Hexahedron, m: Mat4): (r: Hexahedron)
    requires DividesCleanly(h, m)
    ensures |r.corners| == |h.corners|
    ensures forall i :: 0 <= i < |h.corners| ==>
              r.corners[i].Scale(m.WeightOf(h.corners[i])) == m.Transform(h.corners[i].Point()).XYZ()
    ensures forall i :: 0 <= i < |h.corners| ==> r.corners[i] == m.MultiplyPoint(h.corners[i])
  {
    var r := Hexahedron(seq(|h.corners|, i requires 0 <= i < |h.corners| => m.MultiplyPoint(h.corners[i])));
    assert forall i :: 0 <= i < |h.corners| ==>
             r.corners[i].Scale(m.WeightOf(h.corners[i])) == m.Transform(h.corners[i].Point()).XYZ() by {
      forall i | 0 <= i < |h.corners|
        ensures r.corners[i].Scale(m.WeightOf(h.corners[i])) == m.Transform(h.corners[i].Point()).XYZ()
      {
        MultiplyPointUndone(m, h.corners[i]);
      }
    }
    r
  }

  lemma MultiplyPointUndone(m: Mat4, p: Vec3)
    requires m.WeightOf(p) != 0.0
    ensures m.MultiplyPoint(p).Scale(m.WeightOf(p)) == m.Transform(p.Point()).XYZ()
  {
    WeightOfIsW(m, p);
    DivideUndone(m.Transform(p.Point()));
  }

  /** For a matrix whose bottom row is (0, 0, 0, 1) both transforms agree. */
  lemma AffineDivideIsNoDivide(h: Hexahedron, m: Mat4)
    requires m.IsAffine()
    ensures DividesCleanly(h, m)
    ensures ApplyWithDivide(h, m) == ApplyNoDivide(h, m)
  {
    var a := ApplyWithDivide(h, m);
    var b := ApplyNoDivide(h, m);
    forall i | 0 <= i < |h.corners|
      ensures a.corners[i] == b.corners[i]
    {
      assert m.WeightOf(h.corners[i]) == 1.0;
    }
  }

  /** The 8 corners of the clip-space cube the camera frustum is recovered from. */
  const ClipCube: Hexahedron := Box(Origin, Vec3(2.0, 2.0, 2.0))

  /**
    The frustum of a camera from its matrices: the clip-space cube is taken
    back through the inverse projection, with the divide, and then to world
    space through the camera-to-world matrix, without it.
   */
  function GetFrustum(inverseProjection: Mat4, cameraToWorld: Mat4): (h: Hexahedron)
    requires DividesCleanly(ClipCube, inverseProjection)
    ensures |h.corners| == 8
    ensures forall i :: 0 <= i < 8 ==>
              inverseProjection.WeightOf(CornerSign(i)) != 0.0
              && h.corners[i] == cameraToWorld.MultiplyPoint3x4(inverseProjection.MultiplyPoint(CornerSign(i)))
  {
    forall i | 0 <= i < 8
      ensures ClipCube.corners[i] == CornerSign(i)
    {
      ClipCubeCorners(i);
    }
    ApplyNoDivide(ApplyWithDivide(ClipCube, inverseProjection), cameraToWorld)
  }
}
