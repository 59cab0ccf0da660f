/**
  A pair of portals. The view through this portal is rendered by a camera
  placed behind the other portal: the main camera's pose is carried from
  this portal's frame, turned half a revolution about the vertical axis,
  into the other portal's frame.
 */
module Portals {
  import opened LinAlg
  import opened Bounds
  import opened Quads
  import opened Cameras

  /**
    One portal: its transform, its size, and the transform's
    `localToWorldMatrix` and `worldToLocalMatrix`, which Unity computes.
   */
  datatype Portal<Rot> = Portal(transform: Pose<Rot>, portalSize: Vec2, localToWorld: Mat4, worldToLocal: Mat4)

  /** `Matrix4x4.Rotate(Quaternion.Euler(0, 180, 0))`, with cos 180 = -1 and sin 180 = 0 exactly. */
  const Rotate180: Mat4 := Mat4(-1.0, 0.0, 0.0, 0.0,
                                0.0, 1.0, 0.0, 0.0,
                                0.0, 0.0, -1.0, 0.0,
                                0.0, 0.0, 0.0, 1.0)

  /** The half turn about y negates x and z and keeps y and w. */
  lemma Rotate180Flips(v: Vec4)
    ensures Rotate180.Transform(v) == Vec4(-v.x, v.y, -v.z, v.w)
  {
  }

  /** Turning twice by half a revolution is no turn at all. */
  lemma Rotate180Involution()
    ensures MatMul(Rotate180, Rotate180) == Identity
  {
    forall v: Vec4
      ensures Rotate180.Transform(Rotate180.Transform(v)) == v
    {
      Rotate180Flips(v);
      Rotate180Flips(Rotate180.Transform(v));
    }
    InverseByTransform(Rotate180, Rotate180);
  }

  /**
    The matrix that carries a point in front of `this` portal to the matching
    point behind `other`: into this portal's local frame first, then half a
    turn about y, then out of the other portal's local frame.
   */
  function WorldToPortalWorld<Rot>(here: Portal<Rot>, other: Portal<Rot>): (m: Mat4)
    ensures forall v: Vec4 {:trigger m.Transform(v)} ::
              m.Transform(v) == other.localToWorld.Transform(Rotate180.Transform(here.worldToLocal.Transform(v)))
  {
    var m := MatMul(MatMul(other.localToWorld, Rotate180), here.worldToLocal);
    forall v: Vec4
      ensures m.Transform(v) == other.localToWorld.Transform(Rotate180.Transform(here.worldToLocal.Transform(v)))
    {
      TransformMatMul(MatMul(other.localToWorld, Rotate180), here.worldToLocal, v);
      TransformMatMul(other.localToWorld, Rotate180, here.worldToLocal.Transform(v));
    }
    m
  }

  /**
    When this portal's world-to-local matrix takes its position to the local
    origin and the other's local-to-world matrix takes the origin to its
    position, the portal transform takes this portal's position to the
    other's, with weight 1.
   */
  lemma PortalMapsPositionToPosition<Rot>(here: Portal<Rot>, other: Portal<Rot>)
    requires here.worldToLocal.Transform(here.transform.position.Point()) == Origin.Point()
    requires other.localToWorld.Transform(Origin.Point()) == other.transform.position.Point()
    ensures WorldToPortalWorld(here, other).WeightOf(here.transform.position) == 1.0
    ensures WorldToPortalWorld(here, other).MultiplyPoint(here.transform.position) == other.transform.position
  {
    PositionImage(here, other);
    ImageWithWeightOne(WorldToPortalWorld(here, other), here.transform.position, other.transform.position);
  }

  /** A point whose homogeneous image is `q` with weight 1 is carried to `q` by `MultiplyPoint`. */
  lemma ImageWithWeightOne(m: Mat4, p: Vec3, q: Vec3)
    requires m.Transform(p.Point()) == q.Point()
    ensures m.WeightOf(p) == 1.0 && m.MultiplyPoint(p) == q
  {
    WeightOfIsW(m, p);
    DivideByOne(m.Transform(p.Point()));
  }

  /** The homogeneous image of this portal's position is the other portal's position, with weight 1. */
  lemma PositionImage<Rot>(here: Portal<Rot>, other: Portal<Rot>)
    requires here.worldToLocal.Transform(here.transform.position.Point()) == Origin.Point()
    requires other.localToWorld.Transform(Origin.Point()) == other.transform.position.Point()
    ensures WorldToPortalWorld(here, other).Transform(here.transform.position.Point()) == other.transform.position.Point()
  {
    Rotate180Flips(Origin.Point());
  }

  /**
    Going through this portal and then back through the other one is the
    identity, provided each portal's two matrices are inverse to each other.
   */
  lemma PortalRoundTrip<Rot>(here: Portal<Rot>, other: Portal<Rot>)
    requires MatMul(here.localToWorld, here.worldToLocal) == Identity
    requires MatMul(other.worldToLocal, other.localToWorld) == Identity
    ensures MatMul(WorldToPortalWorld(other, here), WorldToPortalWorld(here, other)) == Identity
  {
    var there := WorldToPortalWorld(here, other);
    var back := WorldToPortalWorld(other, here);
    forall j | 0 <= j < 4
      ensures MatMul(back, there).Transform(Basis(j)) == Identity.Transform(Basis(j))
    {
      var e := Basis(j);
      TransformMatMul(back, there, e);
      var a := here.worldToLocal.Transform(e);
      var b := Rotate180.Transform(a);
      var c := other.localToWorld.Transform(b);
      assert there.Transform(e) == c;
      TransformMatMul(other.worldToLocal, other.localToWorld, b);
      IdentityTransform(b);
      assert other.worldToLocal.Transform(c) == b;
      Rotate180Flips(a);
      Rotate180Flips(b);
      assert Rotate180.Transform(b) == a;
      TransformMatMul(here.localToWorld, here.worldToLocal, e);
      IdentityTransform(e);
    }
    EqualByBasis(MatMul(back, there), Identity);
  }

  /**
    The portal's corners: its position plus or minus half its size along the
    transform's right and up axes. Opposite corners are symmetric about the
    position and each edge is the full size along its axis.
   */
  function GetCornerPoints<Rot>(p: Portal<Rot>): (q: Quad)
    ensures q.topRight.Add(q.bottomLeft) == p.transform.position.Scale(2.0)
    ensures q.topLeft.Add(q.bottomRight) == p.transform.position.Scale(2.0)
    ensures q.topRight.Sub(q.topLeft) == p.transform.right.Scale(p.portalSize.x)
    ensures q.topRight.Sub(q.bottomRight) == p.transform.up.Scale(p.portalSize.y)
  {
    RectCorners(p.transform.position, p.transform.right, p.transform.up, p.portalSize)
  }

  /** Whether the main camera's position has a well-defined image behind the other portal. */
  predicate CameraPointDefined<Rot>(here: Portal<Rot>, other: Portal<Rot>, main: Camera<Rot>)
  {
    WorldToPortalWorld(here, other).WeightOf(main.position) != 0.0
  }

  /**
    One frame of the portal camera. It takes the main camera's position
    through the portal transform and composes the main camera's rotation
    with the transform's rotation part (`composeRotation`). It copies the
    main camera's aspect and field of view. Its near plane is `distance`,
    the distance from the new position to the other portal. It draws to the
    full viewport. Its far plane is left alone. The projection matrix Unity
    recomputes from the new aspect, field of view and near plane is not
    modelled: the contract says nothing about it.
   */
  function Update<Rot>(here: Portal<Rot>, other: Portal<Rot>, main: Camera<Rot>, portalCamera: Camera<Rot>,
                       composeRotation: (Mat4, Rot) -> Rot, distance: real): (c: Camera<Rot>)
    requires CameraPointDefined(here, other, main)
    requires distance >= 0.0
    requires distance * distance
             == SqDist(WorldToPortalWorld(here, other).MultiplyPoint(main.position), other.transform.position)
    ensures c.position == WorldToPortalWorld(here, other).MultiplyPoint(main.position)
    ensures c.rotation == composeRotation(WorldToPortalWorld(here, other), main.rotation)
    ensures c.aspect == main.aspect && c.fieldOfView == main.fieldOfView
    ensures c.nearClipPlane >= 0.0 && c.nearClipPlane * c.nearClipPlane == SqDist(c.position, other.transform.position)
    ensures c.rect == FullRect
    ensures c.farClipPlane == portalCamera.farClipPlane
  {
    var worldToPortal := WorldToPortalWorld(here, other);
    var cameraPoint := worldToPortal.MultiplyPoint(main.position);
    portalCamera.(position := cameraPoint,
                  rotation := composeRotation(worldToPortal, main.rotation),
                  aspect := main.aspect,
                  fieldOfView := main.fieldOfView,
                  nearClipPlane := distance,
                  rect := Rect(0.0, 0.0, 1.0, 1.0))
  }
}
