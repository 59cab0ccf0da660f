/**
  The parts of a Unity camera and of a scene transform that the core reads
  or writes. Orientations are an opaque type `Rot` (Unity's quaternion);
  everything derived from them (basis vectors, TRS matrices, their inverses)
  is supplied by the caller.
 */
module Cameras {
  import opened LinAlg
  import opened Bounds

  datatype Camera<Rot> = Camera(
    position: Vec3,
    rotation: Rot,
    projectionMatrix: Mat4,
    aspect: real,
    fieldOfView: real,
    nearClipPlane: real,
    farClipPlane: real,
    rect: Rect)

  /**
    A scene transform as the core sees it: world position and rotation, the
    world-space right and up axes (`rotation * Vector3.right`, `* up`), and
    the local scale.
   */
  datatype Pose<Rot> = Pose(
    position: Vec3,
    rotation: Rot,
    right: Vec3,
    up: Vec3,
    localScale: Vec3)

  /** The full viewport, `new Rect(0, 0, 1, 1)`. */
  const FullRect: Rect := Rect(0.0, 0.0, 1.0, 1.0)
}
