/**
  The off-axis "window" camera: a camera placed at the viewer, turned to the
  window's orientation, whose asymmetric perspective frustum has the window
  rectangle as its near plane, and whose viewport is the window's on-screen
  bounding rectangle as the viewer sees it.
 */
module CameraCutter {
  import opened LinAlg
  import opened Bounds
  import opened Quads
  import opened Cameras

  /** The seven slots of the frustum matrix that may be non-zero. */
  predicate IsFrustumSlot(i: nat, j: nat)
  {
    (i == 0 && j == 0) || (i == 0 && j == 2) || (i == 1 && j == 1) || (i == 1 && j == 2)
    || (i == 2 && j == 2) || (i == 2 && j == 3) || (i == 3 && j == 2)
  }

  /**
    The glFrustum-style perspective matrix for the near-plane rectangle
    [left, right] x [bottom, top] at distance `near` and the far plane at
    `far`; view space looks down -z, so the homogeneous weight is -z.
   */
  function Frustum(left: real, right: real, bottom: real, top: real, near: real, far: real): (m: Mat4)
    requires right != left && top != bottom && far != near
    ensures forall i: nat, j: nat :: i < 4 && j < 4 && !IsFrustumSlot(i, j) ==> m.Entry(i, j) == 0.0
    ensures m.m00 * (right - left) == 2.0 * near && m.m02 * (right - left) == right + left
    ensures m.m11 * (top - bottom) == 2.0 * near && m.m12 * (top - bottom) == top + bottom
    ensures m.m22 * (far - near) == -(far + near) && m.m23 * (far - near) == -2.0 * far * near
    ensures m.m32 == -1.0
    ensures forall p: Vec3 :: m.WeightOf(p) == -p.z
  {
    var w := right - left;
    var h := top - bottom;
    var d := far - near;
    Zero.(m00 := 2.0 * near / w, m02 := (right + left) / w,
          m11 := 2.0 * near / h, m12 := (top + bottom) / h,
          m22 := -(far + near) / d, m23 := -2.0 * far * near / d,
          m32 := -1.0)
  }

  /**
    Depth: a view-space point on the near plane (z = -near) lands on NDC
    depth -1 and one on the far plane (z = -far) on NDC depth +1.
   */
  lemma FrustumDepth(left: real, right: real, bottom: real, top: real, near: real, far: real, x: real, y: real)
    requires right != left && top != bottom && far != near
    requires near != 0.0 && far != 0.0
    ensures var m := Frustum(left, right, bottom, top, near, far);
            && m.WeightOf(Vec3(x, y, -near)) != 0.0
            && m.MultiplyPoint(Vec3(x, y, -near)).z == -1.0
            && m.WeightOf(Vec3(x, y, -far)) != 0.0
            && m.MultiplyPoint(Vec3(x, y, -far)).z == 1.0
  {
    var m := Frustum(left, right, bottom, top, near, far);
    DepthRow(near, far, m.m22, m.m23);
    assert m.Transform(Vec3(x, y, -near).Point()).z == -near;
    assert m.Transform(Vec3(x, y, -far).Point()).z == far;
    QuotientOf(-near, near, -1.0);
    QuotientOf(far, far, 1.0);
  }

  /** The depth row (c, e) of the frustum takes -near to -near and -far to far, before the divide. */
  lemma DepthRow(near: real, far: real, c: real, e: real)
    requires far != near
    requires c * (far - near) == -(far + near) && e * (far - near) == -2.0 * far * near
    ensures c * (-near) + e == -near
    ensures c * (-far) + e == far
  {
    var d := far - near;
    assert (c * (-near) + e) * d == (c * d) * (-near) + e * d;
    assert (c * d) * (-near) + e * d == (far + near) * near - 2.0 * far * near;
    assert (far + near) * near - 2.0 * far * near == (-near) * d;
    CancelFactor(c * (-near) + e, -near, d);
    assert (c * (-far) + e) * d == (c * d) * (-far) + e * d;
    assert (c * d) * (-far) + e * d == (far + near) * far - 2.0 * far * near;
    assert (far + near) * far - 2.0 * far * near == far * d;
    CancelFactor(c * (-far) + e, far, d);
  }

  /**
    Across the near plane the matrix maps [left, right] linearly onto NDC
    [-1, 1] in x and [bottom, top] onto [-1, 1] in y, and puts the plane at
    NDC depth -1.
   */
  lemma FrustumNearPlane(left: real, right: real, bottom: real, top: real, near: real, far: real, x: real, y: real)
    requires right != left && top != bottom && far != near
    requires near != 0.0 && far != 0.0
    ensures var m := Frustum(left, right, bottom, top, near, far);
            var p := Vec3(x, y, -near);
            && m.WeightOf(p) != 0.0
            && m.MultiplyPoint(p)
               == Vec3((2.0 * x - right - left) / (right - left), (2.0 * y - top - bottom) / (top - bottom), -1.0)
  {
    var m := Frustum(left, right, bottom, top, near, far);
    var p := Vec3(x, y, -near);
    var w := right - left;
    var h := top - bottom;
    FrustumDepth(left, right, bottom, top, near, far, x, y);
    var v := m.Transform(p.Point());
    assert v.w == near;
    NearPlaneCoordinate(near, left, right, x, v.x, v.w);
    NearPlaneCoordinate(near, bottom, top, y, v.y, v.w);
    assert m.MultiplyPoint(p) == Vec3(v.x / v.w, v.y / v.w, v.z / v.w);
  }

  /**
    One coordinate of a near-plane point: the row (2n/(hi-lo), (hi+lo)/(hi-lo))
    applied to (c, -n) and divided by the weight n.
   */
  lemma NearPlaneCoordinate(n: real, lo: real, hi: real, c: real, value: real, weight: real)
    requires hi != lo && n != 0.0
    requires value == (2.0 * n / (hi - lo)) * c + ((hi + lo) / (hi - lo)) * (-n) && weight == n
    ensures value / weight == (2.0 * c - hi - lo) / (hi - lo)
  {
    var w := hi - lo;
    var a := 2.0 * n / w;
    var b := (hi + lo) / w;
    assert a * w == 2.0 * n;
    assert b * w == hi + lo;
    var q := (2.0 * c - hi - lo) / w;
    assert q * w == 2.0 * c - hi - lo;
    assert (a * c + b * (-n)) * w == (q * n) * w;
    assert a * c + b * (-n) == q * n;
    QuotientOf(a * c + b * (-n), n, q);
  }

  /** The near-plane edges x = left, x = right, y = bottom, y = top reach the NDC edges. */
  lemma FrustumNearEdges(left: real, right: real, bottom: real, top: real, near: real, far: real)
    requires right != left && top != bottom && far != near
    requires near != 0.0 && far != 0.0
    ensures var m := Frustum(left, right, bottom, top, near, far);
            && m.MultiplyPoint(Vec3(left, bottom, -near)) == Vec3(-1.0, -1.0, -1.0)
            && m.MultiplyPoint(Vec3(right, bottom, -near)) == Vec3(1.0, -1.0, -1.0)
            && m.MultiplyPoint(Vec3(right, top, -near)) == Vec3(1.0, 1.0, -1.0)
            && m.MultiplyPoint(Vec3(left, top, -near)) == Vec3(-1.0, 1.0, -1.0)
  {
    FrustumNearPlane(left, right, bottom, top, near, far, left, bottom);
    FrustumNearPlane(left, right, bottom, top, near, far, right, top);
    FrustumNearPlane(left, right, bottom, top, near, far, right, bottom);
    FrustumNearPlane(left, right, bottom, top, near, far, left, top);
    QuotientOf(2.0 * left - right - left, right - left, -1.0);
    QuotientOf(2.0 * right - right - left, right - left, 1.0);
    QuotientOf(2.0 * bottom - top - bottom, top - bottom, -1.0);
    QuotientOf(2.0 * top - top - bottom, top - bottom, 1.0);
  }

  /** Near-plane bounds of the frustum, as seen from the viewer. */
  datatype FrustumBounds = FrustumBounds(left: real, right: real, bottom: real, top: real, near: real)

  /**
    Bounds of the window as seen from the viewer at `tcp`, the viewer's
    position in the window's own frame: the window's width and height, shifted
    by the viewer's lateral offset, at the viewer's distance in front of it.
   */
  function WindowBounds(tcp: Vec3, windowSize: Vec2): (b: FrustumBounds)
    ensures b.right - b.left == windowSize.x
    ensures b.top - b.bottom == windowSize.y
    ensures b.near == -tcp.z
    ensures b.right + b.left == -2.0 * tcp.x
    ensures b.top + b.bottom == -2.0 * tcp.y
  {
    FrustumBounds(
      left := -windowSize.x / 2.0 - tcp.x,
      right := windowSize.x / 2.0 - tcp.x,
      bottom := -windowSize.y / 2.0 - tcp.y,
      top := windowSize.y / 2.0 - tcp.y,
      near := -tcp.z)
  }

  /** Whether the projection of the window is defined: the code has no guard for these. */
  predicate WindowProjectionDefined(cameraPosition: Vec3, worldToWindow: Mat4, windowSize: Vec2, farPlaneDistance: real)
  {
    && worldToWindow.WeightOf(cameraPosition) != 0.0
    && windowSize.x != 0.0 && windowSize.y != 0.0
    && farPlaneDistance != -worldToWindow.MultiplyPoint(cameraPosition).z
  }

  /**
    The off-axis projection for a viewer at `cameraPosition` looking through
    the window whose world-to-local matrix is `worldToWindow`. A viewer on the
    window's axis gets a symmetric frustum: the off-axis entries vanish.
   */
  function GetWindowProjection(cameraPosition: Vec3, worldToWindow: Mat4, windowSize: Vec2, farPlaneDistance: real): (m: Mat4)
    requires WindowProjectionDefined(cameraPosition, worldToWindow, windowSize, farPlaneDistance)
    ensures m.m32 == -1.0
    ensures forall p: Vec3 :: m.WeightOf(p) == -p.z
    ensures var tcp := worldToWindow.MultiplyPoint(cameraPosition);
            tcp.x == 0.0 && tcp.y == 0.0 <==> m.m02 == 0.0 && m.m12 == 0.0
  {
    var tcp := worldToWindow.MultiplyPoint(cameraPosition);
    var b := WindowBounds(tcp, windowSize);
    var m := Frustum(b.left, b.right, b.bottom, b.top, b.near, farPlaneDistance);
    assert m.m02 == -2.0 * tcp.x / windowSize.x;
    assert m.m12 == -2.0 * tcp.y / windowSize.y;
    m
  }

  /**
    A viewer on the window's axis sees a centred window: left = -right and
    bottom = -top.
   */
  lemma OnAxisIsSymmetric(tcp: Vec3, windowSize: Vec2)
    requires tcp.x == 0.0 && tcp.y == 0.0
    ensures var b := WindowBounds(tcp, windowSize);
            b.left == -b.right && b.bottom == -b.top
  {
  }

  /**
    The view-space position of a point given in the window's frame, for the
    camera the window camera becomes: placed at the viewer (`tcp` in the
    window's frame) and turned to the window's orientation, so that the
    two frames differ by the translation and Unity's flip of view-space z.
   */
  function WindowToView(q: Vec3, tcp: Vec3): Vec3
  {
    Vec3(q.x - tcp.x, q.y - tcp.y, -(q.z - tcp.z))
  }

  /**
    The point of the window at (u, v) in its own plane projects to NDC
    (2u / width, 2v / height) on the near plane: the window's rectangle is the
    near-plane rectangle of the projection, for any viewer in front of or
    behind it.
   */
  lemma WindowIsNearPlane(cameraPosition: Vec3, worldToWindow: Mat4, windowSize: Vec2, farPlaneDistance: real, u: real, v: real)
    requires WindowProjectionDefined(cameraPosition, worldToWindow, windowSize, farPlaneDistance)
    requires worldToWindow.MultiplyPoint(cameraPosition).z != 0.0
    requires farPlaneDistance != 0.0
    ensures var tcp := worldToWindow.MultiplyPoint(cameraPosition);
            var m := GetWindowProjection(cameraPosition, worldToWindow, windowSize, farPlaneDistance);
            var p := WindowToView(Vec3(u, v, 0.0), tcp);
            && m.WeightOf(p) != 0.0
            && m.MultiplyPoint(p) == Vec3(2.0 * u / windowSize.x, 2.0 * v / windowSize.y, -1.0)
  {
    var tcp := worldToWindow.MultiplyPoint(cameraPosition);
    var b := WindowBounds(tcp, windowSize);
    var p := WindowToView(Vec3(u, v, 0.0), tcp);
    assert p == Vec3(u - tcp.x, v - tcp.y, -b.near);
    FrustumNearPlane(b.left, b.right, b.bottom, b.top, b.near, farPlaneDistance, u - tcp.x, v - tcp.y);
    assert 2.0 * (u - tcp.x) - b.right - b.left == 2.0 * u;
    assert 2.0 * (v - tcp.y) - b.top - b.bottom == 2.0 * v;
  }

  /**
    The window's corner (sx * width / 2, sy * height / 2), for signs sx and
    sy, lands exactly on the corner (sx, sy) of the NDC near square.
   */
  lemma WindowCornersAreNearCorners(cameraPosition: Vec3, worldToWindow: Mat4, windowSize: Vec2, farPlaneDistance: real,
                                    sx: real, sy: real)
    requires WindowProjectionDefined(cameraPosition, worldToWindow, windowSize, farPlaneDistance)
    requires worldToWindow.MultiplyPoint(cameraPosition).z != 0.0
    requires farPlaneDistance != 0.0
    requires (sx == 1.0 || sx == -1.0) && (sy == 1.0 || sy == -1.0)
    ensures var tcp := worldToWindow.MultiplyPoint(cameraPosition);
            var m := GetWindowProjection(cameraPosition, worldToWindow, windowSize, farPlaneDistance);
            var p := WindowToView(Vec3(sx * (0.5 * windowSize.x), sy * (0.5 * windowSize.y), 0.0), tcp);
            && m.WeightOf(p) != 0.0
            && m.MultiplyPoint(p) == Vec3(sx, sy, -1.0)
  {
    var u := sx * (0.5 * windowSize.x);
    var v := sy * (0.5 * windowSize.y);
    WindowIsNearPlane(cameraPosition, worldToWindow, windowSize, farPlaneDistance, u, v);
    QuotientOf(2.0 * u, windowSize.x, sx);
    QuotientOf(2.0 * v, windowSize.y, sy);
  }

  /**
    The window's four world corners projected to the viewer's viewport, in
    the order top-right, top-left, bottom-right, bottom-left. `toViewport`
    is the viewer camera's `WorldToViewportPoint`.
   */
  function ScreenCorners<Rot>(window: Pose<Rot>, toViewport: Vec3 -> Vec3): (ps: seq<Vec2>)
    ensures |ps| == 4
  {
    var q := RectCorners(window.position, window.right, window.up, window.localScale.XY());
    [toViewport(q.topRight).XY(), toViewport(q.topLeft).XY(),
     toViewport(q.bottomRight).XY(), toViewport(q.bottomLeft).XY()]
  }

  /**
    The viewport rectangle the window covers: it has no negative side, holds
    all four projected corners, and each of its edges touches one of them.
   */
  function WindowOnScreen<Rot>(window: Pose<Rot>, toViewport: Vec3 -> Vec3): (r: Rect)
    ensures r.width >= 0.0 && r.height >= 0.0
    ensures forall i :: 0 <= i < 4 ==> r.Contains(ScreenCorners(window, toViewport)[i])
    ensures exists i :: 0 <= i < 4 && ScreenCorners(window, toViewport)[i].x == r.XMin()
    ensures exists i :: 0 <= i < 4 && ScreenCorners(window, toViewport)[i].x == r.XMax()
    ensures exists i :: 0 <= i < 4 && ScreenCorners(window, toViewport)[i].y == r.YMin()
    ensures exists i :: 0 <= i < 4 && ScreenCorners(window, toViewport)[i].y == r.YMax()
  {
    BoundingRect(ScreenCorners(window, toViewport))
  }

  /**
    Aims `camera` through `window` for the viewer `target`: the camera moves
    to the viewer, takes the window's orientation, gets the off-axis
    projection and the window's on-screen rectangle; nothing else changes.
    `worldToWindow` is the inverse of the window's unscaled TRS matrix.
   */
  function ClipCamera<Rot>(camera: Camera<Rot>, target: Camera<Rot>, window: Pose<Rot>,
                           worldToWindow: Mat4, toViewport: Vec3 -> Vec3): (c: Camera<Rot>)
    requires WindowProjectionDefined(target.position, worldToWindow, window.localScale.XY(), target.farClipPlane)
    ensures c.position == target.position && c.rotation == window.rotation
    ensures c.projectionMatrix
            == GetWindowProjection(target.position, worldToWindow, window.localScale.XY(), target.farClipPlane)
    ensures c.rect == WindowOnScreen(window, toViewport)
    ensures c.rect.width >= 0.0 && c.rect.height >= 0.0
    ensures forall i :: 0 <= i < 4 ==> c.rect.Contains(ScreenCorners(window, toViewport)[i])
    ensures c.aspect == camera.aspect && c.fieldOfView == camera.fieldOfView
    ensures c.nearClipPlane == camera.nearClipPlane && c.farClipPlane == camera.farClipPlane
  {
    var projection := GetWindowProjection(target.position, worldToWindow, window.localScale.XY(), target.farClipPlane);
    camera.(position := target.position, rotation := window.rotation,
            projectionMatrix := projection, rect := WindowOnScreen(window, toViewport))
  }
}
