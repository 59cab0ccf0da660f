# PortalTutorial geometry in Dafny

A model of the geometry and projection arithmetic in the Unity "window and
portal camera" tutorial (PortalTutorial). Vectors and matrices are modelled
over exact `real`, not floats. The model covers five pieces:

- **Off-axis window camera** (`CameraCutter`).
  - The viewer's position is moved into the window's frame.
  - Asymmetric left/right/bottom/top bounds come from the window size. The near distance is the viewer's depth in front of the window.
  - These fill a glFrustum-style matrix whose weight is `w = -z`.
  - The window's on-screen rectangle is the min/max box of its four projected corners.
- **Hexahedron** (`Hexahedra`). An eight-corner view volume in a fixed corner order.
  - It is built either as a box or from a camera pose and field of view.
  - It can be transformed by a matrix with or without the perspective divide.
  - A camera's volume can be recovered from its inverse projection and camera-to-world matrices.
  - `FrustumRoundTrip` proves that this recovered volume is the laid-out volume for a symmetric perspective camera.
- **Portal transform** (`Portals`).
  - `other.localToWorld * rotate180 * this.worldToLocal`: a half turn about y between the two portal frames.
  - The portal's corner points.
  - The per-frame pose and intrinsics handed to the portal camera.
- **Alternative projection** (`CameraTester`). A projection with depth in [0, 1] and `w = +z`.
- **Rect mesh** (`MeshUtility`).
  - The portal quad: four vertices, two triangles, normals and UVs.
  - Its copy, and the replacement of its UVs.

Unity's own maths is not modelled. This covers trigonometry, quaternions, `TRS`/`inverse`, `WorldToViewportPoint` and `Vector3.Distance`. Each of these enters as a parameter:
- a tangent;
- basis vectors;
- a matrix;
- a projection function `Vec3 -> Vec3`;
- a rotation-composition function;
- a distance constrained by its square.

Orientations are an opaque type parameter `Rot`. Matrices act on column vectors, and field `mIJ` is Unity's `m[I, J]`.

Shared modules:
- `LinAlg`: vectors, `Mat4`, `MultiplyPoint` and `MultiplyPoint3x4`, matrix products, and their algebra.
- `Bounds`: `Rect`, and `Mathf.Min`/`Mathf.Max` over a list.
- `Quads`: the centred-rectangle corners that both the window and the portal compute.
- `Cameras`: the camera and transform fields that are read or written.

## Model

| member | source | states |
|---|---|---|
| Bounds.MinOf | Assets/CameraCutter.cs:90-91 | For an empty list it is 0, as `Mathf.Min` returns. Otherwise it is one of the elements and no element is smaller. |
| Bounds.MaxOf | Assets/CameraCutter.cs:92-93 | For an empty list it is 0. Otherwise it is one of the elements and no element is larger. |
| Bounds.BoundingRect | Assets/CameraCutter.cs:90-95 | The rect built from min/max has width and height ≥ 0 and contains every point. Each of xMin, xMax, yMin and yMax is attained by some point. |
| Quads.RectCorners | Assets/CameraCutter.cs:73-81 | Opposite corners are symmetric about the centre: TR+BL = TL+BR = 2·centre. Top and bottom edges are right·size.x; left and right edges are up·size.y. |
| CameraCutter.Frustum | Assets/CameraCutter.cs:132-172 | Every entry outside the seven frustum slots is 0, and m[3,2] = -1. The six coefficients satisfy m00·(r-l) = 2n, m02·(r-l) = r+l, m11·(t-b) = 2n, m12·(t-b) = t+b, m22·(f-n) = -(f+n) and m23·(f-n) = -2fn. The weight of every point is -z. |
| CameraCutter.FrustumDepth | Assets/CameraCutter.cs:141-170 | After the divide, a point at z = -near lands at NDC depth -1 and one at z = -far at +1. |
| CameraCutter.FrustumNearPlane | Assets/CameraCutter.cs:146-170 | On the near plane, x in [l, r] maps linearly onto NDC [-1, 1], and likewise y in [b, t]. |
| CameraCutter.FrustumNearEdges | Assets/CameraCutter.cs:141-154 | The four near-plane corners (l|r, b|t, -n) land on the NDC corners (±1, ±1, -1). |
| CameraCutter.WindowBounds | Assets/CameraCutter.cs:113-119 | right-left = window width, top-bottom = window height, and near = -tcp.z. The centre of the bounds is offset by -tcp.x and -tcp.y. |
| CameraCutter.GetWindowProjection | Assets/CameraCutter.cs:99-129 | The result is a perspective matrix with weight -z. Its off-axis entries are both 0 exactly when the viewer is on the window's axis. |
| CameraCutter.OnAxisIsSymmetric | Assets/CameraCutter.cs:116-119 | A viewer with tcp.x = tcp.y = 0 gets left = -right and bottom = -top. |
| CameraCutter.WindowIsNearPlane | Assets/CameraCutter.cs:106-127 | The window point (u, v) in its own plane projects to NDC (2u/width, 2v/height, -1). So the window rectangle is the near rectangle of the projection. |
| CameraCutter.WindowCornersAreNearCorners | Assets/CameraCutter.cs:113-127 | The window corners (±width/2, ±height/2) land on the NDC near corners (±1, ±1, -1). |
| CameraCutter.WindowOnScreen | Assets/CameraCutter.cs:71-97 | The on-screen rect has no negative side and contains the four projected window corners. Each of its edges touches one of the corners. |
| CameraCutter.ClipCamera | Assets/CameraCutter.cs:57-69 | The camera moves to the viewer and takes the window's rotation. It gets the window projection. Its viewport is exactly the window's on-screen bounding rectangle, which contains the projected corners. Aspect, field of view, near and far are untouched. |
| Hexahedra.Opposite | Assets/Hexahedron.cs:7-14 | The diagonally opposite corner has the negated sign pattern. |
| Hexahedra.Box | Assets/Hexahedron.cs:16-27 | There are eight corners. Corner i is centre + (sign pattern of i)·size/2, in the order LB, RB, RT, LT at -z and then at +z. |
| Hexahedra.BoxOppositeCorners | Assets/Hexahedron.cs:19-26 | Diagonally opposite corners average to the centre. |
| Hexahedra.ClipCubeCorners | Assets/Hexahedron.cs:63 | The box with centre 0 and size 2 has every coordinate ±1, and its corners are exactly the corner signs. |
| Hexahedra.CreateFrustum | Assets/Hexahedron.cs:31-59 | Corner i is centre ± right·(tan·d·aspect) ± up·(tan·d) + forward·d, with the x and y signs of box corner i. d is near for i < 4 and far otherwise. There are exactly eight corners. |
| Hexahedra.CreateFrustumFaces | Assets/Hexahedron.cs:39-57 | For d = near (corners 0..3) and d = far (corners 4..7): the edge from the face's first corner to its second is right·(2·tan·d·aspect). The edge from the first to the fourth is up·(2·tan·d). The midpoint of the first and third corners is centre + forward·d. |
| Hexahedra.CreateFrustumApex | Assets/Hexahedron.cs:39-57 | Far corner k+4 is centre + (far/near)·(near corner k − centre), so every side edge passes through the camera position. |
| Hexahedra.ApplyNoDivide | Assets/Hexahedron.cs:85-89 | The corner count and order are kept, and each corner becomes its 3x4 affine image. |
| Hexahedra.ApplyWithDivide | Assets/Hexahedron.cs:91-102 | The corner count and order are kept. Each new corner times the corner's weight is the xyz of M·(p, 1), so the corner is that product divided by w. |
| Hexahedra.AffineDivideIsNoDivide | Assets/Hexahedron.cs:85-102 | When the bottom row is (0, 0, 0, 1), no weight is 0 and both transforms give the same corners. |
| Hexahedra.GetFrustum | Assets/Hexahedron.cs:61-67 | Eight corners. Corner i is the clip-cube corner i taken through the inverse projection with the divide, then through the camera-to-world matrix without it. |
| FrustumRoundTrip.SymmetricInverseIsInverse | Assets/Hexahedron.cs:64 | The closed-form inverse used for a symmetric perspective camera is a right inverse of that camera's frustum matrix. |
| FrustumRoundTrip.GetFrustumIsCreateFrustum | Assets/Hexahedron.cs:31-67 | Recovering the volume from a symmetric camera's inverse projection and camera-to-world matrices gives exactly the eight corners `CreateFrustum` lays out from the same pose, tan, aspect, near and far. |
| Portals.Rotate180Flips | Assets/Portal/Portal.cs:60 | The half turn about y maps (x, y, z, w) to (-x, y, -z, w). |
| Portals.Rotate180Involution | Assets/Portal/Portal.cs:60 | The half turn is its own inverse. |
| Portals.WorldToPortalWorld | Assets/Portal/Portal.cs:57-63 | The product applies this portal's world-to-local first, then the half turn, then the other portal's local-to-world. |
| Portals.PortalMapsPositionToPosition | Assets/Portal/Portal.cs:57-63 | This portal's position is carried to the other portal's position, with weight 1. |
| Portals.PortalRoundTrip | Assets/Portal/Portal.cs:57-63 | The B→A transform after the A→B transform is the identity, when each portal's matrices invert each other. |
| Portals.GetCornerPoints | Assets/Portal/Portal.cs:107-118 | TR+BL = TL+BR = 2·position. TR−TL = right·portalSize.x and TR−BR = up·portalSize.y. |
| Portals.Update | Assets/Portal/Portal.cs:33-55 | The position is the portal transform of the main camera's position. The rotation is composed with the transform's rotation. Aspect and field of view are copied. The near plane is the non-negative distance to the other portal. The rect is (0, 0, 1, 1). The far plane is unchanged. |
| CameraTester.GetProjectionMatrix | Assets/Portal/CameraTester.cs:27-39 | Every entry outside the five slots is 0. m00 = xScale, m11 = xScale·aspect, q·(far−near) = far for q = m22, and m23 = −q·near. The bottom row gives w = +z. |
| CameraTester.ProjectPoint | Assets/Portal/CameraTester.cs:27-39 | After the divide by z, x·z = xScale·x and y·z = xScale·aspect·y, and the depth times z is q·(z − near). |
| CameraTester.ProjectionDepth | Assets/Portal/CameraTester.cs:31-37 | z = near maps to depth 0 and z = far to depth 1. |
| MeshUtility.CreateRectMesh | Assets/Portal/MeshUtility.cs:26-48 | There are 4 vertices, 4 normals, 4 UVs and 6 triangle indices, each naming a vertex. Every normal is forward. The vertex at each corner is (±size.x/2, ±size.y/2, 0), and vertex i is ((u−½)·size.x, (v−½)·size.y, 0) for UV i = (u, v). |
| MeshUtility.RectMeshTriangles | Assets/Portal/MeshUtility.cs:30-37 | The two triangles share the diagonal 0–2 and wind the same way. Each covers half of the size.x·size.y rectangle. |
| MeshUtility.CopyArray | Assets/Portal/MeshUtility.cs:17-22 | The copy has the original's length and the same element at every index. |
| MeshUtility.Copy | Assets/Portal/MeshUtility.cs:7-25 | The copied mesh has equal vertices, triangles, normals and UVs. |
| MeshUtility.SetRectUV | Assets/Portal/MeshUtility.cs:50-53 | The geometry is untouched, and there are 4 UVs. Each corner's UV is stored at that corner's place in the BL, BR, TR, TL vertex order. |
| MeshUtility.SetRectUVOfUnitSquare | Assets/Portal/MeshUtility.cs:50-53 | Giving each corner its own unit-square corner restores the mesh as built. |
| MeshUtility.SetRectUVPairsCorners | Assets/Portal/MeshUtility.cs:30-53 | On the rect mesh, the UV given for a corner is paired with the vertex at that corner. |

## Left out

- Floating point: everything is exact `real`, and no rounding error is modelled.
- Unity maths is taken as input (`Mathf.Tan`, quaternion products, `Matrix4x4.TRS`/`inverse`/`rotation`, `WorldToViewportPoint`, `cameraToWorldMatrix`, `Mesh.RecalculateBounds`). These are foreign library calls.
- CameraCutter.GetWindowProjection: the source calls Unity's `Matrix4x4.Frustum`. The model uses the file's own `Frustum`, which the source describes as equivalent. `worldToWindow` is an input standing for `TRS(position, rotation, one).inverse`.
- CameraCutter.GetWindowProjection: requires a non-zero viewer weight, a non-zero window size and far ≠ near. The code has no guard and would divide by zero or produce infinities. It also does not require near > 0, because the code does not check it.
- CameraCutter.ClipCamera: the `Update` and `OnDrawGizmos` plumbing (render-texture clear, gizmo drawing) is not modelled. It is I/O.
- Portals.Update: the near plane is a parameter `distance` with distance ≥ 0 and distance² equal to the squared distance. `Vector3.Distance` takes a square root, which has no exact `real` counterpart. Also, `renderTexture.Release()` and the `GetCornerPointsUV` call, whose result is only used by commented-out code, are left out.
- Portals.Update: says nothing about the projection matrix. Setting aspect, field of view and near plane makes Unity recompute the projection from them, and that recomputation is not modelled.
- Hexahedra.CreateFrustumFaces: does not assume right ⊥ up, so it states the faces' edge vectors and centres but not that they are rectangles. They are rectangles only for orthonormal axes, which a rotation gives.
- Portals.Update: the camera rotation is `composeRotation(worldToPortal, main.rotation)`, with the composition passed in. `Matrix4x4.rotation` and quaternion products are foreign.
- Portals.Rotate180Flips: the half turn is exact (cos 180° = −1, sin 180° = 0). `Quaternion.Euler` rounding is not modelled.
- Portals.WorldToPortalWorld: the matrices `localToWorld` and `worldToLocal` are fields of the portal. Whether they invert each other is a hypothesis of `PortalRoundTrip`, not a fact of the model.
- `GetCornerPointsUV` (Assets/Portal/Portal.cs:119-126) is left out: it only applies `WorldToViewportPoint`, a foreign call, to `GetCornerPoints`.
- `OnDrawGizmos`, `DrawGizmo`, `Handles.Label`, `Debug.Log`, `Start`/`Setup` and the `[SerializeField]` plumbing are left out. They are drawing, logging or component lookup.
- Assets/CameraSetter.cs is not part of this model: it only composes `Hexahedron` calls for drawing.
- CameraTester.GetProjectionMatrix: `xScale` is an input standing for `1 / tan(horizontalAngle / 2)`. The call site (Assets/Portal/CameraTester.cs:23), which passes a vertical angle in radians as `aspect`, is not modelled; only the function is. The function requires far ≠ near.
- Hexahedra.ApplyWithDivide: requires every corner's weight to be non-zero. The code divides without checking.
- FrustumRoundTrip.GetFrustumIsCreateFrustum: proved for the closed-form inverse of a symmetric perspective matrix (`SymmetricInverseIsInverse` shows it inverts the frustum matrix) and for the camera-to-world matrix whose columns are the pose's right, up and negated forward axes and its position. Unity's general `inverse` and `cameraToWorldMatrix` are not modelled, so the statement is about these closed forms.
- MeshUtility.Copy: Unity meshes are reference objects. The model treats a mesh as a value, so "a new mesh with copied arrays" becomes "an equal value built element by element".
- MeshUtility.SetRectUV: Unity's check that the UV count matches the vertex count is not modelled. `SetUVs` on a mesh without four vertices is Unity's concern.
- These sources do not implement oblique near-plane clipping, viewport clamping to [0, 1], visibility (frustum-culling) tests, or a guard against a viewer behind the window or portal. None of these is modelled, and the model follows the code.
