/**
  The flat rectangle mesh a portal is drawn on, and the two edits made to
  meshes: a deep copy, and replacing the rectangle's texture coordinates.
 */
module MeshUtility {
  import opened LinAlg

  /** The four arrays of a Unity mesh that the utilities touch. */
  datatype Mesh = Mesh(vertices: seq<Vec3>, triangles: seq<int>, normals: seq<Vec3>, uv: seq<Vec2>)

  /** `Vector3.forward`. */
  const Forward: Vec3 := Vec3(0.0, 0.0, 1.0)

  /**
    Where a rectangle's corner sits in its vertex and uv arrays: bottom-left,
    bottom-right, top-right, top-left.
   */
  function RectCorner(top: bool, rightSide: bool): (i: nat)
    ensures i < 4
    ensures (i == 2 || i == 3) <==> top
    ensures (i == 1 || i == 2) <==> rightSide
  {
    if top then (if rightSide then 2 else 3) else (if rightSide then 1 else 0)
  }

  /** -1/2 or +1/2: the side of the centre a corner lies on. */
  function Half(positive: bool): real
  {
    if positive then 0.5 else -0.5
  }

  /** Every triangle index names an existing vertex and the indices come in threes. */
  predicate TrianglesValid(m: Mesh)
  {
    |m.triangles| % 3 == 0 && forall i :: 0 <= i < |m.triangles| ==> 0 <= m.triangles[i] < |m.vertices|
  }

  /**
    The `size.x` by `size.y` rectangle centred on the origin in the z = 0
    plane, facing +z. Each vertex sits at its corner of the rectangle, and
    its uv is that corner of the unit square, so vertex i is
    ((u - 1/2) * size.x, (v - 1/2) * size.y, 0) for uv i = (u, v).
   */
  function CreateRectMesh(size: Vec2): (m: Mesh)
    ensures |m.vertices| == 4 && |m.normals| == 4 && |m.uv| == 4 && |m.triangles| == 6
    ensures TrianglesValid(m)
    ensures forall i :: 0 <= i < 4 ==> m.normals[i] == Forward
    ensures forall top: bool, rightSide: bool ::
              m.vertices[RectCorner(top, rightSide)] == Vec3(Half(rightSide) * size.x, Half(top) * size.y, 0.0)
    ensures forall i :: 0 <= i < 4 ==>
              m.vertices[i] == Vec3((m.uv[i].x - 0.5) * size.x, (m.uv[i].y - 0.5) * size.y, 0.0)
  {
    var half := Vec2(size.x / 2.0, size.y / 2.0);
    Mesh([Vec3(-half.x, -half.y, 0.0),
          Vec3(half.x, -half.y, 0.0),
          Vec3(half.x, half.y, 0.0),
          Vec3(-half.x, half.y, 0.0)],
         [0, 1, 2, 0, 2, 3],
         [Forward, Forward, Forward, Forward],
         [Vec2(0.0, 0.0), Vec2(1.0, 0.0), Vec2(1.0, 1.0), Vec2(0.0, 1.0)])
  }

  /**
    Twice the signed area of triangle t of the mesh as seen from +z: the z
    component of the cross product of its two edges from its first vertex.
   */
  function TwiceSignedArea(m: Mesh, t: nat): real
    requires TrianglesValid(m) && 3 * t + 2 < |m.triangles|
  {
    var a := m.vertices[m.triangles[3 * t]];
    var b := m.vertices[m.triangles[3 * t + 1]];
    var c := m.vertices[m.triangles[3 * t + 2]];
    (b.x - a.x) * (c.y - a.y) - (b.y - a.y) * (c.x - a.x)
  }

  /**
    The rectangle mesh is two triangles that share the diagonal from vertex 0
    to vertex 2, wind the same way, and each cover half of the rectangle.
   */
  lemma RectMeshTriangles(size: Vec2)
    ensures var m := CreateRectMesh(size);
            && m.triangles[0] == m.triangles[3] == 0
            && m.triangles[2] == m.triangles[4] == 2
            && TwiceSignedArea(m, 0) == size.x * size.y
            && TwiceSignedArea(m, 1) == size.x * size.y
  {
    var m := CreateRectMesh(size);
    var w := size.x / 2.0;
    var h := size.y / 2.0;
    assert TwiceSignedArea(m, 0) == (w + w) * (h + h);
    assert TwiceSignedArea(m, 1) == (w + w) * (h + h);
  }

  /** `Copy<T>`: a new array of the same length holding the same elements. */
  method CopyArray<T>(original: seq<T>) returns (copy: seq<T>)
    ensures |copy| == |original|
    ensures forall i :: 0 <= i < |original| ==> copy[i] == original[i]
  {
    copy := [];
    var i := 0;
    while i < |original|
      invariant 0 <= i <= |original|
      invariant |copy| == i
      invariant forall k :: 0 <= k < i ==> copy[k] == original[k]
    {
      copy := copy + [original[i]];
      i := i + 1;
    }
  }

  /** A mesh whose four arrays are copies of the original's. */
  method Copy(mesh: Mesh) returns (copy: Mesh)
    ensures copy == mesh
  {
    var vertices := CopyArray(mesh.vertices);
    var triangles := CopyArray(mesh.triangles);
    var normals := CopyArray(mesh.normals);
    var uv := CopyArray(mesh.uv);
    copy := Mesh(vertices, triangles, normals, uv);
  }

  /**
    Replaces the texture coordinates of a rectangle mesh: each corner's uv is
    stored at that corner's place in the vertex order, and the geometry is
    untouched.
   */
  function SetRectUV(mesh: Mesh, topRightUV: Vec2, topLeftUV: Vec2, bottomRightUV: Vec2, bottomLeftUV: Vec2): (m: Mesh)
    ensures m.vertices == mesh.vertices && m.triangles == mesh.triangles && m.normals == mesh.normals
    ensures |m.uv| == 4
    ensures m.uv[RectCorner(true, true)] == topRightUV
    ensures m.uv[RectCorner(true, false)] == topLeftUV
    ensures m.uv[RectCorner(false, true)] == bottomRightUV
    ensures m.uv[RectCorner(false, false)] == bottomLeftUV
  {
    mesh.(uv := [bottomLeftUV, bottomRightUV, topRightUV, topLeftUV])
  }

  /**
    On the rectangle mesh, setting each corner to its own corner of the unit
    square gives back the mesh as built.
   */
  lemma SetRectUVOfUnitSquare(size: Vec2)
    ensures SetRectUV(CreateRectMesh(size), Vec2(1.0, 1.0), Vec2(0.0, 1.0), Vec2(1.0, 0.0), Vec2(0.0, 0.0))
            == CreateRectMesh(size)
  {
    var m := CreateRectMesh(size);
    var r := SetRectUV(m, Vec2(1.0, 1.0), Vec2(0.0, 1.0), Vec2(1.0, 0.0), Vec2(0.0, 0.0));
    assert r.uv == m.uv;
  }

  /**
    On the rectangle mesh, the uv given for a corner is paired with the
    vertex at that corner.
   */
  lemma SetRectUVPairsCorners(size: Vec2, topRightUV: Vec2, topLeftUV: Vec2, bottomRightUV: Vec2, bottomLeftUV: Vec2,
                              top: bool, rightSide: bool)
    ensures var m := SetRectUV(CreateRectMesh(size), topRightUV, topLeftUV, bottomRightUV, bottomLeftUV);
            var i := RectCorner(top, rightSide);
            && m.vertices[i] == Vec3(Half(rightSide) * size.x, Half(top) * size.y, 0.0)
            && m.uv[i] == (if top then (if rightSide then topRightUV else topLeftUV)
                           else (if rightSide then bottomRightUV else bottomLeftUV))
  {
  }
}
