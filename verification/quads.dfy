/**
  The four corners of a rectangle of a given size centred on a pose, as both
  the window of the off-axis camera and the portal compute them: centre plus
  or minus half the size along the pose's right and up axes.
 */
module Quads {
  import opened LinAlg

  datatype Quad = Quad(topRight: Vec3, topLeft: Vec3, bottomRight: Vec3, bottomLeft: Vec3) {
    /** The corners in the order the callers project and bound them. */
    function Corners(): seq<Vec3>
    {
      [topRight, topLeft, bottomRight, bottomLeft]
    }
  }

  /**
    Corners of the `size.x` by `size.y` rectangle centred on `center` and
    spanned by the axes `right` and `up`: opposite corners are symmetric
    about the centre, and each edge is the full size along its axis.
   */
  function RectCorners(center: Vec3, right: Vec3, up: Vec3, size: Vec2): (q: Quad)
    ensures q.topRight.Add(q.bottomLeft) == center.Scale(2.0)
    ensures q.topLeft.Add(q.bottomRight) == center.Scale(2.0)
    ensures q.topRight.Sub(q.topLeft) == right.Scale(size.x)
    ensures q.bottomRight.Sub(q.bottomLeft) == right.Scale(size.x)
    ensures q.topRight.Sub(q.bottomRight) == up.Scale(size.y)
    ensures q.topLeft.Sub(q.bottomLeft) == up.Scale(size.y)
  {
    var r := right.Scale(size.x / 2.0);
    var u := up.Scale(size.y / 2.0);
    Quad(center.Add(r).Add(u),
         center.Sub(r).Add(u),
         center.Add(r).Sub(u),
         center.Sub(r).Sub(u))
  }
}
