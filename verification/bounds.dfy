/**
  Unity's `Rect` and the `Mathf.Min` / `Mathf.Max` overloads that take a
  variable number of values, as used to bound a set of projected points.
 */
module Bounds {
  import opened LinAlg

  /** `Rect(x, y, width, height)`; xMin = x and xMax = x + width. */
  datatype Rect = Rect(x: real, y: real, width: real, height: real) {
    function XMin(): real { x }
    function YMin(): real { y }
    function XMax(): real { x + width }
    function YMax(): real { y + height }

    predicate Contains(p: Vec2)
    {
      XMin() <= p.x <= XMax() && YMin() <= p.y <= YMax()
    }
  }

  /**
    `Mathf.Min(params float[])`: zero for no values, otherwise a left-to-right
    scan that keeps the first value strictly below the running minimum.
   */
  function MinOf(s: seq<real>): (m: real)
    ensures |s| == 0 ==> m == 0.0
    ensures |s| > 0 ==> exists i :: 0 <= i < |s| && s[i] == m
    ensures forall i :: 0 <= i < |s| ==> m <= s[i]
    decreases |s|
  {
    if |s| == 0 then 0.0
    else if |s| == 1 then s[0]
    else
      var rest := MinOf(s[..|s| - 1]);
      assert forall i :: 0 <= i < |s| - 1 ==> s[..|s| - 1][i] == s[i];
      if s[|s| - 1] < rest then s[|s| - 1] else rest
  }

  /** `Mathf.Max(params float[])`, the mirror image of `MinOf`. */
  function MaxOf(s: seq<real>): (m: real)
    ensures |s| == 0 ==> m == 0.0
    ensures |s| > 0 ==> exists i :: 0 <= i < |s| && s[i] == m
    ensures forall i :: 0 <= i < |s| ==> s[i] <= m
    decreases |s|
  {
    if |s| == 0 then 0.0
    else if |s| == 1 then s[0]
    else
      var rest := MaxOf(s[..|s| - 1]);
      assert forall i :: 0 <= i < |s| - 1 ==> s[..|s| - 1][i] == s[i];
      if s[|s| - 1] > rest then s[|s| - 1] else rest
  }

  /** The x coordinates of a list of points. */
  function Xs(ps: seq<Vec2>): (r: seq<real>)
    ensures |r| == |ps|
    ensures forall i :: 0 <= i < |ps| ==> r[i] == ps[i].x
  {
    seq(|ps|, i requires 0 <= i < |ps| => ps[i].x)
  }

  /** The y coordinates of a list of points. */
  function Ys(ps: seq<Vec2>): (r: seq<real>)
    ensures |r| == |ps|
    ensures forall i :: 0 <= i < |ps| ==> r[i] == ps[i].y
  {
    seq(|ps|, i requires 0 <= i < |ps| => ps[i].y)
  }

  /**
    The rectangle from the minimum to the maximum coordinates of the points:
    it has no negative side, holds every point, and each of its four edges
    passes through one of the points.
   */
  function BoundingRect(ps: seq<Vec2>): (r: Rect)
    requires |ps| > 0
    ensures r.width >= 0.0 && r.height >= 0.0
    ensures forall i :: 0 <= i < |ps| ==> r.Contains(ps[i])
    ensures exists i :: 0 <= i < |ps| && ps[i].x == r.XMin()
    ensures exists i :: 0 <= i < |ps| && ps[i].x == r.XMax()
    ensures exists i :: 0 <= i < |ps| && ps[i].y == r.YMin()
    ensures exists i :: 0 <= i < |ps| && ps[i].y == r.YMax()
  {
    var xs := Xs(ps);
    var ys := Ys(ps);
    var minX := MinOf(xs);
    var minY := MinOf(ys);
    var maxX := MaxOf(xs);
    var maxY := MaxOf(ys);
    assert minX <= xs[0] <= maxX;
    assert minY <= ys[0] <= maxY;
    Rect(minX, minY, maxX - minX, maxY - minY)
  }
}
