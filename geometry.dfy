/**
 * The value types the tracker exchanges with ViSP and OpenCV: 3-D points with their last
 * projection, integer image points and rectangles, poses, camera parameters and grey images,
 * together with the C++ conversions the core relies on (truncation of a double to an int)
 * and OpenCV's bounding rectangle of an integer point set.
 */
module Geometry {

  /**
   * A `vpPoint`: world coordinates (oX, oY, oZ) and the normalised image coordinates (x, y)
   * of its most recent projection (`vpPoint::project`, `set_x`, `set_y`).
   */
  datatype Point = Point(oX: real, oY: real, oZ: real, x: real, y: real)

  /** A default-constructed `vpPoint` after `setWorldCoordinates(oX, oY, oZ)`. */
  function WorldPoint(oX: real, oY: real, oZ: real): (p: Point)
    ensures p.oX == oX && p.oY == oY && p.oZ == oZ
    ensures p.x == 0.0 && p.y == 0.0
  {
    Point(oX, oY, oZ, 0.0, 0.0)
  }

  /** A `cv::Point`: `x` is the column, `y` the row. */
  datatype PixelPoint = PixelPoint(x: int, y: int)

  /** A `vpImagePoint`: `i` is the row, `j` the column. */
  datatype ImagePoint = ImagePoint(i: real, j: real)

  /** A `cv::Rect` (and, with the same four numbers, a `vpRect`). */
  datatype Rect = Rect(x: int, y: int, width: int, height: int)

  /** A `vpHomogeneousMatrix`, written as its pose vector (translation, then rotation). */
  datatype Pose = Pose(tx: real, ty: real, tz: real, rx: real, ry: real, rz: real)

  /** The pose of a default-constructed `vpHomogeneousMatrix`: the identity. */
  const IdentityPose := Pose(0.0, 0.0, 0.0, 0.0, 0.0, 0.0)

  /**
   * `vpCameraParameters`: the parameters of a default-constructed object belong to ViSP and
   * are kept symbolic as `DefaultCamera`.
   */
  datatype Camera = DefaultCamera | Camera(px: real, py: real, u0: real, v0: real)

  /**
   * An image of `rows` x `cols` pixels; `luma[r][c]` is the grey level of row r, column c,
   * that is, what `vpImageConvert::convert` writes into `Igray_`.
   */
  datatype Image = Image(rows: nat, cols: nat, luma: seq<seq<int>>)

  /** The pixel buffer has exactly the announced size. */
  ghost predicate WellFormed(img: Image)
  {
    |img.luma| == img.rows && forall r :: 0 <= r < |img.luma| ==> |img.luma[r]| == img.cols
  }

  /** A `vpImage` of the given size whose contents are not set (`resize`); modelled as zeros. */
  function Blank(rows: nat, cols: nat): (img: Image)
    ensures WellFormed(img) && img.rows == rows && img.cols == cols
  {
    Image(rows, cols, seq(rows, _ => seq(cols, _ => 0)))
  }

  function Max(a: int, b: int): int { if a >= b then a else b }

  function Min(a: int, b: int): int { if a <= b then a else b }

  function Abs(x: real): real { if x >= 0.0 then x else -x }

  /** The C++ conversion `(int)x`: truncation toward zero. */
  function Trunc(x: real): (r: int)
    ensures x >= 0.0 ==> r >= 0 && r as real <= x < r as real + 1.0
    ensures x < 0.0 ==> r <= 0 && r as real - 1.0 < x <= r as real
  {
    if x >= 0.0 then x.Floor else -((-x).Floor)
  }

  /** The pixel (px, py) lies inside the rectangle (right and bottom edges excluded). */
  predicate Contains(r: Rect, px: int, py: int)
  {
    r.x <= px < r.x + r.width && r.y <= py < r.y + r.height
  }

  /** The smallest rectangle that holds the non-empty rectangle `r` and the pixel `p`. */
  function Cover(r: Rect, p: PixelPoint): Rect
  {
    var left, top := Min(r.x, p.x), Min(r.y, p.y);
    var right, bottom := Max(r.x + r.width, p.x + 1), Max(r.y + r.height, p.y + 1);
    Rect(left, top, right - left, bottom - top)
  }

  /**
   * `cv::boundingRect` of an integer point set: the smallest rectangle that contains every
   * point (width = xmax - xmin + 1, height = ymax - ymin + 1); the empty set gives the empty
   * rectangle at the origin.
   */
  function BoundingRect(ps: seq<PixelPoint>): (r: Rect)
    ensures ps == [] ==> r == Rect(0, 0, 0, 0)
    ensures ps != [] ==> r.width >= 1 && r.height >= 1
    ensures forall k :: 0 <= k < |ps| ==> Contains(r, ps[k].x, ps[k].y)
    decreases |ps|
  {
    if |ps| == 0 then Rect(0, 0, 0, 0)
    else if |ps| == 1 then Rect(ps[0].x, ps[0].y, 1, 1)
    else
      var r := BoundingRect(ps[..|ps| - 1]);
      assert forall k :: 0 <= k < |ps| - 1 ==> ps[..|ps| - 1][k] == ps[k];
      Cover(r, ps[|ps| - 1])
  }

  /** Each edge of the bounding rectangle of a non-empty set is touched by one of its points. */
  lemma {:induction false} BoundingRectIsTight(ps: seq<PixelPoint>)
    requires ps != []
    ensures exists k :: 0 <= k < |ps| && ps[k].x == BoundingRect(ps).x
    ensures exists k :: 0 <= k < |ps| && ps[k].y == BoundingRect(ps).y
    ensures exists k :: 0 <= k < |ps| && ps[k].x == BoundingRect(ps).x + BoundingRect(ps).width - 1
    ensures exists k :: 0 <= k < |ps| && ps[k].y == BoundingRect(ps).y + BoundingRect(ps).height - 1
    decreases |ps|
  {
    if |ps| == 1 {
      assert ps[0].x == BoundingRect(ps).x;
    } else {
      var init, last := ps[..|ps| - 1], |ps| - 1;
      BoundingRectIsTight(init);
      var r := BoundingRect(init);
      assert BoundingRect(ps) == Cover(r, ps[last]);
      assert forall k :: 0 <= k < last ==> init[k] == ps[k];
      var k0 :| 0 <= k0 < last && init[k0].x == r.x;
      var k1 :| 0 <= k1 < last && init[k1].y == r.y;
      var k2 :| 0 <= k2 < last && init[k2].x == r.x + r.width - 1;
      var k3 :| 0 <= k3 < last && init[k3].y == r.y + r.height - 1;
      var left := if r.x <= ps[last].x then k0 else last;
      var top := if r.y <= ps[last].y then k1 else last;
      var right := if r.x + r.width >= ps[last].x + 1 then k2 else last;
      var bottom := if r.y + r.height >= ps[last].y + 1 then k3 else last;
      assert ps[left].x == BoundingRect(ps).x;
      assert ps[top].y == BoundingRect(ps).y;
      assert ps[right].x == BoundingRect(ps).x + BoundingRect(ps).width - 1;
      assert ps[bottom].y == BoundingRect(ps).y + BoundingRect(ps).height - 1;
    }
  }

  /** Any rectangle holding every point of a non-empty set holds its bounding rectangle. */
  lemma BoundingRectIsSmallest(ps: seq<PixelPoint>, r: Rect)
    requires ps != []
    requires forall k :: 0 <= k < |ps| ==> Contains(r, ps[k].x, ps[k].y)
    ensures var b := BoundingRect(ps);
      r.x <= b.x && r.y <= b.y && b.x + b.width <= r.x + r.width && b.y + b.height <= r.y + r.height
  {
    BoundingRectIsTight(ps);
  }
}
