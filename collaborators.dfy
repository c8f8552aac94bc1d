/**
 * The code the tracker calls but that is not part of it, reduced to what the tracker can
 * observe: the state of a `vpHinkley` detector, and the functions of ViSP, OpenCV, Boost and
 * the marker detector as parameters whose results are not constrained.
 */
module Collaborators {
  import opened Geometry

  /**
   * A `vpHinkley` change-point detector: whether `init(alpha, delta)` was called, its two
   * parameters, and every value fed to it so far. Its internal sums are a function of these.
   */
  datatype Hinkley = Hinkley(seeded: bool, alpha: real, delta: real, samples: seq<real>)

  /** A detector as `boost::array` default-constructs it. */
  const Unseeded := Hinkley(false, 0.0, 0.0, [])

  /** `vpHinkley::init(alpha, delta)`. */
  function Seed(alpha: real, delta: real): (h: Hinkley)
    ensures h.seeded && h.alpha == alpha && h.delta == delta && h.samples == []
  {
    Hinkley(true, alpha, delta, [])
  }

  /** The state change of `testDownUpwardJump(v)`: the value is taken in, jump or not. */
  function Feed(h: Hinkley, v: real): (h': Hinkley)
    ensures h'.seeded == h.seeded && h'.alpha == h.alpha && h'.delta == h.delta
    ensures h'.samples == h.samples + [v]
  {
    h.(samples := h.samples + [v])
  }

  /** A call `detector_->detect(image, timeout, x, y)`: the image region searched, relative to the frame. */
  datatype DetectRequest = DetectRequest(region: Rect, timeout: int, originX: int, originY: int)

  /**
   * The collaborators' answers:
   * - `project`: `vpPoint::project(cMo)` followed by `get_x()`, `get_y()`;
   * - `toPixel`: `vpMeterPixelConversion::convertPoint`, normalised (x, y) to pixel (u, v);
   * - `toMeter`: `vpPixelMeterConversion::convertPoint`, pixel to normalised coordinates;
   * - `lagrange`, `virtualVs`: `vpPose::computePose` with LAGRANGE, then VIRTUAL_VS from that start;
   * - `jump`: whether `testDownUpwardJump(v)` on a detector in this state reports a jump;
   * - `median`: the P-square median of the sampled grey levels, as the `unsigned int` it is cast to;
   * - `detect`: the marker detector's answer to one request.
   */
  datatype Vision = Vision(
    project: (Point, Pose) -> (real, real),
    toPixel: (Camera, real, real) -> (real, real),
    toMeter: (Camera, ImagePoint) -> (real, real),
    lagrange: seq<Point> -> Pose,
    virtualVs: (seq<Point>, Pose) -> Pose,
    jump: (Hinkley, real) -> bool,
    median: seq<int> -> nat,
    detect: DetectRequest -> bool)

  /** `p.project(cMo)`: the world coordinates stay, the projection is replaced. */
  function Project(vision: Vision, p: Point, pose: Pose): (q: Point)
    ensures q.oX == p.oX && q.oY == p.oY && q.oZ == p.oZ
    ensures (q.x, q.y) == vision.project(p, pose)
  {
    var (x, y) := vision.project(p, pose);
    p.(x := x, y := y)
  }
}
