/**
 * `Tracker_`: the guards and actions of the lifecycle and the fields they update, plus the
 * back-end's current state and its dispatch of one `input_ready` event through the
 * transition table.
 */
module Tracking {
  import opened Wrappers
  import opened Geometry
  import opened Collaborators
  import opened CommandLine
  import opened HealthCheck
  import StateMachine

  /**
   * An `input_ready` event: frame number, image, camera parameters and the pose the
   * model-based tracker computed for it, with the six covariance diagonal entries of that pose.
   */
  datatype Frame = Frame(frame: int, image: Image, cam: Camera, cMo: Pose, variances: seq<real>)

  /** The checkpoint points: each (outer + inner) * ratio, axis by axis. */
  predicate IsMiddle(outer: seq<Point>, inner: seq<Point>, ratio: real, middle: seq<Point>)
  {
    |middle| == |outer| && |outer| <= |inner| &&
    forall i :: 0 <= i < |outer| ==>
      middle[i] == WorldPoint((outer[i].oX + inner[i].oX) * ratio, (outer[i].oY + inner[i].oY) * ratio,
                              (outer[i].oZ + inner[i].oZ) * ratio)
  }

  /** The constructor's loop over the outer points that builds `points3D_middle_`. */
  method MiddlePoints(outer: seq<Point>, inner: seq<Point>, ratio: real) returns (middle: seq<Point>)
    requires |inner| >= |outer|
    ensures IsMiddle(outer, inner, ratio, middle)
  {
    middle := [];
    for i := 0 to |outer|
      invariant |middle| == i
      invariant forall k :: 0 <= k < i ==>
        middle[k] == WorldPoint((outer[k].oX + inner[k].oX) * ratio, (outer[k].oY + inner[k].oY) * ratio,
                                (outer[k].oZ + inner[k].oZ) * ratio)
    {
      var p := WorldPoint((outer[i].oX + inner[i].oX) * ratio, (outer[i].oY + inner[i].oY) * ratio,
                          (outer[i].oZ + inner[i].oZ) * ratio);
      middle := middle + [p];
    }
  }

  /** With the default ratio 0.5 every checkpoint is the midpoint of its outer and inner points. */
  lemma DefaultRatioGivesMidpoints(outer: seq<Point>, inner: seq<Point>, middle: seq<Point>)
    requires IsMiddle(outer, inner, Defaults.adhocRecoveryRatio, middle)
    ensures forall i :: 0 <= i < |middle| ==>
      2.0 * middle[i].oX == outer[i].oX + inner[i].oX &&
      2.0 * middle[i].oY == outer[i].oY + inner[i].oY &&
      2.0 * middle[i].oZ == outer[i].oZ + inner[i].oZ
  {
  }

  /** The first `n` points projected under `pose`, the others as they were. */
  function ProjectFirst(vision: Vision, ps: seq<Point>, n: int, pose: Pose): (qs: seq<Point>)
    ensures |qs| == |ps|
    ensures forall i :: 0 <= i < |ps| && i < n ==> qs[i] == Project(vision, ps[i], pose)
    ensures forall i :: 0 <= i < |ps| && n <= i ==> qs[i] == ps[i]
  {
    seq(|ps|, i requires 0 <= i < |ps| => if i < n then Project(vision, ps[i], pose) else ps[i])
  }

  /** The grey levels of the given cells. */
  function Grey(img: Image, cs: seq<Cell>): (g: seq<int>)
    requires WellFormed(img)
    requires forall k :: 0 <= k < |cs| ==> 0 <= cs[k].row < img.rows && 0 <= cs[k].col < img.cols
    ensures |g| == |cs|
  {
    seq(|cs|, k requires 0 <= k < |cs| => img.luma[cs[k].row][cs[k].col])
  }

  lemma SampledIsGrey(img: Image, samples: seq<int>, cs: seq<Cell>)
    requires WellFormed(img) && Sampled(img, samples, cs)
    ensures forall k :: 0 <= k < |cs| ==> 0 <= cs[k].row < img.rows && 0 <= cs[k].col < img.cols
    ensures samples == Grey(img, cs)
  {
  }

  /** The median grey level of the window of one checkpoint, as the loop of `mbt_success` computes it. */
  function CheckpointMedian(vision: Vision, o: Options, mid: Point, innerPoint: Point, pose: Pose,
                            cam: Camera, img: Image): nat
    requires WellFormed(img)
  {
    var m := Project(vision, mid, pose);
    var (mu, mv) := vision.toPixel(cam, m.x, m.y);
    var (iu, iv) := vision.toPixel(cam, innerPoint.x, innerPoint.y);
    vision.median(Grey(img, WindowCells(CheckpointWindow(mu, mv, iu, iv, o.adhocRecoverySize), img.cols, img.rows)))
  }

  /** A checkpoint fails only under ad-hoc recovery, with its median above the threshold. */
  predicate CheckpointFails(vision: Vision, o: Options, mid: Point, innerPoint: Point, pose: Pose,
                            cam: Camera, img: Image)
    requires WellFormed(img)
  {
    UsingAdhocRecovery(o) && CheckpointMedian(vision, o, mid, innerPoint, pose, cam, img) > o.adhocRecoveryThreshold
  }

  /** Which checkpoints fail, in order. */
  function CheckpointFailures(vision: Vision, o: Options, mids: seq<Point>, inners: seq<Point>,
                              pose: Pose, cam: Camera, img: Image): (fs: seq<bool>)
    requires WellFormed(img) && |mids| <= |inners|
    ensures |fs| == |mids|
    ensures forall p :: 0 <= p < |mids| ==> fs[p] == CheckpointFails(vision, o, mids[p], inners[p], pose, cam, img)
  {
    seq(|mids|, p requires 0 <= p < |mids| => CheckpointFails(vision, o, mids[p], inners[p], pose, cam, img))
  }

  /** The first index from `from` on whose entry is true; `|fs|` when there is none. */
  function FirstFailure(fs: seq<bool>, from: nat): nat
    requires from <= |fs|
    decreases |fs| - from
  {
    if from == |fs| then from
    else if fs[from] then from
    else FirstFailure(fs, from + 1)
  }

  lemma {:induction false} FirstFailureSpec(fs: seq<bool>, from: nat)
    requires from <= |fs|
    ensures var k := FirstFailure(fs, from);
      from <= k <= |fs| && (forall p :: from <= p < k ==> !fs[p]) && (k < |fs| ==> fs[k])
    decreases |fs| - from
  {
    if from < |fs| && !fs[from] {
      FirstFailureSpec(fs, from + 1);
    }
  }

  lemma {:induction false} FirstFailureIs(fs: seq<bool>, from: nat, k: nat)
    requires from <= k <= |fs|
    requires forall p :: from <= p < k ==> !fs[p]
    requires k < |fs| ==> fs[k]
    ensures FirstFailure(fs, from) == k
    decreases k - from
  {
    if from < k {
      FirstFailureIs(fs, from + 1, k);
    }
  }

  /** The index of the first failing checkpoint from `from` on; `|mids|` when none fails. */
  function FirstFailingCheckpoint(vision: Vision, o: Options, mids: seq<Point>, inners: seq<Point>,
                                  pose: Pose, cam: Camera, img: Image, from: nat): nat
    requires WellFormed(img) && |mids| <= |inners| && from <= |mids|
  {
    FirstFailure(CheckpointFailures(vision, o, mids, inners, pose, cam, img), from)
  }

  /** It is a first failure: none before it, and it fails unless it is the end. */
  lemma FirstFailingCheckpointSpec(vision: Vision, o: Options, mids: seq<Point>, inners: seq<Point>,
                                   pose: Pose, cam: Camera, img: Image, from: nat)
    requires WellFormed(img) && |mids| <= |inners| && from <= |mids|
    ensures var k := FirstFailingCheckpoint(vision, o, mids, inners, pose, cam, img, from);
      from <= k <= |mids| &&
      (forall p :: from <= p < k ==> !CheckpointFails(vision, o, mids[p], inners[p], pose, cam, img)) &&
      (k < |mids| ==> CheckpointFails(vision, o, mids[k], inners[k], pose, cam, img))
  {
    FirstFailureSpec(CheckpointFailures(vision, o, mids, inners, pose, cam, img), from);
  }

  /** The index found is the only one with no failure before it and a failure (or the end) at it. */
  lemma FirstFailingCheckpointIs(vision: Vision, o: Options, mids: seq<Point>, inners: seq<Point>,
                                 pose: Pose, cam: Camera, img: Image, from: nat, k: nat)
    requires WellFormed(img) && |mids| <= |inners| && from <= k <= |mids|
    requires forall p :: from <= p < k ==> !CheckpointFails(vision, o, mids[p], inners[p], pose, cam, img)
    requires k < |mids| ==> CheckpointFails(vision, o, mids[k], inners[k], pose, cam, img)
    ensures FirstFailingCheckpoint(vision, o, mids, inners, pose, cam, img, from) == k
  {
    FirstFailureIs(CheckpointFailures(vision, o, mids, inners, pose, cam, img), from, k);
  }

  /** Logging checkpoints without ad-hoc recovery never fails a checkpoint. */
  lemma LoggingNeverFails(vision: Vision, o: Options, mids: seq<Point>, inners: seq<Point>,
                          pose: Pose, cam: Camera, img: Image, from: nat)
    requires WellFormed(img) && |mids| <= |inners| && from <= |mids| && !UsingAdhocRecovery(o)
    ensures FirstFailingCheckpoint(vision, o, mids, inners, pose, cam, img, from) == |mids|
  {
    FirstFailureIs(CheckpointFailures(vision, o, mids, inners, pose, cam, img), from, |mids|);
  }

  /** The detector bank stops at the first jump; 6 when no detector jumps or the bank is off. */
  function HinkleyStop(vision: Vision, o: Options, bank: seq<Hinkley>, diag: seq<real>): (k: nat)
    requires |bank| == 6 && |diag| == 6
    ensures k <= 6
    ensures !UsingHinkley(o) ==> k == 6
    ensures UsingHinkley(o) ==> forall i :: 0 <= i < k ==> !vision.jump(bank[i], diag[i])
    ensures k < 6 ==> UsingHinkley(o) && vision.jump(bank[k], diag[k])
  {
    if UsingHinkley(o) then FirstJump(bank, diag, vision.jump, 0) else 6
  }

  lemma {:induction false} FirstJumpIs(bank: seq<Hinkley>, diag: seq<real>, jump: (Hinkley, real) -> bool, from: nat, k: nat)
    requires |bank| == 6 && |diag| == 6 && from <= k <= 6
    requires forall i :: from <= i < k ==> !jump(bank[i], diag[i])
    requires k < 6 ==> jump(bank[k], diag[k])
    ensures FirstJump(bank, diag, jump, from) == k
    decreases k - from
  {
    if from < k {
      FirstJumpIs(bank, diag, jump, from + 1, k);
    }
  }

  /** Some degree of freedom is above the configured variance limit, and the limit is on. */
  predicate VarianceFails(o: Options, diag: seq<real>)
    requires |diag| == 6
  {
    UsingVarLimit(o) && exists i :: 0 <= i < 6 && diag[i] > o.varLimit
  }

  /** What `mbt_success` answers, and the detector bank and checkpoints it leaves behind. */
  datatype Verdict = Verdict(ok: bool, bank: seq<Hinkley>, middle: seq<Point>)

  /**
   * The three health checks in order, each only when configured: the variance limit, the
   * Hinkley bank (fed up to its first jump), the checkpoints (projected up to the first
   * failing one).
   */
  function MbtVerdict(vision: Vision, o: Options, bank: seq<Hinkley>, diag: seq<real>, mids: seq<Point>,
                      inners: seq<Point>, pose: Pose, cam: Camera, img: Image): Verdict
    requires |bank| == 6 && |diag| == 6 && |mids| <= |inners| && WellFormed(img)
  {
    if VarianceFails(o, diag) then Verdict(false, bank, mids)
    else BankVerdict(vision, o, bank, diag, mids, inners, pose, cam, img)
  }

  /** The Hinkley bank and then the checkpoints. */
  function BankVerdict(vision: Vision, o: Options, bank: seq<Hinkley>, diag: seq<real>, mids: seq<Point>,
                       inners: seq<Point>, pose: Pose, cam: Camera, img: Image): Verdict
    requires |bank| == 6 && |diag| == 6 && |mids| <= |inners| && WellFormed(img)
  {
    var stop := HinkleyStop(vision, o, bank, diag);
    if stop < 6 then Verdict(false, FeedFirst(bank, diag, stop + 1), mids)
    else
      var fed := if UsingHinkley(o) then FeedFirst(bank, diag, 6) else bank;
      if !(UsingAdhocRecovery(o) || LogCheckpoints(o)) then Verdict(true, fed, mids)
      else
        var cp := FirstFailingCheckpoint(vision, o, mids, inners, pose, cam, img, 0);
        Verdict(cp == |mids|, fed, ProjectFirst(vision, mids, if cp < |mids| then cp + 1 else cp, pose))
  }

  /**
   * `mbt_success` answers true exactly when every configured check passes: no variance above
   * its limit, no Hinkley jump on any degree of freedom, no checkpoint whose median exceeds
   * the threshold.
   */
  lemma MbtSuccessIffHealthy(vision: Vision, o: Options, bank: seq<Hinkley>, diag: seq<real>, mids: seq<Point>,
                             inners: seq<Point>, pose: Pose, cam: Camera, img: Image)
    requires |bank| == 6 && |diag| == 6 && |mids| <= |inners| && WellFormed(img)
    ensures MbtVerdict(vision, o, bank, diag, mids, inners, pose, cam, img).ok <==>
      !VarianceFails(o, diag) &&
      (UsingHinkley(o) ==> forall i :: 0 <= i < 6 ==> !vision.jump(bank[i], diag[i])) &&
      (forall p :: 0 <= p < |mids| ==> !CheckpointFails(vision, o, mids[p], inners[p], pose, cam, img))
  {
    FirstFailingCheckpointSpec(vision, o, mids, inners, pose, cam, img, 0);
  }

  /**
   * What the checks leave to the detector bank: a variance failure or a disabled bank leaves
   * it untouched, and a detector is fed only when no detector before it jumped.
   */
  lemma MbtVerdictFeedsUpToJump(vision: Vision, o: Options, bank: seq<Hinkley>, diag: seq<real>, mids: seq<Point>,
                                inners: seq<Point>, pose: Pose, cam: Camera, img: Image)
    requires |bank| == 6 && |diag| == 6 && |mids| <= |inners| && WellFormed(img)
    ensures var v := MbtVerdict(vision, o, bank, diag, mids, inners, pose, cam, img);
      |v.bank| == 6 &&
      (VarianceFails(o, diag) || !UsingHinkley(o) ==> v.bank == bank) &&
      forall i :: 0 <= i < 6 ==>
        (v.bank[i] == bank[i] ||
         (v.bank[i] == Feed(bank[i], diag[i]) && forall j :: 0 <= j < i ==> !vision.jump(bank[j], diag[j])))
  {
  }

  /**
   * What the checks leave to the checkpoints: nothing changes unless the checks reach them,
   * and a checkpoint is projected anew only when none before it failed.
   */
  lemma MbtVerdictProjectsUpToFailure(vision: Vision, o: Options, bank: seq<Hinkley>, diag: seq<real>, mids: seq<Point>,
                                      inners: seq<Point>, pose: Pose, cam: Camera, img: Image)
    requires |bank| == 6 && |diag| == 6 && |mids| <= |inners| && WellFormed(img)
    ensures var v := MbtVerdict(vision, o, bank, diag, mids, inners, pose, cam, img);
      |v.middle| == |mids| &&
      (VarianceFails(o, diag) || HinkleyStop(vision, o, bank, diag) < 6 ==> v.middle == mids) &&
      forall p :: 0 <= p < |mids| ==>
        (v.middle[p] == mids[p] ||
         (v.middle[p] == Project(vision, mids[p], pose) &&
          forall q :: 0 <= q < p ==> !CheckpointFails(vision, o, mids[q], inners[q], pose, cam, img)))
  {
    FirstFailingCheckpointSpec(vision, o, mids, inners, pose, cam, img, 0);
  }

  /** With every option at its default no check is enabled: `mbt_success` succeeds and changes nothing. */
  lemma DefaultsAlwaysTrack(vision: Vision, o: Options, bank: seq<Hinkley>, diag: seq<real>, mids: seq<Point>,
                            inners: seq<Point>, pose: Pose, cam: Camera, img: Image)
    requires |bank| == 6 && |diag| == 6 && |mids| <= |inners| && WellFormed(img)
    requires o.present == Defaults.present
    ensures MbtVerdict(vision, o, bank, diag, mids, inners, pose, cam, img) == Verdict(true, bank, mids)
  {
    DefaultsDisableChecks();
  }

  /**
   * The region of interest as `track_model` stores it: the rectangle cut down to
   * [0, width) x [0, height); the width or height is negative when the rectangle lies wholly
   * outside the image.
   */
  function ClipToImage(r: Rect, width: int, height: int): (c: Rect)
    ensures c.x >= 0 && c.y >= 0 && c.x + c.width <= width && c.y + c.height <= height
    ensures 0 <= r.x && 0 <= r.y && r.x + r.width <= width && r.y + r.height <= height ==> c == r
  {
    var sx, sy := Max(r.x, 0), Max(r.y, 0);
    var dx, dy := Min(r.x + r.width, width), Min(r.y + r.height, height);
    Rect(sx, sy, dx - sx, dy - sy)
  }

  /** The clipped rectangle holds exactly the pixels of the rectangle that lie in the image. */
  lemma ClipIsIntersection(r: Rect, width: int, height: int, px: int, py: int)
    ensures Contains(ClipToImage(r, width, height), px, py) <==>
              Contains(r, px, py) && 0 <= px < width && 0 <= py < height
  {
  }

  /** Clipping twice is clipping once. */
  lemma ClipIsIdempotent(r: Rect, width: int, height: int)
    requires width >= 0 && height >= 0
    ensures ClipToImage(ClipToImage(r, width, height), width, height) == ClipToImage(r, width, height)
  {
  }

  /** No clamp: a box right of a 640 x 480 image keeps its left edge and gets a negative width. */
  lemma ClipCanGoNegative()
    ensures ClipToImage(Rect(700, 10, 20, 20), 640, 480) == Rect(700, 10, -60, 20)
  {
  }

  /** OpenCV accepts `cv::Mat(image, roi)` only for a rectangle inside the image. */
  predicate RoiInside(r: Rect, width: int, height: int)
  {
    0 <= r.x && 0 <= r.width && r.x + r.width <= width && 0 <= r.y && 0 <= r.height && r.y + r.height <= height
  }

  /** `(int)` of an exact quotient: integer division rounded toward zero. */
  function QuotientTowardZero(n: int, d: int): int
    requires d > 0
  {
    if n >= 0 then n / d else -((-n) / d)
  }

  /**
   * The re-detection timeout: the configured one scaled by the area of the region of interest
   * over the area of the frame, cast to an integer.
   */
  function RedetectTimeout(timeout: int, box: Rect, width: int, height: int): (t: int)
    requires width * height > 0
    ensures timeout >= 0 && box.width >= 0 && box.height >= 0 ==> t >= 0
    ensures box.width == 0 || box.height == 0 ==> t == 0
  {
    QuotientTowardZero(timeout * (box.width * box.height), width * height)
  }

  lemma AreaBelow(w: int, h: int, width: int, height: int)
    requires 0 <= w <= width && 0 <= h <= height
    ensures 0 <= w * h <= width * height
  {
    assert w * h <= width * h;
    assert width * h <= width * height;
  }

  lemma LessByFactor(x: int, y: int, d: int)
    requires d > 0 && d * x < d * y
    ensures x < y
  {
  }

  lemma DivideMultiple(t: int, d: int)
    requires d > 0
    ensures (t * d) / d == t
  {
    var q, r := (t * d) / d, (t * d) % d;
    assert d * (t - q) == r by {
      assert t * d == d * q + r;
    }
    LessByFactor(t - q, 1, d);
    LessByFactor(-1, t - q, d);
  }

  lemma DivideMonotone(a: int, b: int, d: int)
    requires 0 <= a <= b && d > 0
    ensures 0 <= a / d <= b / d
  {
    assert d * (a / d) <= a;
    assert b < d * (b / d + 1);
    LessByFactor(a / d, b / d + 1, d);
  }

  /** The full frame gets exactly the configured timeout, whatever its sign. */
  lemma FullFrameTimeout(timeout: int, width: int, height: int)
    requires width > 0 && height > 0
    ensures RedetectTimeout(timeout, Rect(0, 0, width, height), width, height) == timeout
  {
    var frame := width * height;
    AreaBelow(1, 1, width, height);
    DivideMultiple(timeout, frame);
    DivideMultiple(-timeout, frame);
    assert -(timeout * frame) == (-timeout) * frame;
  }

  /** A box inside the frame never gets more than the configured (non-negative) timeout. */
  lemma RedetectTimeoutBounds(timeout: int, box: Rect, width: int, height: int)
    requires timeout >= 0 && width > 0 && height > 0
    requires RoiInside(box, width, height)
    ensures 0 <= RedetectTimeout(timeout, box, width, height) <= timeout
  {
    var roi, frame := box.width * box.height, width * height;
    AreaBelow(box.width, box.height, width, height);
    AreaBelow(1, 1, width, height);
    assert 0 <= timeout * roi <= timeout * frame by {
      assert timeout * roi <= timeout * frame;
    }
    DivideMonotone(timeout * roi, timeout * frame, frame);
    DivideMultiple(timeout, frame);
  }

  /** One projected point as a pixel, each coordinate truncated to an integer. */
  function PixelOf(vision: Vision, cam: Camera, p: Point): PixelPoint
  {
    var (u, v) := vision.toPixel(cam, p.x, p.y);
    PixelPoint(Trunc(u), Trunc(v))
  }

  /** The outer points as `track_model` hands them to `cv::boundingRect`. */
  function OuterPixels(vision: Vision, cam: Camera, outer: seq<Point>): (ps: seq<PixelPoint>)
    ensures |ps| == |outer|
    ensures forall i :: 0 <= i < |outer| ==> ps[i] == PixelOf(vision, cam, outer[i])
  {
    seq(|outer|, i requires 0 <= i < |outer| => PixelOf(vision, cam, outer[i]))
  }

  /** The flashcode points after `find_flashcode_pos`: 2-D part from the polygon, the rest unchanged. */
  function Located(vision: Vision, cam: Camera, f: seq<Point>, polygon: seq<PixelPoint>): (f': seq<Point>)
    requires |polygon| >= |f|
    ensures |f'| == |f|
    ensures forall i :: 0 <= i < |f| ==> f'[i].oX == f[i].oX && f'[i].oY == f[i].oY && f'[i].oZ == f[i].oZ
    ensures forall i :: 0 <= i < |f| ==>
              (f'[i].x, f'[i].y) == vision.toMeter(cam, ImagePoint(polygon[i].y as real, polygon[i].x as real))
  {
    seq(|f|, i requires 0 <= i < |f| =>
      var (x, y) := vision.toMeter(cam, ImagePoint(polygon[i].y as real, polygon[i].x as real));
      f[i].(x := x, y := y))
  }

  /**
   * The projection loop of `track_model`: every outer point and its inner partner are
   * projected under `pose`, and each projected outer point is collected as a pixel.
   */
  method ProjectOutline(vision: Vision, cam: Camera, outer: seq<Point>, inner: seq<Point>, pose: Pose)
    returns (o: seq<Point>, n: seq<Point>, points: seq<PixelPoint>)
    requires |inner| >= |outer|
    ensures o == ProjectFirst(vision, outer, |outer|, pose)
    ensures n == ProjectFirst(vision, inner, |outer|, pose)
    ensures points == OuterPixels(vision, cam, o)
  {
    o, n, points := outer, inner, [];
    for i := 0 to |outer|
      invariant |o| == |outer| && |n| == |inner| && |points| == i
      invariant o == ProjectFirst(vision, outer, i, pose) && n == ProjectFirst(vision, inner, i, pose)
      invariant forall k :: 0 <= k < i ==> points[k] == PixelOf(vision, cam, o[k])
    {
      o := o[i := Project(vision, o[i], pose)];
      n := n[i := Project(vision, n[i], pose)];
      var (u, v) := vision.toPixel(cam, o[i].x, o[i].y);
      points := points + [PixelPoint(Trunc(u), Trunc(v))];
    }
  }

  /**
   * The region of interest of `track_model`: the bounding rectangle of the pixels, its
   * corners then pulled into the image one coordinate at a time.
   */
  method ClippedBoundingBox(points: seq<PixelPoint>, width: int, height: int) returns (box: Rect)
    ensures box == ClipToImage(BoundingRect(points), width, height)
  {
    box := BoundingRect(points);
    var sx, sy := box.x, box.y;
    var dx, dy := box.x + box.width, box.y + box.height;
    sx := Max(sx, 0);
    sy := Max(sy, 0);
    dx := Min(dx, width);
    dy := Min(dy, height);
    box := box.(x := sx, y := sy, width := dx - sx, height := dy - sy);
  }

  predicate SeededBy(h: Hinkley, o: Options)
  {
    h.seeded == UsingHinkley(o) && (UsingHinkley(o) ==> h.alpha == o.hinkleyRange[0] && h.delta == o.hinkleyRange[1])
  }

  /** The checkpoints are kept (and projected) when ad-hoc recovery or checkpoint logging is on. */
  predicate KeepsCheckpoints(o: Options)
  {
    UsingAdhocRecovery(o) || LogCheckpoints(o)
  }

  /** What a `Tracker` holds between two events, as one value: every field and the detector bank. */
  datatype Fields = Fields(iter: int, image: Image, gray: Image, cMo: Pose, cam: Camera,
                           inner: seq<Point>, outer: seq<Point>, middle: seq<Point>, flashcode: seq<Point>,
                           cvBox: Rect, vpBox: Rect, state: StateMachine.State, bank: seq<Hinkley>)

  /** The tracker after part of an event, the guard answers seen so far, and whether a guard threw. */
  datatype Step = Step(after: Fields, o: StateMachine.Outcomes, thrown: bool)

  /** The request of `flashcode_detected`: the whole frame, the configured timeout, origin (0, 0). */
  function FullFrameRequest(o: Options, img: Image): DetectRequest
  {
    DetectRequest(Rect(0, 0, img.cols, img.rows), o.dmxTimeout, 0, 0)
  }

  /** The request of `flashcode_redetected`: the box, the scaled timeout, the box's corner as origin. */
  function RoiRequest(o: Options, box: Rect, img: Image): DetectRequest
    requires img.cols * img.rows > 0
  {
    DetectRequest(box, RedetectTimeout(o.dmxTimeout, box, img.cols, img.rows), box.x, box.y)
  }

  /** The effect of `find_flashcode_pos` on the tracker. */
  function AfterFindFlashcodePos(s: Fields, evt: Frame, vision: Vision, polygon: seq<PixelPoint>): Fields
    requires |polygon| >= |s.flashcode|
  {
    s.(flashcode := Located(vision, s.cam, s.flashcode, polygon), image := evt.image,
       gray := Blank(evt.image.rows, evt.image.cols))
  }

  /** `model_detected` throws exactly on an empty working or grey image. */
  predicate ModelThrows(s: Fields)
  {
    s.image.cols == 0 || s.image.rows == 0 || s.gray.cols == 0 || s.gray.rows == 0
  }

  /**
   * The effect of `model_detected` when it does not throw. The code indexes the first four
   * outer, inner and middle points unchecked; this function is total, and the `Tracker`
   * methods that use it require at least four outer and inner points.
   */
  function AfterModelDetected(s: Fields, vision: Vision, o: Options): Fields
  {
    var pose := vision.virtualVs(s.flashcode, vision.lagrange(s.flashcode));
    s.(gray := s.image, cMo := pose, outer := ProjectFirst(vision, s.outer, 4, pose),
       inner := ProjectFirst(vision, s.inner, 4, pose),
       middle := if KeepsCheckpoints(o) then ProjectFirst(vision, s.middle, 4, pose) else s.middle)
  }

  /** Entering `DetectModel` and its completion: `TrackModel` on success, or stuck there after a throw. */
  function EnterDetectModelStep(s: Fields, vision: Vision, o: Options): Step
  {
    if ModelThrows(s) then Step(s.(state := StateMachine.DetectModel), StateMachine.Failing, true)
    else Step(AfterModelDetected(s, vision, o).(state := StateMachine.TrackModel),
              StateMachine.Failing.(modelDetected := true), false)
  }

  /** `mbt_success`: records frame, grey image and pose; the verdict decides bank and checkpoints. */
  function MbtStep(s: Fields, evt: Frame, vision: Vision, o: Options): Step
    requires |s.bank| == 6 && |evt.variances| == 6 && |s.middle| <= |s.inner| && WellFormed(evt.image)
  {
    var v := MbtVerdict(vision, o, s.bank, evt.variances, s.middle, s.inner, evt.cMo, s.cam, evt.image);
    Step(s.(iter := evt.frame, gray := evt.image, cMo := evt.cMo, bank := v.bank, middle := v.middle),
         StateMachine.Failing.(mbtSuccess := v.ok), false)
  }

  /** The outline projected under the tracker's pose, and the box around it clipped to its image. */
  function AfterProjectOutline(s: Fields, vision: Vision): Fields
  {
    var outer := ProjectFirst(vision, s.outer, |s.outer|, s.cMo);
    var box := ClipToImage(BoundingRect(OuterPixels(vision, s.cam, outer)), s.image.cols, s.image.rows);
    s.(outer := outer, inner := ProjectFirst(vision, s.inner, |s.outer|, s.cMo), cvBox := box, vpBox := box)
  }

  /** The effect of `track_model`: the frame is taken, then the outline projected and boxed. */
  function AfterTrackModel(s: Fields, evt: Frame, vision: Vision): Fields
  {
    AfterProjectOutline(s.(cam := evt.cam, image := evt.image, gray := evt.image), vision)
  }

  /** `input_ready` in `WaitingForInput`: `input_selected`, then `no_input_selected`. */
  function WaitingStep(s: Fields, inputSelected: bool, noInputSelected: bool): Step
  {
    if inputSelected then Step(s.(state := StateMachine.DetectFlashcode), StateMachine.Failing.(inputSelected := true), false)
    else Step(s, StateMachine.Failing.(noInputSelected := noInputSelected), false)
  }

  /** `input_ready` in `DetectFlashcode`: a full-frame detection, then `find_flashcode_pos` and `DetectModel`. */
  function DetectFlashcodeStep(s: Fields, evt: Frame, vision: Vision, o: Options, polygon: seq<PixelPoint>): Step
    requires |polygon| >= |s.flashcode|
  {
    var s0 := s.(cam := evt.cam);
    if !vision.detect(FullFrameRequest(o, evt.image)) then Step(s0, StateMachine.Failing, false)
    else
      var m := EnterDetectModelStep(AfterFindFlashcodePos(s0, evt, vision, polygon), vision, o);
      m.(o := m.o.(flashcodeDetected := true))
  }

  /** `input_ready` in `TrackModel`: `track_model` when `mbt_success` holds, else `ReDetectFlashcode`. */
  function TrackModelStep(s: Fields, evt: Frame, vision: Vision, o: Options): Step
    requires |s.bank| == 6 && |evt.variances| == 6 && |s.middle| <= |s.inner| && WellFormed(evt.image)
  {
    var m := MbtStep(s, evt, vision, o);
    if m.o.mbtSuccess then m.(after := AfterTrackModel(m.after, evt, vision))
    else m.(after := m.after.(state := StateMachine.ReDetectFlashcode))
  }

  /**
   * The rows of `ReDetectFlashcode` after `mbt_success` failed: a search in the box, which
   * throws when the box is not inside the frame (or the frame is empty), then
   * `find_flashcode_pos` and `DetectModel`, or back to `DetectFlashcode`.
   */
  function RedetectStep(s: Fields, evt: Frame, vision: Vision, o: Options, polygon: seq<PixelPoint>): Step
    requires |polygon| >= |s.flashcode|
  {
    var s0 := s.(cam := evt.cam);
    if !RoiInside(s.cvBox, evt.image.cols, evt.image.rows) || evt.image.cols * evt.image.rows == 0 then
      Step(s0, StateMachine.Failing, true)
    else if !vision.detect(RoiRequest(o, s.cvBox, evt.image)) then
      Step(s0.(state := StateMachine.DetectFlashcode), StateMachine.Failing, false)
    else
      var m := EnterDetectModelStep(AfterFindFlashcodePos(s0, evt, vision, polygon), vision, o);
      m.(o := m.o.(flashcodeRedetected := true))
  }

  /** `input_ready` in `ReDetectFlashcode`: `mbt_success` resumes tracking, otherwise a re-detection. */
  function ReDetectFlashcodeStep(s: Fields, evt: Frame, vision: Vision, o: Options, polygon: seq<PixelPoint>): Step
    requires |s.bank| == 6 && |evt.variances| == 6 && |s.middle| <= |s.inner| && WellFormed(evt.image)
    requires |polygon| >= |s.flashcode|
  {
    var m := MbtStep(s, evt, vision, o);
    if m.o.mbtSuccess then m.(after := AfterTrackModel(m.after, evt, vision).(state := StateMachine.TrackModel))
    else RedetectStep(m.after, evt, vision, o, polygon)
  }

  /**
   * One `input_ready` as the back-end handles it in each state; `input_selected` and
   * `no_input_selected` are answers from outside the tracker.
   */
  function InputReadyStep(s: Fields, evt: Frame, vision: Vision, o: Options, inputSelected: bool,
                          noInputSelected: bool, polygon: seq<PixelPoint>): Step
    requires |s.bank| == 6 && |evt.variances| == 6 && |s.middle| <= |s.inner| && WellFormed(evt.image)
    requires |polygon| >= |s.flashcode|
  {
    match s.state
    case WaitingForInput => WaitingStep(s, inputSelected, noInputSelected)
    case DetectFlashcode => DetectFlashcodeStep(s, evt, vision, o, polygon)
    case TrackModel => TrackModelStep(s, evt, vision, o)
    case ReDetectFlashcode => ReDetectFlashcodeStep(s, evt, vision, o, polygon)
    case DetectModel => Step(s, StateMachine.Failing, false)
    case Finished => Step(s, StateMachine.Failing, false)
  }

  /** Without an exception, `input_ready` ends where the table sends the state on the guards' answers. */
  lemma InputReadyFollowsTable(s: Fields, evt: Frame, vision: Vision, o: Options, inputSelected: bool,
                       noInputSelected: bool, polygon: seq<PixelPoint>)
    requires |s.bank| == 6 && |evt.variances| == 6 && |s.middle| <= |s.inner| && WellFormed(evt.image)
    requires |polygon| >= |s.flashcode|
    ensures var st := InputReadyStep(s, evt, vision, o, inputSelected, noInputSelected, polygon);
      !st.thrown ==> st.after.state == StateMachine.Process(s.state, StateMachine.InputReady, st.o).state
  {
    var st := InputReadyStep(s, evt, vision, o, inputSelected, noInputSelected, polygon);
    match s.state
    case WaitingForInput => StateMachine.WaitingOnInput(st.o);
    case DetectFlashcode => StateMachine.DetectFlashcodeOnInput(st.o);
    case TrackModel => StateMachine.TrackModelOnInput(st.o);
    case ReDetectFlashcode => StateMachine.ReDetectOnInput(st.o);
    case DetectModel => StateMachine.TableIsReference(StateMachine.DetectModel, StateMachine.InputReady, st.o);
    case Finished => StateMachine.FinishedIsAbsorbing(StateMachine.InputReady, st.o);
  }

  /**
   * Only the two detection states throw: `model_detected` on an empty frame stops in
   * `DetectModel`, and a box the frame does not hold stops in `ReDetectFlashcode`.
   */
  lemma InputReadyThrows(s: Fields, evt: Frame, vision: Vision, o: Options, inputSelected: bool,
                       noInputSelected: bool, polygon: seq<PixelPoint>)
    requires |s.bank| == 6 && |evt.variances| == 6 && |s.middle| <= |s.inner| && WellFormed(evt.image)
    requires |polygon| >= |s.flashcode|
    ensures var st := InputReadyStep(s, evt, vision, o, inputSelected, noInputSelected, polygon);
      st.thrown ==> s.state == StateMachine.DetectFlashcode || s.state == StateMachine.ReDetectFlashcode
    ensures var st := InputReadyStep(s, evt, vision, o, inputSelected, noInputSelected, polygon);
      st.thrown ==>
        (st.after.state == StateMachine.DetectModel && (evt.image.cols == 0 || evt.image.rows == 0)) ||
        (st.after.state == StateMachine.ReDetectFlashcode &&
         (!RoiInside(s.cvBox, evt.image.cols, evt.image.rows) || evt.image.cols * evt.image.rows == 0))
  {
  }

  /**
   * The tracking box moves only when `mbt_success` holds. Then x and y are non-negative and
   * the right and bottom edges lie within the image; the width or height is negative when the
   * outline lies wholly outside the image.
   */
  lemma InputReadyMovesBoxOnlyWhenTracking(s: Fields, evt: Frame, vision: Vision, o: Options, inputSelected: bool,
                       noInputSelected: bool, polygon: seq<PixelPoint>)
    requires |s.bank| == 6 && |evt.variances| == 6 && |s.middle| <= |s.inner| && WellFormed(evt.image)
    requires |polygon| >= |s.flashcode|
    ensures var st := InputReadyStep(s, evt, vision, o, inputSelected, noInputSelected, polygon);
      !st.o.mbtSuccess ==> st.after.cvBox == s.cvBox && st.after.vpBox == s.vpBox
    ensures var st := InputReadyStep(s, evt, vision, o, inputSelected, noInputSelected, polygon);
      st.o.mbtSuccess ==>
        (s.state == StateMachine.TrackModel || s.state == StateMachine.ReDetectFlashcode) &&
        st.after.state == StateMachine.TrackModel && st.after.vpBox == st.after.cvBox &&
        0 <= st.after.cvBox.x && st.after.cvBox.x + st.after.cvBox.width <= evt.image.cols &&
        0 <= st.after.cvBox.y && st.after.cvBox.y + st.after.cvBox.height <= evt.image.rows
  {
  }

  /**
   * The detector is asked for the whole frame in `DetectFlashcode`, and for the tracking box
   * (with the scaled timeout) in `ReDetectFlashcode` once `mbt_success` failed.
   */
  lemma InputReadyAsksDetector(s: Fields, evt: Frame, vision: Vision, o: Options, inputSelected: bool,
                       noInputSelected: bool, polygon: seq<PixelPoint>)
    requires |s.bank| == 6 && |evt.variances| == 6 && |s.middle| <= |s.inner| && WellFormed(evt.image)
    requires |polygon| >= |s.flashcode|
    ensures var st := InputReadyStep(s, evt, vision, o, inputSelected, noInputSelected, polygon);
      s.state == StateMachine.DetectFlashcode ==> st.o.flashcodeDetected == vision.detect(FullFrameRequest(o, evt.image))
    ensures var st := InputReadyStep(s, evt, vision, o, inputSelected, noInputSelected, polygon);
      s.state == StateMachine.ReDetectFlashcode && !st.o.mbtSuccess &&
      RoiInside(s.cvBox, evt.image.cols, evt.image.rows) && evt.image.cols * evt.image.rows > 0 ==>
        st.o.flashcodeRedetected == vision.detect(RoiRequest(o, s.cvBox, evt.image))
  {
  }

  /** A detection puts the flashcode points on the detector's polygon; otherwise they stay. */
  lemma InputReadyLocatesFlashcode(s: Fields, evt: Frame, vision: Vision, o: Options, inputSelected: bool,
                       noInputSelected: bool, polygon: seq<PixelPoint>)
    requires |s.bank| == 6 && |evt.variances| == 6 && |s.middle| <= |s.inner| && WellFormed(evt.image)
    requires |polygon| >= |s.flashcode|
    ensures var st := InputReadyStep(s, evt, vision, o, inputSelected, noInputSelected, polygon);
      st.o.flashcodeDetected || st.o.flashcodeRedetected ==>
        st.after.flashcode == Located(vision, evt.cam, s.flashcode, polygon) && st.after.image == evt.image
    ensures var st := InputReadyStep(s, evt, vision, o, inputSelected, noInputSelected, polygon);
      !st.o.flashcodeDetected && !st.o.flashcodeRedetected ==> st.after.flashcode == s.flashcode
  {
  }

  /** A model detection ends in `TrackModel` with the pose computed from the located flashcode. */
  lemma InputReadyPoseFromFlashcode(s: Fields, evt: Frame, vision: Vision, o: Options, inputSelected: bool,
                       noInputSelected: bool, polygon: seq<PixelPoint>)
    requires |s.bank| == 6 && |evt.variances| == 6 && |s.middle| <= |s.inner| && WellFormed(evt.image)
    requires |polygon| >= |s.flashcode|
    ensures var st := InputReadyStep(s, evt, vision, o, inputSelected, noInputSelected, polygon);
      st.o.modelDetected ==>
        st.after.state == StateMachine.TrackModel && st.after.gray == evt.image &&
        st.after.cMo == vision.virtualVs(st.after.flashcode, vision.lagrange(st.after.flashcode))
  {
  }

  /** Only `mbt_success` feeds the detector bank and records the frame number. */
  lemma InputReadyFeedsBankOnlyWhenTracking(s: Fields, evt: Frame, vision: Vision, o: Options, inputSelected: bool,
                       noInputSelected: bool, polygon: seq<PixelPoint>)
    requires |s.bank| == 6 && |evt.variances| == 6 && |s.middle| <= |s.inner| && WellFormed(evt.image)
    requires |polygon| >= |s.flashcode|
    ensures var st := InputReadyStep(s, evt, vision, o, inputSelected, noInputSelected, polygon);
      s.state != StateMachine.TrackModel && s.state != StateMachine.ReDetectFlashcode ==>
        st.after.bank == s.bank && st.after.iter == s.iter
    ensures var st := InputReadyStep(s, evt, vision, o, inputSelected, noInputSelected, polygon);
      var v := MbtVerdict(vision, o, s.bank, evt.variances, s.middle, s.inner, evt.cMo, s.cam, evt.image);
      s.state == StateMachine.TrackModel || s.state == StateMachine.ReDetectFlashcode ==>
        st.after.bank == v.bank && st.after.iter == evt.frame && st.o.mbtSuccess == v.ok
  {
  }

  class Tracker {
    /** `cmd`: the tracker's own copy of the parsed options. */
    const cmd: Options
    var iter: int
    /** `hink_`: one detector per degree of freedom. */
    const hink: array<Hinkley>
    /** `I_` and `Igray_`. */
    var image: Image
    var gray: Image
    var cMo: Pose
    var cam: Camera
    /** `outer_points_3D_bcp_`: a copy of the configured outer points, kept as given. */
    const outerBackup: seq<Point>
    var inner: seq<Point>
    var outer: seq<Point>
    var middle: seq<Point>
    /** `f_`: the flashcode's 3-D corners and their detected normalised coordinates. */
    var flashcode: seq<Point>
    var cvBox: Rect
    var vpBox: Rect
    /** The current state of the back-end `msm::back::state_machine<Tracker_>`. */
    var state: StateMachine.State

    ghost predicate Valid()
      reads this, hink
    {
      hink.Length == 6 &&
      WellFormed(image) && WellFormed(gray) &&
      |middle| <= |inner| &&
      (if UsingAdhocRecovery(cmd) || LogCheckpoints(cmd) then |middle| == |outer| else middle == []) &&
      BankSeeded()
    }

    /** The tracker's fields and detector bank as one value. */
    ghost function Snap(): Fields
      reads this, hink
    {
      Fields(iter, image, gray, cMo, cam, inner, outer, middle, flashcode, cvBox, vpBox, state, hink[..])
    }

    /** Every detector is seeded with the configured parameters exactly when Hinkley is on. */
    ghost predicate BankSeeded()
      reads hink
      requires hink.Length == 6
    {
      forall i :: 0 <= i < 6 ==> SeededBy(hink[i], cmd)
    }

    /**
     * `Tracker_(cmd, ...)`: copies the configured points, builds the checkpoints when ad-hoc
     * recovery or checkpoint logging is on, and seeds the six detectors when Hinkley is on.
     */
    constructor (cmdLine: CmdLine)
      requires UsingAdhocRecovery(cmdLine.vm) || LogCheckpoints(cmdLine.vm) ==>
                 |cmdLine.innerPoints3D| >= |cmdLine.outerPoints3D|
      ensures Valid() && fresh(hink)
      ensures cmd == cmdLine.vm && iter == 0 && state == StateMachine.WaitingForInput
      ensures inner == cmdLine.innerPoints3D && outer == cmdLine.outerPoints3D
      ensures outerBackup == cmdLine.outerPoints3D && flashcode == cmdLine.flashcodePoints3D
      ensures if UsingAdhocRecovery(cmd) || LogCheckpoints(cmd)
              then IsMiddle(outer, inner, cmd.adhocRecoveryRatio, middle) else middle == []
      ensures forall i :: 0 <= i < 6 ==>
                hink[i] == if UsingHinkley(cmd) then Seed(cmd.hinkleyRange[0], cmd.hinkleyRange[1]) else Unseeded
      ensures image == Image(0, 0, []) && gray == Image(0, 0, [])
      ensures cMo == IdentityPose && cam == DefaultCamera
      ensures cvBox == Rect(0, 0, 0, 0) && vpBox == cvBox
    {
      var o := cmdLine.vm;
      cmd := o;
      iter := 0;
      inner := cmdLine.innerPoints3D;
      outer := cmdLine.outerPoints3D;
      outerBackup := cmdLine.outerPoints3D;
      var m: seq<Point> := [];
      if UsingAdhocRecovery(o) || LogCheckpoints(o) {
        m := MiddlePoints(cmdLine.outerPoints3D, cmdLine.innerPoints3D, o.adhocRecoveryRatio);
      }
      middle := m;
      flashcode := cmdLine.flashcodePoints3D;
      var bank := new Hinkley[6](_ => Unseeded);
      if UsingHinkley(o) {
        var alpha, delta := GetHinkleyAlpha(o).value, GetHinkleyDelta(o).value;
        for i := 0 to 6
          invariant forall k :: 0 <= k < i ==> bank[k] == Seed(alpha, delta)
          invariant forall k :: i <= k < 6 ==> bank[k] == Unseeded
        {
          bank[i] := Seed(alpha, delta);
        }
      }
      hink := bank;
      image, gray := Image(0, 0, []), Image(0, 0, []);
      cMo, cam := IdentityPose, DefaultCamera;
      cvBox := Rect(0, 0, 0, 0);
      vpBox := Rect(0, 0, 0, 0);
      state := StateMachine.WaitingForInput;
    }

    /** Guard `flashcode_detected`: takes the frame's camera and asks the detector for the whole frame. */
    method FlashcodeDetected(evt: Frame, vision: Vision) returns (found: bool)
      modifies this`cam
      ensures cam == evt.cam
      ensures found == vision.detect(DetectRequest(Rect(0, 0, evt.image.cols, evt.image.rows), cmd.dmxTimeout, 0, 0))
    {
      cam := evt.cam;
      found := vision.detect(DetectRequest(Rect(0, 0, evt.image.cols, evt.image.rows), cmd.dmxTimeout, 0, 0));
    }

    /**
     * Guard `flashcode_redetected`: asks the detector for the region of interest only, with
     * the timeout scaled by the region's share of the frame. Cutting the region out of the
     * frame throws when it does not lie inside it, and an empty frame leaves the timeout
     * undefined; both are errors here.
     */
    method FlashcodeRedetected(evt: Frame, vision: Vision) returns (r: Result<bool>)
      modifies this`cam
      ensures cam == evt.cam
      ensures r.Err? <==> !RoiInside(cvBox, evt.image.cols, evt.image.rows) || evt.image.cols * evt.image.rows == 0
      ensures r.Ok? ==> r.value == vision.detect(DetectRequest(cvBox,
                          RedetectTimeout(cmd.dmxTimeout, cvBox, evt.image.cols, evt.image.rows), cvBox.x, cvBox.y))
    {
      cam := evt.cam;
      var width, height := evt.image.cols, evt.image.rows;
      if !RoiInside(cvBox, width, height) {
        return Err("cv::Mat: region of interest outside the image");
      }
      if width * height <= 0 {
        return Err("timeout undefined for an empty frame");
      }
      var timeout := RedetectTimeout(cmd.dmxTimeout, cvBox, width, height);
      r := Ok(vision.detect(DetectRequest(cvBox, timeout, cvBox.x, cvBox.y)));
    }

    /**
     * Action `find_flashcode_pos`: each flashcode point takes the normalised coordinates of
     * the polygon corner with the same index (row = y, column = x); the frame becomes the
     * working image and the grey image is resized to it. The polygon's centre is computed
     * from its first four corners, then overwritten and never used.
     */
    method FindFlashcodePos(evt: Frame, vision: Vision, polygon: seq<PixelPoint>)
      requires Valid() && WellFormed(evt.image)
      requires |polygon| >= 4 && |polygon| >= |flashcode|
      modifies this`flashcode, this`image, this`gray
      ensures Valid()
      ensures flashcode == Located(vision, cam, old(flashcode), polygon)
      ensures image == evt.image && gray == Blank(evt.image.rows, evt.image.cols)
      ensures Snap() == AfterFindFlashcodePos(old(Snap()), evt, vision, polygon)
    {
      ghost var f0 := flashcode;
      for i := 0 to |flashcode|
        invariant |flashcode| == |f0|
        invariant forall k :: 0 <= k < |f0| ==> flashcode[k] == if k < i then Located(vision, cam, f0, polygon)[k] else f0[k]
      {
        var (x, y) := vision.toMeter(cam, ImagePoint(polygon[i].y as real, polygon[i].x as real));
        flashcode := flashcode[i := flashcode[i].(x := x, y := y)];
      }
      image := evt.image;
      gray := Blank(image.rows, image.cols);
    }

    /**
     * Guard `model_detected`: throws on an empty working or grey image; otherwise converts
     * the working image, computes the pose from the flashcode points (LAGRANGE, then
     * VIRTUAL_VS from it), projects the first four outer, inner and (when kept) middle
     * points, and answers true.
     */
    method ModelDetected(vision: Vision) returns (r: Result<bool>)
      requires Valid() && |outer| >= 4 && |inner| >= 4
      modifies this`gray, this`cMo, this`outer, this`inner, this`middle
      ensures Valid()
      ensures r.Err? <==> ModelThrows(old(Snap()))
      ensures r.Ok? ==> r.value
      ensures Snap() == if r.Err? then old(Snap()) else AfterModelDetected(old(Snap()), vision, cmd)
    {
      if image.cols == 0 || image.rows == 0 || gray.cols == 0 || gray.rows == 0 {
        return Err("uninitialized image");
      }
      gray := image;
      cMo := vision.lagrange(flashcode);
      cMo := vision.virtualVs(flashcode, cMo);
      ProjectCorners(vision);
      r := Ok(true);
    }

    /** The loop of `model_detected`: the first four outer, inner and (when kept) middle points are projected. */
    method ProjectCorners(vision: Vision)
      requires Valid() && |outer| >= 4 && |inner| >= 4
      modifies this`outer, this`inner, this`middle
      ensures Valid()
      ensures outer == ProjectFirst(vision, old(outer), 4, cMo) && inner == ProjectFirst(vision, old(inner), 4, cMo)
      ensures middle == if KeepsCheckpoints(cmd) then ProjectFirst(vision, old(middle), 4, cMo) else old(middle)
    {
      ghost var outer0, inner0, middle0 := outer, inner, middle;
      for i := 0 to 4
        invariant |outer| == |outer0| && |inner| == |inner0| && |middle| == |middle0|
        invariant outer == ProjectFirst(vision, outer0, i, cMo) && inner == ProjectFirst(vision, inner0, i, cMo)
        invariant middle == if KeepsCheckpoints(cmd) then ProjectFirst(vision, middle0, i, cMo) else middle0
      {
        outer := outer[i := Project(vision, outer[i], cMo)];
        inner := inner[i := Project(vision, inner[i], cMo)];
        if UsingAdhocRecovery(cmd) || LogCheckpoints(cmd) {
          middle := middle[i := Project(vision, middle[i], cMo)];
        }
      }
    }

    /** The Hinkley loop: each detector takes its entry; the loop returns at the first jump. */
    method FeedBank(diag: seq<real>, vision: Vision) returns (jumped: bool)
      requires Valid() && |diag| == 6
      modifies hink
      ensures Valid()
      ensures var stop := FirstJump(old(hink[..]), diag, vision.jump, 0);
        jumped == (stop < 6) && hink[..] == FeedFirst(old(hink[..]), diag, if stop < 6 then stop + 1 else 6)
    {
      ghost var bank0 := hink[..];
      for i := 0 to 6
        invariant hink[..] == FeedFirst(bank0, diag, i)
        invariant Valid()
        invariant forall k :: 0 <= k < i ==> !vision.jump(bank0[k], diag[k])
      {
        var h := hink[i];
        assert h == bank0[i] && SeededBy(h, cmd);
        hink[i] := Feed(h, diag[i]);
        assert hink[..] == FeedFirst(bank0, diag, i + 1);
        if vision.jump(h, diag[i]) {
          FirstJumpIs(bank0, diag, vision.jump, 0, i);
          return true;
        }
      }
      FirstJumpIs(bank0, diag, vision.jump, 0, 6);
      return false;
    }

    /**
     * The checkpoint loop: each middle point is projected, its window sampled in the grey
     * image and its median compared with the threshold; the loop returns at the first
     * failure, leaving later middle points unprojected.
     */
    method CheckCheckpoints(img: Image, vision: Vision) returns (passed: bool)
      requires Valid() && WellFormed(img)
      modifies this`middle
      ensures Valid()
      ensures var cp := FirstFailingCheckpoint(vision, cmd, old(middle), inner, cMo, cam, img, 0);
        passed == (cp == |old(middle)|) &&
        middle == ProjectFirst(vision, old(middle), if cp < |old(middle)| then cp + 1 else cp, cMo)
    {
      ghost var mids := middle;
      for p := 0 to |middle|
        invariant middle == ProjectFirst(vision, mids, p, cMo)
        invariant Valid()
        invariant forall k :: 0 <= k < p ==> !CheckpointFails(vision, cmd, mids[k], inner[k], cMo, cam, img)
      {
        middle := middle[p := Project(vision, middle[p], cMo)];
        var point3D := middle[p];
        var (mu, mv) := vision.toPixel(cam, point3D.x, point3D.y);
        var (iu, iv) := vision.toPixel(cam, inner[p].x, inner[p].y);
        var w := CheckpointWindow(mu, mv, iu, iv, cmd.adhocRecoverySize);
        var samples := SampleWindow(img, w);
        SampledIsGrey(img, samples, WindowCells(w, img.cols, img.rows));
        var median := vision.median(samples);
        assert median == CheckpointMedian(vision, cmd, mids[p], inner[p], cMo, cam, img);
        if UsingAdhocRecovery(cmd) && median > cmd.adhocRecoveryThreshold {
          FirstFailingCheckpointIs(vision, cmd, mids, inner, cMo, cam, img, 0, p);
          return false;
        }
      }
      FirstFailingCheckpointIs(vision, cmd, mids, inner, cMo, cam, img, 0, |mids|);
      return true;
    }

    /**
     * Guard `mbt_success`: records the frame number, grey image and pose, then runs the
     * variance limit, the Hinkley bank and the checkpoints in that order, each only when
     * configured, and fails at the first sub-check that fails.
     */
    method MbtSuccess(evt: Frame, vision: Vision) returns (ok: bool)
      requires Valid() && WellFormed(evt.image) && |evt.variances| == 6
      modifies this`iter, this`gray, this`cMo, this`middle, hink
      ensures Valid()
      ensures Step(Snap(), StateMachine.Failing.(mbtSuccess := ok), false) == MbtStep(old(Snap()), evt, vision, cmd)
    {
      iter := evt.frame;
      gray := evt.image;
      cMo := evt.cMo;
      assert Valid();
      if UsingVarLimit(cmd) {
        var within := WithinVarianceLimit(evt.variances, cmd.varLimit);
        if !within {
          return false;
        }
      }
      ok := BankAndCheckpoints(evt.variances, vision);
    }

    /** The part of `mbt_success` after the variance limit: the Hinkley bank, then the checkpoints. */
    method BankAndCheckpoints(diag: seq<real>, vision: Vision) returns (ok: bool)
      requires Valid() && |diag| == 6
      modifies this`middle, hink
      ensures Valid()
      ensures var v := BankVerdict(vision, cmd, old(hink[..]), diag, old(middle), inner, cMo, cam, gray);
        ok == v.ok && hink[..] == v.bank && middle == v.middle
    {
      if UsingHinkley(cmd) {
        var jumped := FeedBank(diag, vision);
        if jumped {
          return false;
        }
      }
      if UsingAdhocRecovery(cmd) || LogCheckpoints(cmd) {
        ok := CheckCheckpoints(gray, vision);
        return;
      }
      return true;
    }

    /**
     * Action `track_model`: takes the frame, projects every outer point and its inner
     * partner, and stores the bounding rectangle of the projected outer points cut down to
     * the image, in both the OpenCV and the ViSP box.
     */
    method TrackModel(evt: Frame, vision: Vision)
      requires Valid() && WellFormed(evt.image) && |inner| >= |outer|
      modifies this`cam, this`image, this`gray, this`outer, this`inner, this`cvBox, this`vpBox
      ensures Valid()
      ensures Snap() == AfterTrackModel(old(Snap()), evt, vision)
      ensures cvBox.x >= 0 && cvBox.y >= 0
      ensures cvBox.x + cvBox.width <= evt.image.cols && cvBox.y + cvBox.height <= evt.image.rows
    {
      cam, image, gray := evt.cam, evt.image, evt.image;
      ProjectModel(vision);
    }

    /** The rest of `track_model`, on the frame already taken. */
    method ProjectModel(vision: Vision)
      requires Valid() && |inner| >= |outer|
      modifies this`outer, this`inner, this`cvBox, this`vpBox
      ensures Valid()
      ensures Snap() == AfterProjectOutline(old(Snap()), vision)
    {
      var o, n, points := ProjectOutline(vision, cam, outer, inner, cMo);
      var box := ClippedBoundingBox(points, image.cols, image.rows);
      outer, inner, cvBox, vpBox := o, n, box, Rect(box.x, box.y, box.width, box.height);
    }

    /**
     * The completion out of `DetectModel`, entered after `find_flashcode_pos`: `model_detected`
     * chooses `TrackModel`, otherwise the default row goes back to `DetectFlashcode`; its
     * exception stops event processing in `DetectModel`.
     */
    method EnterDetectModel(vision: Vision) returns (detected: bool, thrown: bool)
      requires Valid() && |outer| >= 4 && |inner| >= 4
      modifies this`gray, this`cMo, this`outer, this`inner, this`middle, this`state
      ensures Valid()
      ensures thrown <==> image.cols == 0 || image.rows == 0 || old(gray).cols == 0 || old(gray).rows == 0
      ensures thrown ==> state == StateMachine.DetectModel && !detected
      ensures !thrown ==> detected && state == StateMachine.TrackModel
      ensures Step(Snap(), StateMachine.Failing.(modelDetected := detected), thrown) ==
                EnterDetectModelStep(old(Snap()), vision, cmd)
    {
      state := StateMachine.DetectModel;
      var r := ModelDetected(vision);
      if r.Err? {
        return false, true;
      }
      detected, thrown := r.value, false;
      state := if detected then StateMachine.TrackModel else StateMachine.DetectFlashcode;
    }

    /**
     * The back-end's handling of one `input_ready`: the rows of the current state are tried
     * bottom-up, each guard evaluated on the tracker in that order, and the first whose guard
     * holds fires with its action, followed by the completion out of `DetectModel`. The
     * answers of the guards evaluated are returned in `o` (the others are false);
     * `input_selected` and `no_input_selected` are supplied by the caller. `thrown` reports
     * an exception out of a guard, which ends the processing where it happened. The whole
     * effect is that of `InputReadyStep` on the tracker's old fields.
     */
    method ProcessInputReady(evt: Frame, vision: Vision, inputSelected: bool, noInputSelected: bool,
                             polygon: seq<PixelPoint>) returns (o: StateMachine.Outcomes, thrown: bool)
      requires Valid() && WellFormed(evt.image) && |evt.variances| == 6
      requires |polygon| >= 4 && |polygon| >= |flashcode| && |outer| >= 4 && |inner| >= |outer|
      modifies this, hink
      ensures Valid()
      ensures !thrown ==> state == StateMachine.Process(old(state), StateMachine.InputReady, o).state
      ensures thrown ==> old(state) in {StateMachine.DetectFlashcode, StateMachine.ReDetectFlashcode}
      ensures old(state) == StateMachine.WaitingForInput ==>
                !thrown && o.inputSelected == inputSelected && (o.noInputSelected <==> !inputSelected && noInputSelected)
      ensures old(state) in {StateMachine.TrackModel, StateMachine.ReDetectFlashcode} ==>
                o.mbtSuccess == MbtVerdict(vision, cmd, old(hink[..]), evt.variances, old(middle), old(inner),
                                           evt.cMo, old(cam), evt.image).ok
      ensures Step(Snap(), o, thrown) ==
                InputReadyStep(old(Snap()), evt, vision, cmd, inputSelected, noInputSelected, polygon)
    {
      o, thrown := StateMachine.Failing, false;
      match state
      case WaitingForInput =>
        o := o.(inputSelected := inputSelected);
        if inputSelected {
          state := StateMachine.DetectFlashcode;
        } else {
          o := o.(noInputSelected := noInputSelected);
        }
        StateMachine.WaitingOnInput(o);
      case DetectFlashcode =>
        o, thrown := InputInDetectFlashcode(evt, vision, polygon);
      case TrackModel =>
        o := InputInTrackModel(evt, vision);
      case ReDetectFlashcode =>
        o, thrown := InputInReDetectFlashcode(evt, vision, polygon);
      case DetectModel =>
        StateMachine.TableIsReference(StateMachine.DetectModel, StateMachine.InputReady, o);
      case Finished =>
        StateMachine.FinishedIsAbsorbing(StateMachine.InputReady, o);
    }

    /** `input_ready` in `DetectFlashcode`: `flashcode_detected`, then `find_flashcode_pos` and the completion. */
    method InputInDetectFlashcode(evt: Frame, vision: Vision, polygon: seq<PixelPoint>)
      returns (o: StateMachine.Outcomes, thrown: bool)
      requires Valid() && WellFormed(evt.image) && state == StateMachine.DetectFlashcode
      requires |polygon| >= 4 && |polygon| >= |flashcode| && |outer| >= 4 && |inner| >= 4
      modifies this`cam, this`flashcode, this`image, this`gray, this`cMo, this`outer, this`inner, this`middle, this`state
      ensures Valid()
      ensures !thrown ==> state == StateMachine.Process(StateMachine.DetectFlashcode, StateMachine.InputReady, o).state
      ensures thrown ==> o.flashcodeDetected && state == StateMachine.DetectModel
      ensures Step(Snap(), o, thrown) == DetectFlashcodeStep(old(Snap()), evt, vision, cmd, polygon)
    {
      var found := FlashcodeDetected(evt, vision);
      o := StateMachine.Failing.(flashcodeDetected := found);
      thrown := false;
      if found {
        FindFlashcodePos(evt, vision, polygon);
        var detected;
        detected, thrown := EnterDetectModel(vision);
        o := o.(modelDetected := detected);
      }
      StateMachine.DetectFlashcodeOnInput(o);
    }

    /** `input_ready` in `TrackModel`: `mbt_success` keeps tracking with `track_model`, or falls back to re-detection. */
    method InputInTrackModel(evt: Frame, vision: Vision) returns (o: StateMachine.Outcomes)
      requires Valid() && WellFormed(evt.image) && |evt.variances| == 6 && |inner| >= |outer|
      requires state == StateMachine.TrackModel
      modifies this`iter, this`gray, this`cMo, this`middle, this`cam, this`image, this`outer, this`inner,
               this`cvBox, this`vpBox, this`state, hink
      ensures Valid()
      ensures state == StateMachine.Process(StateMachine.TrackModel, StateMachine.InputReady, o).state
      ensures o.mbtSuccess == MbtVerdict(vision, cmd, old(hink[..]), evt.variances, old(middle), old(inner),
                                         evt.cMo, old(cam), evt.image).ok
      ensures Step(Snap(), o, false) == TrackModelStep(old(Snap()), evt, vision, cmd)
    {
      var ok := MbtSuccess(evt, vision);
      o := StateMachine.Failing.(mbtSuccess := ok);
      if ok {
        TrackModel(evt, vision);
      } else {
        state := StateMachine.ReDetectFlashcode;
      }
      StateMachine.TrackModelOnInput(o);
    }

    /**
     * `input_ready` in `ReDetectFlashcode`: `mbt_success` resumes tracking; otherwise
     * `flashcode_redetected` decides between `find_flashcode_pos` with the completion and
     * a full detection.
     */
    method InputInReDetectFlashcode(evt: Frame, vision: Vision, polygon: seq<PixelPoint>)
      returns (o: StateMachine.Outcomes, thrown: bool)
      requires Valid() && WellFormed(evt.image) && |evt.variances| == 6
      requires |polygon| >= 4 && |polygon| >= |flashcode| && |outer| >= 4 && |inner| >= |outer|
      requires state == StateMachine.ReDetectFlashcode
      modifies this`iter, this`gray, this`cMo, this`middle, this`cam, this`image, this`outer, this`inner,
               this`cvBox, this`vpBox, this`flashcode, this`state, hink
      ensures Valid()
      ensures !thrown ==> state == StateMachine.Process(StateMachine.ReDetectFlashcode, StateMachine.InputReady, o).state
      ensures thrown ==> !o.mbtSuccess
      ensures o.mbtSuccess == MbtVerdict(vision, cmd, old(hink[..]), evt.variances, old(middle), old(inner),
                                         evt.cMo, old(cam), evt.image).ok
      ensures Step(Snap(), o, thrown) == ReDetectFlashcodeStep(old(Snap()), evt, vision, cmd, polygon)
    {
      ghost var verdict := MbtVerdict(vision, cmd, hink[..], evt.variances, middle, inner, evt.cMo, cam, evt.image);
      var ok := MbtSuccess(evt, vision);
      assert ok == verdict.ok;
      if ok {
        o, thrown := StateMachine.Failing.(mbtSuccess := true), false;
        TrackModel(evt, vision);
        state := StateMachine.TrackModel;
        StateMachine.ReDetectOnInput(o);
      } else {
        o, thrown := Redetect(evt, vision, polygon);
      }
    }

    /** The rows of `ReDetectFlashcode` tried once `mbt_success` has failed. */
    method Redetect(evt: Frame, vision: Vision, polygon: seq<PixelPoint>)
      returns (o: StateMachine.Outcomes, thrown: bool)
      requires Valid() && WellFormed(evt.image)
      requires |polygon| >= 4 && |polygon| >= |flashcode| && |outer| >= 4 && |inner| >= 4
      modifies this`cam, this`flashcode, this`image, this`gray, this`cMo, this`outer, this`inner, this`middle, this`state
      ensures Valid() && !o.mbtSuccess
      ensures !thrown ==> state == StateMachine.Process(StateMachine.ReDetectFlashcode, StateMachine.InputReady, o).state
      ensures thrown <==> !RoiInside(old(cvBox), evt.image.cols, evt.image.rows) || evt.image.cols * evt.image.rows == 0
      ensures o.flashcodeRedetected ==> o.modelDetected && state == StateMachine.TrackModel
      ensures Step(Snap(), o, thrown) == RedetectStep(old(Snap()), evt, vision, cmd, polygon)
    {
      o, thrown := StateMachine.Failing, false;
      var r := FlashcodeRedetected(evt, vision);
      if r.Err? {
        thrown := true;
      } else if r.value {
        o := o.(flashcodeRedetected := true);
        assert evt.image.cols != 0 && evt.image.rows != 0;
        FindFlashcodePos(evt, vision, polygon);
        assert !ModelThrows(Snap());
        var detected;
        detected, thrown := EnterDetectModel(vision);
        o := o.(modelDetected := detected);
      } else {
        state := StateMachine.DetectFlashcode;
      }
      StateMachine.ReDetectOnInput(o);
    }

    /** The back-end's handling of `select_input` and `finished`, which have no guards. */
    method ProcessControl(e: StateMachine.Event)
      requires e == StateMachine.SelectInput || e == StateMachine.FinishedEvent
      modifies this`state
      ensures state == StateMachine.Process(old(state), e, StateMachine.Failing).state
      ensures e == StateMachine.FinishedEvent && old(state) != StateMachine.WaitingForInput ==> state == StateMachine.Finished
      ensures e == StateMachine.SelectInput ==>
                state == if old(state) == StateMachine.WaitingForInput then StateMachine.DetectFlashcode else old(state)
    {
      StateMachine.SelectInputStartsDetection(state, StateMachine.Failing);
      StateMachine.FinishedEventEndsTracking(state, StateMachine.Failing);
      if e == StateMachine.SelectInput {
        if state == StateMachine.WaitingForInput {
          state := StateMachine.DetectFlashcode;
        }
      } else if state != StateMachine.WaitingForInput {
        state := StateMachine.Finished;
      }
    }
  }
}
